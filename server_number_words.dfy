/**
 * `numberToVietnameseWords` of backend/server.js: the amount read as a
 * millions group, a thousands group and a last group, each of which is read
 * by `toWordsBelowThousand`.
 */
module ServerNumberWords {
  import opened NumberReading

  /** `toWordsBelowThousand`: the hundreds block, then the tens-and-units block, trimmed. */
  function GroupWords(n: nat): string {
    var hundred := n / 100;
    var remainder := n % 100;
    var ten := remainder / 10;
    var unit := remainder % 10;
    Trim(HundredsPart(hundred, remainder > 0 && ten == 0) + TensPart(ten, unit))
  }

  /** "<digit> trăm ", and "lẻ " when the last two digits are a lone unit. */
  function HundredsPart(hundred: nat, le: bool): string {
    if hundred > 0 then Word(Ones, hundred) + " trăm " + (if le then "lẻ " else "") else ""
  }

  function TensPart(ten: nat, unit: nat): string {
    if ten > 1 then Word(Tens, ten) + (if unit != 0 then " " + Word(Ones, unit) else "")
    else if ten == 1 then "mười" + (if unit != 0 then " " + Word(Ones, unit) else "")
    else if unit > 0 then Word(Ones, unit)
    else ""
  }

  /** `numberToVietnameseWords`. Past 999 999 999 the millions group has a hundreds digit
      of ten or more and its lookup prints "undefined". */
  function Words(n: nat): string {
    if n == 0 then "không"
    else GroupsWords(n / 1_000_000, (n % 1_000_000) / 1_000, n % 1_000)
  }

  /** The three blocks appended to `result`, then trimmed. */
  function GroupsWords(million: nat, thousand: nat, belowThousand: nat): string {
    Trim(MillionsPart(million) + ThousandsPart(million, thousand, belowThousand)
         + (if belowThousand > 0 then GroupWords(belowThousand) else ""))
  }

  function MillionsPart(million: nat): string {
    if million > 0 then GroupWords(million) + " triệu " else ""
  }

  /** With millions and an empty thousands group the condition on `belowThousand` is
      moot: "không nghìn" is written whenever the thousands group is zero. */
  function ThousandsPart(million: nat, thousand: nat, belowThousand: nat): string {
    if thousand > 0 then GroupWords(thousand) + " nghìn "
    else if million > 0 && (belowThousand > 0 || thousand == 0) then "không nghìn "
    else ""
  }

  /** The tens word of the table is the digit word and "mươi" from two on. */
  lemma TensWord(t: nat)
    requires 2 <= t < 10
    ensures Word(Tens, t) == Join([Ones[t], "mươi"])
  {
  }

  /** The hundreds part of `toWordsBelowThousand`, before the trim. */
  lemma HundredsWords(hundred: nat, le: bool)
    requires hundred < 10
    ensures HundredsPart(hundred, le) == Phrase(HundredsReading(hundred, le))
  {
    if hundred > 0 {
      var w := Ones[hundred];
      assert [w, "trăm"][..1] == [w];
      assert Join([w, "trăm"]) == w + " " + "trăm";
      if le {
        assert [w, "trăm", "lẻ"][..2] == [w, "trăm"];
        assert Join([w, "trăm", "lẻ"]) == w + " " + "trăm" + " " + "lẻ";
        assert w + " trăm " + "lẻ " == w + " " + "trăm" + " " + "lẻ" + " ";
      } else {
        assert HundredsReading(hundred, le) == [w, "trăm"];
        assert w + " trăm " + "" == w + " " + "trăm" + " ";
      }
    }
  }

  /** The tens and units part of `toWordsBelowThousand`. */
  lemma TensWords(ten: nat, unit: nat)
    requires ten < 10 && unit < 10
    ensures TensPart(ten, unit) == Join(TensReading(ten, unit))
  {
    var t := if ten > 1 then [Ones[ten], "mươi"] else if ten == 1 then ["mười"] else [];
    var u := if unit > 0 then [Ones[unit]] else [];
    assert TensReading(ten, unit) == t + u;
    if ten > 1 {
      TensWord(ten);
      assert [Ones[ten], "mươi"][..1] == [Ones[ten]];
    }
    if |t| > 0 && |u| > 0 {
      JoinAppend(t, u);
    } else if |t| > 0 {
      assert t + u == t;
    } else {
      assert t + u == u;
    }
  }

  /** A three-digit group is read as the reference reading, words separated by single
      spaces. */
  lemma GroupWordsIsReading(n: nat)
    requires 0 < n < 1000
    ensures GroupWords(n) == Join(GroupReading(n))
  {
    var hundred := n / 100;
    var remainder := n % 100;
    var ten := remainder / 10;
    var unit := remainder % 10;
    var h := HundredsReading(hundred, remainder > 0 && ten == 0);
    var t := TensReading(ten, unit);
    GroupReadingSyllables(n);
    HundredsWords(hundred, remainder > 0 && ten == 0);
    TensWords(ten, unit);
    assert GroupReading(n) == h + t;
    if |t| > 0 {
      PhraseThenJoin(h, t);
      TrimJoin(h + t);
    } else {
      assert h + t == h;
      assert TensPart(ten, unit) == "";
      assert HundredsPart(hundred, remainder > 0 && ten == 0) + "" == Phrase(h);
      TrimPhrase(h);
    }
  }

  /** A non-zero group followed by its scale word, as written with a trailing space. */
  lemma ScaledGroupWords(g: nat, scale: string)
    requires 0 < g < 1000 && scale in Vocabulary
    ensures GroupWords(g) + " " + scale + " " == Phrase(GroupReading(g) + [scale])
  {
    GroupWordsIsReading(g);
    GroupReadingSyllables(g);
    JoinAppend(GroupReading(g), [scale]);
  }

  lemma SpacedLiterals()
    ensures " triệu " == " " + "triệu" + " "
    ensures " nghìn " == " " + "nghìn" + " "
  {
  }

  lemma SpacedScale(w: string, scale: string, spaced: string)
    requires spaced == " " + scale + " "
    ensures w + spaced == w + " " + scale + " "
  {
  }

  lemma MillionsPartIsReading(million: nat)
    requires million < 1000
    ensures MillionsPart(million) == Phrase(MillionsReading(million))
  {
    if million > 0 {
      ScaledGroupWords(million, "triệu");
      SpacedLiterals();
      SpacedScale(GroupWords(million), "triệu", " triệu ");
    }
  }

  lemma ThousandsPartIsReading(million: nat, thousand: nat, belowThousand: nat)
    requires thousand < 1000
    ensures ThousandsPart(million, thousand, belowThousand) == Phrase(ThousandsReading(million, thousand))
  {
    if thousand > 0 {
      ScaledGroupWords(thousand, "nghìn");
      SpacedLiterals();
      SpacedScale(GroupWords(thousand), "nghìn", " nghìn ");
    } else if million > 0 {
      assert ["không", "nghìn"][..1] == ["không"];
      assert "không nghìn " == "không" + " " + "nghìn" + " ";
    }
  }

  lemma GroupsWordsIsReading(million: nat, thousand: nat, belowThousand: nat)
    requires million < 1000 && thousand < 1000 && belowThousand < 1000
    requires million > 0 || thousand > 0 || belowThousand > 0
    ensures GroupsWords(million, thousand, belowThousand)
            == Join(GroupsReading(million, thousand, belowThousand))
  {
    var a := MillionsReading(million);
    var b := ThousandsReading(million, thousand);
    var c := if belowThousand > 0 then GroupReading(belowThousand) else [];
    GroupsReadingSyllables(million, thousand, belowThousand);
    MillionsPartIsReading(million);
    ThousandsPartIsReading(million, thousand, belowThousand);
    PhraseAppend(a, b);
    AllSyllablesAppend(a, b);
    if belowThousand > 0 {
      GroupWordsIsReading(belowThousand);
      GroupReadingSyllables(belowThousand);
    }
    TrimPhraseThenJoin(a + b, c);
  }

  /** The spoken amount is the reference reading, words separated by single spaces. */
  lemma WordsIsReading(n: nat)
    requires n < 1_000_000_000
    ensures Words(n) == Join(Reading(n))
  {
    if n > 0 {
      GroupsWordsIsReading(n / 1_000_000, (n % 1_000_000) / 1_000, n % 1_000);
    }
  }

  /** The spoken amount is non-empty, made only of syllables of the vocabulary, with no
      space at either end and never two in a row; zero is "không". */
  lemma WordsWellSpaced(n: nat)
    requires n < 1_000_000_000
    ensures Words(n) == Join(Reading(n)) && AllSyllables(Reading(n))
    ensures WellSpaced(Words(n)) && |Words(n)| > 0
    ensures n == 0 ==> Words(n) == "không"
  {
    WordsIsReading(n);
    ReadingSyllables(n);
    JoinWellSpaced(Reading(n));
  }
}
