/**
 * How an amount is read aloud in Vietnamese, shared by the two converters
 * (backend/server.js and frontend/src/components/PaymentSuccessTTS.jsx):
 * the digit-word tables they both use, JavaScript's `trim` and table
 * lookup, and a reference reading given as a sequence of syllables.
 */
module NumberReading {
  /** The digit words; index 0 is the empty word. */
  const Ones: seq<string> := ["", "một", "hai", "ba", "bốn", "năm", "sáu", "bảy", "tám", "chín"]

  /** The tens words; index 1 is "mười", the others are the digit word and "mươi". */
  const Tens: seq<string> := ["", "mười", "hai mươi", "ba mươi", "bốn mươi", "năm mươi", "sáu mươi",
                              "bảy mươi", "tám mươi", "chín mươi"]

  /** `table[i]` as JavaScript concatenates it: past the end the entry is `undefined`,
      which prints as "undefined". */
  function Word(table: seq<string>, i: nat): string {
    if i < |table| then table[i] else "undefined"
  }

  // ---------------------------------------------------------------------------
  // Spacing
  // ---------------------------------------------------------------------------

  function TrimEnd(s: string): (r: string)
    ensures |r| <= |s| && r == s[..|r|]
    ensures |r| == 0 || r[|r| - 1] != ' '
    decreases |s|
  {
    if |s| > 0 && s[|s| - 1] == ' ' then TrimEnd(s[..|s| - 1]) else s
  }

  function TrimStart(s: string): (r: string)
    ensures |r| <= |s| && r == s[|s| - |r|..]
    ensures |r| == 0 || r[0] != ' '
    decreases |s|
  {
    if |s| > 0 && s[0] == ' ' then TrimStart(s[1..]) else s
  }

  /** `String.prototype.trim` on text whose only white space is the ASCII space, which
      holds for every string the converters build. */
  function Trim(s: string): string {
    TrimStart(TrimEnd(s))
  }

  predicate IsSyllable(w: string) {
    |w| > 0 && forall i :: 0 <= i < |w| ==> w[i] != ' '
  }

  /** Every syllable a reading is made of. */
  const Vocabulary: set<string> :=
    {"một", "hai", "ba", "bốn", "năm", "sáu", "bảy", "tám", "chín",
     "mươi", "mười", "lẻ", "trăm", "nghìn", "triệu", "không"}

  predicate AllSyllables(ws: seq<string>) {
    forall i :: 0 <= i < |ws| ==> ws[i] in Vocabulary
  }

  /** Words separated by single spaces. */
  function Join(ws: seq<string>): string
    decreases |ws|
  {
    if |ws| == 0 then ""
    else if |ws| == 1 then ws[0]
    else Join(ws[..|ws| - 1]) + " " + ws[|ws| - 1]
  }

  /** Words each followed by a space, the shape `result += word + " "` builds. */
  function Phrase(ws: seq<string>): string {
    if |ws| == 0 then "" else Join(ws) + " "
  }

  /** No space at either end and never two spaces in a row. */
  predicate WellSpaced(s: string) {
    && (|s| == 0 || (s[0] != ' ' && s[|s| - 1] != ' '))
    && forall i :: 0 <= i < |s| - 1 ==> s[i] != ' ' || s[i + 1] != ' '
  }

  // ---------------------------------------------------------------------------
  // The reference reading
  // ---------------------------------------------------------------------------

  /** A group of three digits, 0 < n < 1000: "<h> trăm", "lẻ" before a lone unit digit
      after hundreds, "<t> mươi" or "mười" for the tens, and the unit digit. */
  function GroupReading(n: nat): seq<string>
    requires n < 1000
  {
    var hundred := n / 100;
    var remainder := n % 100;
    HundredsReading(hundred, remainder > 0 && remainder / 10 == 0) + TensReading(remainder / 10, remainder % 10)
  }

  function HundredsReading(hundred: nat, le: bool): seq<string>
    requires hundred < 10
  {
    if hundred > 0 then [Ones[hundred], "trăm"] + (if le then ["lẻ"] else []) else []
  }

  function TensReading(ten: nat, unit: nat): seq<string>
    requires ten < 10 && unit < 10
  {
    (if ten > 1 then [Ones[ten], "mươi"] else if ten == 1 then ["mười"] else [])
    + (if unit > 0 then [Ones[unit]] else [])
  }

  /** An amount below one billion: the millions group and "triệu", the thousands group and
      "nghìn" ("không nghìn" when there are millions but no thousands), then the last
      group; zero is "không". */
  function Reading(n: nat): seq<string>
    requires n < 1_000_000_000
  {
    if n == 0 then ["không"]
    else GroupsReading(n / 1_000_000, (n % 1_000_000) / 1_000, n % 1_000)
  }

  function GroupsReading(million: nat, thousand: nat, below: nat): seq<string>
    requires million < 1000 && thousand < 1000 && below < 1000
  {
    MillionsReading(million) + ThousandsReading(million, thousand)
    + (if below > 0 then GroupReading(below) else [])
  }

  function MillionsReading(million: nat): seq<string>
    requires million < 1000
  {
    if million > 0 then GroupReading(million) + ["triệu"] else []
  }

  function ThousandsReading(million: nat, thousand: nat): seq<string>
    requires thousand < 1000
  {
    if thousand > 0 then GroupReading(thousand) + ["nghìn"]
    else if million > 0 then ["không", "nghìn"] else []
  }

  // ---------------------------------------------------------------------------
  // Lemmas
  // ---------------------------------------------------------------------------

  lemma VocabularyIsSyllables(w: string)
    requires w in Vocabulary
    ensures IsSyllable(w)
  {
  }

  /** Joining two non-empty runs of words puts one space between them. */
  lemma {:induction false} JoinAppend(a: seq<string>, b: seq<string>)
    requires |a| > 0 && |b| > 0
    ensures Join(a + b) == Join(a) + " " + Join(b)
    decreases |b|
  {
    if |b| == 1 {
      assert (a + b)[..|a + b| - 1] == a;
    } else {
      var b' := b[..|b| - 1];
      assert (a + b)[..|a + b| - 1] == a + b';
      JoinAppend(a, b');
    }
  }

  lemma PhraseAppend(a: seq<string>, b: seq<string>)
    ensures Phrase(a) + Phrase(b) == Phrase(a + b)
  {
    if |a| == 0 {
      assert a + b == b;
    } else if |b| == 0 {
      assert a + b == a;
    } else {
      JoinAppend(a, b);
    }
  }

  lemma PhraseThenJoin(a: seq<string>, b: seq<string>)
    requires |b| > 0
    ensures Phrase(a) + Join(b) == Join(a + b)
  {
    if |a| == 0 {
      assert a + b == b;
    } else {
      JoinAppend(a, b);
    }
  }

  /** Syllables joined by single spaces are well spaced, and begin and end with the first
      and last syllable's letters. */
  lemma {:induction false} JoinWellSpaced(ws: seq<string>)
    requires AllSyllables(ws)
    ensures WellSpaced(Join(ws))
    ensures |ws| > 0 ==> |Join(ws)| > 0
    decreases |ws|
  {
    if |ws| > 1 {
      var init := ws[..|ws| - 1];
      var last := ws[|ws| - 1];
      assert AllSyllables(init) by {
        forall i | 0 <= i < |init| ensures init[i] in Vocabulary {
          assert init[i] == ws[i];
        }
      }
      JoinWellSpaced(init);
      VocabularyIsSyllables(ws[|ws| - 1]);
      var s := Join(ws);
      var j := Join(init);
      assert s == j + " " + last;
      assert IsSyllable(last);
      forall i | 0 <= i < |s| - 1
        ensures s[i] != ' ' || s[i + 1] != ' '
      {
        if i < |j| - 1 {
          assert s[i] == j[i] && s[i + 1] == j[i + 1];
        } else if i == |j| - 1 {
          assert s[i] == j[|j| - 1];
        } else {
          assert s[i + 1] == last[i - |j|];
        }
      }
    } else if |ws| == 1 {
      assert Join(ws) == ws[0];
      VocabularyIsSyllables(ws[0]);
    }
  }

  /** Trimming the end never removes a character that is not a space, nor anything before
      it. */
  lemma {:induction false} TrimEndKeeps(s: string, i: nat)
    requires i < |s| && s[i] != ' '
    ensures |TrimEnd(s)| > i
    decreases |s|
  {
    if s[|s| - 1] == ' ' {
      TrimEndKeeps(s[..|s| - 1], i);
    }
  }

  lemma TrimWellEnded(s: string)
    requires |s| == 0 || (s[0] != ' ' && s[|s| - 1] != ' ')
    ensures Trim(s) == s
  {
  }

  /** Trimming removes one space on either side of a well-ended text. */
  lemma TrimAround(x: string)
    requires |x| > 0 && x[0] != ' ' && x[|x| - 1] != ' '
    ensures Trim(x + " ") == x && Trim(" " + (x + " ")) == x
  {
    assert (x + " ")[..|x|] == x;
    assert TrimEnd(x + " ") == x;
    var y := " " + x;
    assert " " + (x + " ") == y + " ";
    assert (y + " ")[..|y|] == y;
    assert TrimEnd(y + " ") == y;
    assert y[1..] == x;
  }

  /** Trimming a phrase followed by a space and a second phrase keeps the two spaces
      between them. */
  lemma TrimDoubleSpace(j: string, u: string)
    requires |j| > 0 && j[0] != ' ' && j[|j| - 1] != ' '
    requires |u| > 0 && u[|u| - 1] != ' '
    ensures Trim((j + " ") + (" " + (u + " "))) == j + "  " + u
  {
    var x := j + "  " + u;
    assert (j + " ") + (" " + (u + " ")) == x + " ";
    assert x[0] == j[0] && x[|x| - 1] == u[|u| - 1];
    TrimAround(x);
  }

  /** Trimming leaves no space at either end. */
  lemma TrimmedEnds(s: string)
    ensures var r := Trim(s); |r| == 0 || (r[0] != ' ' && r[|r| - 1] != ' ')
  {
    var e := TrimEnd(s);
    var r := TrimStart(e);
    if |r| > 0 {
      assert r[|r| - 1] == e[|e| - 1];
    }
  }

  /** Trimming keeps a prefix that starts and ends with something other than a space. */
  lemma TrimKeepsPrefix(s: string, p: string)
    requires |p| > 0 && p[0] != ' ' && p[|p| - 1] != ' '
    requires |s| >= |p| && s[..|p|] == p
    ensures |Trim(s)| >= |p| && Trim(s)[..|p|] == p
  {
    TrimEndKeeps(s, |p| - 1);
    var e := TrimEnd(s);
    assert e[..|p|] == p;
    assert TrimStart(e) == e;
  }

  /** Trimming a phrase drops its one trailing space. */
  lemma TrimPhrase(ws: seq<string>)
    requires AllSyllables(ws)
    ensures Trim(Phrase(ws)) == Join(ws)
  {
    JoinWellSpaced(ws);
    if |ws| > 0 {
      TrimAround(Join(ws));
    }
  }

  /** A phrase followed by a run of words, trimmed, is all the words joined. */
  lemma TrimPhraseThenJoin(a: seq<string>, c: seq<string>)
    requires AllSyllables(a) && AllSyllables(c)
    ensures Trim(Phrase(a) + Join(c)) == Join(a + c)
  {
    AllSyllablesAppend(a, c);
    if |c| > 0 {
      PhraseThenJoin(a, c);
      TrimJoin(a + c);
    } else {
      assert a + c == a;
      assert Phrase(a) + Join(c) == Phrase(a);
      TrimPhrase(a);
    }
  }

  lemma TrimJoin(ws: seq<string>)
    requires AllSyllables(ws)
    ensures Trim(Join(ws)) == Join(ws)
  {
    JoinWellSpaced(ws);
  }

  lemma GroupReadingSyllables(n: nat)
    requires 0 < n < 1000
    ensures AllSyllables(GroupReading(n)) && |GroupReading(n)| > 0
  {
    var hundred := n / 100;
    var remainder := n % 100;
    var h := HundredsReading(hundred, remainder > 0 && remainder / 10 == 0);
    var t := TensReading(remainder / 10, remainder % 10);
    assert AllSyllables(h) && AllSyllables(t);
    AllSyllablesAppend(h, t);
  }

  lemma AllSyllablesAppend(a: seq<string>, b: seq<string>)
    requires AllSyllables(a) && AllSyllables(b)
    ensures AllSyllables(a + b)
  {
    forall i | 0 <= i < |a + b| ensures (a + b)[i] in Vocabulary {
      if i < |a| { assert (a + b)[i] == a[i]; } else { assert (a + b)[i] == b[i - |a|]; }
    }
  }

  lemma GroupsReadingSyllables(million: nat, thousand: nat, below: nat)
    requires million < 1000 && thousand < 1000 && below < 1000
    ensures AllSyllables(MillionsReading(million)) && AllSyllables(ThousandsReading(million, thousand))
    ensures AllSyllables(GroupsReading(million, thousand, below))
    ensures |GroupsReading(million, thousand, below)| > 0 <==> million > 0 || thousand > 0 || below > 0
  {
    var a := MillionsReading(million);
    var b := ThousandsReading(million, thousand);
    var c := if below > 0 then GroupReading(below) else [];
    if million > 0 {
      GroupReadingSyllables(million);
      AllSyllablesAppend(GroupReading(million), ["triệu"]);
    }
    if thousand > 0 {
      GroupReadingSyllables(thousand);
      AllSyllablesAppend(GroupReading(thousand), ["nghìn"]);
    }
    if below > 0 {
      GroupReadingSyllables(below);
    }
    AllSyllablesAppend(a, b);
    AllSyllablesAppend(a + b, c);
  }

  lemma ReadingSyllables(n: nat)
    requires n < 1_000_000_000
    ensures AllSyllables(Reading(n)) && |Reading(n)| > 0
  {
    if n > 0 {
      GroupsReadingSyllables(n / 1_000_000, (n % 1_000_000) / 1_000, n % 1_000);
    }
  }

  // ---------------------------------------------------------------------------
  // Which markers a reading contains
  // ---------------------------------------------------------------------------

  /** No digit word is one of the marker syllables. */
  lemma DigitWordIsNoMarker(d: nat)
    requires 1 <= d < 10
    ensures Ones[d] != "lẻ" && Ones[d] != "mười" && Ones[d] != "không"
  {
  }

  lemma TensReadingMarkers(ten: nat, unit: nat)
    requires ten < 10 && unit < 10
    ensures "lẻ" !in TensReading(ten, unit) && "không" !in TensReading(ten, unit)
    ensures "mười" in TensReading(ten, unit) <==> ten == 1
  {
    if ten > 1 { DigitWordIsNoMarker(ten); }
    if unit > 0 { DigitWordIsNoMarker(unit); }
  }

  lemma HundredsReadingMarkers(hundred: nat, le: bool)
    requires hundred < 10
    ensures "lẻ" in HundredsReading(hundred, le) <==> hundred > 0 && le
    ensures "mười" !in HundredsReading(hundred, le) && "không" !in HundredsReading(hundred, le)
  {
    if hundred > 0 { DigitWordIsNoMarker(hundred); }
  }

  /** "lẻ" is read in a group exactly when it has hundreds and its last two digits are a
      lone unit digit; "mười" exactly when its tens digit is one; "không" never. */
  lemma GroupReadingMarkers(n: nat)
    requires 0 < n < 1000
    ensures "lẻ" in GroupReading(n) <==> n / 100 > 0 && (n % 100) / 10 == 0 && n % 100 > 0
    ensures "mười" in GroupReading(n) <==> (n % 100) / 10 == 1
    ensures "không" !in GroupReading(n)
  {
    var remainder := n % 100;
    HundredsReadingMarkers(n / 100, remainder > 0 && remainder / 10 == 0);
    TensReadingMarkers(remainder / 10, remainder % 10);
  }

  /** With millions and an empty thousands group, "triệu" is followed by "không nghìn". */
  lemma KhongNghinAfterMillions(n: nat)
    requires n < 1_000_000_000 && n / 1_000_000 > 0 && (n % 1_000_000) / 1_000 == 0
    ensures var r, i := Reading(n), |GroupReading(n / 1_000_000)| + 1;
      i + 1 < |r| && r[i - 1] == "triệu" && r[i] == "không" && r[i + 1] == "nghìn"
  {
    var m, b := n / 1_000_000, n % 1_000;
    var g := GroupReading(m);
    assert Reading(n) == g + ["triệu"] + ["không", "nghìn"] + (if b > 0 then GroupReading(b) else []) by {
      assert Reading(n) == GroupsReading(m, 0, b);
    }
  }

  /** "không" is read for zero, and otherwise exactly when there are millions but no
      thousands ("không nghìn"). */
  lemma ReadingSaysKhong(n: nat)
    requires n < 1_000_000_000
    ensures "không" in Reading(n) <==> n == 0 || (n / 1_000_000 > 0 && (n % 1_000_000) / 1_000 == 0)
    ensures n / 1_000_000 > 0 && (n % 1_000_000) / 1_000 == 0 ==>
      exists i :: 1 <= i && i + 1 < |Reading(n)| && Reading(n)[i - 1] == "triệu"
                  && Reading(n)[i] == "không" && Reading(n)[i + 1] == "nghìn"
  {
    if n / 1_000_000 > 0 && (n % 1_000_000) / 1_000 == 0 {
      KhongNghinAfterMillions(n);
    }
    if n > 0 {
      GroupsSayKhong(n / 1_000_000, (n % 1_000_000) / 1_000, n % 1_000);
    }
  }

  /** Among the three groups, "không" comes only from an empty thousands group under
      millions. */
  lemma GroupsSayKhong(million: nat, thousand: nat, below: nat)
    requires million < 1000 && thousand < 1000 && below < 1000
    ensures "không" in GroupsReading(million, thousand, below) <==> million > 0 && thousand == 0
  {
    if million > 0 { GroupReadingMarkers(million); }
    if thousand > 0 { GroupReadingMarkers(thousand); }
    if below > 0 { GroupReadingMarkers(below); }
  }
}
