/**
 * `numberToVietnameseWords` of frontend/src/components/PaymentSuccessTTS.jsx,
 * the converter the cashier screen speaks with: a thousands count read with
 * the two-digit reader, then hundreds, then the last two digits.
 */
module ClientNumberWords {
  import opened NumberReading
  import ServerNumberWords

  /** `tens[t] + (o ? " " + ones[o] : "")` for the tens digit t and unit o of k. */
  function TensAndUnit(k: nat): string {
    Word(Tens, k / 10) + (if k % 10 != 0 then " " + Word(Ones, k % 10) else "")
  }

  /** The thousands block: a lone digit word, or the two-digit reader; from a count of one
      hundred up the tens lookup is past the table and prints "undefined". */
  function ThousandsPart(thousands: nat): string {
    if thousands == 0 then ""
    else if thousands < 10 then Word(Ones, thousands) + " nghìn "
    else TensAndUnit(thousands) + " nghìn "
  }

  /** The hundreds block and the block of the last two digits. */
  function BelowThousandPart(hundreds: nat, tenUnits: nat): string {
    HundredsPart(hundreds) + TenUnitsPart(hundreds, tenUnits)
  }

  function HundredsPart(hundreds: nat): string {
    if hundreds > 0 then Word(Ones, hundreds) + " trăm " else ""
  }

  /** A lone unit digit after hundreds is read "lẻ <unit>"; without hundreds it goes
      through the two-digit reader, whose empty tens word leaves a leading space. */
  function TenUnitsPart(hundreds: nat, tenUnits: nat): string {
    if tenUnits == 0 then ""
    else if tenUnits < 10 && hundreds > 0 then "lẻ " + Word(Ones, tenUnits) + " "
    else TensAndUnit(tenUnits) + " "
  }

  function Words(n: nat): string {
    if n == 0 then "không"
    else Trim(ThousandsPart(n / 1000) + BelowThousandPart((n % 1000) / 100, n % 100))
  }

  /** The thousands count read as a three-digit group, as the server does. */
  function CorrectedThousandsPart(thousands: nat): string {
    if thousands > 0 then ServerNumberWords.GroupWords(thousands) + " nghìn " else ""
  }

  function CorrectedWords(n: nat): string {
    if n == 0 then "không"
    else Trim(CorrectedThousandsPart(n / 1000) + BelowThousandPart((n % 1000) / 100, n % 100))
  }

  /** The last three digits are a lone unit digit: the case in which the two-digit reader
      leaves a leading space. */
  predicate LoneUnit(n: nat) {
    (n % 1000) / 100 == 0 && 1 <= n % 100 <= 9
  }

  // ---------------------------------------------------------------------------
  // Lemmas
  // ---------------------------------------------------------------------------

  lemma Digits(n: nat)
    requires n < 1_000_000
    ensures n / 1_000_000 == 0 && (n % 1_000_000) / 1_000 == n / 1000
    ensures (n % 1000) % 100 == n % 100
  {
  }

  /** The remainder by d of n is the y in n == x * d + y with 0 <= y < d. */
  lemma ModUnique(n: nat, d: nat, x: nat, y: nat)
    requires 0 <= y < d && n == x * d + y
    ensures n % d == y
  {
    var q, r := n / d, n % d;
    assert n == q * d + r;
    if q > x {
      MulLe(x + 1, q, d);
      assert false;
    } else if q < x {
      MulLe(q + 1, x, d);
      assert false;
    }
  }

  lemma MulLe(a: nat, b: nat, d: nat)
    requires a <= b
    ensures a * d <= b * d && (a * d == (a - 1) * d + d || a == 0)
  {
  }

  /** Taking the remainder by a multiple of d first does not change the remainder by d. */
  lemma ModOfMod(n: nat, k: nat, d: nat)
    requires k > 0 && d > 0
    ensures (n % (k * d)) % d == n % d
  {
    var m := k * d;
    var q, r := n / m, n % m;
    var a, b := q * k, r / d;
    assert n == q * m + r;
    assert r == b * d + r % d;
    MulAssoc(q, k, d);
    MulAddRight(a, b, d);
    ModUnique(n, d, a + b, r % d);
  }

  lemma MulAssoc(a: nat, b: nat, c: nat)
    ensures a * (b * c) == (a * b) * c
  {
  }

  lemma MulAddRight(a: nat, b: nat, c: nat)
    ensures (a + b) * c == a * c + b * c
  {
  }

  /** The two-digit reader says what the server's tens block says. */
  lemma TensAndUnitIsReading(k: nat)
    requires 10 <= k < 100
    ensures TensAndUnit(k) == Join(TensReading(k / 10, k % 10))
  {
    ServerNumberWords.TensWords(k / 10, k % 10);
  }

  /** Below one hundred thousand the thousands block is the reading of the count. */
  lemma ThousandsPartIsReading(k: nat)
    requires k < 100
    ensures ThousandsPart(k) == Phrase(ThousandsReading(0, k))
  {
    if k > 0 {
      var r := GroupReading(k);
      assert r == TensReading(k / 10, k % 10) by {
        assert k % 100 == k;
        assert HundredsReading(k / 100, k % 100 > 0 && (k % 100) / 10 == 0) == [];
      }
      GroupReadingSyllables(k);
      var w := if k < 10 then Word(Ones, k) else TensAndUnit(k);
      if k < 10 {
        assert r == [Ones[k]];
      } else {
        TensAndUnitIsReading(k);
      }
      assert w == Join(r);
      JoinAppend(r, ["nghìn"]);
      ServerNumberWords.SpacedLiterals();
      ServerNumberWords.SpacedScale(w, "nghìn", " nghìn ");
    }
  }

  lemma CorrectedThousandsPartIsReading(k: nat)
    requires k < 1000
    ensures CorrectedThousandsPart(k) == Phrase(ThousandsReading(0, k))
  {
    ServerNumberWords.ThousandsPartIsReading(0, k, 0);
  }

  lemma HundredsPartIsReading(hundreds: nat)
    requires hundreds < 10
    ensures HundredsPart(hundreds) == Phrase(HundredsReading(hundreds, false))
  {
    ServerNumberWords.HundredsWords(hundreds, false);
    assert HundredsPart(hundreds) + "" == HundredsPart(hundreds);
  }

  /** A group with no tens and no unit is its hundreds block alone. */
  lemma RoundHundredsIsReading(m: nat)
    requires m < 1000 && m % 100 == 0
    ensures BelowThousandPart(m / 100, m % 100) == Phrase(GroupReading(m))
  {
    var h := HundredsReading(m / 100, false);
    assert GroupReading(m) == h by {
      assert GroupReading(m) == h + [];
    }
    assert BelowThousandPart(m / 100, m % 100) == HundredsPart(m / 100) by {
      assert TenUnitsPart(m / 100, m % 100) == "";
      assert HundredsPart(m / 100) + "" == HundredsPart(m / 100);
    }
    HundredsPartIsReading(m / 100);
  }

  /** After hundreds, a lone unit digit is "lẻ" and the digit. */
  lemma LeUnitIsReading(m: nat)
    requires m < 1000 && m / 100 > 0 && 1 <= m % 100 <= 9
    ensures BelowThousandPart(m / 100, m % 100) == Phrase(GroupReading(m))
  {
    var hundreds, tenUnits := m / 100, m % 100;
    var u := Ones[tenUnits];
    var h := HundredsReading(hundreds, true);
    var head := Word(Ones, hundreds) + " trăm ";
    var tail := u + " ";
    assert Phrase(h) == head + "lẻ " by {
      ServerNumberWords.HundredsWords(hundreds, true);
    }
    assert BelowThousandPart(hundreds, tenUnits) == Phrase(h) + tail by {
      assert TenUnitsPart(hundreds, tenUnits) == "lẻ " + tail;
      assert head + ("lẻ " + tail) == (head + "lẻ ") + tail;
    }
    assert Phrase(h) + tail == Phrase(GroupReading(m)) by {
      LeUnitGroup(m);
      assert Phrase([u]) == tail;
      PhraseAppend(h, [u]);
    }
  }

  /** The reference reading of hundreds followed by a lone unit digit. */
  lemma LeUnitGroup(m: nat)
    requires m < 1000 && m / 100 > 0 && 1 <= m % 100 <= 9
    ensures GroupReading(m) == HundredsReading(m / 100, true) + [Ones[m % 100]]
  {
    var r := m % 100;
    assert r / 10 == 0 && r % 10 == r;
    assert TensReading(0, r) == [Ones[r]] by {
      assert TensReading(0, r) == [] + [Ones[r]];
    }
  }

  /** Two or more tens, after hundreds or not. */
  lemma TensIsReading(m: nat)
    requires m < 1000 && m % 100 >= 10
    ensures BelowThousandPart(m / 100, m % 100) == Phrase(GroupReading(m))
  {
    var hundreds, tenUnits := m / 100, m % 100;
    var h := HundredsReading(hundreds, false);
    var t := TensReading(tenUnits / 10, tenUnits % 10);
    assert GroupReading(m) == h + t;
    HundredsPartIsReading(hundreds);
    TensAndUnitIsReading(tenUnits);
    assert t != [];
    assert TenUnitsPart(hundreds, tenUnits) == Phrase(t);
    PhraseAppend(h, t);
  }

  /** Without hundreds a lone unit digit is read with a space in front. */
  lemma LoneUnitIsReading(m: nat)
    requires 1 <= m <= 9
    ensures BelowThousandPart(m / 100, m % 100) == " " + Phrase(GroupReading(m))
  {
    assert m / 100 == 0 && m % 100 == m;
    assert GroupReading(m) == [Ones[m]] by {
      assert GroupReading(m) == [] + [Ones[m]];
    }
    assert TenUnitsPart(0, m) == "" + " " + Ones[m] + " ";
  }

  /** The hundreds and last-two-digits blocks of a group are the group's reading, except
      that a lone unit digit without hundreds carries a leading space. */
  lemma BelowThousandPartIsReading(m: nat)
    requires m < 1000
    ensures LoneUnit(m) ==> BelowThousandPart(m / 100, m % 100) == " " + Phrase(GroupReading(m))
    ensures !LoneUnit(m) ==> BelowThousandPart(m / 100, m % 100) == Phrase(GroupReading(m))
  {
    assert m % 1000 == m;
    if m % 100 == 0 {
      RoundHundredsIsReading(m);
    } else if m % 100 >= 10 {
      TensIsReading(m);
    } else if m / 100 > 0 {
      LeUnitIsReading(m);
    } else {
      LoneUnitIsReading(m);
    }
  }

  /** Below one million both converters are functions of the thousands count and the last
      group. */
  lemma WordsByGroups(n: nat)
    requires 0 < n < 1_000_000
    ensures ServerNumberWords.Words(n) == ServerNumberWords.GroupsWords(0, n / 1000, n % 1000)
    ensures CorrectedWords(n)
            == Trim(CorrectedThousandsPart(n / 1000) + BelowThousandPart((n % 1000) / 100, (n % 1000) % 100))
    ensures (LoneUnit(n) <==> LoneUnit(n % 1000)) && (n % 1000) % 10 == n % 10
  {
    Digits(n);
    var b := n % 1000;
    assert b % 1000 == b;
    ModOfMod(n, 100, 10);
  }

  /** The words of the thousands group and of the last group, as the reference reads them. */
  function LastGroups(t: nat, b: nat): seq<string>
    requires t < 1000 && b < 1000
  {
    ThousandsReading(0, t) + (if b > 0 then GroupReading(b) else [])
  }

  /** Without millions the reference reading is the thousands group and the last group. */
  lemma NoMillions(t: nat, b: nat)
    requires t < 1000 && b < 1000
    ensures GroupsReading(0, t, b) == LastGroups(t, b)
  {
    assert MillionsReading(0) == [];
  }

  /** Below one million the server reads the thousands group, then the last group. */
  lemma ServerLastGroups(t: nat, b: nat)
    requires t < 1000 && b < 1000 && (t > 0 || b > 0)
    ensures ServerNumberWords.GroupsWords(0, t, b) == Join(LastGroups(t, b))
    ensures AllSyllables(LastGroups(t, b))
  {
    NoMillions(t, b);
    ServerNumberWords.GroupsWordsIsReading(0, t, b);
    GroupsReadingSyllables(0, t, b);
  }

  /** Without a lone unit digit, the corrected client's blocks are the same words, each
      followed by a space. */
  lemma ClientLastGroups(t: nat, b: nat)
    requires t < 1000 && b < 1000 && !LoneUnit(b)
    ensures CorrectedThousandsPart(t) + BelowThousandPart(b / 100, b % 100) == Phrase(LastGroups(t, b))
  {
    var T := ThousandsReading(0, t);
    var B := if b > 0 then GroupReading(b) else [];
    assert BelowThousandPart(b / 100, b % 100) == Phrase(B) by {
      if b == 0 {
        assert BelowThousandPart(0, 0) == "";
      } else {
        BelowThousandPartIsReading(b);
      }
    }
    CorrectedThousandsPartIsReading(t);
    PhraseAppend(T, B);
  }

  /** Without a lone unit digit after thousands, the corrected blocks read as the server's. */
  lemma GroupsAgree(t: nat, b: nat)
    requires t < 1000 && b < 1000 && (t > 0 || b > 0) && !LoneUnit(b)
    ensures Trim(CorrectedThousandsPart(t) + BelowThousandPart(b / 100, b % 100))
            == ServerNumberWords.GroupsWords(0, t, b)
  {
    ServerLastGroups(t, b);
    ClientLastGroups(t, b);
    TrimPhrase(LastGroups(t, b));
  }

  /** Below a thousand, a lone unit is a single digit from one to nine. */
  lemma LoneUnitDigits(b: nat)
    requires b < 1000 && LoneUnit(b)
    ensures 1 <= b <= 9 && b % 100 == b && b % 10 == b && b / 100 == 0
  {
    assert b % 1000 == b;
  }

  /** The last group of a count whose last three digits are a lone unit digit. */
  lemma LoneUnitGroup(b: nat)
    requires b < 1000 && LoneUnit(b)
    ensures GroupReading(b) == [Ones[b % 10]] && b % 100 == b % 10 && b / 100 == 0
    ensures BelowThousandPart(b / 100, b % 100) == " " + (Ones[b % 10] + " ")
    ensures IsSyllable(Ones[b % 10])
  {
    LoneUnitDigits(b);
    var u := Ones[b % 10];
    assert GroupReading(b) == [u] by {
      assert GroupReading(b) == [] + [u];
    }
    BelowThousandPartIsReading(b);
    assert Phrase([u]) == u + " ";
    assert u in Vocabulary;
    VocabularyIsSyllables(u);
  }

  /** The thousands reading is a non-empty, well-spaced run of words. */
  lemma ThousandsReadingWellEnded(t: nat)
    requires 0 < t < 1000
    ensures var j := Join(ThousandsReading(0, t));
      |j| > 0 && j[0] != ' ' && j[|j| - 1] != ' '
  {
    var T := ThousandsReading(0, t);
    GroupsReadingSyllables(0, t, 0);
    GroupReadingSyllables(t);
    JoinWellSpaced(T);
    JoinAppend(GroupReading(t), ["nghìn"]);
  }

  /** A lone unit digit with no thousands is read as that digit alone, by both. */
  lemma LoneUnitAgrees(b: nat)
    requires b < 1000 && LoneUnit(b)
    ensures Trim(CorrectedThousandsPart(0) + BelowThousandPart(b / 100, b % 100))
            == ServerNumberWords.GroupsWords(0, 0, b)
  {
    var u := Ones[b % 10];
    LoneUnitGroup(b);
    NoThousandsBlock(BelowThousandPart(b / 100, b % 100));
    assert ServerNumberWords.GroupsWords(0, 0, b) == u by {
      assert GroupsReading(0, 0, b) == [u] by {
        assert GroupsReading(0, 0, b) == [] + [] + [u];
      }
      ServerNumberWords.GroupsWordsIsReading(0, 0, b);
    }
    TrimAround(u);
  }

  /** A zero thousands count contributes nothing. */
  lemma NoThousandsBlock(s: string)
    ensures CorrectedThousandsPart(0) + s == s
  {
  }

  /** The server reads a lone unit digit after thousands with one space before it. */
  lemma ServerThousandsThenUnit(t: nat, b: nat)
    requires 0 < t < 1000 && b < 1000 && LoneUnit(b)
    ensures ServerNumberWords.GroupsWords(0, t, b) == Join(ThousandsReading(0, t)) + " " + Ones[b % 10]
  {
    var T := ThousandsReading(0, t);
    var u := Ones[b % 10];
    LoneUnitGroup(b);
    NoMillions(t, b);
    assert GroupsReading(0, t, b) == T + [u];
    ServerNumberWords.GroupsWordsIsReading(0, t, b);
    ThousandsReadingWellEnded(t);
    JoinAppend(T, [u]);
  }

  /** The corrected converter keeps the two-digit reader's extra space before the unit. */
  lemma GroupsDoubleSpace(t: nat, b: nat)
    requires 0 < t < 1000 && b < 1000 && LoneUnit(b)
    ensures Trim(CorrectedThousandsPart(t) + BelowThousandPart(b / 100, b % 100))
            == Join(ThousandsReading(0, t)) + "  " + Ones[b % 10]
  {
    var j := Join(ThousandsReading(0, t));
    var u := Ones[b % 10];
    LoneUnitGroup(b);
    CorrectedThousandsPartIsReading(t);
    ThousandsReadingWellEnded(t);
    assert CorrectedThousandsPart(t) == j + " " by {
      GroupsReadingSyllables(0, t, 0);
      GroupReadingSyllables(t);
    }
    TrimDoubleSpace(j, u);
  }

  /** The corrected converter says what the server says below one million, except that a
      thousands count followed by a lone unit digit keeps two spaces before that digit
      where the server has one. */
  lemma CorrectedIsServer(n: nat)
    requires n < 1_000_000
    ensures !LoneUnit(n) || n < 1000 ==> CorrectedWords(n) == ServerNumberWords.Words(n)
    ensures LoneUnit(n) && n >= 1000 ==>
      && CorrectedWords(n) == Join(ThousandsReading(0, n / 1000)) + "  " + Ones[n % 10]
      && ServerNumberWords.Words(n) == Join(ThousandsReading(0, n / 1000)) + " " + Ones[n % 10]
  {
    if n > 0 {
      var t, b := n / 1000, n % 1000;
      WordsByGroups(n);
      if !LoneUnit(n) {
        GroupsAgree(t, b);
      } else if n >= 1000 {
        GroupsDoubleSpace(t, b);
        ServerThousandsThenUnit(t, b);
      } else {
        assert t == 0;
        LoneUnitAgrees(b);
      }
    }
  }

  // ---------------------------------------------------------------------------
  // The converter as written
  // ---------------------------------------------------------------------------

  /** Below one hundred thousand the two-digit thousands reader is right. */
  lemma ClientIsCorrected(n: nat)
    requires n < 100_000
    ensures Words(n) == CorrectedWords(n)
  {
    if n > 0 {
      ThousandsPartIsReading(n / 1000);
      CorrectedThousandsPartIsReading(n / 1000);
    }
  }

  /** Below one hundred thousand the cashier screen says "không" for zero and otherwise
      what the server says, except for the doubled space before a lone unit digit after
      thousands. */
  lemma ClientAgreesWithServer(n: nat)
    requires n < 100_000
    ensures n == 0 ==> Words(n) == "không"
    ensures !LoneUnit(n) || n < 1000 ==> Words(n) == ServerNumberWords.Words(n)
    ensures LoneUnit(n) && n >= 1000 ==>
      && Words(n) == Join(ThousandsReading(0, n / 1000)) + "  " + Ones[n % 10]
      && ServerNumberWords.Words(n) == Join(ThousandsReading(0, n / 1000)) + " " + Ones[n % 10]
  {
    ClientIsCorrected(n);
    CorrectedIsServer(n);
  }

  /** The cashier screen reads one thousand "một nghìn". */
  lemma OneThousandReading(n: nat)
    requires n == 1000
    ensures Words(n) == "một" + " " + "nghìn"
  {
    assert n / 1000 == 1 && (n % 1000) / 100 == 0 && n % 100 == 0;
    assert Ones[1] == "một";
    assert ThousandsPart(1) + BelowThousandPart(0, 0) == "một" + " " + "nghìn" + " ";
    TrimAround("một" + " " + "nghìn");
  }

  /** The reference reading of one thousand. */
  lemma ThousandsGroupOfOne()
    ensures Join(ThousandsReading(0, 1)) == "một" + " " + "nghìn"
  {
    assert ThousandsReading(0, 1) == ["một", "nghìn"] by {
      assert GroupReading(1) == [] + ["một"];
    }
    assert ["một", "nghìn"][..1] == ["một"];
  }

  /** One thousand and five has two spaces before the unit. */
  lemma Example1005(n: nat)
    requires n == 1005
    ensures Words(n) == "một" + " " + "nghìn" + "  " + "năm"
  {
    var j := Join(ThousandsReading(0, 1));
    assert Words(n) == j + "  " + Ones[5] by {
      assert LoneUnit(n) && n / 1000 == 1 && n % 10 == 5;
      ClientAgreesWithServer(n);
    }
    FiveIsNam();
    ThousandsGroupOfOne();
  }

  lemma FiveIsNam()
    ensures Ones[5] == "năm"
  {
  }

  /** The reading is trimmed at both ends. */
  lemma ClientWellEnded(n: nat)
    ensures var w := Words(n); |w| == 0 || (w[0] != ' ' && w[|w| - 1] != ' ')
  {
    if n > 0 {
      TrimmedEnds(ThousandsPart(n / 1000) + BelowThousandPart((n % 1000) / 100, n % 100));
    }
  }

  /** "lẻ" is read below one hundred thousand exactly when there are hundreds and the last
      two digits are a lone unit digit. */
  lemma ClientSaysLe(n: nat)
    requires 0 < n < 100_000
    ensures !LoneUnit(n) || n < 1000 ==> Words(n) == Join(Reading(n))
    ensures "lẻ" in Reading(n) <==> (n % 1000) / 100 > 0 && 1 <= n % 100 <= 9
    ensures (n % 1000) / 100 > 0 && 1 <= n % 100 <= 9 ==>
      var r := Reading(n);
      |r| >= 2 && r[|r| - 2] == "lẻ" && r[|r| - 1] == Ones[n % 10]
    ensures LoneUnit(n) && n >= 1000 ==>
      && Words(n) == Join(ThousandsReading(0, n / 1000)) + "  " + Ones[n % 10]
      && "lẻ" !in ThousandsReading(0, n / 1000)
  {
    ClientAgreesWithServer(n);
    ServerNumberWords.WordsIsReading(n);
    ReadingMarksLe(n);
    if (n % 1000) / 100 > 0 && 1 <= n % 100 <= 9 {
      ReadingEndsInLe(n);
    }
  }

  /** Below one hundred thousand the thousands count has no hundreds, so "lẻ" can only come
      from the last three digits. */
  lemma ReadingMarksLe(n: nat)
    requires 0 < n < 100_000
    ensures "lẻ" in Reading(n) <==> (n % 1000) / 100 > 0 && 1 <= n % 100 <= 9
    ensures "lẻ" !in ThousandsReading(0, n / 1000)
  {
    var t, b := n / 1000, n % 1000;
    Digits(n);
    assert Reading(n) == GroupsReading(0, t, b);
    assert MillionsReading(0) == [];
    if t > 0 {
      GroupReadingMarkers(t);
    }
    if b > 0 {
      GroupReadingMarkers(b);
    }
  }

  /** Hundreds followed by a lone unit digit end the reading with "lẻ" and the unit. */
  lemma ReadingEndsInLe(n: nat)
    requires 0 < n < 100_000 && (n % 1000) / 100 > 0 && 1 <= n % 100 <= 9
    ensures var r := Reading(n);
      |r| >= 2 && r[|r| - 2] == "lẻ" && r[|r| - 1] == Ones[n % 10]
  {
    var b := n % 1000;
    ReadingBelowHundredThousand(n);
    Digits(n);
    LastDigitOfLoneUnit(n);
    LeUnitGroup(b);
    var h := HundredsReading(b / 100, true);
    assert h[|h| - 1] == "lẻ";
  }

  /** Below one hundred thousand the reading is the thousands and then the last group. */
  lemma ReadingBelowHundredThousand(n: nat)
    requires 0 < n < 100_000
    ensures Reading(n) == LastGroups(n / 1000, n % 1000)
  {
    ReadingIsGroups(n);
    Digits(n);
    NoMillions(n / 1000, n % 1000);
  }

  lemma ReadingIsGroups(n: nat)
    requires 0 < n < 1_000_000_000
    ensures Reading(n) == GroupsReading(n / 1_000_000, (n % 1_000_000) / 1_000, n % 1_000)
  {
  }

  /** When the last two digits are a single unit digit, that digit is the last one. */
  lemma LastDigitOfLoneUnit(n: nat)
    requires 1 <= n % 100 <= 9
    ensures n % 10 == n % 100
  {
    ModOfMod(n, 10, 10);
  }

  /** From one hundred thousand the thousands block starts with "undefined". */
  lemma ThousandsPartUndefined(k: nat)
    requires k >= 100
    ensures |ThousandsPart(k)| >= 9 && ThousandsPart(k)[..9] == "undefined"
  {
    var p := "undefined";
    var rest := (if k % 10 != 0 then " " + Word(Ones, k % 10) else "") + " nghìn ";
    assert Word(Tens, k / 10) == p;
    assert ThousandsPart(k) == p + rest;
  }

  /** From one hundred thousand up the tens lookup for the thousands count runs past the
      table: the reading starts with "undefined". */
  lemma ClientSaysUndefined(n: nat)
    requires n >= 100_000
    ensures |Words(n)| >= 9 && Words(n)[..9] == "undefined"
  {
    var thousands := ThousandsPart(n / 1000);
    var s := thousands + BelowThousandPart((n % 1000) / 100, n % 100);
    ThousandsPartUndefined(n / 1000);
    assert s[..9] == thousands[..9];
    TrimKeepsPrefix(s, "undefined");
  }
}
