/**
 * The wallet correlation id built by `POST /zalopay/create-order`
 * (backend/server.js): the day as YYMMDD, an underscore, and the order id
 * in decimal. The id is what the provider's callback later quotes back.
 */
module AppTransIds {
  import opened Wrappers

  predicate IsDigit(c: char) {
    '0' <= c <= '9'
  }

  predicate AllDigits(s: string) {
    forall i :: 0 <= i < |s| ==> IsDigit(s[i])
  }

  function DigitChar(d: nat): (c: char)
    requires d < 10
    ensures IsDigit(c)
  {
    ('0' as int + d) as char
  }

  function DigitValue(c: char): (d: nat)
    requires IsDigit(c)
    ensures d < 10
  {
    (c as int - '0' as int)
  }

  /** A number as JavaScript's template literal prints a non-negative integer: decimal
      digits, no leading zero. */
  function Decimal(n: nat): (s: string)
    ensures |s| >= 1 && AllDigits(s)
    ensures (s[0] == '0') == (n == 0)
  {
    if n < 10 then [DigitChar(n)] else Decimal(n / 10) + [DigitChar(n % 10)]
  }

  function ParseDecimal(s: string): nat
    requires AllDigits(s)
  {
    if |s| == 0 then 0 else ParseDecimal(s[..|s| - 1]) * 10 + DigitValue(s[|s| - 1])
  }

  lemma {:induction false} ParseDecimalInverts(n: nat)
    ensures ParseDecimal(Decimal(n)) == n
  {
    var s := Decimal(n);
    if n >= 10 {
      assert s[..|s| - 1] == Decimal(n / 10);
      ParseDecimalInverts(n / 10);
    }
  }

  /** Two digits, zero-padded, as moment's `YY`, `MM` and `DD` print them. */
  function Pad2(n: nat): (s: string)
    requires n < 100
    ensures |s| == 2 && AllDigits(s)
  {
    [DigitChar(n / 10), DigitChar(n % 10)]
  }

  predicate IsDatePrefix(d: string) {
    |d| == 6 && AllDigits(d)
  }

  /** `moment().format("YYMMDD")` for a calendar day. */
  function DatePrefix(year: nat, month: nat, day: nat): (d: string)
    requires 1 <= month <= 12 && 1 <= day <= 31
    ensures IsDatePrefix(d)
  {
    Pad2(year % 100) + Pad2(month) + Pad2(day)
  }

  function AppTransId(datePrefix: string, orderId: nat): string {
    datePrefix + "_" + Decimal(orderId)
  }

  /** Reads the order id back out of a correlation id of the shape above. */
  function OrderIdOf(appTransId: string): Option<nat> {
    if |appTransId| > 7 && appTransId[6] == '_' && AllDigits(appTransId[7..])
    then Some(ParseDecimal(appTransId[7..]))
    else None
  }

  /** The correlation id embeds the order id: it can be read back. */
  lemma AppTransIdEmbedsOrderId(datePrefix: string, orderId: nat)
    requires IsDatePrefix(datePrefix)
    ensures OrderIdOf(AppTransId(datePrefix, orderId)) == Some(orderId)
  {
    var s := AppTransId(datePrefix, orderId);
    assert s[7..] == Decimal(orderId);
    ParseDecimalInverts(orderId);
  }

  /** Two correlation ids coincide exactly when they were made on the same day for the
      same order. */
  lemma AppTransIdInjective(d1: string, d2: string, a: nat, b: nat)
    requires IsDatePrefix(d1) && IsDatePrefix(d2)
    ensures AppTransId(d1, a) == AppTransId(d2, b) <==> d1 == d2 && a == b
  {
    if AppTransId(d1, a) == AppTransId(d2, b) {
      AppTransIdEmbedsOrderId(d1, a);
      AppTransIdEmbedsOrderId(d2, b);
      assert d1 == AppTransId(d1, a)[..6] && d2 == AppTransId(d2, b)[..6];
    }
  }
}
