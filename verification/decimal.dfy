/** Base-10 integers as text: Python's `str(n)` / Go's `%d` for integers, and Go's
    `strconv.ParseInt(s, 10, 64)`. */
module Decimal {
  import opened Wrappers

  /** Range of Go's int64. */
  const Int64Min: int := -0x8000_0000_0000_0000
  const Int64Max: int := 0x7FFF_FFFF_FFFF_FFFF

  predicate IsDigit(c: char)
  {
    '0' <= c <= '9'
  }

  predicate AllDigits(s: string)
  {
    forall k :: 0 <= k < |s| ==> IsDigit(s[k])
  }

  function DigitChar(d: nat): (c: char)
    requires d < 10
    ensures IsDigit(c)
    ensures c as int - '0' as int == d
  {
    (d + '0' as int) as char
  }

  function DigitValue(c: char): (d: nat)
    requires IsDigit(c)
    ensures d < 10
  {
    (c as int - '0' as int) as nat
  }

  /** Decimal digits of `n`, most significant first, without leading zeros. */
  function NatToString(n: nat): (r: string)
    ensures |r| >= 1 && AllDigits(r)
    ensures r[0] == '0' ==> n == 0
  {
    if n < 10 then [DigitChar(n)] else NatToString(n / 10) + [DigitChar(n % 10)]
  }

  /** Python's `str(i)` and Go's `fmt.Sprintf("%d", i)`: a minus sign for negatives. */
  function IntToString(i: int): (r: string)
    ensures |r| >= 1
    ensures r[0] == '-' <==> i < 0
  {
    if i < 0 then "-" + NatToString(-i) else NatToString(i)
  }

  /** Value of a string of decimal digits. */
  function DigitsValue(s: string): nat
    requires AllDigits(s)
  {
    if |s| == 0 then 0 else DigitsValue(s[..|s| - 1]) * 10 + DigitValue(s[|s| - 1])
  }

  /** Go's `strconv.ParseInt(s, 10, 64)`, with `None` for its error result: an optional
      `+` or `-`, then at least one decimal digit (base 10 admits no underscores), and a
      value inside the int64 range. */
  function ParseInt64(s: string): (r: Option<int>)
    ensures r.Some? ==> Int64Min <= r.value <= Int64Max
    ensures r.Some? ==> |s| > SignLength(s) && forall i :: SignLength(s) <= i < |s| ==> IsDigit(s[i])
  {
    if |s| == 0 then None
    else
      var digits := if s[0] == '+' || s[0] == '-' then s[1..] else s;
      if |digits| == 0 || !AllDigits(digits) then None
      else
        var v: int := if s[0] == '-' then 0 - DigitsValue(digits) as int else DigitsValue(digits);
        if Int64Min <= v <= Int64Max then Some(v) else None
  }

  /** 1 when the text starts with a sign, otherwise 0. */
  function SignLength(s: string): nat
  {
    if |s| > 0 && (s[0] == '+' || s[0] == '-') then 1 else 0
  }

  /** Every text made of an optional sign and one or more digits parses, to its value
      when that lies in the int64 range and to the error result otherwise. */
  lemma ParseSignedDigits(s: string)
    requires |s| > SignLength(s) && AllDigits(s[SignLength(s)..])
    ensures var m := DigitsValue(s[SignLength(s)..]);
            var v: int := if s[0] == '-' then 0 - m else m;
            ParseInt64(s) == if Int64Min <= v <= Int64Max then Some(v) else None
  {
  }

  /** Leading zeros do not change the value of a digit string. */
  lemma {:induction false} LeadingZeroValue(t: string)
    requires AllDigits(t)
    ensures AllDigits("0" + t) && DigitsValue("0" + t) == DigitsValue(t)
  {
    var z := "0" + t;
    assert forall k :: 0 <= k < |z| ==> z[k] == if k == 0 then '0' else t[k - 1];
    if |t| > 0 {
      assert z[..|z| - 1] == "0" + t[..|t| - 1];
      assert AllDigits(t[..|t| - 1]);
      LeadingZeroValue(t[..|t| - 1]);
    }
  }

  /** `ParseInt` accepts leading zeros: "007" reads as 7. */
  lemma LeadingZeroParses(t: string)
    requires |t| > 0 && AllDigits(t)
    ensures ParseInt64("0" + t) == ParseInt64(t)
  {
    LeadingZeroValue(t);
    assert ("0" + t)[0] == '0';
  }

  /** `ParseInt` accepts an explicit plus sign: "+120000" reads as 120000. */
  lemma PlusSignParses(t: string)
    requires |t| > 0 && AllDigits(t)
    ensures ParseInt64("+" + t) == ParseInt64(t)
  {
    assert ("+" + t)[1..] == t;
    assert !(t[0] == '+' || t[0] == '-') by { assert IsDigit(t[0]); }
  }

  lemma {:induction false} NatToStringValue(n: nat)
    ensures DigitsValue(NatToString(n)) == n
  {
    if n >= 10 {
      var s := NatToString(n);
      NatToStringValue(n / 10);
      assert s[..|s| - 1] == NatToString(n / 10);
    }
  }

  /** Printing an int64 and parsing it back gives the same value. */
  lemma {:induction false} ParseIntToString(i: int)
    requires Int64Min <= i <= Int64Max
    ensures ParseInt64(IntToString(i)) == Some(i)
  {
    var s := IntToString(i);
    if i < 0 {
      NatToStringValue(-i);
      assert s[1..] == NatToString(-i);
    } else {
      NatToStringValue(i);
    }
  }
}
