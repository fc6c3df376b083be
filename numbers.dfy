/** The two conversions between integers and text the expense form relies
    on: the decimal text an id is shown as in a `<select>`, and `parseInt`
    reading it back. */
module Numbers {
  import opened Wrappers
  import opened Text

  predicate IsDigit(c: char) {
    '0' <= c <= '9'
  }

  function DigitChar(d: int): char
    requires 0 <= d < 10
  {
    ('0' as int + d) as char
  }

  /** The decimal digits of `n`, without leading zeros. */
  function NatToString(n: nat): (r: string)
    ensures r != [] && forall i :: 0 <= i < |r| ==> IsDigit(r[i])
  {
    if n < 10 then [DigitChar(n)] else NatToString(n / 10) + [DigitChar(n % 10)]
  }

  /** `String(i)` for an integer. */
  function IntToString(i: int): string {
    if i < 0 then "-" + NatToString(-i) else NatToString(i)
  }

  /** The longest prefix of `s` made of decimal digits. */
  function DigitPrefix(s: string): (r: string)
    ensures |r| <= |s| && r == s[..|r|]
    ensures forall i :: 0 <= i < |r| ==> IsDigit(r[i])
    ensures |r| < |s| ==> !IsDigit(s[|r|])
  {
    if s != [] && IsDigit(s[0]) then [s[0]] + DigitPrefix(s[1..]) else []
  }

  /** The number a string of decimal digits denotes. */
  function DigitsValue(ds: string): nat
    requires forall i :: 0 <= i < |ds| ==> IsDigit(ds[i])
  {
    if ds == [] then 0
    else
      assert IsDigit(ds[|ds| - 1]);
      DigitsValue(ds[..|ds| - 1]) * 10 + (ds[|ds| - 1] as int - '0' as int)
  }

  /** The value of the digits at the start of `body`, if there is at least one. */
  function ParseDigits(body: string): (r: Option<nat>)
    ensures r.None? <==> body == [] || !IsDigit(body[0])
  {
    var ds := DigitPrefix(body);
    if ds == [] then None else Some(DigitsValue(ds))
  }

  /** `parseInt(s)` in base ten: leading white space is skipped, then an
      optional sign, then as many digits as there are; no digit at all is
      `NaN`, here `None`. */
  function ParseInt(s: string): (r: Option<int>)
    ensures r.None? <==>
      var t := TrimStart(s);
      var body := if t != [] && (t[0] == '-' || t[0] == '+') then t[1..] else t;
      body == [] || !IsDigit(body[0])
  {
    var t := TrimStart(s);
    if t != [] && t[0] == '-' then
      match ParseDigits(t[1..])
      case None => None
      case Some(n) => Some(-(n as int))
    else if t != [] && t[0] == '+' then
      match ParseDigits(t[1..])
      case None => None
      case Some(n) => Some(n as int)
    else
      match ParseDigits(t)
      case None => None
      case Some(n) => Some(n as int)
  }

  lemma {:induction false} DigitPrefixOfDigits(ds: string)
    requires forall i :: 0 <= i < |ds| ==> IsDigit(ds[i])
    ensures DigitPrefix(ds) == ds
  {
    if ds != [] {
      DigitPrefixOfDigits(ds[1..]);
    }
  }

  lemma {:induction false} DigitsValueOfNat(n: nat)
    ensures DigitsValue(NatToString(n)) == n
  {
    var r := NatToString(n);
    if n >= 10 {
      DigitsValueOfNat(n / 10);
      assert r[..|r| - 1] == NatToString(n / 10);
    }
  }

  /** `parseInt` of a non-empty digit string is its value. */
  lemma ParseIntOfDigits(ds: string)
    requires ds != [] && forall i :: 0 <= i < |ds| ==> IsDigit(ds[i])
    ensures ParseInt(ds) == Some(DigitsValue(ds) as int)
  {
    assert IsDigit(ds[0]);
    assert TrimStart(ds) == ds;
    DigitPrefixOfDigits(ds);
  }

  /** `parseInt` of a minus sign followed by digits is the negated value. */
  lemma ParseIntOfNegatedDigits(s: string)
    requires |s| > 1 && s[0] == '-' && forall i :: 1 <= i < |s| ==> IsDigit(s[i])
    ensures ParseInt(s) == Some(-(DigitsValue(s[1..]) as int))
  {
    var ds := s[1..];
    assert TrimStart(s) == s;
    assert ParseDigits(ds) == Some(DigitsValue(ds)) by {
      assert forall i :: 0 <= i < |ds| ==> IsDigit(ds[i]) by {
        forall i | 0 <= i < |ds| ensures IsDigit(ds[i]) { assert ds[i] == s[i + 1]; }
      }
      DigitPrefixOfDigits(ds);
    }
  }

  /** Reading back the text of an integer gives the integer. */
  lemma ParseIntOfIntToString(i: int)
    ensures ParseInt(IntToString(i)) == Some(i)
  {
    if i < 0 {
      DigitsValueOfNat(-i);
      var s := IntToString(i);
      assert s[1..] == NatToString(-i);
      ParseIntOfNegatedDigits(s);
    } else {
      DigitsValueOfNat(i);
      ParseIntOfDigits(NatToString(i));
    }
  }
}
