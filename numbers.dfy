/**
 * Double.parseDouble as a partial function: the decimal forms Java accepts
 * (optional sign, digits with an optional point, an optional exponent and
 * an optional type suffix, surrounding blanks trimmed) yield Some(value);
 * anything else yields None, where Java throws NumberFormatException.
 * Values are exact reals; rounding to the nearest double is not modelled.
 */
module Numbers {
  import opened Wrappers
  import opened Text

  predicate IsSign(c: char) { c == '+' || c == '-' }
  predicate IsExponentMarker(c: char) { c == 'e' || c == 'E' }
  predicate IsTypeSuffix(c: char) { c == 'f' || c == 'F' || c == 'd' || c == 'D' }

  /** Index of the first exponent marker, or |s| when there is none. */
  function ExponentAt(s: string): (i: nat)
    ensures i <= |s|
  {
    if s == [] then 0
    else if IsExponentMarker(s[0]) then 0
    else 1 + ExponentAt(s[1..])
  }

  /** Index of the first decimal point, or |s| when there is none. */
  function PointAt(s: string): (i: nat)
    ensures i <= |s|
  {
    if s == [] then 0
    else if s[0] == '.' then 0
    else 1 + PointAt(s[1..])
  }

  /** Digits with at most one point and at least one digit: "12", "12.5", "12.", ".5". */
  function ParseMantissa(m: string): Option<real>
  {
    var p := PointAt(m);
    var whole := m[..p];
    var fraction := if p < |m| then m[p + 1..] else "";
    if AllDigits(whole) && AllDigits(fraction) && |whole| + |fraction| > 0 then
      Some(DigitsValue(whole) as real + Scale(DigitsValue(fraction) as real, -|fraction|))
    else None
  }

  /** An optionally signed, non-empty string of digits. */
  function ParseExponent(e: string): Option<int>
  {
    if e != [] && IsSign(e[0]) then
      (if e[1..] != [] && AllDigits(e[1..]) then
         Some(if e[0] == '-' then -(DigitsValue(e[1..]) as int) else DigitsValue(e[1..]))
       else None)
    else if e != [] && AllDigits(e) then Some(DigitsValue(e))
    else None
  }

  /** `v` times ten to the power `e`, one factor of ten at a time. */
  function Scale(v: real, e: int): real
    decreases if e >= 0 then e else -e
  {
    if e == 0 then v else if e > 0 then Scale(v, e - 1) * 10.0 else Scale(v, e + 1) / 10.0
  }

  function ParseUnsigned(u: string): Option<real>
  {
    var x := ExponentAt(u);
    if x == |u| then ParseMantissa(u)
    else match (ParseMantissa(u[..x]), ParseExponent(u[x + 1..]))
      case (Some(v), Some(e)) => Some(Scale(v, e))
      case _ => None
  }

  /** Drops a trailing f/F/d/D type suffix. */
  function StripSuffix(t: string): (b: string)
    ensures |t| - 1 <= |b| <= |t| && b == t[..|b|]
  {
    if t != [] && IsTypeSuffix(t[|t| - 1]) then t[..|t| - 1] else t
  }

  function ParseSigned(b: string): Option<real>
  {
    if b != [] && IsSign(b[0]) then
      match ParseUnsigned(b[1..])
      case None => None
      case Some(v) => Some(if b[0] == '-' then -v else v)
    else ParseUnsigned(b)
  }

  function ParseDouble(s: string): Option<real>
  {
    ParseSigned(StripSuffix(Trim(s)))
  }

  lemma DigitsHaveNoMarkers(s: string)
    requires AllDigits(s)
    ensures ExponentAt(s) == |s| && PointAt(s) == |s|
  {
  }

  lemma ParseDigits(digits: string)
    requires digits != [] && AllDigits(digits)
    ensures ParseUnsigned(digits) == Some(DigitsValue(digits) as real)
  {
    DigitsHaveNoMarkers(digits);
    assert digits[..|digits|] == digits;
  }

  /** Trimming leaves a string alone when it neither starts nor ends with a blank. */
  lemma TrimKeeps(s: string)
    requires s != [] && !IsBlank(s[0]) && !IsBlank(s[|s| - 1])
    ensures Trim(s) == s
  {
  }

  /** A string with no blank at either end and a digit last is parsed as it stands. */
  lemma ParseDoubleOfClean(s: string)
    requires s != [] && !IsBlank(s[0]) && IsDigit(s[|s| - 1])
    ensures ParseDouble(s) == ParseSigned(s)
  {
    TrimKeeps(s);
    assert StripSuffix(s) == s;
  }

  /** A minus sign followed by digits parses as the negated value of the digits. */
  lemma ParseNegated(s: string)
    requires |s| >= 2 && s[0] == '-' && AllDigits(s[1..])
    ensures ParseDouble(s) == Some(-(DigitsValue(s[1..]) as real))
  {
    ParseDigits(s[1..]);
    SignedNegative(s, DigitsValue(s[1..]) as real);
    assert IsDigit(s[1..][|s| - 2]);
    ParseDoubleOfClean(s);
  }

  lemma SignedNegative(s: string, v: real)
    requires s != [] && s[0] == '-' && ParseUnsigned(s[1..]) == Some(v)
    ensures ParseSigned(s) == Some(-v)
  {
  }

  lemma ParsePlain(digits: string)
    requires digits != [] && AllDigits(digits)
    ensures ParseDouble(digits) == Some(DigitsValue(digits) as real)
  {
    ParseDigits(digits);
    assert IsDigit(digits[0]) && IsDigit(digits[|digits| - 1]);
    ParseDoubleOfClean(digits);
  }

  /** Parsing the text Integer.toString produces gives back the integer. */
  lemma ParseIntToString(z: int)
    ensures ParseDouble(IntToString(z)) == Some(z as real)
  {
    if z < 0 {
      ParseNegativeToString(z);
    } else {
      NatToStringValue(z);
      ParsePlain(NatToString(z));
    }
  }

  lemma ParseNegativeToString(z: int)
    requires z < 0
    ensures ParseDouble(IntToString(z)) == Some(z as real)
  {
    var s := IntToString(z);
    NatToStringValue(-z);
    assert s[1..] == NatToString(-z);
    NegativeText(z, s);
  }

  /** A minus sign followed by the digits of -z parses as z. */
  lemma NegativeText(z: int, s: string)
    requires z < 0 && |s| >= 2 && s[0] == '-' && AllDigits(s[1..]) && DigitsValue(s[1..]) == -z
    ensures ParseDouble(s) == Some(z as real)
  {
    ParseNegated(s);
  }

  lemma NoDigitsInSlice(s: string, i: int, j: int)
    requires forall k :: 0 <= k < |s| ==> !IsDigit(s[k])
    requires 0 <= i <= j <= |s|
    ensures forall k :: 0 <= k < j - i ==> !IsDigit(s[i..j][k])
  {
    forall k | 0 <= k < j - i ensures !IsDigit(s[i..j][k]) {
      assert s[i..j][k] == s[i + k];
    }
  }

  lemma MantissaNeedsDigit(m: string)
    requires forall k :: 0 <= k < |m| ==> !IsDigit(m[k])
    ensures ParseMantissa(m) == None
  {
  }

  lemma UnsignedNeedsDigit(u: string)
    requires forall k :: 0 <= k < |u| ==> !IsDigit(u[k])
    ensures ParseUnsigned(u) == None
  {
    var x := ExponentAt(u);
    NoDigitsInSlice(u, 0, x);
    assert u[..x] == u[0..x];
    MantissaNeedsDigit(u[..x]);
    if x == |u| {
      assert u == u[..x];
    }
  }

  /** A field without any decimal digit ("", "N/A", "-") is never a number. */
  lemma ParseNeedsDigit(s: string)
    requires forall k :: 0 <= k < |s| ==> !IsDigit(s[k])
    ensures ParseDouble(s) == None
  {
    var t0 := TrimStart(s);
    NoDigitsInSlice(s, |s| - |t0|, |s|);
    var t := Trim(s);
    NoDigitsInSlice(t0, 0, |t|);
    var b := StripSuffix(t);
    NoDigitsInSlice(t, 0, |b|);
    assert b == t[0..|b|];
    if b != [] && IsSign(b[0]) {
      NoDigitsInSlice(b, 1, |b|);
      UnsignedNeedsDigit(b[1..|b|]);
      assert b[1..] == b[1..|b|];
    } else {
      UnsignedNeedsDigit(b);
    }
  }
}
