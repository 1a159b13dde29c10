/**
 * The string operations of java.lang.String that the viewer relies on:
 * lower-casing, substring search, lexicographic comparison, splitting on a
 * comma, and the decimal text of an integer.
 */
module Text {

  // ---------------------------------------------------------------------------
  // Lower-casing (ASCII case folding)
  // ---------------------------------------------------------------------------

  predicate IsUpper(c: char) { 'A' <= c <= 'Z' }

  function LowerChar(c: char): (d: char)
    ensures !IsUpper(d)
    ensures IsUpper(c) ==> d as int == c as int + 32
    ensures !IsUpper(c) ==> d == c
  {
    if IsUpper(c) then (c as int + 32) as char else c
  }

  /** String.toLowerCase, restricted to ASCII letters. */
  function ToLower(s: string): (r: string)
    ensures |r| == |s|
    ensures forall i :: 0 <= i < |r| ==> !IsUpper(r[i])
    ensures forall i :: 0 <= i < |r| && IsUpper(s[i]) ==> r[i] as int == s[i] as int + 32
    ensures forall i :: 0 <= i < |r| && !IsUpper(s[i]) ==> r[i] == s[i]
  {
    if s == [] then [] else [LowerChar(s[0])] + ToLower(s[1..])
  }

  // ---------------------------------------------------------------------------
  // Substring search (String.contains)
  // ---------------------------------------------------------------------------

  /** `needle` occurs in `hay` starting at index `i`. */
  predicate OccursAt(hay: string, needle: string, i: int)
  {
    0 <= i && i + |needle| <= |hay| && hay[i..i + |needle|] == needle
  }

  function Contains(hay: string, needle: string): bool
    decreases |hay|
  {
    if |needle| > |hay| then false
    else if hay[..|needle|] == needle then true
    else Contains(hay[1..], needle)
  }

  /** Contains answers exactly whether the needle occurs somewhere. */
  lemma {:induction false} ContainsIff(hay: string, needle: string)
    ensures Contains(hay, needle) <==> exists i :: OccursAt(hay, needle, i)
    decreases |hay|
  {
    if |needle| > |hay| {
    } else if hay[..|needle|] == needle {
      assert OccursAt(hay, needle, 0);
    } else {
      ContainsIff(hay[1..], needle);
      if Contains(hay[1..], needle) {
        var i :| OccursAt(hay[1..], needle, i);
        assert hay[i + 1..i + 1 + |needle|] == hay[1..][i..i + |needle|];
        assert OccursAt(hay, needle, i + 1);
      } else {
        forall i | OccursAt(hay, needle, i) ensures false {
          assert i != 0;
          assert hay[1..][i - 1..i - 1 + |needle|] == hay[i..i + |needle|];
          assert OccursAt(hay[1..], needle, i - 1);
        }
      }
    }
  }

  // ---------------------------------------------------------------------------
  // Lexicographic comparison (String.compareTo), reduced to its sign
  // ---------------------------------------------------------------------------

  function CompareText(a: string, b: string): (c: int)
    ensures -1 <= c <= 1
  {
    if a == [] then (if b == [] then 0 else -1)
    else if b == [] then 1
    else if a[0] < b[0] then -1
    else if a[0] > b[0] then 1
    else CompareText(a[1..], b[1..])
  }

  lemma {:induction false} CompareTextFlip(a: string, b: string)
    ensures CompareText(a, b) == -CompareText(b, a)
  {
    if a != [] && b != [] && a[0] == b[0] {
      CompareTextFlip(a[1..], b[1..]);
    }
  }

  lemma {:induction false} CompareTextZero(a: string, b: string)
    ensures CompareText(a, b) == 0 <==> a == b
  {
    if a != [] && b != [] && a[0] == b[0] {
      CompareTextZero(a[1..], b[1..]);
      if a[1..] == b[1..] {
        assert a == [a[0]] + a[1..] && b == [b[0]] + b[1..];
      }
    }
  }

  lemma {:induction false} CompareTextTransitive(a: string, b: string, c: string)
    requires CompareText(a, b) <= 0 && CompareText(b, c) <= 0
    ensures CompareText(a, c) <= 0
  {
    if a != [] && b != [] && c != [] && a[0] == b[0] == c[0] {
      CompareTextTransitive(a[1..], b[1..], c[1..]);
    }
  }

  lemma CompareTextStrict(a: string, b: string, c: string)
    requires CompareText(a, b) < 0 && CompareText(b, c) < 0
    ensures CompareText(a, c) < 0
  {
    CompareTextTransitive(a, b, c);
    if CompareText(a, c) == 0 {
      CompareTextZero(a, c);
      CompareTextFlip(a, b);
    }
  }

  // ---------------------------------------------------------------------------
  // Comma joining and splitting (String.split(","))
  // ---------------------------------------------------------------------------

  /** Fields joined with commas, as a StringBuilder loop that appends "," before every field but the first builds them. */
  function Join(fields: seq<string>): string
  {
    if fields == [] then ""
    else if |fields| == 1 then fields[0]
    else fields[0] + "," + Join(fields[1..])
  }

  lemma JoinCons(x: string, rest: seq<string>)
    requires rest != []
    ensures Join([x] + rest) == x + "," + Join(rest)
  {
    assert ([x] + rest)[1..] == rest;
  }

  lemma {:induction false} JoinSnoc(fields: seq<string>, x: string)
    requires fields != []
    ensures Join(fields + [x]) == Join(fields) + "," + x
  {
    if |fields| == 1 {
      assert fields + [x] == [fields[0], x];
    } else {
      assert (fields + [x])[1..] == fields[1..] + [x];
      JoinSnoc(fields[1..], x);
    }
  }

  /** Every piece between commas, including empty ones; a string with k commas has k + 1 pieces. */
  function Pieces(s: string): (r: seq<string>)
    ensures |r| >= 1
  {
    if s == [] then [""]
    else if s[0] == ',' then [""] + Pieces(s[1..])
    else var rest := Pieces(s[1..]); [[s[0]] + rest[0]] + rest[1..]
  }

  function DropTrailingEmpty(r: seq<string>): (q: seq<string>)
    ensures |q| <= |r| && q == r[..|q|]
    ensures q != [] ==> q[|q| - 1] != ""
    ensures forall i :: |q| <= i < |r| ==> r[i] == ""
  {
    if r != [] && r[|r| - 1] == "" then DropTrailingEmpty(r[..|r| - 1]) else r
  }

  /**
   * String.split(","): a string without a comma splits into itself (even
   * when empty); otherwise the pieces between commas, with trailing empty
   * pieces removed.
   */
  function Split(s: string): seq<string>
  {
    if ',' !in s then [s] else DropTrailingEmpty(Pieces(s))
  }

  predicate CommaFree(s: string) { ',' !in s }

  lemma {:induction false} PiecesOfCommaFree(s: string)
    requires CommaFree(s)
    ensures Pieces(s) == [s]
  {
    if s != [] {
      PiecesOfCommaFree(s[1..]);
      assert [s[0]] + s[1..] == s;
    }
  }

  lemma {:induction false} PiecesPrepend(x: string, rest: string)
    requires CommaFree(x)
    ensures Pieces(x + "," + rest) == [x] + Pieces(rest)
  {
    if x == [] {
      assert x + "," + rest == [','] + rest;
      assert ([','] + rest)[1..] == rest;
    } else {
      assert (x + "," + rest)[1..] == x[1..] + "," + rest;
      PiecesPrepend(x[1..], rest);
      assert [x[0]] + x[1..] == x;
    }
  }

  /** Splitting undoes joining: comma-free fields come back as they were. */
  lemma {:induction false} PiecesOfJoin(fields: seq<string>)
    requires fields != []
    requires forall i :: 0 <= i < |fields| ==> CommaFree(fields[i])
    ensures Pieces(Join(fields)) == fields
  {
    if |fields| == 1 {
      PiecesOfCommaFree(fields[0]);
    } else {
      PiecesOfJoin(fields[1..]);
      PiecesPrepend(fields[0], Join(fields[1..]));
    }
  }

  lemma {:induction false} JoinHasComma(fields: seq<string>)
    requires |fields| >= 2
    ensures ',' in Join(fields)
  {
    assert Join(fields)[|fields[0]|] == ',';
  }

  /**
   * split(",") of two or more comma-free fields joined by commas gives
   * those fields back without their trailing empty ones.
   */
  lemma SplitJoinDropsTrailing(fields: seq<string>)
    requires |fields| >= 2
    requires forall i :: 0 <= i < |fields| ==> CommaFree(fields[i])
    ensures Split(Join(fields)) == DropTrailingEmpty(fields)
  {
    JoinHasComma(fields);
    PiecesOfJoin(fields);
  }

  /**
   * The round trip that the CSV layout relies on: split(",") of a
   * comma-joined line gives back its fields, provided no field holds a
   * comma and the last field is not empty (Java drops trailing empty
   * strings).
   */
  lemma SplitJoin(fields: seq<string>)
    requires fields != []
    requires forall i :: 0 <= i < |fields| ==> CommaFree(fields[i])
    requires |fields| == 1 || fields[|fields| - 1] != ""
    ensures Split(Join(fields)) == fields
  {
    if |fields| == 1 {
    } else {
      JoinHasComma(fields);
      PiecesOfJoin(fields);
    }
  }

  // ---------------------------------------------------------------------------
  // Decimal digits and Integer.toString
  // ---------------------------------------------------------------------------

  predicate IsDigit(c: char) { '0' <= c <= '9' }

  predicate AllDigits(s: string) { forall i :: 0 <= i < |s| ==> IsDigit(s[i]) }

  function DigitChar(d: nat): (c: char)
    requires d < 10
    ensures IsDigit(c) && c as int - '0' as int == d
  {
    ('0' as int + d) as char
  }

  /** The value of a string of decimal digits, most significant first. */
  function DigitsValue(s: string): nat
    requires AllDigits(s)
  {
    if s == [] then 0 else DigitsValue(s[..|s| - 1]) * 10 + (s[|s| - 1] as int - '0' as int)
  }

  /** Integer.toString of a non-negative number. */
  function NatToString(n: nat): (s: string)
    ensures s != [] && AllDigits(s)
  {
    if n < 10 then [DigitChar(n)] else NatToString(n / 10) + [DigitChar(n % 10)]
  }

  lemma {:induction false} NatToStringValue(n: nat)
    ensures DigitsValue(NatToString(n)) == n
  {
    var s := NatToString(n);
    if n >= 10 {
      NatToStringValue(n / 10);
      assert s[..|s| - 1] == NatToString(n / 10);
    }
  }

  /** Integer.toString of any integer. */
  function IntToString(z: int): (s: string)
    ensures s != [] && CommaFree(s)
  {
    if z < 0 then "-" + NatToString(-z) else NatToString(z)
  }

  // ---------------------------------------------------------------------------
  // String.trim: removes characters up to and including the space
  // ---------------------------------------------------------------------------

  predicate IsBlank(c: char) { c <= ' ' }

  function TrimStart(s: string): (r: string)
    ensures |r| <= |s| && r == s[|s| - |r|..]
    ensures r != [] ==> !IsBlank(r[0])
  {
    if s != [] && IsBlank(s[0]) then TrimStart(s[1..]) else s
  }

  function TrimEnd(s: string): (r: string)
    ensures |r| <= |s| && r == s[..|r|]
    ensures r != [] ==> !IsBlank(r[|r| - 1])
  {
    if s != [] && IsBlank(s[|s| - 1]) then TrimEnd(s[..|s| - 1]) else s
  }

  function Trim(s: string): string
  {
    TrimEnd(TrimStart(s))
  }
}
