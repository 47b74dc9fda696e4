/**
 * The pieces of the .NET string and integer library the card game relies on:
 * decimal formatting (`int.ToString()`, `$"{n}"`), `int.Parse`, `string.Split`,
 * `string.Trim`, and 32-bit two's-complement arithmetic.
 */
module Text {
  import opened Wrappers

  // ---------------------------------------------------------------------------
  // 32-bit integers
  // ---------------------------------------------------------------------------

  const Int32Min: int := -0x8000_0000
  const Int32Max: int := 0x7FFF_FFFF

  predicate InInt32(x: int) { Int32Min <= x <= Int32Max }

  /** The value an unchecked C# `int` operation produces for the exact result `x`. */
  function Wrap32(x: int): (r: int)
    ensures InInt32(r)
    ensures (r - x) % 0x1_0000_0000 == 0
    ensures InInt32(x) ==> r == x
  {
    var m := (x - Int32Min) % 0x1_0000_0000;
    m + Int32Min
  }

  // ---------------------------------------------------------------------------
  // Decimal digits
  // ---------------------------------------------------------------------------

  predicate IsDigit(c: char) { '0' <= c <= '9' }

  predicate AllDigits(s: string) { forall i :: 0 <= i < |s| ==> IsDigit(s[i]) }

  function DigitChar(d: nat): (c: char)
    requires d < 10
    ensures IsDigit(c)
  {
    (48 + d) as char
  }

  function DigitValue(c: char): (d: nat)
    requires IsDigit(c)
    ensures d < 10
  {
    c as int - 48
  }

  /** Decimal rendering of a natural number, as `n.ToString()` writes it. */
  function NatToString(n: nat): (s: string)
    ensures |s| >= 1 && AllDigits(s)
    ensures n < 10 <==> |s| == 1
    ensures s[0] == '0' <==> n == 0
    decreases n
  {
    if n < 10 then [DigitChar(n)] else NatToString(n / 10) + [DigitChar(n % 10)]
  }

  /** The value of a string of decimal digits (most significant first). */
  function DigitsValue(s: string): nat
    requires AllDigits(s)
  {
    if s == [] then 0 else DigitsValue(s[..|s| - 1]) * 10 + DigitValue(s[|s| - 1])
  }

  /** Reading back what NatToString wrote gives the number again. */
  lemma {:induction false} NatToStringRoundTrip(n: nat)
    ensures DigitsValue(NatToString(n)) == n
    decreases n
  {
    var s := NatToString(n);
    if n >= 10 {
      NatToStringRoundTrip(n / 10);
      assert s[..|s| - 1] == NatToString(n / 10);
    }
  }

  lemma NatToStringInjective(a: nat, b: nat)
    ensures NatToString(a) == NatToString(b) ==> a == b
  {
    NatToStringRoundTrip(a);
    NatToStringRoundTrip(b);
  }

  /** Decimal rendering of a signed integer, as `n.ToString()` writes it (invariant culture). */
  function IntToString(n: int): string
  {
    if n < 0 then "-" + NatToString(-n) else NatToString(n)
  }

  // ---------------------------------------------------------------------------
  // Whitespace and Trim
  // ---------------------------------------------------------------------------

  /**
   * `char.IsWhiteSpace`: the Unicode space separators (category Zs), the line and
   * paragraph separators, and the controls U+0009..U+000D, U+0085.
   */
  predicate IsWhiteSpace(c: char)
  {
    c == ' ' || ('\t' <= c <= '\r') || c == '\U{0085}' || c == '\U{00A0}' || c == '\U{1680}'
    || ('\U{2000}' <= c <= '\U{200A}') || c == '\U{2028}' || c == '\U{2029}'
    || c == '\U{202F}' || c == '\U{205F}' || c == '\U{3000}'
  }

  function TrimStart(s: string): (r: string)
    ensures r == [] || !IsWhiteSpace(r[0])
    ensures |r| <= |s| && r == s[|s| - |r|..]
    ensures forall i :: 0 <= i < |s| - |r| ==> IsWhiteSpace(s[i])
  {
    if s != [] && IsWhiteSpace(s[0]) then TrimStart(s[1..]) else s
  }

  function TrimEnd(s: string): (r: string)
    ensures r == [] || !IsWhiteSpace(r[|r| - 1])
    ensures |r| <= |s| && r == s[..|r|]
    ensures forall i :: |r| <= i < |s| ==> IsWhiteSpace(s[i])
  {
    if s != [] && IsWhiteSpace(s[|s| - 1]) then TrimEnd(s[..|s| - 1]) else s
  }

  /** `string.Trim()`: drops leading and trailing white space. */
  function Trim(s: string): (r: string)
    ensures r == [] || (!IsWhiteSpace(r[0]) && !IsWhiteSpace(r[|r| - 1]))
  {
    TrimEnd(TrimStart(s))
  }

  // ---------------------------------------------------------------------------
  // Split
  // ---------------------------------------------------------------------------

  /**
   * `s.Split(sep)` with no options: the pieces between separators, empty pieces
   * included, so there is always one more piece than separators.
   */
  function Split(s: string, sep: char): (parts: seq<string>)
    ensures |parts| >= 1
    decreases |s|
  {
    if s == [] then [""]
    else if s[0] == sep then [""] + Split(s[1..], sep)
    else
      var rest := Split(s[1..], sep);
      [[s[0]] + rest[0]] + rest[1..]
  }

  /** `string.Join(sep, parts)`. */
  function Join(parts: seq<string>, sep: char): string
    requires |parts| >= 1
  {
    if |parts| == 1 then parts[0] else parts[0] + [sep] + Join(parts[1..], sep)
  }

  /** No piece produced by Split contains the separator. */
  lemma {:induction false} SplitPiecesHaveNoSeparator(s: string, sep: char)
    ensures forall p :: p in Split(s, sep) ==> sep !in p
    decreases |s|
  {
    if s != [] {
      SplitPiecesHaveNoSeparator(s[1..], sep);
    }
  }

  /** Joining the pieces with the separator gives back the original string. */
  lemma {:induction false} SplitJoinRoundTrip(s: string, sep: char)
    ensures Join(Split(s, sep), sep) == s
    decreases |s|
  {
    if s != [] {
      var rest := Split(s[1..], sep);
      SplitJoinRoundTrip(s[1..], sep);
      if s[0] == sep {
        assert Split(s, sep) == [""] + rest;
        assert Split(s, sep)[1..] == rest;
        assert s == [sep] + s[1..];
      } else {
        var parts := Split(s, sep);
        assert parts[1..] == rest[1..];
        if |rest| == 1 {
          assert s == [s[0]] + rest[0];
        } else {
          assert Join(rest, sep) == rest[0] + [sep] + Join(rest[1..], sep);
          assert s == [s[0]] + Join(rest, sep);
        }
      }
    }
  }

  /** The pieces of `s` split on `sep`, with the empty ones dropped (StringSplitOptions.RemoveEmptyEntries). */
  function NonEmpty(parts: seq<string>): (r: seq<string>)
    ensures forall i :: 0 <= i < |r| ==> r[i] != []
    ensures |r| <= |parts|
  {
    if parts == [] then []
    else if parts[0] == [] then NonEmpty(parts[1..])
    else [parts[0]] + NonEmpty(parts[1..])
  }

  function SplitRemoveEmpty(s: string, sep: char): (r: seq<string>)
    ensures forall i :: 0 <= i < |r| ==> r[i] != [] && sep !in r[i]
  {
    SplitPiecesHaveNoSeparator(s, sep);
    NonEmptyKeepsMembers(Split(s, sep));
    NonEmpty(Split(s, sep))
  }

  lemma {:induction false} NonEmptyKeepsMembers(parts: seq<string>)
    ensures forall x :: x in NonEmpty(parts) <==> x in parts && x != []
  {
    if parts != [] {
      NonEmptyKeepsMembers(parts[1..]);
      assert parts == [parts[0]] + parts[1..];
    }
  }

  /** The part before the first `sep` and the part after it; None when `sep` does not occur. */
  function SplitFirst(s: string, sep: char): (r: Option<(string, string)>)
    ensures r.Some? ==> s == r.value.0 + [sep] + r.value.1 && sep !in r.value.0
    ensures r.None? <==> sep !in s
  {
    if s == [] then None
    else if s[0] == sep then Some(([], s[1..]))
    else match SplitFirst(s[1..], sep)
      case None => None
      case Some(p) => Some(([s[0]] + p.0, p.1))
  }

  /** A prefix free of the separator is exactly what SplitFirst cuts off. */
  lemma {:induction false} SplitFirstOfJoin(a: string, b: string, sep: char)
    requires sep !in a
    ensures SplitFirst(a + [sep] + b, sep) == Some((a, b))
  {
    if a != [] {
      SplitFirstOfJoin(a[1..], b, sep);
      assert (a + [sep] + b)[1..] == a[1..] + [sep] + b;
      assert (a + [sep] + b)[0] == a[0] != sep;
      assert [a[0]] + a[1..] == a;
    } else {
      assert a + [sep] + b == [sep] + b;
    }
  }

  // ---------------------------------------------------------------------------
  // int.Parse
  // ---------------------------------------------------------------------------

  /** The exceptions `int.Parse` throws. */
  datatype ParseError = FormatError | OverflowError

  /** The white space `int.Parse` skips around the number (NumberStyles.Integer). */
  predicate IsParseWhite(c: char) { c == ' ' || ('\t' <= c <= '\r') }

  function TrimParseWhite(s: string): (r: string)
    decreases |s|
  {
    if s != [] && IsParseWhite(s[0]) then TrimParseWhite(s[1..])
    else if s != [] && IsParseWhite(s[|s| - 1]) then TrimParseWhite(s[..|s| - 1])
    else s
  }

  /**
   * `int.Parse(s)` with the invariant culture: optional surrounding white space,
   * an optional sign, one or more decimal digits, a value within 32 bits.
   */
  function ParseInt32(s: string): (r: Result<int, ParseError>)
    ensures r.Ok? ==> InInt32(r.value)
  {
    var t := TrimParseWhite(s);
    var negative := t != [] && t[0] == '-';
    var digits := if t != [] && (t[0] == '-' || t[0] == '+') then t[1..] else t;
    if digits == [] || !AllDigits(digits) then Err(FormatError)
    else
      var magnitude: int := DigitsValue(digits);
      var v := if negative then -magnitude else magnitude;
      if InInt32(v) then Ok(v) else Err(OverflowError)
  }

  /** `n.ToString()` of a number outside 32 bits makes `int.Parse` throw an overflow, not a format error. */
  lemma ParseInt32Overflow(n: int)
    requires !InInt32(n)
    ensures ParseInt32(IntToString(n)) == Err(OverflowError)
  {
    var s := IntToString(n);
    var magnitude: nat := if n < 0 then -n else n;
    var digits := NatToString(magnitude);
    NatToStringRoundTrip(magnitude);
    assert !IsParseWhite(digits[0]) && !IsParseWhite(digits[|digits| - 1]);
    if n < 0 {
      assert s == "-" + digits;
      assert s[1..] == digits;
      assert !IsParseWhite(s[0]) && !IsParseWhite(s[|s| - 1]);
      assert TrimParseWhite(s) == s;
    } else {
      assert s == digits;
      assert TrimParseWhite(s) == s;
    }
  }

  /** What `n.ToString()` writes for a 32-bit n, `int.Parse` reads back. */
  lemma ParseInt32RoundTrip(n: int)
    requires InInt32(n)
    ensures ParseInt32(IntToString(n)) == Ok(n)
  {
    var s := IntToString(n);
    var magnitude: nat := if n < 0 then -n else n;
    var digits := NatToString(magnitude);
    NatToStringRoundTrip(magnitude);
    assert !IsParseWhite(digits[0]) && !IsParseWhite(digits[|digits| - 1]);
    if n < 0 {
      assert s == "-" + digits;
      assert s[1..] == digits;
      assert !IsParseWhite(s[0]) && !IsParseWhite(s[|s| - 1]);
      assert TrimParseWhite(s) == s;
    } else {
      assert s == digits;
      assert TrimParseWhite(s) == s;
    }
  }
}
