/**
 * The parts of Rust's `core` string and integer library the kernel relies on,
 * stated as functions: UTF-8 (`as_bytes`, `str::from_utf8`), `char::is_whitespace`
 * and `str::trim`, `find`, `split`, `u8`/`u16` parsing (`str::parse`) and the
 * zero-padded decimal formatting of `format!("{:0N}")`.
 * A Rust `str` is a sequence of Unicode scalar values, which is what a Dafny
 * `string` is.
 */
module Str {
  import opened Types

  // ---------------------------------------------------------------------------
  // UTF-8

  function EncodeChar(c: char): (bytes: seq<u8>)
    ensures 1 <= |bytes| <= 4
  {
    var n := c as int;
    if n < 0x80 then [n]
    else if n < 0x800 then [0xC0 + n / 0x40, 0x80 + n % 0x40]
    else if n < 0x1_0000 then
      var r := n % 0x1000;
      [0xE0 + n / 0x1000, 0x80 + r / 0x40, 0x80 + r % 0x40]
    else
      var r1 := n % 0x4_0000;
      var r2 := r1 % 0x1000;
      [0xF0 + n / 0x4_0000, 0x80 + r1 / 0x1000, 0x80 + r2 / 0x40, 0x80 + r2 % 0x40]
  }

  /** `str::as_bytes`: the UTF-8 encoding of a string. */
  function Encode(s: string): seq<u8>
  {
    if s == [] then [] else EncodeChar(s[0]) + Encode(s[1..])
  }

  predicate IsContinuation(b: u8)
  {
    0x80 <= b < 0xC0
  }

  /**
   * The length of the well-formed UTF-8 sequence at the start of `bytes`
   * (Table 3-7 of the Unicode Standard), or 0 if it is ill-formed.
   */
  function SequenceLength(bytes: seq<u8>): nat
    requires bytes != []
  {
    var b0 := bytes[0];
    if b0 < 0x80 then 1
    else if 0xC2 <= b0 <= 0xDF then
      if |bytes| >= 2 && IsContinuation(bytes[1]) then 2 else 0
    else if 0xE0 <= b0 <= 0xEF then
      var lo := if b0 == 0xE0 then 0xA0 else 0x80;
      var hi := if b0 == 0xED then 0x9F else 0xBF;
      if |bytes| >= 3 && lo <= bytes[1] <= hi && IsContinuation(bytes[2]) then 3 else 0
    else if 0xF0 <= b0 <= 0xF4 then
      var lo := if b0 == 0xF0 then 0x90 else 0x80;
      var hi := if b0 == 0xF4 then 0x8F else 0xBF;
      if |bytes| >= 4 && lo <= bytes[1] <= hi && IsContinuation(bytes[2]) && IsContinuation(bytes[3]) then 4 else 0
    else 0
  }

  /** The scalar value a well-formed sequence at the start of `bytes` encodes. */
  function ScalarAt(bytes: seq<u8>): char
    requires bytes != [] && SequenceLength(bytes) > 0
  {
    match SequenceLength(bytes)
    case 1 => bytes[0] as char
    case 2 => ((bytes[0] as int - 0xC0) * 0x40 + (bytes[1] as int - 0x80)) as char
    case 3 =>
      ((bytes[0] as int - 0xE0) * 0x1000 + (bytes[1] as int - 0x80) * 0x40 + (bytes[2] as int - 0x80)) as char
    case 4 =>
      ((bytes[0] as int - 0xF0) * 0x4_0000 + (bytes[1] as int - 0x80) * 0x1000
        + (bytes[2] as int - 0x80) * 0x40 + (bytes[3] as int - 0x80)) as char
  }

  /** `str::from_utf8`: the string `bytes` encode, or None if they are not well-formed UTF-8. */
  function Decode(bytes: seq<u8>): Option<string>
    decreases |bytes|
  {
    if bytes == [] then Some([])
    else
      var len := SequenceLength(bytes);
      if len == 0 then None
      else match Decode(bytes[len..])
        case None => None
        case Some(rest) => Some([ScalarAt(bytes)] + rest)
  }

  /** UTF-8 encoding of a string is the concatenation of its characters' encodings. */
  lemma {:induction false} EncodeAppend(a: string, b: string)
    ensures Encode(a + b) == Encode(a) + Encode(b)
  {
    if a != [] {
      assert (a + b)[1..] == a[1..] + b;
      EncodeAppend(a[1..], b);
    } else {
      assert a + b == b;
    }
  }

  lemma EncodeTwo(c: char, rest: seq<u8>)
    requires 0x80 <= c as int < 0x800
    ensures var bytes := EncodeChar(c) + rest;
      SequenceLength(bytes) == 2 && ScalarAt(bytes) == c
  {
    var n := c as int;
    var q, l := n / 0x40, n % 0x40;
    assert n == q * 0x40 + l;
    var bytes := EncodeChar(c) + rest;
    assert bytes[0] == 0xC0 + q && bytes[1] == 0x80 + l;
  }

  lemma EncodeThree(c: char, rest: seq<u8>)
    requires 0x800 <= c as int < 0x1_0000
    ensures var bytes := EncodeChar(c) + rest;
      SequenceLength(bytes) == 3 && ScalarAt(bytes) == c
  {
    var n := c as int;
    var q, r := n / 0x1000, n % 0x1000;
    var m, l := r / 0x40, r % 0x40;
    assert n == q * 0x1000 + r && r == m * 0x40 + l;
    assert q == 0 ==> m >= 0x20;
    assert q == 0xD ==> m < 0x20;
    var bytes := EncodeChar(c) + rest;
    assert bytes[0] == 0xE0 + q && bytes[1] == 0x80 + m && bytes[2] == 0x80 + l;
  }

  lemma EncodeFour(c: char, rest: seq<u8>)
    requires 0x1_0000 <= c as int
    ensures var bytes := EncodeChar(c) + rest;
      SequenceLength(bytes) == 4 && ScalarAt(bytes) == c
  {
    var n := c as int;
    var q, r1 := n / 0x4_0000, n % 0x4_0000;
    var p, r2 := r1 / 0x1000, r1 % 0x1000;
    var m, l := r2 / 0x40, r2 % 0x40;
    assert n == q * 0x4_0000 + r1 && r1 == p * 0x1000 + r2 && r2 == m * 0x40 + l;
    assert q <= 4;
    assert q == 0 ==> p >= 0x10;
    assert q == 4 ==> p < 0x10;
    var bytes := EncodeChar(c) + rest;
    assert bytes[0] == 0xF0 + q && bytes[1] == 0x80 + p && bytes[2] == 0x80 + m && bytes[3] == 0x80 + l;
  }

  /** The encoding of one scalar value is a single well-formed sequence that decodes to it. */
  lemma EncodeCharDecodes(c: char, rest: seq<u8>)
    ensures var bytes := EncodeChar(c) + rest;
      SequenceLength(bytes) == |EncodeChar(c)| && ScalarAt(bytes) == c
  {
    var n := c as int;
    if n < 0x80 {
    } else if n < 0x800 {
      EncodeTwo(c, rest);
    } else if n < 0x1_0000 {
      EncodeThree(c, rest);
    } else {
      EncodeFour(c, rest);
    }
  }

  /** Decoding undoes encoding: every string survives `as_bytes` followed by `from_utf8`. */
  lemma {:induction false} DecodeEncode(s: string)
    ensures Decode(Encode(s)) == Some(s)
  {
    if s != [] {
      var bytes := Encode(s);
      EncodeCharDecodes(s[0], Encode(s[1..]));
      assert bytes[|EncodeChar(s[0])|..] == Encode(s[1..]);
      DecodeEncode(s[1..]);
      assert [s[0]] + s[1..] == s;
    }
  }

  /** An ASCII string is encoded byte for byte. */
  lemma {:induction false} EncodeAscii(s: string)
    requires forall i | 0 <= i < |s| :: s[i] as int < 0x80
    ensures |Encode(s)| == |s|
    ensures forall i | 0 <= i < |s| :: Encode(s)[i] == s[i] as int
  {
    if s != [] {
      EncodeAscii(s[1..]);
    }
  }

  // ---------------------------------------------------------------------------
  // Whitespace and trimming

  /** `char::is_whitespace`: the Unicode White_Space property. */
  predicate IsWhitespace(c: char)
  {
    var n := c as int;
    || n == 0x20 || 0x09 <= n <= 0x0D
    || n == 0x85 || n == 0xA0 || n == 0x1680
    || 0x2000 <= n <= 0x200A
    || n == 0x2028 || n == 0x2029 || n == 0x202F || n == 0x205F || n == 0x3000
  }

  /** `u8::is_ascii_whitespace`: space, tab, line feed, form feed, carriage return (not vertical tab). */
  predicate IsAsciiWhitespace(b: u8)
  {
    b == 0x20 || b == 0x09 || b == 0x0A || b == 0x0C || b == 0x0D
  }

  /** `trim_start`: drops the leading whitespace. */
  function TrimStart(s: string): (r: string)
    ensures |r| <= |s|
  {
    if s != [] && IsWhitespace(s[0]) then TrimStart(s[1..]) else s
  }

  /** `trim_end`: drops the trailing whitespace. */
  function TrimEnd(s: string): (r: string)
    ensures |r| <= |s|
  {
    if s != [] && IsWhitespace(s[|s| - 1]) then TrimEnd(s[..|s| - 1]) else s
  }

  /** `trim_start` removes a prefix made only of whitespace, and what it keeps does not start with whitespace. */
  lemma {:induction false} TrimStartSpec(s: string)
    ensures var r := TrimStart(s);
      && r == s[|s| - |r|..]
      && (r != [] ==> !IsWhitespace(r[0]))
      && forall i | 0 <= i < |s| - |r| :: IsWhitespace(s[i])
    decreases |s|
  {
    if s != [] && IsWhitespace(s[0]) {
      TrimStartSpec(s[1..]);
    }
  }

  /** `trim_end` removes a suffix made only of whitespace, and what it keeps does not end with whitespace. */
  lemma {:induction false} TrimEndSpec(s: string)
    ensures var r := TrimEnd(s);
      && r == s[..|r|]
      && (r != [] ==> !IsWhitespace(r[|r| - 1]))
      && forall i | |r| <= i < |s| :: IsWhitespace(s[i])
    decreases |s|
  {
    if s != [] && IsWhitespace(s[|s| - 1]) {
      TrimEndSpec(s[..|s| - 1]);
    }
  }

  /** `str::trim`: the string without its leading and trailing whitespace. */
  function Trim(s: string): string
  {
    TrimEnd(TrimStart(s))
  }

  /** `trim` leaves a string with no whitespace at either end unchanged. */
  lemma TrimNoop(s: string)
    requires s != [] ==> !IsWhitespace(s[0]) && !IsWhitespace(s[|s| - 1])
    ensures Trim(s) == s
  {
  }

  // ---------------------------------------------------------------------------
  // Searching and splitting

  /** `find`: the position of the first `x` in `s`. */
  function IndexOf<T(==)>(s: seq<T>, x: T): (r: Option<nat>)
    ensures r.Some? ==> r.value < |s| && s[r.value] == x && x !in s[..r.value]
    ensures r.None? ==> x !in s
  {
    if s == [] then None
    else if s[0] == x then Some(0)
    else match IndexOf(s[1..], x)
      case None => None
      case Some(i) => assert s[..i + 1] == [s[0]] + s[1..][..i]; Some(i + 1)
  }

  /** The part of `s` before the first `x`, or all of `s` (`find` then `split_at`). */
  function Before<T(==)>(s: seq<T>, x: T): (r: seq<T>)
    ensures r <= s && x !in r
    ensures |r| < |s| ==> s[|r|] == x
  {
    match IndexOf(s, x)
    case None => s
    case Some(i) => s[..i]
  }

  /** `split(sep)`: the pieces between the separators; there is always at least one. */
  function Split<T(==)>(s: seq<T>, sep: T): (parts: seq<seq<T>>)
    ensures |parts| >= 1
  {
    if s == [] then [[]]
    else
      var rest := Split(s[1..], sep);
      if s[0] == sep then [[]] + rest else [[s[0]] + rest[0]] + rest[1..]
  }

  /** The pieces with the separator between each two of them. */
  function Join<T>(parts: seq<seq<T>>, sep: T): seq<T>
    requires |parts| >= 1
  {
    if |parts| == 1 then parts[0] else parts[0] + [sep] + Join(parts[1..], sep)
  }

  /** Splitting loses nothing: joining the pieces gives back the input, and no piece holds a separator. */
  lemma SplitJoin<T>(s: seq<T>, sep: T)
    ensures Join(Split(s, sep), sep) == s
    ensures forall i | 0 <= i < |Split(s, sep)| :: sep !in Split(s, sep)[i]
  {
    JoinOfSplit(s, sep);
    SplitPiecesFree(s, sep);
  }

  lemma {:induction false} JoinOfSplit<T>(s: seq<T>, sep: T)
    ensures Join(Split(s, sep), sep) == s
  {
    if s != [] {
      var rest := Split(s[1..], sep);
      JoinOfSplit(s[1..], sep);
      if s[0] != sep {
        var parts := Split(s, sep);
        assert parts[0] == [s[0]] + rest[0] && parts[1..] == rest[1..];
        if |rest| > 1 {
          assert Join(rest, sep) == rest[0] + [sep] + Join(rest[1..], sep);
          assert Join(parts, sep) == parts[0] + [sep] + Join(parts[1..], sep);
        }
        assert s == [s[0]] + s[1..];
      } else {
        assert s == [sep] + s[1..];
      }
    }
  }

  lemma {:induction false} SplitPiecesFree<T>(s: seq<T>, sep: T)
    ensures forall i | 0 <= i < |Split(s, sep)| :: sep !in Split(s, sep)[i]
  {
    if s != [] {
      var rest := Split(s[1..], sep);
      SplitPiecesFree(s[1..], sep);
      var parts := Split(s, sep);
      if s[0] != sep {
        forall i | 0 <= i < |parts| ensures sep !in parts[i] {
          if i > 0 { assert parts[i] == rest[i]; }
        }
      } else {
        forall i | 0 <= i < |parts| ensures sep !in parts[i] {
          if i > 0 { assert parts[i] == rest[i - 1]; }
        }
      }
    }
  }

  /** Splitting pieces joined by a separator gives the pieces back. */
  lemma {:induction false} SplitOfJoin<T>(parts: seq<seq<T>>, sep: T)
    requires |parts| >= 1
    requires forall i | 0 <= i < |parts| :: sep !in parts[i]
    ensures Split(Join(parts, sep), sep) == parts
    decreases |parts|, |parts[0]|
  {
    if parts[0] != [] {
      var p0 := parts[0];
      var shorter := [p0[1..]] + parts[1..];
      SplitOfJoin(shorter, sep);
      assert Join(parts, sep) == [p0[0]] + Join(shorter, sep) by {
        if |parts| > 1 {
          assert shorter[1..] == parts[1..];
        }
      }
      assert Join(parts, sep)[1..] == Join(shorter, sep);
      assert [p0[0]] + p0[1..] == p0;
    } else if |parts| > 1 {
      SplitOfJoin(parts[1..], sep);
      assert Join(parts, sep) == [sep] + Join(parts[1..], sep);
      assert Join(parts, sep)[1..] == Join(parts[1..], sep);
      assert [[]] + parts[1..] == parts;
    }
  }

  // ---------------------------------------------------------------------------
  // Decimal numbers

  predicate IsDigit(c: char)
  {
    '0' <= c <= '9'
  }

  function DigitValue(c: char): nat
    requires IsDigit(c)
  {
    c as int - '0' as int
  }

  function DigitChar(d: nat): (c: char)
    requires d < 10
    ensures IsDigit(c) && DigitValue(c) == d
  {
    ('0' as int + d) as char
  }

  /**
   * The digit loop of `from_str_radix` with radix 10 and the checked
   * multiply-then-add: None on a character that is not a digit, or as soon as
   * the value would exceed `max`.
   */
  function Accumulate(acc: nat, digits: string, max: nat): Option<nat>
    decreases |digits|
  {
    if digits == [] then Some(acc)
    else if !IsDigit(digits[0]) then None
    else if acc * 10 + DigitValue(digits[0]) > max then None
    else Accumulate(acc * 10 + DigitValue(digits[0]), digits[1..], max)
  }

  /**
   * `str::parse` for an unsigned integer type whose largest value is `max`:
   * an optional leading `+`, then one or more decimal digits, the value at most `max`.
   */
  function ParseUnsigned(s: string, max: nat): Option<nat>
  {
    if s == [] then None
    else if s[0] == '+' then (if |s| == 1 then None else Accumulate(0, s[1..], max))
    else Accumulate(0, s, max)
  }

  /** Rust `u8` parsing. */
  function ParseU8(s: string): (r: Option<u8>)
  {
    match ParseUnsigned(s, 0xFF)
    case None => None
    case Some(v) => ParseU8Bound(s); Some(v)
  }

  /** Rust `u16` parsing. */
  function ParseU16(s: string): (r: Option<u16>)
  {
    match ParseUnsigned(s, 0xFFFF)
    case None => None
    case Some(v) => ParseU16Bound(s); Some(v)
  }

  lemma {:induction false} AccumulateBound(acc: nat, digits: string, max: nat)
    requires acc <= max
    ensures Accumulate(acc, digits, max).Some? ==> Accumulate(acc, digits, max).value <= max
    decreases |digits|
  {
    if digits != [] && IsDigit(digits[0]) && acc * 10 + DigitValue(digits[0]) <= max {
      AccumulateBound(acc * 10 + DigitValue(digits[0]), digits[1..], max);
    }
  }

  lemma ParseU8Bound(s: string)
    ensures ParseUnsigned(s, 0xFF).Some? ==> ParseUnsigned(s, 0xFF).value <= 0xFF
  {
    if s != [] && s[0] == '+' && |s| > 1 { AccumulateBound(0, s[1..], 0xFF); } else { AccumulateBound(0, s, 0xFF); }
  }

  lemma ParseU16Bound(s: string)
    ensures ParseUnsigned(s, 0xFFFF).Some? ==> ParseUnsigned(s, 0xFFFF).value <= 0xFFFF
  {
    if s != [] && s[0] == '+' && |s| > 1 { AccumulateBound(0, s[1..], 0xFFFF); } else { AccumulateBound(0, s, 0xFFFF); }
  }

  /** The digit loop runs through a concatenation piece by piece. */
  lemma {:induction false} AccumulateAppend(acc: nat, a: string, b: string, max: nat)
    ensures Accumulate(acc, a + b, max) ==
      match Accumulate(acc, a, max) case None => None case Some(v) => Accumulate(v, b, max)
    decreases |a|
  {
    if a == [] {
      assert a + b == b;
    } else {
      assert (a + b)[0] == a[0] && (a + b)[1..] == a[1..] + b;
      if IsDigit(a[0]) && acc * 10 + DigitValue(a[0]) <= max {
        AccumulateAppend(acc * 10 + DigitValue(a[0]), a[1..], b, max);
      }
    }
  }

  // `format!("{}")` of an unsigned integer: its decimal digits, without leading zeros.
  function Decimal(n: nat): (s: string)
    ensures 1 <= |s|
    ensures forall i | 0 <= i < |s| :: IsDigit(s[i])
  {
    if n < 10 then [DigitChar(n)] else Decimal(n / 10) + [DigitChar(n % 10)]
  }

  function Zeros(k: nat): (s: string)
    ensures |s| == k && forall i | 0 <= i < k :: s[i] == '0'
  {
    if k == 0 then [] else Zeros(k - 1) + ['0']
  }

  /** `format!("{:0w}", n)`: the decimal digits of `n`, padded with zeros on the left to `width`. */
  function ZeroPadded(n: nat, width: nat): (s: string)
    ensures |s| == if |Decimal(n)| < width then width else |Decimal(n)|
    ensures forall i | 0 <= i < |s| :: IsDigit(s[i])
  {
    (if |Decimal(n)| < width then Zeros(width - |Decimal(n)|) else []) + Decimal(n)
  }

  /** Parsing the decimal digits of a number gives the number back, if it fits. */
  lemma {:induction false} AccumulateDecimal(n: nat, max: nat)
    requires n <= max
    ensures Accumulate(0, Decimal(n), max) == Some(n)
  {
    if n >= 10 {
      AccumulateDecimal(n / 10, max);
      AccumulateAppend(0, Decimal(n / 10), [DigitChar(n % 10)], max);
    }
  }

  lemma {:induction false} AccumulateZeros(k: nat, s: string, max: nat)
    ensures Accumulate(0, Zeros(k) + s, max) == Accumulate(0, s, max)
  {
    if k > 0 {
      assert Zeros(k) + s == Zeros(k - 1) + (['0'] + s);
      AccumulateZeros(k - 1, ['0'] + s, max);
      assert (['0'] + s)[1..] == s;
      assert DigitValue('0') == 0;
      assert Accumulate(0, ['0'] + s, max) == Accumulate(0, s, max);
    } else {
      assert Zeros(k) + s == s;
    }
  }

  /** Parsing undoes zero-padded formatting, leading zeros included. */
  lemma ParseZeroPadded(n: nat, width: nat, max: nat)
    requires n <= max
    ensures ParseUnsigned(ZeroPadded(n, width), max) == Some(n)
  {
    var k := if |Decimal(n)| < width then width - |Decimal(n)| else 0;
    assert ZeroPadded(n, width) == Zeros(k) + Decimal(n);
    AccumulateZeros(k, Decimal(n), max);
    AccumulateDecimal(n, max);
  }

  /** A number below 10^k has at most k digits, so `{:0k}` gives exactly k of them. */
  lemma {:induction false} DecimalLength(n: nat, k: nat)
    requires 1 <= k && n < Pow10(k)
    ensures |Decimal(n)| <= k
  {
    if n >= 10 {
      assert Pow10(k) == 10 * Pow10(k - 1);
      DecimalLength(n / 10, k - 1);
    }
  }

  function Pow10(k: nat): nat
  {
    if k == 0 then 1 else 10 * Pow10(k - 1)
  }

  /** A `+` sign in front of the digits is accepted. */
  lemma ParsePlusSign(n: nat, max: nat)
    requires n <= max
    ensures ParseUnsigned(['+'] + Decimal(n), max) == Some(n)
  {
    assert (['+'] + Decimal(n))[1..] == Decimal(n);
    AccumulateDecimal(n, max);
  }

  /** The empty string, a lone sign, a non-digit character or a value above `max` is rejected. */
  lemma ParseRejects(max: nat)
    ensures ParseUnsigned("", max) == None
    ensures ParseUnsigned("+", max) == None
    ensures ParseUnsigned("-1", max) == None
    ensures ParseUnsigned("1\0", max) == None
    ensures ParseU8("256") == None && ParseU8("255") == Some(255)
  {
    assert max >= 1 ==> Accumulate(0, "1\0", max) == Accumulate(1, "\0", max);
    assert Accumulate(0, "256", 0xFF) == Accumulate(2, "56", 0xFF) == Accumulate(25, "6", 0xFF);
    assert Accumulate(0, "255", 0xFF) == Accumulate(2, "55", 0xFF) == Accumulate(25, "5", 0xFF) == Some(255);
  }
}
