/**
 * The handful of JavaScript string built-ins the core relies on, stated over
 * Dafny strings (sequences of Unicode scalar values): the white-space class
 * shared by String.prototype.trim and parseInt, trim itself, UTF-16 length
 * (what a JavaScript `length` and Mongoose's minlength/maxlength count),
 * split on a one-character separator, join, and decimal rendering.
 */
module JsString {
  import opened Wrappers

  /** WhiteSpace or LineTerminator in the sense of ECMA-262 (sections 12.2 and 12.3). */
  predicate IsWhite(c: char) {
    var n := c as int;
    n == 0x09 || n == 0x0B || n == 0x0C || n == 0x20 || n == 0xA0 || n == 0xFEFF
    || n == 0x1680 || (0x2000 <= n <= 0x200A) || n == 0x202F || n == 0x205F || n == 0x3000
    || n == 0x0A || n == 0x0D || n == 0x2028 || n == 0x2029
  }

  predicate AllWhite(s: string) {
    forall i :: 0 <= i < |s| ==> IsWhite(s[i])
  }

  lemma AllWhiteConcat(a: string, b: string)
    requires AllWhite(a) && AllWhite(b)
    ensures AllWhite(a + b)
  {
  }

  /** The length of the white-space run at the start of `s`. */
  function LeadingWhite(s: string): (k: nat)
    ensures k <= |s| && AllWhite(s[..k])
    ensures k < |s| ==> !IsWhite(s[k])
  {
    if |s| > 0 && IsWhite(s[0]) then
      var k := LeadingWhite(s[1..]);
      assert s[..k + 1] == [s[0]] + s[1..][..k];
      k + 1
    else 0
  }

  /** The length of the white-space run at the end of `s`. */
  function TrailingWhite(s: string): (k: nat)
    ensures k <= |s| && AllWhite(s[|s| - k..])
    ensures k < |s| ==> !IsWhite(s[|s| - k - 1])
  {
    if |s| > 0 && IsWhite(s[|s| - 1]) then
      var t := s[..|s| - 1];
      var k := TrailingWhite(t);
      assert s[|s| - (k + 1)..] == t[|t| - k..] + [s[|s| - 1]];
      k + 1
    else 0
  }

  /**
   * String.prototype.trim: `s` without the white space at either end. The
   * result is the middle slice of `s`, and it neither starts nor ends with
   * white space.
   */
  function Trim(s: string): (r: string)
    ensures var i := LeadingWhite(s); i + |r| <= |s| && r == s[i..i + |r|]
    ensures AllWhite(s[..LeadingWhite(s)]) && AllWhite(s[LeadingWhite(s) + |r|..])
    ensures r != [] ==> !IsWhite(r[0]) && !IsWhite(r[|r| - 1])
    ensures AllWhite(s) <==> r == []
  {
    var i := LeadingWhite(s);
    var t := s[i..];
    var j := TrailingWhite(t);
    var r := t[..|t| - j];
    assert s[i + |r|..] == t[|t| - j..];
    assert r == [] ==> AllWhite(s) by {
      if r == [] {
        assert t[|t| - j..] == t;
        assert s == s[..i] + t;
        AllWhiteConcat(s[..i], t);
      }
    }
    assert AllWhite(s) ==> r == [] by {
      if i < |s| { assert !IsWhite(s[i]); }
    }
    r
  }

  /** No white space at either end: what a trimmed string looks like. */
  predicate Trimmed(s: string) {
    s == [] || (!IsWhite(s[0]) && !IsWhite(s[|s| - 1]))
  }

  /** A string with no white space at either end is its own trim. */
  lemma TrimOfTrimmed(s: string)
    requires Trimmed(s)
    ensures Trim(s) == s
  {
    assert LeadingWhite(s) == 0;
    assert s[0..] == s;
    assert TrailingWhite(s) == 0;
  }

  /** Trimming twice is trimming once. */
  lemma TrimIdempotent(s: string)
    ensures Trim(Trim(s)) == Trim(s)
  {
    TrimOfTrimmed(Trim(s));
  }

  /** The number of UTF-16 code units a JavaScript string of these code points has. */
  function Utf16Length(s: string): (n: nat)
    ensures |s| <= n <= 2 * |s|
    ensures |s| == 1 ==> n == CodeUnits(s[0])
  {
    if s == [] then 0 else CodeUnits(s[0]) + Utf16Length(s[1..])
  }

  /** The UTF-16 code units of one character: a surrogate pair above U+FFFF. */
  function CodeUnits(c: char): nat {
    if c as int > 0xFFFF then 2 else 1
  }

  /** The UTF-16 length of a concatenation is the sum of the lengths. */
  lemma {:induction false} Utf16Concat(a: string, b: string)
    ensures Utf16Length(a + b) == Utf16Length(a) + Utf16Length(b)
  {
    if a != [] {
      assert (a + b)[0] == a[0] && (a + b)[1..] == a[1..] + b;
      Utf16Concat(a[1..], b);
    } else {
      assert a + b == b;
    }
  }

  /** Only characters above U+FFFF count twice: without them the UTF-16 length is the length. */
  lemma {:induction false} Utf16Plane0(s: string)
    ensures (forall i :: 0 <= i < |s| ==> s[i] as int <= 0xFFFF) <==> Utf16Length(s) == |s|
  {
    if s != [] {
      Utf16Plane0(s[1..]);
      assert forall i :: 1 <= i < |s| ==> s[i] == s[1..][i - 1];
    }
  }

  /** `s.split(c)` for a one-character separator: the pieces between occurrences of `c`. */
  function Split(s: string, c: char): (pieces: seq<string>)
    ensures |pieces| >= 1
    ensures forall i :: 0 <= i < |pieces| ==> c !in pieces[i]
  {
    if s == [] then [""]
    else
      var rest := Split(s[1..], c);
      if s[0] == c then [""] + rest
      else [[s[0]] + rest[0]] + rest[1..]
  }

  /** A string without the separator is a single piece. */
  lemma {:induction false} SplitNoSeparator(s: string, c: char)
    requires c !in s
    ensures Split(s, c) == [s]
  {
    if s != [] {
      SplitNoSeparator(s[1..], c);
      assert [s[0]] + s[1..] == s;
    }
  }

  /** The text before the first separator is the first piece; the rest is split on its own. */
  lemma {:induction false} SplitAtSeparator(a: string, b: string, c: char)
    requires c !in a
    ensures Split(a + [c] + b, c) == [a] + Split(b, c)
  {
    var s := a + [c] + b;
    if a == [] {
      assert s[1..] == b;
    } else {
      assert s[1..] == a[1..] + [c] + b;
      SplitAtSeparator(a[1..], b, c);
      assert [a[0]] + a[1..] == a;
    }
  }

  /** `parts.join(sep)`. */
  function Join(parts: seq<string>, sep: string): string {
    if |parts| == 0 then ""
    else if |parts| == 1 then parts[0]
    else parts[0] + sep + Join(parts[1..], sep)
  }

  /** Every occurrence of `c` in `s` replaced by `d`. */
  function ReplaceChar(s: string, c: char, d: char): (r: string)
    ensures |r| == |s|
    ensures forall i :: 0 <= i < |s| ==> r[i] == if s[i] == c then d else s[i]
  {
    if s == [] then [] else [if s[0] == c then d else s[0]] + ReplaceChar(s[1..], c, d)
  }

  lemma JoinPrepend(x: char, p: string, ps: seq<string>, sep: string)
    ensures Join([[x] + p] + ps, sep) == [x] + Join([p] + ps, sep)
  {
    if |ps| > 0 {
      assert ([[x] + p] + ps)[1..] == ps;
      assert ([p] + ps)[1..] == ps;
    }
  }

  /** Splitting on `c` and joining with `d` is replacing `c` by `d`; in particular `s.split(',').join(' ')`. */
  lemma {:induction false} SplitJoinIsReplace(s: string, c: char, d: char)
    ensures Join(Split(s, c), [d]) == ReplaceChar(s, c, d)
  {
    if s != [] {
      var rest := Split(s[1..], c);
      SplitJoinIsReplace(s[1..], c, d);
      if s[0] == c {
        assert ([""] + rest)[1..] == rest;
        assert Join([""] + rest, [d]) == [d] + Join(rest, [d]);
      } else {
        JoinPrepend(s[0], rest[0], rest[1..], [d]);
        assert [rest[0]] + rest[1..] == rest;
      }
    }
  }

  /** Joining the pieces with the separator gives back the string. */
  lemma SplitJoinRoundTrip(s: string, c: char)
    ensures Join(Split(s, c), [c]) == s
  {
    SplitJoinIsReplace(s, c, c);
    assert ReplaceChar(s, c, c) == s;
  }

  /** The piece `s.split(c)[k]`, or None when there are fewer than k + 1 pieces (JavaScript's undefined). */
  function Piece(s: string, c: char, k: nat): (r: Option<string>)
    ensures r.Some? <==> k < |Split(s, c)|
    ensures r.Some? ==> r.value == Split(s, c)[k] && c !in r.value
  {
    var pieces := Split(s, c);
    if k < |pieces| then Some(pieces[k]) else None
  }

  /** The decimal digits of a natural number, most significant first, without leading zeros. */
  function Decimal(n: nat): (r: string)
    ensures |r| >= 1
    ensures forall i :: 0 <= i < |r| ==> '0' <= r[i] <= '9'
    decreases n
  {
    if n < 10 then [DigitChar(n)] else Decimal(n / 10) + [DigitChar(n % 10)]
  }

  function DigitChar(d: nat): (c: char)
    requires d < 10
    ensures '0' <= c <= '9' && c as int - '0' as int == d
  {
    ('0' as int + d) as char
  }
}
