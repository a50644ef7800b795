/**
 * Byte strings and the few `bytes` methods the squeezer uses: the HTML
 * whitespace test `_isspace`, `bytes.lower()`, `bytes.strip()`,
 * `bytes.split(sep)` and `bytes.split(sep, 1)`, and Python's `or` on
 * optional byte strings.
 */
module Bytes {
  import opened Wrappers

  newtype byte = b: int | 0 <= b < 256

  type bytes = seq<byte>

  /** `_isspace`: tab, line feed, form feed, carriage return and space. */
  predicate IsSpace(c: byte)
  {
    c == 0x09 || c == 0x0A || c == 0x0C || c == 0x0D || c == 0x20
  }

  /** The bytes `bytes.strip()` removes: the HTML whitespace plus vertical tab. */
  predicate IsAsciiWhitespace(c: byte)
  {
    IsSpace(c) || c == 0x0B
  }

  /**
   * `_isspace` and `bytes.strip()` disagree on one byte only: every HTML
   * space is stripped, and vertical tab is stripped without being a space.
   */
  lemma SpaceIsStripped(c: byte)
    ensures IsSpace(c) ==> IsAsciiWhitespace(c)
    ensures IsAsciiWhitespace(c) && !IsSpace(c) <==> c == 0x0B
    ensures IsSpace(c) <==> c in [0x09, 0x0A, 0x0C, 0x0D, 0x20]
  {
  }

  /** ASCII lower-casing of one byte; every other byte is left alone. */
  function LowerByte(c: byte): byte
  {
    if 0x41 <= c <= 0x5A then c + 0x20 else c
  }

  /** `bytes.lower()`. */
  function Lower(s: bytes): (r: bytes)
    ensures |r| == |s|
    ensures forall i :: 0 <= i < |s| ==> r[i] == LowerByte(s[i])
  {
    if s == [] then [] else [LowerByte(s[0])] + Lower(s[1..])
  }

  /** A byte string without upper-case ASCII letters is its own lower case. */
  lemma LowerKeepsLowerCase(s: bytes)
    requires forall i :: 0 <= i < |s| ==> !(0x41 <= s[i] <= 0x5A)
    ensures Lower(s) == s
  {
  }

  /** `Squeezer._lower`: lower-cases a present value and keeps `None`. */
  function LowerOrNone(s: Option<bytes>): (r: Option<bytes>)
    ensures r.Some? <==> s.Some?
    ensures s.Some? ==> |r.value| == |s.value| && forall i :: 0 <= i < |s.value| ==> r.value[i] == LowerByte(s.value[i])
  {
    match s
    case None => None
    case Some(v) => Some(Lower(v))
  }

  function TrimLeft(s: bytes): (r: bytes)
    ensures |r| <= |s| && r == s[|s| - |r|..]
    ensures forall k :: 0 <= k < |s| - |r| ==> IsAsciiWhitespace(s[k])
    ensures r != [] ==> !IsAsciiWhitespace(r[0])
  {
    if s != [] && IsAsciiWhitespace(s[0]) then TrimLeft(s[1..]) else s
  }

  function TrimRight(s: bytes): (r: bytes)
    ensures |r| <= |s| && r == s[..|r|]
    ensures forall k :: |r| <= k < |s| ==> IsAsciiWhitespace(s[k])
    ensures r != [] ==> !IsAsciiWhitespace(r[|r| - 1])
  {
    if s != [] && IsAsciiWhitespace(s[|s| - 1]) then TrimRight(s[..|s| - 1]) else s
  }

  /**
   * `bytes.strip()`: the result is a slice of `s` that neither starts nor
   * ends with whitespace, and everything cut off on either side is whitespace.
   */
  function Strip(s: bytes): (r: bytes)
    ensures r != [] ==> !IsAsciiWhitespace(r[0]) && !IsAsciiWhitespace(r[|r| - 1])
    ensures exists i ::
      && 0 <= i <= |s| - |r| && r == s[i..][..|r|]
      && (forall k :: 0 <= k < i ==> IsAsciiWhitespace(s[k]))
      && (forall k :: i + |r| <= k < |s| ==> IsAsciiWhitespace(s[k]))
  {
    TrimBoth(s);
    TrimRight(TrimLeft(s))
  }

  /** Trimming both ends keeps a slice and cuts off whitespace only. */
  lemma TrimBoth(s: bytes)
    ensures
      var t := TrimLeft(s);
      var r := TrimRight(t);
      && (r != [] ==> !IsAsciiWhitespace(r[0]) && !IsAsciiWhitespace(r[|r| - 1]))
      && var i := |s| - |t|;
      && 0 <= i <= |s| - |r| && r == s[i..][..|r|]
      && (forall k :: 0 <= k < i ==> IsAsciiWhitespace(s[k]))
      && (forall k :: i + |r| <= k < |s| ==> IsAsciiWhitespace(s[k]))
  {
    var t := TrimLeft(s);
    var r := TrimRight(t);
    var i := |s| - |t|;
    assert r == s[i..][..|r|];
    forall k | i + |r| <= k < |s|
      ensures IsAsciiWhitespace(s[k])
    {
      assert s[k] == t[k - i];
    }
    assert r != [] ==> r[0] == t[0];
  }

  /** The position of the first `b` in `s`. */
  function IndexOf(s: bytes, b: byte): (i: nat)
    requires b in s
    ensures i < |s| && s[i] == b && b !in s[..i]
  {
    if s[0] == b then 0 else 1 + IndexOf(s[1..], b)
  }

  /** `sep.join(ps)`, the inverse of `Split`. */
  function Join(ps: seq<bytes>, sep: byte): bytes
    requires |ps| > 0
  {
    if |ps| == 1 then ps[0] else ps[0] + [sep] + Join(ps[1..], sep)
  }

  /**
   * `s.split(sep)` for a one-byte separator: at least one piece, no piece
   * holds the separator, and joining the pieces with it gives `s` back.
   */
  function Split(s: bytes, sep: byte): (ps: seq<bytes>)
    ensures |ps| > 0
    ensures forall i :: 0 <= i < |ps| ==> sep !in ps[i]
    ensures Join(ps, sep) == s
    decreases |s|
  {
    if sep !in s then [s]
    else
      var i := IndexOf(s, sep);
      var rest := Split(s[i + 1..], sep);
      assert s == s[..i] + [sep] + s[i + 1..];
      [s[..i]] + rest
  }

  /**
   * `s.split(sep, 1)` seen through `len(...) == 2`: present exactly when `s`
   * holds the separator, and then the text before its first occurrence and
   * the text after it.
   */
  function SplitOnce(s: bytes, sep: byte): (r: Option<(bytes, bytes)>)
    ensures r.Some? <==> sep in s
    ensures r.Some? ==> sep !in r.value.0 && r.value.0 + [sep] + r.value.1 == s
  {
    if sep in s then
      var i := IndexOf(s, sep);
      assert s == s[..i] + [sep] + s[i + 1..];
      Some((s[..i], s[i + 1..]))
    else None
  }

  /** Python `a or b` on optional byte strings: `None` and `b''` are false. */
  function OrElse(a: Option<bytes>, b: Option<bytes>): Option<bytes>
  {
    if a.Some? && |a.value| > 0 then a else b
  }

  /** The text of an optional byte string, `b''` standing for `None`. */
  function OrEmpty(a: Option<bytes>): bytes
  {
    if a.Some? then a.value else []
  }

  /** Stripping twice strips nothing more. */
  lemma StripIdempotent(s: bytes)
    ensures Strip(Strip(s)) == Strip(s)
  {
    var r := Strip(s);
    assert r == [] || !IsAsciiWhitespace(r[0]);
    assert TrimLeft(r) == r;
    assert r == [] || !IsAsciiWhitespace(r[|r| - 1]);
  }

  /** Splitting a join of separator-free pieces gives the pieces back. */
  lemma {:induction false} SplitJoin(ps: seq<bytes>, sep: byte)
    requires |ps| > 0
    requires forall i :: 0 <= i < |ps| ==> sep !in ps[i]
    ensures Split(Join(ps, sep), sep) == ps
  {
    if |ps| > 1 {
      var s := Join(ps, sep);
      var tail := Join(ps[1..], sep);
      assert s == ps[0] + [sep] + tail;
      assert s[|ps[0]|] == sep;
      assert s[..|ps[0]|] == ps[0];
      assert IndexOf(s, sep) == |ps[0]| by {
        IndexOfPrefix(ps[0], [sep] + tail, sep);
      }
      assert s[|ps[0]| + 1..] == tail;
      SplitJoin(ps[1..], sep);
    }
  }

  lemma {:induction false} IndexOfPrefix(p: bytes, q: bytes, b: byte)
    requires b !in p && q != [] && q[0] == b
    ensures b in p + q && IndexOf(p + q, b) == |p|
  {
    assert (p + q)[|p|] == b;
    if p != [] {
      assert (p + q)[1..] == p[1..] + q;
      IndexOfPrefix(p[1..], q, b);
    }
  }

  /** `split(sep, 1)` cuts at the first separator, so it takes a key without one back apart. */
  lemma SplitOnceJoin(k: bytes, v: bytes, sep: byte)
    requires sep !in k
    ensures SplitOnce(k + [sep] + v, sep) == Some((k, v))
  {
    var s := k + [sep] + v;
    assert s == k + ([sep] + v);
    IndexOfPrefix(k, [sep] + v, sep);
    assert s[..|k|] == k && s[|k| + 1..] == v;
  }
}
