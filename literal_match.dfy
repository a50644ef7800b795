/**
 * A reference for the hand-unrolled state chains that look for `-->`,
 * `</script>` and `</style>`: a matcher that remembers how many bytes of the
 * literal it has seen. A byte equal to the next one, up to ASCII case,
 * advances it; any other byte sends it back to the start without looking at
 * that byte again.
 */
module LiteralMatch {
  import opened Bytes

  /** The matcher after the byte `c`, having matched `lit[..k]`. */
  function Advance(lit: bytes, k: nat, c: byte): nat
    requires k < |lit|
  {
    if LowerByte(c) == lit[k] then k + 1 else 0
  }

  /** Whether the matcher, started after `lit[..k]`, reads all of `s` without completing `lit`. */
  predicate Open(lit: bytes, k: nat, s: bytes)
    requires k < |lit|
    decreases |s|
  {
    s == [] || (Advance(lit, k, s[0]) < |lit| && Open(lit, Advance(lit, k, s[0]), s[1..]))
  }

  /** How much of `lit` the matcher holds after reading `s`, which does not complete it. */
  function Scan(lit: bytes, k: nat, s: bytes): (n: nat)
    requires k < |lit| && Open(lit, k, s)
    ensures n < |lit|
    decreases |s|
  {
    if s == [] then k else Scan(lit, Advance(lit, k, s[0]), s[1..])
  }

  predicate IsSuffix(a: bytes, b: bytes)
  {
    |a| <= |b| && b[|b| - |a|..] == a
  }

  lemma SuffixAppend(a: bytes, b: bytes, y: bytes)
    requires IsSuffix(a, b)
    ensures IsSuffix(a + y, b + y)
  {
    assert (b + y)[|b + y| - |a + y|..] == b[|b| - |a|..] + y;
  }

  lemma SuffixTrans(a: bytes, b: bytes, c: bytes)
    requires IsSuffix(a, b) && IsSuffix(b, c)
    ensures IsSuffix(a, c)
  {
    assert c[|c| - |a|..] == c[|c| - |b|..][|b| - |a|..];
  }

  lemma Assoc(a: bytes, b: bytes, c: bytes)
    ensures a + b + c == a + (b + c)
  {
  }

  lemma SuffixSelf(a: bytes)
    ensures IsSuffix(a, a)
  {
    assert a[0..] == a;
  }

  lemma SuffixEmpty(b: bytes)
    ensures IsSuffix([], b)
  {
  }

  /** One step of the matcher keeps what it holds a suffix of what it read. */
  lemma AdvanceSuffix(lit: bytes, k: nat, c: byte)
    requires k < |lit|
    ensures IsSuffix(lit[..Advance(lit, k, c)], lit[..k] + [LowerByte(c)])
  {
    if LowerByte(c) == lit[k] {
      assert lit[..k + 1] == lit[..k] + [LowerByte(c)];
      SuffixSelf(lit[..k] + [LowerByte(c)]);
    } else {
      assert lit[..0] == [];
      SuffixEmpty(lit[..k] + [LowerByte(c)]);
    }
  }

  /**
   * No false positives: what the matcher holds is always a suffix of what it
   * started from followed by the lower-cased input.
   */
  lemma {:induction false} ScanSuffix(lit: bytes, k: nat, s: bytes)
    requires k < |lit| && Open(lit, k, s)
    ensures IsSuffix(lit[..Scan(lit, k, s)], lit[..k] + Lower(s))
    decreases |s|
  {
    if s == [] {
      assert lit[..k] + Lower(s) == lit[..k];
      SuffixSelf(lit[..k]);
    } else {
      var k1 := Advance(lit, k, s[0]);
      var w := [LowerByte(s[0])];
      var rest := Lower(s[1..]);
      var held := lit[..Scan(lit, k1, s[1..])];
      assert Scan(lit, k, s) == Scan(lit, k1, s[1..]);
      AdvanceSuffix(lit, k, s[0]);
      ScanSuffix(lit, k1, s[1..]);
      assert IsSuffix(held, lit[..k1] + rest);
      SuffixAppend(lit[..k1], lit[..k] + w, rest);
      assert Lower(s) == w + rest;
      Assoc(lit[..k], w, rest);
      SuffixTrans(held, lit[..k1] + rest, lit[..k] + Lower(s));
    }
  }

  /** When the matcher completes on `c`, the input read so far really ends with the literal. */
  lemma CompleteIsLiteral(lit: bytes, s: bytes, c: byte)
    requires 0 < |lit| && Open(lit, 0, s) && Advance(lit, Scan(lit, 0, s), c) == |lit|
    ensures IsSuffix(lit, Lower(s + [c]))
  {
    var k := Scan(lit, 0, s);
    ScanSuffix(lit, 0, s);
    assert lit[..0] + Lower(s) == Lower(s);
    SuffixAppend(lit[..k], Lower(s), [LowerByte(c)]);
    assert k + 1 == |lit| && lit[k] == LowerByte(c);
    assert lit[..k] + [LowerByte(c)] == lit;
    LowerAppend(s, [c]);
    assert Lower([c]) == [LowerByte(c)];
  }

  lemma {:induction false} LowerAppend(a: bytes, b: bytes)
    ensures Lower(a + b) == Lower(a) + Lower(b)
  {
    if a != [] {
      assert (a + b)[1..] == a[1..] + b;
      LowerAppend(a[1..], b);
    }
  }
}
