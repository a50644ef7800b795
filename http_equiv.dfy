/**
 * The charset names an `http-equiv="Content-Type"` content declares: its
 * `;`-separated pieces of the form `charset=<name>`, in order, and those of
 * them that name a codec. Both squeezers apply the pieces one after the
 * other, so the last declaration decides.
 */
module HttpEquiv {
  import opened Bytes
  import opened Names

  /** The name one piece declares: `charset=<name>` with a non-empty stripped name, else nothing. */
  function PieceDecl(item: bytes): (d: seq<bytes>)
    ensures |d| <= 1
    ensures d != [] ==> d[0] != [] && EQUALS in item
    ensures EQUALS !in item ==> d == []
  {
    match SplitOnce(item, EQUALS)
    case None => []
    case Some((key, value)) =>
      if Lower(Strip(key)) == CHARSET && Strip(value) != [] then [Strip(value)] else []
  }

  /** The names declared by the `charset=` pieces among `pieces`, in order. */
  function CharsetDecls(pieces: seq<bytes>): (decls: seq<bytes>)
    ensures |decls| <= |pieces|
    ensures forall i :: 0 <= i < |decls| ==> decls[i] != []
    decreases |pieces|
  {
    if pieces == [] then [] else PieceDecl(pieces[0]) + CharsetDecls(pieces[1..])
  }

  function KnownOnly(names: seq<bytes>, known: bytes -> bool): (good: seq<bytes>)
    ensures |good| <= |names|
    ensures forall x :: x in good <==> x in names && known(x)
    decreases |names|
  {
    if names == [] then [] else (if known(names[0]) then [names[0]] else []) + KnownOnly(names[1..], known)
  }

  /** A piece `key=value` declares the stripped value exactly when the stripped key is `charset` in any case. */
  lemma PieceDeclOf(key: bytes, value: bytes)
    requires EQUALS !in key
    ensures PieceDecl(key + [EQUALS] + value)
         == (if Lower(Strip(key)) == CHARSET && Strip(value) != [] then [Strip(value)] else [])
  {
    SplitOnceJoin(key, value, EQUALS);
  }

  /** The declarations of consecutive piece lists follow one another. */
  lemma {:induction false} DeclsAppend(a: seq<bytes>, b: seq<bytes>)
    ensures CharsetDecls(a + b) == CharsetDecls(a) + CharsetDecls(b)
    decreases |a|
  {
    if a == [] {
      assert a + b == b;
    } else {
      assert (a + b)[0] == a[0] && (a + b)[1..] == a[1..] + b;
      DeclsAppend(a[1..], b);
    }
  }

  /** A name is declared exactly when some piece declares it. */
  lemma {:induction false} DeclsMembers(pieces: seq<bytes>, x: bytes)
    ensures x in CharsetDecls(pieces) <==> exists i :: 0 <= i < |pieces| && x in PieceDecl(pieces[i])
    decreases |pieces|
  {
    if pieces != [] {
      var tail := pieces[1..];
      DeclsMembers(tail, x);
      var d := PieceDecl(pieces[0]);
      var rest := CharsetDecls(tail);
      assert CharsetDecls(pieces) == d + rest;
      if x in rest {
        var i :| 0 <= i < |tail| && x in PieceDecl(tail[i]);
        assert tail[i] == pieces[i + 1];
      }
      if exists i :: 0 <= i < |pieces| && x in PieceDecl(pieces[i]) {
        var i :| 0 <= i < |pieces| && x in PieceDecl(pieces[i]);
        if i > 0 {
          assert pieces[i] == tail[i - 1];
        }
      }
    }
  }

  lemma LastOfAppend(a: seq<bytes>, b: seq<bytes>)
    ensures b != [] ==> (a + b)[|a + b| - 1] == b[|b| - 1]
    ensures b == [] ==> a + b == a
  {
  }

  lemma {:induction false} KnownAppend(a: seq<bytes>, b: seq<bytes>, known: bytes -> bool)
    ensures KnownOnly(a + b, known) == KnownOnly(a, known) + KnownOnly(b, known)
    decreases |a|
  {
    if a == [] {
      assert a + b == b;
    } else {
      assert (a + b)[0] == a[0] && (a + b)[1..] == a[1..] + b;
      KnownAppend(a[1..], b, known);
    }
  }

  /** An empty content is one empty piece, which declares nothing. */
  lemma EmptyContentDeclaresNothing()
    ensures CharsetDecls(Split([], SEMICOLON)) == []
  {
    assert Split([], SEMICOLON) == [[]];
    assert SplitOnce([], EQUALS).None?;
    assert PieceDecl([]) == [];
    assert CharsetDecls([[]]) == PieceDecl([]) + CharsetDecls([]);
  }
}
