/** Declaration hoisting: class and function statements are moved ahead of all
    other statements of a block, each group keeping its order. */
module Hoisting {
  import opened Ast

  /** The declarations of `s`, in order. */
  function Declarations(s: seq<Node>): (r: seq<Node>)
    ensures forall k :: 0 <= k < |r| ==> IsDeclaration(r[k])
    ensures |r| <= |s|
    decreases |s|
  {
    if s == [] then []
    else Declarations(s[..|s| - 1]) + (if IsDeclaration(s[|s| - 1]) then [s[|s| - 1]] else [])
  }

  /** The other statements of `s`, in order. */
  function NonDeclarations(s: seq<Node>): (r: seq<Node>)
    ensures forall k :: 0 <= k < |r| ==> !IsDeclaration(r[k])
    ensures |r| <= |s|
    decreases |s|
  {
    if s == [] then []
    else NonDeclarations(s[..|s| - 1]) + (if IsDeclaration(s[|s| - 1]) then [] else [s[|s| - 1]])
  }

  /** What hoisting produces: the declarations, then everything else. */
  function Hoisted(s: seq<Node>): seq<Node>
  {
    Declarations(s) + NonDeclarations(s)
  }

  /** The source's loop: each statement is pushed onto one of two lists. */
  method HoistDeclarations(statements: seq<Node>) returns (hoisted: seq<Node>)
    ensures hoisted == Hoisted(statements)
    ensures multiset(hoisted) == multiset(statements)
  {
    var declarations: seq<Node> := [];
    var nonDeclarations: seq<Node> := [];
    var i := 0;
    while i < |statements|
      invariant 0 <= i <= |statements|
      invariant declarations == Declarations(statements[..i])
      invariant nonDeclarations == NonDeclarations(statements[..i])
    {
      assert statements[..i + 1][..i] == statements[..i];
      if IsDeclaration(statements[i]) {
        declarations := declarations + [statements[i]];
      } else {
        nonDeclarations := nonDeclarations + [statements[i]];
      }
      i := i + 1;
    }
    assert statements[..i] == statements;
    hoisted := declarations + nonDeclarations;
    HoistedIsPermutation(statements);
  }

  /** Hoisting neither loses nor duplicates a statement. */
  lemma {:induction false} HoistedIsPermutation(s: seq<Node>)
    ensures multiset(Hoisted(s)) == multiset(s)
    decreases |s|
  {
    if s != [] {
      var init := s[..|s| - 1];
      HoistedIsPermutation(init);
      assert s == init + [s[|s| - 1]];
    }
  }

  /** Every declaration comes before every other statement: position `k` of the
      result holds a declaration exactly when `k` is below the number of
      declarations. */
  lemma HoistedPartition(s: seq<Node>, k: int)
    requires 0 <= k < |Hoisted(s)|
    ensures IsDeclaration(Hoisted(s)[k]) <==> k < |Declarations(s)|
  {
    if k >= |Declarations(s)| {
      assert Hoisted(s)[k] == NonDeclarations(s)[k - |Declarations(s)|];
    }
  }

  lemma {:induction false} DeclarationsOfConcat(a: seq<Node>, b: seq<Node>)
    ensures Declarations(a + b) == Declarations(a) + Declarations(b)
    ensures NonDeclarations(a + b) == NonDeclarations(a) + NonDeclarations(b)
    decreases |b|
  {
    if b == [] {
      assert a + b == a;
    } else {
      var init := b[..|b| - 1];
      assert (a + b)[..|a + b| - 1] == a + init;
      DeclarationsOfConcat(a, init);
    }
  }

  lemma {:induction false} FiltersOfDeclarations(s: seq<Node>)
    requires forall k :: 0 <= k < |s| ==> IsDeclaration(s[k])
    ensures Declarations(s) == s && NonDeclarations(s) == []
    decreases |s|
  {
    if s != [] {
      FiltersOfDeclarations(s[..|s| - 1]);
    }
  }

  lemma {:induction false} FiltersOfNonDeclarations(s: seq<Node>)
    requires forall k :: 0 <= k < |s| ==> !IsDeclaration(s[k])
    ensures Declarations(s) == [] && NonDeclarations(s) == s
    decreases |s|
  {
    if s != [] {
      FiltersOfNonDeclarations(s[..|s| - 1]);
    }
  }

  /** Both groups keep their original relative order: filtering the result
      gives back the same declarations and the same other statements. */
  lemma HoistedKeepsOrder(s: seq<Node>)
    ensures Declarations(Hoisted(s)) == Declarations(s)
    ensures NonDeclarations(Hoisted(s)) == NonDeclarations(s)
  {
    DeclarationsOfConcat(Declarations(s), NonDeclarations(s));
    FiltersOfDeclarations(Declarations(s));
    FiltersOfNonDeclarations(NonDeclarations(s));
  }

  /** Hoisting an already hoisted block changes nothing. */
  lemma HoistedIdempotent(s: seq<Node>)
    ensures Hoisted(Hoisted(s)) == Hoisted(s)
  {
    HoistedKeepsOrder(s);
  }
}
