/** The children lists of a dominator tree. */
module DomChildren {
  import opened Words
  import opened Dfs
  import opened AncestorSolver

  type Children = map<BlockId, seq<BlockId>>

  ghost predicate Ascending(s: seq<BlockId>) { forall i, j :: 0 <= i < j < |s| ==> s[i] < s[j] }

  /** The recorded parent of `b` is `d`. */
  predicate ChildOf(tree: Tree, d: BlockId, b: BlockId) { b in tree && tree[b] == Some(d) }

  // ------------------------------------------------------------------
  // Sorting.
  // ------------------------------------------------------------------

  method Insert(s: seq<BlockId>, x: BlockId) returns (r: seq<BlockId>)
    requires Ascending(s) && x !in s
    ensures Ascending(r) && forall y :: y in r <==> y == x || y in s
  {
    var i := 0;
    while i < |s| && s[i] < x
      invariant i <= |s| && forall k :: 0 <= k < i ==> s[k] < x
    {
      i := i + 1;
    }
    InsertedAt(s, i, x);
    r := s[..i] + [x] + s[i..];
  }

  lemma InsertedAt(s: seq<BlockId>, i: nat, x: BlockId)
    requires Ascending(s) && i <= |s| && x !in s
    requires (forall k :: 0 <= k < i ==> s[k] < x) && (i < |s| ==> s[i] >= x)
    ensures Ascending(s[..i] + [x] + s[i..])
    ensures forall y :: y in s[..i] + [x] + s[i..] <==> y == x || y in s
  {
    var r := s[..i] + [x] + s[i..];
    assert forall k :: i <= k < |s| ==> s[k] > x;
    assert r[i] == x;
    forall y | y in s ensures y in r {
      var k :| 0 <= k < |s| && s[k] == y;
      assert if k < i then r[k] == y else r[k + 1] == y;
    }
  }

  method Sort(s: seq<BlockId>) returns (r: seq<BlockId>)
    requires NoDup(s)
    ensures Ascending(r) && forall y :: y in r <==> y in s
  {
    r := [];
    for k := 0 to |s|
      invariant Ascending(r) && forall y :: y in r <==> y in s[..k]
    {
      TakeSnoc(s, k);
      r := Insert(r, s[k]);
    }
    TakeAll(s);
  }

  // ------------------------------------------------------------------
  // The lists.
  // ------------------------------------------------------------------

  /** The children among `done`, each parent that has one with a list of them. */
  ghost predicate Gathered(tree: Tree, done: set<BlockId>, children: Children) {
    && (forall d :: d in children ==> NoDup(children[d]) && children[d] != [])
    && (forall d, b :: d in children ==> (b in children[d] <==> b in done && ChildOf(tree, d, b)))
    && (forall d, b :: b in done && ChildOf(tree, d, b) ==> d in children)
  }

  method AddUnique(s: seq<BlockId>, x: BlockId) returns (r: seq<BlockId>)
    requires NoDup(s)
    ensures NoDup(r) && r != [] && forall y :: y in r <==> y in s || y == x
  {
    r := if x in s then s else s + [x];
  }

  method AddChild(tree: Tree, ghost done: set<BlockId>, children0: Children, b: BlockId) returns (children: Children)
    requires b in tree && Gathered(tree, done, children0)
    ensures Gathered(tree, done + {b}, children)
  {
    children := children0;
    if tree[b].Some? {
      var d := tree[b].value;
      var list := AddUnique(if d in children then children[d] else [], b);
      children := children[d := list];
    }
  }

  /** Every parent with its children in ascending order, nobody else. */
  ghost predicate ChildLists(tree: Tree, children: Children) {
    && (forall d :: d in children <==> exists b :: ChildOf(tree, d, b))
    && (forall d, b :: d in children ==> (b in children[d] <==> ChildOf(tree, d, b)))
    && (forall d :: d in children ==> Ascending(children[d]))
  }

  method SortAll(children0: Children) returns (children: Children)
    requires forall d :: d in children0 ==> NoDup(children0[d])
    ensures children.Keys == children0.Keys
    ensures forall d, b :: d in children ==> (b in children[d] <==> b in children0[d])
    ensures forall d :: d in children ==> Ascending(children[d])
  {
    children := map[];
    var todo := children0.Keys;
    while todo != {}
      invariant todo <= children0.Keys && children.Keys == children0.Keys - todo
      invariant forall d, b :: d in children ==> (b in children[d] <==> b in children0[d])
      invariant forall d :: d in children ==> Ascending(children[d])
      decreases |todo|
    {
      var d :| d in todo;
      todo := todo - {d};
      var list := Sort(children0[d]);
      children := children[d := list];
    }
  }

  method Gather(tree: Tree) returns (children: Children)
    ensures Gathered(tree, tree.Keys, children)
  {
    children := map[];
    var todo := tree.Keys;
    while todo != {}
      invariant todo <= tree.Keys && Gathered(tree, tree.Keys - todo, children)
      decreases |todo|
    {
      var b :| b in todo;
      children := AddChild(tree, tree.Keys - todo, children, b);
      todo := todo - {b};
      assert tree.Keys - todo == tree.Keys - (todo + {b}) + {b};
    }
    assert tree.Keys - todo == tree.Keys;
  }

  lemma GatheredLists(tree: Tree, gathered: Children, children: Children)
    requires Gathered(tree, tree.Keys, gathered) && children.Keys == gathered.Keys
    requires forall d, b :: d in children ==> (b in children[d] <==> b in gathered[d])
    requires forall d :: d in children ==> Ascending(children[d])
    ensures ChildLists(tree, children)
  {
    forall d | d in children ensures exists b :: ChildOf(tree, d, b) {
      var b := gathered[d][0];
      assert b in gathered[d] && ChildOf(tree, d, b);
    }
  }

  /** The children lists, whatever order the tree is walked in. */
  method ChildrenOf(tree: Tree) returns (children: Children)
    ensures ChildLists(tree, children)
  {
    var gathered := Gather(tree);
    children := SortAll(gathered);
    GatheredLists(tree, gathered, children);
  }
}
