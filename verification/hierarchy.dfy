/** The `parent` hierarchy of a flat element list: lookup by id, the walk up
    the ancestor chain, acyclicity, and the recursive collection of
    descendant ids that the cascade delete and the editor's parent picker
    share.

    The source recurses down the hierarchy without a visited set, so those
    recursions only end on data whose parent relation has no cycle.  That is
    made explicit here: `Acyclic` says that walking up from every element
    reaches a root (or a dangling reference) without revisiting an id, and
    the length of that walk, `Height`, is the termination measure. */
module Hierarchy {
  import opened Optional
  import opened Seqs
  import opened Types

  /** The ids present in a collection. */
  function IdSet(es: seq<Element>): set<string> {
    set e | e in es :: e.id
  }

  /** The ids of a collection, in order. */
  function Ids(es: seq<Element>): (r: seq<string>)
    ensures |r| == |es|
    ensures forall i :: 0 <= i < |es| ==> r[i] == es[i].id
  {
    seq(|es|, i requires 0 <= i < |es| => es[i].id)
  }

  /** No two positions hold the same id. */
  predicate UniqueIds(es: seq<Element>) {
    forall i, j :: 0 <= i < |es| && 0 <= j < |es| && es[i].id == es[j].id ==> i == j
  }

  /** The first position holding the id `x`, or `None` where `findIndex`
      answers `-1`. */
  function IndexOf(es: seq<Element>, x: string): (r: Option<nat>)
    ensures r.Some? ==> r.value < |es| && es[r.value].id == x
    ensures r.Some? ==> forall j :: 0 <= j < r.value ==> es[j].id != x
    ensures r.None? <==> x !in IdSet(es)
  {
    if |es| == 0 then None
    else if es[0].id == x then Some(0)
    else
      match IndexOf(es[1..], x)
      case None => (assert forall e :: e in es ==> e == es[0] || e in es[1..]; None)
      case Some(i) => Some(i + 1)
  }

  /** The first-match position depends on the ids alone. */
  lemma {:induction false} IndexOfByIds(a: seq<Element>, b: seq<Element>, x: string)
    requires Ids(a) == Ids(b)
    ensures IndexOf(a, x) == IndexOf(b, x)
    decreases |a|
  {
    if |a| > 0 {
      assert Ids(a[1..]) == Ids(a)[1..] && Ids(b[1..]) == Ids(b)[1..];
      assert a[0].id == Ids(a)[0] == Ids(b)[0] == b[0].id;
      IndexOfByIds(a[1..], b[1..], x);
    }
  }

  /** The store's `getElement` (and every `find` by id): the first element
      holding `x`, `None` where JavaScript gives `undefined`. */
  function Find(es: seq<Element>, x: string): (r: Option<Element>)
    ensures r.Some? ==> r.value in es && r.value.id == x
    ensures r.None? <==> x !in IdSet(es)
    ensures forall i :: 0 <= i < |es| && es[i].id == x && (forall j :: 0 <= j < i ==> es[j].id != x) ==>
      r == Some(es[i])
  {
    match IndexOf(es, x)
    case None => None
    case Some(i) => Some(es[i])
  }

  /** With unique ids, looking an element's id up finds that element. */
  lemma FindUnique(es: seq<Element>, e: Element)
    requires UniqueIds(es) && e in es
    ensures Find(es, e.id) == Some(e)
  {
    var k :| 0 <= k < |es| && es[k] == e;
    var i := IndexOf(es, e.id).value;
    assert es[i].id == es[k].id;
  }

  /** One step up the hierarchy: the `parent` of the element holding `x`,
      `None` when `x` names no element or a root. */
  function Up(es: seq<Element>, x: string): (r: Option<string>)
    ensures r.Some? ==> x in IdSet(es)
  {
    match Find(es, x)
    case None => None
    case Some(e) => e.parent
  }

  /** Walking up from `x` never meets an id of `seen` nor repeats one. */
  predicate RootedFrom(es: seq<Element>, x: string, seen: set<string>)
    decreases |IdSet(es) - seen|
  {
    x !in seen &&
    match Up(es, x)
    case None => true
    case Some(p) =>
      assert IdSet(es) - (seen + {x}) == (IdSet(es) - seen) - {x};
      RootedFrom(es, p, seen + {x})
  }

  /** The number of steps the walk up from `x` takes before it stops. */
  function HeightFrom(es: seq<Element>, x: string, seen: set<string>): (h: nat)
    ensures h <= |IdSet(es) - seen|
    decreases |IdSet(es) - seen|
  {
    if x in seen then 0
    else
      match Up(es, x)
      case None => 0
      case Some(p) =>
        assert IdSet(es) - (seen + {x}) == (IdSet(es) - seen) - {x};
        1 + HeightFrom(es, p, seen + {x})
  }

  predicate Rooted(es: seq<Element>, x: string) {
    RootedFrom(es, x, {})
  }

  /** How far `x` sits below the top of its chain. */
  function Height(es: seq<Element>, x: string): (h: nat)
    ensures h <= |IdSet(es)|
  {
    assert IdSet(es) - {} == IdSet(es);
    HeightFrom(es, x, {})
  }

  /** The parent relation has no cycle: every element's chain ends. */
  predicate Acyclic(es: seq<Element>) {
    forall i :: 0 <= i < |es| ==> Rooted(es, es[i].id)
  }

  /** The shape every recursive walk of the hierarchy needs. */
  predicate WellFormed(es: seq<Element>) {
    UniqueIds(es) && Acyclic(es)
  }

  /** What the walk has already seen only matters where it would be met. */
  lemma {:induction false} SeenIrrelevant(es: seq<Element>, x: string, s: set<string>, s': set<string>)
    requires RootedFrom(es, x, s) && s' <= s
    ensures RootedFrom(es, x, s')
    ensures HeightFrom(es, x, s') == HeightFrom(es, x, s)
    decreases |IdSet(es) - s|
  {
    match Up(es, x) {
      case None =>
      case Some(p) =>
        assert IdSet(es) - (s + {x}) == (IdSet(es) - s) - {x};
        SeenIrrelevant(es, p, s + {x}, s' + {x});
    }
  }

  lemma RootedEverywhere(es: seq<Element>, x: string)
    requires Acyclic(es)
    ensures Rooted(es, x)
  {
    if x in IdSet(es) {
      var e :| e in es && e.id == x;
      var i :| 0 <= i < |es| && es[i] == e;
    }
  }

  /** In an acyclic collection one step up lowers the height by one. */
  lemma ClimbStep(es: seq<Element>, x: string)
    requires Acyclic(es) && Up(es, x).Some?
    ensures Rooted(es, Up(es, x).value)
    ensures Height(es, x) == Height(es, Up(es, x).value) + 1
  {
    RootedEverywhere(es, x);
    var p := Up(es, x).value;
    assert RootedFrom(es, p, {} + {x});
    assert HeightFrom(es, x, {}) == 1 + HeightFrom(es, p, {} + {x});
    SeenIrrelevant(es, p, {} + {x}, {});
  }

  /** `a` lies strictly above `y` on `y`'s ancestor chain; equivalently `y`
      is a descendant of `a`. */
  predicate IsAncestor(es: seq<Element>, a: string, y: string)
    requires Acyclic(es)
    decreases Height(es, y)
  {
    match Up(es, y)
    case None => false
    case Some(p) => ClimbStep(es, y); p == a || IsAncestor(es, a, p)
  }

  /** An ancestor of `a` is an ancestor of everything below `a`. */
  lemma {:induction false} AncestorOfParent(es: seq<Element>, a: string, b: string, y: string)
    requires Acyclic(es) && Up(es, a) == Some(b) && IsAncestor(es, a, y)
    ensures IsAncestor(es, b, y)
    decreases Height(es, y)
  {
    var p := Up(es, y).value;
    ClimbStep(es, y);
    if p == a {
      assert IsAncestor(es, b, a);
    } else {
      AncestorOfParent(es, a, b, p);
    }
  }

  /** An ancestor sits strictly higher up than its descendants. */
  lemma {:induction false} AncestorHigher(es: seq<Element>, a: string, y: string)
    requires Acyclic(es) && IsAncestor(es, a, y)
    ensures Height(es, y) > Height(es, a)
    decreases Height(es, y)
  {
    var p := Up(es, y).value;
    ClimbStep(es, y);
    if p != a {
      AncestorHigher(es, a, p);
    }
  }

  /** The chain above an element holds one ancestor per height. */
  lemma {:induction false} SameHeightAncestors(es: seq<Element>, a: string, b: string, y: string)
    requires Acyclic(es) && IsAncestor(es, a, y) && IsAncestor(es, b, y)
    requires Height(es, a) == Height(es, b)
    ensures a == b
    decreases Height(es, y)
  {
    var p := Up(es, y).value;
    ClimbStep(es, y);
    if p == a {
      if b != p {
        AncestorHigher(es, b, p);
      }
    } else if p == b {
      AncestorHigher(es, a, p);
    } else {
      SameHeightAncestors(es, a, b, p);
    }
  }

  /** Elements with the same parent (or both roots) sit at the same
      height. */
  lemma SiblingHeights(es: seq<Element>, x: Element, y: Element)
    requires WellFormed(es) && x in es && y in es && x.parent == y.parent
    ensures Height(es, x.id) == Height(es, y.id)
  {
    FindUnique(es, x);
    FindUnique(es, y);
    if x.parent.Some? {
      ClimbStep(es, x.id);
      ClimbStep(es, y.id);
    }
  }

  /** `getElementChildren(pid)`: the elements whose `parent` is `pid`, in
      collection order; `pid == None` gives the roots. */
  function Children(es: seq<Element>, pid: Option<string>): (r: seq<Element>)
    ensures forall e :: e in r <==> e in es && e.parent == pid
    ensures forall e :: multiset(r)[e] == if e.parent == pid then multiset(es)[e] else 0
    ensures IsSubsequence(r, es)
    ensures UniqueIds(es) ==> UniqueIds(r)
  {
    var child := (e: Element) => e.parent == pid;
    if UniqueIds(es) then FilterUnique(child, es); Filter(child, es) else Filter(child, es)
  }

  /** A child of `x` is one level deeper than `x`. */
  lemma ChildDeeper(es: seq<Element>, x: string, k: Element)
    requires WellFormed(es) && k in es && k.parent == Some(x)
    ensures Up(es, k.id) == Some(x)
    ensures Height(es, k.id) == Height(es, x) + 1
  {
    FindUnique(es, k);
    ClimbStep(es, k.id);
  }

  /** Whatever descends from a child of `x` descends from `x`. */
  lemma DescendantsOfChild(es: seq<Element>, x: string, k: Element)
    requires WellFormed(es) && k in es && k.parent == Some(x)
    ensures IsAncestor(es, x, k.id)
    ensures forall y :: IsAncestor(es, k.id, y) ==> IsAncestor(es, x, y)
  {
    ChildDeeper(es, x, k);
    forall y | IsAncestor(es, k.id, y)
      ensures IsAncestor(es, x, y)
    {
      AncestorOfParent(es, k.id, x, y);
    }
  }

  lemma ChildrenAreDescendants(es: seq<Element>, x: string)
    requires WellFormed(es)
    ensures forall k :: k in Children(es, Some(x)) ==> IsAncestor(es, x, k.id)
  {
    forall k | k in Children(es, Some(x))
      ensures IsAncestor(es, x, k.id)
    {
      DescendantsOfChild(es, x, k);
    }
  }

  /** `getChildrenIds(x)` in `deleteElement` (and `getDescendantIds` in the
      editor): the ids of the direct children of `x`, followed by the
      descendants of each child in turn.  Every id it returns is a
      descendant of `x`. */
  function DescendantIds(es: seq<Element>, x: string): (r: seq<string>)
    requires WellFormed(es)
    ensures forall y :: y in r ==> IsAncestor(es, x, y)
    decreases |IdSet(es)| - Height(es, x), 1, 0
  {
    var kids := Children(es, Some(x));
    ChildrenAreDescendants(es, x);
    Ids(kids) + DescendantIdsOf(es, x, kids)
  }

  /** The descendants of each of `kids`, children of `x`, concatenated. */
  function DescendantIdsOf(es: seq<Element>, x: string, kids: seq<Element>): (r: seq<string>)
    requires WellFormed(es)
    requires forall k :: k in kids ==> k in es && k.parent == Some(x)
    ensures forall y :: y in r ==> IsAncestor(es, x, y)
    decreases |IdSet(es)| - Height(es, x), 0, |kids|
  {
    if |kids| == 0 then []
    else
      var k := kids[0];
      ChildDeeper(es, x, k);
      DescendantsOfChild(es, x, k);
      DescendantIds(es, k.id) + DescendantIdsOf(es, x, kids[1..])
  }

  /** If `y` descends from `x` without being its child, it descends from one
      of `x`'s children. */
  lemma {:induction false} DescendsThroughChild(es: seq<Element>, x: string, y: string)
    requires WellFormed(es) && IsAncestor(es, x, y) && Up(es, y) != Some(x)
    ensures exists k :: k in Children(es, Some(x)) && IsAncestor(es, k.id, y)
    decreases Height(es, y)
  {
    var p := Up(es, y).value;
    ClimbStep(es, y);
    if Up(es, p) == Some(x) {
      var k := Find(es, p).value;
      assert k in Children(es, Some(x));
      assert IsAncestor(es, k.id, y);
    } else {
      DescendsThroughChild(es, x, p);
      var k :| k in Children(es, Some(x)) && IsAncestor(es, k.id, p);
      assert IsAncestor(es, k.id, y);
    }
  }

  lemma {:induction false} DescendantIdsOfCovers(es: seq<Element>, x: string, kids: seq<Element>, i: nat)
    requires WellFormed(es)
    requires forall k :: k in kids ==> k in es && k.parent == Some(x)
    requires i < |kids|
    ensures forall y :: y in DescendantIds(es, kids[i].id) ==> y in DescendantIdsOf(es, x, kids)
    decreases |kids|
  {
    if i > 0 {
      DescendantIdsOfCovers(es, x, kids[1..], i - 1);
    }
  }

  /** `getChildrenIds(x)` misses no descendant of `x`. */
  lemma {:induction false} DescendantIdsComplete(es: seq<Element>, x: string, y: string)
    requires WellFormed(es) && IsAncestor(es, x, y)
    ensures y in DescendantIds(es, x)
    decreases |IdSet(es)| - Height(es, x)
  {
    var kids := Children(es, Some(x));
    assert DescendantIds(es, x) == Ids(kids) + DescendantIdsOf(es, x, kids);
    if Up(es, y) == Some(x) {
      DirectChildListed(es, x, y);
    } else {
      DescendsThroughChild(es, x, y);
      var k :| k in kids && IsAncestor(es, k.id, y);
      var i :| 0 <= i < |kids| && kids[i] == k;
      ChildDeeper(es, x, k);
      assert |IdSet(es)| - Height(es, k.id) < |IdSet(es)| - Height(es, x);
      DescendantIdsComplete(es, k.id, y);
      DescendantIdsOfCovers(es, x, kids, i);
      assert y in DescendantIdsOf(es, x, kids);
    }
  }

  lemma DirectChildListed(es: seq<Element>, x: string, y: string)
    requires WellFormed(es) && Up(es, y) == Some(x)
    ensures y in Ids(Children(es, Some(x)))
  {
    var kids := Children(es, Some(x));
    var e := Find(es, y).value;
    assert e in kids;
    var i :| 0 <= i < |kids| && kids[i] == e;
    assert Ids(kids)[i] == y;
  }

  /** The ids `getChildrenIds(x)` collects are exactly the descendants of `x`. */
  lemma DescendantIdsExact(es: seq<Element>, x: string)
    requires WellFormed(es)
    ensures forall y :: y in DescendantIds(es, x) <==> IsAncestor(es, x, y)
  {
    forall y | IsAncestor(es, x, y)
      ensures y in DescendantIds(es, x)
    {
      DescendantIdsComplete(es, x, y);
    }
  }

  /** `x` is `a` or lies below it: the subtree a cascade delete of `a` removes. */
  predicate InSubtree(es: seq<Element>, a: string, x: string)
    requires Acyclic(es)
  {
    x == a || IsAncestor(es, a, x)
  }

  /** A subtree is closed downwards: the child of a member is a member. */
  lemma SubtreeClosed(es: seq<Element>, a: string, k: Element)
    requires WellFormed(es) && k in es && k.parent.Some? && InSubtree(es, a, k.parent.value)
    ensures IsAncestor(es, a, k.id)
  {
    ChildDeeper(es, k.parent.value, k);
  }

  /** Two collections with the same ids in the same order hold the same id
      set. */
  lemma IdSetByIds(a: seq<Element>, b: seq<Element>)
    requires Ids(a) == Ids(b)
    ensures IdSet(a) == IdSet(b)
    ensures UniqueIds(a) <==> UniqueIds(b)
  {
    forall x | x in IdSet(a) ensures x in IdSet(b) {
      var e :| e in a && e.id == x;
      var i :| 0 <= i < |a| && a[i] == e;
      assert b[i].id == Ids(b)[i] == Ids(a)[i];
    }
    forall x | x in IdSet(b) ensures x in IdSet(a) {
      var e :| e in b && e.id == x;
      var i :| 0 <= i < |b| && b[i] == e;
      assert a[i].id == Ids(a)[i] == Ids(b)[i];
    }
    assert forall i :: 0 <= i < |a| ==> a[i].id == Ids(a)[i] == Ids(b)[i] == b[i].id;
  }

  /** Putting an element with a fresh id in front keeps the ids unique. */
  lemma ConsUnique(e: Element, xs: seq<Element>)
    requires UniqueIds(xs) && forall x :: x in xs ==> x.id != e.id
    ensures UniqueIds([e] + xs)
  {
    var r := [e] + xs;
    forall i, j | 0 <= i < |r| && 0 <= j < |r| && r[i].id == r[j].id
      ensures i == j
    {
      if i > 0 && j > 0 {
        assert xs[i - 1].id == xs[j - 1].id;
      }
    }
  }

  /** Keeping some of the elements of a collection with unique ids keeps the
      ids unique. */
  lemma {:induction false} FilterUnique(f: Element -> bool, es: seq<Element>)
    requires UniqueIds(es)
    ensures UniqueIds(Filter(f, es))
    decreases |es|
  {
    if |es| > 0 {
      var rest := es[1..];
      assert UniqueIds(rest) by {
        forall i, j | 0 <= i < |rest| && 0 <= j < |rest| && rest[i].id == rest[j].id
          ensures i == j
        {
          assert es[i + 1].id == es[j + 1].id;
        }
      }
      FilterUnique(f, rest);
      var fr := Filter(f, rest);
      if f(es[0]) {
        forall x | x in fr ensures x.id != es[0].id {
          var k :| 0 <= k < |rest| && rest[k] == x;
          assert es[k + 1] == x;
        }
        ConsUnique(es[0], fr);
        assert Filter(f, es) == [es[0]] + fr;
      } else {
        assert Filter(f, es) == fr;
      }
    }
  }

  /** A rank that drops at every step up proves that the walk up from `x`
      ends without meeting `seen`, whose ids all rank above `x`. */
  lemma {:induction false} RankedRootedFrom(es: seq<Element>, rank: string -> nat, x: string, seen: set<string>)
    requires forall y :: y in IdSet(es) && Up(es, y).Some? ==> rank(Up(es, y).value) < rank(y)
    requires forall z :: z in seen ==> rank(x) < rank(z)
    ensures RootedFrom(es, x, seen)
    decreases rank(x)
  {
    match Up(es, x) {
      case None =>
      case Some(p) =>
        assert IdSet(es) - (seen + {x}) == (IdSet(es) - seen) - {x};
        RankedRootedFrom(es, rank, p, seen + {x});
    }
  }

  /** A collection whose ids can be ranked so that every parent ranks below
      its child is acyclic. */
  lemma RankedAcyclic(es: seq<Element>, rank: string -> nat)
    requires forall y :: y in IdSet(es) && Up(es, y).Some? ==> rank(Up(es, y).value) < rank(y)
    ensures Acyclic(es)
  {
    forall i | 0 <= i < |es| ensures Rooted(es, es[i].id) {
      RankedRootedFrom(es, rank, es[i].id, {});
    }
  }

  /** The rank used to show that re-hanging the subtree of `e` below a
      node of height `h` keeps the hierarchy acyclic: the subtree is lifted
      above everything else. */
  function LiftedRank(es: seq<Element>, e: string, h: nat, x: string): nat
    requires Acyclic(es)
  {
    if InSubtree(es, e, x) then Height(es, x) + h + 1 else Height(es, x)
  }

  lemma LiftedRankDrops(es: seq<Element>, e: string, h: nat, y: string, q: string)
    requires Acyclic(es) && y != e && Up(es, y) == Some(q)
    ensures LiftedRank(es, e, h, q) < LiftedRank(es, e, h, y)
  {
    ClimbStep(es, y);
    if InSubtree(es, e, q) {
      assert IsAncestor(es, e, y);
    }
  }

  /** Re-hanging `e` under a parent outside its own subtree, and changing
      nothing else about the hierarchy, keeps it acyclic. */
  lemma ReparentAcyclic(es: seq<Element>, r: seq<Element>, e: string)
    requires Acyclic(es) && Ids(r) == Ids(es)
    requires forall x :: x != e ==> Up(r, x) == Up(es, x)
    requires Up(r, e).Some? ==> !InSubtree(es, e, Up(r, e).value)
    ensures Acyclic(r)
  {
    IdSetByIds(r, es);
    var h := if Up(r, e).Some? then Height(es, Up(r, e).value) else 0;
    var rank := (x: string) => LiftedRank(es, e, h, x);
    forall y | y in IdSet(r) && Up(r, y).Some?
      ensures rank(Up(r, y).value) < rank(y)
    {
      var q := Up(r, y).value;
      if y != e {
        LiftedRankDrops(es, e, h, y, q);
      }
    }
    RankedAcyclic(r, rank);
  }
}
