/** The tree view's data: `buildTree` nests the flat collection by `parent`
    links, starting from the elements whose parent is `null`. */
module Tree {
  import opened Optional
  import opened Seqs
  import opened Types
  import opened Hierarchy

  /** The termination measure of `buildTree`: the roots' level sits above
      every element, and each level is one below its parent's. */
  function Level(es: seq<Element>, pid: Option<string>): nat {
    match pid
    case None => |IdSet(es)| + 1
    case Some(x) => |IdSet(es)| - Height(es, x)
  }

  lemma ChildLevel(es: seq<Element>, pid: Option<string>, k: Element)
    requires WellFormed(es) && k in es && k.parent == pid
    ensures Level(es, Some(k.id)) < Level(es, pid)
  {
    FindUnique(es, k);
    if pid.Some? {
      ChildDeeper(es, pid.value, k);
    }
  }

  /** The elements at the top level of a forest, in order. */
  function Tops(ns: seq<TreeNode>): (r: seq<Element>)
    ensures |r| == |ns|
    ensures forall i :: 0 <= i < |ns| ==> r[i] == ns[i].element
  {
    seq(|ns|, i requires 0 <= i < |ns| => ns[i].element)
  }

  /** At every depth of the forest, the children of a node are exactly the
      direct children of its element, in collection order. */
  predicate Nested(es: seq<Element>, ns: seq<TreeNode>)
    decreases ns
  {
    forall i :: 0 <= i < |ns| ==>
      Tops(ns[i].children) == Children(es, Some(ns[i].element.id)) && Nested(es, ns[i].children)
  }

  /** `buildTree(pid)`: one node per child of `pid`, in collection order,
      each holding the tree below that child. */
  function BuildTree(es: seq<Element>, pid: Option<string>): (r: seq<TreeNode>)
    requires WellFormed(es)
    ensures Tops(r) == Children(es, pid)
    decreases Level(es, pid)
  {
    var kids := Children(es, pid);
    seq(|kids|, i requires 0 <= i < |kids| =>
      ChildLevel(es, pid, kids[i]);
      TreeNode(kids[i], BuildTree(es, Some(kids[i].id))))
  }

  /** Below the top level, the tree nests by `parent` links at every depth:
      each node's children are exactly the direct children of its element. */
  lemma {:induction false} BuildTreeNested(es: seq<Element>, pid: Option<string>)
    requires WellFormed(es)
    ensures Nested(es, BuildTree(es, pid))
    decreases Level(es, pid)
  {
    var ns := BuildTree(es, pid);
    var kids := Children(es, pid);
    forall i | 0 <= i < |ns|
      ensures Tops(ns[i].children) == Children(es, Some(ns[i].element.id))
      ensures Nested(es, ns[i].children)
    {
      var k := kids[i];
      assert k == ns[i].element && k in kids;
      ChildLevel(es, pid, k);
      assert ns[i].children == BuildTree(es, Some(k.id));
      BuildTreeNested(es, Some(k.id));
    }
  }

  /** `getTreeData`: the forest below the `null` parent. */
  function TreeData(es: seq<Element>): (r: seq<TreeNode>)
    requires WellFormed(es)
    ensures forall e :: e in Tops(r) <==> e in es && e.parent == None
    ensures IsSubsequence(Tops(r), es)
    ensures Nested(es, r)
  {
    BuildTreeNested(es, None);
    BuildTree(es, None)
  }

  /** Every element a forest shows, in pre-order. */
  function Flatten(ns: seq<TreeNode>): seq<Element>
    decreases ns
  {
    if |ns| == 0 then []
    else [ns[0].element] + Flatten(ns[0].children) + Flatten(ns[1..])
  }

  lemma {:induction false} FlattenMember(ns: seq<TreeNode>, e: Element)
    ensures e in Flatten(ns) <==>
      exists i :: 0 <= i < |ns| && (ns[i].element == e || e in Flatten(ns[i].children))
    decreases ns
  {
    if |ns| > 0 {
      FlattenMember(ns[1..], e);
      if e in Flatten(ns[1..]) {
        var i :| 0 <= i < |ns[1..]| && (ns[1..][i].element == e || e in Flatten(ns[1..][i].children));
        assert ns[i + 1] == ns[1..][i];
      }
      if exists i :: 0 <= i < |ns| && (ns[i].element == e || e in Flatten(ns[i].children)) {
        var i :| 0 <= i < |ns| && (ns[i].element == e || e in Flatten(ns[i].children));
        if i > 0 {
          assert ns[1..][i - 1] == ns[i];
        }
      }
    }
  }

  /** Following `parent` links up from `e` reaches an element whose parent
      is `pid` (or `e`'s own parent is `pid`).  For `pid == None` these are
      the elements hanging from a root; an element whose chain ends in a
      parent id that names no element is not one of them. */
  predicate HangsFrom(es: seq<Element>, pid: Option<string>, e: Element)
    requires WellFormed(es) && e in es
    decreases Height(es, e.id)
  {
    e.parent == pid ||
    match e.parent
    case None => false
    case Some(p) =>
      match Find(es, p)
      case None => false
      case Some(f) => ChildDeeper(es, p, e); HangsFrom(es, pid, f)
  }

  /** If `e` hangs from a child `k` of `pid`, it hangs from `pid`. */
  lemma {:induction false} HangsFromParent(es: seq<Element>, pid: Option<string>, k: Element, e: Element)
    requires WellFormed(es) && k in es && k.parent == pid && e in es
    requires HangsFrom(es, Some(k.id), e)
    ensures HangsFrom(es, pid, e)
    decreases Height(es, e.id)
  {
    if e.parent != Some(k.id) {
      var p := e.parent.value;
      var f := Find(es, p).value;
      ChildDeeper(es, p, e);
      HangsFromParent(es, pid, k, f);
    } else {
      FindUnique(es, k);
    }
  }

  /** Everything the tree below `pid` shows hangs from `pid`. */
  lemma {:induction false} TreeSound(es: seq<Element>, pid: Option<string>, e: Element)
    requires WellFormed(es) && e in Flatten(BuildTree(es, pid))
    ensures e in es && HangsFrom(es, pid, e)
    decreases Level(es, pid)
  {
    var ns := BuildTree(es, pid);
    var kids := Children(es, pid);
    FlattenMember(ns, e);
    var i :| 0 <= i < |ns| && (ns[i].element == e || e in Flatten(ns[i].children));
    var k := kids[i];
    assert k in kids;
    if ns[i].element != e {
      ChildLevel(es, pid, k);
      assert ns[i].children == BuildTree(es, Some(k.id));
      TreeSound(es, Some(k.id), e);
      HangsFromParent(es, pid, k, e);
    }
  }

  /** A child of an element shown below `pid` is shown below `pid` too. */
  lemma {:induction false} TreeShowsChild(es: seq<Element>, pid: Option<string>, f: Element, e: Element)
    requires WellFormed(es) && f in Flatten(BuildTree(es, pid)) && e in es && e.parent == Some(f.id)
    ensures e in Flatten(BuildTree(es, pid))
    decreases Level(es, pid)
  {
    var ns := BuildTree(es, pid);
    var kids := Children(es, pid);
    FlattenMember(ns, f);
    var i :| 0 <= i < |ns| && (ns[i].element == f || f in Flatten(ns[i].children));
    var k := kids[i];
    assert k in kids;
    ChildLevel(es, pid, k);
    var below := BuildTree(es, Some(k.id));
    assert ns[i].children == below;
    if ns[i].element == f {
      var kk := Children(es, Some(k.id));
      assert e in kk;
      var j :| 0 <= j < |kk| && kk[j] == e;
      FlattenMember(below, e);
      assert below[j].element == e;
    } else {
      TreeShowsChild(es, Some(k.id), f, e);
    }
    FlattenMember(ns, e);
  }

  /** Everything hanging from `pid` is shown in the tree below `pid`. */
  lemma {:induction false} TreeComplete(es: seq<Element>, pid: Option<string>, e: Element)
    requires WellFormed(es) && e in es && HangsFrom(es, pid, e)
    ensures e in Flatten(BuildTree(es, pid))
    decreases Height(es, e.id)
  {
    var ns := BuildTree(es, pid);
    var kids := Children(es, pid);
    if e.parent == pid {
      assert e in kids;
      var i :| 0 <= i < |kids| && kids[i] == e;
      FlattenMember(ns, e);
      assert ns[i].element == e;
    } else {
      var p := e.parent.value;
      var f := Find(es, p).value;
      ChildDeeper(es, p, e);
      TreeComplete(es, pid, f);
      TreeShowsChild(es, pid, f, e);
    }
  }

  /** The tree view shows exactly the elements hanging from a root. */
  lemma TreeShowsExactlyRooted(es: seq<Element>)
    requires WellFormed(es)
    ensures forall e :: e in Flatten(TreeData(es)) <==> e in es && HangsFrom(es, None, e)
  {
    forall e | e in Flatten(TreeData(es))
      ensures e in es && HangsFrom(es, None, e)
    {
      TreeSound(es, None, e);
    }
    forall e | e in es && HangsFrom(es, None, e)
      ensures e in Flatten(TreeData(es))
    {
      TreeComplete(es, None, e);
    }
  }

  /** Below an element, hanging from it is being its descendant: the
      subtree the tree view shows under `x` is what a delete of `x`
      removes besides `x` itself. */
  lemma {:induction false} HangsFromIsDescendant(es: seq<Element>, x: string, e: Element)
    requires WellFormed(es) && e in es
    ensures HangsFrom(es, Some(x), e) <==> IsAncestor(es, x, e.id)
    decreases Height(es, e.id)
  {
    FindUnique(es, e);
    match e.parent {
      case None =>
      case Some(p) =>
        if p != x {
          ClimbStep(es, e.id);
          match Find(es, p) {
            case None =>
            case Some(f) =>
              ChildDeeper(es, p, e);
              HangsFromIsDescendant(es, x, f);
          }
        }
    }
  }
  /** Of the children of `pid`, at most one has a given element in its
      subtree. */
  lemma OneSiblingAbove(es: seq<Element>, pid: Option<string>, i: nat, j: nat, e: Element)
    requires WellFormed(es) && e in es
    requires i < |Children(es, pid)| && j < |Children(es, pid)|
    requires InSubtree(es, Children(es, pid)[i].id, e.id) && InSubtree(es, Children(es, pid)[j].id, e.id)
    ensures i == j
  {
    var kids := Children(es, pid);
    var a := kids[i];
    var b := kids[j];
    assert a in kids && b in kids;
    SiblingHeights(es, a, b);
    if a.id != e.id && b.id != e.id {
      SameHeightAncestors(es, a.id, b.id, e.id);
    } else if a.id != e.id {
      AncestorHigher(es, a.id, e.id);
    } else if b.id != e.id {
      AncestorHigher(es, b.id, e.id);
    }
  }

  /** The `j`-th top node holds the `j`-th child and the tree below it. */
  lemma NodeAt(es: seq<Element>, pid: Option<string>, j: nat)
    requires WellFormed(es) && j < |Children(es, pid)|
    ensures |BuildTree(es, pid)| == |Children(es, pid)|
    ensures BuildTree(es, pid)[j] ==
      TreeNode(Children(es, pid)[j], BuildTree(es, Some(Children(es, pid)[j].id)))
  {
    ChildLevel(es, pid, Children(es, pid)[j]);
    assert Children(es, pid)[j] in Children(es, pid);
  }

  lemma FlattenAt(ns: seq<TreeNode>, j: nat)
    requires j < |ns|
    ensures Flatten(ns[j..]) == [ns[j].element] + Flatten(ns[j].children) + Flatten(ns[j + 1..])
  {
    assert ns[j..][0] == ns[j] && ns[j..][1..] == ns[j + 1..];
  }

  /** An element whose parent id names no element is missing from the
      tree view, with everything below it. */
  lemma DanglingParentHidden(es: seq<Element>, e: Element)
    requires WellFormed(es) && e in es && e.parent.Some? && e.parent.value !in IdSet(es)
    ensures e !in Flatten(TreeData(es))
  {
    TreeShowsExactlyRooted(es);
    assert Find(es, e.parent.value).None?;
  }

  /** What the tree shows below an element descends from it. */
  lemma ShownBelow(es: seq<Element>, k: Element, e: Element)
    requires WellFormed(es) && k in es && e in Flatten(BuildTree(es, Some(k.id)))
    ensures e in es && IsAncestor(es, k.id, e.id)
  {
    TreeSound(es, Some(k.id), e);
    HangsFromIsDescendant(es, k.id, e);
  }

  /** The forest from the j-th sibling on shows its first node, that node's subtree, then the rest. */
  lemma ForestCounts(es: seq<Element>, pid: Option<string>, j: nat, e: Element)
    requires WellFormed(es) && j < |Children(es, pid)|
    ensures |BuildTree(es, pid)| == |Children(es, pid)|
    ensures multiset(Flatten(BuildTree(es, pid)[j..]))[e] ==
      multiset([Children(es, pid)[j]])[e]
      + multiset(Flatten(BuildTree(es, Some(Children(es, pid)[j].id))))[e]
      + multiset(Flatten(BuildTree(es, pid)[j + 1..]))[e]
  {
    NodeAt(es, pid, j);
    FlattenAt(BuildTree(es, pid), j);
  }

  /** A node and its subtree together show an element at most once, and only one of that node's subtree. */
  lemma HeadOnce(es: seq<Element>, k: Element, e: Element)
    requires WellFormed(es) && k in es
    requires multiset(Flatten(BuildTree(es, Some(k.id))))[e] <= 1
    ensures multiset([k])[e] + multiset(Flatten(BuildTree(es, Some(k.id))))[e] <= 1
    ensures multiset([k])[e] + multiset(Flatten(BuildTree(es, Some(k.id))))[e] > 0 ==>
      e in es && InSubtree(es, k.id, e.id)
  {
    if multiset(Flatten(BuildTree(es, Some(k.id))))[e] > 0 {
      ShownBelow(es, k, e);
      if multiset([k])[e] > 0 {
        AncestorHigher(es, e.id, e.id);
      }
    }
  }

  /** The tree below `pid` from its `j`-th top node on shows an element at
      most once, and when it shows it, it is in the subtree of one of those
      top nodes. */
  lemma {:induction false} ForestOnce(es: seq<Element>, pid: Option<string>, j: nat, e: Element)
    requires WellFormed(es) && j <= |BuildTree(es, pid)|
    ensures multiset(Flatten(BuildTree(es, pid)[j..]))[e] <= 1
    ensures multiset(Flatten(BuildTree(es, pid)[j..]))[e] == 1 ==>
      exists i :: j <= i < |BuildTree(es, pid)| && InSubtree(es, Children(es, pid)[i].id, e.id)
    decreases Level(es, pid), |BuildTree(es, pid)| - j
  {
    if j < |BuildTree(es, pid)| {
      var kids := Children(es, pid);
      ForestCounts(es, pid, j, e);
      var k := kids[j];
      assert k in kids;
      ChildLevel(es, pid, k);
      var sub := BuildTree(es, Some(k.id));
      assert sub[0..] == sub;
      ForestOnce(es, Some(k.id), 0, e);
      ForestOnce(es, pid, j + 1, e);
      HeadOnce(es, k, e);
      var head := multiset([k])[e] + multiset(Flatten(sub))[e];
      if head > 0 && multiset(Flatten(BuildTree(es, pid)[j + 1..]))[e] > 0 {
        var i :| j < i < |BuildTree(es, pid)| && InSubtree(es, kids[i].id, e.id);
        OneSiblingAbove(es, pid, i, j, e);
      }
    }
  }

  /** No element appears twice in the tree below `pid`. */
  lemma TreeShowsOnce(es: seq<Element>, pid: Option<string>)
    requires WellFormed(es)
    ensures forall e :: multiset(Flatten(BuildTree(es, pid)))[e] <= 1
  {
    var ns := BuildTree(es, pid);
    assert ns[0..] == ns;
    forall e ensures multiset(Flatten(ns))[e] <= 1 {
      ForestOnce(es, pid, 0, e);
    }
  }
}
