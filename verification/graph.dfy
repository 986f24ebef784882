/** The graph view: the part of the diagnostic flow reachable from the
    selected element (`getSubgraphElements`, a depth-first walk over `next`,
    `next_ok` and `next_ko`) and the edges drawn between its nodes. */
module Graph {
  import opened Optional
  import opened Seqs
  import opened Text
  import opened Types
  import opened Hierarchy
  import opened Store

  /** The flow successors of an id: those of the element found for it, none
      when no element holds it. */
  function Succ(es: seq<Element>, x: string): (r: seq<string>)
    ensures x !in IdSet(es) ==> r == []
  {
    match Find(es, x)
    case None => []
    case Some(el) => Targets(el)
  }

  /** `p` follows flow links from its first id to its last. */
  predicate IsPath(es: seq<Element>, p: seq<string>) {
    |p| > 0 && forall i :: 0 <= i < |p| - 1 ==> p[i + 1] in Succ(es, p[i])
  }

  /** Some element holds `y` and it can be reached from `x` along flow
      links (in zero or more steps). */
  ghost predicate Reachable(es: seq<Element>, x: string, y: string) {
    y in IdSet(es) && exists p :: IsPath(es, p) && p[0] == x && p[|p| - 1] == y
  }

  /** The state of the walk: the ids already entered and the elements
      collected so far. */
  datatype Walk = Walk(visited: set<string>, result: seq<Element>)

  /** What the walk keeps true: `visited` holds exactly the ids of the
      collected elements, each collected element is what `find` returns for
      its id, and no id is collected twice. */
  predicate WalkInv(es: seq<Element>, w: Walk) {
    && w.visited == IdSet(w.result)
    && (forall e :: e in w.result ==> Find(es, e.id) == Some(e))
    && UniqueIds(w.result)
  }

  lemma Collect(es: seq<Element>, w: Walk, el: Element)
    requires WalkInv(es, w) && Find(es, el.id) == Some(el) && el.id !in w.visited
    ensures WalkInv(es, Walk(w.visited + {el.id}, w.result + [el]))
  {
    var r := w.result + [el];
    assert IdSet(r) == IdSet(w.result) + {el.id};
    assert forall i :: 0 <= i < |w.result| ==> w.result[i] in w.result;
  }

  /** `dfs(id)`: skip an id already entered or naming no element; otherwise
      enter it, collect its element and walk its successors in order. */
  function Dfs(es: seq<Element>, id: string, w: Walk): (r: Walk)
    requires WalkInv(es, w)
    ensures WalkInv(es, r)
    ensures w.visited <= r.visited
    ensures |w.result| <= |r.result| && forall i :: 0 <= i < |w.result| ==> r.result[i] == w.result[i]
    ensures id in w.visited || id !in IdSet(es) ==> r == w
    ensures id !in w.visited && id in IdSet(es) ==>
      |r.result| > |w.result| && r.result[|w.result|] == Find(es, id).value
    decreases IdSet(es) - w.visited, 0, 0
  {
    if id in w.visited then w
    else
      match Find(es, id)
      case None => w
      case Some(el) =>
        Collect(es, w, el);
        DfsAll(es, Targets(el), Walk(w.visited + {id}, w.result + [el]))
  }

  /** The successors loop: `dfs` on each id in turn. */
  function DfsAll(es: seq<Element>, ids: seq<string>, w: Walk): (r: Walk)
    requires WalkInv(es, w)
    ensures WalkInv(es, r)
    ensures w.visited <= r.visited
    ensures |w.result| <= |r.result| && forall i :: 0 <= i < |w.result| ==> r.result[i] == w.result[i]
    decreases IdSet(es) - w.visited, 1, |ids|
  {
    if |ids| == 0 then w
    else
      var w1 := Dfs(es, ids[0], w);
      DfsAll(es, ids[1..], w1)
  }

  /** `getSubgraphElements(elements, start)`. */
  function Subgraph(es: seq<Element>, start: string): (r: seq<Element>)
    ensures UniqueIds(r)
    ensures forall e :: e in r ==> Find(es, e.id) == Some(e)
    ensures |r| > 0 <==> start in IdSet(es)
    ensures |r| > 0 ==> r[0] == Find(es, start).value
  {
    var w := Walk({}, []);
    assert IdSet(w.result) == {};
    Dfs(es, start, w).result
  }

  /** The walk from `id` ends with `id` entered (when it names an element)
      and with every successor of every newly entered id entered too. */
  lemma {:induction false} DfsClosed(es: seq<Element>, id: string, w: Walk)
    requires WalkInv(es, w)
    ensures id in IdSet(es) ==> id in Dfs(es, id, w).visited
    ensures forall x, t :: x in Dfs(es, id, w).visited - w.visited && t in Succ(es, x) && t in IdSet(es) ==>
      t in Dfs(es, id, w).visited
    decreases IdSet(es) - w.visited, 0, 0
  {
    if id !in w.visited && Find(es, id).Some? {
      var el := Find(es, id).value;
      var w0 := Walk(w.visited + {id}, w.result + [el]);
      Collect(es, w, el);
      DfsAllClosed(es, Targets(el), w0);
    }
  }

  lemma {:induction false} DfsAllClosed(es: seq<Element>, ids: seq<string>, w: Walk)
    requires WalkInv(es, w)
    ensures forall t :: t in ids && t in IdSet(es) ==> t in DfsAll(es, ids, w).visited
    ensures forall x, t :: x in DfsAll(es, ids, w).visited - w.visited && t in Succ(es, x) && t in IdSet(es) ==>
      t in DfsAll(es, ids, w).visited
    decreases IdSet(es) - w.visited, 1, |ids|
  {
    if |ids| > 0 {
      var w1 := Dfs(es, ids[0], w);
      DfsClosed(es, ids[0], w);
      DfsAllClosed(es, ids[1..], w1);
    }
  }

  /** Every id newly entered by the walk from `id` is reachable from `id`. */
  lemma {:induction false} DfsSound(es: seq<Element>, id: string, w: Walk)
    requires WalkInv(es, w)
    ensures forall y :: y in Dfs(es, id, w).visited - w.visited ==> Reachable(es, id, y)
    decreases IdSet(es) - w.visited, 0, 0
  {
    if id !in w.visited && Find(es, id).Some? {
      var el := Find(es, id).value;
      var w0 := Walk(w.visited + {id}, w.result + [el]);
      Collect(es, w, el);
      var r := DfsAll(es, Targets(el), w0);
      assert Dfs(es, id, w) == r;
      DfsAllSound(es, Targets(el), w0);
      forall y | y in r.visited - w.visited
        ensures Reachable(es, id, y)
      {
        if y == id {
          ReachableSelf(es, id);
        } else {
          assert y in r.visited - w0.visited;
          var t :| t in Targets(el) && Reachable(es, t, y);
          PrependStep(es, id, t, y);
        }
      }
    }
  }

  /** `y` is reachable from one of `ids`. */
  ghost predicate ReachableFromAny(es: seq<Element>, ids: seq<string>, y: string) {
    exists t :: t in ids && Reachable(es, t, y)
  }

  lemma ReachableFromAnyCons(es: seq<Element>, ids: seq<string>, y: string)
    requires |ids| > 0
    requires Reachable(es, ids[0], y) || ReachableFromAny(es, ids[1..], y)
    ensures ReachableFromAny(es, ids, y)
  {
    if !Reachable(es, ids[0], y) {
      var t :| t in ids[1..] && Reachable(es, t, y);
      assert t in ids;
    }
  }

  lemma {:induction false} DfsAllSound(es: seq<Element>, ids: seq<string>, w: Walk)
    requires WalkInv(es, w)
    ensures forall y :: y in DfsAll(es, ids, w).visited - w.visited ==> ReachableFromAny(es, ids, y)
    decreases IdSet(es) - w.visited, 1, |ids|
  {
    if |ids| > 0 {
      var w1 := Dfs(es, ids[0], w);
      var r := DfsAll(es, ids[1..], w1);
      assert DfsAll(es, ids, w) == r;
      DfsSound(es, ids[0], w);
      DfsAllSound(es, ids[1..], w1);
      forall y | y in r.visited - w.visited
        ensures ReachableFromAny(es, ids, y)
      {
        ReachableFromAnyCons(es, ids, y);
      }
    }
  }

  lemma ReachableSelf(es: seq<Element>, x: string)
    requires x in IdSet(es)
    ensures Reachable(es, x, x)
  {
    assert IsPath(es, [x]);
  }

  /** A step from `x` to `t` in front of a path from `t` gives a path from
      `x`. */
  lemma PrependStep(es: seq<Element>, x: string, t: string, y: string)
    requires t in Succ(es, x) && Reachable(es, t, y)
    ensures Reachable(es, x, y)
  {
    var p :| IsPath(es, p) && p[0] == t && p[|p| - 1] == y;
    var q := [x] + p;
    forall i | 0 <= i < |q| - 1
      ensures q[i + 1] in Succ(es, q[i])
    {
      if i > 0 {
        assert q[i] == p[i - 1] && q[i + 1] == p[i];
      } else {
        assert q[i] == x && q[i + 1] == t;
      }
    }
    assert IsPath(es, q) && q[0] == x && q[|q| - 1] == y;
  }

  /** Along a path whose start is in a successor-closed set (when it names
      an element), the element reached is in the set. */
  lemma {:induction false} ClosedContainsPath(es: seq<Element>, v: set<string>, p: seq<string>)
    requires IsPath(es, p) && (p[0] in IdSet(es) ==> p[0] in v)
    requires forall x, t :: x in v && t in Succ(es, x) && t in IdSet(es) ==> t in v
    ensures p[|p| - 1] in IdSet(es) ==> p[|p| - 1] in v
    decreases |p|
  {
    if |p| > 1 {
      var q := p[1..];
      assert p[1] in Succ(es, p[0]);
      assert forall i :: 0 <= i < |q| ==> q[i] == p[i + 1];
      ClosedContainsPath(es, v, q);
    }
  }

  /** The subgraph from `start` holds exactly the elements reachable from
      `start` along `next`, `next_ok` and `next_ko` links. */
  lemma SubgraphExact(es: seq<Element>, start: string)
    ensures forall y :: y in IdSet(Subgraph(es, start)) <==> Reachable(es, start, y)
  {
    var w := Walk({}, []);
    assert IdSet(w.result) == {};
    var v := Dfs(es, start, w).visited;
    DfsSound(es, start, w);
    DfsClosed(es, start, w);
    forall y | Reachable(es, start, y)
      ensures y in v
    {
      var p :| IsPath(es, p) && p[0] == start && p[|p| - 1] == y;
      ClosedContainsPath(es, v, p);
    }
  }

  /** The nodes the graph view shows: the subgraph of the selected element,
      nothing when no element is selected or its id is empty. */
  function GraphNodes(s: State): (r: seq<Element>)
    ensures s.selected.None? || s.selected.value.id == "" ==> r == []
    ensures s.selected.Some? && s.selected.value.id != "" ==>
      forall y :: y in IdSet(r) <==> Reachable(s.elements, s.selected.value.id, y)
  {
    if s.selected.None? || s.selected.value.id == "" then []
    else
      SubgraphExact(s.elements, s.selected.value.id);
      Subgraph(s.elements, s.selected.value.id)
  }

  // -------------------------------------------------------------- edges

  datatype EdgeKind = Plain | Ok | Ko

  /** A drawn edge: its React Flow id, its endpoints and its label kind. */
  datatype FlowEdge = FlowEdge(id: string, source: string, target: string, kind: EdgeKind)

  /** The edge id: `${source}-${target}`, `${source}-ok-${target}` or
      `${source}-ko-${target}`. */
  function EdgeId(source: string, target: string, kind: EdgeKind): string {
    match kind
    case Plain => source + "-" + target
    case Ok => source + "-ok-" + target
    case Ko => source + "-ko-" + target
  }

  /** Edge ids are not unique: a `next` entry `ok-b` of `a` and an OK link
      from `a` to `b` both give the id `a-ok-b`. */
  lemma EdgeIdsCollide(a: string, b: string)
    ensures EdgeId(a, "ok-" + b, Plain) == EdgeId(a, b, Ok)
  {
    assert a + "-" + ("ok-" + b) == a + "-ok-" + b;
  }

  function MkEdge(source: string, target: string, kind: EdgeKind): FlowEdge {
    FlowEdge(EdgeId(source, target, kind), source, target, kind)
  }

  /** `el` has a flow link of this kind to `t`, as the edge builder reads
      it: any `next` entry, or a non-empty `next_ok` / `next_ko`. */
  predicate Links(el: Element, t: string, kind: EdgeKind) {
    match kind
    case Plain => t in NextList(el)
    case Ok => el.nextOk == Some(t) && t != ""
    case Ko => el.nextKo == Some(t) && t != ""
  }

  /** The `next` entries that name a shown node, in order and with their
      repetitions. */
  function ShownOnly(next: seq<string>, shown: set<string>): seq<string> {
    Filter((t: string) => t in shown, next)
  }

  /** The plain edges for the `next` entries of `el` that are shown. */
  function PlainEdges(src: string, next: seq<string>, shown: set<string>): (r: seq<FlowEdge>)
    ensures forall f :: f in r <==> exists t :: t in next && t in shown && f == MkEdge(src, t, Plain)
  {
    if |next| == 0 then []
    else
      var rest := PlainEdges(src, next[1..], shown);
      if next[0] in shown then [MkEdge(src, next[0], Plain)] + rest else rest
  }

  /** One plain edge per shown `next` entry, in the order of `next` and with
      its repetitions: the i-th edge leads to the i-th shown entry. */
  lemma {:induction false} PlainEdgesFollowNext(src: string, next: seq<string>, shown: set<string>)
    ensures |PlainEdges(src, next, shown)| == |ShownOnly(next, shown)|
    ensures forall i :: 0 <= i < |PlainEdges(src, next, shown)| ==>
      PlainEdges(src, next, shown)[i] == MkEdge(src, ShownOnly(next, shown)[i], Plain)
    decreases |next|
  {
    if |next| > 0 {
      var rest := next[1..];
      PlainEdgesFollowNext(src, rest, shown);
      if next[0] in shown {
        assert ShownOnly(next, shown) == [next[0]] + ShownOnly(rest, shown);
        assert PlainEdges(src, next, shown) == [MkEdge(src, next[0], Plain)] + PlainEdges(src, rest, shown);
      } else {
        assert ShownOnly(next, shown) == ShownOnly(rest, shown);
        assert PlainEdges(src, next, shown) == PlainEdges(src, rest, shown);
      }
    }
  }

  /** The edge for a single `next_ok` / `next_ko` reference: one edge when
      the reference is set, not empty and shown, none otherwise. */
  function FlagEdge(src: string, o: Option<string>, shown: set<string>, kind: EdgeKind): (r: seq<FlowEdge>)
    ensures |r| <= 1
    ensures forall f :: f in r <==> o.Some? && o.value != "" && o.value in shown && f == MkEdge(src, o.value, kind)
  {
    if o.Some? && o.value != "" && o.value in shown then [MkEdge(src, o.value, kind)] else []
  }

  /** An edge is among the plain, OK and KO edges of `el` exactly when it
      is drawn for one of its flow links to a shown node. */
  lemma LinkedEdge(el: Element, shown: set<string>, f: FlowEdge)
    ensures f in PlainEdges(el.id, NextList(el), shown) + FlagEdge(el.id, el.nextOk, shown, Ok)
                 + FlagEdge(el.id, el.nextKo, shown, Ko) <==>
      exists t, k :: Links(el, t, k) && t in shown && f == MkEdge(el.id, t, k)
  {
    var p := PlainEdges(el.id, NextList(el), shown);
    var ok := FlagEdge(el.id, el.nextOk, shown, Ok);
    var ko := FlagEdge(el.id, el.nextKo, shown, Ko);
    if f in p + ok + ko {
      if f in ok {
        assert Links(el, el.nextOk.value, Ok);
      } else if f in ko {
        assert Links(el, el.nextKo.value, Ko);
      } else {
        var t :| t in NextList(el) && t in shown && f == MkEdge(el.id, t, Plain);
        assert Links(el, t, Plain);
      }
    }
    if exists t, k :: Links(el, t, k) && t in shown && f == MkEdge(el.id, t, k) {
      var t, k :| Links(el, t, k) && t in shown && f == MkEdge(el.id, t, k);
      match k {
        case Plain => assert f in p;
        case Ok => assert f in ok;
        case Ko => assert f in ko;
      }
    }
  }

  /** The edges drawn out of one element: a plain edge per shown `next`
      entry, then the OK edge, then the KO edge. */
  function EdgesOf(el: Element, shown: set<string>): (r: seq<FlowEdge>)
    ensures forall f :: f in r <==>
      exists t, k :: Links(el, t, k) && t in shown && f == MkEdge(el.id, t, k)
  {
    var r := PlainEdges(el.id, NextList(el), shown) + FlagEdge(el.id, el.nextOk, shown, Ok)
             + FlagEdge(el.id, el.nextKo, shown, Ko);
    assert forall f :: f in r <==> exists t, k :: Links(el, t, k) && t in shown && f == MkEdge(el.id, t, k) by {
      forall f ensures f in r <==> exists t, k :: Links(el, t, k) && t in shown && f == MkEdge(el.id, t, k) {
        LinkedEdge(el, shown, f);
      }
    }
    r
  }

  /** The edges out of one element come as its plain edges, then at most
      one OK edge, then at most one KO edge. */
  lemma EdgesOfOrder(el: Element, shown: set<string>)
    ensures var p := PlainEdges(el.id, NextList(el), shown); var r := EdgesOf(el, shown);
      && |p| <= |r| <= |p| + 2 && r[..|p|] == p
      && (forall i :: |p| <= i < |r| ==> r[i].kind != Plain)
      && (|r| == |p| + 2 ==> r[|p|].kind == Ok && r[|p| + 1].kind == Ko)
  {
    var p := PlainEdges(el.id, NextList(el), shown);
    var tail := FlagEdge(el.id, el.nextOk, shown, Ok) + FlagEdge(el.id, el.nextKo, shown, Ko);
    assert EdgesOf(el, shown) == p + tail;
    forall i | 0 <= i < |tail| ensures tail[i].kind != Plain {
      assert tail[i] in tail;
    }
  }

  /** `initialEdges`: the edges out of each shown node, node by node, kept
      only when they end at a shown node. */
  function EdgesAmong(nodes: seq<Element>, shown: set<string>): (r: seq<FlowEdge>)
    ensures forall f :: f in r <==> exists el :: el in nodes && f in EdgesOf(el, shown)
  {
    if |nodes| == 0 then []
    else EdgesOf(nodes[0], shown) + EdgesAmong(nodes[1..], shown)
  }

  function Edges(nodes: seq<Element>): seq<FlowEdge> {
    EdgesAmong(nodes, IdSet(nodes))
  }

  /** An edge is drawn exactly for each link between two shown nodes, with
      its id built from the endpoints and the kind. */
  lemma EdgesExact(nodes: seq<Element>)
    ensures forall f :: f in Edges(nodes) <==>
      exists el, t, k :: el in nodes && t in IdSet(nodes) && Links(el, t, k) && f == MkEdge(el.id, t, k)
  {
  }

  /** Both ends of every drawn edge are shown. */
  lemma EdgesStayInside(nodes: seq<Element>)
    ensures forall f :: f in Edges(nodes) ==> f.source in IdSet(nodes) && f.target in IdSet(nodes)
    ensures forall f :: f in Edges(nodes) ==> f.id == EdgeId(f.source, f.target, f.kind)
  {
    forall f | f in Edges(nodes)
      ensures f.source in IdSet(nodes) && f.target in IdSet(nodes)
    {
      var el, t, k :| el in nodes && t in IdSet(nodes) && Links(el, t, k) && f == MkEdge(el.id, t, k);
    }
  }
}
