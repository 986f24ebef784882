/** What the store, the editor and the graph view do with the bundled
    dataset: worked scenarios of the operations on `sampleData`, each proved
    from the general contracts through small steps. */
module Scenarios {
  import opened Optional
  import opened Text
  import opened Seqs
  import opened Types
  import opened Hierarchy
  import opened Store
  import opened Graph
  import opened Editor
  import opened SampleData

  lemma FindSample(e: Element)
    requires e in Sample
    ensures Find(Sample, e.id) == Some(e)
  {
    SampleIdsDistinct();
    FindUnique(Sample, e);
  }

  lemma UpSample(e: Element)
    requires e in Sample
    ensures Up(Sample, e.id) == e.parent
  {
    FindSample(e);
  }

  lemma NotASampleId(x: string)
    requires x !in SampleIds
    ensures x !in IdSet(Sample)
  {
    SampleIdsInOrder();
  }

  // ------------------------------------------------------ generated ids

  lemma SuffixValuesCons(x: Element, s: seq<Element>, t: ElementType, p: string)
    ensures SuffixValues([x] + s, t, p) ==
      (if x.kind == t && StartsWith(x.id, p) then [SuffixValue(x.id, p)] else []) + SuffixValues(s, t, p)
  {
    assert ([x] + s)[1..] == s;
  }

  /** `etat` followed by one digit reads back as that digit. */
  lemma EtatDigit(id: string, n: nat)
    requires n < 10 && id == "etat" + [DigitChar(n)]
    ensures StartsWith(id, "etat") && SuffixValue(id, "etat") == n
  {
    assert id[4..] == [DigitChar(n)];
    assert LeadingDigits([DigitChar(n)]) == [DigitChar(n)];
    assert DigitsValue([DigitChar(n)]) == n by { assert [DigitChar(n)][..0] == []; }
  }

  /** `etat` followed by a letter reads back as 0 (`parseInt` gives `NaN`). */
  lemma EtatLetter(id: string, c: char)
    requires !IsDigit(c) && id == "etat" + [c]
    ensures StartsWith(id, "etat") && SuffixValue(id, "etat") == 0
  {
    assert id[4..] == [c];
    assert LeadingDigits([c]) == [];
  }

  lemma EtatsLast()
    ensures Sample == Sample[..19] + [EtatA, EtatB, Action1, Etat1, Etat2, Etat3]
    ensures forall e :: e in Sample[..19] ==> e.kind != Etat
  {}

  lemma NumberedEtatSuffixes()
    ensures SuffixValues([Etat1, Etat2, Etat3], Etat, "etat") == [1, 2, 3]
  {
    var p := "etat";
    EtatDigit("etat3", 3);
    SuffixValuesCons(Etat3, [], Etat, p);
    EtatDigit("etat2", 2);
    SuffixValuesCons(Etat2, [Etat3], Etat, p);
    EtatDigit("etat1", 1);
    SuffixValuesCons(Etat1, [Etat2, Etat3], Etat, p);
  }

  lemma EtatSuffixes()
    ensures SuffixValues([EtatA, EtatB, Action1, Etat1, Etat2, Etat3], Etat, "etat") == [0, 0, 1, 2, 3]
  {
    var p := "etat";
    var tail := [Etat1, Etat2, Etat3];
    NumberedEtatSuffixes();
    SuffixValuesCons(Action1, tail, Etat, p);
    assert SuffixValues([Action1] + tail, Etat, p) == [1, 2, 3];
    EtatLetter("etatB", 'B');
    SuffixValuesCons(EtatB, [Action1] + tail, Etat, p);
    assert SuffixValues([EtatB, Action1] + tail, Etat, p) == [0, 1, 2, 3] by {
      assert [EtatB] + ([Action1] + tail) == [EtatB, Action1] + tail;
    }
    EtatLetter("etatA", 'A');
    SuffixValuesCons(EtatA, [EtatB, Action1] + tail, Etat, p);
    assert [EtatA] + ([EtatB, Action1] + tail) == [EtatA, EtatB, Action1, Etat1, Etat2, Etat3];
  }

  lemma EtatIdAfter(es: seq<Element>)
    requires SuffixValues(es, Etat, "etat") == [0, 0, 1, 2, 3]
    ensures GenerateId(es, Etat) == "etat4"
  {
    assert GenPrefix(Etat) == "etat";
    assert MaxOrZero([0, 0, 1, 2, 3]) == 3;
    assert NatToString(4) == "4";
  }

  /** A new `etat` added to the dataset is proposed the id `etat4`: `etatA`
      and `etatB` count as 0, `etat1`..`etat3` as their numbers. */
  lemma NewEtatId()
    ensures GenerateId(Sample, Etat) == "etat4"
  {
    var tail := [EtatA, EtatB, Action1, Etat1, Etat2, Etat3];
    EtatsLast();
    SuffixValuesConcat(Sample[..19], tail, Etat, "etat");
    SuffixValuesCover(Sample[..19], Etat, "etat");
    EtatSuffixes();
    EtatIdAfter(Sample);
  }

  lemma NotCate(id: string)
    requires |id| == 4 && id[..3] == "cat" && id[3] != 'e'
    ensures !StartsWith(id, "cate")
  {
    assert id[..4][3] != "cate"[3];
  }

  lemma CategoriesFirst()
    ensures Sample[..3] == [Cat1, Cat2, Cat3]
    ensures forall e :: e in Sample[3..] ==> e.kind != Categorie
  {}

  lemma CateIdAfter(es: seq<Element>)
    requires SuffixValues(es, Categorie, "cate") == []
    ensures GenerateId(es, Categorie) == "cate1"
  {
    assert GenPrefix(Categorie) == "cate";
    assert NatToString(1) == "1";
  }

  lemma NoCateAmongCategories()
    ensures SuffixValues([Cat1, Cat2, Cat3], Categorie, "cate") == []
  {
    NotCate("cat1");
    NotCate("cat2");
    NotCate("cat3");
    SuffixValuesCover([Cat1, Cat2, Cat3], Categorie, "cate");
  }

  lemma NoCateAfterCategories()
    ensures SuffixValues(Sample[3..], Categorie, "cate") == []
  {
    CategoriesFirst();
    SuffixValuesCover(Sample[3..], Categorie, "cate");
  }

  /** A new `categorie` is proposed `cate1` although `cat1`..`cat3` exist:
      the four-character prefix `cate` matches none of them. */
  lemma NewCategorieId()
    ensures GenerateId(Sample, Categorie) == "cate1"
  {
    NoCateInSample();
    CateIdAfter(Sample);
  }

  lemma NoCateInSample()
    ensures SuffixValues(Sample, Categorie, "cate") == []
  {
    SuffixValuesSplit(Sample, 3, Categorie, "cate");
    CategoriesFirst();
    NoCateAmongCategories();
    NoCateAfterCategories();
  }

  lemma SuffixValuesSplit(es: seq<Element>, k: nat, t: ElementType, prefix: string)
    requires k <= |es|
    ensures SuffixValues(es, t, prefix) == SuffixValues(es[..k], t, prefix) + SuffixValues(es[k..], t, prefix)
  {
    assert es == es[..k] + es[k..];
    SuffixValuesConcat(es[..k], es[k..], t, prefix);
  }

  // -------------------------------------------------------------- moves

  lemma ClimbTwo(es: seq<Element>, a: string, b: string, c: string)
    requires Acyclic(es) && a != "" && b != "" && c != ""
    requires Up(es, a) == Some(b) && Up(es, b) == Some(c)
    ensures ClimbsTo(es, c, a)
  {
    ClimbStep(es, a);
    ClimbStep(es, b);
    assert ClimbsTo(es, c, c);
    assert ClimbsTo(es, c, b);
  }

  /** Moving `cat1` below `etat1`, which sits below `prob1` below `cat1`,
      is refused. */
  lemma MoveUnderOwnDescendantRefused()
    ensures WellFormed(Sample)
    ensures MoveRejected(Sample, "cat1", Some("etat1"))
  {
    SampleWellFormed();
    UpSample(Etat1);
    UpSample(Prob1);
    ClimbTwo(Sample, "etat1", "prob1", "cat1");
  }

  /** Moving `prob5` to the category `cat2` is carried out. */
  lemma MoveAcrossCategoriesAccepted()
    ensures WellFormed(Sample)
    ensures !MoveRejected(Sample, "prob5", Some("cat2"))
  {
    SampleWellFormed();
    UpSample(Cat2);
  }

  // ----------------------------------------------------------- subgraphs

  lemma DfsEnter(es: seq<Element>, el: Element, w: Walk)
    requires WalkInv(es, w) && Find(es, el.id) == Some(el) && el.id !in w.visited
    ensures WalkInv(es, Walk(w.visited + {el.id}, w.result + [el]))
    ensures Dfs(es, el.id, w) == DfsAll(es, Targets(el), Walk(w.visited + {el.id}, w.result + [el]))
  {
    Collect(es, w, el);
  }

  lemma {:induction false} DfsAllOutside(es: seq<Element>, ids: seq<string>, w: Walk)
    requires WalkInv(es, w)
    requires forall t :: t in ids ==> t !in IdSet(es)
    ensures DfsAll(es, ids, w) == w
    decreases |ids|
  {
    if |ids| > 0 {
      assert ids[0] in ids;
      DfsAllOutside(es, ids[1..], w);
    }
  }

  /** Entering an element none of whose successors names an element
      collects that element alone. */
  lemma DfsDeadEnd(es: seq<Element>, el: Element, w: Walk)
    requires WalkInv(es, w) && Find(es, el.id) == Some(el) && el.id !in w.visited
    requires forall t :: t in Targets(el) ==> t !in IdSet(es)
    ensures WalkInv(es, Walk(w.visited + {el.id}, w.result + [el]))
    ensures Dfs(es, el.id, w) == Walk(w.visited + {el.id}, w.result + [el])
  {
    DfsEnter(es, el, w);
    DfsAllOutside(es, Targets(el), Walk(w.visited + {el.id}, w.result + [el]));
  }

  lemma DfsSingle(es: seq<Element>, x: string, w: Walk)
    requires WalkInv(es, w)
    ensures DfsAll(es, [x], w) == Dfs(es, x, w)
  {
    assert [x][1..] == [];
  }

  lemma DfsChain(es: seq<Element>, c: Element, d: Element, w: Walk)
    requires WalkInv(es, w) && Find(es, c.id) == Some(c) && Find(es, d.id) == Some(d)
    requires c.id !in w.visited && d.id !in w.visited && c.id != d.id
    requires Targets(c) == [d.id] && Targets(d) == []
    ensures Dfs(es, c.id, w) == Walk(w.visited + {c.id} + {d.id}, w.result + [c] + [d])
  {
    DfsEnter(es, c, w);
    var w1 := Walk(w.visited + {c.id}, w.result + [c]);
    DfsSingle(es, d.id, w1);
    DfsDeadEnd(es, d, w1);
  }

  lemma DfsAllTwo(es: seq<Element>, x: string, y: string, w: Walk)
    requires WalkInv(es, w)
    ensures DfsAll(es, [x, y], w) == Dfs(es, y, Dfs(es, x, w))
  {
    assert [x, y][1..] == [y];
    DfsSingle(es, y, Dfs(es, x, w));
  }

  lemma DfsAllPair(es: seq<Element>, b: Element, c: Element, d: Element, w: Walk)
    requires WalkInv(es, w)
    requires Find(es, b.id) == Some(b) && Find(es, c.id) == Some(c) && Find(es, d.id) == Some(d)
    requires b.id !in w.visited && c.id !in w.visited && d.id !in w.visited
    requires b.id != c.id && b.id != d.id && c.id != d.id
    requires Targets(b) == [] && Targets(c) == [d.id] && Targets(d) == []
    ensures DfsAll(es, [b.id, c.id], w) ==
      Walk(w.visited + {b.id} + {c.id} + {d.id}, w.result + [b] + [c] + [d])
  {
    DfsAllTwo(es, b.id, c.id, w);
    DfsDeadEnd(es, b, w);
    var w1 := Walk(w.visited + {b.id}, w.result + [b]);
    assert Dfs(es, b.id, w) == w1;
    DfsChain(es, c, d, w1);
  }

  /** The walk over an element with two successors, the first a dead end
      and the second leading to one more dead end. */
  lemma DfsFork(es: seq<Element>, a: Element, b: Element, c: Element, d: Element, w: Walk)
    requires WalkInv(es, w)
    requires Find(es, a.id) == Some(a) && Find(es, b.id) == Some(b)
    requires Find(es, c.id) == Some(c) && Find(es, d.id) == Some(d)
    requires a.id !in w.visited && b.id !in w.visited && c.id !in w.visited && d.id !in w.visited
    requires a.id != b.id && a.id != c.id && a.id != d.id && b.id != c.id && b.id != d.id && c.id != d.id
    requires Targets(a) == [b.id, c.id] && Targets(b) == [] && Targets(c) == [d.id] && Targets(d) == []
    ensures Dfs(es, a.id, w) ==
      Walk(w.visited + {a.id} + {b.id} + {c.id} + {d.id}, w.result + [a] + [b] + [c] + [d])
  {
    DfsEnter(es, a, w);
    var w0 := Walk(w.visited + {a.id}, w.result + [a]);
    assert Dfs(es, a.id, w) == DfsAll(es, [b.id, c.id], w0);
    DfsAllPair(es, b, c, d, w0);
  }

  /** The subgraph of an element none of whose successors names an element
      is that element alone. */
  lemma SubgraphDeadEnd(es: seq<Element>, el: Element)
    requires Find(es, el.id) == Some(el)
    requires forall t :: t in Targets(el) ==> t !in IdSet(es)
    ensures Subgraph(es, el.id) == [el]
  {
    EmptyWalk(es);
    DfsDeadEnd(es, el, Walk({}, []));
  }

  /** The subgraph of an element shaped like `DfsFork`'s. */
  lemma SubgraphFork(es: seq<Element>, a: Element, b: Element, c: Element, d: Element)
    requires Find(es, a.id) == Some(a) && Find(es, b.id) == Some(b)
    requires Find(es, c.id) == Some(c) && Find(es, d.id) == Some(d)
    requires a.id != b.id && a.id != c.id && a.id != d.id && b.id != c.id && b.id != d.id && c.id != d.id
    requires Targets(a) == [b.id, c.id] && Targets(b) == [] && Targets(c) == [d.id] && Targets(d) == []
    ensures Subgraph(es, a.id) == [a, b, c, d]
  {
    EmptyWalk(es);
    DfsFork(es, a, b, c, d, Walk({}, []));
    assert [] + [a] + [b] + [c] + [d] == [a, b, c, d];
  }

  lemma EmptyWalk(es: seq<Element>)
    ensures WalkInv(es, Walk({}, []))
  {
    assert IdSet([]) == {};
  }

  lemma Etat1Found()
    ensures Find(Sample, "etat1") == Some(Etat1)
  {
    FindSample(Etat1);
  }

  lemma Etat1LeadsNowhere()
    ensures forall t :: t in Targets(Etat1) ==> t !in IdSet(Sample)
  {
    assert Targets(Etat1) == ["verif1"];
    NotASampleId("verif1");
  }

  /** The subgraph of `etat1` is `etat1` alone: its only successor
      `verif1` names no element. */
  lemma SubgraphOfEtat1()
    ensures Subgraph(Sample, "etat1") == [Etat1]
  {
    Etat1Found();
    Etat1LeadsNowhere();
    SubgraphDeadEnd(Sample, Etat1);
  }

  lemma Prob16FlowFound()
    ensures Find(Sample, "prob16") == Some(Prob16) && Find(Sample, "etatA") == Some(EtatA)
    ensures Find(Sample, "etatB") == Some(EtatB) && Find(Sample, "action1") == Some(Action1)
  {
    FindSample(Prob16);
    FindSample(EtatA);
    FindSample(EtatB);
    FindSample(Action1);
  }

  lemma Prob16FlowLinks()
    ensures Targets(Prob16) == ["etatA", "etatB"] && Targets(EtatA) == []
    ensures Targets(EtatB) == ["action1"] && Targets(Action1) == []
  {}

  /** The subgraph of `prob16` is `prob16`, `etatA`, `etatB` and `action1`,
      in the order of the depth-first walk. */
  lemma SubgraphOfProb16()
    ensures Subgraph(Sample, "prob16") == [Prob16, EtatA, EtatB, Action1]
  {
    Prob16FlowFound();
    Prob16FlowLinks();
    SubgraphFork(Sample, Prob16, EtatA, EtatB, Action1);
  }

  lemma EdgesOfNone(el: Element, shown: set<string>)
    requires el.next == None && el.nextOk == None && el.nextKo == None
    ensures EdgesOf(el, shown) == []
  {}

  lemma EdgesOfOne(el: Element, t: string, shown: set<string>)
    requires el.next == Some([t]) && el.nextOk == None && el.nextKo == None && t in shown
    ensures EdgesOf(el, shown) == [MkEdge(el.id, t, Plain)]
  {
    assert [t][1..] == [];
    assert PlainEdges(el.id, [], shown) == [];
    assert PlainEdges(el.id, [t], shown) == [MkEdge(el.id, t, Plain)];
  }

  lemma EdgesOfTwo(el: Element, t: string, u: string, shown: set<string>)
    requires el.next == Some([t, u]) && el.nextOk == None && el.nextKo == None
    requires t in shown && u in shown
    ensures EdgesOf(el, shown) == [MkEdge(el.id, t, Plain), MkEdge(el.id, u, Plain)]
  {
    assert [t, u][1..] == [u];
    assert [u][1..] == [];
    assert PlainEdges(el.id, [u], shown) == [MkEdge(el.id, u, Plain)];
  }

  lemma EdgesAmongCons(nodes: seq<Element>, shown: set<string>)
    requires |nodes| > 0
    ensures EdgesAmong(nodes, shown) == EdgesOf(nodes[0], shown) + EdgesAmong(nodes[1..], shown)
  {}

  lemma EdgesAmongFour(ns: seq<Element>, shown: set<string>, e0: seq<FlowEdge>, e1: seq<FlowEdge>, e2: seq<FlowEdge>, e3: seq<FlowEdge>)
    requires |ns| == 4
    requires EdgesOf(ns[0], shown) == e0 && EdgesOf(ns[1], shown) == e1
    requires EdgesOf(ns[2], shown) == e2 && EdgesOf(ns[3], shown) == e3
    ensures EdgesAmong(ns, shown) == e0 + e1 + e2 + e3
  {
    EdgesAmongCons(ns, shown);
    EdgesAmongCons(ns[1..], shown);
    EdgesAmongCons(ns[2..], shown);
    assert ns[1..][1..] == ns[2..];
    EdgesAmongCons(ns[3..], shown);
    assert ns[2..][1..] == ns[3..];
    assert ns[3..][1..] == [];
  }

  /** The edges among the four nodes of a fork, for any shown set holding
      the three targets. */
  lemma ForkEdgesAmong(a: Element, b: Element, c: Element, d: Element, shown: set<string>)
    requires a.next == Some([b.id, c.id]) && b.next == None && c.next == Some([d.id]) && d.next == None
    requires a.nextOk == None && b.nextOk == None && c.nextOk == None && d.nextOk == None
    requires a.nextKo == None && b.nextKo == None && c.nextKo == None && d.nextKo == None
    requires b.id in shown && c.id in shown && d.id in shown
    ensures EdgesAmong([a, b, c, d], shown) ==
      [MkEdge(a.id, b.id, Plain), MkEdge(a.id, c.id, Plain), MkEdge(c.id, d.id, Plain)]
  {
    var ab := MkEdge(a.id, b.id, Plain);
    var ac := MkEdge(a.id, c.id, Plain);
    var cd := MkEdge(c.id, d.id, Plain);
    EdgesOfTwo(a, b.id, c.id, shown);
    EdgesOfNone(b, shown);
    EdgesOfOne(c, d.id, shown);
    EdgesOfNone(d, shown);
    EdgesAmongFour([a, b, c, d], shown, [ab, ac], [], [cd], []);
    assert [ab, ac] + [] + [cd] + [] == [ab, ac, cd];
  }

  /** The edges among the four nodes of a fork: one per `next` entry. */
  lemma EdgesOfFork(a: Element, b: Element, c: Element, d: Element)
    requires a.next == Some([b.id, c.id]) && b.next == None && c.next == Some([d.id]) && d.next == None
    requires a.nextOk == None && b.nextOk == None && c.nextOk == None && d.nextOk == None
    requires a.nextKo == None && b.nextKo == None && c.nextKo == None && d.nextKo == None
    ensures Edges([a, b, c, d]) ==
      [MkEdge(a.id, b.id, Plain), MkEdge(a.id, c.id, Plain), MkEdge(c.id, d.id, Plain)]
  {
    var ns := [a, b, c, d];
    assert b in ns && c in ns && d in ns;
    ForkEdgesAmong(a, b, c, d, IdSet(ns));
  }

  /** The graph of `prob16` draws three unlabelled edges:
      `prob16-etatA`, `prob16-etatB` and `etatB-action1`. */
  lemma EdgesOfProb16()
    ensures Edges(Subgraph(Sample, "prob16")) ==
      [MkEdge("prob16", "etatA", Plain), MkEdge("prob16", "etatB", Plain), MkEdge("etatB", "action1", Plain)]
  {
    SubgraphOfProb16();
    EdgesOfFork(Prob16, EtatA, EtatB, Action1);
  }

  // ------------------------------------------------------------- delete

  /** Deleting the only target of a survivor's `next` keeps the survivor
      with an empty `next`. */
  lemma DeleteEmptiesNext(es: seq<Element>, x: string, el: Element)
    requires WellFormed(es) && x in IdSet(es) && el in es && !InSubtree(es, x, el.id)
    requires el.next == Some([x]) && el.nextOk == None && el.nextKo == None
    ensures x !in IdSet(Delete(State(es, None), x).elements)
    ensures Find(Delete(State(es, None), x).elements, el.id) == Some(el.(next := Some([])))
  {
    var s := State(es, None);
    var r := Delete(s, x).elements;
    DeleteRemovesExactlySubtree(s, x);
    var e :| e in r && e.id == el.id;
    DeleteSurvivor(s, x, e);
    FindUnique(es, el);
    var doomed := DoomedIds(es, x);
    assert x in doomed;
    assert Filter((n: string) => n !in doomed, [x]) == [];
    DeletePreservesWellFormed(s, x);
    FindUnique(r, e);
  }

  /** Every element of the dataset comes after its parent. */
  lemma ParentsComeFirst()
    ensures forall k :: 0 <= k < |ParentAt| ==> ParentAt[k] < k
  {}

  /** Below a non-root that is not `a` itself, being in the subtree of `a`
      is decided one step up. */
  lemma SubtreeStep(es: seq<Element>, a: string, x: string)
    requires Acyclic(es) && x != a
    ensures InSubtree(es, a, x) <==> Up(es, x).Some? && InSubtree(es, a, Up(es, x).value)
  {}

  /** The subtree of the element at position `j`, read off the parent
      positions: `mark` holds at `j` and wherever it holds at the parent,
      and nowhere else. */
  lemma {:induction false} SampleSubtree(j: nat, mark: int -> bool, i: nat)
    requires j < |Sample| && i < |Sample|
    requires forall k :: 0 <= k < |ParentAt| ==> (mark(k) <==> k == j || (ParentAt[k] >= 0 && mark(ParentAt[k])))
    ensures WellFormed(Sample)
    ensures InSubtree(Sample, Sample[j].id, Sample[i].id) <==> mark(i)
    decreases i
  {
    SampleWellFormed();
    SampleIdsDistinct();
    ParentsListed();
    ParentsComeFirst();
    assert ParentListedAt(i);
    UpSample(Sample[i]);
    if i != j {
      assert Sample[i].id != Sample[j].id;
      SubtreeStep(Sample, Sample[j].id, Sample[i].id);
      if ParentAt[i] >= 0 {
        SampleSubtree(j, mark, ParentAt[i]);
      }
    }
  }

  /** Positions `cat3` (2), `prob11`..`prob16`, `etatA`, `etatB` and
      `action1` (13 to 21). */
  predicate UnderCat3(k: int) {
    k == 2 || 13 <= k <= 21
  }

  lemma UnderCat3Closed()
    ensures forall k :: 0 <= k < |ParentAt| ==> (UnderCat3(k) <==> k == 2 || (ParentAt[k] >= 0 && UnderCat3(ParentAt[k])))
  {}

  /** What survives deleting `cat3`, by id. */
  const AfterCat3: seq<string> :=
    ["cat1", "cat2", "prob1", "prob2", "prob3", "prob4", "prob5", "prob6", "prob7",
     "prob8", "prob9", "prob10", "etat1", "etat2", "etat3"]

  lemma AfterCat3Listed()
    ensures |SampleIds| == 25
    ensures forall i :: 0 <= i < 25 ==> (SampleIds[i] in AfterCat3 <==> !UnderCat3(i))
  {}

  /** A delete from a collection whose subtree of `id` is known: the
      survivors are the ids listed in `kept`. */
  lemma DeleteLeaves(es: seq<Element>, id: string, kept: seq<string>)
    requires WellFormed(es) && id in IdSet(es)
    requires forall x :: x in IdSet(es) ==> (InSubtree(es, id, x) <==> x !in kept)
    requires forall x :: x in kept ==> x in IdSet(es)
    ensures forall x :: x in IdSet(Delete(State(es, None), id).elements) <==> x in kept
  {
    DeleteRemovesExactlySubtree(State(es, None), id);
  }

  lemma SamplePosition(x: string) returns (i: nat)
    requires x in IdSet(Sample)
    ensures i < |Sample| && Sample[i].id == x
  {
    i :| 0 <= i < |Sample| && Sample[i].id == x;
  }

  lemma Cat3SubtreeAt(i: nat)
    requires i < |Sample|
    ensures WellFormed(Sample)
    ensures InSubtree(Sample, "cat3", Sample[i].id) <==> !(SampleIds[i] in AfterCat3)
  {
    UnderCat3Closed();
    AfterCat3Listed();
    assert Sample[2].id == "cat3";
    SampleSubtree(2, UnderCat3, i);
  }

  lemma Cat3SubtreeIds()
    ensures WellFormed(Sample)
    ensures forall x :: x in IdSet(Sample) ==> (InSubtree(Sample, "cat3", x) <==> x !in AfterCat3)
  {
    SampleWellFormed();
    SampleIdsInOrder();
    forall x | x in IdSet(Sample)
      ensures InSubtree(Sample, "cat3", x) <==> x !in AfterCat3
    {
      var i := SamplePosition(x);
      assert SampleIds[i] == x;
      Cat3SubtreeAt(i);
    }
  }

  lemma AfterCat3Sample()
    ensures forall x :: x in AfterCat3 ==> x in SampleIds
  {}

  lemma AfterCat3Present()
    ensures forall x :: x in AfterCat3 ==> x in IdSet(Sample)
  {
    AfterCat3Sample();
    SampleIdsInOrder();
    forall x | x in AfterCat3
      ensures x in IdSet(Sample)
    {
      var i :| 0 <= i < |SampleIds| && SampleIds[i] == x;
      assert Sample[i].id == x;
    }
  }

  lemma SampleHolds(i: nat)
    requires i < |Sample|
    ensures Sample[i].id in IdSet(Sample)
  {}

  lemma Cat3Facts()
    ensures WellFormed(Sample) && "cat3" in IdSet(Sample)
    ensures forall x :: x in IdSet(Sample) ==> (InSubtree(Sample, "cat3", x) <==> x !in AfterCat3)
    ensures forall x :: x in AfterCat3 ==> x in IdSet(Sample)
  {
    Cat3SubtreeIds();
    AfterCat3Present();
    SampleHolds(2);
  }

  /** Deleting `cat3` leaves exactly `cat1`, `cat2`, `prob1` to `prob10`
      and `etat1` to `etat3`. */
  lemma DeleteCat3()
    ensures WellFormed(Sample)
    ensures forall x :: x in IdSet(Delete(State(Sample, None), "cat3").elements) <==> x in AfterCat3
  {
    Cat3Facts();
    DeleteLeaves(Sample, "cat3", AfterCat3);
  }

  /** Nothing hangs below `prob5`. */
  predicate IsProb5(k: int) {
    k == 7
  }

  lemma Prob5Childless()
    ensures forall k :: 0 <= k < |ParentAt| ==> (IsProb5(k) <==> k == 7 || (ParentAt[k] >= 0 && IsProb5(ParentAt[k])))
  {}

  /** `prob5` sits at position 7 of the dataset. */
  lemma Prob5Listed()
    ensures |SampleIds| == 25
    ensures forall i :: 0 <= i < 25 ==> (SampleIds[i] == "prob5" <==> IsProb5(i))
  {}

  lemma Prob5SubtreeAt(i: nat)
    requires i < |Sample|
    ensures WellFormed(Sample)
    ensures InSubtree(Sample, "prob5", Sample[i].id) <==> SampleIds[i] == "prob5"
  {
    Prob5Childless();
    Prob5Listed();
    assert Sample[7].id == "prob5";
    SampleSubtree(7, IsProb5, i);
  }

  lemma Prob5SubtreeIds()
    ensures WellFormed(Sample)
    ensures forall x :: x in IdSet(Sample) ==> (InSubtree(Sample, "prob5", x) <==> x == "prob5")
  {
    SampleWellFormed();
    SampleIdsInOrder();
    forall x | x in IdSet(Sample)
      ensures InSubtree(Sample, "prob5", x) <==> x == "prob5"
    {
      var i := SamplePosition(x);
      assert SampleIds[i] == x;
      Prob5SubtreeAt(i);
    }
  }

  lemma DeleteProb5Ids()
    ensures WellFormed(Sample)
    ensures forall x :: x in IdSet(Delete(State(Sample, None), "prob5").elements) <==>
      x in IdSet(Sample) && x != "prob5"
  {
    Prob5SubtreeIds();
    SampleHolds(7);
    DeleteRemovesExactlySubtree(State(Sample, None), "prob5");
  }

  lemma DeleteProb5Etat2()
    ensures WellFormed(Sample)
    ensures Find(Delete(State(Sample, None), "prob5").elements, "etat2") == Some(Etat2.(next := Some([])))
  {
    Prob5SubtreeIds();
    SampleHolds(7);
    SampleHolds(23);
    DeleteEmptiesNext(Sample, "prob5", Etat2);
  }

  /** Deleting `prob5`, a leaf, removes it alone and empties the `next`
      list of `etat2`, which pointed at it. */
  lemma DeleteProb5()
    ensures WellFormed(Sample)
    ensures forall x :: x in IdSet(Delete(State(Sample, None), "prob5").elements) <==>
      x in IdSet(Sample) && x != "prob5"
    ensures Find(Delete(State(Sample, None), "prob5").elements, "etat2") == Some(Etat2.(next := Some([])))
  {
    DeleteProb5Ids();
    DeleteProb5Etat2();
  }

  // --------------------------------------------------------- edit, search

  /** Saving `prob16` from the editor unchanged drops its `next` list: a
      `probleme` keeps no `next`. */
  lemma EditDropsProb16Next()
    ensures ElementOf(FormOf(Prob16)) == Prob16.(next := None)
    ensures !Canonical(Prob16)
  {}
}
