/** The element store (`ElementsProvider`): the flat element list and the
    selected element, with add, update, cascade delete, lookup, move and
    search as pure transformations of that state.  Persistence and toasts
    are not part of the state; a rejected operation returns the state it
    was given. */
module Store {
  import opened Optional
  import opened Seqs
  import opened Text
  import opened Types
  import opened Hierarchy

  /** What the provider holds: `elements` and `selectedElement`. */
  datatype State = State(elements: seq<Element>, selected: Option<Element>)

  // ---------------------------------------------------------------- add

  /** The id `addElement` assigns to an element without one: the type tag
      followed by the decimal clock reading `now` (`Date.now()`). */
  function ClockId(t: ElementType, now: nat): (r: string)
    ensures |r| > |TypeName(t)| && StartsWith(r, TypeName(t))
    ensures AllDigits(r[|TypeName(t)|..])
    ensures ParseLeadingNat(r[|TypeName(t)|..]) == Some(now)
  {
    var r := TypeName(t) + NatToString(now);
    assert r[|TypeName(t)|..] == NatToString(now);
    ParseRendered(now);
    r
  }

  /** `addElement`: appends the element, first giving it a clock-derived id
      when its id is empty.  Nothing checks that the id is new. */
  function Add(s: State, el: Element, now: nat): (r: State)
    ensures |r.elements| == |s.elements| + 1
    ensures r.elements[..|s.elements|] == s.elements
    ensures r.elements[|s.elements|].id != ""
    ensures el.id != "" ==> r.elements[|s.elements|] == el
    ensures el.id == "" ==> r.elements[|s.elements|] == el.(id := ClockId(el.kind, now))
    ensures r.selected == s.selected
  {
    var added := if el.id == "" then el.(id := ClockId(el.kind, now)) else el;
    State(s.elements + [added], s.selected)
  }

  /** Appending never hides an element that was already there: every id
      that was present is still found, and found unchanged. */
  lemma AddKeepsLookups(s: State, el: Element, now: nat)
    ensures forall x :: x in IdSet(s.elements) ==> Find(Add(s, el, now).elements, x) == Find(s.elements, x)
  {
    var es := s.elements;
    var r := Add(s, el, now).elements;
    forall x | x in IdSet(es)
      ensures Find(r, x) == Find(es, x)
    {
      var i := IndexOf(es, x).value;
      assert r[i] == es[i];
      var j := IndexOf(r, x).value;
      assert j <= i;
      assert j < |es| ==> r[j] == es[j];
    }
  }

  /** `addElement` keeps the ids unique exactly when the added id is new. */
  lemma AddUniqueIff(s: State, el: Element, now: nat)
    ensures var r := Add(s, el, now).elements;
      UniqueIds(r) <==> UniqueIds(s.elements) && r[|s.elements|].id !in IdSet(s.elements)
  {
    var es := s.elements;
    var r := Add(s, el, now).elements;
    var n := |es|;
    assert forall i :: 0 <= i < n ==> r[i] == es[i];
  }

  // ------------------------------------------------------------- update

  /** `updateElement`: replaces the first element with the same id; with no
      such element nothing happens.  A selected element with that id is
      replaced by the new value. */
  function Update(s: State, u: Element): (r: State)
    ensures |r.elements| == |s.elements|
    ensures u.id !in IdSet(s.elements) ==> r == s
    ensures u.id in IdSet(s.elements) ==>
      var i := IndexOf(s.elements, u.id).value;
      r.elements[i] == u &&
      (forall j :: 0 <= j < |s.elements| && j != i ==> r.elements[j] == s.elements[j])
    ensures r.selected ==
      (if u.id in IdSet(s.elements) && s.selected.Some? && s.selected.value.id == u.id
       then Some(u) else s.selected)
  {
    match IndexOf(s.elements, u.id)
    case None => s
    case Some(i) =>
      State(s.elements[i := u],
            if s.selected.Some? && s.selected.value.id == u.id then Some(u) else s.selected)
  }

  /** Reading an id back after an update gives the new element; every other
      id reads as before. */
  lemma UpdateThenFind(s: State, u: Element)
    ensures Find(Update(s, u).elements, u.id) == (if u.id in IdSet(s.elements) then Some(u) else None)
    ensures forall x :: x != u.id ==> Find(Update(s, u).elements, x) == Find(s.elements, x)
  {
    var es := s.elements;
    var r := Update(s, u).elements;
    if u.id in IdSet(es) {
      var i := IndexOf(es, u.id).value;
      assert Ids(r) == Ids(es);
      forall x ensures IndexOf(r, x) == IndexOf(es, x) {
        IndexOfByIds(r, es, x);
      }
    }
  }

  // ------------------------------------------------------------- delete

  /** `idsToDelete`: the id itself followed by everything below it. */
  function DoomedIds(es: seq<Element>, id: string): (r: seq<string>)
    requires WellFormed(es)
    ensures forall x :: x in r <==> InSubtree(es, id, x)
  {
    DescendantIdsExact(es, id);
    [id] + DescendantIds(es, id)
  }

  /** `r` is `el` with its flow references into `doomed` dropped, field by
      field: everything but the three flow fields is unchanged; `next` stays
      present or absent, and when present keeps the order and the number of
      occurrences of every entry outside `doomed` and loses every entry in
      it; `next_ok` and `next_ko` are each kept unchanged unless they name a
      member of `doomed` (an empty reference is falsy and always kept), and
      are deleted otherwise. */
  ghost predicate FlowScrubbed(r: Element, el: Element, doomed: seq<string>) {
    && r.(next := el.next, nextOk := el.nextOk, nextKo := el.nextKo) == el
    && (r.next.Some? <==> el.next.Some?)
    && (r.next.Some? ==> IsSubsequence(r.next.value, el.next.value))
    && (r.next.Some? ==>
          forall t :: multiset(r.next.value)[t] == if t in doomed then 0 else multiset(el.next.value)[t])
    && (r.nextOk.Some? <==> el.nextOk.Some? && (el.nextOk.value == "" || el.nextOk.value !in doomed))
    && (r.nextOk.Some? ==> r.nextOk == el.nextOk)
    && (r.nextKo.Some? <==> el.nextKo.Some? && (el.nextKo.value == "" || el.nextKo.value !in doomed))
    && (r.nextKo.Some? ==> r.nextKo == el.nextKo)
  }

  /** A survivor with its references to removed ids dropped: `next` is
      filtered (and stays present, possibly empty), and `next_ok` /
      `next_ko` are deleted when they name a removed id. */
  function Scrub(el: Element, doomed: seq<string>): (r: Element)
    ensures FlowScrubbed(r, el, doomed)
    ensures forall t :: t in Targets(r) <==> t in Targets(el) && t !in doomed
  {
    el.(next := match el.next
                case None => None
                case Some(xs) => Some(Filter((n: string) => n !in doomed, xs)),
        nextOk := if el.nextOk.Some? && el.nextOk.value != "" && el.nextOk.value in doomed
                  then None else el.nextOk,
        nextKo := if el.nextKo.Some? && el.nextKo.value != "" && el.nextKo.value in doomed
                  then None else el.nextKo)
  }

  /** The field-by-field description leaves no freedom: any element
      scrubbed that way is the one `Scrub` computes. */
  lemma ScrubbedIsScrub(r: Element, el: Element, doomed: seq<string>)
    requires FlowScrubbed(r, el, doomed)
    ensures r == Scrub(el, doomed)
  {
    if r.next.Some? {
      var keep := (n: string) => n !in doomed;
      FilterCharacterised(keep, el.next.value, r.next.value);
    }
  }

  function ScrubAll(xs: seq<Element>, doomed: seq<string>): (r: seq<Element>)
    ensures |r| == |xs|
    ensures forall i :: 0 <= i < |xs| ==> r[i] == Scrub(xs[i], doomed)
    ensures Ids(r) == Ids(xs)
  {
    seq(|xs|, i requires 0 <= i < |xs| => Scrub(xs[i], doomed))
  }

  /** The elements that survive removing `doomed`, in collection order. */
  function Survivors(es: seq<Element>, doomed: seq<string>): (r: seq<Element>)
    ensures forall e :: e in r <==> e in es && e.id !in doomed
    ensures IsSubsequence(r, es)
    ensures UniqueIds(es) ==> UniqueIds(r)
  {
    var keep := (e: Element) => e.id !in doomed;
    if UniqueIds(es) then FilterUnique(keep, es); Filter(keep, es) else Filter(keep, es)
  }

  /** `deleteElement`: removes the element and its whole subtree, scrubs the
      survivors' flow references into the removed set, and clears the
      selection if it was removed.  An unknown id changes nothing. */
  function Delete(s: State, id: string): (r: State)
    requires WellFormed(s.elements)
    ensures id !in IdSet(s.elements) ==> r == s
    ensures |r.elements| <= |s.elements|
    ensures r.selected ==
      (if id in IdSet(s.elements) && s.selected.Some? && InSubtree(s.elements, id, s.selected.value.id)
       then None else s.selected)
  {
    var es := s.elements;
    if Find(es, id).None? then s
    else
      var doomed := DoomedIds(es, id);
      State(ScrubAll(Survivors(es, doomed), doomed),
            if s.selected.Some? && s.selected.value.id in doomed then None else s.selected)
  }

  /** The survivors of a delete, each paired with the element it came from. */
  lemma DeleteSurvivor(s: State, id: string, e: Element)
    requires WellFormed(s.elements) && id in IdSet(s.elements)
    requires e in Delete(s, id).elements
    ensures Find(s.elements, e.id).Some?
    ensures var o := Find(s.elements, e.id).value;
      !InSubtree(s.elements, id, o.id) && e == Scrub(o, DoomedIds(s.elements, id))
  {
    var es := s.elements;
    var doomed := DoomedIds(es, id);
    var sv := Survivors(es, doomed);
    var i :| 0 <= i < |sv| && ScrubAll(sv, doomed)[i] == e;
    var o := sv[i];
    assert o in sv;
    FindUnique(es, o);
  }

  /** Cascade completeness: a delete removes exactly the id and its
      descendants, no more and no less. */
  lemma DeleteRemovesExactlySubtree(s: State, id: string)
    requires WellFormed(s.elements) && id in IdSet(s.elements)
    ensures forall x :: x in IdSet(Delete(s, id).elements) <==>
      x in IdSet(s.elements) && !InSubtree(s.elements, id, x)
  {
    var es := s.elements;
    var doomed := DoomedIds(es, id);
    var sv := Survivors(es, doomed);
    var r := Delete(s, id).elements;
    assert r == ScrubAll(sv, doomed);
    forall x
      ensures x in IdSet(r) <==> x in IdSet(es) && !InSubtree(es, id, x)
    {
      if x in IdSet(r) {
        var e :| e in r && e.id == x;
        DeleteSurvivor(s, id, e);
      }
      if x in IdSet(es) && !InSubtree(es, id, x) {
        var o :| o in es && o.id == x;
        assert o in sv;
        var i :| 0 <= i < |sv| && sv[i] == o;
        assert r[i] in r && r[i].id == x;
      }
    }
  }

  lemma {:induction false} SubsequenceIds(a: seq<Element>, b: seq<Element>)
    requires IsSubsequence(a, b)
    ensures IsSubsequence(Ids(a), Ids(b))
    decreases |b|
  {
    if |a| > 0 {
      assert Ids(a)[1..] == Ids(a[1..]) && Ids(b)[1..] == Ids(b[1..]);
      if a[0] == b[0] {
        SubsequenceIds(a[1..], b[1..]);
      } else {
        SubsequenceIds(a, b[1..]);
        SubsequenceExtend(Ids(a), Ids(b));
      }
    }
  }

  /** The survivors keep their original relative order. */
  lemma DeleteKeepsOrder(s: State, id: string)
    requires WellFormed(s.elements)
    ensures IsSubsequence(Ids(Delete(s, id).elements), Ids(s.elements))
  {
    var es := s.elements;
    if id in IdSet(es) {
      var doomed := DoomedIds(es, id);
      var sv := Survivors(es, doomed);
      assert Ids(ScrubAll(sv, doomed)) == Ids(sv);
      SubsequenceIds(sv, es);
    } else {
      SubsequenceReflexive(Ids(es));
    }
  }

  /** No survivor refers to a removed id, neither through its flow references
      nor through its parent. */
  lemma DeleteLeavesNoDangling(s: State, id: string)
    requires WellFormed(s.elements)
    ensures forall e, t :: e in Delete(s, id).elements && t in Targets(e) ==>
      !(id in IdSet(s.elements) && InSubtree(s.elements, id, t))
    ensures forall e :: e in Delete(s, id).elements && e.parent.Some? ==>
      !(id in IdSet(s.elements) && InSubtree(s.elements, id, e.parent.value))
  {
    var es := s.elements;
    if id in IdSet(es) {
      forall e | e in Delete(s, id).elements
        ensures forall t :: t in Targets(e) ==> !InSubtree(es, id, t)
        ensures e.parent.Some? ==> !InSubtree(es, id, e.parent.value)
      {
        DeleteSurvivor(s, id, e);
        var o := Find(es, e.id).value;
        if e.parent.Some? && InSubtree(es, id, e.parent.value) {
          SubtreeClosed(es, id, o);
        }
      }
    }
  }

  /** A survivor differs from the element it came from only in its flow
      references, each field scrubbed on its own of the removed ids (the
      members of `DoomedIds`, which are exactly the subtree). */
  lemma DeleteOnlyScrubsFlow(s: State, id: string)
    requires WellFormed(s.elements) && id in IdSet(s.elements)
    ensures forall e :: e in Delete(s, id).elements ==>
      Find(s.elements, e.id).Some? &&
      var o := Find(s.elements, e.id).value;
      && FlowScrubbed(e, o, DoomedIds(s.elements, id))
      && (forall t :: t in Targets(e) <==> t in Targets(o) && !InSubtree(s.elements, id, t))
  {
    forall e | e in Delete(s, id).elements
      ensures Find(s.elements, e.id).Some?
      ensures var o := Find(s.elements, e.id).value;
        && FlowScrubbed(e, o, DoomedIds(s.elements, id))
        && (forall t :: t in Targets(e) <==> t in Targets(o) && !InSubtree(s.elements, id, t))
    {
      DeleteSurvivor(s, id, e);
    }
  }

  /** A delete leaves a well-formed collection: the survivors keep unique
      ids and every survivor keeps the parent it had. */
  lemma DeletePreservesWellFormed(s: State, id: string)
    requires WellFormed(s.elements)
    ensures WellFormed(Delete(s, id).elements)
  {
    var es := s.elements;
    if id in IdSet(es) {
      var doomed := DoomedIds(es, id);
      var sv := Survivors(es, doomed);
      var r := Delete(s, id).elements;
      IdSetByIds(r, sv);
      forall y | y in IdSet(r) && Up(r, y).Some?
        ensures Height(es, Up(r, y).value) < Height(es, y)
      {
        var e :| e in r && e.id == y;
        DeleteSurvivor(s, id, e);
        FindUnique(r, e);
        ClimbStep(es, y);
      }
      RankedAcyclic(r, (x: string) => Height(es, x));
    }
  }

  // --------------------------------------------------------------- move

  /** The walk `moveElement` performs before moving: from `cur`, follow the
      `parent` links for as long as the current id is a non-empty string,
      and report whether the walk meets `e`.  A missing element, a `null`
      parent and an empty parent all end the walk. */
  predicate ClimbsTo(es: seq<Element>, e: string, cur: string)
    requires Acyclic(es)
    decreases Height(es, cur)
  {
    cur != "" &&
    (cur == e ||
     match Up(es, cur)
     case None => false
     case Some(p) => ClimbStep(es, cur); ClimbsTo(es, e, p))
  }

  /** `moveElement` refuses the move exactly when the new parent is set (and
      non-empty) and its walk up meets the moved element. */
  predicate MoveRejected(es: seq<Element>, e: string, np: Option<string>)
    requires Acyclic(es)
  {
    np.Some? && ClimbsTo(es, e, np.value)
  }

  /** Every element holding id `e` gets `np` as its parent. */
  function Reparent(es: seq<Element>, e: string, np: Option<string>): (r: seq<Element>)
    ensures |r| == |es| && Ids(r) == Ids(es)
    ensures forall i :: 0 <= i < |es| ==> r[i].(parent := es[i].parent) == es[i]
    ensures forall i :: 0 <= i < |es| && es[i].id == e ==> r[i].parent == np
    ensures forall i :: 0 <= i < |es| && es[i].id != e ==> r[i] == es[i]
  {
    seq(|es|, i requires 0 <= i < |es| => if es[i].id == e then es[i].(parent := np) else es[i])
  }

  /** `moveElement`: unless the move is refused, every element holding id
      `e` gets the new parent (`None` is `null`).  The selection is kept as
      it was, even when it holds the moved element. */
  function Move(s: State, e: string, np: Option<string>): (r: State)
    requires Acyclic(s.elements)
    ensures r.selected == s.selected
    ensures MoveRejected(s.elements, e, np) ==> r == s
    ensures !MoveRejected(s.elements, e, np) ==> r.elements == Reparent(s.elements, e, np)
    ensures np == None || np == Some("") ==> r.elements == Reparent(s.elements, e, np)
    ensures e != "" && np == Some(e) ==> r == s
  {
    if MoveRejected(s.elements, e, np) then s
    else State(Reparent(s.elements, e, np), s.selected)
  }

  /** The walk meets `e` exactly when `cur` lies in the subtree of `e`,
      provided no element carries the empty id (the walk stops at `""`
      while the hierarchy continues through an element with that id). */
  lemma {:induction false} ClimbsToIffSubtree(es: seq<Element>, e: string, cur: string)
    requires Acyclic(es) && e != "" && "" !in IdSet(es)
    ensures ClimbsTo(es, e, cur) <==> InSubtree(es, e, cur)
    decreases Height(es, cur)
  {
    if cur != "" && cur != e {
      match Up(es, cur) {
        case None =>
        case Some(p) =>
          ClimbStep(es, cur);
          ClimbsToIffSubtree(es, e, p);
      }
    }
  }

  /** The guard refuses exactly the moves that would make an element its
      own ancestor: a new parent inside the moved element's subtree. */
  lemma MoveRejectsExactlyCycles(es: seq<Element>, e: string, p: string)
    requires Acyclic(es) && e != "" && "" !in IdSet(es)
    ensures MoveRejected(es, e, Some(p)) <==> InSubtree(es, e, p)
  {
    ClimbsToIffSubtree(es, e, p);
  }

  /** After a move the moved id hangs from its new parent and every other
      id keeps its parent. */
  lemma MoveThenUp(s: State, e: string, np: Option<string>)
    requires Acyclic(s.elements) && !MoveRejected(s.elements, e, np)
    ensures Up(Move(s, e, np).elements, e) == (if e in IdSet(s.elements) then np else None)
    ensures forall x :: x != e ==> Up(Move(s, e, np).elements, x) == Up(s.elements, x)
  {
    var es := s.elements;
    var r := Move(s, e, np).elements;
    forall x ensures IndexOf(r, x) == IndexOf(es, x) {
      IndexOfByIds(r, es, x);
    }
  }

  /** An accepted move keeps the collection well-formed, provided no
      element carries the empty id. */
  lemma MovePreservesWellFormed(s: State, e: string, np: Option<string>)
    requires WellFormed(s.elements) && "" !in IdSet(s.elements)
    ensures WellFormed(Move(s, e, np).elements)
  {
    var es := s.elements;
    if !MoveRejected(es, e, np) {
      var r := Move(s, e, np).elements;
      IdSetByIds(r, es);
      MoveThenUp(s, e, np);
      if e in IdSet(es) && np.Some? {
        MoveRejectsExactlyCycles(es, e, np.value);
      }
      ReparentAcyclic(es, r, e);
    }
  }

  // ------------------------------------------------------------- search

  /** An element matches a query when its lower-cased title or id contains
      the lower-cased query. */
  predicate Matches(el: Element, q: string) {
    Contains(Lower(el.title), Lower(q)) || Contains(Lower(el.id), Lower(q))
  }

  /** `searchElements`: nothing for a blank query, otherwise the matching
      elements in collection order.  The query is lower-cased but not
      trimmed before matching. */
  function Search(s: State, q: string): (r: seq<Element>)
    ensures Blank(q) ==> r == []
    ensures !Blank(q) ==> forall e :: e in r <==> e in s.elements && Matches(e, q)
    ensures !Blank(q) ==> forall e :: multiset(r)[e] == if Matches(e, q) then multiset(s.elements)[e] else 0
    ensures IsSubsequence(r, s.elements)
  {
    TrimEmptyIffBlank(q);
    if Trim(q) == [] then [] else Filter((e: Element) => Matches(e, q), s.elements)
  }

  /** A non-blank query finds exactly the elements whose lower-cased title
      or id has the lower-cased query as a substring. */
  lemma SearchMeansSubstring(s: State, q: string)
    requires !Blank(q)
    ensures forall e :: e in Search(s, q) <==>
      e in s.elements && (IsSubstring(Lower(q), Lower(e.title)) || IsSubstring(Lower(q), Lower(e.id)))
  {
    forall e | e in s.elements
      ensures Matches(e, q) <==> IsSubstring(Lower(q), Lower(e.title)) || IsSubstring(Lower(q), Lower(e.id))
    {
      ContainsIsSubstring(Lower(e.title), Lower(q));
      ContainsIsSubstring(Lower(e.id), Lower(q));
    }
  }

  /** Searching for an element's own (non-blank) id finds it. */
  lemma SearchFindsById(s: State, e: Element)
    requires e in s.elements && !Blank(e.id)
    ensures e in Search(s, e.id)
  {
    assert Contains(Lower(e.id), Lower(e.id));
  }
}
