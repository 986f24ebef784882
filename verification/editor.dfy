/** The element editor's pure parts: id generation, the element built from
    the form on submit (with its title validation), the form loaded from an
    element, and the list of parents offered for an element. */
module Editor {
  import opened Optional
  import opened Seqs
  import opened Text
  import opened Types
  import opened Hierarchy
  import opened Store
  import opened Tree

  // ---------------------------------------------------------------- ids

  /** The prefix `generateId` works with: the first four characters of the
      form's type tag. */
  function GenPrefix(t: ElementType): (r: string)
    ensures |r| == 4 && StartsWith(TypeName(t), r)
  {
    TypeName(t)[..4]
  }

  /** `typePrefix(type)`: the prefix of the id given to a form whose type is
      changed.  Every kind has its own case, so the `item` fallback is never
      taken. */
  function TypePrefix(t: ElementType): string {
    match t
    case Categorie => "cat"
    case Probleme => "prob"
    case Etat => "etat"
    case Verif => "verif"
    case Action => "action"
  }

  /** The two prefixes agree only for `probleme` and `etat`: new categories
      get ids such as `cate1` while a type change yields `cat12345`. */
  lemma PrefixesDisagree(t: ElementType)
    ensures GenPrefix(t) == TypePrefix(t) <==> t == Probleme || t == Etat
  {
    assert TypeName(t)[..4] == GenPrefix(t);
    if t == Categorie { assert GenPrefix(t) == "cate"; }
    if t == Verif { assert GenPrefix(t) == "veri"; }
    if t == Action { assert GenPrefix(t) == "acti"; }
  }

  /** The number read from an id after its prefix: the value of the leading
      decimal digits, and 0 when there are none (where `parseInt` gives
      `NaN`). */
  function SuffixValue(id: string, prefix: string): nat
    requires StartsWith(id, prefix)
  {
    match ParseLeadingNat(id[|prefix|..])
    case None => 0
    case Some(n) => n
  }

  /** `existingIds`: the suffix values of the ids of elements of kind `t`
      that start with `prefix`, in collection order. */
  function SuffixValues(es: seq<Element>, t: ElementType, prefix: string): seq<nat> {
    if |es| == 0 then []
    else
      var rest := SuffixValues(es[1..], t, prefix);
      if es[0].kind == t && StartsWith(es[0].id, prefix) then [SuffixValue(es[0].id, prefix)] + rest
      else rest
  }

  /** `existingIds` holds the suffix of every same-kind id with the prefix
      and nothing else, and is empty exactly when there is no such id. */
  lemma {:induction false} SuffixValuesCover(es: seq<Element>, t: ElementType, prefix: string)
    ensures forall e :: e in es && e.kind == t && StartsWith(e.id, prefix) ==>
      SuffixValue(e.id, prefix) in SuffixValues(es, t, prefix)
    ensures forall v :: v in SuffixValues(es, t, prefix) ==>
      exists e :: e in es && e.kind == t && StartsWith(e.id, prefix) && SuffixValue(e.id, prefix) == v
    ensures |SuffixValues(es, t, prefix)| == 0 <==>
      forall e :: e in es ==> !(e.kind == t && StartsWith(e.id, prefix))
    decreases |es|
  {
    if |es| > 0 {
      SuffixValuesCover(es[1..], t, prefix);
      assert forall e :: e in es ==> e == es[0] || e in es[1..];
    }
  }

  lemma {:induction false} SuffixValuesConcat(a: seq<Element>, b: seq<Element>, t: ElementType, prefix: string)
    ensures SuffixValues(a + b, t, prefix) == SuffixValues(a, t, prefix) + SuffixValues(b, t, prefix)
    decreases |a|
  {
    if |a| == 0 {
      assert a + b == b;
    } else {
      assert (a + b)[0] == a[0];
      assert (a + b)[1..] == a[1..] + b;
      SuffixValuesConcat(a[1..], b, t, prefix);
    }
  }

  /** `maxId`: the largest value of the list, 0 for an empty list. */
  function MaxOrZero(xs: seq<nat>): (m: nat)
    ensures forall i :: 0 <= i < |xs| ==> xs[i] <= m
    ensures |xs| == 0 ==> m == 0
    ensures |xs| > 0 ==> m in xs
  {
    if |xs| == 0 then 0
    else
      var m := MaxOrZero(xs[1..]);
      assert forall i :: 1 <= i < |xs| ==> xs[i] == xs[1..][i - 1];
      if xs[0] >= m then xs[0] else m
  }

  /** `generateId()` for a form of kind `t`: the four-character prefix and
      one more than the largest suffix among same-kind ids with that
      prefix. */
  function GenerateId(es: seq<Element>, t: ElementType): (r: string)
    ensures StartsWith(r, GenPrefix(t))
    ensures |r| > |GenPrefix(t)| && AllDigits(r[|GenPrefix(t)|..])
  {
    var p := GenPrefix(t);
    p + NatToString(MaxOrZero(SuffixValues(es, t, p)) + 1)
  }

  /** The generated suffix reads back as a number above every suffix of a
      same-kind id with the prefix, and as 1 when there is none. */
  lemma GenerateIdExceeds(es: seq<Element>, t: ElementType)
    ensures var p := GenPrefix(t); var r := GenerateId(es, t);
      && (forall e :: e in es && e.kind == t && StartsWith(e.id, p) ==>
            SuffixValue(e.id, p) < SuffixValue(r, p))
      && ((forall e :: e in es ==> !(e.kind == t && StartsWith(e.id, p))) ==> SuffixValue(r, p) == 1)
  {
    var p := GenPrefix(t);
    var m := MaxOrZero(SuffixValues(es, t, p));
    var r := GenerateId(es, t);
    SuffixValuesCover(es, t, p);
    assert r[|p|..] == NatToString(m + 1);
    ParseRendered(m + 1);
  }

  /** The generated id is the prefix followed by the decimal rendering of
      its suffix, and that suffix is one more than the suffix of an
      existing same-kind id with the prefix, or 1.  With
      `GenerateIdExceeds` this makes it one more than the largest such
      suffix. */
  lemma GenerateIdFollowsMax(es: seq<Element>, t: ElementType)
    ensures var p := GenPrefix(t); var r := GenerateId(es, t);
      && r == p + NatToString(SuffixValue(r, p))
      && (SuffixValue(r, p) == 1 ||
          exists e :: e in es && e.kind == t && StartsWith(e.id, p) && SuffixValue(e.id, p) + 1 == SuffixValue(r, p))
  {
    var p := GenPrefix(t);
    var xs := SuffixValues(es, t, p);
    var m := MaxOrZero(xs);
    var r := GenerateId(es, t);
    SuffixValuesCover(es, t, p);
    assert r[|p|..] == NatToString(m + 1);
    ParseRendered(m + 1);
    if |xs| > 0 {
      var e :| e in es && e.kind == t && StartsWith(e.id, p) && SuffixValue(e.id, p) == m;
    }
  }

  /** No element of the same kind already holds the generated id. */
  lemma GenerateIdFreshForKind(es: seq<Element>, t: ElementType)
    ensures forall e :: e in es && e.kind == t ==> e.id != GenerateId(es, t)
  {
    GenerateIdExceeds(es, t);
  }

  /** The last five characters of a string (`slice(-5)`), all of it when it
      is shorter. */
  function LastFive(s: string): (r: string)
    ensures |r| == if |s| < 5 then |s| else 5
    ensures r == s[|s| - |r|..]
  {
    if |s| <= 5 then s else s[|s| - 5..]
  }

  /** The type field changed in the form: the kind is set and the id is
      replaced by `typePrefix` and the last five digits of the clock
      reading `now`.  Choosing the current kind again changes nothing.
      The type control is disabled in edit mode, so this happens only
      while adding. */
  function ChangeType(f: ElementFormData, t: ElementType, now: nat): (r: ElementFormData)
    ensures r.kind == t
    ensures t == f.kind ==> r == f
    ensures t != f.kind ==> r == f.(kind := t, id := r.id)
    ensures t != f.kind ==>
      StartsWith(r.id, TypePrefix(t)) && 0 < |r.id| - |TypePrefix(t)| <= 5 && AllDigits(r.id[|TypePrefix(t)|..])
  {
    if t == f.kind then f
    else
      var digits := LastFive(NatToString(now));
      var id := TypePrefix(t) + digits;
      assert id[|TypePrefix(t)|..] == digits;
      f.(kind := t, id := id)
  }

  /** The digits after `typePrefix` are the clock reading modulo 100000:
      its last five decimal digits, or all of them when there are fewer. */
  lemma ChangeTypeReadsClock(f: ElementFormData, t: ElementType, now: nat)
    requires t != f.kind
    ensures var r := ChangeType(f, t, now);
      DigitsValue(r.id[|TypePrefix(t)|..]) == now % 100000
  {
    var r := ChangeType(f, t, now);
    assert r.id[|TypePrefix(t)|..] == LastFive(NatToString(now));
    LastFiveValue(NatToString(now));
    DigitsValueOfNatToString(now);
  }

  /** The last five digits of a digit string are worth its value modulo
      100000. */
  lemma LastFiveValue(s: string)
    requires AllDigits(s)
    ensures AllDigits(LastFive(s)) && DigitsValue(LastFive(s)) == DigitsValue(s) % 100000
  {
    assert Pow10(5) == 100000;
    if |s| >= 5 {
      DigitsValueSuffix(s, 5);
    } else {
      assert LastFive(s) == s;
      DigitsValueBound(s);
      Pow10Monotone(|s|, 5);
    }
  }

  /** The form shown when the selection or the add flag changes, with the
      new edit-mode flag: the selected element for editing; otherwise, when
      adding, the default form with an id generated for the kind the form
      had before and a `null` parent (the selection is empty on this path);
      otherwise the form as it was. */
  function LoadForm(sel: Option<Element>, showAdd: bool, es: seq<Element>, f: ElementFormData, editMode: bool): (r: (ElementFormData, bool))
    ensures sel.Some? ==> r.1 && r.0.id == sel.value.id && r.0.kind == sel.value.kind && r.0.parent == sel.value.parent
    ensures sel.Some? ==> r.0 == FormOf(sel.value)
    ensures sel.None? && showAdd ==>
      && !r.1 && r.0.id == GenerateId(es, f.kind) && r.0.parent == None
      && r.0.kind == Categorie && r.0.title == "" && r.0.next == []
      && r.0.nextOk == "" && r.0.nextKo == "" && !r.0.usedoc
    ensures sel.None? && !showAdd ==> r == (f, editMode)
  {
    if sel.Some? then (FormOf(sel.value), true)
    else if showAdd then (DefaultFormData.(id := GenerateId(es, f.kind), parent := None), false)
    else (f, editMode)
  }

  // ------------------------------------------------------------- submit

  /** An element as `handleSubmit` leaves it: the optional fields appear only
      where its kind allows them and only with a non-empty (or true)
      value. */
  predicate Canonical(el: Element) {
    && (el.next.Some? ==> (el.kind == Etat || el.kind == Action) && |el.next.value| > 0)
    && (el.nextOk.Some? ==> el.kind == Verif && el.nextOk.value != "")
    && (el.nextKo.Some? ==> el.kind == Verif && el.nextKo.value != "")
    && (el.usedoc.Some? ==> (el.kind == Verif || el.kind == Action) && el.usedoc.value)
  }

  /** The element data built from the form: id, type, title and parent
      always; `next` for `etat` and `action` when non-empty; `next_ok` and
      `next_ko` for `verif` when non-empty; `usedoc` for `verif` and
      `action` when checked. */
  function ElementOf(f: ElementFormData): (r: Element)
    ensures Canonical(r)
    ensures r.id == f.id && r.kind == f.kind && r.title == f.title && r.parent == f.parent
    ensures r.next.Some? ==> r.next.value == f.next
    ensures r.nextOk.Some? ==> r.nextOk.value == f.nextOk
    ensures r.nextKo.Some? ==> r.nextKo.value == f.nextKo
    ensures (f.kind == Etat || f.kind == Action) && |f.next| > 0 ==> r.next == Some(f.next)
    ensures f.kind == Verif && f.nextOk != "" ==> r.nextOk == Some(f.nextOk)
    ensures f.kind == Verif && f.nextKo != "" ==> r.nextKo == Some(f.nextKo)
    ensures (f.kind == Verif || f.kind == Action) && f.usedoc ==> r.usedoc == Some(true)
    ensures r.usedoc.Some? ==> f.usedoc
  {
    var flows := f.kind == Etat || f.kind == Action;
    var verif := f.kind == Verif;
    Element(f.id, f.kind, f.title, f.parent,
            if flows && |f.next| > 0 then Some(f.next) else None,
            if verif && f.nextOk != "" then Some(f.nextOk) else None,
            if verif && f.nextKo != "" then Some(f.nextKo) else None,
            if (verif || f.kind == Action) && f.usedoc then Some(true) else None)
  }

  /** A string property read into the form, the empty string when it is
      missing. */
  function OrEmpty(o: Option<string>): string {
    match o
    case None => ""
    case Some(v) => v
  }

  /** The form loaded from the selected element: missing `next` becomes
      `[]`, missing `next_ok` / `next_ko` become `""`, missing `usedoc`
      becomes `false`. */
  function FormOf(el: Element): (f: ElementFormData)
    ensures f.id == el.id && f.kind == el.kind && f.title == el.title && f.parent == el.parent
    ensures el.next.Some? ==> f.next == el.next.value
    ensures el.next.None? ==> f.next == []
    ensures el.nextOk.Some? ==> f.nextOk == el.nextOk.value
    ensures el.nextOk.None? ==> f.nextOk == ""
    ensures el.nextKo.Some? ==> f.nextKo == el.nextKo.value
    ensures el.nextKo.None? ==> f.nextKo == ""
    ensures f.usedoc <==> el.usedoc == Some(true)
  {
    ElementFormData(el.id, el.kind, el.title, el.parent, NextList(el),
                    OrEmpty(el.nextOk), OrEmpty(el.nextKo), el.usedoc == Some(true))
  }

  /** Saving an element from the form unchanged gives the element back
      exactly when it is canonical; any other element loses the fields its
      kind does not allow (a `probleme` with `next` loses its `next`). */
  lemma EditRoundTrip(el: Element)
    ensures ElementOf(FormOf(el)) == el <==> Canonical(el)
  {
  }

  /** Selecting an element loads a form in edit mode that, saved unchanged,
      updates the element to itself when it is canonical; the add form,
      saved unchanged, is refused for its empty title. */
  lemma LoadFormRoundTrip(sel: Option<Element>, showAdd: bool, s: State, f: ElementFormData, editMode: bool, now: nat)
    ensures sel.Some? && Canonical(sel.value) ==>
      var r := LoadForm(sel, showAdd, s.elements, f, editMode);
      r.1 && ElementOf(r.0) == sel.value
    ensures sel.None? && showAdd ==>
      var r := LoadForm(sel, showAdd, s.elements, f, editMode);
      Submit(s, r.0, r.1, now).None?
  {
    if sel.Some? {
      EditRoundTrip(sel.value);
    }
  }

  /** Loading a saved element into the form and saving it again changes
      nothing. */
  lemma SaveIsStable(f: ElementFormData)
    ensures ElementOf(FormOf(ElementOf(f))) == ElementOf(f)
  {
    EditRoundTrip(ElementOf(f));
  }

  /** `handleSubmit`: a blank title is refused (`None`, nothing saved);
      otherwise the built element goes to `updateElement` in edit mode and
      to `addElement` (with clock reading `now`) when adding. */
  function Submit(s: State, f: ElementFormData, editMode: bool, now: nat): (r: Option<State>)
    ensures r.None? <==> Blank(f.title)
    ensures r.Some? && editMode ==> r.value == Update(s, ElementOf(f))
    ensures r.Some? && !editMode ==> r.value == Add(s, ElementOf(f), now)
  {
    TrimEmptyIffBlank(f.title);
    if Trim(f.title) == [] then None
    else if editMode then Some(Update(s, ElementOf(f)))
    else Some(Add(s, ElementOf(f), now))
  }

  /** The default form is refused for its empty title. */
  lemma DefaultFormRefused(s: State, editMode: bool, now: nat)
    ensures Submit(s, DefaultFormData, editMode, now).None?
  {
  }

  /** A new element saved from the add form lands at the end, built from
      the form, with every element before it unchanged. */
  lemma SubmitAddAppends(s: State, f: ElementFormData, now: nat)
    requires !Blank(f.title) && f.id != ""
    ensures Submit(s, f, false, now).Some?
    ensures var r := Submit(s, f, false, now).value.elements;
      |r| == |s.elements| + 1 && r[..|s.elements|] == s.elements && r[|s.elements|] == ElementOf(f)
  {
  }

  // ------------------------------------------------------------- parents

  /** `getPotentialParents`: in edit mode every element except the edited
      one and its descendants, in collection order; when adding, every
      element. */
  function PotentialParents(es: seq<Element>, f: ElementFormData, editMode: bool): (r: seq<Element>)
    requires editMode ==> WellFormed(es)
    ensures forall e :: e in r <==> e in es && !(editMode && InSubtree(es, f.id, e.id))
    ensures forall e :: multiset(r)[e] == if editMode && InSubtree(es, f.id, e.id) then 0 else multiset(es)[e]
    ensures IsSubsequence(r, es)
  {
    var excluded := if editMode then DoomedIds(es, f.id) else [];
    Filter((e: Element) => e.id !in excluded, es)
  }

  /** Saving the edited element with a parent offered by the editor, or
      with the picker's "None" entry (stored as the empty id, which no
      element holds), or with no parent at all, keeps the collection
      well-formed: the picker never offers a parent that would close a
      cycle. */
  lemma PickedParentKeepsWellFormed(s: State, f: ElementFormData, parent: Option<string>, now: nat)
    requires WellFormed(s.elements) && !Blank(f.title)
    requires parent.Some? ==>
      parent.value in IdSet(PotentialParents(s.elements, f, true)) || (parent.value == "" && "" !in IdSet(s.elements))
    ensures WellFormed(Submit(s, f.(parent := parent), true, now).value.elements)
  {
    var es := s.elements;
    var g := f.(parent := parent);
    var u := ElementOf(g);
    var r := Update(s, u).elements;
    assert Submit(s, g, true, now) == Some(Update(s, u));
    if f.id in IdSet(es) {
      UpdateInPlace(s, u);
      UpdateUps(s, u);
      IdSetByIds(r, es);
      PickedParentOutside(es, f, parent);
      ReparentAcyclic(es, r, f.id);
    }
  }

  /** Updating an existing element changes only its own step up the
      hierarchy. */
  lemma UpdateUps(s: State, u: Element)
    requires u.id in IdSet(s.elements)
    ensures Up(Update(s, u).elements, u.id) == u.parent
    ensures forall x :: x != u.id ==> Up(Update(s, u).elements, x) == Up(s.elements, x)
  {
    var es, r := s.elements, Update(s, u).elements;
    UpdateInPlace(s, u);
    forall x ensures IndexOf(r, x) == IndexOf(es, x) {
      IndexOfByIds(r, es, x);
    }
    assert r[IndexOf(es, u.id).value] == u;
  }

  /** A parent the picker allows lies outside the edited element's subtree. */
  lemma PickedParentOutside(es: seq<Element>, f: ElementFormData, parent: Option<string>)
    requires WellFormed(es) && f.id in IdSet(es)
    requires parent.Some? ==>
      parent.value in IdSet(PotentialParents(es, f, true)) || (parent.value == "" && "" !in IdSet(es))
    ensures parent.Some? ==> !InSubtree(es, f.id, parent.value)
  {
    if parent.Some? && parent.value in IdSet(PotentialParents(es, f, true)) {
      var pp := PotentialParents(es, f, true);
      var e :| e in pp && e.id == parent.value;
    }
  }

  /** Picking "None (Root Element)" stores the empty id as the parent, not
      `null`: the saved element is in the collection but, as no element
      holds the empty id, the tree view no longer shows it. */
  lemma PickedNoneHidesElement(s: State, f: ElementFormData, now: nat)
    requires WellFormed(s.elements) && !Blank(f.title)
    requires f.id in IdSet(s.elements) && "" !in IdSet(s.elements)
    ensures var r := Submit(s, f.(parent := Some("")), true, now).value.elements;
      && WellFormed(r)
      && ElementOf(f.(parent := Some(""))) in r
      && ElementOf(f.(parent := Some(""))) !in Flatten(TreeData(r))
  {
    var u := ElementOf(f.(parent := Some("")));
    var r := Update(s, u).elements;
    PickedParentKeepsWellFormed(s, f, Some(""), now);
    UpdateInPlace(s, u);
    DanglingParentHidden(r, u);
  }

  /** Updating an existing element puts the new one in place and keeps the
      set of ids. */
  lemma UpdateInPlace(s: State, u: Element)
    requires u.id in IdSet(s.elements)
    ensures u in Update(s, u).elements
    ensures Ids(Update(s, u).elements) == Ids(s.elements)
    ensures IdSet(Update(s, u).elements) == IdSet(s.elements)
  {
    var r := Update(s, u).elements;
    assert r[IndexOf(s.elements, u.id).value] == u;
    assert Ids(r) == Ids(s.elements);
    IdSetByIds(r, s.elements);
  }
}
