/** The entities of the decision-tree editor: typed elements with a nullable
    `parent` pointer (the hierarchy) and `next`, `next_ok`, `next_ko`
    references (the diagnostic flow), the derived tree node, and the form
    record the editor edits. */
module Types {
  import opened Optional

  /** The five element kinds; `type` is a keyword here, so the field that
      holds one is called `kind`. */
  datatype ElementType = Categorie | Probleme | Etat | Verif | Action

  /** The tag as it is stored in the data: `categorie`, `probleme`, `etat`,
      `verif`, `action`. */
  function TypeName(t: ElementType): string {
    match t
    case Categorie => "categorie"
    case Probleme => "probleme"
    case Etat => "etat"
    case Verif => "verif"
    case Action => "action"
  }

  /** Different kinds are stored under different tags. */
  lemma TypeNameInjective(a: ElementType, b: ElementType)
    ensures TypeName(a) == TypeName(b) <==> a == b
  {
  }

  /** `TYPE_DISPLAY_NAMES`: the label shown for each kind. */
  function DisplayName(t: ElementType): string {
    match t
    case Categorie => "Catégorie"
    case Probleme => "Problème"
    case Etat => "État"
    case Verif => "Vérification"
    case Action => "Action"
  }

  /** The display table gives every kind its own non-empty label. */
  lemma DisplayNamesDistinct(a: ElementType, b: ElementType)
    ensures |DisplayName(a)| > 0
    ensures DisplayName(a) == DisplayName(b) <==> a == b
  {
  }

  /** A node of the diagnostic graph.  `None` in an optional field is the
      absent property of the stored object; `parent == None` is `null`. */
  datatype Element = Element(
    id: string,
    kind: ElementType,
    title: string,
    parent: Option<string>,
    next: Option<seq<string>>,
    nextOk: Option<string>,
    nextKo: Option<string>,
    usedoc: Option<bool>)

  /** One element with the tree nodes of its children. */
  datatype TreeNode = TreeNode(element: Element, children: seq<TreeNode>)

  /** The editor's form: every optional property of an element is present,
      with `[]`, `""` and `false` standing for "not set". */
  datatype ElementFormData = ElementFormData(
    id: string,
    kind: ElementType,
    title: string,
    parent: Option<string>,
    next: seq<string>,
    nextOk: string,
    nextKo: string,
    usedoc: bool)

  /** `DEFAULT_FORM_DATA`. */
  const DefaultFormData: ElementFormData :=
    ElementFormData("", Categorie, "", None, [], "", "", false)

  /** The `next` list, empty when the property is absent. */
  function NextList(el: Element): seq<string> {
    match el.next
    case None => []
    case Some(xs) => xs
  }

  /** A single reference that JavaScript treats as present: set and not `""`. */
  function Truthy(o: Option<string>): seq<string> {
    if o.Some? && o.value != "" then [o.value] else []
  }

  /** The flow successors of an element in the order the code visits them:
      every `next` entry, then `next_ok`, then `next_ko`, the last two only
      when they are non-empty strings. */
  function Targets(el: Element): (ts: seq<string>)
    ensures forall t :: t in ts <==>
      t in NextList(el) || (el.nextOk == Some(t) && t != "") || (el.nextKo == Some(t) && t != "")
  {
    NextList(el) + Truthy(el.nextOk) + Truthy(el.nextKo)
  }
}
