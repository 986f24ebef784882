# ts-draw decision-tree editor, modelled in Dafny

ts-draw edits troubleshooting decision trees. Every node of a tree is an
`Element`. An element has an id, one of five kinds (`categorie`,
`probleme`, `etat`, `verif`, `action`), a title and a nullable `parent`.
The `parent` pointers form the hierarchy that the tree view shows. A second,
independent graph is made of the optional `next` list and the optional
`next_ok` and `next_ko` references. This graph is the diagnostic flow that
the graph view shows.

The project models the following parts of the editor as pure Dafny functions
over immutable datatypes:

- **The element store** (`Store`): add, update, cascade delete with
  reference scrubbing, move with its cycle guard, search, and the selected
  element that update and delete keep consistent.
- **The tree view's data** (`Tree`): `buildTree` and `getTreeData`.
- **The graph view** (`Graph`): the depth-first subgraph walk with its
  visited set, and the edge list labelled plain, OK or KO.
- **The element editor's pure helpers** (`Editor`): id generation, the two
  id prefixes, loading an element into the form, building an element from
  the form when it is submitted, the title check, and the list of parents
  that can be offered.
- **The bundled dataset** (`SampleData`), with worked scenarios of the
  operations on it (`Scenarios`, `SearchScenarios`).

Files and modules:

| file | modules | what |
|---|---|---|
| `seqs.dfy` | `Seqs` | filtering and the subsequence order |
| `text.dfy` | `Optional`, `Text` | `trim`, blank strings, ASCII `toLowerCase`, `includes`, `startsWith`, decimal rendering and the digit prefix `parseInt` reads |
| `types.dfy` | `Types` | element kinds, `Element`, `TreeNode`, `ElementFormData`, `DEFAULT_FORM_DATA`, display names, flow targets |
| `hierarchy.dfy` | `Hierarchy` | lookup by id, the walk up `parent` links, `WellFormed` (unique ids and an acyclic `parent` relation), children, descendants, subtrees |
| `store.dfy` | `Store` | the store operations |
| `tree.dfy` | `Tree` | `buildTree` / `getTreeData` |
| `graph.dfy` | `Graph` | `getSubgraphElements` and `initialEdges` |
| `editor.dfy` | `Editor` | the editor helpers |
| `sample_data.dfy` | `SampleData` | the 25-element dataset and its well-formedness |
| `scenarios.dfy` | `Scenarios` | the dataset under add-id generation, move, subgraph, edges, delete and edit |
| `search_scenarios.dfy` | `Pairs`, `SearchScenarios` | searching the dataset for `pression` |

How the source is rendered in Dafny:

- **Termination.** Three recursions in the source have no visited set and
  may not end on cyclic data or with duplicate ids: `getChildrenIds`,
  `buildTree`, and the walk in `moveElement`.
  - The model needs the `WellFormed` predicate for `Delete`, `BuildTree` and
    `PotentialParents`, and `Acyclic` for `Move`.
  - `Height` is the termination measure. It counts the steps from an
    element up to the top of its chain.
- **JavaScript truthiness** is modelled as the source reads it:
  - A `next_ok` or `next_ko` holding `""` counts as absent.
  - A `parent` of `""` ends the walk up.
  - A selected element with id `""` shows no graph.
- **Absent optional fields** are `None`. A `null` parent is `None`.
- **Rejected operations** return the state they were given. Submitting a
  blank title returns `None`.

## Model

| member | source | states |
|---|---|---|
| `Text.TrimEmptyIffBlank` | src/contexts/ElementsContext.tsx:192 | `query.trim()` is empty exactly when the query is made of white space only |
| `Text.Lower` | src/contexts/ElementsContext.tsx:193 | lower-casing keeps the length and folds each character on its own (ASCII capitals to small letters) |
| `Text.ContainsIsSubstring` | src/contexts/ElementsContext.tsx:195-196 | `includes`, tried at each start position, holds exactly when the needle occurs somewhere in the string |
| `Text.ParseRendered` | src/components/editor/ElementEditor.tsx:56-57 | `parseInt` of the decimal rendering of `n` gives `n` back |
| `Types.TypeNameInjective` | src/types/index.ts:1 | the five kinds are stored under five different tags |
| `Types.DisplayNamesDistinct` | src/types/index.ts:53-59 | the display table gives every kind a non-empty label, and different kinds different labels |
| `Types.Targets` | src/components/graph/GraphView.tsx:119-121 | an element's flow successors are exactly its `next` entries, its non-empty `next_ok` and its non-empty `next_ko` |
| `Seqs.FilterCharacterised` | src/contexts/ElementsContext.tsx:91 | a subsequence of a list that holds every element passing the test as often as the list does, and nothing else, is the filtered list: order and multiplicity determine `filter`'s result |
| `Hierarchy.IndexOf` | src/contexts/ElementsContext.tsx:60 | `findIndex` returns the first position holding the id, and `None` exactly when no element holds it |
| `Hierarchy.Find` | src/contexts/ElementsContext.tsx:125-127 | `getElement` returns the element at the first position holding the id, even when a later element holds it too, and nothing exactly when the id is absent |
| `Hierarchy.Children` | src/contexts/ElementsContext.tsx:130-132 | `getElementChildren` returns exactly the elements with that parent, in collection order, each as often as it occurs in the collection; with unique ids the result has unique ids |
| `Hierarchy.DescendantIdsExact` | src/contexts/ElementsContext.tsx:79-85 | `getChildrenIds(x)` collects exactly the ids whose ancestor chain passes through `x` |
| `Hierarchy.ReparentAcyclic` | src/contexts/ElementsContext.tsx:179-186 | giving one id a parent outside its own subtree, with every other parent kept, leaves the hierarchy acyclic |
| `Store.ClockId` | src/contexts/ElementsContext.tsx:50-52 | the generated id is the type tag followed by a non-empty run of decimal digits only, which reads back as the clock value |
| `Store.Add` | src/contexts/ElementsContext.tsx:48-56 | the element is appended at the end and earlier elements are unchanged; an empty id is replaced by the clock id; the selection is untouched |
| `Store.AddKeepsLookups` | src/contexts/ElementsContext.tsx:54 | every id present before an add is looked up to the same element after it |
| `Store.AddUniqueIff` | src/contexts/ElementsContext.tsx:54 | the ids stay unique after an add exactly when the added id was new (nothing checks it) |
| `Store.Update` | src/contexts/ElementsContext.tsx:59-70 | only the first element with the id is replaced and the length is kept; an unknown id changes nothing; a selected element with that id is refreshed |
| `Store.UpdateThenFind` | src/contexts/ElementsContext.tsx:59-70 | after an update the id is looked up to the new element, and every other id to what it was before |
| `Store.DoomedIds` | src/contexts/ElementsContext.tsx:87-88 | `idsToDelete` holds exactly the id and its descendants |
| `Store.Scrub` | src/contexts/ElementsContext.tsx:94-112 | a survivor keeps every field except its flow references; `next` stays present or absent, and keeps the order and number of occurrences of every entry not removed while losing every removed one; `next_ok` and `next_ko` are each kept unchanged unless they name a removed id (an empty reference is always kept), and are deleted otherwise |
| `Store.ScrubbedIsScrub` | src/contexts/ElementsContext.tsx:94-112 | the field-by-field description of the scrub determines the survivor uniquely: any element that meets it is the scrubbed one |
| `Store.Survivors` | src/contexts/ElementsContext.tsx:91 | the filter keeps exactly the elements whose id is not removed, in order, and keeps the ids unique |
| `Store.Delete` | src/contexts/ElementsContext.tsx:73-122 | an unknown id changes nothing; the result is no longer than before; the selection is cleared exactly when the selected id lies in the removed subtree |
| `Store.DeleteSurvivor` | src/contexts/ElementsContext.tsx:91-112 | every survivor is the scrubbed form of an element outside the removed subtree |
| `Store.DeleteRemovesExactlySubtree` | src/contexts/ElementsContext.tsx:75-91 | after a delete the ids present are exactly the old ids outside the subtree of the deleted id |
| `Store.DeleteKeepsOrder` | src/contexts/ElementsContext.tsx:91 | the survivors keep their original relative order |
| `Store.DeleteLeavesNoDangling` | src/contexts/ElementsContext.tsx:94-112 | no survivor's `next`, `next_ok`, `next_ko` or `parent` names a removed id |
| `Store.DeleteOnlyScrubsFlow` | src/contexts/ElementsContext.tsx:94-112 | every survivor is its original element with each flow field scrubbed on its own: `next` filtered in order with its repetitions, `next_ok` / `next_ko` kept unchanged unless they name an id of the removed subtree |
| `Store.DeletePreservesWellFormed` | src/contexts/ElementsContext.tsx:73-122 | a delete keeps the ids unique and the hierarchy acyclic |
| `Store.Reparent` | src/contexts/ElementsContext.tsx:179-184 | only the `parent` field changes, it changes on every element holding the moved id, and every other element is identical |
| `Store.Move` | src/contexts/ElementsContext.tsx:165-188 | a refused move returns the state unchanged; an accepted one reparents; moving to `null` or `""` is never refused; moving an element below itself is refused; the selection is kept |
| `Store.ClimbsToIffSubtree` | src/contexts/ElementsContext.tsx:167-176 | the guard's walk up from the new parent meets the moved id exactly when the new parent lies in the moved element's subtree |
| `Store.MoveRejectsExactlyCycles` | src/contexts/ElementsContext.tsx:166-177 | a move is refused exactly when the new parent lies in the moved element's own subtree |
| `Store.MoveThenUp` | src/contexts/ElementsContext.tsx:179-186 | after an accepted move the moved id hangs from the new parent and every other id keeps its parent |
| `Store.MovePreservesWellFormed` | src/contexts/ElementsContext.tsx:165-188 | an accepted move keeps the hierarchy acyclic and the ids unique |
| `Store.Search` | src/contexts/ElementsContext.tsx:191-198 | a blank query finds nothing; otherwise the result holds exactly the elements whose lower-cased title or id contains the lower-cased query, in collection order, each as often as it occurs in the collection |
| `Store.SearchMeansSubstring` | src/contexts/ElementsContext.tsx:193-197 | a search finds exactly the elements where the lower-cased query occurs as a substring of the lower-cased title or id |
| `Store.SearchFindsById` | src/contexts/ElementsContext.tsx:196 | searching for an element's own non-blank id finds that element |
| `Tree.BuildTree` | src/contexts/ElementsContext.tsx:135-141 | the top nodes are exactly the children of the given parent, in collection order |
| `Tree.BuildTreeNested` | src/contexts/ElementsContext.tsx:135-141 | at every depth a node's children are exactly the direct children of its element, in collection order |
| `Tree.TreeData` | src/contexts/ElementsContext.tsx:144-146 | the top nodes are exactly the elements with a `null` parent, in collection order, and the nesting below them follows `parent` links at every depth |
| `Tree.TreeSound` | src/contexts/ElementsContext.tsx:135-141 | every element shown below a parent hangs from it through `parent` links |
| `Tree.TreeComplete` | src/contexts/ElementsContext.tsx:135-141 | every element hanging from a parent is shown below it |
| `Tree.TreeShowsExactlyRooted` | src/contexts/ElementsContext.tsx:144-146 | the tree view shows exactly the elements whose parent chain ends at a `null` parent |
| `Tree.DanglingParentHidden` | src/contexts/ElementsContext.tsx:144-146 | an element whose parent id names no element is not in the tree view |
| `Tree.HangsFromIsDescendant` | src/contexts/ElementsContext.tsx:135-141 | hanging from an element in the tree is the same as descending from it |
| `Tree.TreeShowsOnce` | src/contexts/ElementsContext.tsx:135-141 | on a well-formed collection no element appears twice in the tree below any parent |
| `Graph.Succ` | src/components/graph/GraphView.tsx:115-121 | an id that no element holds has no successors |
| `Graph.Dfs` | src/components/graph/GraphView.tsx:113-122 | the walk only adds to what it has visited and collected; a visited or unknown id changes nothing; entering a new id collects its element next |
| `Graph.DfsAll` | src/components/graph/GraphView.tsx:119-121 | walking a list of successors only adds to what has been visited and collected |
| `Graph.Subgraph` | src/components/graph/GraphView.tsx:110-125 | the result has no repeated id; each element is the one found for its id; it is empty exactly when the start id is unknown; otherwise it starts with the start element |
| `Graph.DfsClosed` | src/components/graph/GraphView.tsx:113-122 | every existing successor of a newly visited id is visited too, so the walk is closed under flow links |
| `Graph.DfsSound` | src/components/graph/GraphView.tsx:113-122 | every id the walk visits is reachable from its start |
| `Graph.SubgraphExact` | src/components/graph/GraphView.tsx:110-125 | the subgraph holds exactly the ids reachable from the start along `next`, `next_ok` and `next_ko`, cycles included |
| `Graph.GraphNodes` | src/components/graph/GraphView.tsx:131-134 | with no selection (or an empty id) nothing is shown; otherwise exactly the ids reachable from the selected one are shown |
| `Graph.PlainEdges` | src/components/graph/GraphView.tsx:160-180 | the plain edges are exactly the edges `src-tgt` for the `next` entries that are shown |
| `Graph.PlainEdgesFollowNext` | src/components/graph/GraphView.tsx:160-180 | there is one plain edge per shown `next` entry, in the order of `next` and with its repetitions: the i-th edge leads to the i-th shown entry |
| `Graph.FlagEdge` | src/components/graph/GraphView.tsx:182-216 | a `next_ok` (or `next_ko`) reference gives at most one edge, and one exactly when it is set, not empty and shown |
| `Graph.EdgesOf` | src/components/graph/GraphView.tsx:158-217 | an element's edges are exactly its flow links to shown nodes, each with its kind and its id |
| `Graph.EdgesOfOrder` | src/components/graph/GraphView.tsx:158-217 | an element's edges are its plain edges first, followed by at most two labelled edges, the OK edge before the KO edge |
| `Graph.EdgesAmong` | src/components/graph/GraphView.tsx:158-218 | the edge list is the union of the edges of the shown nodes |
| `Graph.EdgesExact` | src/components/graph/GraphView.tsx:158-218 | an edge is drawn exactly for each flow link between two shown nodes |
| `Graph.EdgesStayInside` | src/components/graph/GraphView.tsx:162-199 | both ends of every edge are shown, and its id is `src-tgt`, `src-ok-tgt` or `src-ko-tgt` |
| `Graph.EdgeIdsCollide` | src/components/graph/GraphView.tsx:164-183 | a plain edge to `ok-b` and an OK edge to `b` from the same source get the same id |
| `Editor.GenPrefix` | src/components/editor/ElementEditor.tsx:50 | `generateId`'s prefix is the first four characters of the type tag |
| `Editor.PrefixesDisagree` | src/components/editor/ElementEditor.tsx:82-91 | `typePrefix` and the four-character prefix agree only for `probleme` and `etat` |
| `Editor.SuffixValuesCover` | src/components/editor/ElementEditor.tsx:51-58 | `existingIds` holds the suffix of every same-kind id with the prefix and only such suffixes, and is empty exactly when there is no such id |
| `Editor.MaxOrZero` | src/components/editor/ElementEditor.tsx:60 | the result bounds every value and is one of them, or 0 for an empty list |
| `Editor.GenerateId` | src/components/editor/ElementEditor.tsx:49-62 | the generated id is the four-character prefix followed by a non-empty run of decimal digits |
| `Editor.GenerateIdExceeds` | src/components/editor/ElementEditor.tsx:55-61 | the generated suffix is above the suffix of every same-kind id with the prefix, and is 1 when there is no such id |
| `Editor.GenerateIdFollowsMax` | src/components/editor/ElementEditor.tsx:49-62 | the generated id is the prefix and the decimal rendering of its suffix, and the suffix is 1 or one more than the suffix of an existing same-kind id with the prefix; with `GenerateIdExceeds`, it is one more than the largest such suffix |
| `Editor.GenerateIdFreshForKind` | src/components/editor/ElementEditor.tsx:49-62 | no element of the same kind already holds the generated id |
| `Editor.LastFive` | src/components/editor/ElementEditor.tsx:75 | `slice(-5)` keeps the last five characters, or the whole string if it is shorter |
| `Editor.ChangeType` | src/components/editor/ElementEditor.tsx:70-76 | choosing a new type sets it and gives the form an id made of `typePrefix` and one to five digits; choosing the current type changes nothing |
| `Editor.ChangeTypeReadsClock` | src/components/editor/ElementEditor.tsx:70-76 | the digits after `typePrefix` in the new id are worth the clock reading modulo 100000, that is its last five decimal digits |
| `Editor.LoadForm` | src/components/editor/ElementEditor.tsx:24-46 | a selection loads that element's form in edit mode; the add form loads the id `generateId` gives for the previous type, a `null` parent, the `categorie` type, an empty title, no `next`, empty `next_ok` / `next_ko` and an unchecked `usedoc`; otherwise nothing changes |
| `Editor.LoadFormRoundTrip` | src/components/editor/ElementEditor.tsx:24-46 | the form loaded for a canonical selected element saves back to that element, and the form loaded for adding is refused on submit for its empty title |
| `Editor.ElementOf` | src/components/editor/ElementEditor.tsx:104-125 | the built element keeps id, type, title and parent, and has an optional field exactly when its kind allows it and its value is set (for `usedoc`, checked) |
| `Editor.FormOf` | src/components/editor/ElementEditor.tsx:26-35 | the form loaded from an element keeps its id, type, title and parent, reads a missing `next` as `[]`, a missing `next_ok` / `next_ko` as `""`, and `usedoc` as checked exactly when it is `true` |
| `Editor.EditRoundTrip` | src/components/editor/ElementEditor.tsx:104-125 | saving an element from the form unchanged gives it back exactly when it carries only the fields its kind allows |
| `Editor.SaveIsStable` | src/components/editor/ElementEditor.tsx:104-125 | loading a saved element and saving it again changes nothing |
| `Editor.Submit` | src/components/editor/ElementEditor.tsx:93-137 | a blank title is refused and nothing is saved; otherwise the built element goes to update in edit mode and to add when adding |
| `Editor.DefaultFormRefused` | src/types/index.ts:34-43 | submitting the default form is refused because of its empty title |
| `Editor.SubmitAddAppends` | src/components/editor/ElementEditor.tsx:127-132 | saving from the add form appends the built element and keeps every earlier element |
| `Editor.PotentialParents` | src/components/editor/ElementEditor.tsx:140-153 | in edit mode every element except the edited one and its descendants is offered, in order and with its repetitions; when adding, every element is offered |
| `Editor.PickedParentKeepsWellFormed` | src/components/editor/ElementEditor.tsx:139-153 | saving with an offered parent, with the picker's "None" entry (stored as `""`, which no element holds) or with no parent keeps the hierarchy acyclic and the ids unique |
| `Editor.PickedNoneHidesElement` | src/components/editor/ElementEditor.tsx:236-242 | saving an edited element with the "None" entry keeps it in the collection with parent `""`, and the tree view no longer shows it |
| `SampleData.SampleIdsDistinct` | src/data/sampleData.ts:4-159 | the 25 ids of the dataset are distinct |
| `SampleData.SampleWellFormed` | src/data/sampleData.ts:4-159 | the dataset has unique ids and an acyclic parent relation |
| `Scenarios.NewEtatId` | src/data/sampleData.ts:120-159 | a new `etat` gets the id `etat4`, because `etatA` and `etatB` count as 0 |
| `Scenarios.NewCategorieId` | src/data/sampleData.ts:5-22 | a new `categorie` gets the id `cate1` even though `cat1` to `cat3` exist |
| `Scenarios.MoveUnderOwnDescendantRefused` | src/data/sampleData.ts:139-145 | moving `cat1` below `etat1` is refused, since the chain is `etat1`, `prob1`, `cat1` |
| `Scenarios.MoveAcrossCategoriesAccepted` | src/data/sampleData.ts:47-52 | moving `prob5` to `cat2` is carried out |
| `Scenarios.SubgraphOfEtat1` | src/data/sampleData.ts:139-145 | the subgraph of `etat1` is `etat1` alone, because its `verif1` names no element |
| `Scenarios.SubgraphOfProb16` | src/data/sampleData.ts:113-138 | the subgraph of `prob16` is `prob16`, `etatA`, `etatB`, `action1`, in that order |
| `Scenarios.EdgesOfProb16` | src/data/sampleData.ts:113-138 | the graph of `prob16` has the edges `prob16-etatA`, `prob16-etatB` and `etatB-action1` |
| `Scenarios.DeleteCat3` | src/data/sampleData.ts:17-138 | deleting `cat3` leaves exactly `cat1`, `cat2`, `prob1` to `prob10` and `etat1` to `etat3` |
| `Scenarios.DeleteProb5` | src/data/sampleData.ts:47-152 | deleting `prob5` removes only `prob5`, and `etat2`'s `next` becomes `[]` |
| `Scenarios.EditDropsProb16Next` | src/data/sampleData.ts:113-119 | saving `prob16` unchanged from the editor drops its `next` list |
| `SearchScenarios.SearchPression` | src/data/sampleData.ts:11-76 | searching for `pression` finds exactly `cat2`, `prob6`, `prob7`, `prob8` and `prob9` |

## Behaviour the model records as it is

The following behaviours of the source are modelled faithfully, not
corrected:

- `addElement` does not check that the new id is unused (`Store.AddUniqueIff`).
- `moveElement` accepts a new parent id that no element holds.
  - The guard's walk stops at an unknown id.
  - A new parent of `""` skips the guard and is stored as `""`, not as `null`.
  - Because the walk also stops at `""`, the guard is exact only when no
    element has the id `""` (`Store.MoveRejectsExactlyCycles`).
- `generateId` uses the first four characters of the type tag, while a
  type change uses `typePrefix` (`Editor.PrefixesDisagree`). A new
  category is therefore proposed `cate1` next to `cat1` to `cat3`
  (`Scenarios.NewCategorieId`).
- When the add form opens, the selection is already empty. Its parent is
  therefore always `null`. Its id is generated for the type the form had
  before, while the form itself is reset to `categorie` (`Editor.LoadForm`).
- Picking "None (Root Element)" in the parent picker stores the empty id
  `""` as the parent, not `null`. Saved from the editor, the element
  keeps that parent. Because no element holds `""`, the tree view then no
  longer shows the element or anything below it
  (`Editor.PickedNoneHidesElement`, `Tree.DanglingParentHidden`).
- Saving from the editor drops every field the element's kind does not
  allow. For example, `prob16` loses its `next` (`Editor.EditRoundTrip`,
  `Scenarios.EditDropsProb16Next`).
- The tree view omits elements whose parent chain ends at a parent id that
  names no element (`Tree.TreeShowsExactlyRooted`).
- Edge ids can collide. For example, a `next` target `ok-b` from `a` gives
  the same id as an OK edge from `a` to `b`. The model keeps ids as the
  source builds them (`Graph.EdgeIdsCollide`).

## Left out

- Loading from and saving to `localStorage`, the `JSON.parse` fallback, and `exportJson`. These are browser I/O. The dataset is taken as the initial collection.
- Toasts and console logging. They are side effects only; a refused operation returns its input state.
- The dagre layout, node positions, colours and every React component, hook and rendering detail. The tree view's drag-and-drop, the search results list, the confirm dialog, the header and the app shell only forward to the store.
- `Date.now()`. It is a `now: nat` parameter of `Store.Add`, `Editor.ChangeType` and `Editor.Submit`.
- `addElement` writes the generated id into the caller's object. The model returns a new element instead.
- `handleInputChange`'s generic field edits and the checkbox. Only the type change, which also replaces the id, is modelled. The id input and the type select are disabled in edit mode, so the program changes the type only while adding; no lemma combines a type change with an edit-mode save.
- `Text.ParseRendered`: models `parseInt` only for a leading run of decimal digits. Leading white space, signs and the `0x` hexadecimal prefix are not modelled. `parseInt` also reads ids typed by hand, where these can occur (see `Editor.GenerateId`).
- `Editor.GenerateId`, `Editor.GenerateIdExceeds`, `Editor.GenerateIdFollowsMax` and `Editor.GenerateIdFreshForKind` treat suffixes as unbounded naturals. The source computes with JavaScript doubles. From 2^53 on, `max + 1` can equal `max`: beside an existing id `etat9007199254740992` the source generates that same id again, which the freshness and "above every suffix" lemmas rule out. From 10^21 on, the template string renders the number in exponent form, not as a run of digits.
- `Editor.GenerateId`: `parseInt` honours a `0x` prefix, so a hand-typed id `etat0x1f` has suffix 31 in the source and 0 here.
- `Editor.GenerateId`: a suffix with a sign or leading white space reads as 0 here, whereas `parseInt("-3")` is -3 in the source; with only such ids present the source can generate a suffix of 0 or below, which the model does not.
- `Text.Lower`: folds ASCII letters only, not the rest of Unicode. This matters for titles with accented capitals.
- `Store.Delete`: requires unique ids and an acyclic hierarchy, so that `Height` serves as the termination measure. The source needs less. `getChildrenIds(id)` loops only when `id` lies on a `parent` cycle, or when a duplicate id makes an element its own descendant, as in `[a (root), a (parent a)]`. Deleting an element that is off a cycle terminates in the source. Cyclic collections and duplicate ids are not modelled.
- `Store.DoomedIds`: requires unique ids and an acyclic hierarchy, for the reason given for `Store.Delete`.
- `Tree.BuildTree`: requires an acyclic hierarchy with unique ids, so that the height of an element can serve as the termination measure. Called for an element on a `parent` cycle, `buildTree` does not terminate.
- `Tree.TreeData`: requires an acyclic hierarchy with unique ids, so that the same measure applies. The source needs less. `getTreeData` starts from `null` and only enters elements whose parent chain ends at `null`. With unique ids it therefore terminates on a cyclic collection and simply omits the cycle's members. Only duplicate ids can make it loop. The model does not cover cyclic collections.
- `Tree.BuildTreeNested`: requires an acyclic hierarchy with unique ids, for the same reason as `Tree.BuildTree`.
- `Editor.PotentialParents`: requires unique ids and an acyclic hierarchy in edit mode, for the reason given for `Store.Delete`: `getDescendantIds` recurses like `getChildrenIds`.
- `Store.Move`: requires an acyclic hierarchy. The source's guard loops forever if the new parent's chain enters a cycle that avoids the moved id.
- `Store.MoveRejectsExactlyCycles`: assumes that no element has the id `""`. The source's walk stops at `""`, so such an element breaks the equivalence.
- `Store.ClimbsToIffSubtree`: assumes that no element has the id `""`, for the same reason.
- `Store.MovePreservesWellFormed`: assumes that no element has the id `""`. Moving below `""` when some element holds `""` can close a cycle.
- `Graph.Subgraph`: states the first element and the exact set of elements, not the full pre-order in general. The order is proved only for the dataset (`Scenarios.SubgraphOfProb16`).
- Stack depth of the recursive walks and the JavaScript number range of `Date.now()` are not modelled. Numbers are unbounded naturals.
