/** The taxonomy management page: the three search boxes, the expanded
    categories, and the add/edit dialog (frontend/src/pages/Management.jsx). */
module Management {
  import opened Wrappers
  import opened Text
  import opened Seqs
  import opened Records

  // ---------------------------------------------------------------------
  // Search

  /** `sub_categories?.some(sub => sub.title.toLowerCase().includes(search))`,
      as the left-to-right scan. */
  function SomeSubCategoryMatches(subs: seq<SubCategory>, search: string): (b: bool)
    ensures b <==> exists i :: 0 <= i < |subs| && ContainsIgnoringCase(subs[i].title, search)
  {
    if subs == [] then false
    else if ContainsIgnoringCase(subs[0].title, search) then true
    else
      var b := SomeSubCategoryMatches(subs[1..], search);
      assert forall i :: 1 <= i < |subs| ==> subs[i] == subs[1..][i - 1];
      b
  }

  predicate CategoryMatches(c: Category, search: string) {
    ContainsIgnoringCase(c.title, search) || SomeSubCategoryMatches(c.subCategories, search)
  }

  function CategoryMatchesFn(search: string): Category -> bool {
    c => CategoryMatches(c, search)
  }

  function LabelMatchesFn(search: string): Label -> bool {
    (l: Label) => ContainsIgnoringCase(l.title, search)
  }

  /** `filteredCategories`: the categories whose title or some sub-category
      title contains the search text, ignoring case, in list order. */
  function FilteredCategories(categories: seq<Category>, search: string): (r: seq<Category>)
    ensures IsSelection(r, categories, KeptIndices(categories, CategoryMatchesFn(search)))
    ensures forall j :: 0 <= j < |categories| ==>
      (j in KeptIndices(categories, CategoryMatchesFn(search)) <==>
        ContainsIgnoringCase(categories[j].title, search)
        || exists i :: 0 <= i < |categories[j].subCategories|
                       && ContainsIgnoringCase(categories[j].subCategories[i].title, search))
  {
    FilterSelects(categories, CategoryMatchesFn(search));
    Filter(categories, CategoryMatchesFn(search))
  }

  /** `filteredPhases` and `filteredTags`: the labels whose own title
      contains the search text, ignoring case, in list order. */
  function FilteredLabels(labels: seq<Label>, search: string): (r: seq<Label>)
    ensures IsSelection(r, labels, KeptIndices(labels, LabelMatchesFn(search)))
    ensures forall j :: 0 <= j < |labels| ==>
      (j in KeptIndices(labels, LabelMatchesFn(search)) <==> ContainsIgnoringCase(labels[j].title, search))
  {
    FilterSelects(labels, LabelMatchesFn(search));
    Filter(labels, LabelMatchesFn(search))
  }

  /** An empty search box lists everything. */
  lemma EmptySearchKeepsAll(categories: seq<Category>, labels: seq<Label>)
    ensures FilteredCategories(categories, "") == categories
    ensures FilteredLabels(labels, "") == labels
  {
    forall c | c in categories ensures CategoryMatchesFn("")(c) {
      EmptyFoundEverywhere(c.title);
    }
    FilterKeepsAll(categories, CategoryMatchesFn(""));
    forall l | l in labels ensures LabelMatchesFn("")(l) {
      EmptyFoundEverywhere(l.title);
    }
    FilterKeepsAll(labels, LabelMatchesFn(""));
  }

  /** A search that matches a sub-category keeps its parent listed. */
  lemma MatchingSubCategoryKeepsParent(categories: seq<Category>, search: string, j: int, i: int)
    requires 0 <= j < |categories| && 0 <= i < |categories[j].subCategories|
    requires ContainsIgnoringCase(categories[j].subCategories[i].title, search)
    ensures categories[j] in FilteredCategories(categories, search)
  {
    assert CategoryMatchesFn(search)(categories[j]);
  }

  // ---------------------------------------------------------------------
  // Expanded categories

  /** `!!expanded[id]`: an id never toggled counts as collapsed. */
  predicate IsExpanded(expanded: map<int, bool>, id: int) {
    id in expanded && expanded[id]
  }

  /** `toggleCategory(id)`: flips that id's flag (an absent one becomes
      `true`) and leaves every other flag as it was. */
  function ToggleCategory(expanded: map<int, bool>, id: int): (r: map<int, bool>)
    ensures r.Keys == expanded.Keys + {id}
    ensures IsExpanded(r, id) <==> !IsExpanded(expanded, id)
    ensures forall k :: k in expanded && k != id ==> r[k] == expanded[k]
  {
    expanded[id := !IsExpanded(expanded, id)]
  }

  /** Toggling the same category twice shows every category as before. */
  lemma ToggleCategoryTwice(expanded: map<int, bool>, id: int)
    ensures forall k :: IsExpanded(ToggleCategory(ToggleCategory(expanded, id), id), k) <==> IsExpanded(expanded, k)
  {
    var once := ToggleCategory(expanded, id);
    var twice := ToggleCategory(once, id);
    forall k ensures IsExpanded(twice, k) <==> IsExpanded(expanded, k) {
      if k != id {
        assert k in twice <==> k in expanded;
      }
    }
  }

  // ---------------------------------------------------------------------
  // The add/edit dialog

  /** The dialog's `type`, together with the `data` each type is opened
      with: the edited item's fields, or the parent category's id. */
  datatype ModalKind =
    | AddCategory
    | EditCategory(id: int, description: Option<string>)
    | AddSubCategory(categoryId: int)
    | EditSubCategory(id: int, categoryId: int)
    | AddPhase
    | EditPhase(id: int)
    | AddTag
    | EditTag(id: int)

  datatype ModalConfig = ModalConfig(isOpen: bool, kind: Option<ModalKind>, inputValue: string)

  /** `openModal(type, data, initialValue)`. */
  function OpenModal(kind: ModalKind, initialValue: string): (r: ModalConfig)
    ensures r.isOpen && r.kind == Some(kind) && r.inputValue == initialValue
  {
    ModalConfig(true, Some(kind), initialValue)
  }

  /** `closeModal()`: closed, no type, no data, empty input. */
  function CloseModal(): (r: ModalConfig)
    ensures !r.isOpen && r.kind.None? && r.inputValue == ""
  {
    ModalConfig(false, None, "")
  }

  datatype Collection = Categories | SubCategories | Phases | Tags

  /** The request a submission sends: a `POST` creating an item, or a `PUT`
      renaming item `id`; both carry the title as typed. */
  datatype Request =
    | Create(collection: Collection, title: string, categoryId: Option<int>)
    | Update(collection: Collection, id: int, title: string, categoryId: Option<int>, description: Option<string>)

  function CollectionOf(kind: ModalKind): Collection {
    match kind
    case AddCategory => Categories
    case EditCategory(_, _) => Categories
    case AddSubCategory(_) => SubCategories
    case EditSubCategory(_, _) => SubCategories
    case AddPhase => Phases
    case EditPhase(_) => Phases
    case AddTag => Tags
    case EditTag(_) => Tags
  }

  predicate IsAdd(kind: ModalKind) {
    kind.AddCategory? || kind.AddSubCategory? || kind.AddPhase? || kind.AddTag?
  }

  /** The `switch` of `handleModalSubmit`. */
  function RequestFor(kind: ModalKind, title: string): (r: Request)
    ensures r.title == title && r.collection == CollectionOf(kind)
    ensures r.Create? <==> IsAdd(kind)
    ensures r.Update? ==> r.id == kind.id
    ensures r.categoryId.Some? <==> kind.AddSubCategory? || kind.EditSubCategory?
    ensures r.categoryId.Some? ==> r.categoryId.value == kind.categoryId
    ensures kind.EditCategory? ==> r.Update? && r.description == kind.description
    ensures r.Update? && !kind.EditCategory? ==> r.description.None?
  {
    match kind
    case AddCategory => Create(Categories, title, None)
    case EditCategory(id, description) => Update(Categories, id, title, None, description)
    case AddSubCategory(parent) => Create(SubCategories, title, Some(parent))
    case EditSubCategory(id, parent) => Update(SubCategories, id, title, Some(parent), None)
    case AddPhase => Create(Phases, title, None)
    case EditPhase(id) => Update(Phases, id, title, None, None)
    case AddTag => Create(Tags, title, None)
    case EditTag(id) => Update(Tags, id, title, None, None)
  }

  /** What submitting the dialog does: nothing at all for blank input;
      otherwise the request for the dialog's type (none without a type),
      after which the dialog closes. Failed requests are not modelled. */
  datatype Submission = Ignored | Submitted(request: Option<Request>, next: ModalConfig)

  function HandleModalSubmit(config: ModalConfig): (r: Submission)
    ensures r.Ignored? <==> Trim(config.inputValue) == ""
    ensures r.Submitted? ==> r.next == CloseModal()
    ensures r.Submitted? ==> (r.request.Some? <==> config.kind.Some?)
    ensures r.Submitted? && r.request.Some? ==>
      r.request.value == RequestFor(config.kind.value, config.inputValue)
  {
    if Trim(config.inputValue) == "" then Ignored
    else
      var request := if config.kind.Some? then Some(RequestFor(config.kind.value, config.inputValue)) else None;
      Submitted(request, CloseModal())
  }

  /** Input made only of white space is never submitted, and non-blank input
      is sent exactly as typed, surrounding spaces included. */
  lemma BlankInputIgnored(config: ModalConfig)
    ensures HandleModalSubmit(config).Ignored? <==> IsBlank(config.inputValue)
    ensures !IsBlank(config.inputValue) && config.kind.Some? ==>
      HandleModalSubmit(config).request.value.title == config.inputValue
  {
    TrimEmptyIff(config.inputValue);
  }

  /** The item name a dialog title uses for each collection. */
  function Noun(c: Collection): string {
    match c
    case Categories => "Category"
    case SubCategories => "Sub-Category"
    case Phases => "Phase"
    case Tags => "Tag"
  }

  /** `getModalTitle()`: the verb, then the name of the collection the
      dialog's submission is sent to. */
  function ModalTitle(kind: Option<ModalKind>): (r: string)
    ensures r == "" <==> kind.None?
    ensures kind.Some? && IsAdd(kind.value) ==> IsPrefix("Add ", r)
    ensures kind.Some? && !IsAdd(kind.value) ==> IsPrefix("Edit ", r)
    ensures kind.Some? ==>
      r == (if IsAdd(kind.value) then "Add " else "Edit ") + Noun(CollectionOf(kind.value))
  {
    match kind
    case None => ""
    case Some(k) =>
      match k
      case AddCategory => "Add Category"
      case EditCategory(_, _) => "Edit Category"
      case AddSubCategory(_) => "Add Sub-Category"
      case EditSubCategory(_, _) => "Edit Sub-Category"
      case AddPhase => "Add Phase"
      case EditPhase(_) => "Edit Phase"
      case AddTag => "Add Tag"
      case EditTag(_) => "Edit Tag"
  }

  /** Two dialogs share a title exactly when they add, or edit, the same
      kind of item. */
  lemma ModalTitleIdentifiesKind(a: ModalKind, b: ModalKind)
    ensures ModalTitle(Some(a)) == ModalTitle(Some(b)) <==>
      (IsAdd(a) <==> IsAdd(b)) && CollectionOf(a) == CollectionOf(b)
  {
  }

  /** A closed dialog has no title; an opened one always has one. */
  lemma ModalTitleFollowsDialog(kind: ModalKind, initialValue: string)
    ensures ModalTitle(CloseModal().kind) == ""
    ensures ModalTitle(OpenModal(kind, initialValue).kind) != ""
  {
  }
}
