/** The add/edit expense dialog's form state
    (frontend/src/components/ExpenseFormModal.jsx). The id fields hold the
    text a `<select>` reports ("" when nothing is chosen); a prefilled id is
    held as its decimal text, which `parseInt` and truthiness treat exactly
    like the number the component stores there. */
module ExpenseForm {
  import opened Wrappers
  import opened Seqs
  import opened Records
  import opened Numbers

  datatype FormData = FormData(
    title: string,
    amount: Option<int>,
    purchaseDate: int,
    categoryId: string,
    subCategoryId: string,
    phaseId: string,
    tags: seq<int>,
    notes: string)

  /** The form for a new expense, dated `today`: everything else empty. */
  function NewForm(today: int): (r: FormData)
    ensures r.title == "" && r.amount.None? && r.notes == "" && r.tags == []
    ensures r.categoryId == "" && r.subCategoryId == "" && r.phaseId == ""
    ensures r.purchaseDate == today
  {
    FormData("", None, today, "", "", "", [], "")
  }

  /** `rel?.id || ''`: a missing relation and the id 0 give the empty field. */
  function IdField(ref: Option<Ref>): (r: string)
    ensures r == "" <==> ref.None? || ref.value.id == 0
  {
    match ref
    case Some(x) => if x.id != 0 then IntToString(x.id) else ""
    case None => ""
  }

  function TagIds(tags: seq<Ref>): (r: seq<int>)
    ensures |r| == |tags| && forall i :: 0 <= i < |r| ==> r[i] == tags[i].id
  {
    seq(|tags|, i requires 0 <= i < |tags| => tags[i].id)
  }

  /** The form opened on an existing expense. */
  function Prefill(e: Expense): (r: FormData)
    ensures r.title == e.title && r.amount == Some(e.amount) && r.purchaseDate == e.purchaseDate
    ensures r.categoryId == IdField(e.category) && r.subCategoryId == IdField(e.subCategory)
    ensures r.phaseId == IdField(e.phase)
    ensures r.tags == TagIds(e.tags)
    ensures r.notes == (if e.notes.Some? then e.notes.value else "")
  {
    FormData(e.title, Some(e.amount), e.purchaseDate,
             IdField(e.category), IdField(e.subCategory), IdField(e.phase),
             TagIds(e.tags), if e.notes.Some? then e.notes.value else "")
  }

  /** A change event from one of the inputs. */
  datatype FormUpdate =
    | SetTitle(text: string)
    | SetAmount(value: Option<int>)
    | SetPurchaseDate(day: int)
    | SetCategoryId(text: string)
    | SetSubCategoryId(text: string)
    | SetPhaseId(text: string)
    | SetNotes(text: string)

  /** `handleChange`: sets the named field; choosing a category also
      clears the sub-category. */
  function HandleChange(form: FormData, u: FormUpdate): (r: FormData)
    ensures u.SetCategoryId? ==> r == form.(categoryId := u.text, subCategoryId := "")
    ensures u.SetSubCategoryId? ==> r == form.(subCategoryId := u.text)
    ensures u.SetPhaseId? ==> r == form.(phaseId := u.text)
    ensures u.SetTitle? ==> r == form.(title := u.text)
    ensures u.SetNotes? ==> r == form.(notes := u.text)
    ensures u.SetAmount? ==> r == form.(amount := u.value)
    ensures u.SetPurchaseDate? ==> r == form.(purchaseDate := u.day)
  {
    match u
    case SetTitle(t) => form.(title := t)
    case SetAmount(a) => form.(amount := a)
    case SetPurchaseDate(d) => form.(purchaseDate := d)
    case SetCategoryId(c) => form.(categoryId := c, subCategoryId := "")
    case SetSubCategoryId(c) => form.(subCategoryId := c)
    case SetPhaseId(p) => form.(phaseId := p)
    case SetNotes(n) => form.(notes := n)
  }

  /** A chosen sub-category never survives a change of category, even a
      change back to the same one. */
  lemma CategoryChangeClearsSubCategory(form: FormData, a: string, b: string)
    ensures HandleChange(HandleChange(form, SetCategoryId(a)), SetCategoryId(b)).subCategoryId == ""
    ensures HandleChange(form, SetCategoryId(a)).subCategoryId == ""
  {
  }

  /** `toggleTag(tagId)`: a chosen tag is removed, another one appended. */
  function ToggleTag(form: FormData, tagId: int): (r: FormData)
    ensures r == form.(tags := r.tags)
    ensures tagId in form.tags ==> tagId !in r.tags && r.tags == Filter(form.tags, Differs(tagId))
    ensures tagId !in form.tags ==> r.tags == form.tags + [tagId]
    ensures forall t :: t in form.tags && t != tagId ==> t in r.tags
    ensures forall t :: t in r.tags ==> t in form.tags || t == tagId
  {
    var tags := Toggle(form.tags, tagId);
    assert forall t :: t in tags ==> t in form.tags || t == tagId by {
      forall t | t in tags ensures t in form.tags || t == tagId {
        var i :| 0 <= i < |tags| && tags[i] == t;
      }
    }
    assert forall t :: t in form.tags && t != tagId ==> t in tags by {
      forall t | t in form.tags && t != tagId ensures t in tags {
        var i :| 0 <= i < |form.tags| && form.tags[i] == t;
      }
    }
    form.(tags := tags)
  }

  /** Toggling a tag that is not chosen twice gives the form back. */
  lemma ToggleTagTwiceRestores(form: FormData, tagId: int)
    requires tagId !in form.tags
    ensures ToggleTag(ToggleTag(form, tagId), tagId) == form
  {
    ToggleTwiceRestores(form.tags, tagId);
  }

  /** The body sent to the server. `None` stands for `null`, and for a
      `NaN` from `parseInt`/`parseFloat`, which the JSON body sends as `null`. */
  datatype Payload = Payload(
    title: string,
    amount: Option<int>,
    purchaseDate: int,
    categoryId: Option<int>,
    subCategoryId: Option<int>,
    phaseId: Option<int>,
    tags: seq<int>,
    notes: string)

  /** `formData.x ? parseInt(formData.x) : null` */
  function OptionalId(text: string): (r: Option<int>)
    ensures text == "" ==> r.None?
    ensures text != "" ==> r == ParseInt(text)
  {
    if text != "" then ParseInt(text) else None
  }

  /** The payload of `handleSubmit`. */
  function ToPayload(form: FormData): (r: Payload)
    ensures r.categoryId == ParseInt(form.categoryId)
    ensures r.subCategoryId == OptionalId(form.subCategoryId) && r.phaseId == OptionalId(form.phaseId)
    ensures r.title == form.title && r.amount == form.amount && r.purchaseDate == form.purchaseDate
    ensures r.tags == form.tags && r.notes == form.notes
  {
    Payload(form.title, form.amount, form.purchaseDate, ParseInt(form.categoryId),
            OptionalId(form.subCategoryId), OptionalId(form.phaseId), form.tags, form.notes)
  }

  /** The id a relation holds, as the payload sends it back: `null` for a
      missing relation and for the id 0, which the prefill turned into "". */
  function SentId(ref: Option<Ref>): Option<int> {
    if ref.Some? && ref.value.id != 0 then Some(ref.value.id) else None
  }

  /** Saving an edited expense without touching the form sends back the
      relations and tags it was opened with. */
  lemma PrefillPayloadRoundTrip(e: Expense)
    ensures ToPayload(Prefill(e)).subCategoryId == SentId(e.subCategory)
    ensures ToPayload(Prefill(e)).phaseId == SentId(e.phase)
    ensures ToPayload(Prefill(e)).categoryId == SentId(e.category)
    ensures ToPayload(Prefill(e)).tags == TagIds(e.tags)
    ensures ToPayload(Prefill(e)).amount == Some(e.amount)
  {
    if e.category.Some? { ParseIntOfIntToString(e.category.value.id); }
    if e.subCategory.Some? { ParseIntOfIntToString(e.subCategory.value.id); }
    if e.phase.Some? { ParseIntOfIntToString(e.phase.value.id); }
    assert ParseInt("") == None;
  }

  function CategoryIdIs(id: int): Category -> bool {
    (c: Category) => c.id == id
  }

  /** The sub-category choices: those of the first category whose id is the
      chosen one, and none when the field does not parse or no category
      has that id. */
  function SubCategoryOptions(categories: seq<Category>, categoryId: string): (r: seq<SubCategory>)
    ensures ParseInt(categoryId).None? ==> r == []
    ensures ParseInt(categoryId).Some? && (forall i :: 0 <= i < |categories| ==> categories[i].id != ParseInt(categoryId).value)
      ==> r == []
    ensures forall i :: (ParseInt(categoryId).Some? && 0 <= i < |categories| && categories[i].id == ParseInt(categoryId).value
                         && forall j :: 0 <= j < i ==> categories[j].id != categories[i].id) ==> r == categories[i].subCategories
  {
    match ParseInt(categoryId)
    case None => []
    case Some(id) =>
      match FindFirst(categories, CategoryIdIs(id))
      case Some(c) => c.subCategories
      case None => []
  }

  /** The sub-category choices of a form prefilled from an expense are those
      of the expense's own category. */
  lemma PrefilledSubCategoryOptions(categories: seq<Category>, e: Expense, i: int)
    requires e.category.Some? && e.category.value.id != 0
    requires 0 <= i < |categories| && categories[i].id == e.category.value.id
    requires forall j :: 0 <= j < i ==> categories[j].id != categories[i].id
    ensures SubCategoryOptions(categories, Prefill(e).categoryId) == categories[i].subCategories
  {
    ParseIntOfIntToString(e.category.value.id);
  }
}
