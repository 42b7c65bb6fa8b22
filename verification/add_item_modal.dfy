/** The add/edit item form (components/AddItemModal.tsx): its opening
    state, the chip toggles, the colour list editing, the photo analysis
    and the submission that builds the saved item. */
module ItemForm {
  import opened Wrappers
  import opened Types
  import opened Seqs

  /** The form's fields; the optional item fields are plain strings here. */
  datatype Form = Form(
    photo: string,
    category: Category,
    colors: seq<string>,
    occasions: seq<Occasion>,
    seasons: seq<Season>,
    brand: string,
    size: string,
    purchaseDate: string)

  /** The form as it opens: the edited item's fields, each absent optional
      field as the empty string; a new item starts as a blank shirt. */
  function InitialForm(editItem: Option<ClothingItem>): (f: Form)
    ensures editItem.None? ==>
      && f.photo == "" && f.category == Shirt
      && f.colors == [] && f.occasions == [] && f.seasons == []
      && f.brand == "" && f.size == "" && f.purchaseDate == ""
    ensures editItem.Some? ==>
      && f.photo == editItem.value.photo && f.category == editItem.value.category
      && f.colors == editItem.value.colors && f.occasions == editItem.value.occasions
      && f.seasons == editItem.value.seasons
    ensures editItem.Some? && editItem.value.brand.Some? ==> f.brand == editItem.value.brand.value
    ensures editItem.Some? && editItem.value.brand.None? ==> f.brand == ""
    ensures editItem.Some? && editItem.value.size.Some? ==> f.size == editItem.value.size.value
    ensures editItem.Some? && editItem.value.size.None? ==> f.size == ""
    ensures editItem.Some? && editItem.value.purchaseDate.Some? ==> f.purchaseDate == editItem.value.purchaseDate.value
    ensures editItem.Some? && editItem.value.purchaseDate.None? ==> f.purchaseDate == ""
  {
    match editItem
    case None => Form("", Shirt, [], [], [], "", "", "")
    case Some(e) =>
      Form(e.photo, e.category, e.colors, e.occasions, e.seasons,
           e.brand.GetOr(""), e.size.GetOr(""), e.purchaseDate.GetOr(""))
  }

  /** A chip toggle: drop every copy of a selected value, or append an unselected one. */
  function Toggle<T(==)>(xs: seq<T>, x: T): (r: seq<T>)
    ensures x in r <==> x !in xs
    ensures forall i :: 0 <= i < |xs| && xs[i] != x ==> xs[i] in r
    ensures forall i :: 0 <= i < |r| ==> r[i] == x || r[i] in xs
    ensures NoDuplicates(xs) ==> NoDuplicates(r)
    ensures x !in xs ==> r == xs + [x]
    ensures x in xs ==> IsSubsequence(r, xs)
  {
    if x in xs then
      var r := Filter(xs, y => y != x);
      FilterIsSubsequence(xs, y => y != x);
      assert NoDuplicates(xs) ==> NoDuplicates(r) by {
        if NoDuplicates(xs) { SubsequenceNoDuplicates(r, xs); }
      }
      r
    else
      xs + [x]
  }

  /** Selecting and then deselecting a value leaves the selection as it was. */
  lemma ToggleTwice<T>(xs: seq<T>, x: T)
    requires x !in xs
    ensures Toggle(Toggle(xs, x), x) == xs
  {
    FilterAppend(xs, [x], y => y != x);
    FilterKeepsAll(xs, y => y != x);
  }

  function ToggleOccasion(form: Form, occasion: Occasion): Form
  {
    form.(occasions := Toggle(form.occasions, occasion))
  }

  function ToggleSeason(form: Form, season: Season): Form
  {
    form.(seasons := Toggle(form.seasons, season))
  }

  /** `colors.filter((_, idx) => idx !== i)`, walking the indices. */
  function RemoveAt<T>(s: seq<T>, i: int): (r: seq<T>)
    ensures 0 <= i < |s| ==> r == s[..i] + s[i + 1..]
    ensures !(0 <= i < |s|) ==> r == s
    decreases |s|
  {
    if |s| == 0 then []
    else (if i == 0 then [] else [s[0]]) + RemoveAt(s[1..], i - 1)
  }

  /** The "+ Add" chip: the prompt's answer is appended unless it was
      cancelled or left empty. */
  function AddColor(colors: seq<string>, entered: Option<string>): (r: seq<string>)
    ensures |r| == |colors| || |r| == |colors| + 1
    ensures r[..|colors|] == colors
    ensures |r| == |colors| + 1 <==> entered.Some? && entered.value != ""
    ensures |r| == |colors| + 1 ==> r[|colors|] == entered.value
  {
    if entered.Some? && entered.value != "" then colors + [entered.value] else colors
  }

  /** What the image analysis reports: a category and the dominant colours. */
  datatype Detection = Detection(category: Category, colors: seq<string>)

  /** A chosen photo replaces the current one and is analysed; a successful
      analysis overwrites the category and colours, a failed one changes
      nothing else. */
  function ChoosePhoto(form: Form, compressed: string, detection: Option<Detection>): (f: Form)
    ensures f.photo == compressed
    ensures f.occasions == form.occasions && f.seasons == form.seasons
    ensures f.brand == form.brand && f.size == form.size && f.purchaseDate == form.purchaseDate
    ensures detection.None? ==> f == form.(photo := compressed)
    ensures detection.Some? ==> f.category == detection.value.category && f.colors == detection.value.colors
  {
    var withPhoto := form.(photo := compressed);
    match detection
    case None => withPhoto
    case Some(d) => withPhoto.(category := d.category, colors := d.colors)
  }

  /** Submitting: nothing without a photo; otherwise the item built from
      the form. An edited item keeps its id and creation time unless they
      are falsy (empty id, time 0), which are replaced like a new item's. */
  function Submit(form: Form, editItem: Option<ClothingItem>, freshId: string, now: int): (r: Option<ClothingItem>)
    ensures r.None? <==> form.photo == ""
    ensures r.Some? ==> InitialForm(Some(r.value)) == form
    ensures r.Some? && editItem.Some? && editItem.value.id != "" ==> r.value.id == editItem.value.id
    ensures r.Some? && editItem.Some? && editItem.value.createdAt != 0 ==> r.value.createdAt == editItem.value.createdAt
    ensures r.Some? && editItem.None? ==> r.value.id == freshId && r.value.createdAt == now
    ensures r.Some? && (editItem.None? || editItem.value.id == "") ==> r.value.id == freshId
    ensures r.Some? && (editItem.None? || editItem.value.createdAt == 0) ==> r.value.createdAt == now
  {
    if form.photo == "" then None
    else
      var id := if editItem.Some? && editItem.value.id != "" then editItem.value.id else freshId;
      var createdAt := if editItem.Some? && editItem.value.createdAt != 0 then editItem.value.createdAt else now;
      Some(ClothingItem(id, form.photo, form.category, form.colors, form.occasions, form.seasons,
        Some(form.brand), Some(form.size), Some(form.purchaseDate), createdAt))
  }

  /** Opening an item for editing and saving it untouched gives the item
      back, as long as it has a photo, a truthy id and creation time and
      all three optional fields. */
  lemma EditUnchangedRoundTrip(item: ClothingItem, freshId: string, now: int)
    requires item.photo != "" && item.id != "" && item.createdAt != 0
    requires item.brand.Some? && item.size.Some? && item.purchaseDate.Some?
    ensures Submit(InitialForm(Some(item)), Some(item), freshId, now) == Some(item)
  {
  }

  /** An absent optional field comes back from an untouched edit as the empty string. */
  lemma EditFillsAbsentBrand(item: ClothingItem, freshId: string, now: int)
    requires item.photo != "" && item.brand.None?
    ensures Submit(InitialForm(Some(item)), Some(item), freshId, now).value.brand == Some("")
  {
  }
}
