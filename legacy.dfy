/** The legacy flat category collection of src/models/Category.ts. Its categories are
    documents of their own (not nested in a roadmap) and, like their items, carry a
    store-assigned `_id`, modelled as a `nat`. Every string path is required; the only
    default is `checked: false`. */
module Legacy {
  import opened Wrappers
  import opened Schema

  datatype Item = Item(id: nat, name: string, desc: string, checked: bool)

  datatype Category = Category(id: nat, category: string, icon: string, color: string, items: seq<Item>)

  /** Plain objects as sent in a request body; a `None` flag is an undefined path. */
  datatype ItemInput = ItemInput(name: string, desc: string, checked: Option<bool>)
  datatype CategoryInput = CategoryInput(category: string, icon: string, color: string, items: seq<ItemInput>)

  /** Casting only applies the `checked` default; required paths are checked by validation. */
  function CastItem(id: nat, d: ItemInput): (r: Item) {
    Item(id, d.name, d.desc, d.checked.GetOr(false))
  }

  predicate ItemValid(i: Item) {
    Present(i.name) && Present(i.desc)
  }

  /** The category-level required paths, which every stored category satisfies
      (items can be added later without validation, see Bucket.PushItem). */
  predicate LabelsPresent(c: Category) {
    Present(c.category) && Present(c.icon) && Present(c.color)
  }

  predicate CategoryValid(c: Category) {
    LabelsPresent(c) && forall i :: 0 <= i < |c.items| ==> ItemValid(c.items[i])
  }

  /** Builds and validates an item with the store-assigned `id`. */
  function NewItem(id: nat, d: ItemInput): (r: Result<Item, SchemaError>)
    ensures r.Ok? <==> Present(d.name) && Present(d.desc)
    ensures r.Ok? ==> r.value.id == id && r.value.name == d.name && r.value.desc == d.desc
    ensures r.Ok? ==> r.value.checked == (d.checked.Some? && d.checked.value)
  {
    var i := CastItem(id, d);
    if !Present(i.name) then Err(Required("name"))
    else if !Present(i.desc) then Err(Required("desc"))
    else Ok(i)
  }

  /** Builds and validates a category; `itemIds` are the ids the store assigns to its items. */
  function NewCategory(id: nat, itemIds: seq<nat>, d: CategoryInput): (r: Result<Category, SchemaError>)
    requires |itemIds| == |d.items|
    ensures r.Ok? <==> Present(d.category) && Present(d.icon) && Present(d.color)
                       && forall i :: 0 <= i < |d.items| ==> NewItem(itemIds[i], d.items[i]).Ok?
    ensures r.Ok? ==> CategoryValid(r.value)
    ensures r.Ok? ==> r.value.id == id && r.value.category == d.category
                      && r.value.icon == d.icon && r.value.color == d.color
    ensures r.Ok? ==> |r.value.items| == |d.items|
                      && forall i :: 0 <= i < |d.items| ==> Ok(r.value.items[i]) == NewItem(itemIds[i], d.items[i])
  {
    var c := Category(id, d.category, d.icon, d.color,
                      seq(|d.items|, i requires 0 <= i < |d.items| => CastItem(itemIds[i], d.items[i])));
    assert forall i :: 0 <= i < |d.items| ==> (NewItem(itemIds[i], d.items[i]).Ok? <==> ItemValid(c.items[i]));
    if !Present(c.category) then Err(Required("category"))
    else if !Present(c.icon) then Err(Required("icon"))
    else if !Present(c.color) then Err(Required("color"))
    else if !CategoryValid(c) then Err(Required("items"))
    else Ok(c)
  }
}
