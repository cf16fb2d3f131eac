/** The roadmap document of src/models/Roadmap.ts: a roadmap owns an ordered list of
    categories, each owning an ordered list of checklist items.

    A mongoose schema does two separate things, and the model keeps them apart:
    casting a plain object into a document fills in the defaults of undefined paths
    (`CastItem`, `CastCategory`), and validating a document rejects it when a required
    path is missing (`ItemValid`, `CategoryValid`, `RoadmapValid`). Pushing onto a
    document array casts at once; validation happens when the document is saved.
    The `New…` constructors do both, as `new Roadmap(...)` followed by `validate()` does. */
module Roadmaps {
  import opened Wrappers
  import opened Schema

  const DefaultIcon: string := "fa-star"
  const DefaultColor: string := "text-gray-500"

  datatype Item = Item(name: string, desc: string, checked: bool, link: Option<string>)

  /** `category` is the label of the category (the schema calls it that instead of `name`). */
  datatype Category = Category(category: string, icon: string, color: string, items: seq<Item>)

  /** `id` stands for the store-assigned `_id`; the creation timestamp is not modelled. */
  datatype Roadmap = Roadmap(id: nat, name: string, ownerEmail: string,
                             invitedUsers: seq<string>, categories: seq<Category>)

  /** Plain objects as handed to the schema: `None` is an undefined path. */
  datatype ItemDraft = ItemDraft(name: Option<string>, desc: Option<string>,
                                 checked: Option<bool>, link: Option<string>)
  datatype CategoryDraft = CategoryDraft(category: Option<string>, icon: Option<string>,
                                         color: Option<string>, items: seq<ItemDraft>)
  datatype RoadmapDraft = RoadmapDraft(name: Option<string>, ownerEmail: Option<string>,
                                       invitedUsers: seq<string>, categories: seq<CategoryDraft>)

  /** Casting an item applies the defaults `desc: ""` and `checked: false`; a missing
      name stays missing (the empty string) until validation rejects it. */
  function CastItem(d: ItemDraft): (r: Item) {
    Item(d.name.GetOr(""), d.desc.GetOr(""), d.checked.GetOr(false), d.link)
  }

  /** Casting a category applies the icon and colour defaults and casts every item. */
  function CastCategory(d: CategoryDraft): (r: Category) {
    Category(d.category.GetOr(""), d.icon.GetOr(DefaultIcon), d.color.GetOr(DefaultColor),
             seq(|d.items|, i requires 0 <= i < |d.items| => CastItem(d.items[i])))
  }

  predicate ItemValid(i: Item) {
    Present(i.name)
  }

  predicate CategoryValid(c: Category) {
    Present(c.category) && forall i :: 0 <= i < |c.items| ==> ItemValid(c.items[i])
  }

  /** What `save()` checks: name and owner are required, and so is every nested label
      and item name. The list of invited users is unconstrained. */
  predicate RoadmapValid(r: Roadmap) {
    Present(r.name) && Present(r.ownerEmail)
    && forall k :: 0 <= k < |r.categories| ==> CategoryValid(r.categories[k])
  }

  /** Builds and validates an item. */
  function NewItem(d: ItemDraft): (r: Result<Item, SchemaError>)
    ensures r.Ok? <==> d.name.Some? && Present(d.name.value)
    ensures r.Ok? ==> r.value.name == d.name.value
    ensures r.Ok? ==> r.value.desc == (if d.desc.Some? then d.desc.value else "")
    ensures r.Ok? ==> r.value.checked == (d.checked.Some? && d.checked.value)
    ensures r.Ok? ==> r.value.link == d.link
  {
    var i := CastItem(d);
    if ItemValid(i) then Ok(i) else Err(Required("name"))
  }

  /** Builds and validates a category with its items. */
  function NewCategory(d: CategoryDraft): (r: Result<Category, SchemaError>)
    ensures r.Ok? <==> d.category.Some? && Present(d.category.value)
                       && forall i :: 0 <= i < |d.items| ==> NewItem(d.items[i]).Ok?
    ensures r.Ok? ==> r.value.category == d.category.value
    ensures r.Ok? ==> r.value.icon == (if d.icon.Some? then d.icon.value else DefaultIcon)
    ensures r.Ok? ==> r.value.color == (if d.color.Some? then d.color.value else DefaultColor)
    ensures r.Ok? ==> |r.value.items| == |d.items|
                      && forall i :: 0 <= i < |d.items| ==> Ok(r.value.items[i]) == NewItem(d.items[i])
  {
    var c := CastCategory(d);
    assert forall i :: 0 <= i < |d.items| ==> (NewItem(d.items[i]).Ok? <==> ItemValid(c.items[i]));
    if !Present(c.category) then Err(Required("category"))
    else if !CategoryValid(c) then Err(Required("items.name"))
    else Ok(c)
  }

  /** Builds and validates a roadmap document with the store-assigned `id`. */
  function NewRoadmap(id: nat, d: RoadmapDraft): (r: Result<Roadmap, SchemaError>)
    ensures r.Ok? <==> d.name.Some? && Present(d.name.value)
                       && d.ownerEmail.Some? && Present(d.ownerEmail.value)
                       && forall k :: 0 <= k < |d.categories| ==> NewCategory(d.categories[k]).Ok?
    ensures r.Ok? ==> r.value.id == id && r.value.name == d.name.value
                      && r.value.ownerEmail == d.ownerEmail.value
    ensures r.Ok? ==> r.value.invitedUsers == d.invitedUsers
    ensures r.Ok? ==> |r.value.categories| == |d.categories|
                      && forall k :: 0 <= k < |d.categories| ==> Ok(r.value.categories[k]) == NewCategory(d.categories[k])
  {
    var r := Roadmap(id, d.name.GetOr(""), d.ownerEmail.GetOr(""), d.invitedUsers,
                     seq(|d.categories|, k requires 0 <= k < |d.categories| => CastCategory(d.categories[k])));
    assert forall k :: 0 <= k < |d.categories| ==>
      (NewCategory(d.categories[k]).Ok? <==> CategoryValid(r.categories[k]));
    if !Present(r.name) then Err(Required("name"))
    else if !Present(r.ownerEmail) then Err(Required("ownerEmail"))
    else if !RoadmapValid(r) then Err(Required("categories"))
    else Ok(r)
  }

  /** The schema enforces neither uniqueness of invited users nor that the owner is
      left out of them: a roadmap listing its owner twice as invited is accepted. */
  lemma InvitedUsersUnconstrained(id: nat, owner: string)
    requires Present(owner)
    ensures var d := RoadmapDraft(Some("Trip"), Some(owner), [owner, owner], []);
            NewRoadmap(id, d).Ok? && NewRoadmap(id, d).value.invitedUsers == [owner, owner]
  {
  }
}
