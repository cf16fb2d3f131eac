/** The REST handler of src/pages/api/bucket.ts over the legacy category collection.
    The collection is an object holding the stored categories in insertion order; each
    branch of the handler is a method that updates it in place. The store operations
    the branches use (`$push`, `$set` on the first matching array element, `$pull`,
    delete by id) are specified by the functions below, whose contracts state what each
    one changes and what it leaves alone. */
module Bucket {
  import opened Wrappers
  import opened Schema
  import opened Seqs
  import opened Legacy
  import opened Http

  /** Category `_id`s are unique in the collection. */
  predicate DistinctIds(cats: seq<Category>) {
    forall i, j :: 0 <= i < j < |cats| ==> cats[i].id != cats[j].id
  }

  predicate CategoryIdUnused(cats: seq<Category>, id: nat) {
    forall k :: 0 <= k < |cats| ==> cats[k].id != id
  }

  predicate ItemIdUnused(cats: seq<Category>, id: nat) {
    forall k, j :: 0 <= k < |cats| && 0 <= j < |cats[k].items| ==> cats[k].items[j].id != id
  }

  /** Two collections hold the same categories up to their item lists. */
  predicate SameHeaders(a: seq<Category>, b: seq<Category>) {
    |a| == |b| && forall k :: 0 <= k < |a| ==>
      a[k].id == b[k].id && a[k].category == b[k].category && a[k].icon == b[k].icon && a[k].color == b[k].color
  }

  /** Lookup by id: the position of the first category with this id. */
  function FindById(cats: seq<Category>, id: nat): (r: Option<nat>)
    ensures r.Some? ==> r.value < |cats| && cats[r.value].id == id
                        && forall k :: 0 <= k < r.value ==> cats[k].id != id
    ensures r.None? ==> CategoryIdUnused(cats, id)
  {
    FirstIndex(cats, (c: Category) => c.id == id)
  }

  /** The position of the first item with this id (what the positional `$` selects). */
  function FindItem(items: seq<Item>, id: nat): (r: Option<nat>)
    ensures r.Some? ==> r.value < |items| && items[r.value].id == id
                        && forall j :: 0 <= j < r.value ==> items[j].id != id
    ensures r.None? ==> forall j :: 0 <= j < |items| ==> items[j].id != id
  {
    FirstIndex(items, (i: Item) => i.id == id)
  }

  /** The document an update returns when asked for the new version: the category
      with this id, or null. */
  function Found(cats: seq<Category>, id: nat): (r: Option<Category>)
    ensures r.Some? <==> FindById(cats, id).Some?
    ensures r.Some? ==> r.value in cats && r.value.id == id
  {
    match FindById(cats, id)
    case Some(k) => Some(cats[k])
    case None => None
  }

  /** Pushing an item onto the category found by id: the item is appended to
      the end of that category's items; every other category is untouched; with no such
      category nothing changes. */
  function PushItem(cats: seq<Category>, categoryId: nat, item: Item): (r: seq<Category>)
    ensures SameHeaders(r, cats)
    ensures FindById(cats, categoryId).None? ==> r == cats
    ensures FindById(cats, categoryId).Some? ==>
              var k := FindById(cats, categoryId).value;
              r[k].items == cats[k].items + [item]
              && forall j :: 0 <= j < |cats| && j != k ==> r[j] == cats[j]
  {
    match FindById(cats, categoryId)
    case None => cats
    case Some(k) => cats[k := cats[k].(items := cats[k].items + [item])]
  }

  /** The filter of the flag update: the category's id is `categoryId`, when the body
      carries one (an absent id drops out of the filter), and it holds an item with id
      `itemId`. */
  predicate Selects(c: Category, categoryId: Option<nat>, itemId: nat) {
    (categoryId.None? || c.id == categoryId.value) && FindItem(c.items, itemId).Some?
  }

  /** The position of the first category the flag update's filter matches. */
  function FindMatch(cats: seq<Category>, categoryId: Option<nat>, itemId: nat): (r: Option<nat>)
    ensures r.Some? ==> r.value < |cats| && Selects(cats[r.value], categoryId, itemId)
                        && forall k :: 0 <= k < r.value ==> !Selects(cats[k], categoryId, itemId)
    ensures r.None? ==> forall k :: 0 <= k < |cats| ==> !Selects(cats[k], categoryId, itemId)
  {
    FirstIndex(cats, (c: Category) => Selects(c, categoryId, itemId))
  }

  /** With unique ids and an id given, the filter matches the category with that id
      exactly when it holds the item. */
  lemma MatchById(cats: seq<Category>, categoryId: nat, itemId: nat)
    requires DistinctIds(cats)
    ensures FindMatch(cats, Some(categoryId), itemId) ==
            match FindById(cats, categoryId)
            case None => None
            case Some(k) => if FindItem(cats[k].items, itemId).Some? then Some(k) else None
  {
  }

  /** The positional update of an item's flag: in the first category the filter matches,
      only the flag of the first item with `itemId` changes; its name and description,
      the other items and the other categories are untouched; with no match nothing
      changes. */
  function SetChecked(cats: seq<Category>, categoryId: Option<nat>, itemId: nat, checked: bool): (r: seq<Category>)
    ensures SameHeaders(r, cats)
    ensures FindMatch(cats, categoryId, itemId).None? ==> r == cats
    ensures FindMatch(cats, categoryId, itemId).Some? ==>
              var k := FindMatch(cats, categoryId, itemId).value;
              var i := FindItem(cats[k].items, itemId).value;
              |r[k].items| == |cats[k].items|
              && r[k].items[i] == Item(itemId, cats[k].items[i].name, cats[k].items[i].desc, checked)
              && (forall j :: 0 <= j < |cats[k].items| && j != i ==> r[k].items[j] == cats[k].items[j])
              && forall j :: 0 <= j < |cats| && j != k ==> r[j] == cats[j]
  {
    match FindMatch(cats, categoryId, itemId)
    case None => cats
    case Some(k) =>
      var i := FindItem(cats[k].items, itemId).value;
      var items := cats[k].items[i := cats[k].items[i].(checked := checked)];
      cats[k := cats[k].(items := items)]
  }

  /** The document the flag update returns: the matched category showing the new flag,
      or null when the filter matched nothing. */
  function Updated(before: seq<Category>, categoryId: Option<nat>, itemId: nat, checked: bool)
    : (r: Option<Category>)
    ensures r.Some? <==> FindMatch(before, categoryId, itemId).Some?
    ensures r.Some? ==>
              var k := FindMatch(before, categoryId, itemId).value;
              var i := FindItem(before[k].items, itemId).value;
              r.value.id == before[k].id && r.value.category == before[k].category
              && r.value.icon == before[k].icon && r.value.color == before[k].color
              && |r.value.items| == |before[k].items|
              && r.value.items[i] == before[k].items[i].(checked := checked)
              && (forall j :: 0 <= j < |before[k].items| && j != i ==> r.value.items[j] == before[k].items[j])
              && r.value in SetChecked(before, categoryId, itemId, checked)
  {
    match FindMatch(before, categoryId, itemId)
    case None => None
    case Some(k) => Some(SetChecked(before, categoryId, itemId, checked)[k])
  }

  /** The items without any item whose id is `id`, in their original order. */
  function Without(items: seq<Item>, id: nat): (r: seq<Item>)
    ensures forall x :: x in r <==> x in items && x.id != id
    ensures IsSubseq(r, items)
    ensures (forall j :: 0 <= j < |items| ==> items[j].id != id) ==> r == items
    decreases |items|
  {
    if items == [] then []
    else
      var init := Without(items[..|items| - 1], id);
      var last := items[|items| - 1];
      assert items == items[..|items| - 1] + [last];
      if last.id == id then
        SubseqExtendRight(init, items[..|items| - 1], last);
        init
      else
        SubseqExtendBoth(init, items[..|items| - 1], last);
        init + [last]
  }

  /** Each item without the id keeps all its copies and each item with it keeps none;
      with `IsSubseq` this fixes the result. */
  lemma {:induction false} WithoutCounts(items: seq<Item>, id: nat)
    ensures forall x :: multiset(Without(items, id))[x] == if x.id == id then 0 else multiset(items)[x]
    decreases |items|
  {
    if items != [] {
      var prefix, last := items[..|items| - 1], items[|items| - 1];
      WithoutCounts(prefix, id);
      assert items == prefix + [last];
      assert multiset(items) == multiset(prefix) + multiset{last};
      var init := Without(prefix, id);
      assert multiset(init + [last]) == multiset(init) + multiset{last};
    }
  }

  /** Pulling items by id from category `catId`: every item with that id
      leaves that category, and nothing else changes. */
  function PullItems(cats: seq<Category>, catId: nat, itemId: nat): (r: seq<Category>)
    ensures SameHeaders(r, cats)
    ensures FindById(cats, catId).None? ==> r == cats
    ensures FindById(cats, catId).Some? ==>
              var k := FindById(cats, catId).value;
              r[k].items == Without(cats[k].items, itemId)
              && forall j :: 0 <= j < |cats| && j != k ==> r[j] == cats[j]
  {
    match FindById(cats, catId)
    case None => cats
    case Some(k) => cats[k := cats[k].(items := Without(cats[k].items, itemId))]
  }

  /** Deleting a category by id: the first category with that id leaves the collection and
      the others keep their order; with no such category nothing changes. */
  function RemoveCategory(cats: seq<Category>, id: nat): (r: seq<Category>)
    ensures FindById(cats, id).None? ==> r == cats
    ensures FindById(cats, id).Some? ==> |r| == |cats| - 1
    ensures FindById(cats, id).Some? ==> var k := FindById(cats, id).value;
              r[..k] == cats[..k] && r[k..] == cats[k + 1..]
  {
    match FindById(cats, id)
    case None => cats
    case Some(k) => cats[..k] + cats[k + 1..]
  }

  /** With unique ids, deleting by id removes exactly the category with that id. */
  lemma RemoveCategoryExact(cats: seq<Category>, id: nat)
    requires DistinctIds(cats)
    ensures forall c :: c in RemoveCategory(cats, id) <==> c in cats && c.id != id
    ensures DistinctIds(RemoveCategory(cats, id))
  {
    var found := FindById(cats, id);
    if found.None? {
      forall c | c in cats
        ensures c.id != id
      {
        var j :| 0 <= j < |cats| && cats[j] == c;
      }
    } else {
      RemovedAt(cats, found.value, id);
    }
  }

  /** Removing the category at position `k`, whose id is `id`, from a collection with
      unique ids leaves exactly the categories with another id. */
  lemma RemovedAt(cats: seq<Category>, k: nat, id: nat)
    requires DistinctIds(cats) && k < |cats| && cats[k].id == id
    ensures var r := cats[..k] + cats[k + 1..];
            DistinctIds(r) && forall c :: c in r <==> c in cats && c.id != id
  {
    var r := cats[..k] + cats[k + 1..];
    assert forall j :: 0 <= j < |r| ==> r[j] == cats[if j < k then j else j + 1];
    forall c | c in cats && c.id != id
      ensures c in r
    {
      var j :| 0 <= j < |cats| && cats[j] == c;
      assert r[if j < k then j else j - 1] == c;
    }
  }

  /** The body of a POST: `data` is the new category for `type: 'category'` and
      `{ categoryId, item }` for `type: 'item'`. */
  datatype PostData = PostData(doc: CategoryInput, categoryId: nat, item: ItemInput)

  /** A request as the handler sees it; absent or empty query parameters are `None`, and
      so is an absent category id in a PUT body. `OtherRequest` stands for a method the
      handler has no branch for. */
  datatype Request =
    | GetRequest
    | PostRequest(kind: string, data: PostData)
    | PutRequest(categoryId: Option<nat>, itemId: nat, checked: bool)
    | DeleteRequest(id: Option<nat>, catId: Option<nat>, itemToDeleteId: Option<nat>)
    | OtherRequest(verb: string)

  /** The methods the handler's `switch` has a branch for. */
  predicate Handled(verb: string) {
    verb == "GET" || verb == "POST" || verb == "PUT" || verb == "DELETE"
  }

  class LegacyCollection {
    var categories: seq<Category>

    /** Ids are unique, and every stored category passed validation of its own paths. */
    ghost predicate Valid()
      reads this
    {
      DistinctIds(categories) && forall k :: 0 <= k < |categories| ==> LabelsPresent(categories[k])
    }

    constructor ()
      ensures Valid() && categories == []
    {
      categories := [];
    }

    /** Deleting every category. */
    method Clear()
      modifies this
      ensures Valid() && categories == []
    {
      categories := [];
    }

    /** Storing a list of categories that passed validation under unique ids, in order,
        in place of the current contents. */
    method Replace(stored: seq<Category>)
      requires DistinctIds(stored) && forall k :: 0 <= k < |stored| ==> LabelsPresent(stored[k])
      modifies this
      ensures Valid() && categories == stored
    {
      categories := stored;
    }

    /** GET: every stored category. The source sorts on `createdAt`, a path the legacy
        schema does not have, so only the categories and not their order are promised. */
    method Get() returns (r: Response)
      ensures r.Reply? && r.status == 200 && r.payload.Listing?
      ensures multiset(r.payload.categories) == multiset(categories)
    {
      r := Reply(200, Listing(categories));
    }

    /** POST. `freshId` is the id the store assigns to the new category or item, and
        `itemIds` the ids it assigns to the items of a new category. */
    method Post(kind: string, data: PostData, freshId: nat, itemIds: seq<nat>) returns (r: Response)
      requires Valid()
      requires kind == "category" ==> CategoryIdUnused(categories, freshId) && |itemIds| == |data.doc.items|
      requires kind == "item" ==> ItemIdUnused(categories, freshId)
      modifies this
      ensures Valid()
      ensures kind == "category" ==>
                match NewCategory(freshId, itemIds, data.doc)
                case Ok(c) => categories == old(categories) + [c] && r == Reply(201, Document(Some(c)))
                case Err(_) => categories == old(categories) && r == Reply(500, NoData)
      ensures kind == "item" ==>
                categories == PushItem(old(categories), data.categoryId, CastItem(freshId, data.item))
                && r == Reply(201, Document(Found(categories, data.categoryId)))
      ensures kind != "category" && kind != "item" ==> categories == old(categories) && r == NoResponse
    {
      if kind == "category" {
        var created := NewCategory(freshId, itemIds, data.doc);
        if created.Err? {
          return Reply(500, NoData);
        }
        categories := categories + [created.value];
        r := Reply(201, Document(Some(created.value)));
      } else if kind == "item" {
        categories := PushItem(categories, data.categoryId, CastItem(freshId, data.item));
        r := Reply(201, Document(Found(categories, data.categoryId)));
      } else {
        r := NoResponse;
      }
    }

    /** PUT: sets the flag of the first matching item and returns the updated category,
        or null when nothing matched. */
    method Put(categoryId: Option<nat>, itemId: nat, checked: bool) returns (r: Response)
      requires Valid()
      modifies this
      ensures Valid()
      ensures categories == SetChecked(old(categories), categoryId, itemId, checked)
      ensures r == Reply(200, Document(Updated(old(categories), categoryId, itemId, checked)))
    {
      var before := categories;
      categories := SetChecked(categories, categoryId, itemId, checked);
      r := Reply(200, Document(Updated(before, categoryId, itemId, checked)));
    }

    /** DELETE: with both `catId` and `itemId` the items are pulled, whatever `id` is;
        otherwise with `id` the category is deleted; otherwise 400. */
    method Delete(id: Option<nat>, catId: Option<nat>, itemId: Option<nat>) returns (r: Response)
      requires Valid()
      modifies this
      ensures Valid()
      ensures catId.Some? && itemId.Some? ==>
                categories == PullItems(old(categories), catId.value, itemId.value) && r == Reply(200, NoData)
      ensures !(catId.Some? && itemId.Some?) && id.Some? ==>
                categories == RemoveCategory(old(categories), id.value) && r == Reply(200, NoData)
      ensures !(catId.Some? && itemId.Some?) && id.None? ==>
                categories == old(categories) && r == Reply(400, NoData)
    {
      if catId.Some? && itemId.Some? {
        categories := PullItems(categories, catId.value, itemId.value);
        return Reply(200, NoData);
      }
      if id.Some? {
        RemoveCategoryExact(categories, id.value);
        categories := RemoveCategory(categories, id.value);
        return Reply(200, NoData);
      }
      r := Reply(400, NoData);
    }

    /** The handler's `switch` on the method; any other method is answered with 400. */
    method Handle(req: Request, freshId: nat, itemIds: seq<nat>) returns (r: Response)
      requires Valid()
      requires req.PostRequest? && req.kind == "category" ==>
                 CategoryIdUnused(categories, freshId) && |itemIds| == |req.data.doc.items|
      requires req.PostRequest? && req.kind == "item" ==> ItemIdUnused(categories, freshId)
      requires req.OtherRequest? ==> !Handled(req.verb)
      modifies this
      ensures Valid()
      ensures req.GetRequest? ==>
                categories == old(categories) && r.Reply? && r.status == 200 && r.payload.Listing?
                && multiset(r.payload.categories) == multiset(categories)
      ensures req.PostRequest? && req.kind == "category" ==>
                match NewCategory(freshId, itemIds, req.data.doc)
                case Ok(c) => categories == old(categories) + [c] && r == Reply(201, Document(Some(c)))
                case Err(_) => categories == old(categories) && r == Reply(500, NoData)
      ensures req.PostRequest? && req.kind == "item" ==>
                categories == PushItem(old(categories), req.data.categoryId, CastItem(freshId, req.data.item))
                && r == Reply(201, Document(Found(categories, req.data.categoryId)))
      ensures req.PostRequest? && req.kind != "category" && req.kind != "item" ==>
                categories == old(categories) && r == NoResponse
      ensures req.PutRequest? ==>
                categories == SetChecked(old(categories), req.categoryId, req.itemId, req.checked)
                && r == Reply(200, Document(Updated(old(categories), req.categoryId, req.itemId, req.checked)))
      ensures req.DeleteRequest? && req.catId.Some? && req.itemToDeleteId.Some? ==>
                categories == PullItems(old(categories), req.catId.value, req.itemToDeleteId.value)
                && r == Reply(200, NoData)
      ensures req.DeleteRequest? && !(req.catId.Some? && req.itemToDeleteId.Some?) && req.id.Some? ==>
                categories == RemoveCategory(old(categories), req.id.value) && r == Reply(200, NoData)
      ensures req.DeleteRequest? && !(req.catId.Some? && req.itemToDeleteId.Some?) && req.id.None? ==>
                categories == old(categories) && r == Reply(400, NoData)
      ensures req.OtherRequest? ==> categories == old(categories) && r == Reply(400, NoData)
    {
      match req
      case GetRequest => r := Get();
      case PostRequest(kind, data) => r := Post(kind, data, freshId, itemIds);
      case PutRequest(categoryId, itemId, checked) => r := Put(categoryId, itemId, checked);
      case DeleteRequest(id, catId, itemToDeleteId) => r := Delete(id, catId, itemToDeleteId);
      case OtherRequest(_) => r := Reply(400, NoData);
    }
  }
}
