/** The seeding handler of src/pages/api/seed_test.ts: the legacy collection is emptied
    and refilled from a static list of categories, every item starting unchecked. The
    static list (src/data.ts) is a parameter here. */
module Seeding {
  import opened Wrappers
  import opened Schema
  import opened Legacy
  import opened Http
  import opened Seqs
  import Bucket

  /** An entry of the static list: items carry a name and a description only. */
  datatype SeedItem = SeedItem(name: string, desc: string)
  datatype SeedCategory = SeedCategory(category: string, icon: string, color: string, items: seq<SeedItem>)

  /** The inner map over items: same items in the same order, each with `checked: false`. */
  function FormatItems(items: seq<SeedItem>): (r: seq<ItemInput>)
    ensures |r| == |items|
    ensures forall j :: 0 <= j < |items| ==>
              r[j].name == items[j].name && r[j].desc == items[j].desc && r[j].checked == Some(false)
  {
    if items == [] then []
    else [ItemInput(items[0].name, items[0].desc, Some(false))] + FormatItems(items[1..])
  }

  /** The formatted list: the same categories in the same order, each keeping its label,
      icon and colour, with its items formatted. */
  function Format(data: seq<SeedCategory>): (r: seq<CategoryInput>)
    ensures |r| == |data|
    ensures forall i :: 0 <= i < |data| ==>
              r[i].category == data[i].category && r[i].icon == data[i].icon && r[i].color == data[i].color
              && r[i].items == FormatItems(data[i].items)
  {
    if data == [] then []
    else [CategoryInput(data[0].category, data[0].icon, data[0].color, FormatItems(data[0].items))]
         + Format(data[1..])
  }

  /** The ids the store assigns: one per document and one per item of each document. */
  predicate IdsFit(docs: seq<CategoryInput>, ids: seq<nat>, itemIds: seq<seq<nat>>) {
    |ids| == |docs| && |itemIds| == |docs|
    && forall i :: 0 <= i < |docs| ==> |itemIds[i]| == |docs[i].items|
  }

  /** Bulk insertion: every document is validated, and none is stored unless all pass. */
  function InsertMany(docs: seq<CategoryInput>, ids: seq<nat>, itemIds: seq<seq<nat>>)
    : (r: Result<seq<Category>, SchemaError>)
    requires IdsFit(docs, ids, itemIds)
    ensures r.Ok? <==> forall i :: 0 <= i < |docs| ==> NewCategory(ids[i], itemIds[i], docs[i]).Ok?
    ensures r.Ok? ==> |r.value| == |docs|
                      && forall i :: 0 <= i < |docs| ==> Ok(r.value[i]) == NewCategory(ids[i], itemIds[i], docs[i])
  {
    if docs == [] then Ok([])
    else
      match NewCategory(ids[0], itemIds[0], docs[0])
      case Err(e) => Err(e)
      case Ok(c) =>
        match InsertMany(docs[1..], ids[1..], itemIds[1..])
        case Err(e) => Err(e)
        case Ok(cs) => Ok([c] + cs)
  }

  /** Seeding is accepted exactly when every label, icon, colour, item name and item
      description of the static list is non-empty. */
  lemma {:induction false} SeedAccepted(data: seq<SeedCategory>, ids: seq<nat>, itemIds: seq<seq<nat>>)
    requires IdsFit(Format(data), ids, itemIds)
    ensures InsertMany(Format(data), ids, itemIds).Ok? <==>
              forall i :: 0 <= i < |data| ==>
                Present(data[i].category) && Present(data[i].icon) && Present(data[i].color)
                && forall j :: 0 <= j < |data[i].items| ==>
                     Present(data[i].items[j].name) && Present(data[i].items[j].desc)
  {
    var docs := Format(data);
    forall i | 0 <= i < |data|
      ensures NewCategory(ids[i], itemIds[i], docs[i]).Ok? <==>
                Present(data[i].category) && Present(data[i].icon) && Present(data[i].color)
                && forall j :: 0 <= j < |data[i].items| ==>
                     Present(data[i].items[j].name) && Present(data[i].items[j].desc)
    {
      assert forall j :: 0 <= j < |data[i].items| ==>
               (NewItem(itemIds[i][j], docs[i].items[j]).Ok? <==>
                Present(data[i].items[j].name) && Present(data[i].items[j].desc));
    }
  }

  /** What seeding stores: the static list in order, under the assigned ids, with every
      label, icon, colour, item name and description kept and every item unchecked. */
  lemma {:induction false} SeededContents(data: seq<SeedCategory>, ids: seq<nat>, itemIds: seq<seq<nat>>)
    requires IdsFit(Format(data), ids, itemIds)
    requires InsertMany(Format(data), ids, itemIds).Ok?
    ensures var stored := InsertMany(Format(data), ids, itemIds).value;
            |stored| == |data|
            && forall i :: 0 <= i < |data| ==>
                 stored[i].id == ids[i] && stored[i].category == data[i].category
                 && stored[i].icon == data[i].icon && stored[i].color == data[i].color
                 && |stored[i].items| == |data[i].items|
                 && forall j :: 0 <= j < |data[i].items| ==>
                      stored[i].items[j] == Item(itemIds[i][j], data[i].items[j].name, data[i].items[j].desc, false)
  {
    var docs := Format(data);
    var stored := InsertMany(docs, ids, itemIds).value;
    forall i | 0 <= i < |data|
      ensures stored[i].id == ids[i] && stored[i].category == data[i].category
              && stored[i].icon == data[i].icon && stored[i].color == data[i].color
              && |stored[i].items| == |data[i].items|
              && forall j :: 0 <= j < |data[i].items| ==>
                   stored[i].items[j] == Item(itemIds[i][j], data[i].items[j].name, data[i].items[j].desc, false)
    {
      assert Ok(stored[i]) == NewCategory(ids[i], itemIds[i], docs[i]);
      forall j | 0 <= j < |data[i].items|
        ensures stored[i].items[j] == Item(itemIds[i][j], data[i].items[j].name, data[i].items[j].desc, false)
      {
        assert Ok(stored[i].items[j]) == NewItem(itemIds[i][j], docs[i].items[j]);
      }
    }
  }

  /** The handler: delete every category, then insert the formatted list. The new
      contents depend on the static list and the assigned ids only, so no earlier
      category survives and seeding again gives the same contents. */
  method Seed(coll: Bucket.LegacyCollection, data: seq<SeedCategory>, ids: seq<nat>, itemIds: seq<seq<nat>>)
    returns (r: Response)
    requires IdsFit(Format(data), ids, itemIds) && Distinct(ids)
    modifies coll
    ensures coll.Valid()
    ensures match InsertMany(Format(data), ids, itemIds)
            case Ok(stored) => coll.categories == stored && r == Reply(200, NoData)
            case Err(_) => coll.categories == [] && r == Reply(500, NoData)
  {
    coll.Clear();
    var formattedData := Format(data);
    var inserted := InsertMany(formattedData, ids, itemIds);
    if inserted.Err? {
      return Reply(500, NoData);
    }
    var stored := inserted.value;
    assert forall i :: 0 <= i < |stored| ==> Ok(stored[i]) == NewCategory(ids[i], itemIds[i], formattedData[i]);
    coll.Replace(stored);
    r := Reply(200, NoData);
  }

  /** Seeding twice in a row with the same list and ids gives the same response and
      the same contents as seeding once. */
  method SeedTwice(coll: Bucket.LegacyCollection, data: seq<SeedCategory>, ids: seq<nat>, itemIds: seq<seq<nat>>)
    returns (first: Response, second: Response, once: seq<Category>)
    requires IdsFit(Format(data), ids, itemIds) && Distinct(ids)
    modifies coll
    ensures second == first && coll.categories == once
  {
    first := Seed(coll, data, ids, itemIds);
    once := coll.categories;
    second := Seed(coll, data, ids, itemIds);
  }
}
