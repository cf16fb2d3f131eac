/** The one-time copy of src/pages/api/migrate.ts: every category of the legacy flat
    collection is appended to a roadmap of the caller unless a category with the same
    label is already there, and the number appended is reported.

    The roadmap collection is a sequence of documents and the handler returns the
    collection as saved. `Merge` is the specification of the copy loop; `Migrate` is the
    handler and its loop is proved to compute `Merge`. */
module Migration {
  import opened Wrappers
  import opened Schema
  import opened Seqs
  import opened Roadmaps
  import opened Http
  import Legacy

  /** The category pushed for one legacy category, after the roadmap schema has cast it:
      label, icon, colour and the items keep their values and their order; an item's
      description has the fallback `""` and its flag the fallback `false`, which leave
      the legacy values unchanged; no item gets a link. */
  function Import(l: Legacy.Category): (c: Category)
    ensures c.category == l.category && c.icon == l.icon && c.color == l.color
    ensures |c.items| == |l.items|
    ensures forall i :: 0 <= i < |l.items| ==>
              c.items[i].name == l.items[i].name && c.items[i].desc == l.items[i].desc
              && c.items[i].checked == l.items[i].checked && c.items[i].link.None?
  {
    CastCategory(CategoryDraft(Some(l.category), Some(l.icon), Some(l.color),
      seq(|l.items|, i requires 0 <= i < |l.items| =>
        ItemDraft(Some(l.items[i].name), Some(OrElse(l.items[i].desc, "")),
                  Some(l.items[i].checked || false), None))))
  }

  /** The duplicate test of the copy loop: some category already has this label. */
  predicate HasLabel(cats: seq<Category>, title: string) {
    exists j :: 0 <= j < |cats| && cats[j].category == title
  }

  ghost function Labels(cats: seq<Category>): set<string> {
    set c | c in cats :: c.category
  }

  ghost function LegacyLabels(legacy: seq<Legacy.Category>): set<string> {
    set l | l in legacy :: l.category
  }

  /** One turn of the copy loop: append the legacy category unless its label is present. */
  function Step(cats: seq<Category>, l: Legacy.Category): (r: seq<Category>) {
    if HasLabel(cats, l.category) then cats else cats + [Import(l)]
  }

  /** The categories after copying `legacy` in order; each turn sees the categories
      appended by the turns before it. Existing categories keep their positions. */
  function Merge(cats: seq<Category>, legacy: seq<Legacy.Category>): (r: seq<Category>)
    ensures |cats| <= |r| && r[..|cats|] == cats
    decreases |legacy|
  {
    if legacy == [] then cats
    else Step(Merge(cats, legacy[..|legacy| - 1]), legacy[|legacy| - 1])
  }

  /** The legacy categories in order, as they would be pushed. */
  function ImportAll(legacy: seq<Legacy.Category>): (r: seq<Category>)
    ensures |r| == |legacy| && forall i :: 0 <= i < |legacy| ==> r[i] == Import(legacy[i])
  {
    seq(|legacy|, i requires 0 <= i < |legacy| => Import(legacy[i]))
  }

  lemma HasLabelIsMember(cats: seq<Category>, title: string)
    ensures HasLabel(cats, title) <==> title in Labels(cats)
  {
    if title in Labels(cats) {
      var c :| c in cats && c.category == title;
      var j :| 0 <= j < |cats| && cats[j] == c;
    }
  }

  lemma LabelsAppend(cats: seq<Category>, c: Category)
    ensures Labels(cats + [c]) == Labels(cats) + {c.category}
  {
    assert forall x :: x in cats + [c] <==> x in cats || x == c;
  }

  lemma LegacyLabelsAppend(legacy: seq<Legacy.Category>, l: Legacy.Category)
    ensures LegacyLabels(legacy + [l]) == LegacyLabels(legacy) + {l.category}
  {
    assert forall x :: x in legacy + [l] <==> x in legacy || x == l;
  }

  /** Splits a non-empty legacy list into the turns before the last and the last one. */
  lemma LastTurn(legacy: seq<Legacy.Category>)
    requires legacy != []
    ensures legacy == legacy[..|legacy| - 1] + [legacy[|legacy| - 1]]
  {
  }

  /** The turn for legacy category `i` appends exactly when no category with its label
      is present at that moment, counting the ones appended by earlier turns. */
  lemma {:induction false} TurnAppendsIffLabelAbsent(cats: seq<Category>, legacy: seq<Legacy.Category>, i: nat)
    requires i < |legacy|
    ensures var before := Merge(cats, legacy[..i]);
            var after := Merge(cats, legacy[..i + 1]);
            (after == before + [Import(legacy[i])] <==> !HasLabel(before, legacy[i].category))
            && (after == before <==> HasLabel(before, legacy[i].category))
  {
    assert legacy[..i + 1][..i] == legacy[..i];
    assert legacy[..i + 1][i] == legacy[i];
    var before := Merge(cats, legacy[..i]);
    assert |before + [Import(legacy[i])]| != |before|;
  }

  /** Afterwards the labels are exactly the original ones and the legacy ones: no label
      other than a legacy one was introduced. */
  lemma {:induction false} MergeLabels(cats: seq<Category>, legacy: seq<Legacy.Category>)
    ensures Labels(Merge(cats, legacy)) == Labels(cats) + LegacyLabels(legacy)
    decreases |legacy|
  {
    if legacy == [] {
      assert LegacyLabels(legacy) == {};
    } else {
      var init, l := legacy[..|legacy| - 1], legacy[|legacy| - 1];
      LastTurn(legacy);
      MergeLabels(cats, init);
      var m := Merge(cats, init);
      HasLabelIsMember(m, l.category);
      LegacyLabelsAppend(init, l);
      if !HasLabel(m, l.category) {
        LabelsAppend(m, Import(l));
      }
      assert Labels(Merge(cats, legacy)) == Labels(m) + {l.category};
    }
  }

  /** Afterwards every legacy label occurs in the roadmap. */
  lemma MergeHasEveryLegacyLabel(cats: seq<Category>, legacy: seq<Legacy.Category>)
    ensures forall i :: 0 <= i < |legacy| ==> HasLabel(Merge(cats, legacy), legacy[i].category)
  {
    MergeLabels(cats, legacy);
    forall i | 0 <= i < |legacy|
      ensures HasLabel(Merge(cats, legacy), legacy[i].category)
    {
      assert legacy[i] in legacy;
      HasLabelIsMember(Merge(cats, legacy), legacy[i].category);
    }
  }

  /** The appended categories are imports of legacy categories, in legacy order: the
      suffix is a selection from the imports of the whole legacy list. */
  lemma {:induction false} MergeAppendsInLegacyOrder(cats: seq<Category>, legacy: seq<Legacy.Category>)
    ensures IsSubseq(Merge(cats, legacy)[|cats|..], ImportAll(legacy))
    decreases |legacy|
  {
    if legacy == [] {
      assert Merge(cats, legacy)[|cats|..] == [];
    } else {
      var init, l := legacy[..|legacy| - 1], legacy[|legacy| - 1];
      MergeAppendsInLegacyOrder(cats, init);
      var m := Merge(cats, init);
      assert ImportAll(legacy) == ImportAll(init) + [Import(l)];
      if HasLabel(m, l.category) {
        SubseqExtendRight(m[|cats|..], ImportAll(init), Import(l));
      } else {
        SubseqExtendBoth(m[|cats|..], ImportAll(init), Import(l));
        assert (m + [Import(l)])[|cats|..] == m[|cats|..] + [Import(l)];
      }
    }
  }

  /** No category at position `from` or later repeats the label of one before it. */
  predicate NoRepeatFrom(cats: seq<Category>, from: nat) {
    forall j, k :: 0 <= j < k < |cats| && from <= k ==> cats[j].category != cats[k].category
  }

  /** An appended category never repeats a label that stands before it, so a label that
      occurs several times in the legacy list is appended at most once; a roadmap whose
      labels were distinct keeps them distinct. */
  lemma {:induction false} MergeNeverRepeatsLabel(cats: seq<Category>, legacy: seq<Legacy.Category>)
    ensures NoRepeatFrom(Merge(cats, legacy), |cats|)
    decreases |legacy|
  {
    if legacy != [] {
      var init, l := legacy[..|legacy| - 1], legacy[|legacy| - 1];
      MergeNeverRepeatsLabel(cats, init);
      var m := Merge(cats, init);
      if !HasLabel(m, l.category) {
        var m' := m + [Import(l)];
        forall j, k | 0 <= j < k < |m'| && |cats| <= k
          ensures m'[j].category != m'[k].category
        {
          assert m'[j] == m[j];
          if k == |m| {
            assert m'[k] == Import(l);
            assert m[j].category != l.category;
          } else {
            assert m'[k] == m[k];
            assert m[j].category != m[k].category;
          }
        }
      }
    }
  }

  /** When every legacy label is already present, nothing is appended. */
  lemma {:induction false} MergeOfPresentLabels(cats: seq<Category>, legacy: seq<Legacy.Category>)
    requires forall i :: 0 <= i < |legacy| ==> HasLabel(cats, legacy[i].category)
    ensures Merge(cats, legacy) == cats
    decreases |legacy|
  {
    if legacy != [] {
      MergeOfPresentLabels(cats, legacy[..|legacy| - 1]);
    }
  }

  /** Running the copy a second time with the same legacy list appends nothing. */
  lemma MergeIdempotent(cats: seq<Category>, legacy: seq<Legacy.Category>)
    ensures Merge(Merge(cats, legacy), legacy) == Merge(cats, legacy)
  {
    MergeHasEveryLegacyLabel(cats, legacy);
    MergeOfPresentLabels(Merge(cats, legacy), legacy);
  }

  /** The number of appended categories is the number of distinct legacy labels that were
      not in the roadmap before. */
  lemma {:induction false} MergeGrowth(cats: seq<Category>, legacy: seq<Legacy.Category>)
    ensures |Merge(cats, legacy)| - |cats| == |LegacyLabels(legacy) - Labels(cats)|
    decreases |legacy|
  {
    if legacy == [] {
      assert LegacyLabels(legacy) == {};
    } else {
      var init, l := legacy[..|legacy| - 1], legacy[|legacy| - 1];
      LastTurn(legacy);
      MergeGrowth(cats, init);
      MergeLabels(cats, init);
      LegacyLabelsAppend(init, l);
      HasLabelIsMember(Merge(cats, init), l.category);
      NewLabelStep(LegacyLabels(init), Labels(cats), l.category);
    }
  }

  /** How the set of new labels grows by one more legacy label `x`. */
  lemma NewLabelStep(seen: set<string>, original: set<string>, x: string)
    ensures x in original + seen ==> (seen + {x}) - original == seen - original
    ensures x !in original + seen ==> |(seen + {x}) - original| == |seen - original| + 1
  {
    if x !in original + seen {
      assert (seen + {x}) - original == (seen - original) + {x};
    }
  }

  predicate Authenticated(caller: Option<string>) {
    caller.Some? && Present(caller.value)
  }

  /** The lookup's filter: the roadmap's id is `id`, when the body carries one (an
      absent id drops out of the filter), and its owner is `email`. */
  predicate Owned(r: Roadmap, id: Option<nat>, email: string) {
    (id.None? || r.id == id.value) && r.ownerEmail == email
  }

  /** The owner-scoped lookup: the first roadmap the filter matches, if any. */
  function FindOwned(roadmaps: seq<Roadmap>, id: Option<nat>, email: string): (r: Option<nat>)
    ensures r.Some? ==> r.value < |roadmaps| && Owned(roadmaps[r.value], id, email)
                        && forall j :: 0 <= j < r.value ==> !Owned(roadmaps[j], id, email)
    ensures r.None? ==> forall j :: 0 <= j < |roadmaps| ==> !Owned(roadmaps[j], id, email)
  {
    FirstIndex(roadmaps, (r: Roadmap) => Owned(r, id, email))
  }

  /** Without a `roadmapId` the lookup picks the caller's first roadmap, whatever its id. */
  lemma AbsentIdPicksFirstOwned(roadmaps: seq<Roadmap>, email: string)
    ensures FindOwned(roadmaps, None, email).Some? <==>
              exists j :: 0 <= j < |roadmaps| && roadmaps[j].ownerEmail == email
    ensures FindOwned(roadmaps, None, email).Some? ==>
              var k := FindOwned(roadmaps, None, email).value;
              roadmaps[k].ownerEmail == email
              && forall j :: 0 <= j < k ==> roadmaps[j].ownerEmail != email
  {
    if FindOwned(roadmaps, None, email).None? {
      assert forall j :: 0 <= j < |roadmaps| ==> !Owned(roadmaps[j], None, email);
    }
  }

  /** The handler. `caller` is the session's email, if any; `verb` the HTTP method;
      `roadmapId` the body's `roadmapId`, `None` when absent; `roadmaps` the roadmap collection and `legacy`
      the whole legacy collection in the order the store returns it. Returns the
      response and the roadmap collection after the handler. */
  method Migrate(caller: Option<string>, verb: string, roadmapId: Option<nat>,
                 roadmaps: seq<Roadmap>, legacy: seq<Legacy.Category>)
    returns (resp: Response, saved: seq<Roadmap>)
    ensures !Authenticated(caller) ==> resp == Reply(401, NoData) && saved == roadmaps
    ensures Authenticated(caller) && verb != "POST" ==> resp == Reply(405, NoData) && saved == roadmaps
    ensures Authenticated(caller) && verb == "POST" && FindOwned(roadmaps, roadmapId, caller.value).None?
            ==> resp == Reply(404, NoData) && saved == roadmaps
    ensures Authenticated(caller) && verb == "POST" && FindOwned(roadmaps, roadmapId, caller.value).Some?
            ==> var k := FindOwned(roadmaps, roadmapId, caller.value).value;
                var merged := roadmaps[k].(categories := Merge(roadmaps[k].categories, legacy));
                if legacy == [] then resp == Reply(404, NoData) && saved == roadmaps
                else if RoadmapValid(merged) then
                  resp == Reply(200, Migrated(|merged.categories| - |roadmaps[k].categories|))
                  && saved == roadmaps[k := merged]
                else resp == Reply(500, NoData) && saved == roadmaps
  {
    if !Authenticated(caller) {
      return Reply(401, NoData), roadmaps;
    }
    var userEmail := caller.value;
    if verb != "POST" {
      return Reply(405, NoData), roadmaps;
    }
    var found := FindOwned(roadmaps, roadmapId, userEmail);
    if found.None? {
      return Reply(404, NoData), roadmaps;
    }
    var roadmap := roadmaps[found.value];
    var oldCategories := legacy;
    if |oldCategories| == 0 {
      return Reply(404, NoData), roadmaps;
    }
    var categories := roadmap.categories;
    var count: nat := 0;
    for i := 0 to |oldCategories|
      invariant categories == Merge(roadmap.categories, oldCategories[..i])
      invariant count == |categories| - |roadmap.categories|
    {
      assert oldCategories[..i + 1][..i] == oldCategories[..i];
      var oldCat := oldCategories[i];
      var present := HasLabel(categories, oldCat.category);
      if !present {
        categories := categories + [Import(oldCat)];
        count := count + 1;
      }
    }
    assert oldCategories[..|oldCategories|] == oldCategories;
    roadmap := roadmap.(categories := categories);
    if !RoadmapValid(roadmap) {
      return Reply(500, NoData), roadmaps;
    }
    return Reply(200, Migrated(count)), roadmaps[found.value := roadmap];
  }

  /** Saving the target back under its id and owner leaves the lookup unchanged. */
  lemma FindOwnedAfterSave(roadmaps: seq<Roadmap>, id: Option<nat>, email: string, target: Roadmap)
    requires FindOwned(roadmaps, id, email).Some? && Owned(target, id, email)
    ensures var k := FindOwned(roadmaps, id, email).value;
            FindOwned(roadmaps[k := target], id, email) == Some(k)
  {
    var k := FindOwned(roadmaps, id, email).value;
    var after := roadmaps[k := target];
    assert Owned(after[k], id, email);
    assert forall j :: 0 <= j < k ==> after[j] == roadmaps[j];
  }

  /** Running the handler a second time on what the first run saved, with the same
      caller, roadmap and legacy collection: once the first run succeeded, the second
      appends nothing, reports 0 and saves the same roadmaps. */
  method MigrateTwice(caller: Option<string>, roadmapId: Option<nat>, roadmaps: seq<Roadmap>, legacy: seq<Legacy.Category>)
    returns (first: Response, second: Response, once: seq<Roadmap>, twice: seq<Roadmap>)
    ensures first.Reply? && first.status == 200 ==> second == Reply(200, Migrated(0)) && twice == once
  {
    first, once := Migrate(caller, "POST", roadmapId, roadmaps, legacy);
    second, twice := Migrate(caller, "POST", roadmapId, once, legacy);
    if first.Reply? && first.status == 200 {
      var k := FindOwned(roadmaps, roadmapId, caller.value).value;
      var merged := roadmaps[k].(categories := Merge(roadmaps[k].categories, legacy));
      FindOwnedAfterSave(roadmaps, roadmapId, caller.value, merged);
      MergeIdempotent(roadmaps[k].categories, legacy);
      assert once[k := merged] == once;
    }
  }
}
