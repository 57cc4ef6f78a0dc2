/**
 A bundle that was just published verifies at the next start, exactly when no blueprint lists more
 than ten parents.
 */
module ReleaseRoundTrip {
  import opened Wrappers
  import opened Ordering
  import opened BlueprintCompiler
  import opened ContentRelease
  import Registry = RegistryCatalog

  // ---- the order of parent paths ----

  function ParentPath(i: nat): string {
    "/parent_keys/" + Decimal(i)
  }

  lemma DigitPaths(i: nat, j: nat)
    requires i < 10 && j < 10
    ensures StringLeq()(ParentPath(i), ParentPath(j)) <==> i <= j
  {
    LexPrefix(CharLeq(), "/parent_keys/", [Digit(i)], [Digit(j)]);
    assert Decimal(i) == [Digit(i)] && Decimal(j) == [Digit(j)];
    assert [Digit(i)][1..] == [] && [Digit(j)][1..] == [];
  }

  /** "/parent_keys/10" sorts before "/parent_keys/2". */
  lemma TenthBeforeSecond()
    ensures !StringLeq()(ParentPath(2), ParentPath(10))
  {
    assert Decimal(2) == [Digit(2)];
    assert Decimal(1) == [Digit(1)];
    assert Decimal(10) == [Digit(1), Digit(0)];
    LexPrefix(CharLeq(), "/parent_keys/", Decimal(2), Decimal(10));
  }

  /** Rank i is the place of the i-th parent. */
  ghost predicate Numbered(ds: seq<ParentDependency>) {
    forall i :: 0 <= i < |ds| ==> ds[i].path == ParentPath(i) && ds[i].ordinal == i
  }

  lemma SameHeadPaths(a: string, b: string)
    ensures TupleLeq()(["parent", a], ["parent", b]) <==> StringLeq()(a, b)
  {
    StringOrder();
    assert ["parent", a][1..] == [a] && ["parent", b][1..] == [b];
    assert [a][1..] == [] && [b][1..] == [];
    assert LexLeq(StringLeq(), ["parent", a], ["parent", b]) == LexLeq(StringLeq(), [a], [b]);
  }

  /** The compiled list of parents is in the order in which its rows are read back exactly up to
      ten parents. */
  lemma ParentsSortedIffTen(ds: seq<ParentDependency>)
    requires Numbered(ds)
    ensures Sorted(ParentLeq(), ds) <==> |ds| <= 10
  {
    if |ds| <= 10 {
      forall i, j | 0 <= i < j < |ds| ensures ParentLeq()(ds[i], ds[j]) {
        SameHeadPaths(ds[i].path, ds[j].path);
        DigitPaths(i, j);
        assert ParentRank(ds[i]) == (["parent", ds[i].path], i) && ParentRank(ds[j]) == (["parent", ds[j].path], j);
      }
    } else {
      TenthBeforeSecond();
      SameHeadPaths(ds[2].path, ds[10].path);
      assert !ParentLeq()(ds[2], ds[10]) by {
        assert ParentRank(ds[2]).0 == ["parent", ParentPath(2)] && ParentRank(ds[10]).0 == ["parent", ParentPath(10)];
        StringOrder();
        assert ParentPath(2) != ParentPath(10);
        assert ["parent", ParentPath(2)][1] != ["parent", ParentPath(10)][1];
      }
    }
  }

  lemma ParentsSeparate(ds: seq<ParentDependency>)
    requires Numbered(ds)
    ensures Separates(ParentLeq(), ds)
  {
    RankOrder();
    forall i, j | 0 <= i < |ds| && 0 <= j < |ds| && ParentLeq()(ds[i], ds[j]) && ParentLeq()(ds[j], ds[i])
      ensures ds[i] == ds[j]
    {
      assert ParentRank(ds[i]) == ParentRank(ds[j]);
    }
  }

  // ---- what compilation guarantees of one prepared blueprint ----

  ghost predicate Sound(p: Prepared, catalog: Registry.Catalog) {
    && p.compiled.parents == p.parents && p.compiled.registry == p.registry && p.compiled.source == p.ids.revisionId
    && p.contentHash == ContentDigest(p.raw) && p.dependencyHash == DependencyDigest(p.parents, p.registry)
    && p.compiled.dependencyHash == p.dependencyHash
       && p.compiledHash == CompiledDigest(p.compiled, p.parents, p.registry)
    && |p.parents| == |p.raw.parents| && Numbered(p.parents)
    && Sorted(RegistryLeq(), p.registry) && Separates(RegistryLeq(), p.registry)
    && forall d :: d in p.registry ==> FromActive(catalog, d)
  }

  lemma {:induction false} ResolvedPlaces(catalog: Registry.Catalog, ws: seq<Wanted>)
    requires CatalogFiled(catalog) && ResolveWanted(catalog, ws).Ok?
    ensures var ds := ResolveWanted(catalog, ws).value;
            && |ds| == |ws|
            && forall i :: 0 <= i < |ds| ==>
               ds[i].path == ws[i].path && ds[i].ordinal == ws[i].ordinal && FromActive(catalog, ds[i])
    decreases |ws|
  {
    if ws != [] {
      ResolvedPlaces(catalog, ws[1..]);
    }
  }

  lemma PlacesSeparate(catalog: Registry.Catalog, ws: seq<Wanted>)
    requires CatalogFiled(catalog) && DistinctPlaces(ws) && ResolveWanted(catalog, ws).Ok?
    ensures Separates(RegistryLeq(), ResolveWanted(catalog, ws).value)
  {
    RankOrder();
    ResolvedPlaces(catalog, ws);
    var ds := ResolveWanted(catalog, ws).value;
    forall i, j | 0 <= i < |ds| && 0 <= j < |ds| && RegistryLeq()(ds[i], ds[j]) && RegistryLeq()(ds[j], ds[i])
      ensures ds[i] == ds[j]
    {
      var a, b := RegistryRank(ds[i]), RegistryRank(ds[j]);
      assert a == b;
      assert a.0[3] == ds[i].path && b.0[3] == ds[j].path;
      assert SamePlace(ws[i], ws[j]) && SamePlace(ws[j], ws[i]);
    }
  }

  lemma SortedRegistry(catalog: Registry.Catalog, ws: seq<Wanted>)
    requires CatalogFiled(catalog) && DistinctPlaces(ws) && ResolveWanted(catalog, ws).Ok?
    ensures var out := Sort(RegistryLeq(), ResolveWanted(catalog, ws).value);
            Sorted(RegistryLeq(), out) && Separates(RegistryLeq(), out)
              && forall d :: d in out ==> FromActive(catalog, d)
  {
    hide Sort, Separates, Sorted, ResolveWanted, FromActive, TotalPreorder;
    var ds := ResolveWanted(catalog, ws).value;
    Orders();
    ResolvedPlaces(catalog, ws);
    PlacesSeparate(catalog, ws);
    SortSorts(RegistryLeq(), ds);
    var out := Sort(RegistryLeq(), ds);
    SeparatesSame(RegistryLeq(), ds, out);
    forall d | d in out ensures FromActive(catalog, d) {
      assert d in multiset(out) && d in multiset(ds);
      var i :| 0 <= i < |ds| && ds[i] == d;
    }
  }

  lemma CompiledIsSound(raws: Blueprints, ids: string -> Ids, contract: string, catalog: Registry.Catalog, key: string)
    requires CatalogFiled(catalog) && Compile(raws, ids, contract, catalog, key, []).Ok?
    ensures Sound(Compile(raws, ids, contract, catalog, key, []).value, catalog)
  {
    hide Compile, ResolveWanted, Sort, Separates, Sorted, FromActive, CatalogFiled, PutAll;
    var parents := CompiledFrom(raws, ids, contract, catalog, key, []);
    var wanted := WantedBy(raws[key], Inherited(parents));
    PutAllHolds([], Kept(Inherited(parents), raws[key]) + Own(raws[key]));
    SortedRegistry(catalog, wanted);
  }

  // ---- one revision, read back ----

  lemma {:induction false} DependenciesPass(active: seq<Registry.Definition>, compat: seq<Registry.Definition>,
                                            h: Registry.Payload -> Registry.Hash,
                                            m: Registry.Raws, catalog: Registry.Catalog, ds: seq<RegistryDependency>,
                                              activeOnly: bool)
    requires Registry.Builds(active, compat, h, m, catalog) && Registry.Filed(m, catalog.active)
    requires forall d :: d in ds ==> FromActive(catalog, d)
    ensures CheckDependencies(catalog, activeOnly, ds).None?
    decreases |ds|
  {
    hide Registry.Builds;
    if ds != [] {
      var d := ds[0];
      assert FromActive(catalog, d);
      Registry.ResolveExactOwn(active, compat, h, m, catalog, d.reference);
      DependenciesPass(active, compat, h, m, catalog, ds[1..], activeOnly);
    }
  }

  /** A sound revision, its rows read in any order, passes both checks exactly up to ten parents;
      beyond, it fails for a mismatch of its blueprint references. */
  lemma RevisionPassesIffTen(active: seq<Registry.Definition>, compat: seq<Registry.Definition>,
                             h: Registry.Payload -> Registry.Hash,
                             m: Registry.Raws, catalog: Registry.Catalog, p: Prepared, parents: seq<ParentDependency>,
                               registry: seq<RegistryDependency>, activeOnly: bool)
    requires Registry.Builds(active, compat, h, m, catalog) && Registry.Filed(m, catalog.active) && Sound(p, catalog)
    requires multiset(parents) == multiset(p.parents) && multiset(registry) == multiset(p.registry)
    ensures CheckRevision(p.ids.revisionId, RevisionRow(p, COMPILER_CONTRACT), Sort(ParentLeq(), parents),
      Sort(RegistryLeq(), registry), catalog, activeOnly)
            == if |p.raw.parents| <= 10 then None else Some(ReferenceNotFound)
  {
    hide Registry.Builds, Registry.Filed, Sort, Sorted, Separates, TotalPreorder, CheckDependencies, Numbered,
      FromActive;
    Orders();
    ParentsSeparate(p.parents);
    ParentsSortedIffTen(p.parents);
    SortRestores(ParentLeq(), p.parents, parents);
    SortRestores(RegistryLeq(), p.registry, registry);
    DependenciesPass(active, compat, h, m, catalog, p.registry, activeOnly);
  }

  // ---- the published store ----

  ghost predicate DistinctIds(ps: seq<Prepared>) {
    && (forall i, j :: 0 <= i < j < |ps| ==> ps[i].ids.revisionId != ps[j].ids.revisionId)
    && (forall i, j :: 0 <= i < j < |ps| ==> ps[i].raw.key != ps[j].raw.key)
  }

  function ItemRows(ps: seq<Prepared>): (rows: seq<Item>)
    ensures |rows| == |ps| && forall i :: 0 <= i < |ps| ==> rows[i] == ItemRow(ps[i])
  {
    seq(|ps|, i requires 0 <= i < |ps| => ItemRow(ps[i]))
  }

  /** The rows of one prepared blueprint. */
  ghost predicate Stored(s: Store, contract: string, p: Prepared) {
    var id := p.ids.revisionId;
    && id in s.revisions && id in s.parentRows && id in s.registryRows && p.raw.key in s.blueprintHeads
    && s.revisions[id] == RevisionRow(p, contract)
    && s.parentRows[id] == multiset(p.parents) && s.registryRows[id] == multiset(p.registry)
  }

  ghost predicate OfSome(ps: seq<Prepared>, id: Id) {
    exists i :: 0 <= i < |ps| && ps[i].ids.revisionId == id
  }

  /** Exactly these blueprints were added. */
  ghost predicate Added(s: Store, t: Store, batchId: Id, contract: string, ps: seq<Prepared>)
    requires batchId in s.items
  {
    && t.heads == s.heads && t.batches == s.batches
    && batchId in t.items && t.items == s.items[batchId := s.items[batchId] + multiset(ItemRows(ps))]
    && (forall i :: 0 <= i < |ps| ==> Stored(t, contract, ps[i]))
    && t.parentRows.Keys == t.revisions.Keys && t.registryRows.Keys == t.revisions.Keys
    && (forall id :: id in t.revisions ==> OfSome(ps, id))
  }

  lemma {:induction false} AddAllHolds(s: Store, batchId: Id, contract: string, ps: seq<Prepared>)
    requires batchId in s.items && DistinctIds(ps) && s.revisions == map[] && s.parentRows == map[]
      && s.registryRows == map[]
    ensures Added(s, AddAll(s, batchId, contract, ps), batchId, contract, ps)
    decreases |ps|
  {
    hide Stored, OfSome, Add;
    if ps == [] {
      assert s.items[batchId] + multiset(ItemRows(ps)) == s.items[batchId];
      assert s.items[batchId := s.items[batchId]] == s.items;
    } else {
      var n := |ps| - 1;
      AddAllHolds(s, batchId, contract, ps[..n]);
      assert ps == ps[..n] + [ps[n]];
      assert DistinctIds(ps[..n] + [ps[n]]);
      AddOneHolds(s, AddAll(s, batchId, contract, ps[..n]), batchId, contract, ps[..n], ps[n]);
    }
  }

  lemma AddOneHolds(s: Store, t: Store, batchId: Id, contract: string, ps: seq<Prepared>, p: Prepared)
    requires batchId in s.items && Added(s, t, batchId, contract, ps) && DistinctIds(ps + [p])
    ensures Added(s, Add(t, batchId, contract, p), batchId, contract, ps + [p])
  {
    hide OfSome, Stored;
    var u, qs := Add(t, batchId, contract, p), ps + [p];
    AddedItems(s.items[batchId], ps, p);
    assert qs[|ps|] == p;
    StoredNew(t, batchId, contract, p);
    forall i | 0 <= i < |ps| ensures Stored(u, contract, qs[i]) {
      assert qs[i] == ps[i];
      StoredKept(t, batchId, contract, p, qs[i]);
    }
    forall id | id in u.revisions ensures OfSome(qs, id) {
      SomeOfMore(ps, p, id);
    }
  }

  lemma StoredNew(t: Store, batchId: Id, contract: string, p: Prepared)
    requires batchId in t.items
    ensures Stored(Add(t, batchId, contract, p), contract, p)
  {
  }

  lemma StoredKept(t: Store, batchId: Id, contract: string, p: Prepared, q: Prepared)
    requires batchId in t.items && Stored(t, contract, q) && q.ids.revisionId != p.ids.revisionId
    ensures Stored(Add(t, batchId, contract, p), contract, q)
  {
  }

  lemma AddedItems(items: multiset<Item>, ps: seq<Prepared>, p: Prepared)
    ensures (items + multiset(ItemRows(ps))) + multiset{ItemRow(p)} == items + multiset(ItemRows(ps + [p]))
  {
    assert ItemRows(ps + [p]) == ItemRows(ps) + [ItemRow(p)];
  }

  lemma SomeOfMore(ps: seq<Prepared>, p: Prepared, id: Id)
    requires OfSome(ps, id) || id == p.ids.revisionId
    ensures OfSome(ps + [p], id)
  {
    assert (ps + [p])[|ps|] == p;
    if OfSome(ps, id) {
      var i :| 0 <= i < |ps| && ps[i].ids.revisionId == id;
      assert (ps + [p])[i] == ps[i];
    }
  }

  /** Nothing published yet, and fresh identifiers. */
  ghost predicate Fresh(s: Store, bundle: Bundle, headId: Id, batchId: Id) {
    && Valid(s) && bundle.target !in s.heads && s.blueprintHeads == map[]
    && (forall t :: t in s.heads ==> s.heads[t].id != headId) && batchId !in s.batches
  }

  lemma FreshIsEmpty(s: Store, bundle: Bundle, headId: Id, batchId: Id)
    requires Fresh(s, bundle, headId, batchId)
    ensures s.revisions == map[] && s.parentRows == map[] && s.registryRows == map[]
    ensures forall b :: b in s.items ==> s.items[b] == multiset{}
    ensures forall b :: b in s.batches ==> s.batches[b].headId != headId
  {
    hide RowsSeparate, ActiveKnown, AllPublished, HasHead;
    assert s.revisions.Keys == {} && s.parentRows.Keys == {} && s.registryRows.Keys == {};
    forall b | b in s.items ensures s.items[b] == multiset{} {
      NoItems(s, s.items[b]);
    }
    forall b | b in s.batches ensures s.batches[b].headId != headId {
      HeadOf(s, s.batches[b].headId, headId);
    }
  }

  lemma NoItems(s: Store, items: multiset<Item>)
    requires s.revisions == map[] && AllPublished(s, items)
    ensures items == multiset{}
  {
    assert forall i :: i in items ==> i.revisionId in s.revisions;
  }

  lemma HeadOf(s: Store, id: Id, headId: Id)
    requires HasHead(s, id) && forall t :: t in s.heads ==> s.heads[t].id != headId
    ensures id != headId
  {
  }

  ghost predicate AscendingKeys(ps: seq<Prepared>) {
    forall i, j :: 0 <= i < j < |ps| ==> StringLeq()(ps[i].raw.key, ps[j].raw.key)
  }

  /** The items of the new batch, in any order, sort back to the prepared order. */
  lemma ItemsRestore(ps: seq<Prepared>, rows: seq<Item>)
    requires DistinctIds(ps) && AscendingKeys(ps) && multiset(rows) == multiset(ItemRows(ps))
    ensures Separates(ItemLeq(), ItemRows(ps)) && Separates(ItemLeq(), rows)
    ensures Sort(ItemLeq(), rows) == ItemRows(ps)
  {
    hide Sort, Separates, TotalPreorder;
    var list := ItemRows(ps);
    ItemRowsSeparate(ps);
    Orders();
    forall i, j | 0 <= i < j < |list| ensures ItemLeq()(list[i], list[j]) {
      ItemsByKey(list[i], list[j]);
    }
    SeparatesSame(ItemLeq(), list, rows);
    SortRestores(ItemLeq(), list, rows);
  }

  lemma ItemRowsSeparate(ps: seq<Prepared>)
    requires DistinctIds(ps)
    ensures Separates(ItemLeq(), ItemRows(ps))
  {
    StringOrder();
    var list := ItemRows(ps);
    forall i, j | 0 <= i < |list| && 0 <= j < |list| && ItemLeq()(list[i], list[j]) && ItemLeq()(list[j], list[i])
      ensures list[i] == list[j]
    {
      ItemsByKey(list[i], list[j]);
      ItemsByKey(list[j], list[i]);
      assert ps[i].raw.key == ps[j].raw.key;
    }
  }

  lemma ItemsByKey(a: Item, b: Item)
    ensures ItemLeq()(a, b) == StringLeq()(a.key, b.key)
  {
    assert ItemLeq()(a, b) == StringLeq()(ItemKey(a), ItemKey(b));
  }

  /** What the round trip needs of a compiled bundle. */
  ghost predicate Ready(ps: seq<Prepared>, catalog: Registry.Catalog) {
    DistinctIds(ps) && AscendingKeys(ps) && forall i :: 0 <= i < |ps| ==> Sound(ps[i], catalog)
  }

  lemma PublishedRows(s: Store, bundle: Bundle, headId: Id, batchId: Id, ps: seq<Prepared>)
    requires Fresh(s, bundle, headId, batchId) && DistinctIds(ps)
    ensures var t := Publish(s, bundle, headId, batchId, ps);
            && t.heads == s.heads[bundle.target := Head(headId, Some(batchId), 1)]
            && t.batches == s.batches[batchId := Batch(headId, 1, bundle.manifest, bundle.seedId, ReleaseOf(ps))]
            && t.items.Keys == t.batches.Keys && t.items[batchId] == multiset(ItemRows(ps))
            && (forall b :: b in t.items && b != batchId ==> t.items[b] == multiset{})
            && (forall i :: 0 <= i < |ps| ==> Stored(t, bundle.contract, ps[i]))
            && t.parentRows.Keys == t.revisions.Keys && t.registryRows.Keys == t.revisions.Keys
            && (forall id :: id in t.revisions ==> OfSome(ps, id))
  {
    hide DistinctIds, AddAll, Stored, OfSome, HeadsKnown, BatchesKnown, ActiveKnown, ItemsPublished, RowsSeparate,
      ReleaseOf;
    FreshIsEmpty(s, bundle, headId, batchId);
    AddAllHolds(Opened(s, bundle, headId, batchId, ps), batchId, bundle.contract, ps);
    assert multiset{} + multiset(ItemRows(ps)) == multiset(ItemRows(ps));
  }

  /** The rows of one prepared blueprint, column by column. */
  ghost predicate PublishedRow(t: Store, contract: string, p: Prepared) {
    var id := p.ids.revisionId;
    && id in t.revisions && id in t.parentRows && id in t.registryRows
    && t.revisions[id] == Revision(p.raw, p.compiled, p.contentHash, p.compiledHash, p.dependencyHash, contract)
    && t.parentRows[id] == multiset(p.parents) && t.registryRows[id] == multiset(p.registry)
  }

  /** One head a blueprint. */
  ghost predicate HeadsFor(heads: map<string, Id>, ps: seq<Prepared>) {
    && (forall i :: 0 <= i < |ps| ==> ps[i].raw.key in heads && heads[ps[i].raw.key] == ps[i].ids.headId)
    && (forall key :: key in heads ==> exists i :: 0 <= i < |ps| && ps[i].raw.key == key)
  }

  ghost predicate ItemsFor(ps: seq<Prepared>, rows: seq<Item>) {
    && |rows| == |ps|
    && forall i :: 0 <= i < |ps| ==> rows[i] == Item(ps[i].ids.headId, ps[i].raw.key, ps[i].ids.revisionId)
  }

  ghost predicate ReleaseFor(ps: seq<Prepared>, items: seq<ReleaseItem>) {
    && |items| == |ps|
    && forall i :: 0 <= i < |ps| ==>
      items[i]
      == ReleaseItem(ps[i].ids.headId, ps[i].raw.key, ps[i].ids.revisionId, ps[i].contentHash, ps[i].compiledHash)
  }

  /** What publishing wrote: one head, one batch with an item for every blueprint and their release
      hash, one head and one revision for every blueprint with its rows, and nothing else. */
  ghost predicate PublishedAs(s: Store, t: Store, bundle: Bundle, headId: Id, batchId: Id, ps: seq<Prepared>) {
    && t.heads == s.heads[bundle.target := Head(headId, Some(batchId), 1)]
    && batchId in t.batches && t.batches == s.batches[batchId := t.batches[batchId]]
    && t.batches[batchId].headId == headId && t.batches[batchId].version == 1
    && t.batches[batchId].manifest == bundle.manifest && t.batches[batchId].seedId == bundle.seedId
    && ReleaseFor(ps, t.batches[batchId].releaseHash.items)
    && t.items.Keys == t.batches.Keys
    && (exists rows: seq<Item> :: multiset(rows) == t.items[batchId] && ItemsFor(ps, rows))
    && (forall b :: b in t.items && b != batchId ==> t.items[b] == multiset{})
    && HeadsFor(t.blueprintHeads, ps)
    && (forall i :: 0 <= i < |ps| ==> PublishedRow(t, bundle.contract, ps[i]))
    && t.parentRows.Keys == t.registryRows.Keys == t.revisions.Keys
    && (forall id :: id in t.revisions ==> exists i :: 0 <= i < |ps| && ps[i].ids.revisionId == id)
  }

  lemma {:induction false} AddAllHeads(s: Store, batchId: Id, contract: string, ps: seq<Prepared>)
    requires batchId in s.items && DistinctIds(ps) && s.blueprintHeads == map[]
    ensures HeadsFor(AddAll(s, batchId, contract, ps).blueprintHeads, ps)
    decreases |ps|
  {
    if ps != [] {
      var n := |ps| - 1;
      AddAllHeads(s, batchId, contract, ps[..n]);
      var heads := AddAll(s, batchId, contract, ps[..n]).blueprintHeads;
      OneMoreHead(heads, ps[..n], ps[n]);
      assert ps == ps[..n] + [ps[n]];
    }
  }

  lemma OneMoreHead(heads: map<string, Id>, ps: seq<Prepared>, p: Prepared)
    requires HeadsFor(heads, ps) && forall i :: 0 <= i < |ps| ==> ps[i].raw.key != p.raw.key
    ensures HeadsFor(heads[p.raw.key := p.ids.headId], ps + [p])
  {
    var now, all := heads[p.raw.key := p.ids.headId], ps + [p];
    assert all[|ps|] == p;
    forall key | key in now ensures exists i :: 0 <= i < |all| && all[i].raw.key == key {
      if key != p.raw.key {
        var i :| 0 <= i < |ps| && ps[i].raw.key == key;
        assert all[i] == ps[i];
      }
    }
  }

  lemma ReleaseIsFor(ps: seq<Prepared>)
    ensures ReleaseFor(ps, ReleaseOf(ps).items) && ItemsFor(ps, ItemRows(ps))
  {
  }

  lemma PublishExplicit(s: Store, bundle: Bundle, headId: Id, batchId: Id, ps: seq<Prepared>, catalog: Registry.Catalog)
    requires Fresh(s, bundle, headId, batchId) && Ready(ps, catalog)
    ensures var t := Publish(s, bundle, headId, batchId, ps);
            && PublishedAs(s, t, bundle, headId, batchId, ps)
            && batchId in t.batches && t.batches[batchId].releaseHash == ReleaseOf(ps)
  {
    hide DistinctIds, AddAll, Valid, Sound, AscendingKeys, HeadsFor, Stored, ReleaseOf, ReleaseFor, ItemsFor, ItemRows,
      PublishedRow;
    PublishedRows(s, bundle, headId, batchId, ps);
    AddAllHeads(Opened(s, bundle, headId, batchId, ps), batchId, bundle.contract, ps);
    ReleaseIsFor(ps);
    var t := Publish(s, bundle, headId, batchId, ps);
    forall i | 0 <= i < |ps| ensures PublishedRow(t, bundle.contract, ps[i]) {
      StoredIsPublished(t, bundle.contract, ps[i]);
    }
    forall id | id in t.revisions ensures exists i :: 0 <= i < |ps| && ps[i].ids.revisionId == id {
      assert OfSome(ps, id);
    }
  }

  lemma StoredIsPublished(t: Store, contract: string, p: Prepared)
    requires Stored(t, contract, p)
    ensures PublishedRow(t, contract, p)
  {
  }

  lemma PublishedSeparates(s: Store, bundle: Bundle, ps: seq<Prepared>, catalog: Registry.Catalog, i: nat)
    requires Ready(ps, catalog) && i < |ps| && Stored(s, bundle.contract, ps[i])
    ensures Separates(ParentLeq(), Listed(s.parentRows[ps[i].ids.revisionId]))
    ensures Separates(RegistryLeq(), Listed(s.registryRows[ps[i].ids.revisionId]))
  {
    hide Separates, Numbered, Sorted;
    assert Sound(ps[i], catalog);
    ParentsSeparate(ps[i].parents);
    SeparatesSame(ParentLeq(), ps[i].parents, Listed(s.parentRows[ps[i].ids.revisionId]));
    SeparatesSame(RegistryLeq(), ps[i].registry, Listed(s.registryRows[ps[i].ids.revisionId]));
  }

  /** Publishing keeps the constraints of the store. */
  lemma PublishValid(s: Store, bundle: Bundle, headId: Id, batchId: Id, ps: seq<Prepared>, catalog: Registry.Catalog)
    requires Fresh(s, bundle, headId, batchId) && Ready(ps, catalog)
    ensures Valid(Publish(s, bundle, headId, batchId, ps))
  {
    hide Publish, HeadsKnown, BatchesKnown, ActiveKnown, ItemsPublished, DependenciesSeparate,
      ContentRelease.ItemsSeparate, Sound, AscendingKeys, DistinctIds, Stored, OfSome, ReleaseOf;
    PublishedRows(s, bundle, headId, batchId, ps);
    PublishedRevisions(s, bundle, headId, batchId, ps, catalog);
    PublishedBatchItems(s, bundle, headId, batchId, ps, catalog);
    PublishedBatches(s, bundle, headId, batchId, ps);
  }

  lemma PublishedRevisions(s: Store, bundle: Bundle, headId: Id, batchId: Id, ps: seq<Prepared>,
                           catalog: Registry.Catalog)
    requires Fresh(s, bundle, headId, batchId) && Ready(ps, catalog)
    ensures var t := Publish(s, bundle, headId, batchId, ps);
            HeadsKnown(t) && DependenciesSeparate(t)
  {
    hide Publish, Separates, Sound, Fresh, ReleaseOf, Stored, OfSome, AscendingKeys, ItemRows;
    var t := Publish(s, bundle, headId, batchId, ps);
    PublishedRows(s, bundle, headId, batchId, ps);
    forall id | id in t.revisions
      ensures Separates(ParentLeq(), Listed(t.parentRows[id])) && Separates(RegistryLeq(), Listed(t.registryRows[id]))
      ensures t.revisions[id].raw.key in t.blueprintHeads
    {
      PublishedRevision(t, bundle, ps, catalog, id);
    }
  }

  lemma PublishedBatchItems(s: Store, bundle: Bundle, headId: Id, batchId: Id, ps: seq<Prepared>,
                            catalog: Registry.Catalog)
    requires Fresh(s, bundle, headId, batchId) && Ready(ps, catalog)
    ensures var t := Publish(s, bundle, headId, batchId, ps);
            ContentRelease.ItemsSeparate(t) && ItemsPublished(t)
  {
    hide Publish, Separates, Sound, Fresh, ReleaseOf, Stored, OfSome, AscendingKeys, AllPublished, ItemsKnown, ItemRows;
    var t := Publish(s, bundle, headId, batchId, ps);
    PublishedRows(s, bundle, headId, batchId, ps);
    PublishedItems(t, bundle.contract, ps);
    forall b | b in t.items ensures Separates(ItemLeq(), Listed(t.items[b])) && AllPublished(t, t.items[b]) {
      if b == batchId {
        ItemsRestore(ps, Listed(t.items[b]));
      } else {
        NothingSeparates(Listed(t.items[b]));
        NothingPublished(t);
      }
    }
  }

  lemma NothingPublished(t: Store)
    ensures AllPublished(t, multiset{})
  {
  }

  lemma PublishedRevision(t: Store, bundle: Bundle, ps: seq<Prepared>, catalog: Registry.Catalog, id: Id)
    requires Ready(ps, catalog) && OfSome(ps, id) && forall i :: 0 <= i < |ps| ==> Stored(t, bundle.contract, ps[i])
    ensures id in t.revisions && id in t.parentRows && id in t.registryRows
      && t.revisions[id].raw.key in t.blueprintHeads
    ensures Separates(ParentLeq(), Listed(t.parentRows[id])) && Separates(RegistryLeq(), Listed(t.registryRows[id]))
  {
    hide Separates, Sound, AscendingKeys;
    var i :| 0 <= i < |ps| && ps[i].ids.revisionId == id;
    assert Stored(t, bundle.contract, ps[i]);
    PublishedSeparates(t, bundle, ps, catalog, i);
  }

  lemma PublishedItems(t: Store, contract: string, ps: seq<Prepared>)
    requires forall i :: 0 <= i < |ps| ==> Stored(t, contract, ps[i])
    ensures AllPublished(t, multiset(ItemRows(ps))) && ItemsKnown(t, ItemRows(ps))
  {
    forall k | 0 <= k < |ps| ensures ItemRows(ps)[k].revisionId in t.revisions {
      assert Stored(t, contract, ps[k]);
    }
  }

  lemma PublishedBatches(s: Store, bundle: Bundle, headId: Id, batchId: Id, ps: seq<Prepared>)
    requires Fresh(s, bundle, headId, batchId) && DistinctIds(ps)
    ensures var t := Publish(s, bundle, headId, batchId, ps); BatchesKnown(t) && ActiveKnown(t)
  {
    hide Publish, DistinctIds, Stored, OfSome, RowsSeparate, ItemsPublished, HeadsKnown, ReleaseOf;
    var t := Publish(s, bundle, headId, batchId, ps);
    PublishedRows(s, bundle, headId, batchId, ps);
    forall b | b in t.batches ensures HasHead(t, t.batches[b].headId) {
      if b == batchId {
        assert t.heads[bundle.target].id == headId;
      } else {
        var k :| k in s.heads && s.heads[k].id == s.batches[b].headId;
        assert k in t.heads && t.heads[k] == s.heads[k];
      }
    }
  }

  lemma NothingSeparates(rows: seq<Item>)
    requires multiset(rows) == multiset{}
    ensures Separates(ItemLeq(), rows)
  {
    assert |rows| == |multiset(rows)|;
  }

  // ---- the verdict on what was just published ----

  predicate AtMostTenParents(bs: seq<Blueprint>) {
    forall i :: 0 <= i < |bs| ==> |bs[i].parents| <= 10
  }

  function RawsOf(ps: seq<Prepared>): (bs: seq<Blueprint>)
    ensures |bs| == |ps| && forall i :: 0 <= i < |ps| ==> bs[i] == ps[i].raw
  {
    seq(|ps|, i requires 0 <= i < |ps| => ps[i].raw)
  }

  /** The registry catalog was built from definitions. */
  ghost predicate Built(active: seq<Registry.Definition>, compat: seq<Registry.Definition>,
                        h: Registry.Payload -> Registry.Hash,
                        m: Registry.Raws, catalog: Registry.Catalog) {
    Registry.Builds(active, compat, h, m, catalog) && Registry.Filed(m, catalog.active)
  }

  lemma StoredPasses(active: seq<Registry.Definition>, compat: seq<Registry.Definition>,
                     h: Registry.Payload -> Registry.Hash, m: Registry.Raws,
                     catalog: Registry.Catalog, t: Store, p: Prepared, activeOnly: bool)
    requires Built(active, compat, h, m, catalog) && Sound(p, catalog) && Stored(t, COMPILER_CONTRACT, p)
    ensures CheckStored(t, p.ids.revisionId, catalog, activeOnly) == if |p.raw.parents| <= 10 then None
      else Some(ReferenceNotFound)
  {
    hide Registry.Builds, Registry.Filed, Sound, CheckRevision;
    var id := p.ids.revisionId;
    RevisionPassesIffTen(active, compat, h, m, catalog, p, Listed(t.parentRows[id]), Listed(t.registryRows[id]),
      activeOnly);
  }

  lemma {:induction false} FirstErrorIffTen(active: seq<Registry.Definition>, compat: seq<Registry.Definition>,
                                            h: Registry.Payload -> Registry.Hash, m: Registry.Raws,
                                            catalog: Registry.Catalog, t: Store, ps: seq<Prepared>, activeOnly: bool)
    requires Built(active, compat, h, m, catalog) && Valid(t) && ItemsKnown(t, ItemRows(ps))
    requires forall i :: 0 <= i < |ps| ==> Sound(ps[i], catalog) && Stored(t, COMPILER_CONTRACT, ps[i])
    ensures FirstError(t, ItemRows(ps), catalog, activeOnly) == if AtMostTenParents(RawsOf(ps)) then None
      else Some(ReferenceNotFound)
    decreases |ps|
  {
    hide Valid, Built, Sound, Stored, CheckStored;
    if ps != [] {
      StoredPasses(active, compat, h, m, catalog, t, ps[0], activeOnly);
      var rest := ps[1..];
      assert ItemRows(ps)[1..] == ItemRows(rest);
      FirstErrorIffTen(active, compat, h, m, catalog, t, rest, activeOnly);
      TenOfRest(ps);
    }
  }

  lemma TenOfRest(ps: seq<Prepared>)
    requires ps != []
    ensures AtMostTenParents(RawsOf(ps)) <==> |ps[0].raw.parents| <= 10 && AtMostTenParents(RawsOf(ps[1..]))
  {
    forall i | 0 < i < |ps| ensures RawsOf(ps)[i] == RawsOf(ps[1..])[i - 1] { }
    if |ps[0].raw.parents| <= 10 && AtMostTenParents(RawsOf(ps[1..])) {
      forall i | 0 <= i < |ps| ensures |RawsOf(ps)[i].parents| <= 10 {
        if i > 0 { assert RawsOf(ps)[i] == RawsOf(ps[1..])[i - 1]; }
      }
    }
    if AtMostTenParents(RawsOf(ps)) {
      forall i | 0 <= i < |ps[1..]|
        ensures |RawsOf(ps[1..])[i].parents| <= 10
      {
        assert RawsOf(ps)[i + 1] == RawsOf(ps[1..])[i];
      }
      assert RawsOf(ps)[0] == ps[0].raw;
    }
  }

  function IdentityOf(bundle: Bundle, headId: Id, batchId: Id, ps: seq<Prepared>): Identity {
    Identity(headId, batchId, 1, bundle.seedId, ReleaseOf(ps), |ps|)
  }

  lemma StoredPayloads(bundle: Bundle, t: Store, batch: Batch, ps: seq<Prepared>)
    requires ItemsKnown(t, ItemRows(ps)) && (forall i :: 0 <= i < |ps| ==> Stored(t, COMPILER_CONTRACT, ps[i]))
      && batch.manifest == bundle.manifest
    ensures StoredSeed(t, bundle, batch, ItemRows(ps))
      == SeedDigest(bundle.seedId, bundle.target, bundle.manifest, bundle.contract, RawsOf(ps))
    ensures StoredRelease(t, ItemRows(ps)) == ReleaseOf(ps)
  {
    forall i | 0 <= i < |ps| ensures t.revisions[ItemRows(ps)[i].revisionId] == RevisionRow(ps[i], COMPILER_CONTRACT) {
      assert Stored(t, COMPILER_CONTRACT, ps[i]);
    }
    assert StoredSeed(t, bundle, batch, ItemRows(ps)).blueprints == RawsOf(ps);
    assert StoredRelease(t, ItemRows(ps)).items == ReleaseOf(ps).items;
  }

  /** What any verdict on freshly published content is. */
  lemma PublishedVerdict(active: seq<Registry.Definition>, compat: seq<Registry.Definition>,
                         h: Registry.Payload -> Registry.Hash, m: Registry.Raws,
                         catalog: Registry.Catalog, s: Store, bundle: Bundle, headId: Id, batchId: Id,
                           ps: seq<Prepared>,
                         result: Result<Option<Identity>, ReleaseError>)
    requires Built(active, compat, h, m, catalog) && Fresh(s, bundle, headId, batchId) && Ready(ps, catalog)
    requires bundle.contract == COMPILER_CONTRACT && bundle.blueprints == RawsOf(ps)
    requires bundle.contentHash
      == SeedDigest(bundle.seedId, bundle.target, bundle.manifest, bundle.contract, bundle.blueprints)
    requires Valid(Publish(s, bundle, headId, batchId, ps))
      && Verdict(Publish(s, bundle, headId, batchId, ps), bundle, catalog, result)
    ensures result == if AtMostTenParents(bundle.blueprints) then Ok(Some(IdentityOf(bundle, headId, batchId, ps)))
      else Err(ReferenceNotFound)
  {
    hide Publish, Valid, Built, Sound, Stored, CheckStored, FirstError, ReleaseOf, StoredRelease, StoredSeed,
      AtMostTenParents, DistinctIds, AscendingKeys, OfSome, Separates, Sort;
    var t := Publish(s, bundle, headId, batchId, ps);
    PublishedRows(s, bundle, headId, batchId, ps);
    FreshIsEmpty(s, bundle, headId, batchId);
    assert IsSeedBatch(t, headId, bundle.seedId, batchId);
    ItemsRestore(ps, Listed(t.items[batchId]));
    assert ItemsOf(t, batchId) == ItemRows(ps);
    ItemsOfKnown(t, batchId);
    StoredPayloads(bundle, t, t.batches[batchId], ps);
    FirstErrorIffTen(active, compat, h, m, catalog, t, ps, false);
    FirstErrorIffTen(active, compat, h, m, catalog, t, ps, true);
    assert VerdictOn(t, bundle, catalog, t.heads[bundle.target], batchId, result);
    if AtMostTenParents(bundle.blueprints) {
      forall id | id in t.revisions ensures CheckStored(t, id, catalog, false).None? {
        PublishedPasses(active, compat, h, m, catalog, t, ps, id);
      }
    }
  }

  lemma PublishedPasses(active: seq<Registry.Definition>, compat: seq<Registry.Definition>,
                        h: Registry.Payload -> Registry.Hash, m: Registry.Raws,
                        catalog: Registry.Catalog, t: Store, ps: seq<Prepared>, id: Id)
    requires Built(active, compat, h, m, catalog) && OfSome(ps, id) && AtMostTenParents(RawsOf(ps))
    requires forall i :: 0 <= i < |ps| ==> Sound(ps[i], catalog) && Stored(t, COMPILER_CONTRACT, ps[i])
    ensures id in t.revisions && id in t.parentRows && id in t.registryRows && CheckStored(t, id, catalog, false).None?
  {
    hide Built, Sound, CheckStored;
    var i :| 0 <= i < |ps| && ps[i].ids.revisionId == id;
    StoredPasses(active, compat, h, m, catalog, t, ps[i], false);
    assert |RawsOf(ps)[i].parents| <= 10;
  }
}
