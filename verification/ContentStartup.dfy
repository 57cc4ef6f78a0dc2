/**
 Starting a content namespace: the first start compiles the seed bundle and publishes it, every
 later start verifies what is stored.
 */
module ContentStartup {
  import opened Wrappers
  import opened Ordering
  import opened BlueprintCompiler
  import opened ContentRelease
  import opened ReleaseRoundTrip
  import Registry = RegistryCatalog

  datatype Status = Bootstrapped | Verified
  datatype Started = Started(status: Status, identity: Identity)

  /** Fresh identifiers of heads and revisions, one pair per blueprint key. */
  ghost predicate FreshIds(ids: string -> Ids) {
    forall a, b :: ids(a).revisionId == ids(b).revisionId ==> a == b
  }

  predicate ContentHashOk(bundle: Bundle) {
    bundle.contentHash == SeedDigest(bundle.seedId, bundle.target, bundle.manifest, bundle.contract, bundle.blueprints)
  }

  ghost predicate AscendingBundle(bs: seq<Blueprint>) {
    forall i, j :: 0 <= i < j < |bs| ==> StringLeq()(bs[i].key, bs[j].key)
  }

  function BlueprintKey(b: Blueprint): string {
    b.key
  }

  /** A seed bundle as it is put together: blueprints by key, and the hash of it all. */
  function BuildBundle(seedId: string, target: string, manifest: string, contract: string,
                       blueprints: seq<Blueprint>): Bundle {
    var sorted := Sort(By(BlueprintKey, StringLeq()), blueprints);
    Bundle(seedId, target, manifest, contract, sorted, SeedDigest(seedId, target, manifest, contract, sorted))
  }

  /** Every built bundle lists its blueprints by key and carries its own hash. */
  lemma BuiltBundles(seedId: string, target: string, manifest: string, contract: string, blueprints: seq<Blueprint>)
    ensures var bundle := BuildBundle(seedId, target, manifest, contract, blueprints);
            && ContentHashOk(bundle) && AscendingBundle(bundle.blueprints)
               && multiset(bundle.blueprints) == multiset(blueprints)
  {
    var leq := By(BlueprintKey, StringLeq());
    StringOrder();
    ByIsPreorder(BlueprintKey, StringLeq());
    SortSorts(leq, blueprints);
    var bs := BuildBundle(seedId, target, manifest, contract, blueprints).blueprints;
    forall i, j | 0 <= i < j < |bs| ensures StringLeq()(bs[i].key, bs[j].key) {
      assert leq(bs[i], bs[j]);
    }
  }

  lemma KeysSorted(bs: seq<Blueprint>)
    requires UniqueKeys(bs)
    ensures var keys := Sort(StringLeq(), KeysOf(bs));
            && Sorted(StringLeq(), keys) && multiset(keys) == multiset(KeysOf(bs)) && |keys| == |bs|
            && forall i, j :: 0 <= i < j < |keys| ==> keys[i] != keys[j]
  {
    hide Sort, Sorted;
    StringOrder();
    SortSorts(StringLeq(), KeysOf(bs));
    var keys := Sort(StringLeq(), KeysOf(bs));
    assert |keys| == |multiset(keys)| == |multiset(KeysOf(bs))|;
    assert multiset(keys) == multiset(KeysOf(bs));
    forall i, j | 0 <= i < j < |keys| ensures keys[i] != keys[j] {
      Once(bs, keys, i, j);
    }
  }

  lemma Once(bs: seq<Blueprint>, keys: seq<string>, i: nat, j: nat)
    requires UniqueKeys(bs) && multiset(keys) == multiset(KeysOf(bs)) && i < j < |keys|
    ensures keys[i] != keys[j]
  {
    if keys[i] == keys[j] {
      TwiceInMultiset(keys, i, j);
      SinglesInMultiset(KeysOf(bs), keys[i]);
      assert false;
    }
  }

  /** A compiled bundle is ready to be published. */
  lemma CompiledIsReady(bs: seq<Blueprint>, raws: Blueprints, ids: string -> Ids, contract: string,
                        catalog: Registry.Catalog, ps: seq<Prepared>)
    requires UniqueKeys(bs) && TableOf(raws, bs) && CatalogFiled(catalog) && FreshIds(ids)
    requires CompiledAll(raws, ids, contract, catalog, Sort(StringLeq(), KeysOf(bs)), ps)
    ensures Ready(ps, catalog)
    ensures AscendingBundle(bs) ==> RawsOf(ps) == bs
  {
    hide Sort, Compile, Sound, CatalogFiled, UniqueKeys, Faithful;
    var keys := Sort(StringLeq(), KeysOf(bs));
    KeysSorted(bs);
    forall i | 0 <= i < |ps|
      ensures Sound(ps[i], catalog) && keys[i] in raws && ps[i].raw == raws[keys[i]] && ps[i].ids == ids(keys[i])
    {
      assert Compile(raws, ids, contract, catalog, keys[i], []) == Ok(ps[i]);
      CompiledIsSound(raws, ids, contract, catalog, keys[i]);
      InheritanceMeaning(raws, ids, contract, catalog, keys[i], []);
    }
    if AscendingBundle(bs) {
      SortedAlready(bs);
      assert keys == KeysOf(bs);
      assert RawsOf(ps) == bs;
    }
  }

  lemma SortedAlready(bs: seq<Blueprint>)
    requires UniqueKeys(bs) && AscendingBundle(bs)
    ensures Sort(StringLeq(), KeysOf(bs)) == KeysOf(bs)
  {
    hide Sort, UniqueKeys;
    StringOrder();
    SortRestores(StringLeq(), KeysOf(bs), KeysOf(bs));
  }

  lemma BuiltIsFiled(active: seq<Registry.Definition>, compat: seq<Registry.Definition>,
                     h: Registry.Payload -> Registry.Hash, m: Registry.Raws, catalog: Registry.Catalog)
    requires Built(active, compat, h, m, catalog)
    ensures CatalogFiled(catalog)
  {
  }

  /** Every catalog built from definitions files its active definitions under their own keys. */
  lemma BuildsIsBuilt(active: seq<Registry.Definition>, compat: seq<Registry.Definition>,
                      h: Registry.Payload -> Registry.Hash, m: Registry.Raws, catalog: Registry.Catalog)
    requires Registry.Builds(active, compat, h, m, catalog)
    ensures Built(active, compat, h, m, catalog)
  {
    Registry.ResolvedIsExact(Registry.Collect(map[], compat + active).value, h, m);
    Registry.ExactIsKeyed(m, h);
    Registry.NothingFiled(m);
    Registry.ActiveAreResolved(m, map[], active);
  }

  /** The second start.  After a first start published a bundle whose blueprints were listed by
      key, verifying with the same catalog answers with the identity of the first start if no
      blueprint lists more than ten parents, and fails otherwise, whatever order the database
      returns the rows in. */
  lemma SecondStart(active: seq<Registry.Definition>, compat: seq<Registry.Definition>,
                    h: Registry.Payload -> Registry.Hash, m: Registry.Raws,
                    catalog: Registry.Catalog, s: Store, bundle: Bundle, headId: Id, batchId: Id, raws: Blueprints,
                      ids: string -> Ids,
                    ps: seq<Prepared>, result: Result<Option<Identity>, ReleaseError>)
    requires Registry.Builds(active, compat, h, m, catalog) && Fresh(s, bundle, headId, batchId)
    requires bundle.contract == COMPILER_CONTRACT && ContentHashOk(bundle)
    requires UniqueKeys(bundle.blueprints) && AscendingBundle(bundle.blueprints) && TableOf(raws, bundle.blueprints)
      && FreshIds(ids)
    requires CompiledAll(raws, ids, bundle.contract, catalog, Sort(StringLeq(), KeysOf(bundle.blueprints)), ps)
    requires Valid(Publish(s, bundle, headId, batchId, ps))
      && Verdict(Publish(s, bundle, headId, batchId, ps), bundle, catalog, result)
    ensures result == if AtMostTenParents(bundle.blueprints) then Ok(Some(IdentityOf(bundle, headId, batchId, ps)))
      else Err(ReferenceNotFound)
  {
    hide Registry.Builds, Publish, Valid, Verdict, Ready, CompiledAll, UniqueKeys, TableOf, AscendingBundle;
    BuildsIsBuilt(active, compat, h, m, catalog);
    BuiltIsFiled(active, compat, h, m, catalog);
    CompiledIsReady(bundle.blueprints, raws, ids, bundle.contract, catalog, ps);
    PublishedVerdict(active, compat, h, m, catalog, s, bundle, headId, batchId, ps, result);
  }

  /** Publishing adds one head and one batch. */
  lemma PublishFrame(s: Store, bundle: Bundle, headId: Id, batchId: Id, ps: seq<Prepared>)
    ensures var t := Publish(s, bundle, headId, batchId, ps);
            && t.batches.Keys == s.batches.Keys + {batchId}
            && t.heads == s.heads[bundle.target := Head(headId, Some(batchId), 1)]
  {
    AddAllFrame(Opened(s, bundle, headId, batchId, ps), batchId, bundle.contract, ps);
  }

  lemma {:induction false} AddAllFrame(s: Store, batchId: Id, contract: string, ps: seq<Prepared>)
    requires batchId in s.items
    ensures AddAll(s, batchId, contract, ps).heads == s.heads && AddAll(s, batchId, contract, ps).batches == s.batches
    decreases |ps|
  {
    if ps == [] {
    } else {
      AddAllFrame(s, batchId, contract, ps[..|ps| - 1]);
    }
  }

  class ContentStore {
    var db: Store

    constructor ()
      ensures db == Store(map[], map[], map[], map[], map[], map[], map[])
    {
      db := Store(map[], map[], map[], map[], map[], map[], map[]);
    }

    /** The rows in whatever order the database returns them. */
    method Rows<T(==)>(m: multiset<T>) returns (rows: seq<T>)
      ensures multiset(rows) == m
    {
      rows := [];
      var rest := m;
      while rest != multiset{}
        invariant multiset(rows) + rest == m
        decreases |rest|
      {
        var x :| x in rest;
        rest := rest - multiset{x};
        rows := rows + [x];
      }
    }

    method VerifyRevision(id: Id, catalog: Registry.Catalog, activeOnly: bool) returns (error: Option<ReleaseError>)
      requires Valid(db) && id in db.revisions
      ensures error == CheckStored(db, id, catalog, activeOnly)
      ensures error.None? ==> RevisionSound(db, id, catalog, activeOnly)
    {
      hide Sort, Separates, CheckRevision, HeadsKnown, BatchesKnown, ActiveKnown, ItemsPublished,
        ContentRelease.ItemsSeparate, RevisionSound;
      Orders();
      var parents := Rows(db.parentRows[id]);
      var registry := Rows(db.registryRows[id]);
      SortOfSame(ParentLeq(), Listed(db.parentRows[id]), parents);
      SortOfSame(RegistryLeq(), Listed(db.registryRows[id]), registry);
      error := CheckRevision(id, db.revisions[id], Sort(ParentLeq(), parents), Sort(RegistryLeq(), registry), catalog,
        activeOnly);
      if error.None? { PassedIsSound(db, id, catalog, activeOnly); }
    }

    /** The items of a batch, in the order of their keys. */
    method ItemsByKey(b: Id) returns (items: seq<Item>)
      requires Valid(db) && b in db.items
      ensures items == ItemsOf(db, b)
    {
      hide Sort, Separates, HeadsKnown, BatchesKnown, ActiveKnown, ItemsPublished, DependenciesSeparate;
      Orders();
      var rows := Rows(db.items[b]);
      SortOfSame(ItemLeq(), Listed(db.items[b]), rows);
      items := Sort(ItemLeq(), rows);
    }

    method VerifyItems(items: seq<Item>, catalog: Registry.Catalog, activeOnly: bool)
      returns (error: Option<ReleaseError>)
      requires Valid(db) && ItemsKnown(db, items)
      ensures error == FirstError(db, items, catalog, activeOnly)
    {
      hide Valid, CheckStored;
      var rest := items;
      while rest != []
        invariant ItemsKnown(db, rest)
          && FirstError(db, rest, catalog, activeOnly) == FirstError(db, items, catalog, activeOnly)
        decreases |rest|
      {
        error := VerifyRevision(rest[0].revisionId, catalog, activeOnly);
        if error.Some? {
          return;
        }
        rest := rest[1..];
      }
      error := None;
    }

    method VerifyHistory(catalog: Registry.Catalog) returns (error: Option<ReleaseError>)
      requires Valid(db)
      ensures error.None? ==> forall id :: id in db.revisions ==> CheckStored(db, id, catalog, false).None?
      ensures error.Some? ==> exists id :: id in db.revisions && CheckStored(db, id, catalog, false) == error
    {
      hide RevisionSound, CheckStored;
      var todo := db.revisions.Keys;
      while todo != {}
        invariant todo <= db.revisions.Keys
        invariant forall id :: id in db.revisions && id !in todo ==> CheckStored(db, id, catalog, false).None?
      {
        var id :| id in todo;
        todo := todo - {id};
        error := VerifyRevision(id, catalog, false);
        if error.Some? {
          return;
        }
      }
      error := None;
    }

    /** The earliest batch of the head that was seeded with this bundle id. */
    method FindSeedBatch(headId: Id, seedId: string) returns (found: Option<Id>)
      ensures found.None? ==> !exists b :: IsSeedBatch(db, headId, seedId, b)
      ensures found.Some? ==>
                && IsSeedBatch(db, headId, seedId, found.value)
                && forall o :: IsSeedBatch(db, headId, seedId, o) ==>
                   db.batches[found.value].version <= db.batches[o].version
    {
      found := None;
      var todo := db.batches.Keys;
      while todo != {}
        invariant todo <= db.batches.Keys
        invariant found.Some? ==> IsSeedBatch(db, headId, seedId, found.value)
        invariant forall o :: IsSeedBatch(db, headId, seedId, o) ==>
          o in todo || (found.Some? && db.batches[found.value].version <= db.batches[o].version)
      {
        var b :| b in todo;
        todo := todo - {b};
        if db.batches[b].headId == headId && db.batches[b].seedId == seedId
           && (found.None? || db.batches[b].version < db.batches[found.value].version) {
          found := Some(b);
        }
      }
    }

    /** Verifies existing content; None means that there is nothing yet. */
    method VerifyExisting(bundle: Bundle, catalog: Registry.Catalog)
      returns (result: Result<Option<Identity>, ReleaseError>)
      requires Valid(db)
      ensures Verdict(db, bundle, catalog, result)
      ensures result.Ok? && result.value.Some? ==> ReleaseSound(db, bundle, catalog, result.value.value)
      ensures result == Ok(None) <==> bundle.target !in db.heads && db.blueprintHeads == map[]
    {
      hide CheckStored, FirstError, StoredSeed, StoredRelease, ItemsOf, HeadsKnown, BatchesKnown, ItemsPublished,
        RowsSeparate, ItemsKnown, ReleaseSound;
      if bundle.target !in db.heads {
        return if db.blueprintHeads.Keys != {} then Err(ScopeMismatch) else Ok(None);
      }
      var head := db.heads[bundle.target];
      if head.activeBatch.None? {
        return Err(ValidationFailed);
      }
      var seed := FindSeedBatch(head.id, bundle.seedId);
      if seed.None? {
        return Err(ScopeMismatch);
      }
      result := VerifyInitialized(bundle, catalog, head, seed.value);
      assert IsSeedBatch(db, head.id, bundle.seedId, seed.value)
        && VerdictOn(db, bundle, catalog, head, seed.value, result);
      if result.Ok? {
        NeverNothing(db, bundle, catalog, head, seed.value);
        VerifiedIsSound(db, bundle, catalog, result.value.value);
      }
    }

    method VerifyInitialized(bundle: Bundle, catalog: Registry.Catalog, head: Head, seed: Id)
      returns (result: Result<Option<Identity>, ReleaseError>)
      requires Valid(db) && seed in db.batches && head.activeBatch.Some? && head.activeBatch.value in db.batches
      ensures VerdictOn(db, bundle, catalog, head, seed, result)
    {
      hide CheckStored, FirstError, ItemsOf, HeadsKnown, BatchesKnown, ActiveKnown, ItemsPublished, RowsSeparate;
      var batch, active := db.batches[seed], db.batches[head.activeBatch.value];
      var seedItems := ItemsByKey(seed);
      ItemsOfKnown(db, seed);
      var payloads :=
        seq(|seedItems|,
        i requires 0 <= i < |seedItems| && seedItems[i].revisionId in db.revisions reads this =>
        db.revisions[seedItems[i].revisionId].raw);
      if SeedDigest(bundle.seedId, bundle.target, batch.manifest, bundle.contract, payloads) != bundle.contentHash {
        return Err(ValidationFailed);
      }
      var error := VerifyItems(seedItems, catalog, false);
      if error.Some? {
        return Err(error.value);
      }
      error := VerifyHistory(catalog);
      if error.Some? {
        return Err(error.value);
      }
      var activeItems := ItemsByKey(head.activeBatch.value);
      ItemsOfKnown(db, head.activeBatch.value);
      error := VerifyItems(activeItems, catalog, true);
      if error.Some? {
        return Err(error.value);
      }
      if StoredRelease(db, activeItems) != active.releaseHash {
        return Err(ValidationFailed);
      }
      result := Ok(Some(Identity(head.id, head.activeBatch.value, active.version, bundle.seedId, active.releaseHash,
        |activeItems|)));
    }

    /** Creates the rows of a compiled bundle, table by table and blueprint by blueprint. */
    method PublishRows(bundle: Bundle, headId: Id, batchId: Id, ps: seq<Prepared>)
      modifies this
      ensures db == Publish(old(db), bundle, headId, batchId, ps)
    {
      hide Add, ReleaseOf;
      db := db.(heads := db.heads[bundle.target := Head(headId, Some(batchId), 1)]);
      db := db.(batches := db.batches[batchId := Batch(headId, 1, bundle.manifest, bundle.seedId, ReleaseOf(ps))]);
      db := db.(items := db.items[batchId := multiset{}]);
      ghost var empty := db;
      for i := 0 to |ps|
        invariant batchId in db.items && db == AddAll(empty, batchId, bundle.contract, ps[..i])
      {
        assert ps[..i + 1][..i] == ps[..i];
        AddKeepsBatch(db, batchId, bundle.contract, ps[i]);
        db := Add(db, batchId, bundle.contract, ps[i]);
      }
      assert ps[..|ps|] == ps;
    }

    /** Starts the namespace: verifies what is there, or publishes the bundle if nothing is. */
    method Bootstrap(bundle: Bundle, catalog: Registry.Catalog, ids: string -> Ids, headId: Id, batchId: Id)
      returns (result: Result<Started, ReleaseError>, ghost verdict: Result<Option<Identity>, ReleaseError>,
        ghost raws: Blueprints, ghost ps: seq<Prepared>)
      requires Valid(db) && CatalogFiled(catalog) && FreshIds(ids)
      requires batchId !in db.batches && forall t :: t in db.heads ==> db.heads[t].id != headId
      modifies this
      ensures Valid(db)
      ensures bundle.contract != COMPILER_CONTRACT || !ContentHashOk(bundle) ==>
        result == Err(ValidationFailed) && db == old(db)
      ensures bundle.contract == COMPILER_CONTRACT && ContentHashOk(bundle) ==>
        && Verdict(old(db), bundle, catalog, verdict)
        && (verdict.Err? ==> result == Err(verdict.error) && db == old(db))
        && (verdict.Ok? && verdict.value.Some? ==>
           result == Ok(Started(Verified, verdict.value.value)) && db == old(db))
        && (verdict.Ok? && verdict.value.None? ==>
              && Fresh(old(db), bundle, headId, batchId)
              && (result.Err? ==> db == old(db) && result.error.CompileFailure?)
              && (result.Ok? ==>
                    && UniqueKeys(bundle.blueprints) && TableOf(raws, bundle.blueprints)
                    && CompiledAll(raws, ids, bundle.contract, catalog, Sort(StringLeq(), KeysOf(bundle.blueprints)),
                       ps)
                    && db == Publish(old(db), bundle, headId, batchId, ps)
                    && result.value == Started(Bootstrapped, IdentityOf(bundle, headId, batchId, ps))))
      // the same, read off the rows
      ensures result.Ok? ==>
        && bundle.contract == "blueprint-compiler/1"
        && bundle.contentHash
           == SeedDigest(bundle.seedId, bundle.target, bundle.manifest, bundle.contract, bundle.blueprints)
      ensures result.Ok? && result.value.status.Bootstrapped? ==>
        && bundle.target !in old(db).heads && old(db).blueprintHeads == map[]
        && BundleBuilt(bundle.blueprints, ps, ids, bundle.contract, catalog)
        && PublishedAs(old(db), db, bundle, headId, batchId, ps)
        && result.value.identity == Identity(headId, batchId, 1, bundle.seedId, db.batches[batchId].releaseHash, |ps|)
      ensures result.Ok? && result.value.status.Verified? ==>
        db == old(db) && ReleaseSound(db, bundle, catalog, result.value.identity)
    {
      hide Valid, Verdict, UniqueKeys, TableOf, CompiledAll, Publish, Ready, CatalogFiled, FreshIds, Compile, Sort,
        ReleaseSound, BundleBuilt, PublishedAs, Fresh, ReleaseOf;
      verdict, raws, ps := Ok(None), map[], [];
      if bundle.contract != COMPILER_CONTRACT {
        return Err(ValidationFailed), verdict, raws, ps;
      }
      if !ContentHashOk(bundle) {
        return Err(ValidationFailed), verdict, raws, ps;
      }
      var existing := VerifyExisting(bundle, catalog);
      verdict := existing;
      if existing.Err? {
        return Err(existing.error), verdict, raws, ps;
      }
      if existing.value.Some? {
        return Ok(Started(Verified, existing.value.value)), verdict, raws, ps;
      }
      NothingMeansFresh(db, bundle, catalog, headId, batchId);
      var prepared, table := PrepareBlueprints(bundle.blueprints, ids, bundle.contract, catalog);
      raws := table;
      if prepared.Err? {
        return Err(CompileFailure(prepared.error)), verdict, raws, ps;
      }
      ps := prepared.value;
      CompiledIsReady(bundle.blueprints, raws, ids, bundle.contract, catalog, ps);
      PublishValid(db, bundle, headId, batchId, ps, catalog);
      PublishRows(bundle, headId, batchId, prepared.value);
      PublishExplicit(old(db), bundle, headId, batchId, ps, catalog);
      result := Ok(Started(Bootstrapped, IdentityOf(bundle, headId, batchId, prepared.value)));
    }

    /** Two starts in a row.  Once the first has published the bundle, the second writes nothing: the
        store is the one the first publication gives.  It answers Verified with the very identity of
        the first if no blueprint lists more than ten parents, and fails otherwise. */
    method BootstrapTwice(bundle: Bundle, catalog: Registry.Catalog, ids: string -> Ids, headId: Id, batchId: Id,
                          laterIds: string -> Ids, laterHead: Id, laterBatch: Id,
                          ghost active: seq<Registry.Definition>, ghost compat: seq<Registry.Definition>,
                          ghost h: Registry.Payload -> Registry.Hash, ghost m: Registry.Raws)
      returns (first: Result<Started, ReleaseError>, second: Result<Started, ReleaseError>,
        ghost raws: Blueprints, ghost ps: seq<Prepared>)
      requires Valid(db) && Registry.Builds(active, compat, h, m, catalog) && AscendingBundle(bundle.blueprints)
      requires FreshIds(ids) && batchId !in db.batches && forall t :: t in db.heads ==> db.heads[t].id != headId
      requires FreshIds(laterIds) && laterBatch !in db.batches
        && forall t :: t in db.heads ==> db.heads[t].id != laterHead
      requires laterBatch != batchId && laterHead != headId
      modifies this
      ensures Valid(db)
      ensures first.Ok? && first.value.status.Bootstrapped? ==>
        && TableOf(raws, bundle.blueprints)
        && CompiledAll(raws, ids, bundle.contract, catalog, Sort(StringLeq(), KeysOf(bundle.blueprints)), ps)
        && db == Publish(old(db), bundle, headId, batchId, ps)
        && first.value.identity == IdentityOf(bundle, headId, batchId, ps)
        && second == if AtMostTenParents(bundle.blueprints) then Ok(Started(Verified, first.value.identity))
                     else Err(ReferenceNotFound)
    {
      hide Valid, Verdict, UniqueKeys, TableOf, CompiledAll, Publish, Fresh, CatalogFiled, FreshIds, Compile, Sort,
        Registry.Builds, AtMostTenParents, AscendingBundle;
      BuildsIsBuilt(active, compat, h, m, catalog);
      BuiltIsFiled(active, compat, h, m, catalog);
      ghost var before := db;
      ghost var verdict;
      first, verdict, raws, ps := Bootstrap(bundle, catalog, ids, headId, batchId);
      PublishFrame(before, bundle, headId, batchId, ps);
      ghost var again, raws2, ps2;
      second, again, raws2, ps2 := Bootstrap(bundle, catalog, laterIds, laterHead, laterBatch);
      if first.Ok? && first.value.status.Bootstrapped? {
        SecondStart(active, compat, h, m, catalog, before, bundle, headId, batchId, raws, ids, ps, again);
      }
    }
  }

  lemma AddKeepsBatch(s: Store, batchId: Id, contract: string, p: Prepared)
    requires batchId in s.items
    ensures batchId in Add(s, batchId, contract, p).items
  {
  }

  lemma NothingMeansFresh(s: Store, bundle: Bundle, catalog: Registry.Catalog, headId: Id, batchId: Id)
    requires Valid(s) && Verdict(s, bundle, catalog, Ok(None))
    requires batchId !in s.batches && forall t :: t in s.heads ==> s.heads[t].id != headId
    ensures Fresh(s, bundle, headId, batchId)
  {
    hide Valid, VerdictOn, IsSeedBatch;
    if bundle.target in s.heads {
      ActiveIsBatch(s, bundle.target);
      var head := s.heads[bundle.target];
      if b :| IsSeedBatch(s, head.id, bundle.seedId, b) && head.activeBatch.Some?
              && VerdictOn(s, bundle, catalog, head, b, Ok(None)) {
        NeverNothing(s, bundle, catalog, head, b);
      }
    }
  }

  lemma ActiveIsBatch(s: Store, target: string)
    requires Valid(s) && target in s.heads
    ensures s.heads[target].activeBatch.Some? ==> s.heads[target].activeBatch.value in s.batches
    ensures forall id, seedId, b :: IsSeedBatch(s, id, seedId, b) ==> b in s.batches
  {
  }

  lemma NeverNothing(s: Store, bundle: Bundle, catalog: Registry.Catalog, head: Head, seed: Id)
    requires Valid(s) && seed in s.batches && head.activeBatch.Some? && head.activeBatch.value in s.batches
    ensures !VerdictOn(s, bundle, catalog, head, seed, Ok(None))
  {
    hide Valid, CheckStored, FirstError, ItemsOf, StoredSeed, StoredRelease;
  }
}
