/**
 Publishing a compiled seed bundle into an empty content namespace, and verifying it again at the
 next start from nothing but the stored rows.
 */
module ContentRelease {
  import opened Wrappers
  import opened Ordering
  import opened BlueprintCompiler
  import Registry = RegistryCatalog

  const COMPILER_CONTRACT: string := "blueprint-compiler/1"

  datatype SeedDigest = SeedDigest(seedId: string, target: string, manifest: string, contract: string,
    blueprints: seq<Blueprint>)

  datatype Bundle = Bundle(seedId: string, target: string, manifest: string, contract: string,
    blueprints: seq<Blueprint>, contentHash: SeedDigest)

  datatype ReleaseItem = ReleaseItem(headId: Id, key: string, revisionId: Id, contentHash: Digest, compiledHash: Digest)

  datatype ReleaseDigest = ReleaseDigest(items: seq<ReleaseItem>)

  datatype Head = Head(id: Id, activeBatch: Option<Id>, version: nat)
  datatype Batch = Batch(headId: Id, version: nat, manifest: string, seedId: string, releaseHash: ReleaseDigest)
  datatype Item = Item(headId: Id, key: string, revisionId: Id)
  datatype Revision = Revision(raw: Blueprint, compiled: Compiled, contentHash: Digest, compiledHash: Digest,
    dependencyHash: Digest, contract: string)

  /** The rows of one content namespace.  Rows that the database returns in no particular order are
      multisets. */
  datatype Store = Store(
    heads: map<string, Head>,
    blueprintHeads: map<string, Id>,
    batches: map<Id, Batch>,
    items: map<Id, multiset<Item>>,
    revisions: map<Id, Revision>,
    parentRows: map<Id, multiset<ParentDependency>>,
    registryRows: map<Id, multiset<RegistryDependency>>)

  datatype Identity = Identity(headId: Id, batchId: Id, version: nat, seedId: string, releaseHash: ReleaseDigest,
    count: nat)

  datatype ReleaseError =
    | ValidationFailed | ScopeMismatch | ReferenceNotFound | HashMismatch
    | RegistryFailure(cause: Registry.RegistryError) | CompileFailure(failure: CompileError)

  // ---- orders of the stored rows ----

  function ParentRank(d: ParentDependency): Rank {
    (["parent", d.path], d.ordinal)
  }

  function ParentLeq(): (ParentDependency, ParentDependency) -> bool {
    By(ParentRank, RankLeq())
  }

  function PlaceRank(d: RegistryDependency): Rank {
    ([d.path], d.ordinal)
  }

  function PlaceLeq(): (RegistryDependency, RegistryDependency) -> bool {
    By(PlaceRank, RankLeq())
  }

  function ItemKey(i: Item): string {
    i.key
  }

  function ItemLeq(): (Item, Item) -> bool {
    By(ItemKey, StringLeq())
  }

  lemma Orders()
    ensures TotalPreorder(ParentLeq()) && TotalPreorder(RegistryLeq()) && TotalPreorder(PlaceLeq())
      && TotalPreorder(ItemLeq())
  {
    RankOrder();
    StringOrder();
    ByIsPreorder(ParentRank, RankLeq());
    ByIsPreorder(RegistryRank, RankLeq());
    ByIsPreorder(PlaceRank, RankLeq());
    ByIsPreorder(ItemKey, StringLeq());
  }

  // ---- verification of one published revision ----

  /** One registry dependency, against the active definitions or against all known ones. */
  function CheckDependency(catalog: Registry.Catalog, active: bool, d: RegistryDependency): Option<ReleaseError> {
    var id := d.reference.id;
    if active then
      match catalog.ResolveActive(id.kind, id.key, None)
      case Err(e) => Some(RegistryFailure(e))
      case Ok(definition) =>
        if definition.id.version != id.version || definition.hash != d.reference.hash
        then Some(RegistryFailure(Registry.VersionContentMismatch(id))) else None
    else
      match catalog.ResolveExact(d.reference)
      case Err(e) => Some(RegistryFailure(e))
      case Ok(_) => None
  }

  function CheckDependencies(catalog: Registry.Catalog, active: bool,
                             ds: seq<RegistryDependency>): Option<ReleaseError> {
    if ds == [] then None
    else match CheckDependency(catalog, active, ds[0])
      case Some(e) => Some(e)
      case None => CheckDependencies(catalog, active, ds[1..])
  }

  /** Recomputes everything a revision claims about itself from its payloads and its rows. */
  function CheckRevision(id: Id, r: Revision, parents: seq<ParentDependency>, registry: seq<RegistryDependency>,
                         catalog: Registry.Catalog, active: bool): Option<ReleaseError> {
    if r.contract != COMPILER_CONTRACT then Some(ValidationFailed)
    else if Sort(PlaceLeq(), r.compiled.registry) != Sort(PlaceLeq(), registry)
      || (registry != [] && r.compiled.source != id) then Some(HashMismatch)
    else if r.compiled.parents != parents || (parents != [] && r.compiled.source != id) then Some(ReferenceNotFound)
    else if ContentDigest(r.raw) != r.contentHash then Some(HashMismatch)
    else if DependencyDigest(parents, registry) != r.dependencyHash then Some(HashMismatch)
    else if r.compiled.dependencyHash != r.dependencyHash then Some(HashMismatch)
    else if CompiledDigest(r.compiled, parents, registry) != r.compiledHash then Some(HashMismatch)
    else CheckDependencies(catalog, active, registry)
  }

  /** The check of a stored revision: its rows, read in any order, are sorted first. */
  ghost function CheckStored(s: Store, id: Id, catalog: Registry.Catalog, active: bool): Option<ReleaseError>
    requires id in s.revisions && id in s.parentRows && id in s.registryRows
  {
    CheckRevision(id, s.revisions[id], Sort(ParentLeq(), Listed(s.parentRows[id])),
      Sort(RegistryLeq(), Listed(s.registryRows[id])), catalog, active)
  }

  // ---- the store ----

  ghost predicate Valid(s: Store) {
    KeysAgree(s) && HeadsKnown(s) && BatchesKnown(s) && ActiveKnown(s) && ItemsPublished(s) && RowsSeparate(s)
  }

  ghost predicate KeysAgree(s: Store) {
    s.parentRows.Keys == s.revisions.Keys && s.registryRows.Keys == s.revisions.Keys && s.items.Keys == s.batches.Keys
  }

  ghost predicate HeadsKnown(s: Store) {
    forall id :: id in s.revisions ==> s.revisions[id].raw.key in s.blueprintHeads
  }

  ghost predicate BatchesKnown(s: Store) {
    forall b :: b in s.batches ==> HasHead(s, s.batches[b].headId)
  }

  ghost predicate HasHead(s: Store, id: Id) {
    exists t :: t in s.heads && s.heads[t].id == id
  }

  ghost predicate ActiveKnown(s: Store) {
    forall t :: t in s.heads && s.heads[t].activeBatch.Some? ==> s.heads[t].activeBatch.value in s.batches
  }

  ghost predicate ItemsPublished(s: Store) {
    forall b :: b in s.items ==> AllPublished(s, s.items[b])
  }

  ghost predicate AllPublished(s: Store, items: multiset<Item>) {
    forall i :: i in items ==> i.revisionId in s.revisions
  }

  /** The unique constraints of the rows. */
  ghost predicate RowsSeparate(s: Store) {
    DependenciesSeparate(s) && ItemsSeparate(s)
  }

  ghost predicate DependenciesSeparate(s: Store) {
    && (forall id :: id in s.parentRows ==> Separates(ParentLeq(), Listed(s.parentRows[id])))
    && (forall id :: id in s.registryRows ==> Separates(RegistryLeq(), Listed(s.registryRows[id])))
  }

  ghost predicate ItemsSeparate(s: Store) {
    forall b :: b in s.items ==> Separates(ItemLeq(), Listed(s.items[b]))
  }

  /** The items of a batch in key order. */
  ghost function ItemsOf(s: Store, b: Id): seq<Item>
    requires b in s.items
  {
    Sort(ItemLeq(), Listed(s.items[b]))
  }

  ghost predicate ItemsKnown(s: Store, items: seq<Item>) {
    forall i :: 0 <= i < |items| ==> items[i].revisionId in s.revisions
  }

  lemma ItemsOfKnown(s: Store, b: Id)
    requires Valid(s) && b in s.items
    ensures ItemsKnown(s, ItemsOf(s, b))
  {
    hide Sort, Sorted, Separates;
    Orders();
    SortSorts(ItemLeq(), Listed(s.items[b]));
    assert AllPublished(s, s.items[b]);
    var items := ItemsOf(s, b);
    forall i | 0 <= i < |items| ensures items[i].revisionId in s.revisions {
      assert items[i] in multiset(items);
    }
  }

  ghost function FirstError(s: Store, items: seq<Item>, catalog: Registry.Catalog, active: bool): Option<ReleaseError>
    requires Valid(s) && ItemsKnown(s, items)
    decreases |items|
  {
    if items == [] then None
    else match CheckStored(s, items[0].revisionId, catalog, active)
      case Some(e) => Some(e)
      case None => FirstError(s, items[1..], catalog, active)
  }

  ghost function StoredSeed(s: Store, bundle: Bundle, batch: Batch, items: seq<Item>): SeedDigest
    requires ItemsKnown(s, items)
  {
    SeedDigest(bundle.seedId, bundle.target, batch.manifest, bundle.contract,
      seq(|items|, i requires 0 <= i < |items| => s.revisions[items[i].revisionId].raw))
  }

  function StoredRelease(s: Store, items: seq<Item>): ReleaseDigest
    requires forall i :: 0 <= i < |items| ==> items[i].revisionId in s.revisions
  {
    ReleaseDigest(seq(|items|, i requires 0 <= i < |items| =>
      var r := s.revisions[items[i].revisionId];
      ReleaseItem(items[i].headId, items[i].key, items[i].revisionId, r.contentHash, r.compiledHash)))
  }

  predicate IsSeedBatch(s: Store, headId: Id, seedId: string, b: Id) {
    b in s.batches && s.batches[b].headId == headId && s.batches[b].seedId == seedId
  }

  /** The verdict on initialized content whose seed batch is `seed`. */
  ghost predicate VerdictOn(s: Store, bundle: Bundle, catalog: Registry.Catalog, head: Head, seed: Id,
                            result: Result<Option<Identity>, ReleaseError>)
    requires Valid(s) && seed in s.batches && head.activeBatch.Some? && head.activeBatch.value in s.batches
  {
    ItemsOfKnown(s, seed);
    ItemsOfKnown(s, head.activeBatch.value);
    var seedItems, activeItems := ItemsOf(s, seed), ItemsOf(s, head.activeBatch.value);
    var active := s.batches[head.activeBatch.value];
    if StoredSeed(s, bundle, s.batches[seed], seedItems) != bundle.contentHash then result == Err(ValidationFailed)
    else if FirstError(s, seedItems, catalog, false).Some?
      then result == Err(FirstError(s, seedItems, catalog, false).value)
    else if exists id :: id in s.revisions && CheckStored(s, id, catalog, false).Some? then
      exists id :: id in s.revisions && CheckStored(s, id, catalog, false).Some?
        && result == Err(CheckStored(s, id, catalog, false).value)
    else if FirstError(s, activeItems, catalog, true).Some?
      then result == Err(FirstError(s, activeItems, catalog, true).value)
    else if StoredRelease(s, activeItems) != active.releaseHash then result == Err(ValidationFailed)
    else result == Ok(Some(Identity(head.id, head.activeBatch.value, active.version, bundle.seedId,
      active.releaseHash, |activeItems|)))
  }

  /** What verifying existing content may answer; None means that there is nothing yet. */
  ghost predicate Verdict(s: Store, bundle: Bundle, catalog: Registry.Catalog,
                          result: Result<Option<Identity>, ReleaseError>)
    requires Valid(s)
  {
    if bundle.target !in s.heads then result == if s.blueprintHeads == map[] then Ok(None) else Err(ScopeMismatch)
    else
      var head := s.heads[bundle.target];
      if head.activeBatch.None? then result == Err(ValidationFailed)
      else if !exists b :: IsSeedBatch(s, head.id, bundle.seedId, b) then result == Err(ScopeMismatch)
      else exists b :: IsSeedBatch(s, head.id, bundle.seedId, b)
                  && (forall o :: IsSeedBatch(s, head.id, bundle.seedId, o) ==>
                     s.batches[b].version <= s.batches[o].version)
                  && VerdictOn(s, bundle, catalog, head, b, result)
  }

  // ---- what a passed verification means for the rows ----

  /** A registry row names a definition of the catalog: the active one of its kind and key, by version
      and hash, or one that is still known by identity and hash. */
  ghost predicate Named(catalog: Registry.Catalog, active: bool, d: RegistryDependency) {
    var kind, key := d.reference.id.kind, d.reference.id.key;
    if active
    then (kind, key) in catalog.active
         && catalog.active[(kind, key)].id.version == d.reference.id.version
         && catalog.active[(kind, key)].hash == d.reference.hash
    else d.reference.hash.Some? && (d.reference.id, d.reference.hash.value) in catalog.compatibility
  }

  /** The rows of a published revision agree with its payloads and hashes, and each registry row names
      a definition of the catalog. */
  ghost predicate RevisionSound(s: Store, id: Id, catalog: Registry.Catalog, active: bool)
    requires id in s.revisions && id in s.parentRows && id in s.registryRows
  {
    var r, registry := s.revisions[id], Sort(RegistryLeq(), Listed(s.registryRows[id]));
    && r.contract == "blueprint-compiler/1"
    && multiset(r.compiled.parents) == s.parentRows[id] && multiset(r.compiled.registry) == s.registryRows[id]
    && (s.parentRows[id] != multiset{} || s.registryRows[id] != multiset{} ==> r.compiled.source == id)
    && r.contentHash == ContentDigest(r.raw)
    && r.dependencyHash == DependencyDigest(r.compiled.parents, registry)
    && r.compiled.dependencyHash == r.dependencyHash
    && r.compiledHash == CompiledDigest(r.compiled, r.compiled.parents, registry)
    && forall d :: d in s.registryRows[id] ==> Named(catalog, active, d)
  }

  lemma {:induction false} DependenciesIff(catalog: Registry.Catalog, active: bool, ds: seq<RegistryDependency>)
    ensures CheckDependencies(catalog, active, ds).None?
            <==> forall i :: 0 <= i < |ds| ==> CheckDependency(catalog, active, ds[i]).None?
    decreases |ds|
  {
    hide CheckDependency;
    if ds == [] {
    } else {
      DependenciesIff(catalog, active, ds[1..]);
      assert forall i :: 1 <= i < |ds| ==> ds[i] == ds[1..][i - 1];
    }
  }

  /** When exactly a revision passes, given its rows in order. */
  lemma RevisionIff(id: Id, r: Revision, parents: seq<ParentDependency>, registry: seq<RegistryDependency>,
                    catalog: Registry.Catalog, active: bool)
    ensures CheckRevision(id, r, parents, registry, catalog, active).None?
            <==> && r.contract == "blueprint-compiler/1"
                 && r.compiled.parents == parents
                 && Sort(PlaceLeq(), r.compiled.registry) == Sort(PlaceLeq(), registry)
                 && (parents != [] || registry != [] ==> r.compiled.source == id)
                 && r.contentHash == ContentDigest(r.raw)
                 && r.dependencyHash == DependencyDigest(parents, registry)
                 && r.compiled.dependencyHash == r.dependencyHash
                 && r.compiledHash == CompiledDigest(r.compiled, parents, registry)
                 && forall i :: 0 <= i < |registry| ==> CheckDependency(catalog, active, registry[i]).None?
  {
    hide Sort, CheckDependency;
    DependenciesIff(catalog, active, registry);
  }

  /** When exactly one dependency passes. */
  lemma DependencyIff(catalog: Registry.Catalog, active: bool, d: RegistryDependency)
    ensures CheckDependency(catalog, active, d).None? <==> Named(catalog, active, d)
  {
  }

  lemma AllNamed(catalog: Registry.Catalog, active: bool, rows: multiset<RegistryDependency>,
                 registry: seq<RegistryDependency>)
    requires multiset(registry) == rows
    requires forall i :: 0 <= i < |registry| ==> CheckDependency(catalog, active, registry[i]).None?
    ensures forall d :: d in rows ==> Named(catalog, active, d)
  {
    hide CheckDependency, Named;
    forall d | d in rows ensures Named(catalog, active, d) {
      assert d in multiset(registry);
      var i :| 0 <= i < |registry| && registry[i] == d;
      DependencyIff(catalog, active, d);
    }
  }

  /** A revision that passes is sound. */
  lemma PassedIsSound(s: Store, id: Id, catalog: Registry.Catalog, active: bool)
    requires id in s.revisions && id in s.parentRows && id in s.registryRows
    requires CheckStored(s, id, catalog, active).None?
    ensures RevisionSound(s, id, catalog, active)
  {
    hide Sort, Sorted, CheckRevision, CheckDependency, TotalPreorder;
    var r := s.revisions[id];
    var parents, registry :=
      Sort(ParentLeq(), Listed(s.parentRows[id])), Sort(RegistryLeq(), Listed(s.registryRows[id]));
    RevisionIff(id, r, parents, registry, catalog, active);
    Orders();
    SortSorts(ParentLeq(), Listed(s.parentRows[id]));
    SortSorts(RegistryLeq(), Listed(s.registryRows[id]));
    SortSorts(PlaceLeq(), r.compiled.registry);
    SortSorts(PlaceLeq(), registry);
    AllNamed(catalog, active, s.registryRows[id], registry);
  }

  /** Rows of one batch in key order. */
  ghost predicate InKeyOrder(items: seq<Item>) {
    forall i, j :: 0 <= i < j < |items| ==> StringLeq()(items[i].key, items[j].key)
  }

  /** What VERIFIED stands for: every revision of the namespace is sound, the active ones against the
      active registry; the stored hash of the active release is that of its items; the seed bundle is
      the one the earliest seeded batch holds; and the identity is that of the active batch. */
  ghost predicate ReleaseSound(s: Store, bundle: Bundle, catalog: Registry.Catalog, identity: Identity)
    requires Valid(s)
  {
    && bundle.target in s.heads && s.heads[bundle.target].activeBatch.Some?
    && var head := s.heads[bundle.target];
    var b := head.activeBatch.value;
    && b in s.batches && b in s.items
    && identity == Identity(head.id, b, s.batches[b].version, bundle.seedId, s.batches[b].releaseHash, |s.items[b]|)
    && (forall id :: id in s.revisions ==> RevisionSound(s, id, catalog, false))
    && (forall i :: i in s.items[b] ==> i.revisionId in s.revisions && RevisionSound(s, i.revisionId, catalog, true))
    && (exists items: seq<Item> :: ReleaseHolds(s, b, items))
    && (exists seed: Id, items: seq<Item> :: SeedHolds(s, head.id, bundle, seed, items))
  }

  ghost predicate ReleaseHolds(s: Store, b: Id, items: seq<Item>)
    requires b in s.batches && b in s.items
  {
    && multiset(items) == s.items[b] && InKeyOrder(items) && |s.batches[b].releaseHash.items| == |items|
    && forall i :: 0 <= i < |items| ==>
         && items[i].revisionId in s.revisions
         && s.batches[b].releaseHash.items[i]
            == ReleaseItem(items[i].headId, items[i].key, items[i].revisionId,
                           s.revisions[items[i].revisionId].contentHash, s.revisions[items[i].revisionId].compiledHash)
  }

  ghost predicate SeedHolds(s: Store, headId: Id, bundle: Bundle, seed: Id, items: seq<Item>) {
    && seed in s.batches && seed in s.items
    && s.batches[seed].headId == headId && s.batches[seed].seedId == bundle.seedId
    && (forall o :: o in s.batches && s.batches[o].headId == headId && s.batches[o].seedId == bundle.seedId ==>
          s.batches[seed].version <= s.batches[o].version)
    && multiset(items) == s.items[seed] && InKeyOrder(items) && |bundle.contentHash.blueprints| == |items|
    && bundle.contentHash
       == SeedDigest(bundle.seedId, bundle.target, s.batches[seed].manifest, bundle.contract,
                     bundle.contentHash.blueprints)
    && forall i :: 0 <= i < |items| ==>
         items[i].revisionId in s.revisions && bundle.contentHash.blueprints[i] == s.revisions[items[i].revisionId].raw
  }

  lemma {:induction false} NoErrorMeansAll(s: Store, items: seq<Item>, catalog: Registry.Catalog, active: bool)
    requires Valid(s) && ItemsKnown(s, items)
    ensures FirstError(s, items, catalog, active).None?
            <==> forall i :: 0 <= i < |items| ==> CheckStored(s, items[i].revisionId, catalog, active).None?
    decreases |items|
  {
    hide CheckStored;
    if items == [] {
    } else {
      NoErrorMeansAll(s, items[1..], catalog, active);
      assert forall i :: 1 <= i < |items| ==> items[i] == items[1..][i - 1];
    }
  }

  lemma ItemsInOrder(s: Store, b: Id)
    requires b in s.items
    ensures multiset(ItemsOf(s, b)) == s.items[b] && InKeyOrder(ItemsOf(s, b)) && |ItemsOf(s, b)| == |s.items[b]|
  {
    hide Sort;
    var leq := ItemLeq();
    Orders();
    SortSorts(leq, Listed(s.items[b]));
    var items := ItemsOf(s, b);
    assert |items| == |multiset(items)|;
    forall i, j | 0 <= i < j < |items| ensures StringLeq()(items[i].key, items[j].key) {
      assert leq(items[i], items[j]);
      assert leq(items[i], items[j]) == StringLeq()(ItemKey(items[i]), ItemKey(items[j]));
    }
  }

  /** Every verdict of VERIFIED is sound. */
  lemma VerifiedIsSound(s: Store, bundle: Bundle, catalog: Registry.Catalog, identity: Identity)
    requires Valid(s) && Verdict(s, bundle, catalog, Ok(Some(identity)))
    ensures ReleaseSound(s, bundle, catalog, identity)
  {
    hide CheckStored, FirstError, ItemsOf, HeadsKnown, BatchesKnown, RowsSeparate, RevisionSound, StoredSeed,
      StoredRelease, ReleaseHolds, SeedHolds, ReleaseSound;
    var head := s.heads[bundle.target];
    var b := head.activeBatch.value;
    var seed :| IsSeedBatch(s, head.id, bundle.seedId, seed)
      && (forall o :: IsSeedBatch(s, head.id, bundle.seedId, o) ==> s.batches[seed].version <= s.batches[o].version)
      && VerdictOn(s, bundle, catalog, head, seed, Ok(Some(identity)));
    ItemsOfKnown(s, b);
    ItemsOfKnown(s, seed);
    forall id | id in s.revisions ensures RevisionSound(s, id, catalog, false) {
      PassedIsSound(s, id, catalog, false);
    }
    ActiveAreSound(s, b, catalog);
    ReleaseIsHeld(s, b);
    SeedIsHeld(s, head.id, bundle, seed);
    SoundParts(s, bundle, catalog, identity, ItemsOf(s, b), seed, ItemsOf(s, seed));
  }

  lemma ActiveAreSound(s: Store, b: Id, catalog: Registry.Catalog)
    requires Valid(s) && b in s.items && ItemsKnown(s, ItemsOf(s, b))
    requires FirstError(s, ItemsOf(s, b), catalog, true).None?
    ensures |ItemsOf(s, b)| == |s.items[b]|
    ensures forall i :: i in s.items[b] ==>
      i.revisionId in s.revisions && RevisionSound(s, i.revisionId, catalog, true)
  {
    hide CheckStored, FirstError, ItemsOf, HeadsKnown, BatchesKnown, RowsSeparate, RevisionSound;
    ItemsInOrder(s, b);
    var items := ItemsOf(s, b);
    NoErrorMeansAll(s, items, catalog, true);
    forall i | i in s.items[b] ensures i.revisionId in s.revisions && RevisionSound(s, i.revisionId, catalog, true) {
      assert i in multiset(items);
      var k :| 0 <= k < |items| && items[k] == i;
      PassedIsSound(s, i.revisionId, catalog, true);
    }
  }

  lemma SoundParts(s: Store, bundle: Bundle, catalog: Registry.Catalog, identity: Identity, items: seq<Item>, seed: Id,
                   seedItems: seq<Item>)
    requires Valid(s) && bundle.target in s.heads && s.heads[bundle.target].activeBatch.Some?
    requires var head := s.heads[bundle.target];
             var b := head.activeBatch.value;
             && b in s.batches && b in s.items
             && identity == Identity(head.id, b, s.batches[b].version, bundle.seedId, s.batches[b].releaseHash,
                                     |s.items[b]|)
             && (forall id :: id in s.revisions ==> RevisionSound(s, id, catalog, false))
             && (forall i :: i in s.items[b] ==>
                   i.revisionId in s.revisions && RevisionSound(s, i.revisionId, catalog, true))
             && ReleaseHolds(s, b, items) && SeedHolds(s, head.id, bundle, seed, seedItems)
    ensures ReleaseSound(s, bundle, catalog, identity)
  {
    hide RevisionSound, ReleaseHolds, SeedHolds;
  }

  lemma ReleaseIsHeld(s: Store, b: Id)
    requires Valid(s) && b in s.batches && b in s.items && ItemsKnown(s, ItemsOf(s, b))
    requires StoredRelease(s, ItemsOf(s, b)) == s.batches[b].releaseHash
    ensures ReleaseHolds(s, b, ItemsOf(s, b))
  {
    hide ItemsOf, Valid;
    ItemsInOrder(s, b);
  }

  lemma SeedIsHeld(s: Store, headId: Id, bundle: Bundle, seed: Id)
    requires Valid(s) && seed in s.items && ItemsKnown(s, ItemsOf(s, seed))
      && IsSeedBatch(s, headId, bundle.seedId, seed)
    requires forall o :: IsSeedBatch(s, headId, bundle.seedId, o) ==> s.batches[seed].version <= s.batches[o].version
    requires StoredSeed(s, bundle, s.batches[seed], ItemsOf(s, seed)) == bundle.contentHash
    ensures SeedHolds(s, headId, bundle, seed, ItemsOf(s, seed))
  {
    hide ItemsOf, Valid;
    ItemsInOrder(s, seed);
    assert forall o :: o in s.batches && s.batches[o].headId == headId && s.batches[o].seedId == bundle.seedId ==>
      IsSeedBatch(s, headId, bundle.seedId, o);
  }

  // ---- publication ----

  function ItemRow(p: Prepared): Item {
    Item(p.ids.headId, p.raw.key, p.ids.revisionId)
  }

  function RevisionRow(p: Prepared, contract: string): Revision {
    Revision(p.raw, p.compiled, p.contentHash, p.compiledHash, p.dependencyHash, contract)
  }

  function ReleaseOf(ps: seq<Prepared>): ReleaseDigest {
    ReleaseDigest(seq(|ps|,
      i requires 0 <= i < |ps| =>
      ReleaseItem(ps[i].ids.headId, ps[i].raw.key, ps[i].ids.revisionId, ps[i].contentHash, ps[i].compiledHash)))
  }

  /** The store with one more published blueprint. */
  function Add(s: Store, batchId: Id, contract: string, p: Prepared): Store
    requires batchId in s.items
  {
    s.(blueprintHeads := s.blueprintHeads[p.raw.key := p.ids.headId],
       items := s.items[batchId := s.items[batchId] + multiset{ItemRow(p)}],
       revisions := s.revisions[p.ids.revisionId := RevisionRow(p, contract)],
       parentRows := s.parentRows[p.ids.revisionId := multiset(p.parents)],
       registryRows := s.registryRows[p.ids.revisionId := multiset(p.registry)])
  }

  function AddAll(s: Store, batchId: Id, contract: string, ps: seq<Prepared>): Store
    requires batchId in s.items
  {
    if ps == [] then s else Add(AddAll(s, batchId, contract, ps[..|ps| - 1]), batchId, contract, ps[|ps| - 1])
  }

  function Opened(s: Store, bundle: Bundle, headId: Id, batchId: Id, ps: seq<Prepared>): Store {
    s.(heads := s.heads[bundle.target := Head(headId, Some(batchId), 1)],
       batches := s.batches[batchId := Batch(headId, 1, bundle.manifest, bundle.seedId, ReleaseOf(ps))],
       items := s.items[batchId := multiset{}])
  }

  /** The store after publishing the compiled bundle. */
  function Publish(s: Store, bundle: Bundle, headId: Id, batchId: Id, ps: seq<Prepared>): Store {
    AddAll(Opened(s, bundle, headId, batchId, ps), batchId, bundle.contract, ps)
  }
}
