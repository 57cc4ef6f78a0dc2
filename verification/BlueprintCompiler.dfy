/**
 The blueprint compiler: every blueprint of a seed bundle is resolved depth first through its
 parents, merging their data layer by layer and collecting the registry definitions it needs.
 */
module BlueprintCompiler {
  import opened Wrappers
  import opened DepthFirst
  import opened LayeredData
  import opened Ordering
  import Registry = RegistryCatalog


  /** An explicit registry reference of a blueprint. */
  datatype RawReference = RawReference(path: string, kind: string, key: string, version: Option<string>)

  /** `rest` stands for version, tags and spawn policy, which the compiler only copies. */
  datatype Blueprint = Blueprint(
    key: string, kind: string, parents: seq<string>, data: Json,
    behaviorProfiles: Option<seq<string>>, registryRefs: seq<RawReference>, rest: Json)

  datatype Ids = Ids(headId: Id, revisionId: Id)

  datatype ParentDependency = ParentDependency(
    path: string, ordinal: nat, targetHead: Id, targetRevision: Id, targetKey: string, expectedKind: string)

  datatype RegistryDependency = RegistryDependency(path: string, ordinal: nat, reference: Registry.Reference)

  datatype LineageEntry = LineageEntry(key: string, ids: Ids)

  /** Canonical hashes are injective, so each is modelled by what it hashes. */
  datatype Digest =
    | ContentDigest(raw: Blueprint)
    | DependencyDigest(parents: seq<ParentDependency>, registry: seq<RegistryDependency>)
    | CompiledDigest(compiled: Compiled, parents: seq<ParentDependency>, registry: seq<RegistryDependency>)

  datatype Compiled = Compiled(
    key: string, kind: string, contract: string, data: Json, rest: Json,
    behaviors: seq<Registry.Reference>, lineage: seq<LineageEntry>,
    source: Id, parents: seq<ParentDependency>, registry: seq<RegistryDependency>, dependencyHash: Digest)

  datatype Prepared = Prepared(
    raw: Blueprint, ids: Ids, compiled: Compiled, contentHash: Digest, compiledHash: Digest, dependencyHash: Digest,
    parents: seq<ParentDependency>, registry: seq<RegistryDependency>)

  datatype CompileError =
    | DuplicateKey
    | ParentNotFound(key: string)
    | KindMismatch(parent: string)
    | InheritanceCycle(path: seq<string>)
    | RegistryReferenceNotFound(kind: string, key: string)
    | RegistryVersionUnavailable(kind: string, key: string)

  type Blueprints = map<string, Blueprint>

  // ---- registry dependencies ----

  /** A reference wanted at a place; places are unique among the dependencies of a blueprint. */
  datatype Wanted = Wanted(path: string, ordinal: nat, kind: string, key: string, version: Option<string>)

  predicate SamePlace(a: Wanted, b: Wanted) {
    a.path == b.path && a.ordinal == b.ordinal
  }

  const BEHAVIOR_PATH: string := "/behavior_profile_keys/"

  /** Filing by place: a later reference to the same place replaces the earlier one. */
  function Put(ws: seq<Wanted>, w: Wanted): seq<Wanted> {
    if ws == [] then [w] else if SamePlace(ws[0], w) then [w] + ws[1..] else [ws[0]] + Put(ws[1..], w)
  }

  function PutAll(ws: seq<Wanted>, xs: seq<Wanted>): seq<Wanted>
    decreases |xs|
  {
    if xs == [] then ws else PutAll(Put(ws, xs[0]), xs[1..])
  }

  /** v is in the list and no later reference takes its place. */
  ghost predicate Survives(xs: seq<Wanted>, v: Wanted) {
    exists i :: 0 <= i < |xs| && xs[i] == v && LastAt(xs, i)
  }

  ghost predicate LastAt(xs: seq<Wanted>, i: nat)
    requires i < |xs|
  {
    forall j :: i < j < |xs| ==> !SamePlace(xs[j], xs[i])
  }

  ghost predicate Untouched(xs: seq<Wanted>, v: Wanted) {
    forall j :: 0 <= j < |xs| ==> !SamePlace(xs[j], v)
  }

  ghost predicate DistinctPlaces(ws: seq<Wanted>) {
    forall i, j :: 0 <= i < j < |ws| ==> !SamePlace(ws[i], ws[j])
  }

  lemma {:induction false} PutHolds(ws: seq<Wanted>, w: Wanted)
    requires DistinctPlaces(ws)
    ensures DistinctPlaces(Put(ws, w))
    ensures forall v :: v in Put(ws, w) <==> v == w || (v in ws && !SamePlace(v, w))
    decreases |ws|
  {
    if ws != [] {
      PutHolds(ws[1..], w);
      assert ws == [ws[0]] + ws[1..];
      if !SamePlace(ws[0], w) {
        var rest := Put(ws[1..], w);
        forall j | 0 <= j < |rest| ensures !SamePlace(ws[0], rest[j]) {
          assert rest[j] in rest;
        }
      }
    }
  }

  /** What is filed in the end: the last reference to every place. */
  lemma {:induction false} PutAllHolds(ws: seq<Wanted>, xs: seq<Wanted>)
    requires DistinctPlaces(ws)
    ensures DistinctPlaces(PutAll(ws, xs))
    ensures forall v :: v in PutAll(ws, xs) <==> (v in ws && Untouched(xs, v)) || Survives(xs, v)
    decreases |xs|
  {
    if xs != [] {
      PutHolds(ws, xs[0]);
      PutAllHolds(Put(ws, xs[0]), xs[1..]);
      forall v ensures v in PutAll(ws, xs) <==> (v in ws && Untouched(xs, v)) || Survives(xs, v) {
        FiledOneMore(ws, xs, v);
      }
    }
  }

  lemma FiledOneMore(ws: seq<Wanted>, xs: seq<Wanted>, v: Wanted)
    requires xs != []
    ensures ((v == xs[0] || (v in ws && !SamePlace(v, xs[0]))) && Untouched(xs[1..], v)) || Survives(xs[1..], v)
            <==> (v in ws && Untouched(xs, v)) || Survives(xs, v)
  {
    var tail := xs[1..];
    forall i | 0 <= i < |tail| ensures LastAt(tail, i) <==> LastAt(xs, i + 1) {
      if LastAt(tail, i) {
        forall j | i + 1 < j < |xs| ensures !SamePlace(xs[j], xs[i + 1]) { assert xs[j] == tail[j - 1]; }
      }
      if LastAt(xs, i + 1) {
        forall j | i < j < |tail| ensures !SamePlace(tail[j], tail[i]) { assert tail[j] == xs[j + 1]; }
      }
    }
    if i :| 0 <= i < |tail| && tail[i] == v && LastAt(tail, i) {
      assert xs[i + 1] == v;
    }
    if i :| 0 <= i < |xs| && xs[i] == v && LastAt(xs, i) {
      if i > 0 { assert tail[i - 1] == v && LastAt(tail, i - 1); }
    }
  }

  /** The references a blueprint makes itself: its behaviour profiles, then its explicit ones. */
  function Own(raw: Blueprint): seq<Wanted> {
    var behaviors := if raw.behaviorProfiles.Some? then raw.behaviorProfiles.value else [];
    seq(|behaviors|,
      i requires 0 <= i < |behaviors| => Wanted(BEHAVIOR_PATH + Decimal(i), i, "behavior_profile", behaviors[i], None))
    + seq(|raw.registryRefs|, i requires 0 <= i < |raw.registryRefs| =>
        var r := raw.registryRefs[i]; Wanted(r.path, i, r.kind, r.key, r.version))
  }

  function AsWanted(d: RegistryDependency): Wanted {
    Wanted(d.path, d.ordinal, d.reference.id.kind, d.reference.id.key, Some(d.reference.id.version))
  }

  function AllAsWanted(ds: seq<RegistryDependency>): (ws: seq<Wanted>)
    ensures |ws| == |ds| && forall i :: 0 <= i < |ds| ==> ws[i] == AsWanted(ds[i])
  {
    seq(|ds|, i requires 0 <= i < |ds| => AsWanted(ds[i]))
  }

  /** Own behaviour profiles replace all inherited ones. */
  function Kept(inherited: seq<Wanted>, raw: Blueprint): (ws: seq<Wanted>)
    ensures forall w :: w in ws ==> w in inherited
  {
    if inherited == [] then []
    else
      var first := if raw.behaviorProfiles.Some? && BEHAVIOR_PATH <= inherited[0].path then [] else [inherited[0]];
      first + Kept(inherited[1..], raw)
  }

  function WantedBy(raw: Blueprint, inherited: seq<Wanted>): seq<Wanted> {
    PutAll([], Kept(inherited, raw) + Own(raw))
  }

  function ResolveOne(catalog: Registry.Catalog, w: Wanted): Result<RegistryDependency, CompileError> {
    match catalog.ResolveActive(w.kind, w.key, w.version)
    case Ok(d) => Ok(RegistryDependency(w.path, w.ordinal, d.AsReference()))
    case Err(e) => Err(if e.VersionContentMismatch? then RegistryVersionUnavailable(w.kind, w.key)
      else RegistryReferenceNotFound(w.kind, w.key))
  }

  function ResolveWanted(catalog: Registry.Catalog, ws: seq<Wanted>): Result<seq<RegistryDependency>, CompileError> {
    if ws == [] then Ok([])
    else match ResolveOne(catalog, ws[0])
      case Err(e) => Err(e)
      case Ok(d) =>
        match ResolveWanted(catalog, ws[1..])
        case Err(e) => Err(e)
        case Ok(ds) => Ok([d] + ds)
  }

  function RegistryRank(d: RegistryDependency): Rank {
    ([d.reference.id.kind, d.reference.id.key, d.reference.id.version, d.path], d.ordinal)
  }

  function RegistryLeq(): (RegistryDependency, RegistryDependency) -> bool {
    By(RegistryRank, RankLeq())
  }

  // ---- one blueprint ----

  function MergedParents(parents: seq<Prepared>): Json {
    if parents == [] then Empty
    else Merge(MergedParents(parents[..|parents| - 1]), parents[|parents| - 1].compiled.data)
  }

  function Lineages(parents: seq<Prepared>): seq<LineageEntry> {
    if parents == [] then [] else Lineages(parents[..|parents| - 1]) + parents[|parents| - 1].compiled.lineage
  }

  function Inherited(parents: seq<Prepared>): seq<Wanted> {
    if parents == [] then []
      else PutAll(Inherited(parents[..|parents| - 1]), AllAsWanted(parents[|parents| - 1].registry))
  }

  function ParentDependencies(raw: Blueprint, parents: seq<Prepared>): (ds: seq<ParentDependency>)
    ensures |ds| == |parents|
  {
    seq(|parents|, i requires 0 <= i < |parents| =>
      ParentDependency("/parent_keys/" + Decimal(i), i, parents[i].ids.headId, parents[i].ids.revisionId,
        parents[i].raw.key, raw.kind))
  }

  function Behaviors(registry: seq<RegistryDependency>): seq<Registry.Reference> {
    if registry == [] then []
    else
      var first := if registry[0].reference.id.kind == "behavior_profile" then [registry[0].reference] else [];
      first + Behaviors(registry[1..])
  }

  /** The prepared blueprint, given its prepared parents and its registry dependencies. */
  function Assemble(raw: Blueprint, ids: Ids, contract: string, parents: seq<Prepared>,
                    registry: seq<RegistryDependency>): Prepared {
    var dependencies := ParentDependencies(raw, parents);
    var dependencyHash := DependencyDigest(dependencies, registry);
    var compiled := Compiled(
      raw.key, raw.kind, contract, Merge(MergedParents(parents), raw.data), raw.rest, Behaviors(registry),
      Lineages(parents) + [LineageEntry(raw.key, ids)], ids.revisionId, dependencies, registry, dependencyHash);
    Prepared(raw, ids, compiled, ContentDigest(raw), CompiledDigest(compiled, dependencies, registry), dependencyHash,
      dependencies, registry)
  }

  function Finish(raw: Blueprint, ids: Ids, contract: string, catalog: Registry.Catalog,
                  parents: seq<Prepared>): Result<Prepared, CompileError> {
    match ResolveWanted(catalog, WantedBy(raw, Inherited(parents)))
    case Err(e) => Err(e)
    case Ok(registry) => Ok(Assemble(raw, ids, contract, parents, Sort(RegistryLeq(), registry)))
  }

  function GraphOf(raws: Blueprints, ids: string -> Ids, contract: string,
                   catalog: Registry.Catalog): Graph<string, Prepared, CompileError> {
    Graph(
      raws.Keys,
      key => if key in raws then raws[key].parents else [],
      key => ParentNotFound(key),
      (key: string, i: nat, parent: Prepared) =>
        if key in raws && parent.raw.kind != raws[key].kind then Some(KindMismatch(parent.raw.key)) else None,
      (key: string, parents: seq<Prepared>) =>
        if key in raws then Finish(raws[key], ids(key), contract, catalog, parents) else Err(ParentNotFound(key)))
  }

  function Compile(raws: Blueprints, ids: string -> Ids, contract: string, catalog: Registry.Catalog, key: string,
                   visiting: seq<string>)
    : Result<Prepared, Failure<string, CompileError>>
  {
    Plain(GraphOf(raws, ids, contract, catalog), key, visiting)
  }

  ghost predicate Keyed(raws: Blueprints) {
    forall key :: key in raws ==> raws[key].key == key
  }

  /** A compiled blueprint was finished from its compiled parents. */
  lemma CompiledFrom(raws: Blueprints, ids: string -> Ids, contract: string, catalog: Registry.Catalog, key: string,
                     visiting: seq<string>)
    returns (parents: seq<Prepared>)
    requires Compile(raws, ids, contract, catalog, key, visiting).Ok?
    ensures key in raws && key !in visiting
    ensures Unseen(GraphOf(raws, ids, contract, catalog), visiting + [key])
      < Unseen(GraphOf(raws, ids, contract, catalog), visiting)
    ensures |parents| == |raws[key].parents|
    ensures forall i :: 0 <= i < |parents| ==>
      Compile(raws, ids, contract, catalog, raws[key].parents[i], visiting + [key]) == Ok(parents[i])
    ensures forall i :: 0 <= i < |parents| ==> parents[i].raw.kind == raws[key].kind
    ensures Finish(raws[key], ids(key), contract, catalog, parents)
      == Ok(Compile(raws, ids, contract, catalog, key, visiting).value)
  {
    hide Plain, Finish, Unseen;
    var g := GraphOf(raws, ids, contract, catalog);
    parents := OkFinished(g, key, visiting);
    forall i | 0 <= i < |parents| ensures parents[i].raw.kind == raws[key].kind {
      assert g.check(key, i, parents[i]).None?;
    }
    assert g.finish(key, parents) == Finish(raws[key], ids(key), contract, catalog, parents);
  }

  // ---- what inheritance means ----

  function Layers(raws: Blueprints, lineage: seq<LineageEntry>): (layers: seq<Json>)
    requires forall e :: e in lineage ==> e.key in raws
    ensures |layers| == |lineage| && forall i :: 0 <= i < |lineage| ==> layers[i] == raws[lineage[i].key].data
  {
    seq(|lineage|, i requires 0 <= i < |lineage| => raws[lineage[i].key].data)
  }

  ghost predicate Known(raws: Blueprints, lineage: seq<LineageEntry>) {
    forall e :: e in lineage ==> e.key in raws
  }

  /** The lineage names blueprints, ends with the blueprint itself, and its layers, applied one
      after another, give the compiled data if they agree on where objects are. */
  ghost predicate Faithful(raws: Blueprints, p: Prepared) {
    && Known(raws, p.compiled.lineage) && p.compiled.lineage != []
    && (AllCompatible(Layers(raws, p.compiled.lineage)) ==>
       p.compiled.data == Fold(Empty, Layers(raws, p.compiled.lineage)))
  }

  lemma {:induction false} ParentsFaithful(raws: Blueprints, parents: seq<Prepared>)
    requires forall i :: 0 <= i < |parents| ==> Faithful(raws, parents[i])
    ensures Known(raws, Lineages(parents)) && (Lineages(parents) == [] <==> parents == [])
    ensures AllCompatible(Layers(raws, Lineages(parents))) ==>
      MergedParents(parents) == Fold(Empty, Layers(raws, Lineages(parents)))
    decreases |parents|
  {
    if parents != [] {
      var n := |parents| - 1;
      var before, last := Lineages(parents[..n]), parents[n].compiled.lineage;
      ParentsFaithful(raws, parents[..n]);
      var xs, ys := Layers(raws, before), Layers(raws, last);
      assert Layers(raws, before + last) == xs + ys;
      if AllCompatible(xs + ys) {
        PartsCompatible(xs, ys);
        AppendLayers(xs, ys);
      }
    }
  }

  lemma PartsCompatible(xs: seq<Json>, ys: seq<Json>)
    requires AllCompatible(xs + ys)
    ensures AllCompatible(xs) && AllCompatible(ys)
    ensures forall i, j :: 0 <= i < |xs| && 0 <= j < |ys| ==> Compatible(xs[i], ys[j])
  {
    var all := xs + ys;
    forall i, j | 0 <= i < |xs| && 0 <= j < |xs|
      ensures Compatible(xs[i], xs[j])
    {
      assert all[i] == xs[i] && all[j] == xs[j];
    }
    forall i, j | 0 <= i < |ys| && 0 <= j < |ys|
      ensures Compatible(ys[i], ys[j])
    {
      assert all[|xs| + i] == ys[i] && all[|xs| + j] == ys[j];
    }
    forall i, j | 0 <= i < |xs| && 0 <= j < |ys|
      ensures Compatible(xs[i], ys[j])
    {
      assert all[i] == xs[i] && all[|xs| + j] == ys[j];
    }
  }

  lemma AppendLayers(xs: seq<Json>, ys: seq<Json>)
    requires AllCompatible(ys) && ys != [] && forall i, j :: 0 <= i < |xs| && 0 <= j < |ys| ==> Compatible(xs[i], ys[j])
    ensures Merge(Fold(Empty, xs), Fold(Empty, ys)) == Fold(Empty, xs + ys)
  {
    if xs != [] {
      forall j | 0 <= j < |ys| ensures Compatible(Fold(Empty, xs), ys[j]) { CompatibleWithFold(xs, ys[j]); }
    }
    MergeFold(Fold(Empty, xs), ys);
    FoldConcat(Empty, xs, ys);
  }

  /** Each compiled blueprint's data is the left fold of the raw data along its own lineage,
      diamonds and repeated ancestors included, if no two of those layers disagree on where
      objects are. */
  lemma {:induction false} InheritanceMeaning(raws: Blueprints, ids: string -> Ids, contract: string,
                                              catalog: Registry.Catalog, key: string, visiting: seq<string>)
    requires Keyed(raws) && Compile(raws, ids, contract, catalog, key, visiting).Ok?
    ensures var p := Compile(raws, ids, contract, catalog, key, visiting).value;
            && key in raws && p.raw == raws[key] && p.ids == ids(key) && Faithful(raws, p)
            && p.compiled.lineage[|p.compiled.lineage| - 1] == LineageEntry(key, ids(key))
    decreases Unseen(GraphOf(raws, ids, contract, catalog), visiting)
  {
    hide Plain;
    var parents := CompiledFrom(raws, ids, contract, catalog, key, visiting);
    forall i | 0 <= i < |parents| ensures Faithful(raws, parents[i]) {
      InheritanceMeaning(raws, ids, contract, catalog, raws[key].parents[i], visiting + [key]);
    }
    var p := Compile(raws, ids, contract, catalog, key, visiting).value;
    ParentsFaithful(raws, parents);
    var before, own := Lineages(parents), [LineageEntry(key, ids(key))];
    assert p.compiled.lineage == before + own;
    var xs, ys := Layers(raws, before), Layers(raws, own);
    assert Layers(raws, before + own) == xs + ys;
    if AllCompatible(xs + ys) {
      PartsCompatible(xs, ys);
      AppendLayers(xs, ys);
      assert ys == [raws[key].data] && ys[..0] == [];
      MergeIdentity(raws[key].data);
    }
  }

  // ---- when compilation succeeds ----

  /** Every active definition is filed under its own kind and key. */
  ghost predicate CatalogFiled(catalog: Registry.Catalog) {
    forall k :: k in catalog.active ==> Registry.KeyOf(catalog.active[k]) == k
  }

  /** The references a blueprint makes itself, the last one for each place, all resolve. */
  ghost predicate OwnResolve(raw: Blueprint, catalog: Registry.Catalog) {
    forall w :: Survives(Own(raw), w) ==> ResolveOne(catalog, w).Ok?
  }

  ghost predicate Settled(catalog: Registry.Catalog, ds: seq<RegistryDependency>) {
    forall d :: d in ds ==> ResolveOne(catalog, AsWanted(d)).Ok?
  }

  lemma {:induction false} ResolveWantedIff(catalog: Registry.Catalog, ws: seq<Wanted>)
    ensures ResolveWanted(catalog, ws).Ok? <==> forall w :: w in ws ==> ResolveOne(catalog, w).Ok?
    decreases |ws|
  {
    if ws != [] {
      ResolveWantedIff(catalog, ws[1..]);
      assert ws == [ws[0]] + ws[1..];
    }
  }

  /** What was resolved names an active definition by its exact version, so it resolves again. */
  lemma {:induction false} ResolvedSettles(catalog: Registry.Catalog, ws: seq<Wanted>)
    requires CatalogFiled(catalog) && ResolveWanted(catalog, ws).Ok?
    ensures Settled(catalog, ResolveWanted(catalog, ws).value)
    decreases |ws|
  {
    if ws != [] {
      ResolvedSettles(catalog, ws[1..]);
    }
  }

  lemma SortedSettles(catalog: Registry.Catalog, ds: seq<RegistryDependency>)
    requires Settled(catalog, ds)
    ensures Settled(catalog, Sort(RegistryLeq(), ds))
  {
    RankOrder();
    ByIsPreorder(RegistryRank, RankLeq());
    SortSorts(RegistryLeq(), ds);
    forall d | d in Sort(RegistryLeq(), ds) ensures d in ds {
      assert d in multiset(Sort(RegistryLeq(), ds));
    }
  }

  lemma SurvivesConcat(xs: seq<Wanted>, ys: seq<Wanted>, w: Wanted)
    ensures Survives(ys, w) ==> Survives(xs + ys, w)
    ensures Survives(xs + ys, w) ==> Survives(ys, w) || w in xs
  {
    var all := xs + ys;
    if i :| 0 <= i < |ys| && ys[i] == w && LastAt(ys, i) {
      forall j | |xs| + i < j < |all| ensures !SamePlace(all[j], w) { assert all[j] == ys[j - |xs|]; }
      assert all[|xs| + i] == w && LastAt(all, |xs| + i);
    }
    if i :| 0 <= i < |all| && all[i] == w && LastAt(all, i) {
      if i >= |xs| {
        forall j | i - |xs| < j < |ys| ensures !SamePlace(ys[j], w) { assert all[|xs| + j] == ys[j]; }
        assert ys[i - |xs|] == w && LastAt(ys, i - |xs|);
      }
    }
  }

  // ---- the dependencies of one blueprint, place by place ----

  /** The blueprint itself refers to something at this place. */
  predicate Speaks(raw: Blueprint, path: string, n: nat) {
    || (n < |raw.registryRefs| && raw.registryRefs[n].path == path)
    || (raw.behaviorProfiles.Some? && n < |raw.behaviorProfiles.value|
        && path == "/behavior_profile_keys/" + Decimal(n))
  }

  /** The exact reference of the active definition of a key, at its version if one is asked for. */
  predicate Names(catalog: Registry.Catalog, kind: string, key: string, version: Option<string>,
                  r: Registry.Reference) {
    && (kind, key) in catalog.active
    && r == Registry.Reference(catalog.active[(kind, key)].id, catalog.active[(kind, key)].hash)
    && (version.Some? ==> r.id.version == version.value)
  }

  /** What the blueprint itself names at a place: an explicit reference comes before a profile. */
  predicate OwnDependency(raw: Blueprint, catalog: Registry.Catalog, d: RegistryDependency)
    requires Speaks(raw, d.path, d.ordinal)
  {
    if d.ordinal < |raw.registryRefs| && raw.registryRefs[d.ordinal].path == d.path then
      var r := raw.registryRefs[d.ordinal];
      Names(catalog, r.kind, r.key, r.version, d.reference)
    else Names(catalog, "behavior_profile", raw.behaviorProfiles.value[d.ordinal], None, d.reference)
  }

  predicate Has(ds: seq<RegistryDependency>, path: string, n: nat) {
    exists i :: 0 <= i < |ds| && ds[i].path == path && ds[i].ordinal == n
  }

  /** The dependency at a place is the blueprint's own if it refers to the place at all, and
      otherwise the one of the last parent that has the place; own profiles shut out all inherited
      ones. */
  ghost predicate DependsOn(raw: Blueprint, parents: seq<Prepared>, catalog: Registry.Catalog, d: RegistryDependency) {
    if Speaks(raw, d.path, d.ordinal) then OwnDependency(raw, catalog, d)
    else
      && !(raw.behaviorProfiles.Some? && "/behavior_profile_keys/" <= d.path)
      && exists i :: 0 <= i < |parents| && d in parents[i].registry && LastWithPlace(parents, i, d.path, d.ordinal)
  }

  ghost predicate LastWithPlace(parents: seq<Prepared>, i: nat, path: string, n: nat) {
    forall j :: i < j < |parents| ==> !Has(parents[j].registry, path, n)
  }

  /** A dependency on an active definition, by its own exact reference. */
  predicate FromActive(catalog: Registry.Catalog, d: RegistryDependency) {
    var k := (d.reference.id.kind, d.reference.id.key);
    k in catalog.active && d.reference == catalog.active[k].AsReference()
  }

  /** One dependency a place, each on an active definition. */
  ghost predicate Placed(catalog: Registry.Catalog, ds: seq<RegistryDependency>) {
    && (forall i :: 0 <= i < |ds| ==> FromActive(catalog, ds[i]))
    && (forall i, j :: 0 <= i < j < |ds| ==> ds[i].path != ds[j].path || ds[i].ordinal != ds[j].ordinal)
  }

  ghost predicate AllPlaced(catalog: Registry.Catalog, parents: seq<Prepared>) {
    forall i :: 0 <= i < |parents| ==> Placed(catalog, parents[i].registry)
  }

  lemma SurvivesParts(xs: seq<Wanted>, ys: seq<Wanted>, w: Wanted)
    ensures Survives(xs + ys, w) <==> Survives(ys, w) || (Survives(xs, w) && Untouched(ys, w))
  {
    var all := xs + ys;
    SurvivesConcat(xs, ys, w);
    if i :| 0 <= i < |all| && all[i] == w && LastAt(all, i) {
      if i < |xs| {
        forall j | 0 <= j < |ys| ensures !SamePlace(ys[j], w) { assert all[|xs| + j] == ys[j]; }
        forall j | i < j < |xs| ensures !SamePlace(xs[j], xs[i]) { assert all[j] == xs[j]; }
        assert xs[i] == w && LastAt(xs, i);
      } else {
        forall j | i - |xs| < j < |ys| ensures !SamePlace(ys[j], w) { assert all[|xs| + j] == ys[j]; }
        assert ys[i - |xs|] == w && LastAt(ys, i - |xs|);
      }
    }
    if Untouched(ys, w) {
      if i :| 0 <= i < |xs| && xs[i] == w && LastAt(xs, i) {
        forall j | i < j < |all| ensures !SamePlace(all[j], w) {
          if j < |xs| { assert all[j] == xs[j]; } else { assert all[j] == ys[j - |xs|]; }
        }
        assert all[i] == w && LastAt(all, i);
      }
    }
  }

  lemma DistinctSurvive(xs: seq<Wanted>, w: Wanted)
    requires DistinctPlaces(xs)
    ensures Survives(xs, w) <==> w in xs
  {
    if w in xs {
      var i :| 0 <= i < |xs| && xs[i] == w;
      forall j | i < j < |xs| ensures !SamePlace(xs[j], xs[i]) { assert !SamePlace(xs[i], xs[j]); }
      assert LastAt(xs, i);
    }
  }

  /** The place of an own reference tells which one it is. */
  lemma OwnByPlace(raw: Blueprint, w: Wanted)
    ensures Untouched(Own(raw), w) <==> !Speaks(raw, w.path, w.ordinal)
    ensures Survives(Own(raw), w) <==> Speaks(raw, w.path, w.ordinal) && OwnWant(raw, w)
  {
    hide Own, Decimal;
    var bs := if raw.behaviorProfiles.Some? then raw.behaviorProfiles.value else [];
    var n, k, own := w.ordinal, |bs| + w.ordinal, Own(raw);
    OwnList(raw);
    if n < |raw.registryRefs| && raw.registryRefs[n].path == w.path {
      assert SamePlace(own[k], w) && LastAt(own, k);
    } else if n < |bs| && w.path == BEHAVIOR_PATH + Decimal(n) {
      assert SamePlace(own[n], w) && LastAt(own, n);
    }
  }

  /** The own references, by their positions. */
  lemma OwnList(raw: Blueprint)
    ensures var bs := if raw.behaviorProfiles.Some? then raw.behaviorProfiles.value else [];
            && |Own(raw)| == |bs| + |raw.registryRefs|
            && (forall i :: 0 <= i < |bs| ==>
                  Own(raw)[i] == Wanted(BEHAVIOR_PATH + Decimal(i), i, "behavior_profile", bs[i], None))
            && (forall i :: |bs| <= i < |Own(raw)| ==>
                  var r := raw.registryRefs[i - |bs|];
                  Own(raw)[i] == Wanted(r.path, i - |bs|, r.kind, r.key, r.version))
  {
  }

  predicate OwnWant(raw: Blueprint, w: Wanted)
    requires Speaks(raw, w.path, w.ordinal)
  {
    if w.ordinal < |raw.registryRefs| && raw.registryRefs[w.ordinal].path == w.path then
      var r := raw.registryRefs[w.ordinal];
      w.kind == r.kind && w.key == r.key && w.version == r.version
    else w.kind == "behavior_profile" && w.key == raw.behaviorProfiles.value[w.ordinal] && w.version == None
  }

  lemma {:induction false} KeptHolds(inherited: seq<Wanted>, raw: Blueprint)
    requires DistinctPlaces(inherited)
    ensures DistinctPlaces(Kept(inherited, raw))
    ensures forall w :: w in Kept(inherited, raw) <==>
      w in inherited && !(raw.behaviorProfiles.Some? && "/behavior_profile_keys/" <= w.path)
    decreases |inherited|
  {
    if inherited != [] {
      KeptHolds(inherited[1..], raw);
      assert inherited == [inherited[0]] + inherited[1..];
      var rest := Kept(inherited[1..], raw);
      forall j | 0 <= j < |rest| ensures !SamePlace(inherited[0], rest[j]) { assert rest[j] in inherited[1..]; }
    }
  }

  lemma PlacedWants(catalog: Registry.Catalog, ds: seq<RegistryDependency>)
    requires Placed(catalog, ds)
    ensures DistinctPlaces(AllAsWanted(ds))
    ensures forall w :: Untouched(AllAsWanted(ds), w) <==> !Has(ds, w.path, w.ordinal)
  {
    var ws := AllAsWanted(ds);
    forall w: Wanted ensures Untouched(ws, w) <==> !Has(ds, w.path, w.ordinal) {
      if i :| 0 <= i < |ds| && ds[i].path == w.path && ds[i].ordinal == w.ordinal {
        assert SamePlace(ws[i], w);
      }
    }
  }

  /** What is inherited at a place is what the last parent with that place depends on there. */
  lemma {:induction false} InheritedByPlace(catalog: Registry.Catalog, parents: seq<Prepared>)
    requires AllPlaced(catalog, parents)
    ensures DistinctPlaces(Inherited(parents))
    ensures forall w :: w in Inherited(parents) <==> exists i :: InheritedFrom(parents, i, w)
    decreases |parents|
  {
    hide Placed, Has, AsWanted, SamePlace, DistinctPlaces, PutAll, Untouched, Survives;
    if parents == [] {
      assert DistinctPlaces([]) by { NothingPlaced(); }
    } else {
      var n := |parents| - 1;
      var front, last := parents[..n], AllAsWanted(parents[n].registry);
      InheritedByPlace(catalog, front);
      PlacedWants(catalog, parents[n].registry);
      PutAllHolds(Inherited(front), last);
      forall w ensures w in Inherited(parents) <==> exists i :: InheritedFrom(parents, i, w) {
        DistinctSurvive(last, w);
        InheritedStep(parents, w);
      }
    }
  }

  lemma NothingPlaced()
    ensures DistinctPlaces([])
  {
  }

  ghost predicate InheritedFrom(parents: seq<Prepared>, i: int, w: Wanted) {
    && 0 <= i < |parents|
    && w in AllAsWanted(parents[i].registry) && LastWithPlace(parents, i, w.path, w.ordinal)
  }

  lemma InheritedStep(parents: seq<Prepared>, w: Wanted)
    requires parents != []
    ensures var n := |parents| - 1;
            (exists i :: InheritedFrom(parents, i, w)) <==>
              w in AllAsWanted(parents[n].registry)
              || ((exists i :: InheritedFrom(parents[..n], i, w)) && !Has(parents[n].registry, w.path, w.ordinal))
  {
    hide Has;
    var n := |parents| - 1;
    var front := parents[..n];
    if w in AllAsWanted(parents[n].registry) {
      assert InheritedFrom(parents, n, w);
    }
    if i :| InheritedFrom(front, i, w) {
      if !Has(parents[n].registry, w.path, w.ordinal) {
        assert forall j :: i < j < n ==> parents[j] == front[j];
        assert InheritedFrom(parents, i, w);
      }
    }
    if i :| InheritedFrom(parents, i, w) {
      if i < n {
        assert forall j :: i < j < n ==> parents[j] == front[j];
        assert InheritedFrom(front, i, w);
      }
    }
  }

  lemma {:induction false} ResolvedHolds(catalog: Registry.Catalog, ws: seq<Wanted>)
    requires CatalogFiled(catalog) && DistinctPlaces(ws) && ResolveWanted(catalog, ws).Ok?
    ensures var ds := ResolveWanted(catalog, ws).value;
            && |ds| == |ws| && Placed(catalog, ds)
            && forall i :: 0 <= i < |ds| ==>
              ds[i].path == ws[i].path && ds[i].ordinal == ws[i].ordinal && ResolveOne(catalog, ws[i]) == Ok(ds[i])
    decreases |ws|
  {
    if ws != [] {
      ResolvedHolds(catalog, ws[1..]);
      var ds := ResolveWanted(catalog, ws).value;
      forall i, j | 0 <= i < j < |ds| ensures ds[i].path != ds[j].path || ds[i].ordinal != ds[j].ordinal {
        assert !SamePlace(ws[i], ws[j]);
      }
    }
  }

  // ---- from what is wanted to what is there ----

  ghost predicate Asked(raw: Blueprint, parents: seq<Prepared>, w: Wanted) {
    if Speaks(raw, w.path, w.ordinal) then OwnWant(raw, w)
    else
      && !(raw.behaviorProfiles.Some? && "/behavior_profile_keys/" <= w.path)
      && exists i :: InheritedFrom(parents, i, w)
  }

  lemma WantedByPlace(catalog: Registry.Catalog, raw: Blueprint, parents: seq<Prepared>)
    requires AllPlaced(catalog, parents)
    ensures DistinctPlaces(WantedBy(raw, Inherited(parents)))
    ensures forall w :: w in WantedBy(raw, Inherited(parents)) <==> Asked(raw, parents, w)
  {
    hide PutAll, Own, Kept, Inherited, Speaks, OwnWant, InheritedFrom, DistinctPlaces, Survives, Untouched, AllPlaced;
    var kept, own := Kept(Inherited(parents), raw), Own(raw);
    InheritedByPlace(catalog, parents);
    KeptHolds(Inherited(parents), raw);
    NothingPlaced();
    PutAllHolds([], kept + own);
    forall w ensures w in WantedBy(raw, Inherited(parents)) <==> Asked(raw, parents, w) {
      SurvivesParts(kept, own, w);
      DistinctSurvive(kept, w);
      OwnByPlace(raw, w);
    }
  }

  lemma InheritedStays(catalog: Registry.Catalog, parents: seq<Prepared>, i: nat, w: Wanted)
    requires AllPlaced(catalog, parents) && i < |parents| && w in AllAsWanted(parents[i].registry)
    ensures exists d :: d in parents[i].registry && AsWanted(d) == w && ResolveOne(catalog, w) == Ok(d)
  {
    var ds := parents[i].registry;
    var k :| 0 <= k < |ds| && AsWanted(ds[k]) == w;
    assert Placed(catalog, ds) && FromActive(catalog, ds[k]);
    assert ds[k] in ds && ResolveOne(catalog, w) == Ok(ds[k]);
  }

  /** What is asked for at a place and resolves is what the blueprint depends on there. */
  lemma AskedMeansDependency(raw: Blueprint, parents: seq<Prepared>, catalog: Registry.Catalog, d: RegistryDependency)
    requires CatalogFiled(catalog) && AllPlaced(catalog, parents)
    ensures DependsOn(raw, parents, catalog, d) <==>
            exists w :: Asked(raw, parents, w) && w.path == d.path && w.ordinal == d.ordinal
              && ResolveOne(catalog, w) == Ok(d)
  {
    hide AllPlaced, CatalogFiled, Decimal, LastWithPlace;
    if Speaks(raw, d.path, d.ordinal) {
      var w := WantAt(raw, d.path, d.ordinal);
      assert Asked(raw, parents, w);
      assert OwnDependency(raw, catalog, d) <==> ResolveOne(catalog, w) == Ok(d);
      forall v | Asked(raw, parents, v) && v.path == d.path && v.ordinal == d.ordinal ensures v == w { }
    } else {
      if w :| Asked(raw, parents, w) && w.path == d.path && w.ordinal == d.ordinal && ResolveOne(catalog, w) == Ok(d) {
        var i :| InheritedFrom(parents, i, w);
        InheritedStays(catalog, parents, i, w);
      }
      if i :| 0 <= i < |parents| && d in parents[i].registry && LastWithPlace(parents, i, d.path, d.ordinal) {
        var k :| 0 <= k < |parents[i].registry| && parents[i].registry[k] == d;
        assert AllAsWanted(parents[i].registry)[k] == AsWanted(d);
        assert InheritedFrom(parents, i, AsWanted(d));
        assert ResolveOne(catalog, AsWanted(d)) == Ok(d) by { ActiveResolves(catalog, parents, i, d); }
        if !(raw.behaviorProfiles.Some? && "/behavior_profile_keys/" <= d.path) {
          assert Asked(raw, parents, AsWanted(d));
        }
      }
    }
  }

  lemma ActiveResolves(catalog: Registry.Catalog, parents: seq<Prepared>, i: nat, d: RegistryDependency)
    requires AllPlaced(catalog, parents) && i < |parents| && d in parents[i].registry
    ensures ResolveOne(catalog, AsWanted(d)) == Ok(d)
  {
    assert Placed(catalog, parents[i].registry);
  }

  function WantAt(raw: Blueprint, path: string, n: nat): Wanted
    requires Speaks(raw, path, n)
  {
    if n < |raw.registryRefs| && raw.registryRefs[n].path == path then
      var r := raw.registryRefs[n];
      Wanted(path, n, r.kind, r.key, r.version)
    else Wanted(path, n, "behavior_profile", raw.behaviorProfiles.value[n], None)
  }

  lemma RearrangedPlaced(catalog: Registry.Catalog, xs: seq<RegistryDependency>, ys: seq<RegistryDependency>)
    requires Placed(catalog, xs) && multiset(xs) == multiset(ys)
    ensures Placed(catalog, ys)
  {
    hide FromActive;
    forall i | 0 <= i < |ys| ensures FromActive(catalog, ys[i]) {
      assert ys[i] in multiset(xs);
    }
    forall i, j | 0 <= i < j < |ys| ensures ys[i].path != ys[j].path || ys[i].ordinal != ys[j].ordinal {
      if ys[i].path == ys[j].path && ys[i].ordinal == ys[j].ordinal {
        assert ys[i] in multiset(xs) && ys[j] in multiset(xs);
        assert ys[i] == ys[j];
        TwiceInMultiset(ys, i, j);
        SinglesInMultiset(xs, ys[i]);
        assert false;
      }
    }
  }

  /** The registry dependencies of a finished blueprint, place by place. */
  lemma FinishedByPlace(raw: Blueprint, ids: Ids, contract: string, catalog: Registry.Catalog, parents: seq<Prepared>)
    requires CatalogFiled(catalog) && AllPlaced(catalog, parents)
    requires Finish(raw, ids, contract, catalog, parents).Ok?
    ensures var registry := Finish(raw, ids, contract, catalog, parents).value.registry;
            && Placed(catalog, registry) && Sorted(RegistryLeq(), registry)
            && forall d :: d in registry <==> DependsOn(raw, parents, catalog, d)
  {
    hide WantedBy, ResolveWanted, Placed, AllPlaced, CatalogFiled, DependsOn, Asked, Sort, Sorted, ResolveOne,
      DistinctPlaces, Inherited, TotalPreorder, TotalOrder;
    var wanted := WantedBy(raw, Inherited(parents));
    var ds := ResolveWanted(catalog, wanted).value;
    WantedByPlace(catalog, raw, parents);
    ResolvedHolds(catalog, wanted);
    RankOrder();
    ByIsPreorder(RegistryRank, RankLeq());
    SortSorts(RegistryLeq(), ds);
    var out := Sort(RegistryLeq(), ds);
    RearrangedPlaced(catalog, ds, out);
    forall d ensures d in out <==> DependsOn(raw, parents, catalog, d) {
      assert d in out <==> d in multiset(out);
      assert d in ds <==> d in multiset(ds);
      AskedMeansDependency(raw, parents, catalog, d);
      if d in ds {
        var i :| 0 <= i < |ds| && ds[i] == d;
        assert wanted[i] in wanted;
      }
      if w :| Asked(raw, parents, w) && w.path == d.path && w.ordinal == d.ordinal && ResolveOne(catalog, w) == Ok(d) {
        var i :| 0 <= i < |wanted| && wanted[i] == w;
        assert ds[i] == d;
      }
    }
  }

  lemma {:induction false} CompiledPlaced(raws: Blueprints, ids: string -> Ids, contract: string,
                                          catalog: Registry.Catalog, key: string, visiting: seq<string>)
    requires CatalogFiled(catalog) && Compile(raws, ids, contract, catalog, key, visiting).Ok?
    ensures Placed(catalog, Compile(raws, ids, contract, catalog, key, visiting).value.registry)
    decreases Unseen(GraphOf(raws, ids, contract, catalog), visiting)
  {
    hide Plain, Finish, Placed, CatalogFiled, Compile;
    var parents := CompiledFrom(raws, ids, contract, catalog, key, visiting);
    forall i | 0 <= i < |parents| ensures Placed(catalog, parents[i].registry) {
      CompiledPlaced(raws, ids, contract, catalog, raws[key].parents[i], visiting + [key]);
    }
    FinishedByPlace(raws[key], ids(key), contract, catalog, parents);
  }

  /** The registry references of a catalog that a blueprint needs: every explicit one names an
      active definition of the version it asks for, and so does every behaviour profile whose place
      no explicit reference takes. */
  predicate OwnAvailable(raw: Blueprint, catalog: Registry.Catalog) {
    && (forall i :: 0 <= i < |raw.registryRefs| ==>
       var r := raw.registryRefs[i];
       && (r.kind, r.key) in catalog.active
       && (r.version.Some? ==> catalog.active[(r.kind, r.key)].id.version == r.version.value))
    && (raw.behaviorProfiles.Some? ==>
       forall i :: 0 <= i < |raw.behaviorProfiles.value| ==>
         || ("behavior_profile", raw.behaviorProfiles.value[i]) in catalog.active
         || (i < |raw.registryRefs| && raw.registryRefs[i].path == "/behavior_profile_keys/" + Decimal(i)))
  }

  lemma OwnResolveIff(raw: Blueprint, catalog: Registry.Catalog)
    ensures OwnResolve(raw, catalog) <==> OwnAvailable(raw, catalog)
  {
    hide Own, Survives, Decimal, Untouched;
    forall w ensures Survives(Own(raw), w) <==> Speaks(raw, w.path, w.ordinal) && OwnWant(raw, w) {
      OwnByPlace(raw, w);
    }
    if OwnResolve(raw, catalog) {
      forall i | 0 <= i < |raw.registryRefs|
        ensures var r := raw.registryRefs[i];
                && (r.kind, r.key) in catalog.active
                && (r.version.Some? ==> catalog.active[(r.kind, r.key)].id.version == r.version.value)
      {
        var w := WantAt(raw, raw.registryRefs[i].path, i);
        assert Survives(Own(raw), w) && ResolveOne(catalog, w).Ok?;
      }
      forall i | raw.behaviorProfiles.Some? && 0 <= i < |raw.behaviorProfiles.value|
        ensures ("behavior_profile", raw.behaviorProfiles.value[i]) in catalog.active
                || (i < |raw.registryRefs| && raw.registryRefs[i].path == "/behavior_profile_keys/" + Decimal(i))
      {
        var w := WantAt(raw, "/behavior_profile_keys/" + Decimal(i), i);
        assert Survives(Own(raw), w) && ResolveOne(catalog, w).Ok?;
      }
    }
    if OwnAvailable(raw, catalog) {
      forall w | Survives(Own(raw), w) ensures ResolveOne(catalog, w).Ok? {
        assert Speaks(raw, w.path, w.ordinal) && OwnWant(raw, w);
      }
    }
  }

  /** A blueprint whose inherited dependencies resolve can be finished exactly when its own do. */
  lemma FinishIffOwnResolve(raw: Blueprint, ids: Ids, contract: string, catalog: Registry.Catalog,
                            parents: seq<Prepared>)
    requires forall w :: w in Inherited(parents) ==> ResolveOne(catalog, w).Ok?
    ensures Finish(raw, ids, contract, catalog, parents).Ok? <==> OwnResolve(raw, catalog)
  {
    hide Own, PutAll, Survives, Inherited, ResolveOne, ResolveWanted;
    var kept, own := Kept(Inherited(parents), raw), Own(raw);
    ResolveWantedIff(catalog, WantedBy(raw, Inherited(parents)));
    PutAllHolds([], kept + own);
    forall w ensures Survives(own, w) ==> Survives(kept + own, w)
      ensures Survives(kept + own, w) ==> Survives(own, w) || w in kept
    {
      SurvivesConcat(kept, own, w);
    }
  }

  lemma {:induction false} InheritedResolve(catalog: Registry.Catalog, parents: seq<Prepared>)
    requires forall i :: 0 <= i < |parents| ==> Settled(catalog, parents[i].registry)
    ensures DistinctPlaces(Inherited(parents))
    ensures forall w :: w in Inherited(parents) ==> ResolveOne(catalog, w).Ok?
    decreases |parents|
  {
    if parents != [] {
      var n := |parents| - 1;
      InheritedResolve(catalog, parents[..n]);
      PutAllHolds(Inherited(parents[..n]), AllAsWanted(parents[n].registry));
      assert Settled(catalog, parents[n].registry);
      forall w | w in Inherited(parents) ensures ResolveOne(catalog, w).Ok? {
        if Survives(AllAsWanted(parents[n].registry), w) {
          var i :| 0 <= i < |parents[n].registry| && AsWanted(parents[n].registry[i]) == w;
        }
      }
    }
  }

  /** The registry dependencies of a compiled blueprint resolve in the same catalog. */
  lemma CompiledSettles(raws: Blueprints, ids: string -> Ids, contract: string, catalog: Registry.Catalog, key: string,
                        visiting: seq<string>)
    requires CatalogFiled(catalog) && Compile(raws, ids, contract, catalog, key, visiting).Ok?
    ensures Settled(catalog, Compile(raws, ids, contract, catalog, key, visiting).value.registry)
  {
    hide Plain, Settled, CatalogFiled;
    var parents := CompiledFrom(raws, ids, contract, catalog, key, visiting);
    var wanted := WantedBy(raws[key], Inherited(parents));
    ResolvedSettles(catalog, wanted);
    SortedSettles(catalog, ResolveWanted(catalog, wanted).value);
  }

  /** Every parent exists and has the same kind, and the own registry references resolve. */
  ghost predicate FineBlueprint(raws: Blueprints, catalog: Registry.Catalog, key: string)
    requires key in raws
  {
    && (forall parent :: parent in raws[key].parents ==> parent in raws && raws[parent].kind == raws[key].kind)
    && OwnAvailable(raws[key], catalog)
  }

  lemma FineIsLocallyFine(raws: Blueprints, ids: string -> Ids, contract: string, catalog: Registry.Catalog,
                          key: string)
    requires Keyed(raws) && CatalogFiled(catalog) && key in raws && FineBlueprint(raws, catalog, key)
    ensures LocallyFine(GraphOf(raws, ids, contract, catalog), key)
  {
    hide Plain, Finish, CatalogFiled, OwnResolve, OwnAvailable, Faithful, Settled;
    var g := GraphOf(raws, ids, contract, catalog);
    forall parents: seq<Prepared> | Resolved(g, key, parents)
      ensures (forall i :: 0 <= i < |parents| ==> g.check(key, i, parents[i]).None?) && g.finish(key, parents).Ok?
    {
      forall i | 0 <= i < |parents| ensures g.check(key, i, parents[i]).None? && Settled(catalog, parents[i].registry) {
        assert Compile(raws, ids, contract, catalog, raws[key].parents[i], []) == Ok(parents[i]);
        InheritanceMeaning(raws, ids, contract, catalog, raws[key].parents[i], []);
        CompiledSettles(raws, ids, contract, catalog, raws[key].parents[i], []);
      }
      InheritedResolve(catalog, parents);
      OwnResolveIff(raws[key], catalog);
      FinishIffOwnResolve(raws[key], ids(key), contract, catalog, parents);
      assert g.finish(key, parents) == Finish(raws[key], ids(key), contract, catalog, parents);
    }
  }

  lemma CompiledIsFine(raws: Blueprints, ids: string -> Ids, contract: string, catalog: Registry.Catalog, key: string)
    requires Keyed(raws) && CatalogFiled(catalog) && Compile(raws, ids, contract, catalog, key, []).Ok?
    ensures key in raws && FineBlueprint(raws, catalog, key)
  {
    hide Plain, Finish, CatalogFiled, OwnResolve, OwnAvailable, Faithful, Settled;
    var parents := CompiledFrom(raws, ids, contract, catalog, key, []);
    forall i | 0 <= i < |parents|
      ensures raws[key].parents[i] in raws && parents[i].raw == raws[raws[key].parents[i]]
        && Settled(catalog, parents[i].registry)
    {
      InheritanceMeaning(raws, ids, contract, catalog, raws[key].parents[i], [] + [key]);
      CompiledSettles(raws, ids, contract, catalog, raws[key].parents[i], [] + [key]);
    }
    InheritedResolve(catalog, parents);
    OwnResolveIff(raws[key], catalog);
    FinishIffOwnResolve(raws[key], ids(key), contract, catalog, parents);
    forall parent | parent in raws[key].parents ensures parent in raws && raws[parent].kind == raws[key].kind {
      var i :| 0 <= i < |raws[key].parents| && raws[key].parents[i] == parent;
      assert parents[i].raw.kind == raws[key].kind;
    }
  }

  /** A set of blueprints compiles exactly when every parent exists with the same kind, no
      blueprint inherits from itself, and every own registry reference resolves. */
  lemma CompilesIffValid(raws: Blueprints, ids: string -> Ids, contract: string, catalog: Registry.Catalog)
    requires Keyed(raws) && CatalogFiled(catalog)
    ensures (forall key :: key in raws ==> Compile(raws, ids, contract, catalog, key, []).Ok?)
            <==> Acyclic(GraphOf(raws, ids, contract, catalog)) && forall key :: key in raws ==>
              FineBlueprint(raws, catalog, key)
  {
    hide Plain, LocallyFine, Acyclic, FineBlueprint, CatalogFiled, Keyed;
    var g := GraphOf(raws, ids, contract, catalog);
    SuccessIsExact(g);
    if forall key :: key in raws ==> Compile(raws, ids, contract, catalog, key, []).Ok? {
      forall key | key in g.nodes
        ensures Plain(g, key, []).Ok?
      {
        assert Compile(raws, ids, contract, catalog, key, []).Ok?;
      }
      forall key | key in raws
        ensures FineBlueprint(raws, catalog, key)
      {
        CompiledIsFine(raws, ids, contract, catalog, key);
      }
    }
    if Acyclic(g) && forall key :: key in raws ==> FineBlueprint(raws, catalog, key) {
      forall key | key in g.nodes ensures LocallyFine(g, key) { FineIsLocallyFine(raws, ids, contract, catalog, key); }
      forall key | key in raws ensures Compile(raws, ids, contract, catalog, key, []).Ok? { assert key in g.nodes; }
    }
  }

  // ---- a prepared blueprint, field by field ----

  /** What is copied, the identities, the references to the parents, and what is hashed. */
  ghost predicate BuiltFields(p: Prepared, parents: seq<Prepared>, ids: string -> Ids, contract: string) {
    && p.ids == ids(p.raw.key)
    && p.compiled.key == p.raw.key && p.compiled.kind == p.raw.kind && p.compiled.rest == p.raw.rest
    && p.compiled.contract == contract && p.compiled.source == p.ids.revisionId
    && p.compiled.parents == p.parents && p.compiled.registry == p.registry
    && p.contentHash == ContentDigest(p.raw)
    && p.dependencyHash == p.compiled.dependencyHash == DependencyDigest(p.parents, p.registry)
    && p.compiledHash == CompiledDigest(p.compiled, p.parents, p.registry)
    && |p.parents| == |parents| == |p.raw.parents|
    && forall i :: 0 <= i < |parents| ==>
      && parents[i].raw.key == p.raw.parents[i] && parents[i].raw.kind == p.raw.kind
      && p.parents[i] == ParentDependency("/parent_keys/" + Decimal(i), i, parents[i].ids.headId,
                                          parents[i].ids.revisionId, p.raw.parents[i], p.raw.kind)
  }

  /** layers[i] is the data of the first i parents, merged one after another. */
  ghost predicate MergedStepwise(parents: seq<Prepared>, layers: seq<Json>) {
    && |layers| == |parents| + 1 && layers[0] == Object(map[])
    && forall i :: 0 <= i < |parents| ==> layers[i + 1] == Merge(layers[i], parents[i].compiled.data)
  }

  ghost predicate BuiltData(p: Prepared, parents: seq<Prepared>) {
    exists layers: seq<Json> :: MergedStepwise(parents, layers)
      && p.compiled.data == Merge(layers[|parents|], p.raw.data)
  }

  /** parts[i] is the lineage of the first i parents, one after another. */
  ghost predicate JoinedStepwise(parents: seq<Prepared>, parts: seq<seq<LineageEntry>>) {
    && |parts| == |parents| + 1 && parts[0] == []
    && forall i :: 0 <= i < |parents| ==> parts[i + 1] == parts[i] + parents[i].compiled.lineage
  }

  ghost predicate BuiltLineage(p: Prepared, parents: seq<Prepared>) {
    exists parts: seq<seq<LineageEntry>> :: JoinedStepwise(parents, parts)
      && p.compiled.lineage == parts[|parents|] + [LineageEntry(p.raw.key, p.ids)]
  }

  /** picked are the references at these positions, which ascend and are those of the profiles. */
  ghost predicate Picks(registry: seq<RegistryDependency>, picked: seq<Registry.Reference>, at: seq<nat>) {
    Picked(registry, picked, at) && Ascending(at) && Profiles(registry, at)
  }

  ghost predicate Picked(registry: seq<RegistryDependency>, picked: seq<Registry.Reference>, at: seq<nat>) {
    |at| == |picked| && forall k :: 0 <= k < |at| ==> at[k] < |registry| && registry[at[k]].reference == picked[k]
  }

  ghost predicate Ascending(at: seq<nat>) {
    forall k, l :: 0 <= k < l < |at| ==> at[k] < at[l]
  }

  ghost predicate Profiles(registry: seq<RegistryDependency>, at: seq<nat>) {
    forall i: nat :: i < |registry| ==> (i in at <==> registry[i].reference.id.kind == "behavior_profile")
  }

  /** The behaviours are the behaviour profiles among the registry dependencies, in their order. */
  ghost predicate BuiltBehaviors(p: Prepared) {
    exists at: seq<nat> :: Picks(p.registry, p.compiled.behaviors, at)
  }

  /** Registry dependencies are in the order of kind, key, version, path and ordinal; there is one a
      place, and which one DependsOn says. */
  ghost predicate BuiltRegistry(p: Prepared, parents: seq<Prepared>, catalog: Registry.Catalog) {
    && Placed(catalog, p.registry)
    && Sorted(RegistryLeq(), p.registry)
    && forall d :: d in p.registry <==> DependsOn(p.raw, parents, catalog, d)
  }

  ghost predicate BuiltFrom(p: Prepared, parents: seq<Prepared>, ids: string -> Ids, contract: string,
                        catalog: Registry.Catalog) {
    && BuiltFields(p, parents, ids, contract) && BuiltData(p, parents) && BuiltLineage(p, parents)
    && BuiltBehaviors(p) && BuiltRegistry(p, parents, catalog)
  }

  lemma {:induction false} BehaviorsPicked(registry: seq<RegistryDependency>) returns (at: seq<nat>)
    ensures Picks(registry, Behaviors(registry), at)
    decreases |registry|
  {
    hide Picks;
    if registry == [] {
      at := [];
      assert Picks(registry, [], at) by { NothingPicked(); }
    } else {
      var rest := BehaviorsPicked(registry[1..]);
      at := PickOneMore(registry, Behaviors(registry[1..]), rest);
    }
  }

  lemma NothingPicked()
    ensures Picks([], [], [])
  {
  }

  function Shifted(at: seq<nat>): (r: seq<nat>)
    ensures |r| == |at| && forall k :: 0 <= k < |at| ==> r[k] == at[k] + 1
  {
    seq(|at|, k requires 0 <= k < |at| => at[k] + 1)
  }

  lemma ShiftedHas(at: seq<nat>, i: nat)
    ensures i in Shifted(at) <==> i > 0 && i - 1 in at
  {
    if i > 0 && i - 1 in at {
      var k :| 0 <= k < |at| && at[k] == i - 1;
      assert Shifted(at)[k] == i;
    }
  }

  lemma PickOneMore(registry: seq<RegistryDependency>, picked: seq<Registry.Reference>, rest: seq<nat>)
    returns (at: seq<nat>)
    requires registry != [] && Picks(registry[1..], picked, rest)
    ensures Picks(registry,
      (if registry[0].reference.id.kind == "behavior_profile" then [registry[0].reference] else []) + picked, at)
  {
    hide Profiles;
    var tail := registry[1..];
    if registry[0].reference.id.kind == "behavior_profile" {
      at := [0] + Shifted(rest);
      assert Picked(registry, [registry[0].reference] + picked, at);
    } else {
      at := Shifted(rest);
      assert [] + picked == picked;
      assert Picked(registry, picked, at);
    }
    ProfilesOneMore(registry, rest);
  }

  lemma ProfilesOneMore(registry: seq<RegistryDependency>, rest: seq<nat>)
    requires registry != [] && Profiles(registry[1..], rest)
    ensures Profiles(registry,
      if registry[0].reference.id.kind == "behavior_profile" then [0] + Shifted(rest) else Shifted(rest))
  {
    var at := if registry[0].reference.id.kind == "behavior_profile" then [0] + Shifted(rest) else Shifted(rest);
    forall i: nat | i < |registry| ensures i in at <==> registry[i].reference.id.kind == "behavior_profile" {
      ShiftedHas(rest, i);
      if i > 0 {
        assert registry[1..][i - 1] == registry[i];
      }
    }
  }

  lemma MergedByStep(parents: seq<Prepared>) returns (layers: seq<Json>)
    ensures MergedStepwise(parents, layers) && layers[|parents|] == MergedParents(parents)
  {
    layers := seq(|parents| + 1, i requires 0 <= i <= |parents| => MergedParents(parents[..i]));
    forall i | 0 <= i < |parents| ensures layers[i + 1] == Merge(layers[i], parents[i].compiled.data) {
      assert parents[..i + 1][..i] == parents[..i];
    }
    assert parents[..|parents|] == parents;
  }

  lemma JoinedByStep(parents: seq<Prepared>) returns (parts: seq<seq<LineageEntry>>)
    ensures JoinedStepwise(parents, parts) && parts[|parents|] == Lineages(parents)
  {
    parts := seq(|parents| + 1, i requires 0 <= i <= |parents| => Lineages(parents[..i]));
    forall i | 0 <= i < |parents| ensures parts[i + 1] == parts[i] + parents[i].compiled.lineage {
      assert parents[..i + 1][..i] == parents[..i];
    }
    assert parents[..|parents|] == parents;
  }

  /** A finished blueprint is built from its parents as the fields say. */
  lemma FinishedIsBuilt(raw: Blueprint, ids: string -> Ids, contract: string, catalog: Registry.Catalog,
                        parents: seq<Prepared>)
    requires CatalogFiled(catalog) && AllPlaced(catalog, parents)
    requires Finish(raw, ids(raw.key), contract, catalog, parents).Ok? && |parents| == |raw.parents|
    requires forall i :: 0 <= i < |parents| ==> parents[i].raw.key == raw.parents[i] && parents[i].raw.kind == raw.kind
    ensures BuiltFrom(Finish(raw, ids(raw.key), contract, catalog, parents).value, parents, ids, contract, catalog)
  {
    hide Placed, AllPlaced, CatalogFiled, DependsOn, WantedBy, ResolveWanted, Sort, Sorted, MergedStepwise,
      JoinedStepwise, Picks, Decimal, Merge;
    FinishedByPlace(raw, ids(raw.key), contract, catalog, parents);
    var p := Finish(raw, ids(raw.key), contract, catalog, parents).value;
    var layers := MergedByStep(parents);
    var parts := JoinedByStep(parents);
    var at := BehaviorsPicked(p.registry);
    assert BuiltRegistry(p, parents, catalog);
  }

  /** p is built from its parents, all of them among the prepared ones. */
  ghost predicate BuiltAmong(p: Prepared, ps: seq<Prepared>, ids: string -> Ids, contract: string,
                             catalog: Registry.Catalog) {
    exists parents: seq<Prepared> ::
      (forall q :: q in parents ==> q in ps) && BuiltFrom(p, parents, ids, contract, catalog)
  }

  lemma CompiledIsBuilt(raws: Blueprints, ids: string -> Ids, contract: string, catalog: Registry.Catalog, key: string)
    returns (parents: seq<Prepared>)
    requires Keyed(raws) && CatalogFiled(catalog) && Compile(raws, ids, contract, catalog, key, []).Ok?
    ensures key in raws && |parents| == |raws[key].parents|
    ensures forall i :: 0 <= i < |parents| ==>
      && raws[key].parents[i] in raws
      && Compile(raws, ids, contract, catalog, raws[key].parents[i], []) == Ok(parents[i])
    ensures BuiltFrom(Compile(raws, ids, contract, catalog, key, []).value, parents, ids, contract, catalog)
  {
    hide Plain, Finish, Placed, CatalogFiled, BuiltFrom, Faithful;
    parents := CompiledFrom(raws, ids, contract, catalog, key, []);
    var g := GraphOf(raws, ids, contract, catalog);
    forall i | 0 <= i < |parents|
      ensures Placed(catalog, parents[i].registry) && parents[i].raw.key == raws[key].parents[i]
        && raws[key].parents[i] in raws
           && Compile(raws, ids, contract, catalog, raws[key].parents[i], []) == Ok(parents[i])
    {
      CompiledPlaced(raws, ids, contract, catalog, raws[key].parents[i], [] + [key]);
      InheritanceMeaning(raws, ids, contract, catalog, raws[key].parents[i], [] + [key]);
      OkFromScratch(g, raws[key].parents[i], [] + [key]);
    }
    FinishedIsBuilt(raws[key], ids, contract, catalog, parents);
  }

  // ---- a whole bundle ----

  ghost predicate UniqueKeys(bs: seq<Blueprint>) {
    && (forall i :: 0 <= i < |bs| ==> bs[i].key != "")
    && (forall i, j :: 0 <= i < j < |bs| ==> bs[i].key != bs[j].key)
  }

  function KeysOf(bs: seq<Blueprint>): (keys: seq<string>)
    ensures |keys| == |bs| && forall i :: 0 <= i < |bs| ==> keys[i] == bs[i].key
  {
    seq(|bs|, i requires 0 <= i < |bs| => bs[i].key)
  }

  /** The table holds exactly these blueprints. */
  ghost predicate TableOf(raws: Blueprints, bs: seq<Blueprint>) {
    && (forall i :: 0 <= i < |bs| ==> bs[i].key in raws && raws[bs[i].key] == bs[i])
    && (forall key :: key in raws ==> raws[key].key == key && raws[key] in bs)
  }

  method FileBlueprints(bs: seq<Blueprint>) returns (result: Option<Blueprints>)
    ensures result.Some? <==> UniqueKeys(bs)
    ensures result.Some? ==> TableOf(result.value, bs)
  {
    var raws: Blueprints := map[];
    for i := 0 to |bs|
      invariant UniqueKeys(bs[..i])
      invariant forall j :: 0 <= j < i ==> bs[j].key in raws && raws[bs[j].key] == bs[j]
      invariant forall key :: key in raws ==> raws[key].key == key && raws[key] in bs[..i]
    {
      assert bs[..i + 1] == bs[..i] + [bs[i]];
      if bs[i].key == "" || bs[i].key in raws {
        return None;
      }
      raws := raws[bs[i].key := bs[i]];
    }
    assert bs[..|bs|] == bs;
    result := Some(raws);
  }

  function ErrorOf(f: Failure<string, CompileError>): CompileError {
    match f
    case Cycle(path) => InheritanceCycle(path)
    case Other(e) => e
  }

  /** ps are the compiled blueprints of the table, in the order of their keys. */
  ghost predicate CompiledAll(raws: Blueprints, ids: string -> Ids, contract: string, catalog: Registry.Catalog,
                              keys: seq<string>, ps: seq<Prepared>) {
    |ps| == |keys| && forall i :: 0 <= i < |ps| ==> Compile(raws, ids, contract, catalog, keys[i], []) == Ok(ps[i])
  }

  /** Every blueprint of the bundle is prepared once, in the order of the keys, from its parents. */
  ghost predicate BundleBuilt(bs: seq<Blueprint>, ps: seq<Prepared>, ids: string -> Ids, contract: string,
                              catalog: Registry.Catalog) {
    && |ps| == |bs|
    && (forall i, j :: 0 <= i < j < |ps| ==> StringLeq()(ps[i].raw.key, ps[j].raw.key))
    && (forall b :: b in bs ==> exists i :: 0 <= i < |ps| && ps[i].raw == b)
    && forall i :: 0 <= i < |ps| ==> ps[i].raw in bs && BuiltAmong(ps[i], ps, ids, contract, catalog)
  }

  lemma CompiledRaws(bs: seq<Blueprint>, raws: Blueprints, ids: string -> Ids, contract: string,
                     catalog: Registry.Catalog, ps: seq<Prepared>)
    requires TableOf(raws, bs)
    requires CompiledAll(raws, ids, contract, catalog, Sort(StringLeq(), KeysOf(bs)), ps)
    ensures |ps| == |bs|
    ensures forall i :: 0 <= i < |ps| ==>
      && Sort(StringLeq(), KeysOf(bs))[i] in raws && ps[i].raw == raws[Sort(StringLeq(), KeysOf(bs))[i]]
      && ps[i].raw in bs
    ensures forall i, j :: 0 <= i < j < |ps| ==> StringLeq()(ps[i].raw.key, ps[j].raw.key)
  {
    hide Compile, Sort, Faithful;
    var keys := Sort(StringLeq(), KeysOf(bs));
    SortedKeys(bs);
    StringOrder();
    SortSorts(StringLeq(), KeysOf(bs));
    forall i | 0 <= i < |ps| ensures keys[i] in raws && ps[i].raw == raws[keys[i]] && ps[i].raw in bs {
      InheritanceMeaning(raws, ids, contract, catalog, keys[i], []);
    }
  }

  lemma CompiledBundle(bs: seq<Blueprint>, raws: Blueprints, ids: string -> Ids, contract: string,
                       catalog: Registry.Catalog, ps: seq<Prepared>)
    requires TableOf(raws, bs) && CatalogFiled(catalog)
    requires CompiledAll(raws, ids, contract, catalog, Sort(StringLeq(), KeysOf(bs)), ps)
    ensures BundleBuilt(bs, ps, ids, contract, catalog)
  {
    hide CatalogFiled, Compile, Sort, BuiltFrom, Faithful;
    var keys := Sort(StringLeq(), KeysOf(bs));
    SortedKeys(bs);
    CompiledRaws(bs, raws, ids, contract, catalog, ps);
    forall b | b in bs ensures exists i :: 0 <= i < |ps| && ps[i].raw == b {
      var n :| 0 <= n < |bs| && bs[n] == b;
      assert KeysOf(bs)[n] == b.key && b.key in KeysOf(bs);
      var i :| 0 <= i < |keys| && keys[i] == b.key;
      assert ps[i].raw == b;
    }
    forall i | 0 <= i < |ps| ensures BuiltAmong(ps[i], ps, ids, contract, catalog) {
      var parents := CompiledIsBuilt(raws, ids, contract, catalog, keys[i]);
      forall q | q in parents ensures q in ps {
        var j :| 0 <= j < |parents| && parents[j] == q;
        KeyThere(bs, raws, raws[keys[i]].parents[j]);
        var n :| 0 <= n < |keys| && keys[n] == raws[keys[i]].parents[j];
        assert ps[n] == q;
      }
    }
  }

  lemma KeyThere(bs: seq<Blueprint>, raws: Blueprints, key: string)
    requires TableOf(raws, bs) && key in raws
    ensures key in KeysOf(bs)
  {
    var i :| 0 <= i < |bs| && bs[i] == raws[key];
    assert KeysOf(bs)[i] == key;
  }

  /** Compiles a bundle; it fails when keys are empty or repeated, or with the failure of the first
      blueprint, in bundle order, that cannot be compiled. */
  method PrepareBlueprints(bs: seq<Blueprint>, ids: string -> Ids, contract: string, catalog: Registry.Catalog)
    returns (result: Result<seq<Prepared>, CompileError>, ghost raws: Blueprints)
    ensures !UniqueKeys(bs) ==> result == Err(DuplicateKey)
    ensures UniqueKeys(bs) ==>
      && TableOf(raws, bs)
      && (result.Ok? <==> forall key :: key in raws ==> Compile(raws, ids, contract, catalog, key, []).Ok?)
      && (result.Ok? ==> CompiledAll(raws, ids, contract, catalog, Sort(StringLeq(), KeysOf(bs)), result.value))
      && (result.Ok? && CatalogFiled(catalog) ==> BundleBuilt(bs, result.value, ids, contract, catalog))
      && (result.Err? ==>
         exists f :: FirstFailure(GraphOf(raws, ids, contract, catalog), KeysOf(bs), f) && result.error == ErrorOf(f))
  {
    hide Plain, Sort, BundleBuilt, CatalogFiled;
    raws := map[];
    var filed := FileBlueprints(bs);
    if filed.None? {
      return Err(DuplicateKey), raws;
    }
    raws := filed.value;
    var g := GraphOf(filed.value, ids, contract, catalog);
    forall key | key in raws ensures key in KeysOf(bs) {
      var i :| 0 <= i < |bs| && bs[i] == raws[key];
      assert KeysOf(bs)[i] == key;
    }
    assert (set k | k in KeysOf(bs)) == g.nodes;
    var resolver := new Resolver(g);
    var failure := resolver.ResolveAll(KeysOf(bs));
    assert forall key :: key in raws ==> Compile(raws, ids, contract, catalog, key, []) == Plain(g, key, []);
    if failure.Some? {
      return Err(ErrorOf(failure.value)), raws;
    }
    var keys := Sort(StringLeq(), KeysOf(bs));
    SortedKeys(bs);
    var prepared :=
      seq(|keys|, i requires 0 <= i < |keys| && keys[i] in resolver.memo.Keys reads resolver => resolver.memo[keys[i]]);
    result := Ok(prepared);
    if CatalogFiled(catalog) {
      CompiledBundle(bs, raws, ids, contract, catalog, prepared);
    }
  }

  lemma SortedKeys(bs: seq<Blueprint>)
    ensures |Sort(StringLeq(), KeysOf(bs))| == |bs|
    ensures forall key :: key in Sort(StringLeq(), KeysOf(bs)) <==> key in KeysOf(bs)
  {
    hide Sort;
    StringOrder();
    SortSorts(StringLeq(), KeysOf(bs));
    var sorted := Sort(StringLeq(), KeysOf(bs));
    assert |sorted| == |multiset(sorted)|;
    forall key ensures key in sorted <==> key in KeysOf(bs) {
      assert key in multiset(sorted) <==> key in multiset(KeysOf(bs));
    }
  }
}
