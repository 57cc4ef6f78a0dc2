/**
 The registry catalog: definitions that name each other by exact version are resolved depth first,
 each getting a hash over its own content and the hashes of what it depends on.
 */
module RegistryCatalog {
  import opened Wrappers
  import opened DepthFirst

  type Hash = string

  datatype Identity = Identity(kind: string, key: string, version: string)

  datatype Reference = Reference(id: Identity, hash: Option<Hash>)

  /** `content` stands for summary, source module, declaration, tags and artifact hash. */
  datatype Definition = Definition(id: Identity, content: string, dependencies: seq<Reference>, hash: Option<Hash>)
  {
    function AsReference(): Reference {
      Reference(id, hash)
    }
  }

  /** What is hashed: the definition with the exact references of its dependencies. */
  datatype Payload = Payload(id: Identity, content: string, dependencies: seq<Reference>)

  datatype RegistryError =
    | VersionContentMismatch(id: Identity)
    | MissingDependency(id: Identity)
    | ReferenceCycle(path: seq<Identity>)
    | DuplicateKey(kind: string, key: string)
    | ReferenceNotFound(kind: string, key: string)
    | CompatDefinitionMissing(id: Identity)
    | SchemaInvalid

  type Raws = map<Identity, Definition>

  /** The canonical hash never maps two payloads to one value. */
  ghost predicate Injective(h: Payload -> Hash) {
    forall p, q :: h(p) == h(q) ==> p == q
  }

  // ---- the graph of definitions ----

  function Targets(raws: Raws, id: Identity): seq<Identity> {
    if id in raws then seq(|raws[id].dependencies|,
      i requires 0 <= i < |raws[id].dependencies| => raws[id].dependencies[i].id)
    else []
  }

  function CheckTarget(raws: Raws, id: Identity, i: nat, target: Definition): Option<RegistryError> {
    if id in raws && i < |raws[id].dependencies| && raws[id].dependencies[i].hash.Some?
      && raws[id].dependencies[i].hash != target.hash
    then Some(VersionContentMismatch(raws[id].dependencies[i].id))
    else None
  }

  function ReferencesTo(targets: seq<Definition>): (rs: seq<Reference>)
    ensures |rs| == |targets| && forall i :: 0 <= i < |rs| ==> rs[i] == targets[i].AsReference()
  {
    seq(|targets|, i requires 0 <= i < |targets| => targets[i].AsReference())
  }

  function Normalize(raws: Raws, h: Payload -> Hash, id: Identity,
                     targets: seq<Definition>): Result<Definition, RegistryError> {
    if id !in raws then Err(MissingDependency(id))
    else
      var raw := raws[id];
      var exact := ReferencesTo(targets);
      var hash := h(Payload(id, raw.content, exact));
      if raw.hash.Some? && raw.hash.value != hash then Err(VersionContentMismatch(id))
      else Ok(Definition(id, raw.content, exact, Some(hash)))
  }

  function GraphOf(raws: Raws, h: Payload -> Hash): Graph<Identity, Definition, RegistryError> {
    Graph(
      raws.Keys,
      id => Targets(raws, id),
      id => MissingDependency(id),
      (id, i, target) => CheckTarget(raws, id, i, target),
      (id, targets) => Normalize(raws, h, id, targets))
  }

  /** Every key of the table names its own definition. */
  ghost predicate Keyed(raws: Raws) {
    forall id :: id in raws ==> raws[id].id == id
  }

  /** The definitions resolved: each carries the hash of its content and of the exact references
      of its dependencies, which are all resolved too. */
  ghost predicate Exact(m: Raws, h: Payload -> Hash) {
    Keyed(m) && forall id :: id in m ==> ExactAt(m, h, id)
  }

  ghost predicate ExactAt(m: Raws, h: Payload -> Hash, id: Identity)
    requires id in m
  {
    && m[id].hash == Some(h(Payload(id, m[id].content, m[id].dependencies)))
    && forall i :: 0 <= i < |m[id].dependencies| ==>
         var r := m[id].dependencies[i]; r.id in m && r == m[r.id].AsReference()
  }

  /** m holds what the recursion over raws computes for every definition. */
  ghost predicate ResolvesTo(raws: Raws, h: Payload -> Hash, m: Raws) {
    m.Keys == raws.Keys && forall id :: id in raws ==> Plain(GraphOf(raws, h), id, []) == Ok(m[id])
  }

  /** A resolved definition was normalized from the resolved definitions of its targets. */
  lemma ResolvedTargets(raws: Raws, h: Payload -> Hash, m: Raws, id: Identity) returns (targets: seq<Definition>)
    requires ResolvesTo(raws, h, m) && id in raws
    ensures id in m && |targets| == |raws[id].dependencies| && Normalize(raws, h, id, targets) == Ok(m[id])
    ensures forall i :: 0 <= i < |targets| ==> var target := raws[id].dependencies[i].id;
              && target in m && targets[i] == m[target] && m[target].id == target
              && CheckTarget(raws, id, i, targets[i]).None?
  {
    var g := GraphOf(raws, h);
    assert [] + [id] == [id];
    assert Plain(g, id, []) == Ok(m[id]);
    assert PlainFrom(g, id, [id], 0).Ok?;
    FromMeansEach(g, id, [id], 0);
    targets := PlainFrom(g, id, [id], 0).value;
    assert g.finish(id, targets) == Normalize(raws, h, id, targets);
    forall i | 0 <= i < |targets|
      ensures var target := raws[id].dependencies[i].id;
              && target in m && targets[i] == m[target] && m[target].id == target
              && CheckTarget(raws, id, i, targets[i]).None?
    {
      var target := raws[id].dependencies[i].id;
      assert g.children(id)[i] == target;
      TargetResolved(raws, h, m, target, [id]);
      assert g.check(id, i, targets[i]) == CheckTarget(raws, id, i, targets[i]);
    }
  }

  lemma TargetResolved(raws: Raws, h: Payload -> Hash, m: Raws, id: Identity, visiting: seq<Identity>)
    requires ResolvesTo(raws, h, m) && Plain(GraphOf(raws, h), id, visiting).Ok?
    ensures id in m && Plain(GraphOf(raws, h), id, visiting) == Ok(m[id]) && m[id].id == id
  {
    OkFromScratch(GraphOf(raws, h), id, visiting);
  }

  /** What one resolved definition looks like next to its raw one. */
  lemma ResolvedShape(raws: Raws, h: Payload -> Hash, m: Raws, id: Identity)
    requires ResolvesTo(raws, h, m) && id in raws
    ensures var raw, d := raws[id], m[id];
            && d.id == id && d.content == raw.content && |d.dependencies| == |raw.dependencies|
            && d.hash == Some(h(Payload(id, d.content, d.dependencies))) && (raw.hash.Some? ==> raw.hash == d.hash)
            && (forall i :: 0 <= i < |raw.dependencies| ==>
                  && raw.dependencies[i].id in m && d.dependencies[i] == m[raw.dependencies[i].id].AsReference()
                  && (raw.dependencies[i].hash.Some? ==> raw.dependencies[i].hash == d.dependencies[i].hash))
  {
    hide ResolvesTo, Plain, PlainFrom, GraphOf;
    var targets := ResolvedTargets(raws, h, m, id);
  }

  lemma ResolvedIsExact(raws: Raws, h: Payload -> Hash, m: Raws)
    requires ResolvesTo(raws, h, m)
    ensures Exact(m, h)
  {
    hide Plain;
    forall id | id in m ensures m[id].id == id && ExactAt(m, h, id) {
      ResolvedShape(raws, h, m, id);
      forall i | 0 <= i < |m[id].dependencies|
        ensures var r := m[id].dependencies[i]; r.id in m && r == m[r.id].AsReference()
      {
        ResolvedShape(raws, h, m, raws[id].dependencies[i].id);
      }
    }
  }

  // ---- equal hashes, equal dependency trees ----

  /** A definition with everything it depends on, written out. */
  datatype Tree = Tree(id: Identity, content: string, children: seq<Tree>)

  ghost predicate TreeOf(m: Raws, id: Identity, t: Tree)
    decreases t
  {
    && id in m && t.id == id && t.content == m[id].content && |t.children| == |m[id].dependencies|
    && forall i :: 0 <= i < |t.children| ==> TreeOf(m, m[id].dependencies[i].id, t.children[i])
  }

  /** Two resolved definitions with equal hashes, even of different catalogs, have equal whole
      dependency trees. */
  lemma {:induction false} EqualHashEqualTree(h: Payload -> Hash, m: Raws, n: Raws, a: Identity, b: Identity, s: Tree,
                                              t: Tree)
    requires Injective(h) && Exact(m, h) && Exact(n, h)
    requires TreeOf(m, a, s) && TreeOf(n, b, t) && m[a].hash == n[b].hash
    ensures s == t
    decreases s
  {
    assert ExactAt(m, h, a) && ExactAt(n, h, b);
    assert h(Payload(a, m[a].content, m[a].dependencies)) == h(Payload(b, n[b].content, n[b].dependencies));
    assert m[a].dependencies == n[b].dependencies;
    forall i | 0 <= i < |s.children| ensures s.children[i] == t.children[i] {
      var r := m[a].dependencies[i];
      assert r == m[r.id].AsReference() && n[b].dependencies[i] == n[r.id].AsReference();
      EqualHashEqualTree(h, m, n, r.id, r.id, s.children[i], t.children[i]);
    }
    assert s.children == t.children;
  }

  /** Every resolved definition has such a tree: resolution leaves no cycle. */
  lemma {:induction false} HasTree(raws: Raws, h: Payload -> Hash, m: Raws, id: Identity, visiting: seq<Identity>)
    returns (t: Tree)
    requires ResolvesTo(raws, h, m) && id in raws && Plain(GraphOf(raws, h), id, visiting).Ok?
    ensures TreeOf(m, id, t)
    decreases Unseen(GraphOf(raws, h), visiting)
  {
    hide Plain, PlainFrom;
    var g := GraphOf(raws, h);
    ResolvedShape(raws, h, m, id);
    OkBelow(g, id, visiting);
    var children: seq<Tree> := [];
    for i := 0 to |raws[id].dependencies|
      invariant |children| == i
      invariant forall j :: 0 <= j < i ==> TreeOf(m, m[id].dependencies[j].id, children[j])
    {
      var target := raws[id].dependencies[i].id;
      assert g.children(id)[i] == target && target in m;
      assert m[id].dependencies[i].id == target by { ResolvedShape(raws, h, m, target); }
      var child := HasTree(raws, h, m, target, visiting + [id]);
      children := children + [child];
    }
    t := Tree(id, m[id].content, children);
  }

  // ---- rebuilding from resolved definitions ----

  /** Resolving already resolved definitions changes nothing. */
  lemma {:induction false} ExactResolvesToItself(m: Raws, h: Payload -> Hash, raws: Raws, id: Identity,
                                                 visiting: seq<Identity>)
    requires ResolvesTo(raws, h, m) && Exact(m, h) && id in m && Plain(GraphOf(raws, h), id, visiting).Ok?
    ensures Plain(GraphOf(m, h), id, visiting) == Ok(m[id])
    decreases Unseen(GraphOf(raws, h), visiting)
  {
    var g, f := GraphOf(m, h), GraphOf(raws, h);
    ResolvedShape(raws, h, m, id);
    UnseenShrinks(f, visiting, id);
    FromMeansEach(f, id, visiting + [id], 0);
    var deps := m[id].dependencies;
    assert ExactAt(m, h, id);
    var targets := seq(|deps|, i requires 0 <= i < |deps| => m[deps[i].id]);
    forall i | 0 <= i < |deps|
      ensures Plain(g, g.children(id)[i], visiting + [id]) == Ok(targets[i]) && g.check(id, i, targets[i]).None?
    {
      ResolvedShape(raws, h, m, raws[id].dependencies[i].id);
      assert f.children(id)[i] == raws[id].dependencies[i].id == deps[i].id == g.children(id)[i];
      ExactResolvesToItself(m, h, raws, deps[i].id, visiting + [id]);
      assert g.check(id, i, targets[i]) == CheckTarget(m, id, i, targets[i]);
    }
    EachMeansFrom(g, id, visiting + [id], 0, targets);
    assert targets[0..] == targets && ReferencesTo(targets) == deps;
    assert g.finish(id, targets) == Normalize(m, h, id, targets) == Ok(m[id]);
  }

  // ---- catalogs ----

  type ActiveKey = (string, string)

  function KeyOf(d: Definition): ActiveKey {
    (d.id.kind, d.id.key)
  }

  datatype Catalog = Catalog(active: map<ActiveKey, Definition>, compatibility: map<(Identity, Hash), Definition>)
  {
    /** The active definition of a key, of the given version if one is given. */
    function ResolveActive(kind: string, key: string, version: Option<string>): Result<Definition, RegistryError> {
      if (kind, key) !in active then Err(ReferenceNotFound(kind, key))
      else if version.Some?
        && active[(kind, key)].id.version != version.value then Err(VersionContentMismatch(active[(kind, key)].id))
      else Ok(active[(kind, key)])
    }

    /** The definition an exact reference names; a reference to other content of a known version is
        told apart from a reference to an unknown version. */
    function ResolveExact(reference: Reference): Result<Definition, RegistryError> {
      if reference.hash.None? then Err(SchemaInvalid)
      else if (reference.id, reference.hash.value) in compatibility
        then Ok(compatibility[(reference.id, reference.hash.value)])
      else if exists k ::
        k in compatibility && compatibility[k].id == reference.id then Err(VersionContentMismatch(reference.id))
      else Err(CompatDefinitionMissing(reference.id))
    }
  }

  /** One definition per identity; two different ones for one identity clash. */
  function Collect(raws: Raws, defs: seq<Definition>): Result<Raws, RegistryError>
    decreases |defs|
  {
    if defs == [] then Ok(raws)
    else if defs[0].id in raws && raws[defs[0].id] != defs[0] then Err(VersionContentMismatch(defs[0].id))
    else Collect(raws[defs[0].id := defs[0]], defs[1..])
  }

  function Activate(m: Raws, active: map<ActiveKey, Definition>,
                    defs: seq<Definition>): Result<map<ActiveKey, Definition>, RegistryError>
    requires forall i :: 0 <= i < |defs| ==> defs[i].id in m
    decreases |defs|
  {
    if defs == [] then Ok(active)
    else if KeyOf(defs[0]) in active then Err(DuplicateKey(defs[0].id.kind, defs[0].id.key))
    else Activate(m, active[KeyOf(defs[0]) := m[defs[0].id]], defs[1..])
  }

  function HashOf(d: Definition): Hash {
    if d.hash.Some? then d.hash.value else ""
  }

  function CompatibilityOf(m: Raws): map<(Identity, Hash), Definition> {
    map id | id in m :: (id, HashOf(m[id])) := m[id]
  }

  /** c is the catalog of these definitions, with m its resolved definitions. */
  ghost predicate Builds(active: seq<Definition>, compat: seq<Definition>, h: Payload -> Hash, m: Raws, c: Catalog) {
    && Collect(map[], compat + active).Ok?
    && ResolvesTo(Collect(map[], compat + active).value, h, m)
    && (forall i :: 0 <= i < |active| ==> active[i].id in m)
    && Activate(m, map[], active) == Ok(c.active)
    && c.compatibility == CompatibilityOf(m)
  }

  lemma {:induction false} CollectHolds(raws: Raws, defs: seq<Definition>)
    requires Collect(raws, defs).Ok? && Keyed(raws)
    ensures var out := Collect(raws, defs).value;
            && Keyed(out) && (forall id :: id in raws ==> id in out && out[id] == raws[id])
            && (forall i :: 0 <= i < |defs| ==> defs[i].id in out && out[defs[i].id] == defs[i])
            && (forall id :: id in out ==> id in raws || out[id] in defs)
    decreases |defs|
  {
    if defs == [] {
    } else {
      CollectHolds(raws[defs[0].id := defs[0]], defs[1..]);
    }
  }

  /** Whenever two definitions name one identity they are the same. */
  ghost predicate IdentitiesAgree(defs: seq<Definition>) {
    forall i, j :: 0 <= i < j < |defs| && defs[i].id == defs[j].id ==> defs[i] == defs[j]
  }

  ghost predicate KeysDistinct(defs: seq<Definition>) {
    forall i, j :: 0 <= i < j < |defs| ==> KeyOf(defs[i]) != KeyOf(defs[j])
  }

  lemma {:induction false} CollectIff(raws: Raws, defs: seq<Definition>)
    ensures Collect(raws, defs).Ok?
            <==> IdentitiesAgree(defs) && forall i :: 0 <= i < |defs| && defs[i].id in raws ==>
              raws[defs[i].id] == defs[i]
    decreases |defs|
  {
    if defs == [] {
    } else {
      var d, more := defs[0], raws[defs[0].id := defs[0]];
      CollectIff(more, defs[1..]);
      assert forall i :: 1 <= i < |defs| ==> defs[1..][i - 1] == defs[i];
      if Collect(raws, defs).Ok? {
        forall i | 1 <= i < |defs| && defs[i].id in more ensures more[defs[i].id] == defs[i] {
          assert defs[1..][i - 1].id in more;
        }
      } else if d.id !in raws || raws[d.id] == d {
        assert IdentitiesAgree(defs) ==> IdentitiesAgree(defs[1..]);
      }
    }
  }

  lemma {:induction false} ActivateIff(m: Raws, active: map<ActiveKey, Definition>, defs: seq<Definition>)
    requires forall i :: 0 <= i < |defs| ==> defs[i].id in m
    ensures Activate(m, active, defs).Ok? <==> KeysDistinct(defs) && forall i :: 0 <= i < |defs| ==>
      KeyOf(defs[i]) !in active
    decreases |defs|
  {
    if defs == [] {
    } else {
      var more := active[KeyOf(defs[0]) := m[defs[0].id]];
      ActivateIff(m, more, defs[1..]);
      assert forall i :: 1 <= i < |defs| ==> defs[1..][i - 1] == defs[i];
      if Activate(m, active, defs).Ok? {
        forall i | 1 <= i < |defs| ensures KeyOf(defs[i]) !in more {
          assert KeyOf(defs[1..][i - 1]) !in more;
        }
      } else if KeyOf(defs[0]) !in active {
        assert KeysDistinct(defs) ==> KeysDistinct(defs[1..]);
      }
    }
  }

  /** Exactly when a catalog can be built: definitions of one identity agree, the references are
      acyclic and each is right, and no two active definitions share a key. */
  ghost predicate Buildable(active: seq<Definition>, compat: seq<Definition>, h: Payload -> Hash) {
    && IdentitiesAgree(compat + active) && KeysDistinct(active)
    && Collect(map[], compat + active).Ok?
    && var g := GraphOf(Collect(map[], compat + active).value, h);
       Acyclic(g) && forall id :: id in g.nodes ==> LocallyFine(g, id)
  }

  lemma BuildableIff(active: seq<Definition>, compat: seq<Definition>, h: Payload -> Hash)
    ensures Collect(map[], compat + active).Ok? <==> IdentitiesAgree(compat + active)
    ensures Buildable(active, compat, h)
            <==> Collect(map[], compat + active).Ok? && KeysDistinct(active)
                 && var raws := Collect(map[], compat + active).value;
                    forall id :: id in raws ==> Plain(GraphOf(raws, h), id, []).Ok?
  {
    hide Plain, Acyclic, LocallyFine, KeysDistinct;
    CollectIff(map[], compat + active);
    if Collect(map[], compat + active).Ok? {
      SuccessIsExact(GraphOf(Collect(map[], compat + active).value, h));
    }
  }

  /** A resolved row next to its raw one: every dependency named exactly, by the resolved row it points
      to; the hash over content and exact dependencies; and no hash contradicting one given before. */
  ghost predicate RowResolves(raw: Definition, m: Raws, id: Identity, h: Payload -> Hash) {
    && id in m && m[id].id == id && m[id].content == raw.content
    && |m[id].dependencies| == |raw.dependencies|
    && (forall i :: 0 <= i < |raw.dependencies| ==> DependencyResolves(raw.dependencies[i], m[id].dependencies[i], m))
    && m[id].hash == Some(h(Payload(id, raw.content, m[id].dependencies)))
    && (raw.hash.Some? ==> raw.hash == m[id].hash)
  }

  ghost predicate DependencyResolves(given: Reference, exact: Reference, m: Raws) {
    && given.id in m && exact == Reference(m[given.id].id, m[given.id].hash)
    && (given.hash.Some? ==> given.hash == exact.hash)
  }

  /** m resolves every definition of the table. */
  ghost predicate Resolution(raws: Raws, h: Payload -> Hash, m: Raws) {
    m.Keys == raws.Keys && forall id :: id in raws ==> RowResolves(raws[id], m, id, h)
  }

  ghost predicate DependsDirectly(raws: Raws, a: Identity, b: Identity) {
    a in raws && exists i :: 0 <= i < |raws[a].dependencies| && raws[a].dependencies[i].id == b
  }

  ghost predicate Follows(raws: Raws, p: seq<Identity>) {
    forall i :: 0 <= i < |p| - 1 ==> DependsDirectly(raws, p[i], p[i + 1])
  }

  /** Following dependencies never comes back to a definition. */
  ghost predicate NoCircle(raws: Raws) {
    forall p: seq<Identity> :: Follows(raws, p) ==> forall i :: 0 <= i < |p| - 1 ==> p[i] != p[|p| - 1]
  }

  lemma Direct(raws: Raws, h: Payload -> Hash, a: Identity, b: Identity)
    ensures DependsDirectly(raws, a, b) <==> a in GraphOf(raws, h).nodes && b in GraphOf(raws, h).children(a)
  {
    if DependsDirectly(raws, a, b) {
      var i :| 0 <= i < |raws[a].dependencies| && raws[a].dependencies[i].id == b;
      assert GraphOf(raws, h).children(a)[i] == b;
    }
  }

  lemma FollowsIsWalk(raws: Raws, h: Payload -> Hash, p: seq<Identity>)
    ensures Follows(raws, p) <==> Walk(GraphOf(raws, h), p)
  {
    hide DependsDirectly;
    var g := GraphOf(raws, h);
    forall i | 0 <= i < |p| - 1
      ensures DependsDirectly(raws, p[i], p[i + 1]) <==> p[i] in g.nodes && p[i + 1] in g.children(p[i])
    {
      Direct(raws, h, p[i], p[i + 1]);
    }
    if Walk(g, p) {
      forall i | 0 <= i < |p| - 1 ensures DependsDirectly(raws, p[i], p[i + 1]) {
        assert p[i] in g.nodes && p[i + 1] in g.children(p[i]);
      }
    }
    if Follows(raws, p) {
      forall i | 0 <= i < |p| - 1 ensures p[i] in g.nodes && p[i + 1] in g.children(p[i]) {
        assert DependsDirectly(raws, p[i], p[i + 1]);
      }
    }
  }

  lemma NoCircleIff(raws: Raws, h: Payload -> Hash)
    ensures NoCircle(raws) <==> Acyclic(GraphOf(raws, h))
  {
    hide Follows, Walk, GraphOf;
    forall p: seq<Identity> ensures Follows(raws, p) <==> Walk(GraphOf(raws, h), p) {
      FollowsIsWalk(raws, h, p);
    }
    forall p: seq<Identity> ensures (forall i :: 0 <= i < |p| - 1 ==> p[i] != p[|p| - 1]) <==> !Repeats(p) {
      if Repeats(p) {
        var i :| 0 <= i < |p| - 1 && p[i] == p[|p| - 1];
      }
    }
  }

  /** Whatever the recursion computes is the row of the resolution. */
  lemma {:induction false} ComputesResolution(raws: Raws, h: Payload -> Hash, m: Raws, id: Identity,
                                              visiting: seq<Identity>)
    requires Resolution(raws, h, m) && Plain(GraphOf(raws, h), id, visiting).Ok?
    ensures id in m && Plain(GraphOf(raws, h), id, visiting) == Ok(m[id])
    decreases Unseen(GraphOf(raws, h), visiting)
  {
    hide Plain, Unseen;
    var g := GraphOf(raws, h);
    var targets := OkFinished(g, id, visiting);
    assert RowResolves(raws[id], m, id, h);
    forall i | 0 <= i < |targets| ensures ReferencesTo(targets)[i] == m[id].dependencies[i] {
      assert g.children(id)[i] == raws[id].dependencies[i].id;
      ComputesResolution(raws, h, m, raws[id].dependencies[i].id, visiting + [id]);
      assert DependencyResolves(raws[id].dependencies[i], m[id].dependencies[i], m);
    }
    assert ReferencesTo(targets) == m[id].dependencies;
    assert g.finish(id, targets) == Normalize(raws, h, id, targets);
  }

  lemma ResolvedTarget(raws: Raws, h: Payload -> Hash, m: Raws, id: Identity, targets: seq<Definition>, i: nat)
    requires Resolution(raws, h, m) && id in raws && Resolved(GraphOf(raws, h), id, targets) && i < |targets|
    ensures i < |raws[id].dependencies| && raws[id].dependencies[i].id in m
    ensures targets[i] == m[raws[id].dependencies[i].id]
  {
    hide Plain, Resolution;
    assert GraphOf(raws, h).children(id)[i] == raws[id].dependencies[i].id;
    ComputesResolution(raws, h, m, raws[id].dependencies[i].id, []);
  }

  lemma ResolutionIsFine(raws: Raws, h: Payload -> Hash, m: Raws, id: Identity)
    requires Resolution(raws, h, m) && id in raws
    ensures LocallyFine(GraphOf(raws, h), id)
  {
    hide Plain, Resolution, Resolved, Normalize, CheckTarget;
    var g := GraphOf(raws, h);
    forall c | c in g.children(id) ensures c in g.nodes { TargetKnown(raws, h, m, id, c); }
    forall targets: seq<Definition> | Resolved(g, id, targets)
      ensures (forall i :: 0 <= i < |targets| ==> g.check(id, i, targets[i]).None?) && g.finish(id, targets).Ok?
    {
      FineTargets(raws, h, m, id, targets);
    }
  }

  lemma TargetKnown(raws: Raws, h: Payload -> Hash, m: Raws, id: Identity, c: Identity)
    requires Resolution(raws, h, m) && id in raws && c in Targets(raws, id)
    ensures c in raws
  {
    assert RowResolves(raws[id], m, id, h);
    var i :| 0 <= i < |raws[id].dependencies| && raws[id].dependencies[i].id == c;
    assert DependencyResolves(raws[id].dependencies[i], m[id].dependencies[i], m);
  }

  lemma FineTargets(raws: Raws, h: Payload -> Hash, m: Raws, id: Identity, targets: seq<Definition>)
    requires Resolution(raws, h, m) && id in raws && Resolved(GraphOf(raws, h), id, targets)
    ensures forall i :: 0 <= i < |targets| ==> CheckTarget(raws, id, i, targets[i]).None?
    ensures Normalize(raws, h, id, targets).Ok?
  {
    hide Plain;
    assert RowResolves(raws[id], m, id, h);
    forall i | 0 <= i < |targets|
      ensures CheckTarget(raws, id, i, targets[i]).None? && ReferencesTo(targets)[i] == m[id].dependencies[i]
    {
      ResolvedTarget(raws, h, m, id, targets, i);
      assert DependencyResolves(raws[id].dependencies[i], m[id].dependencies[i], m);
    }
    assert ReferencesTo(targets) == m[id].dependencies;
  }

  /** A table resolves exactly when dependencies run in no circle and some table has every row
      resolved; that table is then what is computed. */
  lemma ResolvesIff(raws: Raws, h: Payload -> Hash)
    ensures (forall id :: id in raws ==> Plain(GraphOf(raws, h), id, []).Ok?)
            <==> NoCircle(raws) && exists m :: Resolution(raws, h, m)
    ensures forall m :: ResolvesTo(raws, h, m) ==> Resolution(raws, h, m)
  {
    hide Plain, NoCircle, Resolution, LocallyFine, Acyclic;
    var g := GraphOf(raws, h);
    NoCircleIff(raws, h);
    SuccessIsExact(g);
    forall m | ResolvesTo(raws, h, m) ensures Resolution(raws, h, m) {
      ResolvedIsResolution(raws, h, m);
    }
    if forall id :: id in raws ==> Plain(g, id, []).Ok? {
      var m := map id | id in raws :: Plain(g, id, []).value;
      assert ResolvesTo(raws, h, m);
      assert Resolution(raws, h, m);
    }
    if m :| Resolution(raws, h, m) {
      forall id | id in g.nodes ensures LocallyFine(g, id) {
        ResolutionIsFine(raws, h, m, id);
      }
      if NoCircle(raws) {
        forall id | id in raws ensures Plain(g, id, []).Ok? { assert id in g.nodes; }
      }
    }
  }

  lemma ResolvedIsResolution(raws: Raws, h: Payload -> Hash, m: Raws)
    requires ResolvesTo(raws, h, m)
    ensures Resolution(raws, h, m)
  {
    hide Plain, Normalize, CheckTarget;
    forall id | id in raws ensures RowResolves(raws[id], m, id, h) {
      ResolvedShape(raws, h, m, id);
      forall i | 0 <= i < |raws[id].dependencies|
        ensures DependencyResolves(raws[id].dependencies[i], m[id].dependencies[i], m)
      {
        ResolvedShape(raws, h, m, raws[id].dependencies[i].id);
      }
    }
  }

  // ---- a catalog, given only its definitions ----

  /** The table holds each of these definitions under its identity, and nothing else. */
  ghost predicate Files(defs: seq<Definition>, raws: Raws) {
    && (forall i :: 0 <= i < |defs| ==> defs[i].id in raws && raws[defs[i].id] == defs[i])
    && (forall id :: id in raws ==> exists i :: 0 <= i < |defs| && defs[i].id == id)
  }

  /** The definitions agree, run in no circle, and m resolves all of them. */
  ghost predicate Resolvable(defs: seq<Definition>, h: Payload -> Hash, raws: Raws, m: Raws) {
    Files(defs, raws) && NoCircle(raws) && Resolution(raws, h, m)
  }

  /** No two active definitions have the same kind and key. */
  ghost predicate OneAKey(active: seq<Definition>) {
    forall i, j :: 0 <= i < j < |active| ==>
      active[i].id.kind != active[j].id.kind || active[i].id.key != active[j].id.key
  }

  /** The active definitions by kind and key, and all of them by identity and hash. */
  ghost predicate Serves(c: Catalog, active: seq<Definition>, m: Raws) {
    && (forall i :: 0 <= i < |active| ==>
       && active[i].id in m && (active[i].id.kind, active[i].id.key) in c.active
       && c.active[(active[i].id.kind, active[i].id.key)] == m[active[i].id])
    && (forall k :: k in c.active ==> exists i :: 0 <= i < |active| && (active[i].id.kind, active[i].id.key) == k)
    && (forall id :: id in m ==>
       && m[id].hash.Some? && (id, m[id].hash.value) in c.compatibility
       && c.compatibility[(id, m[id].hash.value)] == m[id])
    && (forall k :: k in c.compatibility ==> k.0 in m && m[k.0].hash == Some(k.1))
  }

  lemma CollectFiles(defs: seq<Definition>, raws: Raws)
    ensures Files(defs, raws) <==> Collect(map[], defs) == Ok(raws)
  {
    CollectIff(map[], defs);
    assert Files(defs, raws) ==> IdentitiesAgree(defs);
    if Collect(map[], defs).Ok? {
      CollectHolds(map[], defs);
      var out := Collect(map[], defs).value;
      if Files(defs, raws) {
        forall id | id in out ensures id in raws && raws[id] == out[id] {
          var i :| 0 <= i < |defs| && defs[i] == out[id];
        }
        assert raws == out;
      }
    }
  }

  lemma {:induction false} ActiveServed(m: Raws, active: map<ActiveKey, Definition>, defs: seq<Definition>)
    requires (forall i :: 0 <= i < |defs| ==> defs[i].id in m) && Activate(m, active, defs).Ok?
    ensures var out := Activate(m, active, defs).value;
            && (forall k :: k in active ==> k in out && out[k] == active[k])
            && (forall i :: 0 <= i < |defs| ==>
                  && (defs[i].id.kind, defs[i].id.key) in out
                  && out[(defs[i].id.kind, defs[i].id.key)] == m[defs[i].id])
            && (forall k :: k in out ==>
                  k in active || exists i :: 0 <= i < |defs| && (defs[i].id.kind, defs[i].id.key) == k)
    decreases |defs|
  {
    if defs != [] {
      ActiveServed(m, active[KeyOf(defs[0]) := m[defs[0].id]], defs[1..]);
      var out := Activate(m, active, defs).value;
      forall k | k in out
        ensures k in active || exists i :: 0 <= i < |defs| && (defs[i].id.kind, defs[i].id.key) == k
      {
        if i :| 0 <= i < |defs[1..]| && (defs[1..][i].id.kind, defs[1..][i].id.key) == k {
          assert defs[i + 1] == defs[1..][i];
        }
      }
      forall i | 0 <= i < |defs|
        ensures (defs[i].id.kind, defs[i].id.key) in out && out[(defs[i].id.kind, defs[i].id.key)] == m[defs[i].id]
      {
        if i > 0 { assert defs[1..][i - 1] == defs[i]; } else { assert KeyOf(defs[0]) in out; }
      }
    }
  }

  lemma BuiltServes(active: seq<Definition>, compat: seq<Definition>, h: Payload -> Hash, m: Raws, c: Catalog)
    requires Builds(active, compat, h, m, c)
    ensures Serves(c, active, m)
  {
    hide ResolvesTo, Collect, Activate, Exact, ExactAt, CompatibilityOf;
    ResolvedIsExact(Collect(map[], compat + active).value, h, m);
    ExactIsKeyed(m, h);
    CompatibilityHolds(m);
    ActiveServed(m, map[], active);
    forall id | id in m ensures m[id].hash.Some? { HashPresent(m, h, id); }
  }

  lemma BuiltResolves(active: seq<Definition>, compat: seq<Definition>, h: Payload -> Hash, m: Raws, c: Catalog)
    requires Builds(active, compat, h, m, c)
    ensures exists raws :: Resolvable(compat + active, h, raws, m)
  {
    hide Plain, Resolution, NoCircle, Files, Collect;
    var raws := Collect(map[], compat + active).value;
    CollectFiles(compat + active, raws);
    ResolvesIff(raws, h);
    assert Resolvable(compat + active, h, raws, m);
  }

  lemma BuildableRows(active: seq<Definition>, compat: seq<Definition>, h: Payload -> Hash)
    ensures Buildable(active, compat, h)
            <==> OneAKey(active) && exists raws, m :: Resolvable(compat + active, h, raws, m)
  {
    hide Plain, Resolution, NoCircle, Acyclic, LocallyFine, Files, Buildable, Collect, ResolvesTo;
    var defs := compat + active;
    assert KeysDistinct(active) <==> OneAKey(active);
    BuildableIff(active, compat, h);
    if Collect(map[], defs).Ok? {
      var raws := Collect(map[], defs).value;
      CollectFiles(defs, raws);
      ResolvesIff(raws, h);
      if m :| Resolution(raws, h, m) {
        assert NoCircle(raws) ==> Resolvable(defs, h, raws, m);
      }
    }
    if raws, m :| Resolvable(defs, h, raws, m) {
      CollectFiles(defs, raws);
      assert Resolution(raws, h, m);
    }
  }

  method CollectAll(defs: seq<Definition>) returns (result: Result<Raws, RegistryError>, order: seq<Identity>)
    ensures result == Collect(map[], defs)
    ensures result.Ok? ==> (set id | id in order) == result.value.Keys
  {
    var raws: Raws := map[];
    var rest := defs;
    order := [];
    while rest != []
      invariant Collect(raws, rest) == Collect(map[], defs)
      invariant (set id | id in order) == raws.Keys
      decreases |rest|
    {
      var d := rest[0];
      if d.id in raws && raws[d.id] != d {
        return Err(VersionContentMismatch(d.id)), order;
      }
      if d.id !in raws { order := order + [d.id]; }
      raws := raws[d.id := d];
      rest := rest[1..];
    }
    result := Ok(raws);
  }

  method ActivateAll(m: Raws, defs: seq<Definition>) returns (result: Result<map<ActiveKey, Definition>, RegistryError>)
    requires forall i :: 0 <= i < |defs| ==> defs[i].id in m
    ensures result == Activate(m, map[], defs)
  {
    var active: map<ActiveKey, Definition> := map[];
    var rest := defs;
    while rest != []
      invariant forall i :: 0 <= i < |rest| ==> rest[i].id in m
      invariant Activate(m, active, rest) == Activate(m, map[], defs)
      decreases |rest|
    {
      if KeyOf(rest[0]) in active {
        return Err(DuplicateKey(rest[0].id.kind, rest[0].id.key));
      }
      active := active[KeyOf(rest[0]) := m[rest[0].id]];
      rest := rest[1..];
    }
    result := Ok(active);
  }

  function ErrorOf(f: Failure<Identity, RegistryError>): RegistryError {
    match f
    case Cycle(path) => ReferenceCycle(path)
    case Other(e) => e
  }

  /** Builds a catalog; it fails when an identity has two contents, when a definition cannot be
      resolved, or when two active definitions share a key. */
  method FromDefinitions(active: seq<Definition>, compat: seq<Definition>, h: Payload -> Hash)
    returns (result: Result<Catalog, RegistryError>, ghost m: Raws)
    ensures result.Ok? <==> Buildable(active, compat, h)
    ensures result.Ok? ==> Builds(active, compat, h, m, result.value)
    // the same, given only the definitions
    ensures result.Ok? <==> OneAKey(active) && exists raws, r :: Resolvable(compat + active, h, raws, r)
    ensures result.Ok? ==> (exists raws :: Resolvable(compat + active, h, raws, m)) && Serves(result.value, active, m)
    ensures result.Err? && Collect(map[], compat + active).Ok? ==>
              var raws := Collect(map[], compat + active).value;
              if forall id :: id in raws ==> Plain(GraphOf(raws, h), id, []).Ok?
              then ResolvesTo(raws, h, m) && (forall i :: 0 <= i < |active| ==> active[i].id in m)
                && Activate(m, map[], active) == Err(result.error)
              else exists id ::
                id in raws && Plain(GraphOf(raws, h), id, []).Err?
                && ErrorOf(Plain(GraphOf(raws, h), id, []).error) == result.error
    ensures result.Err? && Collect(map[], compat + active).Err? ==>
      result.error == Collect(map[], compat + active).error
  {
    hide Plain, Normalize, CheckTarget, Targets, Buildable, KeysDistinct, OneAKey, Resolvable, Serves, Resolution,
      Unseen, Acyclic, LocallyFine, IdentitiesAgree, CompatibilityOf;
    m := map[];
    BuildableIff(active, compat, h);
    BuildableRows(active, compat, h);
    var collected, order := CollectAll(compat + active);
    if collected.Err? {
      return Err(collected.error), m;
    }
    var raws := collected.value;
    CollectHolds(map[], compat + active);
    var resolver := new Resolver(GraphOf(raws, h));
    var failure := resolver.ResolveAll(order);
    if failure.Some? {
      var i :| 0 <= i < |order| && Plain(GraphOf(raws, h), order[i], []) == Err(failure.value);
      assert order[i] in raws;
      return Err(ErrorOf(failure.value)), m;
    }
    var resolved := map id | id in raws :: resolver.memo[id];
    m := resolved;
    assert ResolvesTo(raws, h, m);
    forall i | 0 <= i < |active| ensures active[i].id in m {
      assert (compat + active)[|compat| + i] == active[i];
    }
    ActivateIff(resolved, map[], active);
    var actives := ActivateAll(resolved, active);
    if actives.Err? {
      return Err(actives.error), m;
    }
    result := Ok(Catalog(actives.value, CompatibilityOf(resolved)));
    BuiltServes(active, compat, h, m, result.value);
    BuiltResolves(active, compat, h, m, result.value);
  }

  // ---- round trips of a catalog ----

  /** d is a resolved definition. */
  predicate Has(m: Raws, d: Definition) {
    d.id in m && m[d.id] == d
  }

  lemma CompatibilityHolds(m: Raws)
    requires Keyed(m)
    ensures forall id :: id in m ==>
      (id, HashOf(m[id])) in CompatibilityOf(m) && CompatibilityOf(m)[(id, HashOf(m[id]))] == m[id]
    ensures forall k :: k in CompatibilityOf(m) ==>
      Has(m, CompatibilityOf(m)[k]) && k == (CompatibilityOf(m)[k].id, HashOf(CompatibilityOf(m)[k]))
  {
  }

  lemma HashPresent(m: Raws, h: Payload -> Hash, id: Identity)
    requires Exact(m, h) && id in m
    ensures m[id].hash.Some? && m[id].id == id
  {
    assert ExactAt(m, h, id);
  }

  /** An exact reference resolves exactly when it is the own reference of a resolved definition,
      and then to that definition. */
  lemma ResolveExactOwn(active: seq<Definition>, compat: seq<Definition>, h: Payload -> Hash, m: Raws, c: Catalog,
                        reference: Reference)
    requires Builds(active, compat, h, m, c)
    ensures c.ResolveExact(reference).Ok? <==> reference.id in m && reference == m[reference.id].AsReference()
    ensures c.ResolveExact(reference).Ok? ==> c.ResolveExact(reference).value == m[reference.id]
  {
    hide Collect, Activate, ResolvesTo, CompatibilityOf, Exact, ExactAt;
    ResolvedIsExact(Collect(map[], compat + active).value, h, m);
    ExactIsKeyed(m, h);
    CompatibilityHolds(m);
    if reference.id in m {
      HashPresent(m, h, reference.id);
    }
  }

  lemma ExactIsKeyed(m: Raws, h: Payload -> Hash)
    requires Exact(m, h)
    ensures Keyed(m)
  {
  }

  ghost predicate AllIn(m: Raws, defs: seq<Definition>) {
    forall i :: 0 <= i < |defs| ==> Has(m, defs[i])
  }

  ghost predicate Within(raws: Raws, m: Raws) {
    forall id :: id in raws ==> id in m && raws[id] == m[id]
  }

  lemma {:induction false} CollectResolved(m: Raws, raws: Raws, defs: seq<Definition>)
    requires Within(raws, m) && AllIn(m, defs)
    ensures Collect(raws, defs).Ok? && Within(Collect(raws, defs).value, m)
    decreases |defs|
  {
    if defs == [] {
    } else {
      assert Has(m, defs[0]);
      CollectResolved(m, raws[defs[0].id := defs[0]], defs[1..]);
    }
  }

  /** Every definition of the map is filed under its own key. */
  ghost predicate Filed(m: Raws, active: map<ActiveKey, Definition>) {
    forall k :: k in active ==> Has(m, active[k]) && KeyOf(active[k]) == k
  }

  lemma {:induction false} ActiveAreResolved(m: Raws, active: map<ActiveKey, Definition>, defs: seq<Definition>)
    requires Keyed(m) && (forall i :: 0 <= i < |defs| ==> defs[i].id in m) && Activate(m, active, defs).Ok?
      && Filed(m, active)
    ensures Filed(m, Activate(m, active, defs).value)
    decreases |defs|
  {
    if defs == [] {
    } else {
      ActiveAreResolved(m, active[KeyOf(defs[0]) := m[defs[0].id]], defs[1..]);
    }
  }

  /** The values of a map in some order, each once. */
  ghost predicate Lists<K, V>(values: seq<V>, m: map<K, V>) {
    && (forall i :: 0 <= i < |values| ==> values[i] in m.Values)
    && (forall k :: k in m ==> m[k] in values)
    && (forall i, j :: 0 <= i < j < |values| ==> values[i] != values[j])
  }

  lemma {:induction false} ActivateResolved(m: Raws, active: map<ActiveKey, Definition>, defs: seq<Definition>,
                                            goal: map<ActiveKey, Definition>)
    requires Filed(m, goal) && (forall k :: k in active ==> k in goal && active[k] == goal[k])
    requires forall i :: 0 <= i < |defs| ==>
      KeyOf(defs[i]) in goal && goal[KeyOf(defs[i])] == defs[i] && KeyOf(defs[i]) !in active
    requires forall i, j :: 0 <= i < j < |defs| ==> defs[i] != defs[j]
    requires forall k :: k in goal ==> k in active || goal[k] in defs
    ensures AllIn(m, defs) && Activate(m, active, defs) == Ok(goal)
    decreases |defs|
  {
    if defs == [] {
      assert active == goal;
    } else {
      assert Has(m, defs[0]);
      ActivateResolved(m, active[KeyOf(defs[0]) := defs[0]], defs[1..], goal);
    }
  }

  lemma ListedFiled(m: Raws, c: map<ActiveKey, Definition>, values: seq<Definition>)
    requires Filed(m, c) && Lists(values, c)
    ensures forall i :: 0 <= i < |values| ==> KeyOf(values[i]) in c && c[KeyOf(values[i])] == values[i]
  {
  }

  lemma ListedCompatibility(m: Raws, values: seq<Definition>)
    requires Keyed(m) && Lists(values, CompatibilityOf(m))
    ensures AllIn(m, values)
    ensures forall id :: id in m ==> m[id] in values
  {
    hide CompatibilityOf;
    CompatibilityHolds(m);
  }

  lemma CollectedAgain(m: Raws, defs: seq<Definition>)
    requires Keyed(m) && AllIn(m, defs) && forall id :: id in m ==> m[id] in defs
    ensures Collect(map[], defs) == Ok(m)
  {
    hide Collect;
    CollectResolved(m, map[], defs);
    CollectHolds(map[], defs);
    var again := Collect(map[], defs).value;
    forall id | id in m ensures id in again {
      var i :| 0 <= i < |defs| && defs[i] == m[id];
    }
    assert again == m;
  }

  /** Rebuilding a catalog from its active definitions, with all its definitions as compatibility
      and both in any order, gives the same catalog. */
  lemma RebuildIsFixpoint(active: seq<Definition>, compat: seq<Definition>, h: Payload -> Hash, m: Raws, c: Catalog,
                          actives: seq<Definition>, definitions: seq<Definition>)
    requires Builds(active, compat, h, m, c)
    requires Lists(actives, c.active) && Lists(definitions, c.compatibility)
    ensures Builds(actives, definitions, h, m, c)
  {
    hide Collect, Activate, ResolvesTo, CompatibilityOf, Exact, Keyed, Filed, Lists;
    ResolvedIsExact(Collect(map[], compat + active).value, h, m);
    ExactIsKeyed(m, h);
    NothingFiled(m);
    ActiveAreResolved(m, map[], active);
    ListedFiled(m, c.active, actives);
    ListedCompatibility(m, definitions);
    ListsAll(c.active, actives);
    ActivateResolved(m, map[], actives, c.active);
    CollectedAgain(m, definitions + actives);
    ResolvesAgain(Collect(map[], compat + active).value, h, m);
  }

  lemma NothingFiled(m: Raws)
    ensures Filed(m, map[])
  {
  }

  lemma ListsAll<K, V>(m: map<K, V>, values: seq<V>)
    requires Lists(values, m)
    ensures forall k :: k in m ==> m[k] in values
    ensures forall i, j :: 0 <= i < j < |values| ==> values[i] != values[j]
  {
  }

  lemma ResolvesAgain(raws: Raws, h: Payload -> Hash, m: Raws)
    requires ResolvesTo(raws, h, m)
    ensures ResolvesTo(m, h, m)
  {
    hide Plain;
    ResolvedIsExact(raws, h, m);
    forall id | id in m ensures Plain(GraphOf(m, h), id, []) == Ok(m[id]) {
      ExactResolvesToItself(m, h, raws, id, []);
    }
  }
}
