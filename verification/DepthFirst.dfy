/**
 Depth-first resolution with a memo table and a path for cycle detection, as the registry catalog
 and the blueprint compiler both use it.  `Plain` is the same recursion without the table; the
 memoized resolver is proved to agree with it in every iteration order.
 */
module DepthFirst {
  import opened Wrappers

  /** A graph of named nodes.  A node is finished from the results of its children, in order;
      `check` is asked after each child. */
  datatype Graph<!K(==), !R, !E> = Graph(
    nodes: set<K>,
    children: K -> seq<K>,
    missing: K -> E,
    check: (K, nat, R) -> Option<E>,
    finish: (K, seq<R>) -> Result<R, E>)

  datatype Failure<K, E> = Cycle(path: seq<K>) | Other(error: E)

  function Unseen<K, R, E>(g: Graph<K, R, E>, visiting: seq<K>): set<K> {
    set n | n in g.nodes && n !in visiting
  }

  lemma UnseenShrinks<K, R, E>(g: Graph<K, R, E>, visiting: seq<K>, k: K)
    requires k in g.nodes && k !in visiting
    ensures Unseen(g, visiting + [k]) < Unseen(g, visiting)
  {
    assert k in Unseen(g, visiting) && k !in Unseen(g, visiting + [k]);
  }

  /** The recursion without a memo table. */
  function Plain<K, R, E>(g: Graph<K, R, E>, k: K, visiting: seq<K>): Result<R, Failure<K, E>>
    decreases Unseen(g, visiting), 0
  {
    if k in visiting then Err(Cycle(visiting + [k]))
    else if k !in g.nodes then Err(Other(g.missing(k)))
    else
      UnseenShrinks(g, visiting, k);
      Finished(g, k, PlainFrom(g, k, visiting + [k], 0))
  }

  function Finished<K, R, E>(g: Graph<K, R, E>, k: K,
                             results: Result<seq<R>, Failure<K, E>>): Result<R, Failure<K, E>> {
    if results.Err? then Err(results.error)
    else
      match g.finish(k, results.value)
      case Err(e) => Err(Other(e))
      case Ok(r) => Ok(r)
  }

  function PlainFrom<K, R, E>(g: Graph<K, R, E>, k: K, path: seq<K>, i: nat): Result<seq<R>, Failure<K, E>>
    requires i <= |g.children(k)|
    decreases Unseen(g, path), 1 + |g.children(k)| - i
  {
    if i == |g.children(k)| then Ok([])
    else
      match Plain(g, g.children(k)[i], path)
      case Err(e) => Err(e)
      case Ok(r) =>
        if g.check(k, i, r).Some? then Err(Other(g.check(k, i, r).value))
        else
          match PlainFrom(g, k, path, i + 1)
          case Err(e) => Err(e)
          case Ok(rest) => Ok([r] + rest)
  }

  // ---- walks ----

  predicate Walk<K, R, E>(g: Graph<K, R, E>, p: seq<K>) {
    forall i :: 0 <= i < |p| - 1 ==> p[i] in g.nodes && p[i + 1] in g.children(p[i])
  }

  /** Some step of the walk returns to a node it came from. */
  predicate Repeats<K(==)>(p: seq<K>) {
    |p| >= 1 && p[|p| - 1] in p[..|p| - 1]
  }

  predicate WalkFrom<K, R, E>(g: Graph<K, R, E>, k: K, p: seq<K>) {
    |p| >= 1 && p[0] == k && Walk(g, p)
  }

  /** No node can be reached from itself. */
  ghost predicate Acyclic<K(!new), R, E>(g: Graph<K, R, E>) {
    forall p: seq<K> :: Walk(g, p) ==> !Repeats(p)
  }

  lemma WalkTail<K, R, E>(g: Graph<K, R, E>, p: seq<K>, j: nat)
    requires Walk(g, p) && j < |p|
    ensures Walk(g, p[j..])
  {
    var q := p[j..];
    forall i | 0 <= i < |q| - 1 ensures q[i] in g.nodes && q[i + 1] in g.children(q[i]) {
      assert q[i] == p[j + i] && q[i + 1] == p[j + i + 1];
    }
  }

  /** When the children of k were all resolved, each of them was, and its check passed. */
  lemma {:induction false} FromMeansEach<K, R, E>(g: Graph<K, R, E>, k: K, path: seq<K>, i: nat)
    requires i <= |g.children(k)| && PlainFrom(g, k, path, i).Ok?
    ensures var rs := PlainFrom(g, k, path, i).value;
            && |rs| == |g.children(k)| - i
            && (forall j :: i <= j < |g.children(k)| ==>
               Plain(g, g.children(k)[j], path) == Ok(rs[j - i]) && g.check(k, j, rs[j - i]).None?)
    decreases |g.children(k)| - i
  {
    if i < |g.children(k)| {
      FromMeansEach(g, k, path, i + 1);
    }
  }

  lemma FromMeansAll<K, R, E>(g: Graph<K, R, E>, k: K, path: seq<K>)
    requires PlainFrom(g, k, path, 0).Ok?
    ensures var rs := PlainFrom(g, k, path, 0).value;
            && |rs| == |g.children(k)|
            && forall i :: 0 <= i < |rs| ==> Plain(g, g.children(k)[i], path) == Ok(rs[i]) && g.check(k, i, rs[i]).None?
  {
    hide Plain, PlainFrom;
    FromMeansEach(g, k, path, 0);
    var rs := PlainFrom(g, k, path, 0).value;
    forall i | 0 <= i < |rs|
      ensures Plain(g, g.children(k)[i], path) == Ok(rs[i - 0]) && g.check(k, i, rs[i - 0]).None?
    {
    }
  }

  /** What a success says about the children. */
  lemma OkBelow<K, R, E>(g: Graph<K, R, E>, k: K, visiting: seq<K>)
    requires Plain(g, k, visiting).Ok?
    ensures k in g.nodes && k !in visiting && Unseen(g, visiting + [k]) < Unseen(g, visiting)
    ensures PlainFrom(g, k, visiting + [k], 0).Ok?
    ensures forall j :: 0 <= j < |g.children(k)| ==> Plain(g, g.children(k)[j], visiting + [k]).Ok?
  {
    hide PlainFrom, Unseen;
    UnseenShrinks(g, visiting, k);
    FromMeansAll(g, k, visiting + [k]);
  }

  /** A success was finished from the successes of the children. */
  lemma OkFinished<K, R, E>(g: Graph<K, R, E>, k: K, visiting: seq<K>) returns (results: seq<R>)
    requires Plain(g, k, visiting).Ok?
    ensures k in g.nodes && k !in visiting && Unseen(g, visiting + [k]) < Unseen(g, visiting)
    ensures |results| == |g.children(k)|
    ensures forall i :: 0 <= i < |results| ==>
      Plain(g, g.children(k)[i], visiting + [k]) == Ok(results[i]) && g.check(k, i, results[i]).None?
    ensures g.finish(k, results) == Ok(Plain(g, k, visiting).value)
  {
    hide PlainFrom, Unseen;
    UnseenShrinks(g, visiting, k);
    var from := PlainFrom(g, k, visiting + [k], 0);
    assert Plain(g, k, visiting) == Finished(g, k, from);
    FromMeansAll(g, k, visiting + [k]);
    results := from.value;
  }

  lemma {:induction false} EachMeansFrom<K, R, E>(g: Graph<K, R, E>, k: K, path: seq<K>, i: nat, rs: seq<R>)
    requires i <= |g.children(k)| && |rs| == |g.children(k)|
    requires forall j :: i <= j < |g.children(k)| ==>
      Plain(g, g.children(k)[j], path) == Ok(rs[j]) && g.check(k, j, rs[j]).None?
    ensures PlainFrom(g, k, path, i) == Ok(rs[i..])
    decreases |g.children(k)| - i
  {
    if i < |g.children(k)| {
      EachMeansFrom(g, k, path, i + 1, rs);
      assert rs[i..] == [rs[i]] + rs[i + 1..];
    } else {
      assert rs[i..] == [];
    }
  }

  /** A success means that nothing reachable lies on the path or comes back to where it started. */
  lemma {:induction false} OkReachesNoVisited<K, R, E>(g: Graph<K, R, E>, k: K, visiting: seq<K>, p: seq<K>)
    requires Plain(g, k, visiting).Ok? && WalkFrom(g, k, p)
    ensures p[|p| - 1] !in visiting && p[|p| - 1] in g.nodes
    ensures |p| >= 2 ==> p[|p| - 1] != k
    decreases |p|
  {
    if |p| >= 2 {
      FromMeansEach(g, k, visiting + [k], 0);
      var j :| 0 <= j < |g.children(k)| && g.children(k)[j] == p[1];
      WalkTail(g, p, 1);
      OkReachesNoVisited(g, p[1], visiting + [k], p[1..]);
    }
  }

  /** No walk from k ends in a node of `other`. */
  ghost predicate Avoids<K(!new), R, E>(g: Graph<K, R, E>, k: K, other: seq<K>) {
    forall p: seq<K> :: WalkFrom(g, k, p) ==> p[|p| - 1] !in other
  }

  /** What k avoids its children avoid, and k itself. */
  lemma ChildAvoids<K(!new), R, E>(g: Graph<K, R, E>, k: K, j: nat, visiting: seq<K>, other: seq<K>)
    requires Plain(g, k, visiting).Ok? && j < |g.children(k)| && Avoids(g, k, other)
    ensures Avoids(g, g.children(k)[j], other + [k])
  {
    hide PlainFrom;
    forall p: seq<K> | WalkFrom(g, g.children(k)[j], p) ensures p[|p| - 1] !in other + [k] {
      assert WalkFrom(g, k, [k] + p);
      OkReachesNoVisited(g, k, visiting, [k] + p);
    }
  }

  lemma AvoidsItself<K(!new), R, E>(g: Graph<K, R, E>, k: K, other: seq<K>)
    requires Avoids(g, k, other)
    ensures k !in other
  {
    assert WalkFrom(g, k, [k]);
  }

  /** A success does not depend on the path, as long as nothing reachable lies on it. */
  lemma {:induction false} OkForOtherPath<K(!new), R, E>(g: Graph<K, R, E>, k: K, visiting: seq<K>, other: seq<K>)
    requires Plain(g, k, visiting).Ok? && Avoids(g, k, other)
    ensures Plain(g, k, other) == Plain(g, k, visiting)
    decreases Unseen(g, visiting)
  {
    hide Avoids, Unseen;
    AvoidsItself(g, k, other);
    UnseenShrinks(g, visiting, k);
    FromMeansEach(g, k, visiting + [k], 0);
    var rs := PlainFrom(g, k, visiting + [k], 0).value;
    forall j | 0 <= j < |g.children(k)| ensures Plain(g, g.children(k)[j], other + [k]) == Ok(rs[j]) {
      ChildAvoids(g, k, j, visiting, other);
      OkForOtherPath(g, g.children(k)[j], visiting + [k], other + [k]);
    }
    EachMeansFrom(g, k, other + [k], 0, rs);
    assert rs[0..] == rs;
  }

  lemma OkFromScratch<K(!new), R, E>(g: Graph<K, R, E>, k: K, visiting: seq<K>)
    requires Plain(g, k, visiting).Ok?
    ensures Plain(g, k, []) == Plain(g, k, visiting)
  {
    OkForOtherPath(g, k, visiting, []);
  }

  /** A walk from k that ends on the path to k closes a loop at k. */
  lemma LoopBack<K, R, E>(g: Graph<K, R, E>, k: K, visiting: seq<K>, p: seq<K>) returns (loop: seq<K>)
    requires Walk(g, visiting + [k]) && WalkFrom(g, k, p) && p[|p| - 1] in visiting
    ensures WalkFrom(g, k, loop) && |loop| >= 2 && loop[|loop| - 1] == k
  {
    var j :| 0 <= j < |visiting| && visiting[j] == p[|p| - 1];
    var path := visiting + [k];
    loop := p + path[j + 1..];
    forall i | 0 <= i < |loop| - 1 ensures loop[i] in g.nodes && loop[i + 1] in g.children(loop[i]) {
      if i >= |p| - 1 {
        assert loop[i] == path[j + 1 + i - |p|] && loop[i + 1] == path[j + 2 + i - |p|];
      }
    }
  }

  /** A memoized node answers for every path that really leads to it. */
  lemma HitAgrees<K(!new), R, E>(g: Graph<K, R, E>, k: K, visiting: seq<K>)
    requires Plain(g, k, []).Ok? && Walk(g, visiting + [k])
    ensures Plain(g, k, visiting) == Plain(g, k, [])
  {
    forall p: seq<K> | WalkFrom(g, k, p) ensures p[|p| - 1] !in visiting {
      if p[|p| - 1] in visiting {
        var loop := LoopBack(g, k, visiting, p);
        OkReachesNoVisited(g, k, [], loop);
        assert false;
      }
    }
    OkForOtherPath(g, k, [], visiting);
  }

  // ---- failures ----

  /** A reported cycle is a genuine path of the graph, continues the path that led there, and ends
      in a node it already passed. */
  lemma {:induction false} CycleIsGenuine<K, R, E>(g: Graph<K, R, E>, k: K, visiting: seq<K>)
    requires Walk(g, visiting + [k]) && Plain(g, k, visiting).Err? && Plain(g, k, visiting).error.Cycle?
    ensures var p := Plain(g, k, visiting).error.path;
            Walk(g, p) && Repeats(p) && visiting + [k] <= p
    decreases Unseen(g, visiting), 0
  {
    if k in visiting {
      assert (visiting + [k])[..|visiting|] == visiting;
    } else {
      UnseenShrinks(g, visiting, k);
      CycleBelowIsGenuine(g, k, visiting, 0);
    }
  }

  lemma {:induction false} CycleBelowIsGenuine<K, R, E>(g: Graph<K, R, E>, k: K, visiting: seq<K>, i: nat)
    requires k in g.nodes && Walk(g, visiting + [k]) && i <= |g.children(k)|
    requires PlainFrom(g, k, visiting + [k], i).Err? && PlainFrom(g, k, visiting + [k], i).error.Cycle?
    ensures var p := PlainFrom(g, k, visiting + [k], i).error.path;
            Walk(g, p) && Repeats(p) && visiting + [k] <= p
    decreases Unseen(g, visiting + [k]), 1 + |g.children(k)| - i
  {
    var c := g.children(k)[i];
    if Plain(g, c, visiting + [k]).Err? {
      WalkExtends(g, visiting, k, i);
      CycleIsGenuine(g, c, visiting + [k]);
    } else {
      CycleBelowIsGenuine(g, k, visiting, i + 1);
    }
  }

  // ---- the memoized resolver ----

  /** Every entry of the table is what the recursion without a table computes. */
  ghost predicate MemoOk<K(!new), R, E>(g: Graph<K, R, E>, memo: map<K, R>) {
    forall k :: k in memo ==> Plain(g, k, []) == Ok(memo[k])
  }

  function Prepend<R, F>(done: seq<R>, rest: Result<seq<R>, F>): Result<seq<R>, F> {
    match rest
    case Err(e) => Err(e)
    case Ok(rs) => Ok(done + rs)
  }

  /** The failure of the first node in the order that fails. */
  ghost predicate FirstFailure<K, R, E>(g: Graph<K, R, E>, order: seq<K>, failure: Failure<K, E>) {
    exists i | 0 <= i < |order| ::
      Plain(g, order[i], []) == Err(failure) && forall j :: 0 <= j < i ==> Plain(g, order[j], []).Ok?
  }

  class Resolver<K(==, !new), R, E> {
    const graph: Graph<K, R, E>
    var memo: map<K, R>

    constructor (graph: Graph<K, R, E>)
      ensures this.graph == graph && memo == map[]
    {
      this.graph := graph;
      memo := map[];
    }

    /** Resolves one node below the path that led to it. */
    method Resolve(k: K, visiting: seq<K>) returns (result: Result<R, Failure<K, E>>)
      requires MemoOk(graph, memo) && Walk(graph, visiting + [k])
      modifies this`memo
      ensures MemoOk(graph, memo) && old(memo).Keys <= memo.Keys
      ensures result == Plain(graph, k, visiting)
      ensures result.Ok? ==> k in memo
      decreases Unseen(graph, visiting)
    {
      if k in memo {
        HitAgrees(graph, k, visiting);
        return Ok(memo[k]);
      }
      if k in visiting {
        return Err(Cycle(visiting + [k]));
      }
      if k !in graph.nodes {
        return Err(Other(graph.missing(k)));
      }
      UnseenShrinks(graph, visiting, k);
      var children := graph.children(k);
      var results: seq<R> := [];
      PrependNothing(PlainFrom(graph, k, visiting + [k], 0));
      for i := 0 to |children|
        invariant MemoOk(graph, memo) && old(memo).Keys <= memo.Keys
        invariant PlainFrom(graph, k, visiting + [k], 0) == Prepend(results, PlainFrom(graph, k, visiting + [k], i))
      {
        WalkExtends(graph, visiting, k, i);
        var child := Resolve(children[i], visiting + [k]);
        if child.Err? {
          return Err(child.error);
        }
        var checked := graph.check(k, i, child.value);
        if checked.Some? {
          return Err(Other(checked.value));
        }
        PrependStep(results, child.value, PlainFrom(graph, k, visiting + [k], i + 1));
        results := results + [child.value];
      }
      assert results + [] == results;
      var finished := graph.finish(k, results);
      if finished.Err? {
        return Err(Other(finished.error));
      }
      OkFromScratch(graph, k, visiting);
      memo := memo[k := finished.value];
      result := Ok(finished.value);
    }

    /** Resolves every node, in the given order, up to the first failure. */
    method ResolveAll(order: seq<K>) returns (failure: Option<Failure<K, E>>)
      requires memo == map[] && (set k | k in order) == graph.nodes
      modifies this`memo
      ensures MemoOk(graph, memo)
      ensures failure.None? <==> forall k :: k in graph.nodes ==> Plain(graph, k, []).Ok?
      ensures failure.None? ==> memo.Keys >= graph.nodes
      ensures failure.Some? ==> FirstFailure(graph, order, failure.value)
    {
      for i := 0 to |order|
        invariant MemoOk(graph, memo)
        invariant forall j :: 0 <= j < i ==> order[j] in memo
      {
        assert Walk(graph, [] + [order[i]]);
        var result := Resolve(order[i], []);
        if result.Err? {
          assert order[i] in graph.nodes;
          return Some(result.error);
        }
      }
      failure := None;
      forall k | k in graph.nodes ensures k in memo {
        var j :| 0 <= j < |order| && order[j] == k;
      }
    }
  }

  lemma WalkExtends<K, R, E>(g: Graph<K, R, E>, visiting: seq<K>, k: K, i: nat)
    requires k in g.nodes && Walk(g, visiting + [k]) && i < |g.children(k)|
    ensures Walk(g, visiting + [k] + [g.children(k)[i]])
  {
    var p, q := visiting + [k], visiting + [k] + [g.children(k)[i]];
    forall j | 0 <= j < |q| - 1 ensures q[j] in g.nodes && q[j + 1] in g.children(q[j]) {
      if j < |p| - 1 { assert q[j] == p[j] && q[j + 1] == p[j + 1]; }
    }
  }

  lemma PrependNothing<R, F>(rest: Result<seq<R>, F>)
    ensures Prepend([], rest) == rest
  {
    if rest.Ok? {
      assert [] + rest.value == rest.value;
    }
  }

  lemma PrependStep<R, F>(done: seq<R>, r: R, rest: Result<seq<R>, F>)
    ensures Prepend(done + [r], rest) == Prepend(done, match rest case Err(e) => Err(e) case Ok(rs) => Ok([r] + rs))
  {
    if rest.Ok? {
      assert done + [r] + rest.value == done + ([r] + rest.value);
    }
  }

  // ---- when resolution succeeds ----

  /** A local reason to fail: a child that does not exist, a check that fails, or a node that
      cannot be finished although its children could. */
  ghost predicate LocallyFine<K(!new), R(!new), E>(g: Graph<K, R, E>, k: K) {
    && (forall c :: c in g.children(k) ==> c in g.nodes)
    && (forall rs: seq<R> :: Resolved(g, k, rs) ==>
          (forall i :: 0 <= i < |rs| ==> g.check(k, i, rs[i]).None?) && g.finish(k, rs).Ok?)
  }

  /** rs are the results of the children of k. */
  ghost predicate Resolved<K, R, E>(g: Graph<K, R, E>, k: K, rs: seq<R>) {
    |rs| == |g.children(k)| && forall i :: 0 <= i < |rs| ==> Plain(g, g.children(k)[i], []) == Ok(rs[i])
  }

  lemma {:induction false} FineResolves<K(!new), R(!new), E>(g: Graph<K, R, E>, k: K, visiting: seq<K>)
    requires Acyclic(g) && k in g.nodes && Walk(g, visiting + [k])
    requires forall n :: n in g.nodes ==> LocallyFine(g, n)
    ensures Plain(g, k, visiting).Ok?
    decreases Unseen(g, visiting)
  {
    assert (visiting + [k])[..|visiting|] == visiting;
    assert !Repeats(visiting + [k]);
    UnseenShrinks(g, visiting, k);
    var children := g.children(k);
    forall j | 0 <= j < |children|
      ensures Plain(g, children[j], visiting + [k]).Ok?
        && Plain(g, children[j], []) == Plain(g, children[j], visiting + [k])
    {
      WalkExtends(g, visiting, k, j);
      FineResolves(g, children[j], visiting + [k]);
      OkFromScratch(g, children[j], visiting + [k]);
    }
    var rs := seq(|children|, j requires 0 <= j < |children| => Plain(g, children[j], visiting + [k]).value);
    assert Resolved(g, k, rs);
    EachMeansFrom(g, k, visiting + [k], 0, rs);
    assert rs[0..] == rs;
  }

  lemma OkMeansFine<K(!new), R(!new), E>(g: Graph<K, R, E>, k: K)
    requires Plain(g, k, []).Ok?
    ensures LocallyFine(g, k)
  {
    assert [] + [k] == [k];
    FromMeansEach(g, k, [k], 0);
    var rs := PlainFrom(g, k, [k], 0).value;
    forall c | c in g.children(k) ensures c in g.nodes {
      var j :| 0 <= j < |g.children(k)| && g.children(k)[j] == c;
      assert Plain(g, c, [k]).Ok?;
    }
    forall ss: seq<R> | Resolved(g, k, ss)
      ensures (forall i :: 0 <= i < |ss| ==> g.check(k, i, ss[i]).None?) && g.finish(k, ss).Ok?
    {
      forall i | 0 <= i < |ss| ensures ss[i] == rs[i] {
        OkFromScratch(g, g.children(k)[i], [k]);
      }
      assert ss == rs;
    }
  }

  lemma OkMeansNoRepeat<K(!new), R, E>(g: Graph<K, R, E>, p: seq<K>)
    requires (forall k :: k in g.nodes ==> Plain(g, k, []).Ok?) && Walk(g, p)
    ensures !Repeats(p)
  {
    if Repeats(p) {
      var n := |p| - 1;
      var j :| 0 <= j < n && p[j] == p[n];
      assert p[j] in g.nodes && p[n] == p[j..][|p[j..]| - 1];
      WalkTail(g, p, j);
      OkReachesNoVisited(g, p[j], [], p[j..]);
      assert false;
    }
  }

  /** Resolution of a whole graph succeeds exactly when the graph is acyclic and no node fails
      locally. */
  lemma SuccessIsExact<K(!new), R(!new), E>(g: Graph<K, R, E>)
    ensures (forall k :: k in g.nodes ==> Plain(g, k, []).Ok?)
      <==> (Acyclic(g) && forall k :: k in g.nodes ==> LocallyFine(g, k))
  {
    hide LocallyFine, Plain, Repeats;
    if Acyclic(g) && forall k :: k in g.nodes ==> LocallyFine(g, k) {
      forall k | k in g.nodes ensures Plain(g, k, []).Ok? {
        assert Walk(g, [] + [k]);
        FineResolves(g, k, []);
      }
    }
    if forall k :: k in g.nodes ==> Plain(g, k, []).Ok? {
      forall k | k in g.nodes ensures LocallyFine(g, k) { OkMeansFine(g, k); }
      forall p: seq<K> | Walk(g, p) ensures !Repeats(p) { OkMeansNoRepeat(g, p); }
    }
  }
}
