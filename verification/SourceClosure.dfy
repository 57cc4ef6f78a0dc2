/**
 The dependency closure of LPC sources: include, inherit and implicit-global edges, where inherits
 may be written as macros of included headers.  Files are given parsed: their resolved includes,
 their macro definitions and their inherit expressions.
 */
module SourceClosure {
  import opened Wrappers
  import opened Ordering

  type Path = string

  const GLOBAL: Path := "include/globals.h"

  /** An inherit expression without outer parentheses: a path literal, a macro, or anything else. */
  datatype Expr = Literal(text: string) | Macro(name: string) | Dynamic

  type Macros = map<string, Expr>

  datatype SourceFile = SourceFile(readable: bool, includes: seq<Path>, macros: Macros, inherits: seq<Expr>)

  type Files = map<Path, SourceFile>

  datatype ClosureError =
    | Unreadable(path: Path)
    | MacroCycle(owner: Path, name: string)
    | UnresolvedMacro(owner: Path, name: string)
    | UnresolvedInherit(owner: Path, path: Path)
    | DynamicInherit(owner: Path)
    | MissingRoots

  predicate EndsWith(path: Path, suffix: string) {
    |suffix| <= |path| && path[|path| - |suffix|..] == suffix
  }

  predicate Readable(files: Files, path: Path) {
    path in files && files[path].readable
  }

  // ---- macro tables of headers ----

  type Table = Result<Macros, ClosureError>

  /** The macros a header provides: those of its included headers, in order, then its own.  A header
      on the stack provides nothing. */
  function Plain(files: Files, path: Path, stack: set<Path>): Table
    decreases files.Keys - stack, 0
  {
    if path in stack then Ok(map[])
    else if !Readable(files, path) then Err(Unreadable(path))
    else match PlainFrom(files, files[path].includes, stack + {path}, map[])
      case Err(e) => Err(e)
      case Ok(macros) => Ok(macros + files[path].macros)
  }

  function PlainFrom(files: Files, includes: seq<Path>, stack: set<Path>, sofar: Macros): Table
    decreases files.Keys - stack, 1 + |includes|
  {
    if includes == [] then Ok(sofar)
    else if !EndsWith(includes[0], ".h") then PlainFrom(files, includes[1..], stack, sofar)
    else match Plain(files, includes[0], stack)
      case Err(e) => Err(e)
      case Ok(macros) => PlainFrom(files, includes[1..], stack, sofar + macros)
  }

  type Cache = map<Path, Macros>

  /** The same with a cache, as it is computed. */
  function Memo(files: Files, path: Path, stack: set<Path>, cache: Cache): (Table, Cache)
    decreases files.Keys - stack, 0
  {
    if path in cache then (Ok(cache[path]), cache)
    else if path in stack then (Ok(map[]), cache)
    else if !Readable(files, path) then (Err(Unreadable(path)), cache)
    else
      var (table, filled) := MemoFrom(files, files[path].includes, stack + {path}, map[], cache);
      match table
      case Err(e) => (Err(e), filled)
      case Ok(macros) => (Ok(macros + files[path].macros), filled[path := macros + files[path].macros])
  }

  function MemoFrom(files: Files, includes: seq<Path>, stack: set<Path>, sofar: Macros, cache: Cache): (Table, Cache)
    decreases files.Keys - stack, 1 + |includes|
  {
    if includes == [] then (Ok(sofar), cache)
    else if !EndsWith(includes[0], ".h") then MemoFrom(files, includes[1..], stack, sofar, cache)
    else
      var (table, filled) := Memo(files, includes[0], stack, cache);
      match table
      case Err(e) => (Err(e), filled)
      case Ok(macros) => MemoFrom(files, includes[1..], stack, sofar + macros, filled)
  }

  /** Header includes are acyclic: some ranking falls along every include of a header. */
  ghost predicate Ranked(files: Files, rank: Path -> nat) {
    forall p, i :: p in files && 0 <= i < |files[p].includes| && EndsWith(files[p].includes[i], ".h") ==>
      rank(files[p].includes[i]) < rank(p)
  }

  ghost predicate CacheOk(files: Files, cache: Cache) {
    forall p :: p in cache ==> Plain(files, p, {}) == Ok(cache[p])
  }

  ghost predicate Above(rank: Path -> nat, stack: set<Path>, r: nat) {
    forall s :: s in stack ==> rank(s) >= r
  }

  ghost predicate Below(rank: Path -> nat, includes: seq<Path>, r: nat) {
    forall i :: 0 <= i < |includes| && EndsWith(includes[i], ".h") ==> rank(includes[i]) < r
  }

  /** In an acyclic graph the stack plays no role. */
  lemma {:induction false} StackIrrelevant(files: Files, rank: Path -> nat, path: Path, stack: set<Path>,
                                           other: set<Path>)
    requires Ranked(files, rank) && Above(rank, stack, rank(path) + 1) && Above(rank, other, rank(path) + 1)
    ensures Plain(files, path, stack) == Plain(files, path, other)
    decreases rank(path), 1, 0
  {
    if Readable(files, path) {
      StackIrrelevantFrom(files, rank, files[path].includes, rank(path), stack + {path}, other + {path}, map[]);
    }
  }

  lemma {:induction false} StackIrrelevantFrom(files: Files, rank: Path -> nat, includes: seq<Path>, r: nat,
                                               stack: set<Path>, other: set<Path>, sofar: Macros)
    requires Ranked(files, rank) && Above(rank, stack, r) && Above(rank, other, r) && Below(rank, includes, r)
    ensures PlainFrom(files, includes, stack, sofar) == PlainFrom(files, includes, other, sofar)
    decreases r, 0, |includes|
  {
    if includes != [] {
      if EndsWith(includes[0], ".h") {
        StackIrrelevant(files, rank, includes[0], stack, other);
        if Plain(files, includes[0], stack).Ok? {
          StackIrrelevantFrom(files, rank, includes[1..], r, stack, other,
            sofar + Plain(files, includes[0], stack).value);
        }
      } else {
        StackIrrelevantFrom(files, rank, includes[1..], r, stack, other, sofar);
      }
    }
  }

  /** For acyclic header includes the cached table is the plain one, whatever was asked before. */
  lemma {:induction false} MemoAgrees(files: Files, rank: Path -> nat, path: Path, stack: set<Path>, cache: Cache)
    requires Ranked(files, rank) && CacheOk(files, cache) && Above(rank, stack, rank(path) + 1)
    ensures Memo(files, path, stack, cache).0 == Plain(files, path, {})
      && CacheOk(files, Memo(files, path, stack, cache).1)
    decreases rank(path), 1, 0
  {
    if path !in cache && Readable(files, path) {
      MemoFromAgrees(files, rank, files[path].includes, rank(path), stack + {path}, map[], cache);
      StackIrrelevantFrom(files, rank, files[path].includes, rank(path), stack + {path}, {} + {path}, map[]);
    }
  }

  lemma {:induction false} MemoFromAgrees(files: Files, rank: Path -> nat, includes: seq<Path>, r: nat,
                                          stack: set<Path>, sofar: Macros, cache: Cache)
    requires Ranked(files, rank) && CacheOk(files, cache) && Above(rank, stack, r) && Below(rank, includes, r)
    ensures MemoFrom(files, includes, stack, sofar, cache).0 == PlainFrom(files, includes, stack, sofar)
    ensures CacheOk(files, MemoFrom(files, includes, stack, sofar, cache).1)
    decreases r, 0, |includes|
  {
    if includes != [] {
      if EndsWith(includes[0], ".h") {
        MemoAgrees(files, rank, includes[0], stack, cache);
        StackIrrelevant(files, rank, includes[0], stack, {});
        var (table, filled) := Memo(files, includes[0], stack, cache);
        if table.Ok? {
          MemoFromAgrees(files, rank, includes[1..], r, stack, sofar + table.value, filled);
        }
      } else {
        MemoFromAgrees(files, rank, includes[1..], r, stack, sofar, cache);
      }
    }
  }

  // ---- the cache on any header graph ----

  /** Nothing stored is ever changed. */
  ghost predicate Grown(before: Cache, after: Cache) {
    forall p :: p in before ==> p in after && after[p] == before[p]
  }

  /** The cache only grows, a header on the stack is not stored, and an answer for any other header
      is. */
  lemma {:induction false} MemoGrows(files: Files, path: Path, stack: set<Path>, cache: Cache)
    ensures var (table, filled) := Memo(files, path, stack, cache);
            && Grown(cache, filled)
            && (forall p :: p in stack && p !in cache ==> p !in filled)
            && (table.Ok? && path !in stack ==> path in filled && table == Ok(filled[path]))
    decreases files.Keys - stack, 0
  {
    if path !in cache && path !in stack && Readable(files, path) {
      MemoFromGrows(files, files[path].includes, stack + {path}, map[], cache);
    }
  }

  lemma {:induction false} MemoFromGrows(files: Files, includes: seq<Path>, stack: set<Path>, sofar: Macros,
                                         cache: Cache)
    ensures var filled := MemoFrom(files, includes, stack, sofar, cache).1;
            Grown(cache, filled) && forall p :: p in stack && p !in cache ==> p !in filled
    decreases files.Keys - stack, 1 + |includes|
  {
    if includes != [] {
      if EndsWith(includes[0], ".h") {
        MemoGrows(files, includes[0], stack, cache);
        var (table, filled) := Memo(files, includes[0], stack, cache);
        if table.Ok? {
          MemoFromGrows(files, includes[1..], stack, sofar + table.value, filled);
        }
      } else {
        MemoFromGrows(files, includes[1..], stack, sofar, cache);
      }
    }
  }

  /** A header that failed fails again in the same way. */
  lemma {:induction false} MemoFailsAgain(files: Files, path: Path, stack: set<Path>, cache: Cache)
    requires Memo(files, path, stack, cache).0.Err?
    ensures var (table, filled) := Memo(files, path, stack, cache); Memo(files, path, stack, filled).0 == table
    decreases files.Keys - stack, 0
  {
    if Readable(files, path) {
      MemoFromGrows(files, files[path].includes, stack + {path}, map[], cache);
      MemoFromFailsAgain(files, files[path].includes, stack + {path}, map[], map[], cache);
    }
  }

  lemma {:induction false} MemoFromFailsAgain(files: Files, includes: seq<Path>, stack: set<Path>, sofar: Macros,
                                              other: Macros, cache: Cache)
    requires MemoFrom(files, includes, stack, sofar, cache).0.Err?
    ensures var (table, filled) := MemoFrom(files, includes, stack, sofar, cache);
            MemoFrom(files, includes, stack, other, filled).0 == table
    decreases files.Keys - stack, 1 + |includes|
  {
    if !EndsWith(includes[0], ".h") {
      MemoFromFailsAgain(files, includes[1..], stack, sofar, other, cache);
    } else {
      var (table, filled) := Memo(files, includes[0], stack, cache);
      if table.Err? {
        MemoFailsAgain(files, includes[0], stack, cache);
      } else {
        MemoGrows(files, includes[0], stack, cache);
        MemoFromGrows(files, includes[1..], stack, sofar + table.value, filled);
        var end := MemoFrom(files, includes, stack, sofar, cache).1;
        var again := Memo(files, includes[0], stack, end);
        assert again.0.Ok? && again.1 == end;
        MemoFromFailsAgain(files, includes[1..], stack, sofar + table.value, other + again.0.value, filled);
      }
    }
  }

  /** Two headers that include each other: whichever is asked for first lacks nothing, the other
      lacks its macros.  Its table is independent of the order if and only if it defines every
      macro of the first itself. */
  lemma CyclicHeadersDependOnOrder(files: Files, a: Path, b: Path)
    requires a != b && EndsWith(a, ".h") && EndsWith(b, ".h") && Readable(files, a) && Readable(files, b)
    requires files[a].includes == [b] && files[b].includes == [a]
    ensures Memo(files, b, {}, map[]).0 == Memo(files, b, {}, Memo(files, a, {}, map[]).1).0
            <==> files[a].macros.Keys <= files[b].macros.Keys
  {
    var ma, mb := files[a].macros, files[b].macros;
    MutualHeaders(files, a, b);
    MutualHeaders(files, b, a);
    if ma.Keys <= mb.Keys {
      assert ma + mb == mb;
    } else {
      var n :| n in ma && n !in mb;
      assert n in ma + mb;
    }
  }

  lemma MutualHeaders(files: Files, a: Path, b: Path)
    requires a != b && EndsWith(a, ".h") && EndsWith(b, ".h") && Readable(files, a) && Readable(files, b)
    requires files[a].includes == [b] && files[b].includes == [a]
    ensures Memo(files, a, {}, map[]).0 == Ok(files[b].macros + files[a].macros)
    ensures b in Memo(files, a, {}, map[]).1 && Memo(files, a, {}, map[]).1[b] == files[b].macros
  {
    var nothing: Macros := map[];
    var none: Cache := map[];
    var ma, mb := files[a].macros, files[b].macros;
    assert files[a].includes[1..] == [] && files[b].includes[1..] == [];
    var inA, inB := {} + {a}, {} + {a} + {b};
    assert Memo(files, a, inB, none) == (Ok(nothing), none);
    assert MemoFrom(files, [], inB, nothing + nothing, none) == (Ok(nothing + nothing), none);
    assert MemoFrom(files, files[b].includes, inB, nothing, none) == (Ok(nothing + nothing), none);
    assert nothing + nothing + mb == mb;
    assert Memo(files, b, inA, none) == (Ok(mb), none[b := mb]);
    assert MemoFrom(files, [], inA, nothing + mb, none[b := mb]) == (Ok(nothing + mb), none[b := mb]);
    assert MemoFrom(files, files[a].includes, inA, nothing, none) == (Ok(nothing + mb), none[b := mb]);
    assert nothing + mb == mb;
    assert Memo(files, a, {}, none) == (Ok(mb + ma), none[b := mb][a := mb + ma]);
  }

  // ---- when the order of asking does not matter ----

  /** The table of a header that is the first one asked for. */
  function Alone(files: Files, path: Path): Table {
    Memo(files, path, {}, map[]).0
  }

  /** Whichever single header is asked for first, it leaves every header the table that one has
      alone. */
  ghost predicate OrderFree(files: Files) {
    forall p :: Alone(files, p).Ok? ==> AsAlone(files, Memo(files, p, {}, map[]).1)
  }

  ghost predicate AsAlone(files: Files, cache: Cache) {
    forall h :: h in cache ==> Alone(files, h) == Ok(cache[h])
  }

  /** The headers asked for in turn, none of which fails. */
  predicate AllAnswer(files: Files, asked: seq<Path>, cache: Cache)
    decreases |asked|
  {
    asked == [] || (var (table, filled) := Memo(files, asked[0], {}, cache);
                    table.Ok? && AllAnswer(files, asked[1..], filled))
  }

  function CacheAfter(files: Files, asked: seq<Path>, cache: Cache): Cache
    decreases |asked|
  {
    if asked == [] then cache else CacheAfter(files, asked[1..], Memo(files, asked[0], {}, cache).1)
  }

  /** Every stored header is readable, and its included headers are stored or on the stack. */
  ghost predicate ClosedUpTo(files: Files, cache: Cache, stack: set<Path>) {
    forall p :: p in cache ==> Readable(files, p) && Stored(cache, stack, files[p].includes)
  }

  ghost predicate Stored(cache: Cache, stack: set<Path>, includes: seq<Path>) {
    forall h :: h in includes && EndsWith(h, ".h") ==> h in cache || h in stack
  }

  lemma {:induction false} MemoCloses(files: Files, path: Path, stack: set<Path>, cache: Cache)
    requires ClosedUpTo(files, cache, stack) && Memo(files, path, stack, cache).0.Ok?
    ensures ClosedUpTo(files, Memo(files, path, stack, cache).1, stack)
    decreases files.Keys - stack, 0
  {
    if path !in cache && path !in stack {
      MemoFromCloses(files, files[path].includes, stack + {path}, map[], cache);
    }
  }

  lemma {:induction false} MemoFromCloses(files: Files, includes: seq<Path>, stack: set<Path>, sofar: Macros,
                                          cache: Cache)
    requires ClosedUpTo(files, cache, stack) && MemoFrom(files, includes, stack, sofar, cache).0.Ok?
    ensures ClosedUpTo(files, MemoFrom(files, includes, stack, sofar, cache).1, stack)
    ensures Stored(MemoFrom(files, includes, stack, sofar, cache).1, stack, includes)
    decreases files.Keys - stack, 1 + |includes|
  {
    if includes != [] {
      if EndsWith(includes[0], ".h") {
        MemoCloses(files, includes[0], stack, cache);
        MemoGrows(files, includes[0], stack, cache);
        var (table, filled) := Memo(files, includes[0], stack, cache);
        MemoFromCloses(files, includes[1..], stack, sofar + table.value, filled);
        MemoFromGrows(files, includes[1..], stack, sofar + table.value, filled);
      } else {
        MemoFromCloses(files, includes[1..], stack, sofar, cache);
      }
    }
  }

  /** Headers of a closed set never fail, and asking for them stores nothing outside it. */
  lemma {:induction false} ClosedAnswers(files: Files, known: Cache, path: Path, stack: set<Path>, cache: Cache)
    requires ClosedUpTo(files, known, {}) && path in known
    ensures var (table, filled) := Memo(files, path, stack, cache);
            table.Ok? && filled.Keys <= cache.Keys + known.Keys
    decreases files.Keys - stack, 0
  {
    if path !in cache && path !in stack {
      ClosedAnswersFrom(files, known, files[path].includes, stack + {path}, map[], cache);
    }
  }

  lemma {:induction false} ClosedAnswersFrom(files: Files, known: Cache, includes: seq<Path>, stack: set<Path>,
                                             sofar: Macros, cache: Cache)
    requires ClosedUpTo(files, known, {}) && Stored(known, {}, includes)
    ensures var (table, filled) := MemoFrom(files, includes, stack, sofar, cache);
            table.Ok? && filled.Keys <= cache.Keys + known.Keys
    decreases files.Keys - stack, 1 + |includes|
  {
    if includes != [] {
      if EndsWith(includes[0], ".h") {
        ClosedAnswers(files, known, includes[0], stack, cache);
        var (table, filled) := Memo(files, includes[0], stack, cache);
        ClosedAnswersFrom(files, known, includes[1..], stack, sofar + table.value, filled);
      } else {
        ClosedAnswersFrom(files, known, includes[1..], stack, sofar, cache);
      }
    }
  }

  /** Two runs side by side: one starts from the closed cache `known`, the other from nothing.
      `with` is the cache of the first, `bare` that of the second. */
  ghost predicate Beside(known: Cache, with: Cache, bare: Cache) {
    with.Keys == known.Keys + bare.Keys && Grown(known, with)
  }

  /** What the second run stores agrees with its final cache, which agrees with what was known. */
  ghost predicate Agreeing(known: Cache, bare: Cache, end: Cache) {
    Grown(bare, end) && forall h :: h in known && h in end ==> known[h] == end[h]
  }

  /** A known header: the first run has its table at hand, the second computes it. */
  lemma KnownBeside(files: Files, known: Cache, path: Path, stack: set<Path>, with: Cache, bare: Cache, end: Cache)
    requires ClosedUpTo(files, known, {}) && stack !! known.Keys && Beside(known, with, bare) && path in known
    ensures var (table, less) := Memo(files, path, stack, bare);
            && Memo(files, path, stack, with) == (Ok(known[path]), with) && table.Ok? && Beside(known, with, less)
            && (Grown(bare, with) && Agreeing(known, less, end) ==> table == Ok(known[path]) && Grown(less, with))
  {
    hide MemoFrom, ClosedUpTo;
    MemoGrows(files, path, stack, bare);
    ClosedAnswers(files, known, path, stack, bare);
  }

  lemma NotWith(known: Cache, path: Path, with: Cache, bare: Cache)
    requires Beside(known, with, bare) && path !in known && path !in bare
    ensures path !in with
  {
  }

  /** Both runs store one more header. */
  lemma StoreBeside(known: Cache, path: Path, one: Macros, other: Macros, with: Cache, bare: Cache, end: Cache)
    requires Beside(known, with, bare) && path !in with
    ensures Beside(known, with[path := one], bare[path := other])
    ensures Grown(bare, with) && one == other ==> Grown(bare[path := other], with[path := one])
    ensures Agreeing(known, bare[path := other], end) ==> Agreeing(known, bare, end)
  {
  }

  /** Both runs fail alike, and where the second one's tables end up as known, they answer alike. */
  lemma {:induction false} SideBySide(files: Files, known: Cache, path: Path, stack: set<Path>,
                                      with: Cache, bare: Cache, end: Cache)
    requires ClosedUpTo(files, known, {}) && stack !! known.Keys && Beside(known, with, bare)
    ensures var (a, more) := Memo(files, path, stack, with); var (b, less) := Memo(files, path, stack, bare);
            && (a.Ok? <==> b.Ok?) && (a.Err? ==> a == b)
            && Beside(known, more, less)
            && (a.Ok? && Grown(bare, with) && Agreeing(known, less, end) ==> a == b && Grown(less, more))
    decreases files.Keys - stack, 0
  {
    hide MemoFrom, ClosedUpTo, Agreeing;
    if path in known {
      KnownBeside(files, known, path, stack, with, bare, end);
    } else if path !in bare && path !in stack && Readable(files, path) {
      SideBySideStored(files, known, path, stack, with, bare, end);
    }
  }

  lemma {:induction false} SideBySideStored(files: Files, known: Cache, path: Path, stack: set<Path>,
                                            with: Cache, bare: Cache, end: Cache)
    requires ClosedUpTo(files, known, {}) && stack !! known.Keys && Beside(known, with, bare)
    requires path !in known && path !in bare && path !in stack && Readable(files, path)
    ensures var (a, more) := Memo(files, path, stack, with); var (b, less) := Memo(files, path, stack, bare);
            && (a.Ok? <==> b.Ok?) && (a.Err? ==> a == b)
            && Beside(known, more, less)
            && (a.Ok? && Grown(bare, with) && Agreeing(known, less, end) ==> a == b && Grown(less, more))
    decreases files.Keys - stack, 0, 0
  {
    hide MemoFrom, ClosedUpTo, Agreeing, Grown, Beside;
    var inside, includes := stack + {path}, files[path].includes;
    NotWith(known, path, with, bare);
    SideBySideFrom(files, known, includes, inside, map[], map[], with, bare, end);
    MemoFromGrows(files, includes, inside, map[], with);
    var (a, more) := MemoFrom(files, includes, inside, map[], with);
    var (b, less) := MemoFrom(files, includes, inside, map[], bare);
    if a.Ok? {
      StoreBeside(known, path, a.value + files[path].macros, b.value + files[path].macros, more, less, end);
    }
  }

  lemma AgreeEarlier(known: Cache, bare: Cache, later: Cache, end: Cache)
    requires Grown(bare, later)
    ensures Agreeing(known, later, end) ==> Agreeing(known, bare, end)
  {
  }

  lemma {:induction false} SideBySideFrom(files: Files, known: Cache, includes: seq<Path>, stack: set<Path>,
                                          one: Macros, other: Macros, with: Cache, bare: Cache, end: Cache)
    requires ClosedUpTo(files, known, {}) && stack !! known.Keys && Beside(known, with, bare)
    ensures var (a, more) := MemoFrom(files, includes, stack, one, with);
            var (b, less) := MemoFrom(files, includes, stack, other, bare);
            && (a.Ok? <==> b.Ok?) && (a.Err? ==> a == b)
            && Beside(known, more, less)
            && (a.Ok? && one == other && Grown(bare, with) && Agreeing(known, less, end) ==>
               a == b && Grown(less, more))
    decreases files.Keys - stack, 1 + |includes|
  {
    hide Memo, ClosedUpTo, Agreeing, Grown, Beside;
    if includes != [] {
      if EndsWith(includes[0], ".h") {
        SideBySide(files, known, includes[0], stack, with, bare, end);
        var (a, more) := Memo(files, includes[0], stack, with);
        var (b, less) := Memo(files, includes[0], stack, bare);
        if a.Ok? {
          MemoFromGrows(files, includes[1..], stack, other + b.value, less);
          AgreeEarlier(known, less, MemoFrom(files, includes[1..], stack, other + b.value, less).1, end);
          SideBySideFrom(files, known, includes[1..], stack, one + a.value, other + b.value, more, less, end);
        }
      } else {
        SideBySideFrom(files, known, includes[1..], stack, one, other, with, bare, end);
      }
    }
  }

  /** One more header asked for, from a cache that gives every header the table it has alone. */
  lemma OneMoreAsked(files: Files, cache: Cache, path: Path)
    requires OrderFree(files) && ClosedUpTo(files, cache, {}) && AsAlone(files, cache)
    ensures Memo(files, path, {}, cache).0 == Alone(files, path)
    ensures Memo(files, path, {}, cache).0.Ok? ==>
              var filled := Memo(files, path, {}, cache).1;
              ClosedUpTo(files, filled, {}) && AsAlone(files, filled)
  {
    hide MemoFrom, ClosedUpTo;
    var nothing: Cache := map[];
    var end := Memo(files, path, {}, nothing).1;
    SideBySide(files, cache, path, {}, cache, nothing, end);
    if Alone(files, path).Ok? {
      assert AsAlone(files, end);
      assert Agreeing(cache, end, end);
      MemoCloses(files, path, {}, cache);
    }
  }

  lemma {:induction false} AskedInTurn(files: Files, asked: seq<Path>, cache: Cache)
    requires OrderFree(files) && ClosedUpTo(files, cache, {}) && AsAlone(files, cache) && AllAnswer(files, asked, cache)
    ensures var after := CacheAfter(files, asked, cache); ClosedUpTo(files, after, {}) && AsAlone(files, after)
    decreases |asked|
  {
    hide Memo, ClosedUpTo, AsAlone, OrderFree;
    if asked == [] {
    } else {
      OneMoreAsked(files, cache, asked[0]);
      AskedInTurn(files, asked[1..], Memo(files, asked[0], {}, cache).1);
    }
  }

  /** After these headers were asked for, h is answered as before. */
  ghost predicate Steady(files: Files, cache: Cache, asked: seq<Path>, h: Path) {
    AllAnswer(files, asked, cache) ==>
      Memo(files, h, {}, CacheAfter(files, asked, cache)).0 == Memo(files, h, {}, cache).0
  }

  /** No answer depends on what is asked from now on, in whatever order. */
  ghost predicate Fixed(files: Files, cache: Cache) {
    forall asked: seq<Path>, h :: Steady(files, cache, asked, h)
  }

  /** The exact condition, on any header graph: what a header provides never depends on what was asked
      before, in whatever order, if and only if it does not when just one other header was. */
  lemma OrderFreeIff(files: Files)
    ensures OrderFree(files) <==> Fixed(files, map[])
  {
    hide MemoFrom;
    if OrderFree(files) {
      forall asked: seq<Path>, h ensures Steady(files, map[], asked, h) {
        if AllAnswer(files, asked, map[]) {
          AskedInTurn(files, asked, map[]);
          OneMoreAsked(files, CacheAfter(files, asked, map[]), h);
        }
      }
    } else {
      var p, h :| Alone(files, p).Ok? && h in Memo(files, p, {}, map[]).1
                  && Alone(files, h) != Ok(Memo(files, p, {}, map[]).1[h]);
      AskedFirst(files, p, h);
    }
  }

  lemma AskedFirst(files: Files, p: Path, h: Path)
    requires Alone(files, p).Ok? && h in Memo(files, p, {}, map[]).1
    requires Alone(files, h) != Ok(Memo(files, p, {}, map[]).1[h])
    ensures !Steady(files, map[], [p], h)
  {
    hide MemoFrom;
    assert [p][1..] == [];
    assert AllAnswer(files, [], Memo(files, p, {}, map[]).1);
    assert CacheAfter(files, [p], map[]) == CacheAfter(files, [], Memo(files, p, {}, map[]).1);
  }

  /** Acyclic headers meet the condition. */
  lemma AcyclicIsOrderFree(files: Files, rank: Path -> nat)
    requires Ranked(files, rank)
    ensures OrderFree(files) && forall h :: Alone(files, h) == Plain(files, h, {})
  {
    hide Memo, Plain, Ranked;
    var nothing: Cache := map[];
    forall p ensures Alone(files, p) == Plain(files, p, {}) && CacheOk(files, Memo(files, p, {}, nothing).1) {
      MemoAgrees(files, rank, p, {}, nothing);
    }
  }

  // ---- inherit expressions ----

  function Unused(macros: Macros, stack: seq<string>): set<string> {
    set n | n in macros && n !in stack
  }

  /** Expands macros until a literal is reached; a macro on the stack is a cycle. */
  function ResolveInherit(files: Files, locate: (Path, string) -> Path, owner: Path, e: Expr, macros: Macros,
                          stack: seq<string>): Result<Path, ClosureError>
    decreases Unused(macros, stack)
  {
    match e
    case Literal(text) =>
      if locate(owner, text) in files then Ok(locate(owner, text))
        else Err(UnresolvedInherit(owner, locate(owner, text)))
    case Macro(name) =>
      if name in stack then Err(MacroCycle(owner, name))
      else if name !in macros then Err(UnresolvedMacro(owner, name))
      else
        assert name in Unused(macros, stack) && name !in Unused(macros, stack + [name]);
        ResolveInherit(files, locate, owner, macros[name], macros, stack + [name])
    case Dynamic => Err(DynamicInherit(owner))
  }

  /** e expands to the literal `text` in n steps. */
  predicate Expands(macros: Macros, e: Expr, n: nat, text: string)
    decreases n
  {
    match e
    case Literal(t) => n == 0 && t == text
    case Macro(name) => n > 0 && name in macros && Expands(macros, macros[name], n - 1, text)
    case Dynamic => false
  }

  lemma {:induction false} ExpandsOnce(macros: Macros, e: Expr, n: nat, m: nat, s: string, t: string)
    requires Expands(macros, e, n, s) && Expands(macros, e, m, t)
    ensures n == m && s == t
    decreases n
  {
    if e.Macro? {
      ExpandsOnce(macros, macros[e.name], n - 1, m - 1, s, t);
    }
  }

  /** The macro expands to the text in more than n steps. */
  ghost predicate Longer(macros: Macros, name: string, n: int, text: string) {
    exists m: nat :: m > n && Expands(macros, Macro(name), m, text)
  }

  /** The cycle check never rejects an expression that expands to a literal. */
  lemma {:induction false} ExpandingResolves(files: Files, locate: (Path, string) -> Path, owner: Path, e: Expr,
                                             macros: Macros, stack: seq<string>, n: nat, text: string)
    requires Expands(macros, e, n, text)
    requires forall i :: 0 <= i < |stack| ==> Longer(macros, stack[i], n, text)
    ensures ResolveInherit(files, locate, owner, e, macros, stack)
            == if locate(owner, text) in files then Ok(locate(owner, text))
               else Err(UnresolvedInherit(owner, locate(owner, text)))
    decreases n
  {
    if e.Macro? {
      if e.name in stack {
        var i :| 0 <= i < |stack| && stack[i] == e.name;
        var m: nat :| m > n && Expands(macros, Macro(stack[i]), m, text);
        ExpandsOnce(macros, e, n, m, text, text);
        assert false;
      }
      var longer := stack + [e.name];
      forall i | 0 <= i < |longer| ensures Longer(macros, longer[i], n - 1, text) {
        if i < |stack| {
          assert Longer(macros, stack[i], n, text);
        } else {
          assert Expands(macros, Macro(longer[i]), n, text);
        }
      }
      ExpandingResolves(files, locate, owner, macros[e.name], macros, longer, n - 1, text);
    }
  }

  predicate Leads(files: Files, locate: (Path, string) -> Path, owner: Path, e: Expr, macros: Macros, n: nat,
                  text: string) {
    Expands(macros, e, n, text) && locate(owner, text) in files
  }

  /** An inherit resolves exactly when it expands to a literal that locates a known file. */
  lemma {:induction false} ResolvesIffExpands(files: Files, locate: (Path, string) -> Path, owner: Path, e: Expr,
                                              macros: Macros)
    ensures ResolveInherit(files, locate, owner, e, macros, []).Ok?
            <==> exists n: nat, text :: Leads(files, locate, owner, e, macros, n, text)
  {
    if ResolveInherit(files, locate, owner, e, macros, []).Ok? {
      var n, text := ResolvedExpands(files, locate, owner, e, macros, []);
      assert Leads(files, locate, owner, e, macros, n, text);
    } else {
      forall n: nat, text | Expands(macros, e, n, text) ensures !Leads(files, locate, owner, e, macros, n, text) {
        ExpandingResolves(files, locate, owner, e, macros, [], n, text);
      }
    }
  }

  lemma {:induction false} ResolvedExpands(files: Files, locate: (Path, string) -> Path, owner: Path, e: Expr,
                                           macros: Macros, stack: seq<string>)
    returns (n: nat, text: string)
    requires ResolveInherit(files, locate, owner, e, macros, stack).Ok?
    ensures Expands(macros, e, n, text) && locate(owner, text) in files
    ensures ResolveInherit(files, locate, owner, e, macros, stack).value == locate(owner, text)
    decreases Unused(macros, stack)
  {
    if e.Literal? {
      n, text := 0, e.text;
    } else {
      assert e.name in Unused(macros, stack) && e.name !in Unused(macros, stack + [e.name]);
      n, text := ResolvedExpands(files, locate, owner, macros[e.name], macros, stack + [e.name]);
      n := n + 1;
    }
  }

  // ---- how an inherit expression fails ----

  /** e becomes x after n macros. */
  predicate Becomes(macros: Macros, e: Expr, n: nat, x: Expr)
    decreases n
  {
    if n == 0 then e == x else e.Macro? && e.name in macros && Becomes(macros, macros[e.name], n - 1, x)
  }

  /** Nothing more can be expanded. */
  predicate IsEnd(macros: Macros, x: Expr) {
    x.Macro? ==> x.name !in macros
  }

  predicate EndsIn(macros: Macros, e: Expr, n: nat, x: Expr) {
    Becomes(macros, e, n, x) && IsEnd(macros, x)
  }

  /** What an expression that ends in x resolves to. */
  function EndResult(files: Files, locate: (Path, string) -> Path, owner: Path, x: Expr): Result<Path, ClosureError> {
    match x
    case Literal(text) =>
      if locate(owner, text) in files then Ok(locate(owner, text))
        else Err(UnresolvedInherit(owner, locate(owner, text)))
    case Macro(name) => Err(UnresolvedMacro(owner, name))
    case Dynamic => Err(DynamicInherit(owner))
  }

  lemma {:induction false} EndsOnce(macros: Macros, e: Expr, n: nat, m: nat, x: Expr, y: Expr)
    requires Becomes(macros, e, n, x) && Becomes(macros, e, m, y) && IsEnd(macros, x) && IsEnd(macros, y)
    ensures n == m && x == y
    decreases n
  {
    if n > 0 && m > 0 {
      EndsOnce(macros, macros[e.name], n - 1, m - 1, x, y);
    }
  }

  ghost predicate EndsLater(macros: Macros, name: string, n: int, x: Expr) {
    exists m: nat :: m > n && Becomes(macros, Macro(name), m, x)
  }

  lemma {:induction false} EndDecides(files: Files, locate: (Path, string) -> Path, owner: Path, e: Expr,
                                      macros: Macros, stack: seq<string>, n: nat, x: Expr)
    requires Becomes(macros, e, n, x) && IsEnd(macros, x)
    requires forall i :: 0 <= i < |stack| ==> EndsLater(macros, stack[i], n, x)
    ensures ResolveInherit(files, locate, owner, e, macros, stack) == EndResult(files, locate, owner, x)
    decreases n
  {
    if e.Macro? && e.name in stack {
      var i :| 0 <= i < |stack| && stack[i] == e.name;
      var m: nat :| m > n && Becomes(macros, Macro(stack[i]), m, x);
      EndsOnce(macros, e, n, m, x, x);
      assert false;
    } else if n > 0 {
      var longer := stack + [e.name];
      forall i | 0 <= i < |longer| ensures EndsLater(macros, longer[i], n - 1, x) {
        if i < |stack| {
          assert EndsLater(macros, stack[i], n, x);
        } else {
          assert Becomes(macros, Macro(longer[i]), n, x);
        }
      }
      EndDecides(files, locate, owner, macros[e.name], macros, longer, n - 1, x);
    }
  }

  lemma {:induction false} NoCycleEnds(files: Files, locate: (Path, string) -> Path, owner: Path, e: Expr,
                                       macros: Macros, stack: seq<string>)
    returns (n: nat, x: Expr)
    requires var r := ResolveInherit(files, locate, owner, e, macros, stack); r.Err? ==> !r.error.MacroCycle?
    ensures Becomes(macros, e, n, x) && IsEnd(macros, x)
    decreases Unused(macros, stack)
  {
    if e.Macro? && e.name in macros {
      assert e.name in Unused(macros, stack) && e.name !in Unused(macros, stack + [e.name]);
      n, x := NoCycleEnds(files, locate, owner, macros[e.name], macros, stack + [e.name]);
      n := n + 1;
    } else {
      n, x := 0, e;
    }
  }

  /** An inherit resolves to what its expansion ends in: the file of a literal, an unknown file, an
      unknown macro, or something that is no path; a cycle is reported exactly when it never ends. */
  lemma ResolvesToEnd(files: Files, locate: (Path, string) -> Path, owner: Path, e: Expr, macros: Macros)
    ensures var r := ResolveInherit(files, locate, owner, e, macros, []);
            && (forall n: nat, x :: EndsIn(macros, e, n, x) ==> r == EndResult(files, locate, owner, x))
            && (r.Err? && r.error.MacroCycle? <==> forall n: nat, x :: !EndsIn(macros, e, n, x))
  {
    var r := ResolveInherit(files, locate, owner, e, macros, []);
    forall n: nat, x | EndsIn(macros, e, n, x) ensures r == EndResult(files, locate, owner, x) {
      EndDecides(files, locate, owner, e, macros, [], n, x);
    }
    if r.Err? ==> !r.error.MacroCycle? {
      var n, x := NoCycleEnds(files, locate, owner, e, macros, []);
      assert EndsIn(macros, e, n, x);
    }
  }

  // ---- the dependencies of a file ----

  /** What asking for a header answers. */
  type Look = Path -> Table

  /** Asking without a cache. */
  function Plainly(files: Files): Look {
    h => Plain(files, h, {})
  }

  /** Asking with what the cache holds. */
  function Looked(files: Files, cache: Cache): Look {
    h => Memo(files, h, {}, cache).0
  }

  function MacrosFrom(look: Look, includes: seq<Path>, sofar: Macros): Table
    decreases |includes|
  {
    if includes == [] then Ok(sofar)
    else if !EndsWith(includes[0], ".h") then MacrosFrom(look, includes[1..], sofar)
    else match look(includes[0])
      case Err(e) => Err(e)
      case Ok(macros) => MacrosFrom(look, includes[1..], sofar + macros)
  }

  /** The macros a file sees: the global header's, its included headers', its own. */
  function MacrosBy(files: Files, look: Look, owner: Path): Table
    requires owner in files
  {
    match look(GLOBAL)
    case Err(e) => Err(e)
    case Ok(global) =>
      match MacrosFrom(look, files[owner].includes, global)
      case Err(e) => Err(e)
      case Ok(macros) => Ok(macros + files[owner].macros)
  }

  function Inherited(files: Files, locate: (Path, string) -> Path, owner: Path, inherits: seq<Expr>,
                     macros: Macros): Result<set<Path>, ClosureError> {
    if inherits == [] then Ok({})
    else match ResolveInherit(files, locate, owner, inherits[0], macros, [])
      case Err(e) => Err(e)
      case Ok(p) =>
        match Inherited(files, locate, owner, inherits[1..], macros)
        case Err(e) => Err(e)
        case Ok(rest) => Ok({p} + rest)
  }

  function Direct(files: Files, path: Path): set<Path>
    requires path in files
  {
    (set p | p in files[path].includes) + if EndsWith(path, ".c") then {GLOBAL} else {}
  }

  /** Include, inherit and implicit-global edges out of a file. */
  function DepsBy(files: Files, locate: (Path, string) -> Path, look: Look,
                  path: Path): Result<set<Path>, ClosureError> {
    if !Readable(files, path) then Err(Unreadable(path))
    else match MacrosBy(files, look, path)
      case Err(e) => Err(e)
      case Ok(macros) =>
        match Inherited(files, locate, path, files[path].inherits, macros)
        case Err(e) => Err(e)
        case Ok(inherited) => Ok(Direct(files, path) + inherited)
  }

  // ---- the same, name by name and edge by edge ----

  predicate IsHeader(path: Path) {
    |path| >= 2 && path[|path| - 2] == '.' && path[|path| - 1] == 'h'
  }

  /** Where a name is defined among the headers of a list: in the last one that has it. */
  ghost predicate LastDefines(look: Look, includes: seq<Path>, i: nat, name: string) {
    && DefinesAt(look, includes, i, name) && forall j :: i < j < |includes| ==> !DefinesAt(look, includes, j, name)
  }

  ghost predicate DefinesAt(look: Look, includes: seq<Path>, i: nat, name: string) {
    i < |includes| && IsHeader(includes[i]) && look(includes[i]).Ok? && name in look(includes[i]).value
  }

  /** A name stands for what the file itself defines, else the last included header that has it, else
      the global header; and for nothing otherwise. */
  ghost predicate Sees(files: Files, look: Look, owner: Path, macros: Macros)
    requires owner in files && look("include/globals.h").Ok?
  {
    forall name ::
      if name in files[owner].macros then name in macros && macros[name] == files[owner].macros[name]
      else SeesElsewhere(look, files[owner].includes, look("include/globals.h").value, macros, name)
  }

  ghost predicate SeesElsewhere(look: Look, includes: seq<Path>, before: Macros, macros: Macros, name: string) {
    if exists i: nat :: DefinesAt(look, includes, i, name)
    then name in macros
      && forall i: nat :: LastDefines(look, includes, i, name) ==> macros[name] == look(includes[i]).value[name]
    else (name in macros <==> name in before) && (name in before ==> macros[name] == before[name])
  }

  ghost predicate AllHeadersAnswer(look: Look, includes: seq<Path>) {
    forall i :: 0 <= i < |includes| && IsHeader(includes[i]) ==> look(includes[i]).Ok?
  }

  lemma {:induction false} SeenFrom(look: Look, includes: seq<Path>, before: Macros)
    ensures MacrosFrom(look, includes, before).Ok? <==> AllHeadersAnswer(look, includes)
    ensures MacrosFrom(look, includes, before).Ok? ==>
              forall name :: SeesElsewhere(look, includes, before, MacrosFrom(look, includes, before).value, name)
    decreases |includes|
  {
    if includes != [] {
      var rest := includes[1..];
      var next := if IsHeader(includes[0]) && look(includes[0]).Ok? then before + look(includes[0]).value else before;
      HeaderEnds(includes[0]);
      SeenFrom(look, rest, next);
      assert forall i :: 0 <= i < |rest| ==> rest[i] == includes[i + 1];
      if AllHeadersAnswer(look, includes) {
        assert AllHeadersAnswer(look, rest);
      } else if AllHeadersAnswer(look, rest) {
        var i :| 0 <= i < |includes| && IsHeader(includes[i]) && look(includes[i]).Err?;
        assert i == 0;
      }
      if MacrosFrom(look, includes, before).Ok? {
        forall name ensures SeesElsewhere(look, includes, before, MacrosFrom(look, includes, before).value, name) {
          SeenOneMore(look, includes, before, next, MacrosFrom(look, rest, next).value, name);
        }
      }
    }
  }

  lemma HeaderEnds(path: Path)
    ensures IsHeader(path) <==> EndsWith(path, ".h")
  {
    if |path| >= 2 {
      var last := path[|path| - 2..];
      assert last == [path[|path| - 2], path[|path| - 1]];
    }
  }

  lemma SeenOneMore(look: Look, includes: seq<Path>, before: Macros, next: Macros, macros: Macros, name: string)
    requires includes != [] && SeesElsewhere(look, includes[1..], next, macros, name)
    requires next == if IsHeader(includes[0]) && look(includes[0]).Ok? then before + look(includes[0]).value else before
    ensures SeesElsewhere(look, includes, before, macros, name)
  {
    var rest := includes[1..];
    forall i: nat ensures DefinesAt(look, rest, i, name) <==> DefinesAt(look, includes, i + 1, name) {
    }
    if exists i: nat :: DefinesAt(look, rest, i, name) {
      forall i: nat | LastDefines(look, includes, i, name)
        ensures macros[name] == look(includes[i]).value[name]
      {
        var k: nat :| DefinesAt(look, rest, k, name);
        assert DefinesAt(look, includes, k + 1, name);
        assert i > 0;
        forall j | i - 1 < j < |rest| ensures !DefinesAt(look, rest, j, name) {
          assert !DefinesAt(look, includes, j + 1, name);
        }
        assert LastDefines(look, rest, i - 1, name);
      }
    } else {
      forall i: nat | DefinesAt(look, includes, i, name) ensures i == 0 {
        assert i > 0 ==> DefinesAt(look, rest, i - 1, name);
      }
      if !DefinesAt(look, includes, 0, name) {
        assert name in next <==> name in before;
        assert forall i: nat :: !DefinesAt(look, includes, i, name);
      }
    }
  }

  lemma MacrosSeen(files: Files, look: Look, owner: Path)
    requires owner in files
    ensures MacrosBy(files, look, owner).Ok?
            <==> look("include/globals.h").Ok? && AllHeadersAnswer(look, files[owner].includes)
    ensures MacrosBy(files, look, owner).Ok? ==> Sees(files, look, owner, MacrosBy(files, look, owner).value)
  {
    hide SeesElsewhere, MacrosFrom;
    if look(GLOBAL).Ok? {
      var global := look(GLOBAL).value;
      SeenFrom(look, files[owner].includes, global);
      if MacrosFrom(look, files[owner].includes, global).Ok? {
        var from := MacrosFrom(look, files[owner].includes, global).value;
        forall name | name !in files[owner].macros
          ensures SeesElsewhere(look, files[owner].includes, global, from + files[owner].macros, name)
        {
          SameThere(look, files[owner].includes, global, from, from + files[owner].macros, name);
        }
      }
    }
  }

  lemma SameThere(look: Look, includes: seq<Path>, before: Macros, macros: Macros, other: Macros, name: string)
    requires SeesElsewhere(look, includes, before, macros, name)
    requires (name in macros <==> name in other) && (name in macros ==> macros[name] == other[name])
    ensures SeesElsewhere(look, includes, before, other, name)
  {
  }

  /** Asking without a cache, from inside the headers of a stack. */
  function Under(files: Files, stack: set<Path>): Look {
    h => Plain(files, h, stack)
  }

  lemma {:induction false} PlainLooks(files: Files, includes: seq<Path>, stack: set<Path>, sofar: Macros)
    ensures PlainFrom(files, includes, stack, sofar) == MacrosFrom(Under(files, stack), includes, sofar)
    decreases |includes|
  {
    if includes != [] {
      if !EndsWith(includes[0], ".h") {
        PlainLooks(files, includes[1..], stack, sofar);
      } else if Plain(files, includes[0], stack).Ok? {
        PlainLooks(files, includes[1..], stack, sofar + Plain(files, includes[0], stack).value);
      }
    }
  }

  /** What a header provides: its own definition of a name, else that of the last header it includes
      that provides one; a header inside itself provides nothing. */
  lemma HeaderProvides(files: Files, path: Path, stack: set<Path>)
    ensures path in stack ==> Plain(files, path, stack) == Ok(map[])
    ensures path !in stack ==>
              var inside := Under(files, stack + {path});
              && (Plain(files, path, stack).Ok? <==>
                    path in files && files[path].readable && AllHeadersAnswer(inside, files[path].includes))
              && (Plain(files, path, stack).Ok? ==> forall name ::
                    var macros := Plain(files, path, stack).value;
                    if name in files[path].macros then name in macros && macros[name] == files[path].macros[name]
                    else SeesElsewhere(inside, files[path].includes, map[], macros, name))
  {
    hide SeesElsewhere, MacrosFrom, AllHeadersAnswer;
    if path !in stack && Readable(files, path) {
      var inside := Under(files, stack + {path});
      PlainLooks(files, files[path].includes, stack + {path}, map[]);
      SeenFrom(inside, files[path].includes, map[]);
      if Plain(files, path, stack).Ok? {
        var from := MacrosFrom(inside, files[path].includes, map[]).value;
        forall name | name !in files[path].macros
          ensures SeesElsewhere(inside, files[path].includes, map[], Plain(files, path, stack).value, name)
        {
          SameThere(inside, files[path].includes, map[], from, from + files[path].macros, name);
        }
      }
    }
  }

  /** An edge of a file: to a file it includes, to the global header from a .c file, or to a file that
      one of its inherits expands to. */
  ghost predicate Edge(files: Files, locate: (Path, string) -> Path, path: Path, macros: Macros, p: Path)
    requires path in files
  {
    || p in files[path].includes
    || (|path| >= 2 && path[|path| - 2] == '.' && path[|path| - 1] == 'c' && p == "include/globals.h")
    || (exists i, n: nat, text :: InheritEdge(files, locate, path, macros, i, n, text) && p == locate(path, text))
  }

  ghost predicate InheritEdge(files: Files, locate: (Path, string) -> Path, path: Path, macros: Macros, i: int, n: nat,
                              text: string)
    requires path in files
  {
    && 0 <= i < |files[path].inherits|
    && Becomes(macros, files[path].inherits[i], n, Literal(text)) && locate(path, text) in files
  }

  /** Every inherit expands to the path of a known file. */
  ghost predicate AllInheritsLead(files: Files, locate: (Path, string) -> Path, path: Path, macros: Macros)
    requires path in files
  {
    forall i :: 0 <= i < |files[path].inherits| ==> LeadsToFile(files, locate, path, macros, i)
  }

  ghost predicate LeadsToFile(files: Files, locate: (Path, string) -> Path, path: Path, macros: Macros, i: int)
    requires path in files
  {
    exists n: nat, text :: InheritEdge(files, locate, path, macros, i, n, text)
  }

  lemma LeadsOrNot(files: Files, locate: (Path, string) -> Path, path: Path, macros: Macros, i: nat)
    requires path in files && i < |files[path].inherits|
    ensures var r := ResolveInherit(files, locate, path, files[path].inherits[i], macros, []);
            && (r.Ok? <==> LeadsToFile(files, locate, path, macros, i))
            && (forall n: nat, text :: InheritEdge(files, locate, path, macros, i, n, text) ==>
                  r == Ok(locate(path, text)))
  {
    var e := files[path].inherits[i];
    ResolvesToEnd(files, locate, path, e, macros);
    forall n: nat, text | InheritEdge(files, locate, path, macros, i, n, text)
      ensures ResolveInherit(files, locate, path, e, macros, []) == Ok(locate(path, text))
    {
      assert EndsIn(macros, e, n, Literal(text));
    }
    if ResolveInherit(files, locate, path, e, macros, []).Ok? {
      var n, x := NoCycleEnds(files, locate, path, e, macros, []);
      assert EndsIn(macros, e, n, x);
      assert x.Literal? && InheritEdge(files, locate, path, macros, i, n, x.text);
    }
  }

  lemma {:induction false} InheritedEach(files: Files, locate: (Path, string) -> Path, owner: Path,
                                         inherits: seq<Expr>, macros: Macros)
    ensures var r := Inherited(files, locate, owner, inherits, macros);
            && (r.Ok? <==> forall i :: 0 <= i < |inherits| ==>
                  ResolveInherit(files, locate, owner, inherits[i], macros, []).Ok?)
            && (r.Ok? ==> forall p :: p in r.value <==> exists i ::
                  0 <= i < |inherits| && ResolveInherit(files, locate, owner, inherits[i], macros, []) == Ok(p))
    decreases |inherits|
  {
    hide ResolveInherit;
    if inherits != [] {
      InheritedEach(files, locate, owner, inherits[1..], macros);
      assert inherits == [inherits[0]] + inherits[1..];
      assert forall i :: 0 <= i < |inherits| - 1 ==> inherits[1..][i] == inherits[i + 1];
    }
  }

  /** When a file has dependencies, and which. */
  lemma DependenciesEach(files: Files, locate: (Path, string) -> Path, look: Look, path: Path)
    ensures var r := DepsBy(files, locate, look, path);
            && (r.Ok? <==>
                  && path in files && files[path].readable
                  && look("include/globals.h").Ok? && AllHeadersAnswer(look, files[path].includes)
                  && exists macros ::
                     Sees(files, look, path, macros) && AllInheritsLead(files, locate, path, macros))
            && (r.Ok? ==> forall macros, p ::
                  Sees(files, look, path, macros) ==> (p in r.value <==> Edge(files, locate, path, macros, p)))
            && (!(path in files && files[path].readable) ==> r == Err(Unreadable(path)))
  {
    hide MacrosBy, Inherited, Sees, Becomes, ResolveInherit, InheritEdge, AllHeadersAnswer;
    if path in files && files[path].readable {
      MacrosSeen(files, look, path);
      if MacrosBy(files, look, path).Ok? {
        var macros := MacrosBy(files, look, path).value;
        EdgesOf(files, locate, look, path, macros);
        forall other | Sees(files, look, path, other) ensures other == macros {
          SeenOnce(files, look, path, macros, other);
        }
      }
    }
  }

  lemma SeenOnce(files: Files, look: Look, path: Path, macros: Macros, other: Macros)
    requires path in files && look("include/globals.h").Ok?
    requires Sees(files, look, path, macros) && Sees(files, look, path, other)
    ensures macros == other
  {
    hide DefinesAt, LastDefines;
    var includes := files[path].includes;
    forall name ensures (name in macros <==> name in other) && (name in macros ==> macros[name] == other[name]) {
      if name !in files[path].macros {
        assert SeesElsewhere(look, includes, look("include/globals.h").value, macros, name);
        assert SeesElsewhere(look, includes, look("include/globals.h").value, other, name);
        if i: nat :| DefinesAt(look, includes, i, name) {
          var last := LastOne(look, includes, i, name);
        }
      }
    }
  }

  lemma {:induction false} LastOne(look: Look, includes: seq<Path>, i: nat, name: string) returns (last: nat)
    requires DefinesAt(look, includes, i, name)
    ensures LastDefines(look, includes, last, name)
    decreases |includes| - i
  {
    if j: nat :| i < j < |includes| && DefinesAt(look, includes, j, name) {
      last := LastOne(look, includes, j, name);
    } else {
      last := i;
    }
  }

  lemma EdgesOf(files: Files, locate: (Path, string) -> Path, look: Look, path: Path, macros: Macros)
    requires path in files && files[path].readable && MacrosBy(files, look, path) == Ok(macros)
    ensures DepsBy(files, locate, look, path).Ok? <==> AllInheritsLead(files, locate, path, macros)
    ensures DepsBy(files, locate, look, path).Ok? ==>
              forall p :: p in DepsBy(files, locate, look, path).value <==> Edge(files, locate, path, macros, p)
  {
    hide MacrosBy, Becomes, ResolveInherit, Inherited, InheritEdge, LeadsToFile;
    var inherits := files[path].inherits;
    InheritedEach(files, locate, path, inherits, macros);
    forall i | 0 <= i < |inherits|
      ensures var r := ResolveInherit(files, locate, path, inherits[i], macros, []);
              && (r.Ok? <==> LeadsToFile(files, locate, path, macros, i))
              && (forall n: nat, text :: InheritEdge(files, locate, path, macros, i, n, text) ==>
                    r == Ok(locate(path, text)))
    {
      LeadsOrNot(files, locate, path, macros, i);
    }
    SourceEnds(path);
    if DepsBy(files, locate, look, path).Ok? {
      forall p ensures p in DepsBy(files, locate, look, path).value <==> Edge(files, locate, path, macros, p) {
        EdgeEach(files, locate, path, macros, p);
      }
    }
  }

  lemma SourceEnds(path: Path)
    ensures EndsWith(path, ".c") <==> |path| >= 2 && path[|path| - 2] == '.' && path[|path| - 1] == 'c'
  {
    if |path| >= 2 {
      var last := path[|path| - 2..];
      assert last == [path[|path| - 2], path[|path| - 1]];
    }
  }

  lemma EdgeEach(files: Files, locate: (Path, string) -> Path, path: Path, macros: Macros, p: Path)
    requires path in files
    ensures (exists i, n: nat, text :: InheritEdge(files, locate, path, macros, i, n, text) && p == locate(path, text))
            <==> exists i ::
              && 0 <= i < |files[path].inherits|
              && ResolveInherit(files, locate, path, files[path].inherits[i], macros, []) == Ok(p)
  {
    hide Becomes, ResolveInherit;
    var inherits := files[path].inherits;
    if i, n: nat, text :| InheritEdge(files, locate, path, macros, i, n, text) && p == locate(path, text) {
      LeadsOrNot(files, locate, path, macros, i);
    }
    if i :| 0 <= i < |inherits| && ResolveInherit(files, locate, path, inherits[i], macros, []) == Ok(p) {
      LeadsOrNot(files, locate, path, macros, i);
      var n: nat, text :| InheritEdge(files, locate, path, macros, i, n, text);
    }
  }

  ghost predicate Closed(files: Files, locate: (Path, string) -> Path, look: Look, w: set<Path>) {
    forall q :: q in w && DepsBy(files, locate, look, q).Ok? ==> DepsBy(files, locate, look, q).value <= w
  }

  /** p lies in every closed set that contains the roots, that is, in the least one. */
  ghost predicate Reached(files: Files, locate: (Path, string) -> Path, look: Look, roots: set<Path>, p: Path) {
    forall w: set<Path> :: roots <= w && Closed(files, locate, look, w) ==> p in w
  }

  /** What a resolution promises: with the roots, the files found are the least closed set, every one
      of them has its edges, and an error is that of a file in it. */
  ghost predicate Answers(files: Files, locate: (Path, string) -> Path, look: Look, roots: set<Path>,
                          result: Result<seq<Path>, ClosureError>) {
    match result
    case Ok(found) =>
      forall p :: (p in found || p in roots <==> Reached(files, locate, look, roots, p))
               && (Reached(files, locate, look, roots, p) ==> DepsBy(files, locate, look, p).Ok?)
    case Err(e) =>
      exists p :: Reached(files, locate, look, roots, p) && DepsBy(files, locate, look, p) == Err(e)
  }

  // ---- edges over a growing cache ----

  ghost predicate KeptAll(cache: Cache, includes: seq<Path>) {
    forall h :: h in includes && EndsWith(h, ".h") ==> h in cache
  }

  /** Every header the file's edges depend on is stored. */
  ghost predicate Kept(files: Files, cache: Cache, path: Path) {
    path in files && GLOBAL in cache && KeptAll(cache, files[path].includes)
  }

  lemma {:induction false} KeptSame(files: Files, before: Cache, after: Cache, includes: seq<Path>, sofar: Macros)
    requires Grown(before, after) && KeptAll(before, includes)
    ensures KeptAll(after, includes)
    ensures MacrosFrom(Looked(files, before), includes, sofar) == MacrosFrom(Looked(files, after), includes, sofar)
    decreases |includes|
  {
    hide MemoFrom, Plain;
    if includes == [] {
    } else if EndsWith(includes[0], ".h") {
      assert Looked(files, before)(includes[0]) == Ok(before[includes[0]]) == Looked(files, after)(includes[0]);
      KeptSame(files, before, after, includes[1..], sofar + before[includes[0]]);
    } else {
      KeptSame(files, before, after, includes[1..], sofar);
    }
  }

  lemma DepsSame(files: Files, locate: (Path, string) -> Path, before: Cache, after: Cache, path: Path)
    requires Grown(before, after) && Kept(files, before, path)
    ensures Kept(files, after, path)
    ensures DepsBy(files, locate, Looked(files, before), path) == DepsBy(files, locate, Looked(files, after), path)
  {
    hide MemoFrom, MacrosFrom, Inherited;
    KeptSame(files, before, after, files[path].includes, before[GLOBAL]);
  }

  lemma {:induction false} MacrosFromConcat(look: Look, xs: seq<Path>, ys: seq<Path>, sofar: Macros)
    ensures MacrosFrom(look, xs + ys, sofar)
            == var first := MacrosFrom(look, xs, sofar); if first.Err? then first else MacrosFrom(look, ys, first.value)
    decreases |xs|
  {
    if xs == [] {
      assert xs + ys == ys;
    } else {
      assert (xs + ys)[1..] == xs[1..] + ys;
      MacrosFromConcat(look, xs[1..], ys,
        if EndsWith(xs[0], ".h") && look(xs[0]).Ok? then sofar + look(xs[0]).value else sofar);
    }
  }

  // ---- acyclic headers ----

  ghost predicate Acyclic(files: Files) {
    exists rank: Path -> nat :: Ranked(files, rank)
  }

  /** The headers are acyclic and the cache is sound. */
  ghost predicate Tame(files: Files, cache: Cache) {
    Acyclic(files) && CacheOk(files, cache)
  }

  lemma MemoStaysTame(files: Files, path: Path, cache: Cache)
    requires Tame(files, cache)
    ensures Tame(files, Memo(files, path, {}, cache).1) && Looked(files, cache)(path) == Plainly(files)(path)
  {
    hide Ranked, CacheOk, Memo, Plain;
    var rank: Path -> nat :| Ranked(files, rank);
    MemoAgrees(files, rank, path, {}, cache);
  }

  /** With acyclic headers and a sound cache every answer is fixed. */
  lemma TameIsFixed(files: Files, cache: Cache)
    requires Tame(files, cache)
    ensures Fixed(files, cache)
  {
    hide Memo, Tame;
    forall asked: seq<Path>, h ensures Steady(files, cache, asked, h) {
      if AllAnswer(files, asked, cache) {
        StaysTame(files, asked, cache);
        MemoStaysTame(files, h, cache);
        MemoStaysTame(files, h, CacheAfter(files, asked, cache));
      }
    }
  }

  lemma {:induction false} StaysTame(files: Files, asked: seq<Path>, cache: Cache)
    requires Tame(files, cache)
    ensures Tame(files, CacheAfter(files, asked, cache))
    decreases |asked|
  {
    hide Memo, Tame;
    if asked == [] {
    } else {
      MemoStaysTame(files, asked[0], cache);
      StaysTame(files, asked[1..], Memo(files, asked[0], {}, cache).1);
    }
  }

  ghost predicate SameLook(files: Files, before: Cache, after: Cache) {
    forall h :: Looked(files, before)(h) == Looked(files, after)(h)
  }

  /** Where every answer is fixed, one more answer changes none and leaves them fixed. */
  lemma AskStaysFixed(files: Files, path: Path, cache: Cache)
    requires Fixed(files, cache) && Memo(files, path, {}, cache).0.Ok?
    ensures var filled := Memo(files, path, {}, cache).1; Fixed(files, filled) && SameLook(files, cache, filled)
  {
    hide Memo;
    var filled := Memo(files, path, {}, cache).1;
    forall h ensures Memo(files, h, {}, filled).0 == Memo(files, h, {}, cache).0 {
      assert [path][1..] == [];
      assert Steady(files, cache, [path], h);
      assert AllAnswer(files, [], filled) && CacheAfter(files, [], filled) == filled;
    }
    forall asked: seq<Path>, h ensures Steady(files, filled, asked, h) {
      assert ([path] + asked)[1..] == asked;
      assert Steady(files, cache, [path] + asked, h);
    }
  }

  lemma {:induction false} SameMacros(one: Look, other: Look, includes: seq<Path>, sofar: Macros)
    requires forall h :: one(h) == other(h)
    ensures MacrosFrom(one, includes, sofar) == MacrosFrom(other, includes, sofar)
    decreases |includes|
  {
    if includes != [] {
      SameMacros(one, other, includes[1..],
        if EndsWith(includes[0], ".h") && one(includes[0]).Ok? then sofar + one(includes[0]).value else sofar);
    }
  }

  lemma SameDeps(files: Files, locate: (Path, string) -> Path, one: Look, other: Look, path: Path)
    requires forall h :: one(h) == other(h)
    ensures DepsBy(files, locate, one, path) == DepsBy(files, locate, other, path)
  {
    hide MacrosFrom, Inherited;
    if Readable(files, path) && one(GLOBAL).Ok? {
      SameMacros(one, other, files[path].includes, one(GLOBAL).value);
    }
  }

  /** For acyclic headers the edges, and so the answer, do not depend on the cache, that is, on
      what was asked before and in which order. */
  lemma TameAnswers(files: Files, locate: (Path, string) -> Path, cache: Cache, roots: set<Path>,
                    result: Result<seq<Path>, ClosureError>)
    requires Tame(files, cache) && Answers(files, locate, Looked(files, cache), roots, result)
    ensures Answers(files, locate, Plainly(files), roots, result)
  {
    hide Tame, DepsBy;
    var one, other := Looked(files, cache), Plainly(files);
    forall h ensures one(h) == other(h) { MemoStaysTame(files, h, cache); }
    forall p
      ensures DepsBy(files, locate, one, p) == DepsBy(files, locate, other, p)
    {
      SameDeps(files, locate, one, other, p);
    }
    forall w ensures Closed(files, locate, one, w) == Closed(files, locate, other, w) { }
    forall p ensures Reached(files, locate, one, roots, p) == Reached(files, locate, other, roots, p) { }
  }

  class ClosureResolver {
    const files: Files
    const locate: (Path, string) -> Path
    var cache: Cache
    var stack: set<Path>

    constructor (files: Files, locate: (Path, string) -> Path)
      ensures this.files == files && this.locate == locate && cache == map[] && stack == {}
    {
      this.files, this.locate := files, locate;
      cache, stack := map[], {};
    }

    /** The macro table of a header, cached; an error leaves the resolver unusable. */
    method HeaderMacros(path: Path) returns (table: Table)
      modifies this
      ensures (table, cache) == Memo(files, path, old(stack), old(cache))
      ensures table.Ok? ==> stack == old(stack)
      decreases files.Keys - stack
    {
      if path in cache {
        return Ok(cache[path]);
      }
      if path in stack {
        return Ok(map[]);
      }
      if !Readable(files, path) {
        return Err(Unreadable(path));
      }
      ghost var before := stack;
      stack := stack + {path};
      ghost var inside := stack;
      var macros: Macros := map[];
      var rest := files[path].includes;
      while rest != []
        invariant stack == inside
        invariant MemoFrom(files, rest, stack, macros, cache)
          == MemoFrom(files, files[path].includes, inside, map[], old(cache))
        decreases |rest|
      {
        if EndsWith(rest[0], ".h") {
          var included := HeaderMacros(rest[0]);
          if included.Err? {
            return Err(included.error);
          }
          macros := macros + included.value;
        }
        rest := rest[1..];
      }
      macros := macros + files[path].macros;
      stack := stack - {path};
      assert stack == before;
      cache := cache[path := macros];
      table := Ok(macros);
    }

    /** The macros a file sees.  Asking again with the cache it leaves behind gives the same. */
    method MacrosFor(owner: Path) returns (table: Table)
      requires stack == {} && owner in files
      modifies this
      ensures table == MacrosBy(files, Looked(files, cache), owner)
      ensures Grown(old(cache), cache) && (old(Tame(files, cache)) ==> Tame(files, cache))
      ensures table.Ok? ==> stack == {} && Kept(files, cache, owner)
      ensures old(Fixed(files, cache)) ==>
        && table == MacrosBy(files, Looked(files, old(cache)), owner)
        && (table.Ok? ==> Fixed(files, cache) && SameLook(files, old(cache), cache))
    {
      hide Memo, MemoFrom, MacrosFrom, Tame, KeptAll, Fixed;
      ghost var fixed, start := Fixed(files, cache), cache;
      table := Ask(GLOBAL);
      if table.Err? {
        return;
      }
      var macros := table.value;
      ghost var global := macros;
      var rest := files[owner].includes;
      ghost var done: seq<Path> := [];
      NoIncludes(Looked(files, cache), cache, global);
      NoIncludes(Looked(files, start), cache, global);
      while rest != []
        invariant stack == {} && done + rest == files[owner].includes
        invariant Grown(old(cache), cache) && (old(Tame(files, cache)) ==> Tame(files, cache))
        invariant GLOBAL in cache && Looked(files, cache)(GLOBAL) == Ok(global) && KeptAll(cache, done)
        invariant MacrosFrom(Looked(files, cache), done, global) == Ok(macros)
        invariant fixed ==> Fixed(files, cache) && SameLook(files, start, cache)
        invariant fixed ==> MacrosFrom(Looked(files, start), done, global) == Ok(macros)
        decreases |rest|
      {
        ghost var before := cache;
        if fixed { Include(Looked(files, start), before, done, rest, global); }
        if EndsWith(rest[0], ".h") {
          table := Ask(rest[0]);
          KeptSame(files, before, cache, done, global);
          Include(Looked(files, cache), cache, done, rest, global);
          if table.Err? {
            return;
          }
          macros := macros + table.value;
        } else {
          Include(Looked(files, cache), cache, done, rest, global);
        }
        done := done + [rest[0]];
        rest := rest[1..];
      }
      assert done == files[owner].includes;
      table := Ok(macros + files[owner].macros);
    }

    /** A header asked for from outside: its table is stored, an error repeats itself. */
    method Ask(path: Path) returns (table: Table)
      requires stack == {}
      modifies this
      ensures table == Looked(files, cache)(path) && Grown(old(cache), cache)
      ensures old(Tame(files, cache)) ==> Tame(files, cache)
      ensures table.Ok? ==> stack == {} && path in cache
      ensures forall p :: p in old(cache) ==> Looked(files, cache)(p) == Looked(files, old(cache))(p)
      ensures table == Looked(files, old(cache))(path)
      ensures old(Fixed(files, cache)) && table.Ok? ==> Fixed(files, cache) && SameLook(files, old(cache), cache)
    {
      hide MemoFrom, Tame, Fixed;
      ghost var before := cache;
      table := HeaderMacros(path);
      MemoGrows(files, path, {}, before);
      if table.Err? {
        MemoFailsAgain(files, path, {}, before);
      }
      if Tame(files, before) {
        MemoStaysTame(files, path, before);
      }
      if Fixed(files, before) && table.Ok? {
        AskStaysFixed(files, path, before);
      }
    }

    /** The dependencies of one file. */
    method Dependencies(path: Path) returns (deps: Result<set<Path>, ClosureError>)
      requires stack == {}
      modifies this
      ensures deps == DepsBy(files, locate, Looked(files, cache), path)
      ensures Grown(old(cache), cache) && (old(Tame(files, cache)) ==> Tame(files, cache))
      ensures deps.Ok? ==> stack == {} && Kept(files, cache, path)
      ensures old(Fixed(files, cache)) ==>
        && deps == DepsBy(files, locate, Looked(files, old(cache)), path)
        && (deps.Ok? ==> Fixed(files, cache) && SameLook(files, old(cache), cache))
    {
      hide Tame, Looked, MacrosBy, ResolveInherit, Kept, Fixed, SameLook;
      if !Readable(files, path) {
        return Err(Unreadable(path));
      }
      var table := MacrosFor(path);
      if table.Err? {
        return Err(table.error);
      }
      var inherited: set<Path> := {};
      var rest := files[path].inherits;
      ghost var filled := cache;
      WithNothing(Inherited(files, locate, path, rest, table.value));
      while rest != []
        invariant stack == {} && cache == filled
        invariant Inherited(files, locate, path, files[path].inherits, table.value)
                  == With(inherited, Inherited(files, locate, path, rest, table.value))
        decreases |rest|
      {
        var resolved := ResolveInherit(files, locate, path, rest[0], table.value, []);
        if resolved.Err? {
          return Err(resolved.error);
        }
        Regroup(files, locate, path, rest, table.value, inherited, resolved.value);
        inherited := inherited + {resolved.value};
        rest := rest[1..];
      }
      assert inherited + {} == inherited;
      deps := Ok(Direct(files, path) + inherited);
    }

    method SortedPaths(paths: set<Path>) returns (list: seq<Path>)
      ensures Sorted(StringLeq(), list) && forall p :: p in list <==> p in paths
    {
      list := [];
      var rest := paths;
      while rest != {}
        invariant forall p :: p in paths <==> p in list || p in rest
      {
        var p :| p in rest;
        rest := rest - {p};
        list := list + [p];
      }
      StringOrder();
      SortSorts(StringLeq(), list);
      ghost var unsorted := list;
      list := Sort(StringLeq(), list);
      forall p ensures p in list <==> p in unsorted {
        assert p in multiset(list) <==> p in multiset(unsorted);
      }
    }

    /** The files, other than the roots, that the roots depend on directly or indirectly.  On any
        header graph they are the least closed set of the edges that the final cache gives; where no
        answer depends on what is asked, of the edges that the first cache gives; on acyclic headers,
        of the edges as they are without a cache. */
    method Resolve(roots: set<Path>) returns (result: Result<seq<Path>, ClosureError>)
      requires stack == {}
      modifies this
      ensures !(roots <= files.Keys) ==> result == Err(MissingRoots)
      ensures result.Ok? ==> Sorted(StringLeq(), result.value) && forall p :: p in result.value ==> p !in roots
      ensures roots <= files.Keys ==> Answers(files, locate, Looked(files, cache), roots, result)
      ensures roots <= files.Keys && old(Fixed(files, cache)) ==>
        Answers(files, locate, Looked(files, old(cache)), roots, result)
      ensures roots <= files.Keys && old(Tame(files, cache)) ==> Answers(files, locate, Plainly(files), roots, result)
      ensures old(Tame(files, cache)) ==> Tame(files, cache)
    {
      hide DepsBy, Tame, Reached, Sorted, Looked, Kept, Grown, Via, Answers, Fixed, SameLook, EdgesBy, EdgesHold;
      if !(roots <= files.Keys) {
        return Err(MissingRoots);
      }
      ghost var fixed, start := Fixed(files, cache), cache;
      RootsVia(map[], roots);
      NoEdges(files, locate, cache);
      var visited: set<Path> := {};
      ghost var edges: Edges := map[];
      var pending := SortedPaths(roots);
      while pending != []
        invariant stack == {} && visited <= files.Keys && edges.Keys == visited
        invariant forall r :: r in roots ==> r in visited || r in pending
        invariant old(Tame(files, cache)) ==> Tame(files, cache)
        invariant forall p :: p in visited || p in pending ==> Via(edges, roots, p)
        invariant EdgesHold(files, locate, cache, edges)
        invariant fixed ==> Fixed(files, cache) && SameLook(files, start, cache)
        invariant fixed ==> EdgesBy(files, locate, Looked(files, start), edges)
        invariant forall p, q :: p in visited && q in edges[p] ==> q in visited || q in pending
        decreases files.Keys - visited, |pending|
      {
        var path := pending[|pending| - 1];
        ghost var earlier := pending;
        pending := pending[..|pending| - 1];
        assert forall p :: p in earlier <==> p in pending || p == path;
        if path !in visited {
          ghost var before := cache;
          var deps := Dependencies(path);
          StillHold(files, locate, before, cache, edges);
          if fixed { SameDepsLater(files, locate, start, before, cache, path); }
          if deps.Err? {
            FailureAnswers(files, locate, Looked(files, cache), roots, edges, path, deps.error);
            if fixed { FailureAnswers(files, locate, Looked(files, start), roots, edges, path, deps.error); }
            if old(Tame(files, cache)) { TameAnswers(files, locate, cache, roots, Err(deps.error)); }
            return Err(deps.error);
          }
          KeptReadable(files, cache, path);
          MoreVia(edges, roots, path, deps.value);
          MoreHold(files, locate, cache, edges, path, deps.value);
          if fixed { MoreEdges(files, locate, Looked(files, start), edges, path, deps.value); }
          visited := visited + {path};
          edges := edges[path := deps.value];
          var more := SortedPaths(deps.value - visited);
          pending := pending + more;
        }
      }
      var list := SortedPaths(visited - roots);
      result := Ok(list);
      VisitedAnswers(files, locate, Looked(files, cache), roots, edges, list);
      if fixed { VisitedAnswers(files, locate, Looked(files, start), roots, edges, list); }
      if old(Tame(files, cache)) { TameAnswers(files, locate, cache, roots, result); }
    }
  }

  lemma NoIncludes(look: Look, cache: Cache, macros: Macros)
    ensures MacrosFrom(look, [], macros) == Ok(macros) && KeptAll(cache, [])
  {
  }

  /** The next include of a file. */
  lemma Include(look: Look, cache: Cache, done: seq<Path>, rest: seq<Path>, global: Macros)
    requires rest != [] && MacrosFrom(look, done, global).Ok? && KeptAll(cache, done)
    ensures done + [rest[0]] + rest[1..] == done + rest
    ensures EndsWith(rest[0], ".h") && look(rest[0]).Err? ==> MacrosFrom(look, done + rest, global) == look(rest[0])
    ensures EndsWith(rest[0], ".h") && look(rest[0]).Ok? ==>
      MacrosFrom(look, done + [rest[0]], global) == Ok(MacrosFrom(look, done, global).value + look(rest[0]).value)
    ensures !EndsWith(rest[0], ".h") ==> MacrosFrom(look, done + [rest[0]], global) == MacrosFrom(look, done, global)
    ensures rest[0] in cache || !EndsWith(rest[0], ".h") ==> KeptAll(cache, done + [rest[0]])
  {
    hide MacrosFrom, EndsWith;
    var macros := MacrosFrom(look, done, global).value;
    MacrosFromConcat(look, done, rest, global);
    MacrosFromConcat(look, done, [rest[0]], global);
    FirstInclude(look, rest, macros);
    FirstInclude(look, [rest[0]], macros);
    assert [rest[0]][1..] == [];
    NoIncludes(look, cache, macros);
    if EndsWith(rest[0], ".h") && look(rest[0]).Ok? {
      NoIncludes(look, cache, macros + look(rest[0]).value);
    }
    assert done + [rest[0]] + rest[1..] == done + rest;
  }

  lemma FirstInclude(look: Look, includes: seq<Path>, macros: Macros)
    requires includes != []
    ensures MacrosFrom(look, includes, macros)
            == if !EndsWith(includes[0], ".h") then MacrosFrom(look, includes[1..], macros)
               else if look(includes[0]).Err? then look(includes[0])
               else MacrosFrom(look, includes[1..], macros + look(includes[0]).value)
  {
  }

  lemma KeptReadable(files: Files, cache: Cache, path: Path)
    requires Kept(files, cache, path)
    ensures path in files
  {
  }

  // ---- the edges seen so far ----

  type Edges = map<Path, set<Path>>

  /** p lies in every set that contains the roots and follows the edges. */
  ghost predicate Via(edges: Edges, roots: set<Path>, p: Path) {
    forall w: set<Path> :: roots <= w && (forall q :: q in w && q in edges ==> edges[q] <= w) ==> p in w
  }

  /** The edges are those of the files under this way of asking. */
  ghost predicate EdgesBy(files: Files, locate: (Path, string) -> Path, look: Look, edges: Edges) {
    forall p :: p in edges ==> DepsBy(files, locate, look, p) == Ok(edges[p])
  }

  /** The edges are those the cache gives, and will stay so. */
  ghost predicate EdgesHold(files: Files, locate: (Path, string) -> Path, cache: Cache, edges: Edges)
    ensures EdgesHold(files, locate, cache, edges) ==> EdgesBy(files, locate, Looked(files, cache), edges)
  {
    EdgesBy(files, locate, Looked(files, cache), edges) && forall p :: p in edges ==> Kept(files, cache, p)
  }

  lemma NoEdges(files: Files, locate: (Path, string) -> Path, cache: Cache)
    ensures EdgesHold(files, locate, cache, map[]) && EdgesBy(files, locate, Looked(files, cache), map[])
    ensures SameLook(files, cache, cache)
  {
  }

  lemma StillHold(files: Files, locate: (Path, string) -> Path, before: Cache, after: Cache, edges: Edges)
    requires EdgesHold(files, locate, before, edges) && Grown(before, after)
    ensures EdgesHold(files, locate, after, edges)
  {
    hide Grown, Kept, DepsBy, Looked;
    forall p | p in edges
      ensures Kept(files, after, p) && DepsBy(files, locate, Looked(files, after), p) == Ok(edges[p])
    {
      DepsSame(files, locate, before, after, p);
    }
  }

  lemma MoreEdges(files: Files, locate: (Path, string) -> Path, look: Look, edges: Edges, path: Path, deps: set<Path>)
    requires EdgesBy(files, locate, look, edges) && DepsBy(files, locate, look, path) == Ok(deps)
    ensures EdgesBy(files, locate, look, edges[path := deps])
  {
    hide DepsBy;
  }

  lemma MoreHold(files: Files, locate: (Path, string) -> Path, cache: Cache, edges: Edges, path: Path, deps: set<Path>)
    requires EdgesHold(files, locate, cache, edges) && Kept(files, cache, path)
    requires DepsBy(files, locate, Looked(files, cache), path) == Ok(deps)
    ensures EdgesHold(files, locate, cache, edges[path := deps])
  {
    hide DepsBy, Kept, Looked;
  }

  /** Fixed answers: the edges found with a later cache are those of the first one. */
  lemma SameDepsLater(files: Files, locate: (Path, string) -> Path, start: Cache, before: Cache, after: Cache,
                      path: Path)
    requires SameLook(files, start, before)
    ensures DepsBy(files, locate, Looked(files, start), path) == DepsBy(files, locate, Looked(files, before), path)
    ensures SameLook(files, before, after) ==> SameLook(files, start, after)
  {
    hide Looked, DepsBy;
    SameDeps(files, locate, Looked(files, start), Looked(files, before), path);
  }

  lemma RootsVia(edges: Edges, roots: set<Path>)
    ensures forall r :: r in roots ==> Via(edges, roots, r)
  {
  }

  /** One more file with its edges: what was reached stays so, and its edges lead on. */
  lemma MoreVia(edges: Edges, roots: set<Path>, path: Path, deps: set<Path>)
    requires path !in edges && Via(edges, roots, path)
    ensures forall p :: Via(edges, roots, p) || p in deps ==> Via(edges[path := deps], roots, p)
  {
    var more := edges[path := deps];
    forall w: set<Path>, p | roots <= w && (forall q :: q in w && q in more ==> more[q] <= w)
      && (Via(edges, roots, p) || p in deps)
      ensures p in w
    {
      assert forall q :: q in w && q in edges ==> q in more && edges[q] <= w;
    }
  }

  lemma ViaReached(files: Files, locate: (Path, string) -> Path, look: Look, roots: set<Path>, edges: Edges, p: Path)
    requires EdgesBy(files, locate, look, edges) && Via(edges, roots, p)
    ensures Reached(files, locate, look, roots, p)
  {
    hide DepsBy;
  }

  lemma FailureAnswers(files: Files, locate: (Path, string) -> Path, look: Look, roots: set<Path>, edges: Edges,
                       path: Path, e: ClosureError)
    requires EdgesBy(files, locate, look, edges) && Via(edges, roots, path)
    requires DepsBy(files, locate, look, path) == Err(e)
    ensures Answers(files, locate, look, roots, Err(e))
  {
    hide DepsBy, Via, Reached, EdgesBy;
    ViaReached(files, locate, look, roots, edges, path);
  }

  lemma VisitedAnswers(files: Files, locate: (Path, string) -> Path, look: Look, roots: set<Path>, edges: Edges,
                       found: seq<Path>)
    requires EdgesBy(files, locate, look, edges) && roots <= edges.Keys
      && (forall p :: p in edges ==> Via(edges, roots, p))
    requires forall p, q :: p in edges && q in edges[p] ==> q in edges
    requires forall p :: p in found <==> p in edges && p !in roots
    ensures Answers(files, locate, look, roots, Ok(found))
  {
    hide DepsBy, Via;
    assert Closed(files, locate, look, edges.Keys);
    forall p ensures Reached(files, locate, look, roots, p) <==> p in edges {
      if p in edges { ViaReached(files, locate, look, roots, edges, p); }
    }
  }

  function With(some: set<Path>, more: Result<set<Path>, ClosureError>): Result<set<Path>, ClosureError> {
    if more.Err? then more else Ok(some + more.value)
  }

  lemma WithNothing(more: Result<set<Path>, ClosureError>)
    ensures With({}, more) == more
  {
    if more.Ok? {
      assert {} + more.value == more.value;
    }
  }

  lemma Regroup(files: Files, locate: (Path, string) -> Path, owner: Path, rest: seq<Expr>, macros: Macros,
                inherited: set<Path>, p: Path)
    requires rest != [] && ResolveInherit(files, locate, owner, rest[0], macros, []) == Ok(p)
    ensures With(inherited, Inherited(files, locate, owner, rest, macros))
      == With(inherited + {p}, Inherited(files, locate, owner, rest[1..], macros))
  {
    var tail := Inherited(files, locate, owner, rest[1..], macros);
    if tail.Ok? {
      assert inherited + ({p} + tail.value) == inherited + {p} + tail.value;
    }
  }
}
