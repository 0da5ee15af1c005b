/** Memoised queries on the link graph, against their definitions without memory. */
module GraphQueries {
  import opened BuildTypes
  import opened Wrappers

  /** A target, or a source whose preferred object is linked into one. */
  ghost predicate IsUnit(g: Graph, u: Path)
  {
    if u.kind == SourceFile then exists t :: LinkedInto(g, u, t) && t in g.targets else u in g.targets
  }

  /** The queries go from a target to the files it lists, from a source to those of its target, and stop at object files. */
  ghost predicate Next(g: Graph, u: Path, f: Path)
  {
    && u.kind != ObjectFile
    && if u.kind == SourceFile then exists t :: LinkedInto(g, u, t) && Lists(g, t, f) else Lists(g, u, f)
  }

  /** The files of a link unit; for a source, those of the target its preferred object is linked into. */
  function UnitFiles(g: Graph, u: Path): (r: Option<seq<Path>>)
    ensures r.Some? <==> IsUnit(g, u)
    ensures r.Some? && u.kind != ObjectFile ==> forall f :: f in r.value <==> Next(g, u, f)
    ensures r.None? ==> forall f :: !Next(g, u, f)
  {
    if u.kind == SourceFile then
      if u !in g.sources || g.sources[u] == [] || g.sources[u][0] !in g.objects then None
      else
        var unit := g.objects[g.sources[u][0]].linkUnit;
        if unit.None? || unit.value !in g.targets then None
        else
          assert LinkedInto(g, u, unit.value);
          Some(g.targets[unit.value].files)
    else if u in g.targets then Some(g.targets[u].files)
    else None
  }

  ghost predicate Acyclic(g: Graph, rank: Path -> nat)
  {
    forall u, f :: Next(g, u, f) ==> rank(f) < rank(u)
  }

  // ---- does a unit contain an object of a source?

  function Contains(g: Graph, ghost rank: Path -> nat, source: Path, u: Path): Result<bool>
    requires Acyclic(g, rank)
    decreases rank(u), 1
  {
    if u.kind == ObjectFile then
      if u in g.objects then Ok(g.objects[u].source == source) else Err
    else if UnitFiles(g, u).None? then Err
    else ContainsAny(g, rank, source, u, |UnitFiles(g, u).value|)
  }

  /** Does one of the first `n` files contain it? Every file is asked. */
  function ContainsAny(g: Graph, ghost rank: Path -> nat, source: Path, u: Path, n: nat): Result<bool>
    requires Acyclic(g, rank) && u.kind != ObjectFile && UnitFiles(g, u).Some? && n <= |UnitFiles(g, u).value|
    decreases rank(u), 0, n
  {
    if n == 0 then Ok(false)
    else
      var f := UnitFiles(g, u).value[n - 1];
      assert Next(g, u, f);
      var before := ContainsAny(g, rank, source, u, n - 1);
      var sub := Contains(g, rank, source, f);
      if before.Err? || sub.Err? then Err else Ok(before.value || sub.value)
  }

  ghost predicate ContainsCache(g: Graph, rank: Path -> nat, source: Path, cache: map<Path, bool>)
    requires Acyclic(g, rank)
  {
    forall u :: u in cache ==> Contains(g, rank, source, u) == Ok(cache[u])
  }

  method ContainsSourceFilePath(g: Graph, ghost rank: Path -> nat, source: Path, u: Path, cache: map<Path, bool>)
    returns (r: Result<bool>, cache': map<Path, bool>)
    requires Acyclic(g, rank) && ContainsCache(g, rank, source, cache)
    ensures r == Contains(g, rank, source, u) && ContainsCache(g, rank, source, cache')
    decreases rank(u)
  {
    cache' := cache;
    if u in cache {
      return Ok(cache[u]), cache;
    }
    if u.kind == ObjectFile {
      if u !in g.objects {
        return Err, cache;
      }
      var isSame := g.objects[u].source == source;
      return Ok(isSame), cache[u := isSame];
    }
    var files := UnitFiles(g, u);
    if files.None? {
      return Err, cache;
    }
    var result := false;
    for i := 0 to |files.value|
      invariant ContainsAny(g, rank, source, u, i) == Ok(result) && ContainsCache(g, rank, source, cache')
    {
      assert Next(g, u, files.value[i]);
      var sub;
      sub, cache' := ContainsSourceFilePath(g, rank, source, files.value[i], cache');
      if sub.Err? {
        ContainsErrStays(g, rank, source, u, i + 1);
        return Err, cache';
      }
      result := result || sub.value;
    }
    r, cache' := Ok(result), cache'[u := result];
  }

  lemma {:induction false} ContainsErrStays(g: Graph, rank: Path -> nat, source: Path, u: Path, n: nat)
    requires Acyclic(g, rank) && u.kind != ObjectFile && UnitFiles(g, u).Some? && n <= |UnitFiles(g, u).value|
    requires ContainsAny(g, rank, source, u, n).Err?
    ensures ContainsAny(g, rank, source, u, |UnitFiles(g, u).value|).Err?
    decreases |UnitFiles(g, u).value| - n
  {
    if n < |UnitFiles(g, u).value| { ContainsErrStays(g, rank, source, u, n + 1); }
  }

  /** A way down from a unit. */
  ghost predicate Way(g: Graph, p: seq<Path>)
  {
    p != [] && forall i :: 0 <= i < |p| - 1 ==> Next(g, p[i], p[i + 1])
  }

  lemma WayCons(g: Graph, u: Path, p: seq<Path>)
    requires p != []
    ensures Way(g, [u] + p) <==> Next(g, u, p[0]) && Way(g, p)
  {
    var q := [u] + p;
    if Way(g, q) {
      assert Next(g, q[0], q[1]);
      forall i | 0 <= i < |p| - 1 ensures Next(g, p[i], p[i + 1]) { assert Next(g, q[i + 1], q[i + 2]); }
    }
    if Next(g, u, p[0]) && Way(g, p) {
      forall i | 0 <= i < |q| - 1 ensures Next(g, q[i], q[i + 1]) {
        if i > 0 { assert Next(g, p[i - 1], p[i]); }
      }
    }
  }

  /** A way from a unit down to an object file. */
  ghost predicate LeafPath(g: Graph, p: seq<Path>)
  {
    Way(g, p) && p[|p| - 1].kind == ObjectFile
  }

  lemma LeafPathCons(g: Graph, u: Path, p: seq<Path>)
    requires p != []
    ensures LeafPath(g, [u] + p) <==> Next(g, u, p[0]) && LeafPath(g, p)
  {
    WayCons(g, u, p);
    assert ([u] + p)[|p|] == p[|p| - 1];
  }

  lemma ObjectsAreLeaves(g: Graph, p: seq<Path>)
    requires |p| > 1 && p[0].kind == ObjectFile
    ensures !LeafPath(g, p)
  {
    assert !Next(g, p[0], p[1]);
  }

  /** A unit reaches an object compiled from `source`. */
  ghost predicate Reaches(g: Graph, source: Path, u: Path)
  {
    exists p :: LeafPath(g, p) && p[0] == u && LeafOf(g, p[|p| - 1], source)
  }

  predicate LeafOf(g: Graph, o: Path, source: Path) { o in g.objects && g.objects[o].source == source }

  lemma ReachesStep(g: Graph, source: Path, u: Path)
    requires u.kind != ObjectFile
    ensures Reaches(g, source, u) <==> exists f :: Next(g, u, f) && Reaches(g, source, f)
  {
    if Reaches(g, source, u) {
      var p :| LeafPath(g, p) && p[0] == u && LeafOf(g, p[|p| - 1], source);
      assert [u] + p[1..] == p;
      LeafPathCons(g, u, p[1..]);
      assert Next(g, u, p[1]) && Reaches(g, source, p[1]);
    }
    if f :| Next(g, u, f) && Reaches(g, source, f) {
      var p :| LeafPath(g, p) && p[0] == f && LeafOf(g, p[|p| - 1], source);
      LeafPathCons(g, u, p);
      assert ([u] + p)[|p|] == p[|p| - 1];
    }
  }

  /** The query answers reachability of an object of the source. */
  lemma {:induction false} ContainsIsReachability(g: Graph, rank: Path -> nat, source: Path, u: Path)
    requires Acyclic(g, rank) && Contains(g, rank, source, u).Ok?
    ensures Contains(g, rank, source, u).value <==> Reaches(g, source, u)
    decreases rank(u), 1
  {
    if u.kind == ObjectFile {
      assert LeafPath(g, [u]);
      forall p: seq<Path> | |p| > 1 && p[0] == u ensures !LeafPath(g, p) { ObjectsAreLeaves(g, p); }
    } else {
      ContainsAnyIsReachability(g, rank, source, u, |UnitFiles(g, u).value|);
      ReachesStep(g, source, u);
      forall f | Next(g, u, f) ensures exists i :: 0 <= i < |UnitFiles(g, u).value| && UnitFiles(g, u).value[i] == f {}
    }
  }

  lemma {:induction false} ContainsAnyIsReachability(g: Graph, rank: Path -> nat, source: Path, u: Path, n: nat)
    requires Acyclic(g, rank) && u.kind != ObjectFile && UnitFiles(g, u).Some? && n <= |UnitFiles(g, u).value|
    requires ContainsAny(g, rank, source, u, n).Ok?
    ensures ContainsAny(g, rank, source, u, n).value <==>
      exists i :: 0 <= i < n && Reaches(g, source, UnitFiles(g, u).value[i])
    decreases rank(u), 0, n
  {
    if n > 0 {
      assert Next(g, u, UnitFiles(g, u).value[n - 1]);
      ContainsAnyIsReachability(g, rank, source, u, n - 1);
      ContainsIsReachability(g, rank, source, UnitFiles(g, u).value[n - 1]);
    }
  }

  // ---- how many object files does a unit contain?

  function Count(g: Graph, ghost rank: Path -> nat, u: Path): Result<nat>
    requires Acyclic(g, rank)
    decreases rank(u), 1
  {
    if u.kind == ObjectFile then Ok(1)
    else if UnitFiles(g, u).None? then Err
    else CountOfFiles(g, rank, u, |UnitFiles(g, u).value|)
  }

  function CountOfFiles(g: Graph, ghost rank: Path -> nat, u: Path, n: nat): Result<nat>
    requires Acyclic(g, rank) && u.kind != ObjectFile && UnitFiles(g, u).Some? && n <= |UnitFiles(g, u).value|
    decreases rank(u), 0, n
  {
    if n == 0 then Ok(0)
    else
      var f := UnitFiles(g, u).value[n - 1];
      assert Next(g, u, f);
      var before := CountOfFiles(g, rank, u, n - 1);
      var sub := Count(g, rank, f);
      if before.Err? || sub.Err? then Err else Ok(before.value + sub.value)
  }

  ghost predicate CountCache(g: Graph, rank: Path -> nat, cache: map<Path, nat>)
    requires Acyclic(g, rank)
  {
    forall u :: u in cache ==> Count(g, rank, u) == Ok(cache[u])
  }

  /** Object files are counted without being remembered. */
  method NumberOfSources(g: Graph, ghost rank: Path -> nat, u: Path, cache: map<Path, nat>)
    returns (r: Result<nat>, cache': map<Path, nat>)
    requires Acyclic(g, rank) && CountCache(g, rank, cache)
    ensures r == Count(g, rank, u) && CountCache(g, rank, cache')
    decreases rank(u)
  {
    cache' := cache;
    if u in cache {
      return Ok(cache[u]), cache;
    }
    if u.kind == ObjectFile {
      return Ok(1), cache;
    }
    var files := UnitFiles(g, u);
    if files.None? {
      return Err, cache;
    }
    var result := 0;
    for i := 0 to |files.value|
      invariant CountOfFiles(g, rank, u, i) == Ok(result) && CountCache(g, rank, cache')
    {
      assert Next(g, u, files.value[i]);
      var sub;
      sub, cache' := NumberOfSources(g, rank, files.value[i], cache');
      if sub.Err? {
        CountErrStays(g, rank, u, i + 1);
        return Err, cache';
      }
      result := result + sub.value;
    }
    r, cache' := Ok(result), cache'[u := result];
  }

  lemma {:induction false} CountErrStays(g: Graph, rank: Path -> nat, u: Path, n: nat)
    requires Acyclic(g, rank) && u.kind != ObjectFile && UnitFiles(g, u).Some? && n <= |UnitFiles(g, u).value|
    requires CountOfFiles(g, rank, u, n).Err?
    ensures CountOfFiles(g, rank, u, |UnitFiles(g, u).value|).Err?
    decreases |UnitFiles(g, u).value| - n
  {
    if n < |UnitFiles(g, u).value| { CountErrStays(g, rank, u, n + 1); }
  }

  /** No unit has a file twice: files are kept in a set. */
  ghost predicate FilesDistinct(g: Graph)
  {
    forall t, i, j :: t in g.targets && 0 <= i < j < |g.targets[t].files| ==>
      g.targets[t].files[i] != g.targets[t].files[j]
  }

  ghost function Paths(g: Graph, rank: Path -> nat, u: Path): set<seq<Path>>
    requires Acyclic(g, rank)
    decreases rank(u), 1
  {
    if u.kind == ObjectFile then {[u]}
    else if UnitFiles(g, u).None? then {}
    else PathsThrough(g, rank, u, |UnitFiles(g, u).value|)
  }

  /** The leaf paths of `u` that go through its first `n` files. */
  ghost function PathsThrough(g: Graph, rank: Path -> nat, u: Path, n: nat): set<seq<Path>>
    requires Acyclic(g, rank) && u.kind != ObjectFile && UnitFiles(g, u).Some? && n <= |UnitFiles(g, u).value|
    decreases rank(u), 0, n
  {
    if n == 0 then {}
    else
      var f := UnitFiles(g, u).value[n - 1];
      assert Next(g, u, f);
      PathsThrough(g, rank, u, n - 1) + Prefixed(u, Paths(g, rank, f))
  }

  function Prefixed(u: Path, ps: set<seq<Path>>): set<seq<Path>> { set p | p in ps :: [u] + p }

  lemma {:induction false} PrefixedSize(u: Path, ps: set<seq<Path>>)
    ensures |Prefixed(u, ps)| == |ps|
    decreases |ps|
  {
    if ps != {} {
      var p :| p in ps;
      PrefixedSize(u, ps - {p});
      assert Prefixed(u, ps) == Prefixed(u, ps - {p}) + {[u] + p};
      forall q | q in ps - {p} ensures [u] + q != [u] + p { assert ([u] + q)[1..] == q && ([u] + p)[1..] == p; }
    }
  }

  /** These are all the leaf paths from `u`. */
  lemma {:induction false} PathsAreLeafPaths(g: Graph, rank: Path -> nat, u: Path, p: seq<Path>)
    requires Acyclic(g, rank)
    ensures p in Paths(g, rank, u) <==> LeafPath(g, p) && p[0] == u
    decreases rank(u), 1
  {
    if u.kind == ObjectFile {
      if |p| > 1 && p[0] == u { ObjectsAreLeaves(g, p); }
      assert |p| == 1 && p[0] == u ==> p == [u];
    } else {
      if UnitFiles(g, u).Some? { PathsThroughAreLeafPaths(g, rank, u, |UnitFiles(g, u).value|, p); }
      if LeafPath(g, p) && p[0] == u {
        assert [u] + p[1..] == p;
        LeafPathCons(g, u, p[1..]);
        var i :| 0 <= i < |UnitFiles(g, u).value| && UnitFiles(g, u).value[i] == p[1];
      }
    }
  }

  lemma {:induction false} PathsThroughAreLeafPaths(g: Graph, rank: Path -> nat, u: Path, n: nat, p: seq<Path>)
    requires Acyclic(g, rank) && u.kind != ObjectFile && UnitFiles(g, u).Some? && n <= |UnitFiles(g, u).value|
    ensures p in PathsThrough(g, rank, u, n) <==>
      |p| > 1 && LeafPath(g, p) && p[0] == u && exists i :: 0 <= i < n && UnitFiles(g, u).value[i] == p[1]
    decreases rank(u), 0, n
  {
    if n > 0 {
      var f := UnitFiles(g, u).value[n - 1];
      assert Next(g, u, f);
      PathsThroughAreLeafPaths(g, rank, u, n - 1, p);
      if |p| > 1 && p[0] == u {
        assert [u] + p[1..] == p;
        LeafPathCons(g, u, p[1..]);
      }
      forall q | q in Paths(g, rank, f) && p == [u] + q ensures |p| > 1 && LeafPath(g, p) && p[0] == u && p[1] == f {
        PathsAreLeafPaths(g, rank, f, q);
        LeafPathCons(g, u, q);
      }
      if |p| > 1 { PathsAreLeafPaths(g, rank, f, p[1..]); }
    }
  }

  /** The number counted is the number of different ways down to an object file. */
  lemma {:induction false} CountIsPaths(g: Graph, rank: Path -> nat, u: Path)
    requires Acyclic(g, rank) && FilesDistinct(g) && Count(g, rank, u).Ok?
    ensures Count(g, rank, u).value == |Paths(g, rank, u)|
    decreases rank(u), 1
  {
    if u.kind != ObjectFile { CountOfFilesIsPaths(g, rank, u, |UnitFiles(g, u).value|); }
  }

  lemma {:induction false} CountOfFilesIsPaths(g: Graph, rank: Path -> nat, u: Path, n: nat)
    requires Acyclic(g, rank) && FilesDistinct(g) && u.kind != ObjectFile
    requires UnitFiles(g, u).Some? && n <= |UnitFiles(g, u).value| && CountOfFiles(g, rank, u, n).Ok?
    ensures CountOfFiles(g, rank, u, n).value == |PathsThrough(g, rank, u, n)|
    decreases rank(u), 0, n
  {
    if n > 0 {
      var f := UnitFiles(g, u).value[n - 1];
      assert Next(g, u, f);
      CountOfFilesIsPaths(g, rank, u, n - 1);
      CountIsPaths(g, rank, f);
      PrefixedSize(u, Paths(g, rank, f));
      forall p | p in Prefixed(u, Paths(g, rank, f)) ensures p !in PathsThrough(g, rank, u, n - 1) {
        PathsAreLeafPaths(g, rank, f, p[1..]);
        PathsThroughAreLeafPaths(g, rank, u, n - 1, p);
      }
    }
  }

  // ---- when the queries throw

  /** The lookup of a unit throws; counting does not look up object files. */
  ghost predicate Dead(g: Graph, counting: bool, u: Path)
  {
    if u.kind == ObjectFile then !counting && u !in g.objects else !IsUnit(g, u)
  }

  ghost predicate ReachesDead(g: Graph, counting: bool, u: Path)
  {
    exists p :: Way(g, p) && p[0] == u && Dead(g, counting, p[|p| - 1])
  }

  ghost predicate FileReachesDead(g: Graph, counting: bool, u: Path, n: nat)
    requires UnitFiles(g, u).Some? && n <= |UnitFiles(g, u).value|
  {
    exists i :: 0 <= i < n && ReachesDead(g, counting, UnitFiles(g, u).value[i])
  }

  lemma DeadStep(g: Graph, counting: bool, u: Path)
    requires u.kind != ObjectFile && UnitFiles(g, u).Some?
    ensures ReachesDead(g, counting, u) <==> FileReachesDead(g, counting, u, |UnitFiles(g, u).value|)
  {
    var files := UnitFiles(g, u).value;
    if ReachesDead(g, counting, u) {
      var p :| Way(g, p) && p[0] == u && Dead(g, counting, p[|p| - 1]);
      assert [u] + p[1..] == p;
      WayCons(g, u, p[1..]);
      var i :| 0 <= i < |files| && files[i] == p[1];
      assert ReachesDead(g, counting, files[i]);
    }
    if FileReachesDead(g, counting, u, |files|) {
      var i :| 0 <= i < |files| && ReachesDead(g, counting, files[i]);
      var q :| Way(g, q) && q[0] == files[i] && Dead(g, counting, q[|q| - 1]);
      WayCons(g, u, q);
      assert ([u] + q)[|q|] == q[|q| - 1];
    }
  }

  lemma DeadAtOnce(g: Graph, counting: bool, u: Path)
    requires u.kind == ObjectFile || UnitFiles(g, u).None?
    ensures ReachesDead(g, counting, u) <==> Dead(g, counting, u)
  {
    assert Way(g, [u]);
    forall p: seq<Path> | |p| > 1 && p[0] == u ensures !Way(g, p) { assert !Next(g, p[0], p[1]); }
  }

  /** Asking for a source throws exactly when a unit without files or an unknown object file is below the unit. */
  lemma {:induction false} ContainsFailsIff(g: Graph, rank: Path -> nat, source: Path, u: Path)
    requires Acyclic(g, rank)
    ensures Contains(g, rank, source, u).Err? <==> ReachesDead(g, false, u)
    decreases rank(u), 1
  {
    if u.kind == ObjectFile || UnitFiles(g, u).None? {
      DeadAtOnce(g, false, u);
    } else {
      DeadStep(g, false, u);
      ContainsAnyFailsIff(g, rank, source, u, |UnitFiles(g, u).value|);
    }
  }

  lemma {:induction false} ContainsAnyFailsIff(g: Graph, rank: Path -> nat, source: Path, u: Path, n: nat)
    requires Acyclic(g, rank) && u.kind != ObjectFile && UnitFiles(g, u).Some? && n <= |UnitFiles(g, u).value|
    ensures ContainsAny(g, rank, source, u, n).Err? <==> FileReachesDead(g, false, u, n)
    decreases rank(u), 0, n
  {
    if n > 0 {
      var f := UnitFiles(g, u).value[n - 1];
      assert Next(g, u, f);
      ContainsAnyFailsIff(g, rank, source, u, n - 1);
      ContainsFailsIff(g, rank, source, f);
    }
  }

  /** Counting throws exactly when a unit without files is below the unit. */
  lemma {:induction false} CountFailsIff(g: Graph, rank: Path -> nat, u: Path)
    requires Acyclic(g, rank)
    ensures Count(g, rank, u).Err? <==> ReachesDead(g, true, u)
    decreases rank(u), 1
  {
    if u.kind == ObjectFile || UnitFiles(g, u).None? {
      DeadAtOnce(g, true, u);
    } else {
      DeadStep(g, true, u);
      CountOfFilesFailsIff(g, rank, u, |UnitFiles(g, u).value|);
    }
  }

  lemma {:induction false} CountOfFilesFailsIff(g: Graph, rank: Path -> nat, u: Path, n: nat)
    requires Acyclic(g, rank) && u.kind != ObjectFile && UnitFiles(g, u).Some? && n <= |UnitFiles(g, u).value|
    ensures CountOfFiles(g, rank, u, n).Err? <==> FileReachesDead(g, true, u, n)
    decreases rank(u), 0, n
  {
    if n > 0 {
      var f := UnitFiles(g, u).value[n - 1];
      assert Next(g, u, f);
      CountOfFilesFailsIff(g, rank, u, n - 1);
      CountFailsIff(g, rank, f);
    }
  }

  // ---- the targets for a source, and the target with most objects

  /** Roots are the targets without parents, in any order. */
  ghost predicate Roots(g: Graph, roots: seq<Path>)
  {
    forall t :: t in roots <==> t in g.targets && g.targets[t].parents == []
  }

  /** Elements of `all`, from places one behind the other. */
  ghost predicate InOrderOf(some: seq<Path>, all: seq<Path>)
  {
    exists at: seq<nat> :: Places(some, all, at)
  }

  ghost predicate Places(some: seq<Path>, all: seq<Path>, at: seq<nat>)
  {
    && |at| == |some| && (forall i :: 0 <= i < |at| ==> at[i] < |all| && some[i] == all[at[i]])
    && forall i, j :: 0 <= i < j < |at| ==> at[i] < at[j]
  }

  lemma OrderNext(some: seq<Path>, all: seq<Path>, n: nat)
    requires n < |all| && InOrderOf(some, all[..n])
    ensures InOrderOf(some, all[..n + 1]) && InOrderOf(some + [all[n]], all[..n + 1])
  {
    var at :| Places(some, all[..n], at);
    assert Places(some, all[..n + 1], at);
    assert Places(some + [all[n]], all[..n + 1], at + [n]);
  }

  lemma NoneInOrder(all: seq<Path>)
    ensures InOrderOf([], all)
  {
    assert Places([], all, []);
  }

  /** The roots that reach an object of the source, in their order. */
  ghost predicate Found(g: Graph, source: Path, roots: seq<Path>, found: seq<Path>)
  {
    (forall t :: t in found <==> t in roots && Reaches(g, source, t)) && InOrderOf(found, roots)
  }

  lemma FoundNext(g: Graph, source: Path, roots: seq<Path>, i: nat, found: seq<Path>)
    requires i < |roots| && Found(g, source, roots[..i], found)
    ensures Found(g, source, roots[..i + 1], if Reaches(g, source, roots[i]) then found + [roots[i]] else found)
  {
    OneMoreTaken(roots, i);
    OrderNext(found, roots, i);
  }

  lemma OneMoreTaken(roots: seq<Path>, i: nat)
    requires i < |roots|
    ensures forall t :: t in roots[..i + 1] <==> t in roots[..i] || t == roots[i]
  {
    assert roots[..i + 1] == roots[..i] + [roots[i]];
  }

  /** Asks one more root, and keeps it if it contains the source. */
  method AskRoot(g: Graph, ghost rank: Path -> nat, roots: seq<Path>, source: Path, i: nat, cache: map<Path, bool>,
                 found: seq<Path>)
    returns (ok: bool, cache': map<Path, bool>, found': seq<Path>)
    requires Acyclic(g, rank) && i < |roots| && ContainsCache(g, rank, source, cache) && Found(g, source, roots[..i], found)
    ensures ok == Contains(g, rank, source, roots[i]).Ok? && ContainsCache(g, rank, source, cache')
    ensures ok ==> Found(g, source, roots[..i + 1], found')
  {
    var has;
    has, cache' := ContainsSourceFilePath(g, rank, source, roots[i], cache);
    if has.Err? {
      return false, cache', found;
    }
    ContainsIsReachability(g, rank, source, roots[i]);
    FoundNext(g, source, roots, i, found);
    ok, found' := true, if has.value then found + [roots[i]] else found;
  }

  /** The roots that contain the source, in their order. */
  method GetTargetsForSourceFile(g: Graph, ghost rank: Path -> nat, roots: seq<Path>, source: Path)
    returns (r: Result<seq<Path>>)
    requires Acyclic(g, rank) && Roots(g, roots)
    ensures r.Ok? <==> forall t :: t in roots ==> Contains(g, rank, source, t).Ok?
    ensures r.Ok? ==> Found(g, source, roots, r.value)
  {
    var cache: map<Path, bool> := map[];
    var found: seq<Path> := [];
    NoneInOrder(roots[..0]);
    for i := 0 to |roots|
      invariant ContainsCache(g, rank, source, cache)
      invariant forall k :: 0 <= k < i ==> Contains(g, rank, source, roots[k]).Ok?
      invariant Found(g, source, roots[..i], found)
    {
      var ok;
      ok, cache, found := AskRoot(g, rank, roots, source, i, cache, found);
      if !ok {
        return Err;
      }
    }
    assert roots[..|roots|] == roots;
    r := Ok(found);
  }

  ghost predicate Countable(g: Graph, rank: Path -> nat, roots: seq<Path>)
    requires Acyclic(g, rank)
  {
    forall t :: t in roots ==> Count(g, rank, t).Ok?
  }

  /** No root has more objects than root `k`, and those before it have fewer. */
  ghost predicate FirstMost(g: Graph, rank: Path -> nat, roots: seq<Path>, k: nat)
    requires Acyclic(g, rank) && Countable(g, rank, roots) && k < |roots|
  {
    && (forall i :: 0 <= i < |roots| ==> Count(g, rank, roots[i]).value <= Count(g, rank, roots[k]).value)
    && (forall i :: 0 <= i < k ==> Count(g, rank, roots[i]).value < Count(g, rank, roots[k]).value)
  }

  /** Root `k` is the first with the greatest count among the first `n`, all of which can be counted. */
  ghost predicate FirstMostOf(g: Graph, rank: Path -> nat, roots: seq<Path>, n: nat, k: nat)
    requires Acyclic(g, rank) && k < n <= |roots|
  {
    && (forall j :: 0 <= j < n ==> Count(g, rank, roots[j]).Ok?)
    && (forall j :: 0 <= j < n ==> Count(g, rank, roots[j]).value <= Count(g, rank, roots[k]).value)
    && (forall j :: 0 <= j < k ==> Count(g, rank, roots[j]).value < Count(g, rank, roots[k]).value)
  }

  lemma OneMoreRoot(g: Graph, rank: Path -> nat, roots: seq<Path>, n: nat, k: nat)
    requires Acyclic(g, rank) && k < n < |roots| && (n == 1 || FirstMostOf(g, rank, roots, n, k))
    requires Count(g, rank, roots[k]).Ok? && Count(g, rank, roots[n]).Ok?
    ensures var k' := if Count(g, rank, roots[k]).value < Count(g, rank, roots[n]).value then n else k;
      FirstMostOf(g, rank, roots, n + 1, k')
  {
  }

  /** The first root with the greatest number of objects; a single root is not counted at all. */
  method GetPriorityTarget(g: Graph, ghost rank: Path -> nat, roots: seq<Path>) returns (r: Result<Path>)
    requires Acyclic(g, rank) && Roots(g, roots) && roots != []
    ensures r.Ok? <==> |roots| == 1 || Countable(g, rank, roots)
    ensures r.Ok? ==> r.value in roots
    ensures r.Ok? && |roots| > 1 ==> exists k :: 0 <= k < |roots| && r.value == roots[k] && FirstMost(g, rank, roots, k)
  {
    var cache: map<Path, nat> := map[];
    var k := 0;
    for i := 1 to |roots|
      invariant 0 <= k < i && CountCache(g, rank, cache)
      invariant i > 1 ==> FirstMostOf(g, rank, roots, i, k)
    {
      var most, next;
      most, cache := NumberOfSources(g, rank, roots[k], cache);
      if most.Err? {
        return Err;
      }
      next, cache := NumberOfSources(g, rank, roots[i], cache);
      if next.Err? {
        return Err;
      }
      OneMoreRoot(g, rank, roots, i, k);
      if most.value < next.value {
        k := i;
      }
    }
    r := Ok(roots[k]);
  }
}
