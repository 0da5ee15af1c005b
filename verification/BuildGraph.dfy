/** Paths, compile and link infos: the maps of a build database as values. */
module BuildTypes {
  import opened Wrappers

  /** `Err` stands for the exception a lookup throws. */
  datatype Result<T> = Ok(value: T) | Err

  datatype Kind = SourceFile | ObjectFile | StaticLib | SharedLib | OtherFile

  /** A path is opaque but for what its name tells: the kind of file, and whether it mentions gtest. */
  datatype Path = Path(kind: Kind, name: string, gtest: bool)

  predicate IsLibrary(p: Path) { p.kind == StaticLib || p.kind == SharedLib }

  /** Compile command of an object file; `linkUnit` is an example of a target the object is linked into. */
  datatype ObjectInfo = ObjectInfo(source: Path, linkUnit: Option<Path>)

  /** A link command: its output and the files it is given. */
  datatype LinkLine = LinkLine(output: Path, arguments: seq<Path>)

  datatype TargetInfo =
    TargetInfo(commands: seq<LinkLine>, files: seq<Path>, installed: seq<Path>, parents: seq<Path>)

  /** `sources` lists the object files of each source, the preferred one first. */
  datatype Graph = Graph(objects: map<Path, ObjectInfo>, sources: map<Path, seq<Path>>, targets: map<Path, TargetInfo>)

  /** `f` is listed among the files of target `t`. */
  predicate Lists(g: Graph, t: Path, f: Path)
  {
    t in g.targets && f in g.targets[t].files
  }

  /** The link graph is acyclic: `rank` drops from a target to the files it lists. */
  ghost predicate Ranked(g: Graph, rank: Path -> nat)
  {
    forall t, f :: Lists(g, t, f) ==> rank(f) < rank(t)
  }

  /** Parents are exactly the targets that list a library. */
  ghost predicate ParentsExact(g: Graph)
  {
    && (forall t, u :: t in g.targets && u in g.targets[t].parents ==> t.kind in {StaticLib, SharedLib} && Lists(g, u, t))
    && (forall t, u :: t in g.targets && t.kind in {StaticLib, SharedLib} && Lists(g, u, t) ==> u in g.targets[t].parents)
  }

  /** An object's example target lists the object. */
  ghost predicate LinkUnitsList(g: Graph)
  {
    forall o :: o in g.objects && g.objects[o].linkUnit.Some? ==> Lists(g, g.objects[o].linkUnit.value, o)
  }

  /** Every target is the output of its first command. */
  ghost predicate Commanded(g: Graph)
  {
    forall t :: t in g.targets ==> g.targets[t].commands != [] && g.targets[t].commands[0].output == t
  }

  /** A chain of files, each listed by the target before it. */
  ghost predicate Chain(g: Graph, p: seq<Path>)
  {
    p != [] && forall i :: 0 <= i < |p| - 1 ==> Lists(g, p[i], p[i + 1])
  }

  lemma ChainCons(g: Graph, t: Path, p: seq<Path>)
    requires p != []
    ensures Chain(g, [t] + p) <==> Lists(g, t, p[0]) && Chain(g, p)
  {
    var q := [t] + p;
    if Chain(g, q) {
      assert Lists(g, q[0], q[1]);
      forall i | 0 <= i < |p| - 1 ensures Lists(g, p[i], p[i + 1]) { assert Lists(g, q[i + 1], q[i + 2]); }
    }
    if Lists(g, t, p[0]) && Chain(g, p) {
      forall i | 0 <= i < |q| - 1 ensures Lists(g, q[i], q[i + 1]) {
        if i > 0 { assert Lists(g, p[i - 1], p[i]); }
      }
    }
  }

  /** The target a source is linked into, by its preferred object. */
  predicate LinkedInto(g: Graph, source: Path, t: Path)
  {
    && source in g.sources && g.sources[source] != [] && g.sources[source][0] in g.objects
    && g.objects[g.sources[source][0]].linkUnit == Some(t)
  }

  /** `u` is among the values of `f`. */
  predicate Maps(m: map<Path, seq<Path>>, f: Path, u: Path) { f in m && u in m[f] }
}

/** The recursive object closure of a target, and the chain of parents from a source to its root. */
module Archive {
  import opened BuildTypes
  import opened Wrappers

  /** Object files a target is built from; gtest libraries count as empty. */
  function ArchiveObjects(g: Graph, ghost rank: Path -> nat, t: Path): Result<set<Path>>
    requires Ranked(g, rank)
    decreases rank(t), 1
  {
    if t.gtest then Ok({})
    else if t !in g.targets then Err
    else ArchiveOfFiles(g, rank, t, |g.targets[t].files|)
  }

  /** What the first `n` files of target `t` contribute. */
  function ArchiveOfFiles(g: Graph, ghost rank: Path -> nat, t: Path, n: nat): Result<set<Path>>
    requires Ranked(g, rank) && t in g.targets && n <= |g.targets[t].files|
    decreases rank(t), 0, n
  {
    if n == 0 then Ok({})
    else
      var f := g.targets[t].files[n - 1];
      assert Lists(g, t, f);
      var before := ArchiveOfFiles(g, rank, t, n - 1);
      if before.Err? then Err
      else if IsLibrary(f) then
        var sub := ArchiveObjects(g, rank, f);
        if sub.Err? then Err else Ok(before.value + sub.value)
      else if f !in g.objects then Err
      else if g.objects[f].source.kind == SourceFile then Ok(before.value + {f})
      else before
  }

  method GetArchiveObjectFiles(g: Graph, ghost rank: Path -> nat, archive: Path) returns (r: Result<set<Path>>)
    requires Ranked(g, rank)
    ensures r == ArchiveObjects(g, rank, archive)
    decreases rank(archive)
  {
    if archive.gtest {
      return Ok({});
    }
    if archive !in g.targets {
      return Err;
    }
    var files := g.targets[archive].files;
    var result: set<Path> := {};
    for i := 0 to |files|
      invariant ArchiveOfFiles(g, rank, archive, i) == Ok(result)
    {
      var file := files[i];
      assert Lists(g, archive, file);
      if IsLibrary(file) {
        var sub := GetArchiveObjectFiles(g, rank, file);
        if sub.Err? {
          ErrStays(g, rank, archive, i + 1);
          return Err;
        }
        result := result + sub.value;
      } else if file !in g.objects {
        ErrStays(g, rank, archive, i + 1);
        return Err;
      } else if g.objects[file].source.kind == SourceFile {
        result := result + {file};
      }
    }
    r := Ok(result);
  }

  lemma {:induction false} ErrStays(g: Graph, rank: Path -> nat, t: Path, n: nat)
    requires Ranked(g, rank) && t in g.targets && n <= |g.targets[t].files|
    requires ArchiveOfFiles(g, rank, t, n).Err?
    ensures ArchiveOfFiles(g, rank, t, |g.targets[t].files|).Err?
    decreases |g.targets[t].files| - n
  {
    if n < |g.targets[t].files| { ErrStays(g, rank, t, n + 1); }
  }

  /** Chains from a target through libraries to a compiled object, none of the targets being gtest. */
  ghost predicate ObjectChain(g: Graph, p: seq<Path>)
  {
    && Chain(g, p) && |p| >= 2
    && (forall i :: 0 <= i < |p| - 1 ==> !p[i].gtest)
    && (forall i :: 1 <= i < |p| - 1 ==> IsLibrary(p[i]))
    && CompiledObject(g, p[|p| - 1])
  }

  predicate CompiledObject(g: Graph, o: Path)
  {
    !IsLibrary(o) && o in g.objects && g.objects[o].source.kind == SourceFile
  }

  ghost predicate InArchive(g: Graph, t: Path, o: Path)
  {
    exists p :: ObjectChain(g, p) && p[0] == t && p[|p| - 1] == o
  }

  lemma ObjectChainCons(g: Graph, t: Path, p: seq<Path>)
    requires ObjectChain(g, p) && IsLibrary(p[0]) && !t.gtest && Lists(g, t, p[0])
    ensures ObjectChain(g, [t] + p)
  {
    ChainCons(g, t, p);
    var q := [t] + p;
    forall i | 0 <= i < |q| - 1 ensures !q[i].gtest && (i >= 1 ==> IsLibrary(q[i])) {
      if i > 0 { assert q[i] == p[i - 1]; }
    }
  }

  /** The closure is exactly the set of objects at the end of an object chain. */
  lemma {:induction false} ArchiveObjectsExact(g: Graph, rank: Path -> nat, t: Path, o: Path)
    requires Ranked(g, rank) && ArchiveObjects(g, rank, t).Ok?
    ensures o in ArchiveObjects(g, rank, t).value <==> InArchive(g, t, o)
    decreases rank(t), 1
  {
    if t.gtest {
    } else {
      var n := |g.targets[t].files|;
      ArchiveOfFilesExact(g, rank, t, n, o);
      if InArchive(g, t, o) {
        var p :| ObjectChain(g, p) && p[0] == t && p[|p| - 1] == o;
        assert Lists(g, p[0], p[1]);
        var i :| 0 <= i < n && g.targets[t].files[i] == p[1];
        if |p| == 2 {
          assert Contributes(g, t, i, o);
        } else {
          var q := p[1..];
          assert [t] + q == p;
          ChainCons(g, t, q);
          assert forall k :: 0 <= k < |q| ==> q[k] == p[k + 1];
          assert ObjectChain(g, q);
          assert Contributes(g, t, i, o);
        }
      }
    }
  }

  /** File `i` of target `t` brings object `o` in. */
  ghost predicate Contributes(g: Graph, t: Path, i: nat, o: Path)
    requires t in g.targets && i < |g.targets[t].files|
  {
    var f := g.targets[t].files[i];
    if IsLibrary(f) then InArchive(g, f, o) else f == o && CompiledObject(g, o)
  }

  lemma {:induction false} ArchiveOfFilesExact(g: Graph, rank: Path -> nat, t: Path, n: nat, o: Path)
    requires Ranked(g, rank) && t in g.targets && !t.gtest && n <= |g.targets[t].files|
    requires ArchiveOfFiles(g, rank, t, n).Ok?
    ensures o in ArchiveOfFiles(g, rank, t, n).value <==> exists i :: 0 <= i < n && Contributes(g, t, i, o)
    ensures o in ArchiveOfFiles(g, rank, t, n).value ==> InArchive(g, t, o)
    decreases rank(t), 0, n
  {
    if n > 0 {
      var f := g.targets[t].files[n - 1];
      assert Lists(g, t, f);
      ArchiveOfFilesExact(g, rank, t, n - 1, o);
      if IsLibrary(f) {
        ArchiveObjectsExact(g, rank, f, o);
        if InArchive(g, f, o) {
          var p :| ObjectChain(g, p) && p[0] == f && p[|p| - 1] == o;
          ObjectChainCons(g, t, p);
          assert ([t] + p)[|p|] == o;
        }
      } else if f == o && CompiledObject(g, o) {
        var p := [t, o];
        assert ObjectChain(g, p) && p[0] == t && p[|p| - 1] == o;
      }
      assert o in ArchiveOfFiles(g, rank, t, n).value <==>
             o in ArchiveOfFiles(g, rank, t, n - 1).value || Contributes(g, t, n - 1, o);
    }
  }

  /** A chain on which the closure cannot be computed: it ends in an unknown target or an unknown object. */
  ghost predicate BadChain(g: Graph, p: seq<Path>)
  {
    && Chain(g, p)
    && (forall i :: 0 <= i < |p| - 1 ==> !p[i].gtest)
    && (forall i :: 1 <= i < |p| - 1 ==> IsLibrary(p[i]))
    && var last := p[|p| - 1];
       if |p| == 1 || IsLibrary(last) then !last.gtest && last !in g.targets else last !in g.objects
  }

  ghost predicate Broken(g: Graph, t: Path)
  {
    exists p :: BadChain(g, p) && p[0] == t
  }

  /** The closure fails exactly when such a chain starts at the target. */
  lemma {:induction false} ArchiveErrExact(g: Graph, rank: Path -> nat, t: Path)
    requires Ranked(g, rank)
    ensures ArchiveObjects(g, rank, t).Err? <==> Broken(g, t)
    decreases rank(t), 1
  {
    if t !in g.targets {
      assert t.gtest || BadChain(g, [t]);
    } else if !t.gtest {
      var n := |g.targets[t].files|;
      ArchiveOfFilesErrExact(g, rank, t, n);
      if p :| BadChain(g, p) && p[0] == t {
        assert |p| > 1 && Lists(g, p[0], p[1]);
        var i :| 0 <= i < n && g.targets[t].files[i] == p[1];
        BadTail(g, t, p);
        assert BadFile(g, p[1]);
      }
    }
  }

  ghost predicate BadFile(g: Graph, f: Path)
  {
    if IsLibrary(f) then Broken(g, f) else f !in g.objects
  }

  lemma BadTail(g: Graph, t: Path, p: seq<Path>)
    requires BadChain(g, p) && |p| > 1 && p[0] == t
    ensures BadFile(g, p[1])
  {
    var q := p[1..];
    assert [t] + q == p;
    ChainCons(g, t, q);
    if |p| > 2 {
      assert IsLibrary(p[1]);
      assert forall k :: 0 <= k < |q| ==> q[k] == p[k + 1];
      assert BadChain(g, q);
    } else if IsLibrary(p[1]) {
      assert BadChain(g, q);
    }
  }

  lemma {:induction false} ArchiveOfFilesErrExact(g: Graph, rank: Path -> nat, t: Path, n: nat)
    requires Ranked(g, rank) && t in g.targets && !t.gtest && n <= |g.targets[t].files|
    ensures ArchiveOfFiles(g, rank, t, n).Err? <==> exists i :: 0 <= i < n && BadFile(g, g.targets[t].files[i])
    ensures ArchiveOfFiles(g, rank, t, n).Err? ==> Broken(g, t)
    decreases rank(t), 0, n
  {
    if n > 0 {
      var f := g.targets[t].files[n - 1];
      assert Lists(g, t, f);
      ArchiveOfFilesErrExact(g, rank, t, n - 1);
      if IsLibrary(f) { ArchiveErrExact(g, rank, f); }
      if BadFile(g, f) { BadHead(g, t, f); }
    }
  }

  lemma BadHead(g: Graph, t: Path, f: Path)
    requires Lists(g, t, f) && !t.gtest && BadFile(g, f)
    ensures Broken(g, t)
  {
    if IsLibrary(f) {
      var p :| BadChain(g, p) && p[0] == f;
      ChainCons(g, t, p);
      var q := [t] + p;
      assert forall k :: 1 <= k < |q| ==> q[k] == p[k - 1];
      assert BadChain(g, q);
    } else {
      assert BadChain(g, [t, f]);
    }
  }

  // ---- the targets of a closure

  /** The archive itself, the libraries it lists, and theirs. */
  function ArchiveTargets(g: Graph, ghost rank: Path -> nat, t: Path): Result<set<Path>>
    requires Ranked(g, rank)
    decreases rank(t), 1
  {
    if t.gtest then Ok({})
    else if t !in g.targets then Err
    else ArchiveTargetsOfFiles(g, rank, t, |g.targets[t].files|)
  }

  function ArchiveTargetsOfFiles(g: Graph, ghost rank: Path -> nat, t: Path, n: nat): Result<set<Path>>
    requires Ranked(g, rank) && t in g.targets && n <= |g.targets[t].files|
    decreases rank(t), 0, n
  {
    if n == 0 then Ok({t})
    else
      var f := g.targets[t].files[n - 1];
      assert Lists(g, t, f);
      var before := ArchiveTargetsOfFiles(g, rank, t, n - 1);
      if before.Err? then Err
      else if IsLibrary(f) then
        var sub := ArchiveTargets(g, rank, f);
        if sub.Err? then Err else Ok(before.value + {f} + sub.value)
      else before
  }

  method GetArchiveTargetFiles(g: Graph, ghost rank: Path -> nat, archive: Path) returns (r: Result<set<Path>>)
    requires Ranked(g, rank)
    ensures r == ArchiveTargets(g, rank, archive)
    decreases rank(archive)
  {
    if archive.gtest {
      return Ok({});
    }
    if archive !in g.targets {
      return Err;
    }
    var files := g.targets[archive].files;
    var result := {archive};
    for i := 0 to |files|
      invariant ArchiveTargetsOfFiles(g, rank, archive, i) == Ok(result)
    {
      var file := files[i];
      assert Lists(g, archive, file);
      if IsLibrary(file) {
        var sub := GetArchiveTargetFiles(g, rank, file);
        if sub.Err? {
          TargetsErrStays(g, rank, archive, i + 1);
          return Err;
        }
        result := result + {file} + sub.value;
      }
    }
    r := Ok(result);
  }

  lemma {:induction false} TargetsErrStays(g: Graph, rank: Path -> nat, t: Path, n: nat)
    requires Ranked(g, rank) && t in g.targets && n <= |g.targets[t].files|
    requires ArchiveTargetsOfFiles(g, rank, t, n).Err?
    ensures ArchiveTargetsOfFiles(g, rank, t, |g.targets[t].files|).Err?
    decreases |g.targets[t].files| - n
  {
    if n < |g.targets[t].files| { TargetsErrStays(g, rank, t, n + 1); }
  }

  /** With every non-gtest target of the set, the libraries it lists are in the set. */
  ghost predicate LibraryClosed(g: Graph, ts: set<Path>)
  {
    forall t, f :: t in ts && !t.gtest && Lists(g, t, f) && IsLibrary(f) ==> f in ts
  }

  /** The targets of a closure are closed under listed libraries, and their objects are in the object closure. */
  lemma {:induction false} ArchiveTargetsClosed(g: Graph, rank: Path -> nat, t: Path)
    requires Ranked(g, rank) && ArchiveTargets(g, rank, t).Ok?
    ensures !t.gtest ==> t in ArchiveTargets(g, rank, t).value
    ensures LibraryClosed(g, ArchiveTargets(g, rank, t).value)
    ensures forall u, o :: u in ArchiveTargets(g, rank, t).value && !u.gtest && Lists(g, u, o) && CompiledObject(g, o) ==>
      InArchive(g, t, o)
    decreases rank(t), 1
  {
    if !t.gtest { ArchiveTargetsOfFilesClosed(g, rank, t, |g.targets[t].files|); }
  }

  lemma {:induction false} ArchiveTargetsOfFilesClosed(g: Graph, rank: Path -> nat, t: Path, n: nat)
    requires Ranked(g, rank) && t in g.targets && !t.gtest && n <= |g.targets[t].files|
    requires ArchiveTargetsOfFiles(g, rank, t, n).Ok?
    ensures var ts := ArchiveTargetsOfFiles(g, rank, t, n).value;
      && t in ts
      && (forall i :: 0 <= i < n && IsLibrary(g.targets[t].files[i]) ==> g.targets[t].files[i] in ts)
      && (forall u, f :: u in ts && u != t && !u.gtest && Lists(g, u, f) && IsLibrary(f) ==> f in ts)
      && (forall u, o :: u in ts && !u.gtest && Lists(g, u, o) && CompiledObject(g, o) ==> InArchive(g, t, o))
    decreases rank(t), 0, n
  {
    if n == 0 {
      forall o | Lists(g, t, o) && CompiledObject(g, o) ensures InArchive(g, t, o) {
        var p := [t, o];
        assert ObjectChain(g, p) && p[0] == t && p[|p| - 1] == o;
      }
    } else {
      var f := g.targets[t].files[n - 1];
      assert Lists(g, t, f);
      ArchiveTargetsOfFilesClosed(g, rank, t, n - 1);
      if IsLibrary(f) {
        ArchiveTargetsClosed(g, rank, f);
        forall u, o | u in ArchiveTargets(g, rank, f).value && !u.gtest && Lists(g, u, o) && CompiledObject(g, o)
          ensures InArchive(g, t, o)
        {
          var p :| ObjectChain(g, p) && p[0] == f && p[|p| - 1] == o;
          ObjectChainCons(g, t, p);
          assert ([t] + p)[|p|] == o;
        }
      }
    }
  }

  // ---- roots

  /** The target reached by following first parents; `Err` when a parent is no target or the root has no command. */
  function RootOfTarget(g: Graph, ghost rank: Path -> nat, ghost top: nat, t: Path): Result<Path>
    requires Ranked(g, rank) && ParentsExact(g) && forall u :: u in g.targets ==> rank(u) <= top
    decreases if t in g.targets then 1 + top - rank(t) else 0
  {
    if t !in g.targets then Err
    else if g.targets[t].parents == [] then
      if g.targets[t].commands == [] then Err else Ok(g.targets[t].commands[0].output)
    else
      var u := g.targets[t].parents[0];
      assert Lists(g, u, t);
      RootOfTarget(g, rank, top, u)
  }

  function RootForSource(g: Graph, ghost rank: Path -> nat, ghost top: nat, source: Path): Result<Path>
    requires Ranked(g, rank) && ParentsExact(g) && forall u :: u in g.targets ==> rank(u) <= top
  {
    if source.kind == SourceFile then
      if source !in g.sources || g.sources[source] == [] then Err
      else
        var o := g.sources[source][0];
        if o !in g.objects || g.objects[o].linkUnit.None? then Err
        else RootOfTarget(g, rank, top, g.objects[o].linkUnit.value)
    else RootOfTarget(g, rank, top, source)
  }

  /** The targets on the way from `t` to its root. */
  ghost function Ancestors(g: Graph, rank: Path -> nat, top: nat, t: Path): seq<Path>
    requires Ranked(g, rank) && ParentsExact(g) && forall u :: u in g.targets ==> rank(u) <= top
    decreases if t in g.targets then 1 + top - rank(t) else 0
  {
    if t !in g.targets || g.targets[t].parents == [] then [t]
    else
      var u := g.targets[t].parents[0];
      assert Lists(g, u, t);
      [t] + Ancestors(g, rank, top, u)
  }

  /** Following first parents ends in a target without parents, through targets that list one another. */
  lemma {:induction false} RootReached(g: Graph, rank: Path -> nat, top: nat, t: Path)
    requires Ranked(g, rank) && ParentsExact(g) && forall u :: u in g.targets ==> rank(u) <= top
    requires Commanded(g) && t in g.targets
    ensures RootOfTarget(g, rank, top, t).Ok?
    ensures var r := RootOfTarget(g, rank, top, t).value; r in g.targets && g.targets[r].parents == []
    ensures var a := Ancestors(g, rank, top, t);
      a[0] == t && a[|a| - 1] == RootOfTarget(g, rank, top, t).value && |a| <= 1 + top - rank(t)
    decreases 1 + top - rank(t)
  {
    if g.targets[t].parents != [] {
      var u := g.targets[t].parents[0];
      assert Lists(g, u, t);
      RootReached(g, rank, top, u);
    }
  }

  /** What is in the archive of a target is in the archive of its root, if no target in between is gtest. */
  lemma {:induction false} ArchiveGrowsToRoot(g: Graph, rank: Path -> nat, top: nat, t: Path, o: Path)
    requires Ranked(g, rank) && ParentsExact(g) && forall u :: u in g.targets ==> rank(u) <= top
    requires Commanded(g) && t in g.targets && InArchive(g, t, o)
    requires forall u :: u in Ancestors(g, rank, top, t) ==> !u.gtest
    ensures RootOfTarget(g, rank, top, t).Ok? && InArchive(g, RootOfTarget(g, rank, top, t).value, o)
    decreases 1 + top - rank(t)
  {
    if g.targets[t].parents != [] {
      var u := g.targets[t].parents[0];
      assert Lists(g, u, t);
      var rest := Ancestors(g, rank, top, u);
      assert Ancestors(g, rank, top, t) == [t] + rest;
      assert forall v :: v in rest ==> v in [t] + rest;
      assert rest[0] == u;
      var p :| ObjectChain(g, p) && p[0] == t && p[|p| - 1] == o;
      ObjectChainCons(g, u, p);
      var q := [u] + p;
      assert ObjectChain(g, q) && q[0] == u && q[|q| - 1] == o;
      ArchiveGrowsToRoot(g, rank, top, u, o);
    }
  }

  /**
   On an acyclic graph, the root found for a linked source has no parents, and its object closure,
   when it can be computed, contains the source's object.
   */
  lemma RootArchiveContainsSource(g: Graph, rank: Path -> nat, top: nat, source: Path)
    requires Ranked(g, rank) && ParentsExact(g) && forall u :: u in g.targets ==> rank(u) <= top
    requires LinkUnitsList(g) && Commanded(g)
    requires source.kind == SourceFile && source in g.sources && g.sources[source] != []
    requires var o := g.sources[source][0];
      && CompiledObject(g, o) && g.objects[o].linkUnit.Some?
      && forall u :: u in Ancestors(g, rank, top, g.objects[o].linkUnit.value) ==> !u.gtest
    ensures RootForSource(g, rank, top, source).Ok?
    ensures var r := RootForSource(g, rank, top, source).value;
      && r in g.targets && g.targets[r].parents == []
      && (ArchiveObjects(g, rank, r).Ok? ==> g.sources[source][0] in ArchiveObjects(g, rank, r).value)
  {
    var o := g.sources[source][0];
    var t := g.objects[o].linkUnit.value;
    assert Lists(g, t, o);
    RootReached(g, rank, top, t);
    var a := Ancestors(g, rank, top, t);
    assert a[0] == t;
    var p := [t, o];
    assert ObjectChain(g, p) && p[0] == t && p[|p| - 1] == o;
    ArchiveGrowsToRoot(g, rank, top, t, o);
    var r := RootForSource(g, rank, top, source).value;
    if ArchiveObjects(g, rank, r).Ok? { ArchiveObjectsExact(g, rank, r, o); }
  }
}
