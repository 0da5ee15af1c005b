/** The targets of a closure, and roots, told from the lists of files and parents. */
module LibraryChains {
  import opened Archive
  import opened BuildTypes
  import opened Wrappers

  predicate IsLib(p: Path) { p.kind == StaticLib || p.kind == SharedLib }

  /** A target that is no gtest lists a library. */
  predicate ListsLib(g: Graph, t: Path, f: Path) { !t.gtest && Lists(g, t, f) && IsLib(f) }

  /** Libraries, each listed by the one before it. */
  ghost predicate LibraryChain(g: Graph, p: seq<Path>)
  {
    p != [] && forall i :: 0 <= i < |p| - 1 ==> ListsLib(g, p[i], p[i + 1])
  }

  ghost predicate Reaches(g: Graph, t: Path, u: Path)
  {
    exists p :: LibraryChain(g, p) && p[0] == t && p[|p| - 1] == u
  }

  lemma ReachesItself(g: Graph, t: Path)
    ensures Reaches(g, t, t)
  {
    assert LibraryChain(g, [t]);
  }

  lemma ReachesThrough(g: Graph, t: Path, f: Path, u: Path)
    requires ListsLib(g, t, f) && Reaches(g, f, u)
    ensures Reaches(g, t, u)
  {
    var p :| LibraryChain(g, p) && p[0] == f && p[|p| - 1] == u;
    var q := [t] + p;
    forall i | 0 <= i < |q| - 1 ensures ListsLib(g, q[i], q[i + 1]) {
      if i > 0 { assert ListsLib(g, p[i - 1], p[i]); }
    }
    assert LibraryChain(g, q) && q[|q| - 1] == u;
  }

  lemma ReachesFirst(g: Graph, t: Path, u: Path) returns (f: Path)
    requires Reaches(g, t, u) && t != u
    ensures ListsLib(g, t, f) && Reaches(g, f, u)
  {
    var p :| LibraryChain(g, p) && p[0] == t && p[|p| - 1] == u;
    var q := p[1..];
    f := q[0];
    assert ListsLib(g, p[0], p[1]);
    forall i | 0 <= i < |q| - 1 ensures ListsLib(g, q[i], q[i + 1]) { assert ListsLib(g, p[i + 1], p[i + 2]); }
    assert LibraryChain(g, q) && q[|q| - 1] == u;
  }

  lemma GtestReaches(g: Graph, f: Path, u: Path)
    requires f.gtest
    ensures Reaches(g, f, u) <==> u == f
  {
    ReachesItself(g, f);
    forall p: seq<Path> | |p| > 1 && p[0] == f ensures !LibraryChain(g, p) { assert !ListsLib(g, p[0], p[1]); }
  }

  /** Libraries are the static and the shared ones. */
  lemma IsLibIff(p: Path)
    ensures IsLibrary(p) <==> IsLib(p)
  {
  }

  ghost predicate FileReaches(g: Graph, t: Path, n: nat, u: Path)
    requires t in g.targets && n <= |g.targets[t].files|
  {
    exists i :: 0 <= i < n && IsLib(g.targets[t].files[i]) && Reaches(g, g.targets[t].files[i], u)
  }

  /** The targets of a closure are those reached by a chain of libraries. */
  lemma {:induction false} ArchiveTargetsExact(g: Graph, rank: Path -> nat, t: Path, u: Path)
    requires Ranked(g, rank) && ArchiveTargets(g, rank, t).Ok?
    ensures u in ArchiveTargets(g, rank, t).value <==> !t.gtest && Reaches(g, t, u)
    decreases rank(t), 1
  {
    if !t.gtest {
      var files := g.targets[t].files;
      ArchiveTargetsOfFilesExact(g, rank, t, |files|, u);
      ReachesItself(g, t);
      if u != t && Reaches(g, t, u) {
        var f := ReachesFirst(g, t, u);
        var i :| 0 <= i < |files| && files[i] == f;
      }
      if FileReaches(g, t, |files|, u) {
        var i :| 0 <= i < |files| && IsLib(files[i]) && Reaches(g, files[i], u);
        ReachesThrough(g, t, files[i], u);
      }
    }
  }

  lemma {:induction false} ArchiveTargetsOfFilesExact(g: Graph, rank: Path -> nat, t: Path, n: nat, u: Path)
    requires Ranked(g, rank) && t in g.targets && !t.gtest && n <= |g.targets[t].files|
    requires ArchiveTargetsOfFiles(g, rank, t, n).Ok?
    ensures u in ArchiveTargetsOfFiles(g, rank, t, n).value <==> u == t || FileReaches(g, t, n, u)
    decreases rank(t), 0, n
  {
    if n > 0 {
      var f := g.targets[t].files[n - 1];
      assert Lists(g, t, f);
      IsLibIff(f);
      ArchiveTargetsOfFilesExact(g, rank, t, n - 1, u);
      if IsLib(f) {
        ArchiveTargetsExact(g, rank, f, u);
        ReachesItself(g, f);
        if f.gtest { GtestReaches(g, f, u); }
      }
      assert FileReaches(g, t, n, u) <==> FileReaches(g, t, n - 1, u) || (IsLib(f) && Reaches(g, f, u));
    }
  }

  // ---- roots

  /** First parents, followed until there are none. */
  ghost predicate ParentChain(g: Graph, p: seq<Path>)
  {
    && p != [] && (forall i :: 0 <= i < |p| ==> p[i] in g.targets)
    && (forall i :: 0 <= i < |p| - 1 ==> g.targets[p[i]].parents != [] && p[i + 1] == g.targets[p[i]].parents[0])
    && g.targets[p[|p| - 1]].parents == []
  }

  /** The root of a target is the end of its chain of first parents. */
  lemma {:induction false} RootIsEnd(g: Graph, rank: Path -> nat, top: nat, t: Path, p: seq<Path>)
    requires Ranked(g, rank) && ParentsExact(g) && (forall u :: u in g.targets ==> rank(u) <= top) && Commanded(g)
    requires ParentChain(g, p) && p[0] == t
    ensures RootOfTarget(g, rank, top, t) == Ok(p[|p| - 1])
    decreases |p|
  {
    if |p| > 1 {
      var q := p[1..];
      assert q[0] == p[1] && Lists(g, p[1], t);
      assert ParentChain(g, q);
      RootIsEnd(g, rank, top, p[1], q);
    }
  }

  /** The root found for a source is that of the target it is linked into; without one, there is none. */
  lemma RootForSourceIs(g: Graph, rank: Path -> nat, top: nat, source: Path)
    requires Ranked(g, rank) && ParentsExact(g) && forall u :: u in g.targets ==> rank(u) <= top
    requires source.kind == SourceFile
    ensures forall t :: LinkedInto(g, source, t) ==> RootForSource(g, rank, top, source) == RootOfTarget(g, rank, top, t)
    ensures (forall t :: !LinkedInto(g, source, t)) ==> RootForSource(g, rank, top, source).Err?
  {
    if source in g.sources && g.sources[source] != [] && g.sources[source][0] in g.objects {
      var unit := g.objects[g.sources[source][0]].linkUnit;
      if unit.Some? { assert LinkedInto(g, source, unit.value); }
    }
  }
}
