/** The build database restricted to what one target is built from. */
module TargetDatabase {
  import opened BuildTypes
  import opened Archive
  import LinkInit
  import ObjectInit
  import opened Wrappers

  class TargetBuildDatabase {
    var target: Option<Path>
    var objectFileInfos: map<Path, ObjectInfo>
    var sourceFileInfos: map<Path, seq<Path>>
    /** No info for a library that is no target: those named like gtest are let through. */
    var targetInfos: map<Path, Option<TargetInfo>>
    var objectFileTargets: map<Path, seq<Path>>

    constructor ()
      ensures target == None && objectFileInfos == map[] && sourceFileInfos == map[] && targetInfos == map[]
      ensures objectFileTargets == map[]
    {
      target, objectFileInfos, sourceFileInfos, targetInfos, objectFileTargets := None, map[], map[], map[], map[];
    }

    /** The objects of the archive, listed by source. */
    ghost predicate HasObjects(base: Graph, archive: set<Path>)
      reads this
    {
      && objectFileInfos.Keys == archive
      && (forall o :: o in archive ==> o in base.objects && objectFileInfos[o] == base.objects[o])
      && (forall s, o :: Maps(sourceFileInfos, s, o) <==> o in archive && o in base.objects && base.objects[o].source == s)
    }

    method AddObjects(base: Graph, parents: map<Path, seq<Path>>, archive: set<Path>)
      requires forall o :: o in archive ==> o in base.objects
      requires objectFileInfos == map[] && sourceFileInfos == map[] && objectFileTargets == map[]
      modifies this`objectFileInfos, this`sourceFileInfos, this`objectFileTargets
      ensures HasObjects(base, archive)
      ensures objectFileTargets.Keys == archive
      ensures forall o :: o in archive ==> objectFileTargets[o] == if o in parents then parents[o] else []
    {
      var rest := archive;
      while rest != {}
        invariant rest <= archive && HasObjects(base, archive - rest)
        invariant objectFileTargets.Keys == archive - rest
        invariant forall o :: o in archive - rest ==> objectFileTargets[o] == if o in parents then parents[o] else []
      {
        var o :| o in rest;
        var info := base.objects[o];
        var listed := if info.source in sourceFileInfos then sourceFileInfos[info.source] else [];
        ghost var before := sourceFileInfos;
        sourceFileInfos := sourceFileInfos[info.source := listed + [o]];
        assert forall s, p :: Maps(sourceFileInfos, s, p) <==> Maps(before, s, p) || (s == info.source && p == o);
        objectFileInfos := objectFileInfos[o := info];
        objectFileTargets := objectFileTargets[o := if o in parents then parents[o] else []];
        rest := rest - {o};
      }
      assert archive - {} == archive;
    }

    method AddTargets(base: Graph, targets: set<Path>)
      requires targetInfos == map[]
      modifies this`targetInfos
      ensures targetInfos.Keys == targets
      ensures forall t :: t in targets ==> targetInfos[t] == if t in base.targets then Some(base.targets[t]) else None
    {
      var rest := targets;
      while rest != {}
        invariant rest <= targets && targetInfos.Keys == targets - rest
        invariant forall t :: t in targets - rest ==>
          targetInfos[t] == if t in base.targets then Some(base.targets[t]) else None
      {
        var t :| t in rest;
        targetInfos := targetInfos[t := if t in base.targets then Some(base.targets[t]) else None];
        rest := rest - {t};
      }
    }

    /** The database for a source: the root found for it, with its closure. Fails when the base's lookups do. */
    method ForSource(base: Graph, parents: map<Path, seq<Path>>, source: Path, ghost rank: Path -> nat, ghost top: nat)
      returns (ok: bool)
      requires Ranked(base, rank) && ParentsExact(base) && forall u :: u in base.targets ==> rank(u) <= top
      requires target == None && objectFileInfos == map[] && sourceFileInfos == map[] && targetInfos == map[]
      requires objectFileTargets == map[]
      modifies this
      ensures var root := RootForSource(base, rank, top, source);
        && ok == (root.Ok? && ArchiveObjects(base, rank, root.value).Ok?)
        && (ok ==> && target == Some(root.value)
                   && HasObjects(base, ArchiveObjects(base, rank, root.value).value)
                   && Ok(targetInfos.Keys) == ArchiveTargets(base, rank, root.value)
                   && (forall t :: t in targetInfos ==>
                         targetInfos[t] == if t in base.targets then Some(base.targets[t]) else None)
                   && objectFileTargets.Keys == objectFileInfos.Keys
                   && (forall o :: o in objectFileTargets ==>
                         objectFileTargets[o] == if o in parents then parents[o] else []))
    {
      var root := GetRootForSource(base, source, rank, top);
      if root.Err? {
        return false;
      }
      var archive := GetArchiveObjectFiles(base, rank, root.value);
      if archive.Err? {
        return false;
      }
      target := Some(root.value);
      ArchiveIsKnown(base, rank, root.value);
      AddObjects(base, parents, archive.value);
      var targets := GetArchiveTargetFiles(base, rank, root.value);
      TargetsComputable(base, rank, root.value);
      AddTargets(base, targets.value);
      ok := true;
    }
  }

  /** Follows the link unit of a source, then first parents. */
  method GetRootForSource(g: Graph, source: Path, ghost rank: Path -> nat, ghost top: nat) returns (r: Result<Path>)
    requires Ranked(g, rank) && ParentsExact(g) && forall u :: u in g.targets ==> rank(u) <= top
    ensures r == RootForSource(g, rank, top, source)
  {
    if source.kind == SourceFile {
      if source !in g.sources || g.sources[source] == [] {
        return Err;
      }
      var o := g.sources[source][0];
      if o !in g.objects || g.objects[o].linkUnit.None? {
        return Err;
      }
      r := GetRootOfTarget(g, g.objects[o].linkUnit.value, rank, top);
    } else {
      r := GetRootOfTarget(g, source, rank, top);
    }
  }

  method GetRootOfTarget(g: Graph, t: Path, ghost rank: Path -> nat, ghost top: nat) returns (r: Result<Path>)
    requires Ranked(g, rank) && ParentsExact(g) && forall u :: u in g.targets ==> rank(u) <= top
    ensures r == RootOfTarget(g, rank, top, t)
    decreases if t in g.targets then 1 + top - rank(t) else 0
  {
    if t !in g.targets {
      return Err;
    }
    var info := g.targets[t];
    if info.parents != [] {
      assert Lists(g, info.parents[0], t);
      r := GetRootOfTarget(g, info.parents[0], rank, top);
    } else if info.commands == [] {
      r := Err;
    } else {
      r := Ok(info.commands[0].output);
    }
  }

  lemma ArchiveIsKnown(g: Graph, rank: Path -> nat, t: Path)
    requires Ranked(g, rank) && ArchiveObjects(g, rank, t).Ok?
    ensures forall o :: o in ArchiveObjects(g, rank, t).value ==> o in g.objects
  {
    forall o | o in ArchiveObjects(g, rank, t).value ensures o in g.objects { ArchiveObjectsExact(g, rank, t, o); }
  }

  /** Where the object closure can be computed, the target closure can. */
  lemma {:induction false} TargetsComputable(g: Graph, rank: Path -> nat, t: Path)
    requires Ranked(g, rank) && ArchiveObjects(g, rank, t).Ok?
    ensures ArchiveTargets(g, rank, t).Ok?
    decreases rank(t), 1
  {
    if !t.gtest { FilesComputable(g, rank, t, |g.targets[t].files|); }
  }

  lemma {:induction false} FilesComputable(g: Graph, rank: Path -> nat, t: Path, n: nat)
    requires Ranked(g, rank) && t in g.targets && n <= |g.targets[t].files| && ArchiveOfFiles(g, rank, t, n).Ok?
    ensures ArchiveTargetsOfFiles(g, rank, t, n).Ok?
    decreases rank(t), 0, n
  {
    if n > 0 {
      assert Lists(g, t, g.targets[t].files[n - 1]);
      FilesComputable(g, rank, t, n - 1);
      if IsLibrary(g.targets[t].files[n - 1]) { TargetsComputable(g, rank, g.targets[t].files[n - 1]); }
    }
  }

  /** Libraries are targets and everything else that is listed is an object: then no closure fails. */
  ghost predicate Resolved(g: Graph)
  {
    forall t, f :: Lists(g, t, f) ==> if IsLibrary(f) then f in g.targets else f in g.objects
  }

  lemma ResolvedClosuresExist(g: Graph, rank: Path -> nat, t: Path)
    requires Ranked(g, rank) && Resolved(g) && t in g.targets
    ensures ArchiveObjects(g, rank, t).Ok?
  {
    ArchiveErrExact(g, rank, t);
    forall p: seq<Path> | p != [] && p[0] == t ensures !BadChain(g, p) { ResolvedChainIsGood(g, p); }
  }

  lemma ResolvedChainIsGood(g: Graph, p: seq<Path>)
    requires Resolved(g) && p != [] && p[0] in g.targets
    ensures !BadChain(g, p)
  {
    if Chain(g, p) && |p| > 1 { assert Lists(g, p[|p| - 2], p[|p| - 1]); }
  }

  /** On a sound and resolved graph the database for a linked source exists, contains the source, and is closed. */
  lemma TargetContainsSource(g: Graph, rank: Path -> nat, top: nat, source: Path)
    requires Ranked(g, rank) && forall u :: u in g.targets ==> rank(u) <= top
    requires ParentsExact(g) && LinkUnitsList(g) && Commanded(g) && Resolved(g)
    requires source.kind == SourceFile && source in g.sources && g.sources[source] != []
    requires var o := g.sources[source][0];
      && o in g.objects && !IsLibrary(o) && g.objects[o].source == source && g.objects[o].linkUnit.Some?
      && forall u :: u in Ancestors(g, rank, top, g.objects[o].linkUnit.value) ==> !u.gtest
    ensures var root := RootForSource(g, rank, top, source);
      && root.Ok? && root.value in g.targets && g.targets[root.value].parents == []
      && var objects, targets := ArchiveObjects(g, rank, root.value), ArchiveTargets(g, rank, root.value);
         && objects.Ok? && g.sources[source][0] in objects.value
         && targets.Ok? && LibraryClosed(g, targets.value)
         && forall t, o :: t in targets.value && !t.gtest && Lists(g, t, o) && CompiledObject(g, o) ==> o in objects.value
  {
    RootArchiveContainsSource(g, rank, top, source);
    var r := RootForSource(g, rank, top, source).value;
    ResolvedClosuresExist(g, rank, r);
    TargetsComputable(g, rank, r);
    ArchiveTargetsClosed(g, rank, r);
    forall t, o | t in ArchiveTargets(g, rank, r).value && !t.gtest && Lists(g, t, o) && CompiledObject(g, o)
      ensures o in ArchiveObjects(g, rank, r).value
    {
      ArchiveObjectsExact(g, rank, r, o);
    }
  }

  /** No target is given a file that is neither a library nor an object, such as the program of another target. */
  ghost predicate OnlyObjectsAndLibraries(g: Graph)
  {
    forall t, f :: Lists(g, t, f) && !IsLibrary(f) ==> f in g.objects
  }

  /** What a successful build leaves: sound, and every library that is listed is a target. */
  ghost predicate BuiltWell(st: ObjectInit.State)
  {
    LinkInit.Sound(st) && forall t, f :: Lists(LinkInit.AsGraph(st), t, f) && IsLibrary(f) ==> f in st.targets
  }

  /**
   The whole chain: after a successful build without cycles, whose targets are given objects and libraries only, the
   database for a linked source exists, contains the object of the source, and is closed.
   */
  lemma BuiltDatabaseContainsSource(st: ObjectInit.State, rank: Path -> nat, top: nat, source: Path)
    requires BuiltWell(st) && OnlyObjectsAndLibraries(LinkInit.AsGraph(st))
    requires var g := LinkInit.AsGraph(st);
      && Ranked(g, rank) && (forall u :: u in g.targets ==> rank(u) <= top)
      && source.kind == SourceFile && source in g.sources && g.sources[source] != []
      && var o := g.sources[source][0];
         && !IsLibrary(o) && o in g.objects && g.objects[o].linkUnit.Some?
         && forall u :: u in Ancestors(g, rank, top, g.objects[o].linkUnit.value) ==> !u.gtest
    ensures var g := LinkInit.AsGraph(st);
      var root := RootForSource(g, rank, top, source);
      && root.Ok? && root.value in g.targets && g.targets[root.value].parents == []
      && var objects, targets := ArchiveObjects(g, rank, root.value), ArchiveTargets(g, rank, root.value);
         && objects.Ok? && g.sources[source][0] in objects.value && g.objects[g.sources[source][0]].source == source
         && targets.Ok? && LibraryClosed(g, targets.value)
  {
    var g := LinkInit.AsGraph(st);
    assert ObjectInit.Placed(st, source, 0);
    assert Resolved(g);
    TargetContainsSource(g, rank, top, source);
  }
}
