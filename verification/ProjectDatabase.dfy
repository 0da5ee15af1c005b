/** The project's build database: maps of shared infos, filled in place from compile and link commands. */
module ProjectDatabase {
  import opened BuildTypes
  import opened GraphQueries
  import opened ObjectInit
  import opened LinkInit
  import Priority
  import opened Wrappers

  class ObjectFileInfo {
    const source: Path
    var output: Path
    var linkUnit: Option<Path>

    constructor (source: Path, output: Path)
      ensures this.source == source && this.output == output && linkUnit == None
    {
      this.source := source;
      this.output := output;
      linkUnit := None;
    }
  }

  class ProjectBuildDatabase {
    /** `Paths::createTemporaryObjectFile`: the directory of the output, the stem of the source, `.o`. */
    const temporary: (Path, Path) -> Path
    var objectFileInfos: map<Path, ObjectFileInfo>
    var sourceFileInfos: map<Path, seq<ObjectFileInfo>>
    var targetInfos: map<Path, TargetInfo>
    var objectFileTargets: map<Path, seq<Path>>
    var ignoredOutput: set<Path>
    var collisions: nat
    ghost var infos: set<ObjectFileInfo>
    ghost var state: State

    /** An object info is stored under its own output; `state` holds its value. */
    ghost predicate ObjectsMatch()
      reads this, infos
    {
      && state.objects.Keys == objectFileInfos.Keys
      && forall o :: o in objectFileInfos ==>
           var info := objectFileInfos[o];
           info in infos && info.output == o && state.objects[o] == ObjectInfo(info.source, info.linkUnit)
    }

    /** `info` is listed under its own source, and is the stored one unless its output is an object file. */
    ghost predicate Listable(s: Path, info: ObjectFileInfo)
      reads this, info
    {
      && info.source == s
      && (info.output.kind != ObjectFile ==> info.output in objectFileInfos && objectFileInfos[info.output] == info)
    }

    /** `state` lists the outputs of the infos listed. */
    ghost predicate SourcesMatch()
      reads this, infos
    {
      && state.sources.Keys == sourceFileInfos.Keys
      && forall s :: s in sourceFileInfos ==>
           && |state.sources[s]| == |sourceFileInfos[s]|
           && forall i :: 0 <= i < |sourceFileInfos[s]| ==>
                var info := sourceFileInfos[s][i];
                info in infos && Listable(s, info) && state.sources[s][i] == info.output
    }

    ghost predicate Valid()
      reads this, infos
    {
      && ObjectsMatch() && SourcesMatch()
      && state.targets == targetInfos && state.ignored == ignoredOutput && state.collisions == collisions
    }

    constructor (temporary: (Path, Path) -> Path)
      ensures Valid() && infos == {} && state == Empty() && this.temporary == temporary && objectFileTargets == map[]
    {
      this.temporary := temporary;
      objectFileInfos, sourceFileInfos, targetInfos, objectFileTargets := map[], map[], map[], map[];
      ignoredOutput, collisions, infos, state := {}, 0, {}, Empty();
    }

    /** Redirects a compile command to a temporary object file. */
    method CreateExplicitObjectFileCompilationCommand(info: ObjectFileInfo) returns (tmp: Path)
      modifies this`objectFileInfos, this`collisions, info
      ensures info.source.kind != SourceFile ==> tmp == info.source && unchanged(this, info)
      ensures info.source.kind == SourceFile ==>
        && tmp == temporary(old(info.output), info.source)
        && info.output == tmp && info.linkUnit == Unit(old(info.output))
        && objectFileInfos == old(objectFileInfos)[tmp := info]
        && collisions == old(collisions) + if tmp in old(objectFileInfos) then 1 else 0
    {
      if info.source.kind != SourceFile {
        return info.source;
      }
      var outputFile := info.output;
      tmp := temporary(outputFile, info.source);
      info.output := tmp;
      if tmp in objectFileInfos {
        collisions := collisions + 1;
      }
      info.linkUnit := Unit(outputFile);
      objectFileInfos := objectFileInfos[tmp := info];
    }

    /** The listings of the info stored under `out` follow it to its new output. */
    twostate lemma ListingsFollow(new out: Path, new tmp: Path)
      requires old(SourcesMatch())
      requires out in old(objectFileInfos) && old(objectFileInfos[out].output) == out
      requires out.kind != ObjectFile && tmp.kind == ObjectFile && old(objectFileInfos)[out].output == tmp
      requires infos == old(infos) && sourceFileInfos == old(sourceFileInfos)
      requires objectFileInfos == old(objectFileInfos)[tmp := old(objectFileInfos)[out]] - {out}
      requires state.sources == ReplaceAll(old(state.sources), out, tmp)
      requires forall other :: other in infos && other != old(objectFileInfos)[out] ==> other.output == old(other.output)
      ensures SourcesMatch()
    {
      forall s, i | s in sourceFileInfos && 0 <= i < |sourceFileInfos[s]|
        ensures var listed := sourceFileInfos[s][i];
          listed in infos && Listable(s, listed) && state.sources[s][i] == listed.output
      {
        assert old(Listable(s, sourceFileInfos[s][i]));
      }
    }

    /** Turns the object stored under `out` into the first file of a target. */
    method ConvertToTarget(out: Path)
      requires Valid() && out in objectFileInfos && out.kind != ObjectFile
      requires objectFileInfos[out].source.kind == SourceFile
      requires temporary(out, objectFileInfos[out].source).kind == ObjectFile
      modifies this`objectFileInfos, this`collisions, this`targetInfos, this`state, infos
      ensures Valid() && state == Convert(old(state), temporary, out)
    {
      var info := objectFileInfos[out];
      var tmp := CreateExplicitObjectFileCompilationCommand(info);
      objectFileInfos := objectFileInfos - {out};
      targetInfos := targetInfos[out := TargetInfo([LinkLine(out, [tmp])], [tmp], [], [])];
      state := Convert(state, temporary, out);
      ListingsFollow(out, tmp);
    }

    /** A new info stored under `o`, and listed last under its source. */
    twostate lemma InfoAdded(new info: ObjectFileInfo, new source: Path, new o: Path)
      requires old(ObjectsMatch())
      requires old(SourcesMatch())
      requires info !in old(infos) && infos == old(infos) + {info}
      requires info.source == source && info.output == o && (o in old(objectFileInfos) ==> o.kind == ObjectFile)
      requires objectFileInfos == old(objectFileInfos)[o := info]
      requires sourceFileInfos == old(sourceFileInfos)[source := old(Listing(source)) + [info]]
      requires state.objects == old(state.objects)[o := ObjectInfo(source, info.linkUnit)]
      requires state.sources == Append(old(state.sources), source, o)
      requires forall other :: other in old(infos) ==> unchanged(other)
      ensures ObjectsMatch() && SourcesMatch()
    {
      forall s, i | s in sourceFileInfos && 0 <= i < |sourceFileInfos[s]|
        ensures var listed := sourceFileInfos[s][i];
          listed in infos && Listable(s, listed) && state.sources[s][i] == listed.output
      {
        if s in old(sourceFileInfos) && i < |old(sourceFileInfos)[s]| {
          assert old(Listable(s, sourceFileInfos[s][i]));
        }
      }
    }

    function Listing(s: Path): seq<ObjectFileInfo>
      reads this
    {
      if s in sourceFileInfos then sourceFileInfos[s] else []
    }

    /** The objects stored are compiled from C and C++ files. */
    ghost predicate AllCompiled()
      reads this
    {
      forall o :: o in objectFileInfos ==> objectFileInfos[o].source.kind == SourceFile
    }

    /** One compile command, at the top level of the loop over all of them. */
    method AddCompileCommand(e: CompileEntry)
      requires Valid() && NamesObjects(temporary) && HaveCommands(state) && AllCompiled()
      requires forall t :: t in targetInfos ==> t !in objectFileInfos
      modifies this`objectFileInfos, this`sourceFileInfos, this`targetInfos, this`ignoredOutput, this`collisions,
               this`infos, this`state, infos
      ensures Valid() && fresh(infos - old(infos)) && old(infos) <= infos
      ensures state == Step(old(state), temporary, e)
    {
      if e.source.kind != SourceFile {
        ignoredOutput := ignoredOutput + {e.output};
        state := Step(state, temporary, e);
        return;
      }
      if e.output in objectFileInfos && e.output.kind == ObjectFile {
        return;
      }
      if e.output in objectFileInfos && e.output !in targetInfos {
        ConvertToTarget(e.output);
      }
      AddInfo(e);
    }

    /** The command's own info, stored under its output or, for a target, under a temporary name. */
    method AddInfo(e: CompileEntry)
      requires Valid() && HaveCommands(state) && e.source.kind == SourceFile
      requires e.output in targetInfos ==> temporary(e.output, e.source).kind == ObjectFile
      requires e.output !in objectFileInfos
      modifies this`objectFileInfos, this`sourceFileInfos, this`targetInfos, this`collisions, this`infos, this`state
      ensures Valid() && fresh(infos - old(infos)) && old(infos) <= infos
      ensures state == if e.output in old(targetInfos) then AddToTarget(old(state), temporary, e) else NewObject(old(state), e)
    {
      var info := StoreInfo(e);
      state := if e.output in old(targetInfos) then AddToTarget(state, temporary, e) else NewObject(state, e);
      sourceFileInfos := sourceFileInfos[e.source := Listing(e.source) + [info]];
      infos := infos + {info};
      InfoAdded(info, e.source, info.output);
    }

    method StoreInfo(e: CompileEntry) returns (info: ObjectFileInfo)
      requires Valid() && HaveCommands(state) && e.source.kind == SourceFile && e.output !in objectFileInfos
      modifies this`objectFileInfos, this`targetInfos, this`collisions
      ensures fresh(info) && info.source == e.source && objectFileInfos == old(objectFileInfos)[info.output := info]
      ensures e.output in old(targetInfos) ==>
        && info.output == temporary(e.output, e.source) && info.linkUnit == Unit(e.output)
        && targetInfos == AddToTarget(state, temporary, e).targets
        && collisions == AddToTarget(state, temporary, e).collisions
      ensures e.output !in old(targetInfos) ==>
        && info.output == e.output && info.linkUnit == None
        && targetInfos == old(targetInfos) && collisions == old(collisions)
    {
      info := new ObjectFileInfo(e.source, e.output);
      if e.output in targetInfos {
        var tmp := CreateExplicitObjectFileCompilationCommand(info);
        var targetInfo := targetInfos[e.output];
        var line := targetInfo.commands[0];
        targetInfos := targetInfos[e.output := targetInfo.(
          commands := targetInfo.commands[0 := line.(arguments := line.arguments + [tmp])],
          files := Insert(targetInfo.files, tmp))];
      } else {
        objectFileInfos := objectFileInfos[e.output := info];
      }
    }

    /** `outs` are the outputs of the infos `l`. */
    ghost predicate Outputs(l: seq<ObjectFileInfo>, outs: seq<Path>)
      reads set x | x in l
    {
      |outs| == |l| && forall i :: 0 <= i < |l| ==> outs[i] == l[i].output
    }

    /** Puts `info` into the sorted list `l`, before the first info it takes precedence over. */
    method Place(l: seq<ObjectFileInfo>, info: ObjectFileInfo, ghost outs: seq<Path>) returns (r: seq<ObjectFileInfo>)
      requires Outputs(l, outs)
      ensures Outputs(r, Priority.InsertInOrder(outs, info.output))
      ensures forall x :: x in r <==> x in l || x == info
    {
      var n := 0;
      while n < |l| && !Priority.ConflictPriorityMore(info.output, l[n].output)
        invariant n <= |l|
        invariant forall i :: 0 <= i < n ==> !Priority.ConflictPriorityMore(info.output, outs[i])
      {
        n := n + 1;
      }
      Priority.RankIs(outs, info.output, n);
      r := l[..n] + [info] + l[n..];
      assert l == l[..n] + l[n..];
    }

    /** Sorts infos by the priority of their outputs. */
    method SortByPriority(l: seq<ObjectFileInfo>, ghost outs: seq<Path>) returns (r: seq<ObjectFileInfo>)
      requires Outputs(l, outs)
      ensures Outputs(r, Priority.Sort(outs))
      ensures forall x :: x in r ==> x in l
    {
      r := [];
      for k := 0 to |l|
        invariant Outputs(r, Priority.Sort(outs[..k]))
        invariant forall x :: x in r ==> x in l
      {
        assert outs[..k + 1][..k] == outs[..k];
        r := Place(r, l[k], Priority.Sort(outs[..k]));
      }
      assert outs[..|l|] == outs;
    }

    /** All compile commands, then the sorting of every source's listing. */
    method InitObjects(es: seq<CompileEntry>)
      requires Valid() && NamesObjects(temporary) && infos == {} && state == Empty()
      modifies this`objectFileInfos, this`sourceFileInfos, this`targetInfos, this`ignoredOutput, this`collisions,
               this`infos, this`state
      ensures Valid() && fresh(infos)
      ensures state == SortAll(Run(temporary, es))
    {
      for k := 0 to |es|
        invariant Valid() && fresh(infos)
        invariant state == Run(temporary, es[..k])
      {
        RunIsReady(temporary, es[..k]);
        assert es[..k + 1][..k] == es[..k];
        AddCompileCommand(es[k]);
      }
      assert es[..|es|] == es;
      SortSources();
    }

    method SortSources()
      requires Valid()
      modifies this`sourceFileInfos, this`state
      ensures Valid() && state == SortAll(old(state))
    {
      ghost var before := state;
      AllUnsorted(before);
      var rest := sourceFileInfos.Keys;
      while rest != {}
        invariant rest <= sourceFileInfos.Keys && Valid()
        invariant state == SortedBut(before, rest)
      {
        var s :| s in rest;
        SortOne(before, rest, s);
        SortSource(s);
        rest := rest - {s};
      }
    }

    method SortSource(s: Path)
      requires Valid() && s in sourceFileInfos
      modifies this`sourceFileInfos, this`state
      ensures Valid() && sourceFileInfos.Keys == old(sourceFileInfos.Keys)
      ensures state == old(state).(sources := old(state).sources[s := Priority.Sort(old(state).sources[s])])
    {
      var listed := sourceFileInfos[s];
      var sorted := SortByPriority(listed, state.sources[s]);
      forall i | 0 <= i < |sorted| ensures sorted[i] in infos && Listable(s, sorted[i]) {
        assert sorted[i] in listed;
      }
      sourceFileInfos := sourceFileInfos[s := sorted];
      state := state.(sources := state.sources[s := Priority.Sort(state.sources[s])]);
    }

    // ---- link commands

    method SetLinkUnit(o: Path, t: Path)
      requires Valid() && o in objectFileInfos
      modifies this`state, objectFileInfos[o]
      ensures Valid() && infos == old(infos)
      ensures state == old(state).(objects := old(state).objects[o := old(state).objects[o].(linkUnit := Unit(t))])
    {
      objectFileInfos[o].linkUnit := Unit(t);
      state := state.(objects := state.objects[o := state.objects[o].(linkUnit := Unit(t))]);
      forall s, i | s in sourceFileInfos && 0 <= i < |sourceFileInfos[s]| ensures Listable(s, sourceFileInfos[s][i]) {
        assert old(Listable(s, sourceFileInfos[s][i]));
      }
    }

    /** One file of a link command; `ok` is false when the exception is thrown. */
    method AddLinkFile(t: Path, f: LinkFile, skipObjectWithoutSource: bool) returns (ok: bool)
      requires Valid() && t in targetInfos
      modifies this`state, this`targetInfos, infos
      ensures Valid() && targetInfos.Keys == old(targetInfos.Keys)
      ensures var r := LinkFileStep(old(state), t, f, skipObjectWithoutSource);
        ok == r.Ok? && (ok ==> state == r.value)
    {
      if f.full in ignoredOutput {
        return true;
      }
      if f.full.kind == ObjectFile {
        if f.full !in objectFileInfos && f.relative !in objectFileInfos {
          return skipObjectWithoutSource;
        }
        if f.full in objectFileInfos {
          SetLinkUnit(f.full, t);
        } else {
          SetLinkUnit(f.relative, t);
        }
      }
      AddTargetFile(t, f.full);
      ok := true;
    }

    method AddTargetFile(t: Path, file: Path)
      requires Valid() && t in targetInfos
      modifies this`state, this`targetInfos
      ensures Valid() && state == AddFile(old(state), t, file) && targetInfos.Keys == old(targetInfos.Keys)
    {
      targetInfos := targetInfos[t := targetInfos[t].(files := Insert(targetInfos[t].files, file))];
      state := AddFile(state, t, file);
    }

    method AddLinkFiles(t: Path, files: seq<LinkFile>, skipObjectWithoutSource: bool) returns (ok: bool)
      requires Valid() && t in targetInfos
      modifies this`state, this`targetInfos, infos
      ensures Valid() && (ok ==> t in targetInfos)
      ensures var r := LinkFiles(old(state), t, files, skipObjectWithoutSource); ok == r.Ok? && (ok ==> state == r.value)
    {
      ghost var before := state;
      for k := 0 to |files|
        invariant Valid() && t in targetInfos
        invariant LinkFiles(before, t, files[..k], skipObjectWithoutSource) == Ok(state)
      {
        assert files[..k + 1][..k] == files[..k];
        ok := AddLinkFile(t, files[k], skipObjectWithoutSource);
        if !ok {
          FilesErrStays(before, t, files, k + 1, skipObjectWithoutSource);
          return;
        }
      }
      assert files[..|files|] == files;
      ok := true;
    }

    method AddLinkCommand(e: LinkEntry, skipObjectWithoutSource: bool) returns (ok: bool)
      requires Valid()
      modifies this`state, this`targetInfos, infos
      ensures Valid()
      ensures var r := LinkStep(old(state), e, skipObjectWithoutSource); ok == r.Ok? && (ok ==> state == r.value)
    {
      if e.tool == Ranlib || e.tool == CMake {
        return true;
      }
      EnsureTarget(e.output);
      ok := AddLinkFiles(e.output, e.files, skipObjectWithoutSource);
      if !ok {
        return;
      }
      AddLinkLine(e.output, LinkLine(e.output, e.arguments));
      ok := true;
    }

    method EnsureTarget(t: Path)
      requires Valid()
      modifies this`state, this`targetInfos
      ensures Valid() && t in targetInfos && state == WithTarget(old(state), t)
    {
      if t !in targetInfos {
        targetInfos := targetInfos[t := TargetInfo([], [], [], [])];
      }
      state := state.(targets := targetInfos);
    }

    method AddLinkLine(t: Path, line: LinkLine)
      requires Valid() && t in targetInfos
      modifies this`state, this`targetInfos
      ensures Valid() && state == AddCommand(old(state), t, line)
    {
      var targetInfo := targetInfos[t];
      targetInfos := targetInfos[t := targetInfo.(commands := targetInfo.commands + [line])];
      state := state.(targets := targetInfos);
    }

    /** All link commands; after an exception the maps are left as they are. */
    method InitInfo(es: seq<LinkEntry>, skipObjectWithoutSource: bool) returns (ok: bool)
      requires Valid()
      modifies this`state, this`targetInfos, infos
      ensures Valid() && infos == old(infos)
      ensures var r := LinkRun(old(state), es, skipObjectWithoutSource); ok == r.Ok? && (ok ==> state == r.value)
    {
      for k := 0 to |es|
        invariant Valid()
        invariant LinkRun(old(state), es[..k], skipObjectWithoutSource) == Ok(state)
      {
        assert es[..k + 1][..k] == es[..k];
        ok := AddLinkCommand(es[k], skipObjectWithoutSource);
        if !ok {
          RunErrStays(old(state), es, k + 1, skipObjectWithoutSource);
          return;
        }
      }
      assert es[..|es|] == es;
      ok := true;
    }

    method FilterInstalledOf(t: Path)
      requires Valid() && t in targetInfos
      modifies this`targetInfos, this`state
      ensures Valid() && targetInfos.Keys == old(targetInfos.Keys)
      ensures state == old(state).(targets := old(state).targets[t := FilterTarget(old(state), old(state).targets[t])])
    {
      var known := targetInfos.Keys + objectFileInfos.Keys;
      var targetInfo := targetInfos[t];
      targetInfo := targetInfo.(installed := Reject(targetInfo.files, known), files := Keep(targetInfo.files, known));
      targetInfos := targetInfos[t := targetInfo];
      state := state.(targets := targetInfos);
    }

    /** Splits the files of every target into those built here and those installed before. */
    method FilterInstalledFiles()
      requires Valid()
      modifies this`targetInfos, this`state
      ensures Valid() && state == Filter(old(state))
    {
      ghost var before := state;
      FilterEnds(before);
      var rest := targetInfos.Keys;
      while rest != {}
        invariant rest <= targetInfos.Keys && Valid() && state == FilterBut(before, rest)
      {
        var t :| t in rest;
        FilterOne(before, rest, t);
        FilterInstalledOf(t);
        rest := rest - {t};
      }
    }

    /** Adds target `t` to the parents of the libraries it lists, and to the targets of its objects. */
    static method CollectParents(t: Path, files: seq<Path>, parents: map<Path, seq<Path>>, objects: map<Path, seq<Path>>)
      returns (parents': map<Path, seq<Path>>, objects': map<Path, seq<Path>>)
      ensures forall f, u :: Maps(parents', f, u) <==> Maps(parents, f, u) || (u == t && f in files && IsLibrary(f))
      ensures forall f, u :: Maps(objects', f, u) <==> Maps(objects, f, u) || (u == t && f in files && IsObject(f))
      ensures (forall f :: f in parents ==> parents[f] != []) ==> (forall f :: f in parents' ==> parents'[f] != [])
      ensures (forall f :: f in objects ==> objects[f] != []) ==> (forall f :: f in objects' ==> objects'[f] != [])
    {
      parents', objects' := parents, objects;
      for k := 0 to |files|
        invariant forall f, u :: Maps(parents', f, u) <==> Maps(parents, f, u) || (u == t && f in files[..k] && IsLibrary(f))
        invariant forall f, u :: Maps(objects', f, u) <==> Maps(objects, f, u) || (u == t && f in files[..k] && IsObject(f))
        invariant (forall f :: f in parents ==> parents[f] != []) ==> (forall f :: f in parents' ==> parents'[f] != [])
        invariant (forall f :: f in objects ==> objects[f] != []) ==> (forall f :: f in objects' ==> objects'[f] != [])
      {
        assert files[..k + 1] == files[..k] + [files[k]];
        assert forall f :: f in files[..k + 1] <==> f in files[..k] || f == files[k];
        AppendMaps(parents', files[k], t);
        AppendMaps(objects', files[k], t);
        if IsLibrary(files[k]) {
          parents' := Append(parents', files[k], t);
        }
        if files[k].kind == ObjectFile {
          objects' := Append(objects', files[k], t);
        }
      }
      assert files[..|files|] == files;
    }

    /** The inverse of the listings: fails exactly when some target lists a library that is no target. */
    method FillTargetInfoParents() returns (ok: bool)
      requires Valid() && objectFileTargets == map[]
      requires forall t :: t in targetInfos ==> targetInfos[t].parents == []
      modifies this`targetInfos, this`objectFileTargets, this`state
      ensures Valid()
      ensures ok <==> forall t, f :: Lists(AsGraph(old(state)), t, f) && IsLibrary(f) ==> f in old(state).targets
      ensures ok ==> exists m :: && Collects(old(state), old(state).targets.Keys, m, IsLibrary)
                                 && m.Keys <= old(state).targets.Keys && state == SetParents(old(state), m, m.Keys)
      ensures ok ==> ParentsExact(AsGraph(state))
      ensures forall o, t :: Maps(objectFileTargets, o, t) <==> Lists(AsGraph(old(state)), t, o) && IsObject(o)
    {
      ghost var before := state;
      var parents := CollectAllParents();
      LibrariesAreTargets(before, parents);
      ok := AssignParents(parents);
      if ok {
        ParentsAreExact(before, parents);
      }
    }

    method CollectAllParents() returns (parents: map<Path, seq<Path>>)
      requires Valid() && objectFileTargets == map[]
      modifies this`objectFileTargets
      ensures Valid() && Collects(state, state.targets.Keys, parents, IsLibrary)
      ensures Collects(state, state.targets.Keys, objectFileTargets, IsObject)
    {
      parents := map[];
      var rest := targetInfos.Keys;
      while rest != {}
        invariant rest <= targetInfos.Keys && Valid()
        invariant Collects(state, state.targets.Keys - rest, parents, IsLibrary)
        invariant Collects(state, state.targets.Keys - rest, objectFileTargets, IsObject)
      {
        var t :| t in rest;
        parents, objectFileTargets := CollectParents(t, targetInfos[t].files, parents, objectFileTargets);
        rest := rest - {t};
      }
    }

    method AssignParents(parents: map<Path, seq<Path>>) returns (ok: bool)
      requires Valid()
      modifies this`targetInfos, this`state
      ensures Valid()
      ensures ok <==> parents.Keys <= old(targetInfos.Keys)
      ensures ok ==> state == SetParents(old(state), parents, parents.Keys)
    {
      ghost var before := state;
      var rest := parents.Keys;
      SetParentsNone(before, parents);
      while rest != {}
        invariant rest <= parents.Keys && parents.Keys - rest <= targetInfos.Keys && Valid()
        invariant targetInfos.Keys == old(targetInfos.Keys)
        invariant state == SetParents(before, parents, parents.Keys - rest)
      {
        var library :| library in rest;
        if library !in targetInfos {
          return false;
        }
        SetParentsLess(before, parents, rest, library);
        SetParentsOf(library, parents[library]);
        rest := rest - {library};
      }
      ok := true;
    }

    method SetParentsOf(t: Path, parents: seq<Path>)
      requires Valid() && t in targetInfos
      modifies this`targetInfos, this`state
      ensures Valid() && targetInfos.Keys == old(targetInfos.Keys)
      ensures state == old(state).(targets := old(state).targets[t := old(state).targets[t].(parents := parents)])
    {
      targetInfos := targetInfos[t := targetInfos[t].(parents := parents)];
      state := state.(targets := targetInfos);
    }

    /**
     The constructor's body. It fails, leaving the maps as they are, exactly when an object file without a compile
     command is linked and not skipped, or a library is listed that no link command builds.
     */
    method Build(compile: seq<CompileEntry>, link: seq<LinkEntry>, skipObjectWithoutSource: bool) returns (ok: bool)
      requires Valid() && NamesObjects(temporary) && infos == {} && state == Empty() && objectFileTargets == map[]
      modifies this
      ensures Valid()
      ensures var r := Built(temporary, compile, link, skipObjectWithoutSource);
        ok <==> r.Ok? && forall t, f :: Lists(AsGraph(r.value), t, f) && IsLibrary(f) ==> f in r.value.targets
      ensures ok ==> SameButParents(Built(temporary, compile, link, skipObjectWithoutSource).value, state)
      ensures ok ==> forall o, t :: Maps(objectFileTargets, o, t) <==> Lists(AsGraph(state), t, o) && IsObject(o)
      ensures ok ==> ParentsExact(AsGraph(state)) && Commanded(AsGraph(state)) && Closed(AsGraph(state))
      ensures ok && ByFullPath(SortAll(Run(temporary, compile)), link) ==> (collisions == 0 ==> Sound(state))
      ensures ok ==> (ListingsAreStored(state) <==> collisions == 0) && FilesDistinct(AsGraph(state))
      ensures ok ==> forall t, f :: Lists(AsGraph(state), t, f) && IsLibrary(f) ==> f in state.targets
    {
      ok := Read(compile, link, skipObjectWithoutSource);
      if !ok {
        return;
      }
      ghost var built := state;
      BuiltIsFresh(temporary, compile, link, skipObjectWithoutSource);
      ok := FillTargetInfoParents();
      if ok {
        ghost var m :| && Collects(built, built.targets.Keys, m, IsLibrary) && m.Keys <= built.targets.Keys
                       && state == SetParents(built, m, m.Keys);
        OnlyParents(built, m);
        Finished(compile, link, skipObjectWithoutSource, m);
      }
    }

    method Read(compile: seq<CompileEntry>, link: seq<LinkEntry>, skipObjectWithoutSource: bool) returns (ok: bool)
      requires Valid() && NamesObjects(temporary) && infos == {} && state == Empty()
      modifies this`objectFileInfos, this`sourceFileInfos, this`targetInfos, this`ignoredOutput, this`collisions,
               this`infos, this`state
      ensures Valid() && fresh(infos)
      ensures var r := Built(temporary, compile, link, skipObjectWithoutSource); ok == r.Ok? && (ok ==> state == r.value)
    {
      InitObjects(compile);
      ok := InitInfo(link, skipObjectWithoutSource);
      if ok {
        FilterInstalledFiles();
      }
    }

    lemma Finished(compile: seq<CompileEntry>, link: seq<LinkEntry>, skip: bool, m: map<Path, seq<Path>>)
      requires NamesObjects(temporary) && Built(temporary, compile, link, skip).Ok?
      requires var st := Built(temporary, compile, link, skip).value;
        Collects(st, st.targets.Keys, m, IsLibrary) && m.Keys <= st.targets.Keys
      ensures var st := SetParents(Built(temporary, compile, link, skip).value, m, m.Keys);
        && Commanded(AsGraph(st)) && Closed(AsGraph(st))
        && (forall t, f :: Lists(AsGraph(st), t, f) && IsLibrary(f) ==> f in st.targets)
        && (ListingsAreStored(st) <==> st.collisions == 0) && FilesDistinct(AsGraph(st))
        && (st.collisions == 0 && ByFullPath(SortAll(Run(temporary, compile)), link) ==> Sound(st))
    {
      var first := SortAll(Run(temporary, compile));
      var built := Built(temporary, compile, link, skip).value;
      var st := SetParents(built, m, m.Keys);
      BuiltIsFresh(temporary, compile, link, skip);
      FilterExact(LinkRun(first, link, skip).value);
      ParentsAreExact(built, m);
      LibrariesAreTargets(built, m);
      BuiltFilesAreDistinct(temporary, compile, link, skip, m);
      ObjectsKeepInv(temporary, compile);
      StoredIffNoCollision(first);
      if ListingsAreStored(st) { StillStored(st, first); }
      if ListingsAreStored(first) { StillStored(first, st); }
      if st.collisions == 0 && ByFullPath(first, link) { BuiltIsSound(temporary, compile, link, skip, m); }
    }
  }
}
