/** What reading the link commands leaves, told from the commands themselves. */
module LinkedFiles {
  import opened BuildTypes
  import opened Collisions
  import opened ImplicitTargets
  import opened LinkInit
  import opened ObjectInit
  import opened Wrappers

  // ---- the commands

  /** Command `k` links `t`. */
  predicate Links(es: seq<LinkEntry>, k: int, t: Path) { 0 <= k < |es| && es[k].tool == Linker && es[k].output == t }

  /** The object a file of a link command stands for: that of its full path or, failing that, of its relative one. */
  predicate StandsFor(st: State, f: LinkFile, o: Path)
  {
    && f.full.kind == ObjectFile && f.full !in st.ignored && o in st.objects
    && (o == f.full || (o == f.relative && f.full !in st.objects))
  }

  /** An object file without a compile command. */
  predicate Missing(st: State, f: LinkFile)
  {
    f.full.kind == ObjectFile && f.full !in st.ignored && f.full !in st.objects && f.relative !in st.objects
  }

  /** A file that the target is given: neither ignored nor an object file without a compile command. */
  predicate Taken(st: State, f: LinkFile) { f.full !in st.ignored && !Missing(st, f) }

  ghost predicate GivenAmong(st: State, files: seq<LinkFile>, f: Path)
  {
    exists j :: 0 <= j < |files| && files[j].full == f && Taken(st, files[j])
  }

  ghost predicate UsedAmong(st: State, files: seq<LinkFile>, o: Path)
  {
    exists j :: 0 <= j < |files| && StandsFor(st, files[j], o)
  }

  ghost predicate MissingAmong(st: State, files: seq<LinkFile>)
  {
    exists j :: 0 <= j < |files| && Missing(st, files[j])
  }

  /** A command that links `t` gives it the file. */
  ghost predicate Given(st: State, es: seq<LinkEntry>, t: Path, f: Path)
  {
    exists k :: Links(es, k, t) && GivenAmong(st, es[k].files, f)
  }

  ghost predicate IsLinked(es: seq<LinkEntry>, t: Path) { exists k :: Links(es, k, t) }

  /** Command `k` links the object. */
  ghost predicate Uses(st: State, es: seq<LinkEntry>, k: int, o: Path)
  {
    0 <= k < |es| && es[k].tool == Linker && UsedAmong(st, es[k].files, o)
  }

  ghost predicate LastUse(st: State, es: seq<LinkEntry>, k: int, o: Path)
  {
    Uses(st, es, k, o) && forall k' :: Uses(st, es, k', o) ==> k' <= k
  }

  /** An object file without a compile command is linked. */
  ghost predicate Misses(st: State, es: seq<LinkEntry>)
  {
    exists k :: 0 <= k < |es| && es[k].tool == Linker && MissingAmong(st, es[k].files)
  }

  /** The lines of the commands that link `t`, in order. */
  function LinesOf(es: seq<LinkEntry>, t: Path): seq<LinkLine>
  {
    if es == [] then []
    else
      var e := es[|es| - 1];
      LinesOf(es[..|es| - 1], t) + if e.tool == Linker && e.output == t then [LinkLine(t, e.arguments)] else []
  }

  function InfoOf(st: State, t: Path): TargetInfo
  {
    if t in st.targets then st.targets[t] else TargetInfo([], [], [], [])
  }

  // ---- one command

  lemma AmongNext(st: State, files: seq<LinkFile>, x: LinkFile)
    ensures forall f :: GivenAmong(st, files + [x], f) <==> GivenAmong(st, files, f) || (x.full == f && Taken(st, x))
    ensures forall o :: UsedAmong(st, files + [x], o) <==> UsedAmong(st, files, o) || StandsFor(st, x, o)
    ensures MissingAmong(st, files + [x]) <==> MissingAmong(st, files) || Missing(st, x)
  {
    var more := files + [x];
    assert more[|files|] == x;
    forall j | 0 <= j < |files| ensures more[j] == files[j] {}
    forall f ensures GivenAmong(st, more, f) <==> GivenAmong(st, files, f) || (x.full == f && Taken(st, x)) {
      if j :| 0 <= j < |files| && files[j].full == f && Taken(st, files[j]) { assert more[j].full == f; }
    }
    forall o ensures UsedAmong(st, more, o) <==> UsedAmong(st, files, o) || StandsFor(st, x, o) {
      if j :| 0 <= j < |files| && StandsFor(st, files[j], o) { assert StandsFor(st, more[j], o); }
    }
    if j :| 0 <= j < |files| && Missing(st, files[j]) { assert Missing(st, more[j]); }
  }

  /** The files have been given to `t`, and the objects they stand for have it as their link unit. */
  ghost predicate FilesGiven(st: State, st': State, t: Path, files: seq<LinkFile>)
    requires t in st.targets
  {
    && SameObjects(st, st')
    && t in st'.targets && st'.targets == st.targets[t := st.targets[t].(files := st'.targets[t].files)]
    && (forall f :: f in st'.targets[t].files <==> f in st.targets[t].files || GivenAmong(st, files, f))
    && forall o :: o in st.objects ==>
         st'.objects[o].linkUnit == if UsedAmong(st, files, o) then Unit(t) else st.objects[o].linkUnit
  }

  lemma {:induction false} FilesAreGiven(st: State, t: Path, files: seq<LinkFile>, skip: bool)
    requires t in st.targets
    ensures LinkFiles(st, t, files, skip).Err? <==> !skip && MissingAmong(st, files)
    ensures LinkFiles(st, t, files, skip).Ok? ==> FilesGiven(st, LinkFiles(st, t, files, skip).value, t, files)
    decreases |files|
  {
    if files != [] {
      var before, f := files[..|files| - 1], files[|files| - 1];
      FilesAreGiven(st, t, before, skip);
      assert files == before + [f];
      AmongNext(st, before, f);
      if LinkFiles(st, t, before, skip).Ok? {
        OneMoreGiven(st, LinkFiles(st, t, before, skip).value, t, before, f, skip);
      }
    }
  }

  lemma StepGives(st: State, t: Path, f: LinkFile, skip: bool)
    requires t in st.targets
    ensures LinkFileStep(st, t, f, skip).Err? <==> !skip && Missing(st, f)
    ensures LinkFileStep(st, t, f, skip).Ok? ==>
      var st' := LinkFileStep(st, t, f, skip).value;
      && SameObjects(st, st')
      && t in st'.targets && st'.targets == st.targets[t := st.targets[t].(files := st'.targets[t].files)]
      && (forall x :: x in st'.targets[t].files <==> x in st.targets[t].files || (f.full == x && Taken(st, f)))
      && forall o :: o in st.objects ==>
           st'.objects[o].linkUnit == if StandsFor(st, f, o) then Unit(t) else st.objects[o].linkUnit
  {
  }

  lemma SameCompiled(st: State, mid: State, f: LinkFile)
    requires SameObjects(st, mid)
    ensures (Missing(mid, f) <==> Missing(st, f)) && (Taken(mid, f) <==> Taken(st, f))
    ensures forall o :: StandsFor(mid, f, o) <==> StandsFor(st, f, o)
  {
  }

  lemma OneMoreGiven(st: State, mid: State, t: Path, before: seq<LinkFile>, f: LinkFile, skip: bool)
    requires t in st.targets && FilesGiven(st, mid, t, before)
    ensures LinkFileStep(mid, t, f, skip).Err? <==> !skip && Missing(st, f)
    ensures LinkFileStep(mid, t, f, skip).Ok? ==> FilesGiven(st, LinkFileStep(mid, t, f, skip).value, t, before + [f])
  {
    AmongNext(st, before, f);
    StepGives(mid, t, f, skip);
    SameCompiled(st, mid, f);
  }

  // ---- all commands

  lemma SameCompiledAmong(st: State, mid: State, files: seq<LinkFile>)
    requires SameObjects(st, mid)
    ensures MissingAmong(mid, files) <==> MissingAmong(st, files)
    ensures forall f :: GivenAmong(mid, files, f) <==> GivenAmong(st, files, f)
    ensures forall o :: UsedAmong(mid, files, o) <==> UsedAmong(st, files, o)
  {
    forall f ensures (Missing(mid, f) <==> Missing(st, f)) && (Taken(mid, f) <==> Taken(st, f)) { SameCompiled(st, mid, f); }
    forall f, o ensures StandsFor(mid, f, o) <==> StandsFor(st, f, o) { SameCompiled(st, mid, f); }
  }

  lemma LinksNext(es: seq<LinkEntry>, e: LinkEntry)
    ensures forall k, t :: Links(es + [e], k, t) <==> Links(es, k, t) || (k == |es| && e.tool == Linker && e.output == t)
  {
  }

  lemma GivenNext(st: State, es: seq<LinkEntry>, e: LinkEntry)
    ensures forall t, f :: Given(st, es + [e], t, f) <==>
      Given(st, es, t, f) || (e.tool == Linker && e.output == t && GivenAmong(st, e.files, f))
    ensures forall t :: IsLinked(es + [e], t) <==> IsLinked(es, t) || (e.tool == Linker && e.output == t)
  {
    var es' := es + [e];
    LinksNext(es, e);
    forall t, f ensures Given(st, es', t, f) <==>
      Given(st, es, t, f) || (e.tool == Linker && e.output == t && GivenAmong(st, e.files, f))
    {
      if k :| Links(es, k, t) && GivenAmong(st, es[k].files, f) { assert Links(es', k, t); }
      if e.tool == Linker && e.output == t { assert Links(es', |es|, t); }
    }
    forall t ensures IsLinked(es', t) <==> IsLinked(es, t) || (e.tool == Linker && e.output == t) {
      if k :| Links(es, k, t) { assert Links(es', k, t); }
      if e.tool == Linker && e.output == t { assert Links(es', |es|, t); }
    }
  }

  lemma UsesNext(st: State, es: seq<LinkEntry>, e: LinkEntry, o: Path)
    ensures forall k :: Uses(st, es + [e], k, o) <==>
      Uses(st, es, k, o) || (k == |es| && e.tool == Linker && UsedAmong(st, e.files, o))
  {
    assert (es + [e])[|es|] == e;
  }

  lemma MissesNext(st: State, es: seq<LinkEntry>, e: LinkEntry)
    ensures Misses(st, es + [e]) <==> Misses(st, es) || (e.tool == Linker && MissingAmong(st, e.files))
  {
    var es' := es + [e];
    assert es'[|es|] == e;
    if k :| 0 <= k < |es| && es[k].tool == Linker && MissingAmong(st, es[k].files) { assert es'[k] == es[k]; }
    if e.tool == Linker && MissingAmong(st, e.files) { assert MissingAmong(st, es'[|es|].files); }
  }

  /** The link unit is that of the last command linking the object, or the one it had; an empty name stands for none. */
  ghost predicate UnitIsLast(st: State, es: seq<LinkEntry>, o: Path, unit: Option<Path>)
    requires o in st.objects
  {
    || (unit == st.objects[o].linkUnit && forall k :: !Uses(st, es, k, o))
    || exists k :: LastUse(st, es, k, o) && unit == (if es[k].output.name == "" then None else Some(es[k].output))
  }

  /** The targets are those of before and those linked, with their files and lines. */
  ghost predicate ReadTargets(st: State, st': State, es: seq<LinkEntry>)
  {
    && (forall t :: t in st'.targets <==> t in st.targets || IsLinked(es, t))
    && (forall t, f :: Lists(AsGraph(st'), t, f) <==> Lists(AsGraph(st), t, f) || Given(st, es, t, f))
    && (forall t :: InfoOf(st', t).commands == InfoOf(st, t).commands + LinesOf(es, t))
  }

  ghost predicate ReadUnits(st: State, st': State, es: seq<LinkEntry>)
  {
    SameObjects(st, st') && forall o :: o in st.objects ==> UnitIsLast(st, es, o, st'.objects[o].linkUnit)
  }

  /** What reading the commands leaves: the targets with their files and lines, and the objects with their link units. */
  ghost predicate Read(st: State, st': State, es: seq<LinkEntry>)
  {
    ReadTargets(st, st', es) && ReadUnits(st, st', es)
  }

  lemma UnitNext(st: State, es: seq<LinkEntry>, e: LinkEntry, o: Path, unit: Option<Path>)
    requires o in st.objects && UnitIsLast(st, es, o, unit)
    ensures UnitIsLast(st, es + [e], o, if e.tool == Linker && UsedAmong(st, e.files, o) then Unit(e.output) else unit)
  {
    var es' := es + [e];
    UsesNext(st, es, e, o);
    if e.tool == Linker && UsedAmong(st, e.files, o) {
      assert LastUse(st, es', |es|, o) && es'[|es|] == e;
    } else if k :| LastUse(st, es, k, o) && unit == (if es[k].output.name == "" then None else Some(es[k].output)) {
      assert LastUse(st, es', k, o) && es'[k] == es[k];
    }
  }

  /** One command that links `t`, as a step. */
  ghost predicate Linked(st: State, mid: State, st': State, e: LinkEntry)
  {
    && SameObjects(mid, st') && st'.targets.Keys == mid.targets.Keys + {e.output}
    && (forall t, f :: Lists(AsGraph(st'), t, f) <==>
          Lists(AsGraph(mid), t, f) || (t == e.output && GivenAmong(st, e.files, f)))
    && (forall t :: InfoOf(st', t).commands ==
          InfoOf(mid, t).commands + if t == e.output then [LinkLine(t, e.arguments)] else [])
    && forall o :: o in mid.objects ==>
         st'.objects[o].linkUnit == if UsedAmong(st, e.files, o) then Unit(e.output) else mid.objects[o].linkUnit
  }

  lemma CommandLinks(mid: State, after: State, e: LinkEntry)
    requires FilesGiven(WithTarget(mid, e.output), after, e.output, e.files)
    ensures Linked(WithTarget(mid, e.output), mid, AddCommand(after, e.output, LinkLine(e.output, e.arguments)), e)
  {
  }

  lemma SameLinked(st: State, with: State, mid: State, st': State, e: LinkEntry)
    requires SameObjects(st, with) && Linked(with, mid, st', e)
    ensures Linked(st, mid, st', e)
  {
    SameCompiledAmong(st, with, e.files);
  }

  lemma StepLinks(st: State, mid: State, e: LinkEntry, skip: bool)
    requires SameObjects(st, mid) && e.tool == Linker
    ensures LinkStep(mid, e, skip).Err? <==> !skip && MissingAmong(st, e.files)
    ensures LinkStep(mid, e, skip).Ok? ==> Linked(st, mid, LinkStep(mid, e, skip).value, e)
  {
    var with := WithTarget(mid, e.output);
    FilesAreGiven(with, e.output, e.files, skip);
    SameCompiledAmong(st, with, e.files);
    var r := LinkFiles(with, e.output, e.files, skip);
    if r.Ok? {
      CommandLinks(mid, r.value, e);
      SameLinked(st, with, mid, LinkStep(mid, e, skip).value, e);
    }
  }

  lemma LinkedReads(st: State, mid: State, st': State, es: seq<LinkEntry>, e: LinkEntry)
    requires Read(st, mid, es) && e.tool == Linker && Linked(st, mid, st', e)
    ensures Read(st, st', es + [e])
  {
    GivenNext(st, es, e);
    assert (es + [e])[..|es|] == es;
    forall o | o in st.objects ensures UnitIsLast(st, es + [e], o, st'.objects[o].linkUnit) {
      UnitNext(st, es, e, o, mid.objects[o].linkUnit);
    }
  }

  lemma OtherReads(st: State, mid: State, es: seq<LinkEntry>, e: LinkEntry)
    requires Read(st, mid, es) && e.tool != Linker
    ensures Read(st, mid, es + [e])
  {
    GivenNext(st, es, e);
    assert (es + [e])[..|es|] == es;
    forall o | o in st.objects ensures UnitIsLast(st, es + [e], o, mid.objects[o].linkUnit) {
      UnitNext(st, es, e, o, mid.objects[o].linkUnit);
    }
  }

  lemma NothingRead(st: State)
    ensures Read(st, st, [])
  {
  }

  /**
   Reading all link commands: it fails exactly when an object file without a compile command is linked and not skipped.
   Otherwise a target lists what it listed before and what the commands that link it give it, and has their lines; an
   object's link unit is that of the last command linking it.
   */
  lemma {:induction false} RunReads(st: State, es: seq<LinkEntry>, skip: bool)
    ensures LinkRun(st, es, skip).Err? <==> !skip && Misses(st, es)
    ensures LinkRun(st, es, skip).Ok? ==> Read(st, LinkRun(st, es, skip).value, es)
  {
    if es == [] {
      NothingRead(st);
    } else {
      var before, e := es[..|es| - 1], es[|es| - 1];
      RunReads(st, before, skip);
      assert es == before + [e];
      MissesNext(st, before, e);
      if LinkRun(st, before, skip).Ok? {
        var mid := LinkRun(st, before, skip).value;
        if e.tool == Linker {
          StepLinks(st, mid, e, skip);
          if LinkStep(mid, e, skip).Ok? { LinkedReads(st, mid, LinkStep(mid, e, skip).value, before, e); }
        } else {
          OtherReads(st, mid, before, e);
        }
      }
    }
  }

  // ---- the finished database

  /**
   The whole construction before parents are filled in, told from the commands: a target lists a file exactly when a source
   compiled straight into it has the file as its temporary object, or a command that links it gives it the file, and the
   file is an object or a target in the end.
   */
  lemma BuiltLists(temporary: (Path, Path) -> Path, compile: seq<CompileEntry>, link: seq<LinkEntry>, skip: bool)
    requires NamesObjects(temporary)
    ensures var st := SortAll(Run(temporary, compile));
      && (Built(temporary, compile, link, skip).Err? <==> !skip && Misses(st, link))
      && (Built(temporary, compile, link, skip).Ok? ==>
            var st' := Built(temporary, compile, link, skip).value;
            && (forall t :: t in st'.targets <==> HasShared(compile, t) || IsLinked(link, t))
            && (forall t, f :: Lists(AsGraph(st'), t, f) <==>
                  && (Compiles(temporary, compile, t, f) || Given(st, link, t, f))
                  && (f in st.objects || HasShared(compile, f) || IsLinked(link, f)))
            && (forall o :: o in st.ignored <==> NotCompiled(compile, o))
            && ReadUnits(st, st', link))
  {
    var first, st := Run(temporary, compile), SortAll(Run(temporary, compile));
    RunSees(temporary, compile);
    RunSeesFiles(temporary, compile);
    RunReads(st, link, skip);
    forall t, f ensures Lists(AsGraph(st), t, f) <==> Compiles(temporary, compile, t, f) {
      if Compiles(temporary, compile, t, f) { assert HasShared(compile, t) && t.kind != ObjectFile; }
    }
    forall t ensures t in st.targets <==> HasShared(compile, t) {}
    if LinkRun(st, link, skip).Ok? { FilteredLists(LinkRun(st, link, skip).value); }
  }

  lemma FilteredLists(st: State)
    ensures forall t, f :: Lists(AsGraph(Filter(st)), t, f) <==> Lists(AsGraph(st), t, f) && (f in st.targets || f in st.objects)
    ensures Filter(st).targets.Keys == st.targets.Keys && Filter(st).objects == st.objects && Filter(st).ignored == st.ignored
    ensures Filter(st).sources == st.sources && Filter(st).collisions == st.collisions
  {
    FilterExact(st);
  }
}
