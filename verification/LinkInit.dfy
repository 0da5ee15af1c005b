/** Reading the link commands: targets, their files, and the example target of each object. */
module LinkInit {
  import opened BuildTypes
  import opened GraphQueries
  import opened ObjectInit
  import opened Wrappers

  datatype Tool = Ranlib | CMake | Linker

  /** A file of a link command, by its full path and by its path relative to the command's directory. */
  datatype LinkFile = LinkFile(full: Path, relative: Path)

  datatype LinkEntry = LinkEntry(tool: Tool, output: Path, arguments: seq<Path>, files: seq<LinkFile>)

  function AddFile(st: State, t: Path, f: Path): State
    requires t in st.targets
  {
    st.(targets := st.targets[t := st.targets[t].(files := Insert(st.targets[t].files, f))])
  }

  /** The key an object file is found under: its full path or, failing that, its relative path. */
  function ObjectKey(st: State, f: LinkFile): Option<Path>
  {
    if f.full in st.objects then Some(f.full) else if f.relative in st.objects then Some(f.relative) else None
  }

  /** `Err` is the exception for an object file without a compile command. */
  function LinkFileStep(st: State, t: Path, f: LinkFile, skip: bool): Result<State>
    requires t in st.targets
  {
    if f.full in st.ignored then Ok(st)
    else if f.full.kind != ObjectFile then Ok(AddFile(st, t, f.full))
    else match ObjectKey(st, f)
      case None => if skip then Ok(st) else Err
      case Some(o) =>
        Ok(AddFile(st.(objects := st.objects[o := st.objects[o].(linkUnit := Unit(t))]), t, f.full))
  }

  function LinkFiles(st: State, t: Path, files: seq<LinkFile>, skip: bool): (r: Result<State>)
    requires t in st.targets
    ensures r.Ok? ==> t in r.value.targets
    decreases |files|
  {
    if files == [] then Ok(st)
    else
      var before := LinkFiles(st, t, files[..|files| - 1], skip);
      if before.Err? then Err else LinkFileStep(before.value, t, files[|files| - 1], skip)
  }

  function WithTarget(st: State, t: Path): (st': State)
    ensures t in st'.targets
  {
    if t in st.targets then st else st.(targets := st.targets[t := TargetInfo([], [], [], [])])
  }

  function AddCommand(st: State, t: Path, line: LinkLine): State
    requires t in st.targets
  {
    st.(targets := st.targets[t := st.targets[t].(commands := st.targets[t].commands + [line])])
  }

  function LinkStep(st: State, e: LinkEntry, skip: bool): Result<State>
  {
    if e.tool != Linker then Ok(st)
    else
      var r := LinkFiles(WithTarget(st, e.output), e.output, e.files, skip);
      if r.Err? then Err else Ok(AddCommand(r.value, e.output, LinkLine(e.output, e.arguments)))
  }

  function LinkRun(st: State, es: seq<LinkEntry>, skip: bool): Result<State>
  {
    if es == [] then Ok(st)
    else
      var before := LinkRun(st, es[..|es| - 1], skip);
      if before.Err? then Err else LinkStep(before.value, es[|es| - 1], skip)
  }

  lemma {:induction false} FilesErrStays(st: State, t: Path, files: seq<LinkFile>, n: nat, skip: bool)
    requires t in st.targets && n <= |files| && LinkFiles(st, t, files[..n], skip).Err?
    ensures LinkFiles(st, t, files, skip).Err?
    decreases |files|
  {
    if n < |files| {
      assert files[..|files| - 1][..n] == files[..n];
      FilesErrStays(st, t, files[..|files| - 1], n, skip);
    } else {
      assert files[..n] == files;
    }
  }

  lemma {:induction false} RunErrStays(st: State, es: seq<LinkEntry>, n: nat, skip: bool)
    requires n <= |es| && LinkRun(st, es[..n], skip).Err?
    ensures LinkRun(st, es, skip).Err?
    decreases |es|
  {
    if n < |es| {
      assert es[..|es| - 1][..n] == es[..n];
      RunErrStays(st, es[..|es| - 1], n, skip);
    } else {
      assert es[..n] == es;
    }
  }

  function AsGraph(st: State): Graph { Graph(st.objects, st.sources, st.targets) }

  // ---- the example target of an object lists the object

  /** The file is an object found only by its relative path. */
  predicate OnlyRelative(st: State, f: LinkFile)
  {
    f.full !in st.ignored && f.full.kind == ObjectFile && f.full !in st.objects && f.relative in st.objects
  }

  /** One file keeps link units right, unless the object is found only by a relative path the target does not list. */
  lemma FileKeepsLinkUnits(st: State, t: Path, f: LinkFile, skip: bool)
    requires t in st.targets && LinkFileStep(st, t, f, skip).Ok? && LinkUnitsList(AsGraph(st))
    ensures var st' := LinkFileStep(st, t, f, skip).value;
      LinkUnitsList(AsGraph(st')) <==>
      !OnlyRelative(st, f) || Unit(t).None? || f.relative in st.targets[t].files
  {
    var st' := LinkFileStep(st, t, f, skip).value;
    assert forall u, o :: Lists(AsGraph(st), u, o) ==> Lists(AsGraph(st'), u, o);
    if OnlyRelative(st, f) && Unit(t).Some? {
      assert st'.objects[f.relative].linkUnit == Some(t);
      assert Lists(AsGraph(st'), t, f.relative) <==> f.relative in st.targets[t].files;
    }
  }

  /** Every object file of the link commands that has a compile command has it under its full path. */
  ghost predicate ByFullPath(st: State, es: seq<LinkEntry>)
  {
    forall e, f :: e in es && f in e.files ==> !OnlyRelative(st, f)
  }

  /** What reading link commands leaves alone. */
  ghost predicate SameObjects(st: State, st': State)
  {
    && st'.objects.Keys == st.objects.Keys && st'.ignored == st.ignored
    && st'.sources == st.sources && st'.collisions == st.collisions
    && forall o :: o in st.objects ==> st'.objects[o].source == st.objects[o].source
  }

  lemma {:induction false} FilesKeepLinkUnits(st: State, t: Path, files: seq<LinkFile>, skip: bool)
    requires t in st.targets && LinkFiles(st, t, files, skip).Ok?
    ensures SameObjects(st, LinkFiles(st, t, files, skip).value)
    ensures LinkUnitsList(AsGraph(st)) && (forall f :: f in files ==> !OnlyRelative(st, f)) ==>
      LinkUnitsList(AsGraph(LinkFiles(st, t, files, skip).value))
    decreases |files|
  {
    if files != [] {
      var before, f := files[..|files| - 1], files[|files| - 1];
      FilesKeepLinkUnits(st, t, before, skip);
      var mid := LinkFiles(st, t, before, skip).value;
      assert OnlyRelative(mid, f) <==> OnlyRelative(st, f);
      if LinkUnitsList(AsGraph(mid)) { FileKeepsLinkUnits(mid, t, f, skip); }
    }
  }

  /** Targets have commands of their own and, so far, no parents. */
  ghost predicate Fresh(st: State)
  {
    Commanded(AsGraph(st)) && forall t :: t in st.targets ==> st.targets[t].parents == []
  }

  /** Reading files changes no target but `t`, and of `t` only the files. */
  lemma {:induction false} FilesKeepTargets(st: State, t: Path, files: seq<LinkFile>, skip: bool)
    requires t in st.targets && LinkFiles(st, t, files, skip).Ok?
    ensures var st' := LinkFiles(st, t, files, skip).value;
      st'.targets == st.targets[t := st.targets[t].(files := st'.targets[t].files)]
    decreases |files|
  {
    if files != [] { FilesKeepTargets(st, t, files[..|files| - 1], skip); }
  }

  lemma StepKeepsFresh(st: State, e: LinkEntry, skip: bool)
    requires LinkStep(st, e, skip).Ok? && Fresh(st)
    ensures var st' := LinkStep(st, e, skip).value; SameObjects(st, st') && Fresh(st')
  {
    if e.tool == Linker {
      var with := WithTarget(st, e.output);
      FilesKeepLinkUnits(with, e.output, e.files, skip);
      FilesKeepTargets(with, e.output, e.files, skip);
      CommandFreshens(st, LinkFiles(with, e.output, e.files, skip).value, e.output, LinkLine(e.output, e.arguments));
    }
  }

  /** A target that may be new, with more files, has a command of its own in the end. */
  lemma CommandFreshens(st: State, mid: State, t: Path, line: LinkLine)
    requires Fresh(st) && t in mid.targets && line.output == t
    requires var with := WithTarget(st, t).targets; mid.targets == with[t := with[t].(files := mid.targets[t].files)]
    ensures Fresh(AddCommand(mid, t, line))
  {
  }

  lemma {:induction false} RunKeepsFresh(st: State, es: seq<LinkEntry>, skip: bool)
    requires LinkRun(st, es, skip).Ok? && Fresh(st)
    ensures var st' := LinkRun(st, es, skip).value; SameObjects(st, st') && Fresh(st')
  {
    if es != [] {
      RunKeepsFresh(st, es[..|es| - 1], skip);
      StepKeepsFresh(LinkRun(st, es[..|es| - 1], skip).value, es[|es| - 1], skip);
    }
  }

  lemma StepKeepsLinkUnits(st: State, e: LinkEntry, skip: bool)
    requires LinkStep(st, e, skip).Ok? && LinkUnitsList(AsGraph(st)) && ByFullPath(st, [e])
    ensures LinkUnitsList(AsGraph(LinkStep(st, e, skip).value))
  {
    if e.tool == Linker {
      var with := WithTarget(st, e.output);
      var mid := LinkFiles(with, e.output, e.files, skip).value;
      MoreFilesKeepLinkUnits(st, with);
      forall f | f in e.files ensures !OnlyRelative(with, f) { assert e in [e] && !OnlyRelative(st, f); }
      FilesKeepLinkUnits(with, e.output, e.files, skip);
      MoreFilesKeepLinkUnits(mid, LinkStep(st, e, skip).value);
    }
  }

  lemma MoreFilesKeepLinkUnits(st: State, st': State)
    requires LinkUnitsList(AsGraph(st)) && st'.objects == st.objects
    requires forall t :: t in st.targets ==> t in st'.targets && st'.targets[t].files == st.targets[t].files
    ensures LinkUnitsList(AsGraph(st'))
  {
    assert forall u, o :: Lists(AsGraph(st), u, o) ==> Lists(AsGraph(st'), u, o);
  }

  /** Reading all link commands by full path leaves each object's example target listing it. */
  lemma {:induction false} RunKeepsLinkUnits(st: State, es: seq<LinkEntry>, skip: bool)
    requires LinkRun(st, es, skip).Ok? && Fresh(st) && LinkUnitsList(AsGraph(st)) && ByFullPath(st, es)
    ensures LinkUnitsList(AsGraph(LinkRun(st, es, skip).value))
  {
    if es != [] {
      var before, e := es[..|es| - 1], es[|es| - 1];
      RunKeepsLinkUnits(st, before, skip);
      RunKeepsFresh(st, before, skip);
      var mid := LinkRun(st, before, skip).value;
      assert forall f :: OnlyRelative(mid, f) <==> OnlyRelative(st, f);
      assert ByFullPath(mid, [e]);
      StepKeepsLinkUnits(mid, e, skip);
    }
  }

  // ---- files that are neither objects nor targets were installed before

  function Keep(l: seq<Path>, known: set<Path>): (r: seq<Path>)
    ensures forall f :: f in r <==> f in l && f in known
  {
    if l == [] then []
    else
      var n := |l| - 1;
      assert l == l[..n] + [l[n]];
      Keep(l[..n], known) + if l[n] in known then [l[n]] else []
  }

  function Reject(l: seq<Path>, known: set<Path>): (r: seq<Path>)
    ensures forall f :: f in r <==> f in l && f !in known
  {
    if l == [] then []
    else
      var n := |l| - 1;
      assert l == l[..n] + [l[n]];
      Reject(l[..n], known) + if l[n] in known then [] else [l[n]]
  }

  function Known(st: State): set<Path> { st.targets.Keys + st.objects.Keys }

  function FilterTarget(st: State, info: TargetInfo): TargetInfo
  {
    info.(installed := Reject(info.files, Known(st)), files := Keep(info.files, Known(st)))
  }

  function Filter(st: State): State
  {
    st.(targets := map t | t in st.targets :: FilterTarget(st, st.targets[t]))
  }

  /** The closure computation finds all it looks up: every file of a target is a target or an object. */
  ghost predicate Closed(g: Graph)
  {
    forall t, f :: Lists(g, t, f) ==> f in g.targets || f in g.objects
  }

  /** Filtering loses no file: each is kept, exactly when known, or becomes an installed one. Link units stay right. */
  lemma FilterExact(st: State)
    ensures Closed(AsGraph(Filter(st)))
    ensures forall t, f :: Lists(AsGraph(Filter(st)), t, f) <==> Lists(AsGraph(st), t, f) && f in Known(st)
    ensures forall t, f :: t in st.targets && f in st.targets[t].files ==>
      (f in Filter(st).targets[t].files) != (f in Filter(st).targets[t].installed)
    ensures LinkUnitsList(AsGraph(st)) ==> LinkUnitsList(AsGraph(Filter(st)))
    ensures Fresh(st) ==> Fresh(Filter(st))
  {
    var g := AsGraph(Filter(st));
    if LinkUnitsList(AsGraph(st)) {
      forall o | o in g.objects && g.objects[o].linkUnit.Some? ensures Lists(g, g.objects[o].linkUnit.value, o) {
        assert Lists(AsGraph(st), g.objects[o].linkUnit.value, o) && o in Known(st);
      }
    }
  }

  /** An object found by its relative path only is not among its target's files: its full path counts as installed. */
  lemma RelativeObjectIsLost(st: State, t: Path, f: LinkFile, skip: bool)
    requires OnlyRelative(st, f) && Unit(t).Some? && f.full !in st.targets && f.full != t
    requires t in st.targets ==> f.relative !in st.targets[t].files
    ensures var r := LinkStep(st, LinkEntry(Linker, t, [], [f]), skip);
      && r.Ok?
      && var g := AsGraph(Filter(r.value));
         && f.relative in g.objects && g.objects[f.relative].linkUnit == Some(t) && t in g.targets
         && f.full in g.targets[t].installed && f.full !in g.targets[t].files && f.relative !in g.targets[t].files
  {
    var with := WithTarget(st, t);
    OneFile(with, t, f, skip);
    FilterExact(LinkStep(st, LinkEntry(Linker, t, [], [f]), skip).value);
  }

  lemma OneFile(st: State, t: Path, f: LinkFile, skip: bool)
    requires t in st.targets
    ensures LinkFiles(st, t, [f], skip) == LinkFileStep(st, t, f, skip)
  {
    assert [f][..0] == [];
    assert LinkFiles(st, t, [], skip) == Ok(st);
  }

  /** The targets filtered except for those in `rest`. */
  function FilterBut(st: State, rest: set<Path>): State
  {
    st.(targets := map t | t in st.targets :: if t in rest then st.targets[t] else FilterTarget(st, st.targets[t]))
  }

  lemma FilterOne(st: State, rest: set<Path>, t: Path)
    requires t in rest && t in st.targets
    ensures var st' := FilterBut(st, rest);
      FilterBut(st, rest - {t}) == st'.(targets := st'.targets[t := FilterTarget(st', st'.targets[t])])
  {
    var st' := FilterBut(st, rest);
    assert Known(st') == Known(st);
    assert FilterBut(st, rest - {t}).targets == st'.targets[t := FilterTarget(st', st'.targets[t])];
  }

  lemma FilterEnds(st: State)
    ensures FilterBut(st, st.targets.Keys) == st && FilterBut(st, {}) == Filter(st)
  {
    assert FilterBut(st, st.targets.Keys).targets == st.targets;
    assert FilterBut(st, {}).targets == Filter(st).targets;
  }

  // ---- a target has no file twice

  lemma FileStaysDistinct(st: State, t: Path, f: LinkFile, skip: bool)
    requires t in st.targets && LinkFileStep(st, t, f, skip).Ok? && FilesDistinct(AsGraph(st))
    ensures FilesDistinct(AsGraph(LinkFileStep(st, t, f, skip).value))
  {
  }

  lemma {:induction false} FilesStayDistinct(st: State, t: Path, files: seq<LinkFile>, skip: bool)
    requires t in st.targets && LinkFiles(st, t, files, skip).Ok? && FilesDistinct(AsGraph(st))
    ensures FilesDistinct(AsGraph(LinkFiles(st, t, files, skip).value))
    decreases |files|
  {
    if files != [] {
      var n := |files| - 1;
      FilesStayDistinct(st, t, files[..n], skip);
      FileStaysDistinct(LinkFiles(st, t, files[..n], skip).value, t, files[n], skip);
    }
  }

  lemma {:induction false} RunStaysDistinct(st: State, es: seq<LinkEntry>, skip: bool)
    requires LinkRun(st, es, skip).Ok? && FilesDistinct(AsGraph(st))
    ensures FilesDistinct(AsGraph(LinkRun(st, es, skip).value))
  {
    if es != [] {
      var e := es[|es| - 1];
      RunStaysDistinct(st, es[..|es| - 1], skip);
      var mid := LinkRun(st, es[..|es| - 1], skip).value;
      if e.tool == Linker { FilesStayDistinct(WithTarget(mid, e.output), e.output, e.files, skip); }
    }
  }

  lemma {:induction false} KeepStaysDistinct(l: seq<Path>, known: set<Path>)
    requires Distinct(l)
    ensures Distinct(Keep(l, known))
  {
    if l != [] { KeepStaysDistinct(l[..|l| - 1], known); }
  }

  /** In a finished database no target has a file twice. */
  lemma BuiltFilesAreDistinct(temporary: (Path, Path) -> Path, compile: seq<CompileEntry>, link: seq<LinkEntry>,
                              skip: bool, m: map<Path, seq<Path>>)
    requires NamesObjects(temporary) && Built(temporary, compile, link, skip).Ok?
    ensures FilesDistinct(AsGraph(SetParents(Built(temporary, compile, link, skip).value, m, m.Keys)))
  {
    var st := SortAll(Run(temporary, compile));
    ObjectsKeepInv(temporary, compile);
    assert forall t :: t in st.targets ==> TargetMatches(st, t) && Distinct(st.targets[t].files);
    RunStaysDistinct(st, link, skip);
    var mid := LinkRun(st, link, skip).value;
    forall t | t in mid.targets ensures Distinct(Keep(mid.targets[t].files, Known(mid))) {
      KeepStaysDistinct(mid.targets[t].files, Known(mid));
    }
  }

  // ---- parents

  lemma AppendMaps(m: map<Path, seq<Path>>, f: Path, t: Path)
    ensures forall g, u :: Maps(Append(m, f, t), g, u) <==> Maps(m, g, u) || (g == f && u == t)
  {
    var before := if f in m then m[f] else [];
    assert forall u :: u in before + [t] <==> u in before || u == t;
  }

  predicate IsObject(f: Path) { f.kind == ObjectFile }

  /** `m` lists, for each file of the kind asked for, exactly those of the targets `done` that list the file. */
  ghost predicate Collects(st: State, done: set<Path>, m: map<Path, seq<Path>>, kind: Path -> bool)
  {
    && (forall f, u :: Maps(m, f, u) <==> u in done && Lists(AsGraph(st), u, f) && kind(f))
    && (forall f :: f in m ==> m[f] != [])
  }

  lemma LibrariesAreTargets(st: State, m: map<Path, seq<Path>>)
    requires Collects(st, st.targets.Keys, m, IsLibrary)
    ensures m.Keys <= st.targets.Keys <==> forall t, f :: Lists(AsGraph(st), t, f) && IsLibrary(f) ==> f in st.targets
  {
    forall f | f in m ensures exists t :: Lists(AsGraph(st), t, f) && IsLibrary(f) {
      assert Maps(m, f, m[f][0]);
    }
    forall t, f | Lists(AsGraph(st), t, f) && IsLibrary(f) ensures f in m {
      assert Maps(m, f, t);
    }
  }

  /** The targets of `done` with their parents set from `m`. */
  function SetParents(st: State, m: map<Path, seq<Path>>, done: set<Path>): State
  {
    st.(targets := map t | t in st.targets :: if t in m && t in done then st.targets[t].(parents := m[t]) else st.targets[t])
  }

  lemma SetParentsOne(st: State, m: map<Path, seq<Path>>, done: set<Path>, t: Path)
    requires t in m && t in st.targets && t !in done
    ensures var st' := SetParents(st, m, done);
      SetParents(st, m, done + {t}) == st'.(targets := st'.targets[t := st'.targets[t].(parents := m[t])])
  {
    var st' := SetParents(st, m, done);
    assert SetParents(st, m, done + {t}).targets == st'.targets[t := st'.targets[t].(parents := m[t])];
  }

  lemma SetParentsLess(st: State, m: map<Path, seq<Path>>, rest: set<Path>, t: Path)
    requires t in rest && rest <= m.Keys && t in st.targets
    ensures var st' := SetParents(st, m, m.Keys - rest);
      && SetParents(st, m, m.Keys - (rest - {t})) == st'.(targets := st'.targets[t := st'.targets[t].(parents := m[t])])
      && m.Keys - (rest - {t}) == m.Keys - rest + {t}
  {
    SetParentsOne(st, m, m.Keys - rest, t);
    assert m.Keys - rest + {t} == m.Keys - (rest - {t});
  }

  lemma SetParentsNone(st: State, m: map<Path, seq<Path>>)
    ensures SetParents(st, m, {}) == st
  {
    assert SetParents(st, m, {}).targets == st.targets;
  }

  /** The same maps, but for the parents of targets. */
  ghost predicate SameButParents(st: State, st': State)
  {
    && st' == st.(targets := st'.targets) && st'.targets.Keys == st.targets.Keys
    && forall t :: t in st.targets ==> st'.targets[t].(parents := st.targets[t].parents) == st.targets[t]
  }

  lemma OnlyParents(st: State, m: map<Path, seq<Path>>)
    ensures var st' := SetParents(st, m, m.Keys);
      SameButParents(st, st') && forall t, f :: Lists(AsGraph(st'), t, f) <==> Lists(AsGraph(st), t, f)
  {
  }

  /** Parents collected over all targets are exactly the targets listing a library. */
  lemma ParentsAreExact(st: State, m: map<Path, seq<Path>>)
    requires Collects(st, st.targets.Keys, m, IsLibrary) && m.Keys <= st.targets.Keys
    requires forall t :: t in st.targets ==> st.targets[t].parents == []
    ensures var g := AsGraph(SetParents(st, m, m.Keys));
      && ParentsExact(g)
      && (LinkUnitsList(AsGraph(st)) ==> LinkUnitsList(g)) && (Commanded(AsGraph(st)) ==> Commanded(g))
      && (Closed(AsGraph(st)) ==> Closed(g))
      && forall t, f :: Lists(g, t, f) <==> Lists(AsGraph(st), t, f)
  {
    var g := AsGraph(SetParents(st, m, m.Keys));
    assert forall t, f :: Lists(g, t, f) <==> Lists(AsGraph(st), t, f);
    forall t, u | t in g.targets && IsLibrary(t) && Lists(g, u, t) ensures u in g.targets[t].parents {
      assert Lists(AsGraph(st), u, t);
      assert Maps(m, t, u);
    }
    forall t, u | t in g.targets && u in g.targets[t].parents ensures IsLibrary(t) && Lists(g, u, t) {
      assert Maps(m, t, u);
      assert Lists(AsGraph(st), u, t);
    }
  }

  // ---- the whole construction

  /** The maps before parents are filled in: compile commands, sorting, link commands, filtering. */
  function Built(temporary: (Path, Path) -> Path, compile: seq<CompileEntry>, link: seq<LinkEntry>, skip: bool): Result<State>
  {
    var r := LinkRun(SortAll(Run(temporary, compile)), link, skip);
    if r.Err? then Err else Ok(Filter(r.value))
  }

  /** What queries on the graph rely on. */
  ghost predicate Sound(st: State)
  {
    && ParentsExact(AsGraph(st)) && LinkUnitsList(AsGraph(st)) && Commanded(AsGraph(st)) && Closed(AsGraph(st))
    && ListingsAreStored(st)
  }

  lemma ObjectsAreFresh(st: State)
    requires Inv(st)
    ensures Fresh(st) && (st.collisions == 0 ==> LinkUnitsList(AsGraph(st)))
  {
  }

  lemma BuiltIsFresh(temporary: (Path, Path) -> Path, compile: seq<CompileEntry>, link: seq<LinkEntry>, skip: bool)
    requires NamesObjects(temporary) && Built(temporary, compile, link, skip).Ok?
    ensures var st' := Built(temporary, compile, link, skip).value;
      Fresh(st') && SameObjects(SortAll(Run(temporary, compile)), st')
  {
    var st := SortAll(Run(temporary, compile));
    ObjectsKeepInv(temporary, compile);
    ObjectsAreFresh(st);
    RunKeepsFresh(st, link, skip);
    FilterExact(LinkRun(st, link, skip).value);
  }

  /** Without name collisions, and with objects given by full path, the finished database is sound. */
  lemma BuiltIsSound(temporary: (Path, Path) -> Path, compile: seq<CompileEntry>, link: seq<LinkEntry>, skip: bool,
                     m: map<Path, seq<Path>>)
    requires NamesObjects(temporary) && Built(temporary, compile, link, skip).Ok?
    requires Run(temporary, compile).collisions == 0 && ByFullPath(SortAll(Run(temporary, compile)), link)
    requires var st := Built(temporary, compile, link, skip).value;
      Collects(st, st.targets.Keys, m, IsLibrary) && m.Keys <= st.targets.Keys
    ensures Sound(SetParents(Built(temporary, compile, link, skip).value, m, m.Keys))
  {
    var st := SortAll(Run(temporary, compile));
    ObjectsKeepInv(temporary, compile);
    ObjectsAreFresh(st);
    StoredIffNoCollision(st);
    RunKeepsLinkUnits(st, link, skip);
    FilterExact(LinkRun(st, link, skip).value);
    BuiltIsFresh(temporary, compile, link, skip);
    var st' := Built(temporary, compile, link, skip).value;
    ParentsAreExact(st', m);
    StillStored(st, SetParents(st', m, m.Keys));
  }

  lemma StillStored(st: State, st': State)
    requires ListingsAreStored(st) && SameObjects(st, st')
    ensures ListingsAreStored(st')
  {
    assert forall s, i :: Placed(st', s, i) ==> Placed(st, s, i);
  }
}
