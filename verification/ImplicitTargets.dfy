/** The implicit targets that the compile commands leave, and the outputs they have ignored. */
module ImplicitTargets {
  import opened BuildTypes
  import opened Collisions
  import opened ObjectInit

  /** A source compiled straight into `t` has `f` as its temporary object. */
  ghost predicate Compiles(temporary: (Path, Path) -> Path, es: seq<CompileEntry>, t: Path, f: Path)
  {
    exists i :: Shared(es, i) && es[i].output == t && Temporary(temporary, es[i]) == f
  }

  /** A command whose file is no C or C++ source has this output. */
  ghost predicate NotCompiled(es: seq<CompileEntry>, o: Path)
  {
    exists k :: 0 <= k < |es| && es[k].source.kind != SourceFile && es[k].output == o
  }

  ghost predicate SeenFiles(temporary: (Path, Path) -> Path, es: seq<CompileEntry>, st: State)
  {
    && (forall t, f :: t in st.targets ==> (f in st.targets[t].files <==> Compiles(temporary, es, t, f)))
    && (forall o :: o in st.ignored <==> NotCompiled(es, o))
  }

  lemma CompilesBy(temporary: (Path, Path) -> Path, es: seq<CompileEntry>, e: CompileEntry, more: set<nat>, t: Path, f: Path)
    requires SharedMore(es, e, more)
    ensures Compiles(temporary, es + [e], t, f) <==>
      || Compiles(temporary, es, t, f)
      || exists i :: i in more && (es + [e])[i].output == t && Temporary(temporary, (es + [e])[i]) == f
  {
    var es' := es + [e];
    if i :| Shared(es, i) && es[i].output == t && Temporary(temporary, es[i]) == f {
      assert Shared(es', i) && es'[i] == es[i];
    }
    if i :| i in more && es'[i].output == t && Temporary(temporary, es'[i]) == f { assert Shared(es', i); }
    if i :| Shared(es', i) && es'[i].output == t && Temporary(temporary, es'[i]) == f {
      assert i !in more ==> es'[i] == es[i];
    }
  }

  lemma NotCompiledNext(es: seq<CompileEntry>, e: CompileEntry, o: Path)
    ensures NotCompiled(es + [e], o) <==> NotCompiled(es, o) || (e.source.kind != SourceFile && e.output == o)
  {
    var es' := es + [e];
    assert es'[|es|] == e;
    if k :| 0 <= k < |es| && es[k].source.kind != SourceFile && es[k].output == o { assert es'[k] == es[k]; }
  }

  lemma PlainFiles(temporary: (Path, Path) -> Path, es: seq<CompileEntry>, e: CompileEntry, st: State)
    requires SeenFiles(temporary, es, st) && Seen(temporary, es, st) && HaveCommands(st)
    requires e.source.kind != SourceFile || e.output.kind == ObjectFile || !(e.output in st.objects || e.output in st.targets)
    ensures SeenFiles(temporary, es + [e], Step(st, temporary, e))
  {
    forall i ensures Shared(es + [e], i) <==> Shared(es, i) || i in {} { SharedNext(es, e, i); }
    forall t, f ensures Compiles(temporary, es + [e], t, f) <==> Compiles(temporary, es, t, f) {
      CompilesBy(temporary, es, e, {}, t, f);
    }
    forall o ensures NotCompiled(es + [e], o) <==> NotCompiled(es, o) || (e.source.kind != SourceFile && e.output == o) {
      NotCompiledNext(es, e, o);
    }
  }

  /** The files of one target grow by some; all other targets stay. */
  ghost predicate Grows(st: State, st': State, t: Path, more: set<Path>)
  {
    && st'.ignored == st.ignored && t in st'.targets && st'.targets.Keys == st.targets.Keys + {t}
    && (forall u :: u in st.targets && u != t ==> st'.targets[u].files == st.targets[u].files)
    && forall f :: f in st'.targets[t].files <==> (t in st.targets && f in st.targets[t].files) || f in more
  }

  lemma AddGrows(st: State, temporary: (Path, Path) -> Path, e: CompileEntry)
    requires e.output in st.targets && HaveCommands(st)
    ensures Grows(st, AddToTarget(st, temporary, e), e.output, {Temporary(temporary, e)})
  {
  }

  lemma ConvertGrows(st: State, temporary: (Path, Path) -> Path, first: CompileEntry, e: CompileEntry)
    requires e.output in st.objects && e.output !in st.targets && HaveCommands(st)
    requires first.output == e.output && first.source == st.objects[e.output].source
    ensures Grows(st, AddToTarget(Convert(st, temporary, e.output), temporary, e), e.output,
                  {Temporary(temporary, first), Temporary(temporary, e)})
  {
    AddGrows(Convert(st, temporary, e.output), temporary, e);
  }

  lemma GrownFiles(temporary: (Path, Path) -> Path, es: seq<CompileEntry>, e: CompileEntry, st: State, st': State,
                   tmps: set<Path>)
    requires SeenFiles(temporary, es, st) && Grows(st, st', e.output, tmps) && e.source.kind == SourceFile
    requires forall t, f :: Compiles(temporary, es + [e], t, f) <==>
      Compiles(temporary, es, t, f) || (t == e.output && f in tmps)
    requires e.output !in st.targets ==> forall f :: !Compiles(temporary, es, e.output, f)
    ensures SeenFiles(temporary, es + [e], st')
  {
    forall o ensures NotCompiled(es + [e], o) <==> NotCompiled(es, o) { NotCompiledNext(es, e, o); }
  }

  lemma AddCompiles(temporary: (Path, Path) -> Path, es: seq<CompileEntry>, e: CompileEntry)
    requires e.source.kind == SourceFile && HasShared(es, e.output)
    ensures forall t, f :: Compiles(temporary, es + [e], t, f) <==>
      Compiles(temporary, es, t, f) || (t == e.output && f in {Temporary(temporary, e)})
  {
    AddShares(es, e);
    var more: set<nat> := {|es|};
    forall t, f ensures Compiles(temporary, es + [e], t, f) <==>
      Compiles(temporary, es, t, f) || (t == e.output && f in {Temporary(temporary, e)})
    {
      CompilesBy(temporary, es, e, more, t, f);
      assert |es| in more;
    }
  }

  lemma ConvertCompiles(temporary: (Path, Path) -> Path, es: seq<CompileEntry>, e: CompileEntry, first: nat)
    requires e.source.kind == SourceFile && e.output.kind != ObjectFile
    requires Collisions.Outputs(es, first, e.output) && !HasShared(es, e.output)
    ensures forall t, f :: Compiles(temporary, es + [e], t, f) <==>
      Compiles(temporary, es, t, f) || (t == e.output && f in {Temporary(temporary, es[first]), Temporary(temporary, e)})
  {
    ConvertShares(es, e, first);
    var more: set<nat> := {first, |es|};
    forall t, f ensures Compiles(temporary, es + [e], t, f) <==>
      Compiles(temporary, es, t, f) || (t == e.output && f in {Temporary(temporary, es[first]), Temporary(temporary, e)})
    {
      CompilesBy(temporary, es, e, more, t, f);
      assert |es| in more && first in more;
    }
  }

  lemma AddFiles(temporary: (Path, Path) -> Path, es: seq<CompileEntry>, e: CompileEntry, st: State)
    requires SeenFiles(temporary, es, st) && HaveCommands(st) && e.source.kind == SourceFile
    requires e.output in st.targets && HasShared(es, e.output)
    ensures SeenFiles(temporary, es + [e], AddToTarget(st, temporary, e))
  {
    AddGrows(st, temporary, e);
    AddCompiles(temporary, es, e);
    GrownFiles(temporary, es, e, st, AddToTarget(st, temporary, e), {Temporary(temporary, e)});
  }

  lemma ConvertFiles(temporary: (Path, Path) -> Path, es: seq<CompileEntry>, e: CompileEntry, st: State, first: nat)
    requires SeenFiles(temporary, es, st) && HaveCommands(st) && e.source.kind == SourceFile
    requires e.output in st.objects && e.output !in st.targets && e.output.kind != ObjectFile
    requires Collisions.Outputs(es, first, e.output) && !HasShared(es, e.output)
    requires es[first].source == st.objects[e.output].source
    ensures SeenFiles(temporary, es + [e], AddToTarget(Convert(st, temporary, e.output), temporary, e))
  {
    var tmps := {Temporary(temporary, es[first]), Temporary(temporary, e)};
    ConvertGrows(st, temporary, es[first], e);
    ConvertCompiles(temporary, es, e, first);
    assert forall f :: Compiles(temporary, es, e.output, f) ==> HasShared(es, e.output);
    GrownFiles(temporary, es, e, st, AddToTarget(Convert(st, temporary, e.output), temporary, e), tmps);
  }

  lemma StepFiles(temporary: (Path, Path) -> Path, es: seq<CompileEntry>, e: CompileEntry, st: State)
    requires NamesObjects(temporary) && Seen(temporary, es, st) && SeenSources(es, st) && HaveCommands(st)
    requires SeenFiles(temporary, es, st)
    ensures SeenFiles(temporary, es + [e], Step(st, temporary, e))
  {
    var out := e.output;
    if e.source.kind != SourceFile || out.kind == ObjectFile || !(out in st.objects || out in st.targets) {
      PlainFiles(temporary, es, e, st);
    } else if out in st.targets {
      AddFiles(temporary, es, e, st);
    } else {
      var first: nat :| Collisions.Outputs(es, first, out);
      ConvertFiles(temporary, es, e, st, first);
    }
  }

  /** The implicit targets list exactly the temporary objects of their sources; other files' outputs are ignored. */
  lemma {:induction false} RunSeesFiles(temporary: (Path, Path) -> Path, es: seq<CompileEntry>)
    requires NamesObjects(temporary)
    ensures SeenFiles(temporary, es, Run(temporary, es))
  {
    if es != [] {
      var before, e := es[..|es| - 1], es[|es| - 1];
      RunSeesFiles(temporary, before);
      RunSees(temporary, before);
      assert es == before + [e];
      StepFiles(temporary, before, e, Run(temporary, before));
    }
  }
}
