/** Exactly which compile commands make two objects share a temporary name. */
module Collisions {
  import opened BuildTypes
  import Naming
  import opened ObjectInit
  import TemporaryNames

  // ---- the commands

  predicate Compiled(es: seq<CompileEntry>, i: int) { 0 <= i < |es| && es[i].source.kind == SourceFile }

  predicate Outputs(es: seq<CompileEntry>, i: int, out: Path) { Compiled(es, i) && es[i].output == out }

  /** An output that is no object file and has a further source: its objects have temporary names. */
  ghost predicate Shared(es: seq<CompileEntry>, i: int)
  {
    Compiled(es, i) && es[i].output.kind != ObjectFile && exists j :: j != i && Outputs(es, j, es[i].output)
  }

  function Temporary(temporary: (Path, Path) -> Path, e: CompileEntry): Path { temporary(e.output, e.source) }

  /** Command `k` comes before the object of command `i` has its temporary name. */
  ghost predicate Before(es: seq<CompileEntry>, k: int, i: int)
    requires 0 <= i < |es|
  {
    k < i || forall j :: j <= k && j != i ==> !Outputs(es, j, es[i].output)
  }

  /** Two objects have the same temporary name. */
  ghost predicate SameTemporary(temporary: (Path, Path) -> Path, es: seq<CompileEntry>)
  {
    exists i, j :: i != j && Shared(es, i) && Shared(es, j) && Temporary(temporary, es[i]) == Temporary(temporary, es[j])
  }

  /** A temporary name is that of an object file compiled before. */
  ghost predicate TakenBefore(temporary: (Path, Path) -> Path, es: seq<CompileEntry>)
  {
    exists i, k :: Shared(es, i) && Outputs(es, k, Temporary(temporary, es[i])) && Before(es, k, i)
  }

  ghost predicate Clash(temporary: (Path, Path) -> Path, es: seq<CompileEntry>)
  {
    SameTemporary(temporary, es) || TakenBefore(temporary, es)
  }

  // ---- what a run has seen

  ghost predicate HasTemporary(temporary: (Path, Path) -> Path, es: seq<CompileEntry>, o: Path)
  {
    exists i :: Shared(es, i) && Temporary(temporary, es[i]) == o
  }

  ghost predicate HasOutput(es: seq<CompileEntry>, o: Path) { exists k :: Outputs(es, k, o) }

  ghost predicate HasShared(es: seq<CompileEntry>, out: Path) { exists i :: Shared(es, i) && es[i].output == out }

  /** An object file of this name has been compiled, directly or under a temporary name. */
  ghost predicate Taken(temporary: (Path, Path) -> Path, es: seq<CompileEntry>, o: Path)
  {
    HasOutput(es, o) || HasTemporary(temporary, es, o)
  }

  /** The objects and targets in terms of the commands. */
  ghost predicate Seen(temporary: (Path, Path) -> Path, es: seq<CompileEntry>, st: State)
  {
    && (forall o: Path :: o.kind == ObjectFile ==> (o in st.objects <==> Taken(temporary, es, o)))
    && (forall o: Path :: o.kind != ObjectFile ==> (o in st.targets <==> HasShared(es, o)))
    && (forall o: Path :: o.kind != ObjectFile ==> (o in st.objects <==> HasOutput(es, o) && !HasShared(es, o)))
    && (forall t :: t in st.targets ==> t.kind != ObjectFile)
  }

  /** An object under its own name, if that is not an object file's, has the source of the one command with this output. */
  ghost predicate SeenSources(es: seq<CompileEntry>, st: State)
  {
    forall i, o: Path :: Outputs(es, i, o) && o in st.objects && o.kind != ObjectFile ==> st.objects[o].source == es[i].source
  }

  // ---- one more command

  lemma OutputsNext(es: seq<CompileEntry>, e: CompileEntry)
    ensures forall i, o :: Outputs(es + [e], i, o) <==>
      Outputs(es, i, o) || (i == |es| && e.source.kind == SourceFile && e.output == o)
  {
  }

  /** The commands whose output is shared: those before, and with a second source the new one and the first. */
  lemma SharedNext(es: seq<CompileEntry>, e: CompileEntry, i: int)
    ensures Shared(es + [e], i) <==>
      || Shared(es, i)
      || (e.source.kind == SourceFile && e.output.kind != ObjectFile && HasOutput(es, e.output)
          && (i == |es| || Outputs(es, i, e.output)))
  {
    OutputsNext(es, e);
    var es' := es + [e];
    if Shared(es, i) {
      var j :| j != i && Outputs(es, j, es[i].output);
      assert Outputs(es', j, es'[i].output);
    }
    if e.source.kind == SourceFile && e.output.kind != ObjectFile && HasOutput(es, e.output) {
      var k :| Outputs(es, k, e.output);
      assert Outputs(es', k, e.output) && Outputs(es', |es|, e.output);
    }
    if Shared(es', i) {
      var j :| j != i && Outputs(es', j, es'[i].output);
      assert i < |es| && j < |es| ==> Outputs(es, j, es[i].output);
      assert i < |es| && j == |es| ==> Outputs(es, i, e.output);
      assert i == |es| ==> Outputs(es, j, e.output);
    }
  }

  lemma LaterIsNotBefore(es: seq<CompileEntry>, e: CompileEntry, i: int)
    requires Shared(es, i)
    ensures !Before(es + [e], |es|, i)
  {
    var j :| j != i && Outputs(es, j, es[i].output);
    assert Outputs(es + [e], j, (es + [e])[i].output);
  }

  lemma TwoOutputsShare(es: seq<CompileEntry>, i: int, j: int, out: Path)
    requires Outputs(es, i, out) && Outputs(es, j, out) && i != j && out.kind != ObjectFile
    ensures Shared(es, i) && HasShared(es, out)
  {
    assert Outputs(es, j, es[i].output);
    assert Shared(es, i);
  }

  lemma BeforeNext(es: seq<CompileEntry>, e: CompileEntry, k: int, i: int)
    requires 0 <= i < |es| && k < |es|
    ensures Before(es + [e], k, i) <==> Before(es, k, i)
  {
    var es' := es + [e];
    OutputsNext(es, e);
    assert es'[i] == es[i];
    if Before(es, k, i) && k >= i {
      forall j | j <= k && j != i ensures !Outputs(es', j, es'[i].output) { assert !Outputs(es, j, es[i].output); }
    }
    if Before(es', k, i) && k >= i {
      forall j | j <= k && j != i ensures !Outputs(es, j, es[i].output) { assert !Outputs(es', j, es'[i].output); }
    }
  }

  /** A command that shares no output adds no clash. */
  lemma ClashStays(temporary: (Path, Path) -> Path, es: seq<CompileEntry>, e: CompileEntry)
    requires NamesObjects(temporary)
    requires e.source.kind != SourceFile || e.output.kind == ObjectFile || !HasOutput(es, e.output)
    ensures Clash(temporary, es + [e]) <==> Clash(temporary, es)
  {
    var es' := es + [e];
    OutputsNext(es, e);
    forall i ensures Shared(es', i) <==> Shared(es, i) { SharedNext(es, e, i); }
    if TakenBefore(temporary, es) {
      var i, k :| Shared(es, i) && Outputs(es, k, Temporary(temporary, es[i])) && Before(es, k, i);
      BeforeNext(es, e, k, i);
      assert Outputs(es', k, Temporary(temporary, es'[i]));
    }
    if TakenBefore(temporary, es') {
      var i, k :| Shared(es', i) && Outputs(es', k, Temporary(temporary, es'[i])) && Before(es', k, i);
      LaterIsNotBefore(es, e, i);
      BeforeNext(es, e, k, i);
      assert Outputs(es, k, Temporary(temporary, es[i]));
    }
    if SameTemporary(temporary, es) {
      var i, j :| i != j && Shared(es, i) && Shared(es, j) && Temporary(temporary, es[i]) == Temporary(temporary, es[j]);
      assert Shared(es', i) && Shared(es', j);
    }
  }

  lemma AddShares(es: seq<CompileEntry>, e: CompileEntry)
    requires e.source.kind == SourceFile && HasShared(es, e.output)
    ensures forall i :: Shared(es + [e], i) <==> Shared(es, i) || i == |es|
    ensures HasOutput(es, e.output)
  {
    var s :| Shared(es, s) && es[s].output == e.output;
    assert Outputs(es, s, e.output);
    forall i ensures Shared(es + [e], i) <==> Shared(es, i) || i == |es| {
      SharedNext(es, e, i);
      if Outputs(es, i, e.output) && i != s { TwoOutputsShare(es, i, s, e.output); }
    }
  }

  /** A further source of an output shared before adds a clash exactly if its temporary name is taken. */
  lemma ClashAdds(temporary: (Path, Path) -> Path, es: seq<CompileEntry>, e: CompileEntry)
    requires NamesObjects(temporary) && e.source.kind == SourceFile && HasShared(es, e.output)
    ensures Clash(temporary, es + [e]) <==> Clash(temporary, es) || Taken(temporary, es, Temporary(temporary, e))
  {
    AddShares(es, e);
    NewNames(temporary, es, e, |es|);
  }

  /** One more command shares its output: the clashes of the newly shared ones, `n` and perhaps `first`. */
  lemma NewNames(temporary: (Path, Path) -> Path, es: seq<CompileEntry>, e: CompileEntry, first: nat)
    requires NamesObjects(temporary) && e.source.kind == SourceFile && e.output.kind != ObjectFile && first <= |es|
    requires forall i :: Shared(es + [e], i) <==> Shared(es, i) || i == first || i == |es|
    requires !Shared(es, first)
    requires forall k :: 0 <= k < |es| ==> Before(es + [e], k, first)
    ensures Clash(temporary, es + [e]) <==>
      || Clash(temporary, es)
      || Taken(temporary, es, Temporary(temporary, e)) || Taken(temporary, es, Temporary(temporary, (es + [e])[first]))
      || (first < |es| && Temporary(temporary, es[first]) == Temporary(temporary, e))
  {
    SameNext(temporary, es, e, first);
    TakenNext(temporary, es, e, first);
  }

  lemma SameNext(temporary: (Path, Path) -> Path, es: seq<CompileEntry>, e: CompileEntry, first: nat)
    requires first <= |es| && !Shared(es, first)
    requires forall i :: Shared(es + [e], i) <==> Shared(es, i) || i == first || i == |es|
    ensures SameTemporary(temporary, es + [e]) <==>
      || SameTemporary(temporary, es)
      || HasTemporary(temporary, es, Temporary(temporary, e))
      || HasTemporary(temporary, es, Temporary(temporary, (es + [e])[first]))
      || (first < |es| && Temporary(temporary, es[first]) == Temporary(temporary, e))
  {
    var es', n := es + [e], |es|;
    assert Shared(es', n) && Shared(es', first) && !Shared(es, n);
    if SameTemporary(temporary, es') {
      var i, j :| i != j && Shared(es', i) && Shared(es', j) && Temporary(temporary, es'[i]) == Temporary(temporary, es'[j]);
      if Shared(es, i) && Shared(es, j) {
        assert Temporary(temporary, es[i]) == Temporary(temporary, es[j]);
      }
    }
    if SameTemporary(temporary, es) {
      var i, j :| i != j && Shared(es, i) && Shared(es, j) && Temporary(temporary, es[i]) == Temporary(temporary, es[j]);
      assert Temporary(temporary, es'[i]) == Temporary(temporary, es'[j]);
    }
    if HasTemporary(temporary, es, Temporary(temporary, e)) {
      var i :| Shared(es, i) && Temporary(temporary, es[i]) == Temporary(temporary, e);
      assert Temporary(temporary, es'[i]) == Temporary(temporary, es'[n]);
    }
    if HasTemporary(temporary, es, Temporary(temporary, es'[first])) {
      var i :| Shared(es, i) && Temporary(temporary, es[i]) == Temporary(temporary, es'[first]);
      assert Temporary(temporary, es'[i]) == Temporary(temporary, es'[first]);
    }
    if first < n && Temporary(temporary, es[first]) == Temporary(temporary, e) {
      assert Temporary(temporary, es'[first]) == Temporary(temporary, es'[n]);
    }
  }

  lemma TakenNext(temporary: (Path, Path) -> Path, es: seq<CompileEntry>, e: CompileEntry, first: nat)
    requires NamesObjects(temporary) && e.source.kind == SourceFile && e.output.kind != ObjectFile && first <= |es|
    requires forall i :: Shared(es + [e], i) <==> Shared(es, i) || i == first || i == |es|
    requires forall k :: 0 <= k < |es| ==> Before(es + [e], k, first)
    ensures TakenBefore(temporary, es + [e]) <==>
      || TakenBefore(temporary, es)
      || HasOutput(es, Temporary(temporary, e)) || HasOutput(es, Temporary(temporary, (es + [e])[first]))
  {
    var es', n := es + [e], |es|;
    OutputsNext(es, e);
    if TakenBefore(temporary, es') {
      var i, k :| Shared(es', i) && Outputs(es', k, Temporary(temporary, es'[i])) && Before(es', k, i);
      assert k < n && Outputs(es, k, Temporary(temporary, es'[i]));
      if i != n && i != first {
        assert es'[i] == es[i];
        BeforeNext(es, e, k, i);
      }
    }
    if TakenBefore(temporary, es) {
      var i, k :| Shared(es, i) && Outputs(es, k, Temporary(temporary, es[i])) && Before(es, k, i);
      BeforeNext(es, e, k, i);
      assert Outputs(es', k, Temporary(temporary, es'[i]));
    }
    if HasOutput(es, Temporary(temporary, e)) {
      var k :| Outputs(es, k, Temporary(temporary, e));
      assert Outputs(es', k, Temporary(temporary, es'[n])) && Before(es', k, n);
    }
    if HasOutput(es, Temporary(temporary, es'[first])) {
      var k :| Outputs(es, k, Temporary(temporary, es'[first]));
      assert Outputs(es', k, Temporary(temporary, es'[first])) && Before(es', k, first);
    }
  }

  lemma ConvertShares(es: seq<CompileEntry>, e: CompileEntry, first: nat)
    requires e.source.kind == SourceFile && e.output.kind != ObjectFile
    requires Outputs(es, first, e.output) && !HasShared(es, e.output)
    ensures forall i :: Shared(es + [e], i) <==> Shared(es, i) || i == first || i == |es|
    ensures HasOutput(es, e.output)
  {
    OnlyFirst(es, e.output, first);
    forall i ensures Shared(es + [e], i) <==> Shared(es, i) || i == first || i == |es| { SharedNext(es, e, i); }
  }

  /** The second source of an output gives a temporary name to both. */
  lemma ClashConverts(temporary: (Path, Path) -> Path, es: seq<CompileEntry>, e: CompileEntry, first: nat)
    requires NamesObjects(temporary) && e.source.kind == SourceFile && e.output.kind != ObjectFile
    requires Outputs(es, first, e.output) && !HasShared(es, e.output)
    ensures Clash(temporary, es + [e]) <==>
      || Clash(temporary, es)
      || Taken(temporary, es, Temporary(temporary, e)) || Taken(temporary, es, Temporary(temporary, es[first]))
      || Temporary(temporary, es[first]) == Temporary(temporary, e)
  {
    OutputsNext(es, e);
    OnlyFirst(es, e.output, first);
    ConvertShares(es, e, first);
    NewNames(temporary, es, e, first);
  }

  lemma OnlyFirst(es: seq<CompileEntry>, out: Path, first: nat)
    requires out.kind != ObjectFile && Outputs(es, first, out) && !HasShared(es, out)
    ensures forall i :: Outputs(es, i, out) ==> i == first
    ensures !Shared(es, first)
  {
    forall i | Outputs(es, i, out) ensures i == first {
      if i != first { TwoOutputsShare(es, i, first, out); }
    }
  }

  // ---- one more step

  lemma HasOutputNext(es: seq<CompileEntry>, e: CompileEntry, o: Path)
    ensures HasOutput(es + [e], o) <==> HasOutput(es, o) || (e.source.kind == SourceFile && e.output == o)
  {
    var es' := es + [e];
    OutputsNext(es, e);
    if HasOutput(es, o) {
      var k :| Outputs(es, k, o);
      assert Outputs(es', k, o);
    }
    if e.source.kind == SourceFile && e.output == o { assert Outputs(es', |es|, o); }
  }

  /** The commands sharing an output are those of before and those in `more`. */
  ghost predicate SharedMore(es: seq<CompileEntry>, e: CompileEntry, more: set<nat>)
  {
    && (forall i :: Shared(es + [e], i) <==> Shared(es, i) || i in more)
    && (forall i :: i in more ==> i <= |es|)
  }

  lemma TemporaryBy(temporary: (Path, Path) -> Path, es: seq<CompileEntry>, e: CompileEntry, more: set<nat>, o: Path)
    requires SharedMore(es, e, more)
    ensures HasTemporary(temporary, es + [e], o) <==>
      HasTemporary(temporary, es, o) || exists i :: i in more && Temporary(temporary, (es + [e])[i]) == o
  {
    var es' := es + [e];
    if HasTemporary(temporary, es, o) {
      var i :| Shared(es, i) && Temporary(temporary, es[i]) == o;
      assert Shared(es', i) && Temporary(temporary, es'[i]) == o;
    }
    if i :| i in more && Temporary(temporary, es'[i]) == o { assert Shared(es', i); }
    if HasTemporary(temporary, es', o) {
      var i :| Shared(es', i) && Temporary(temporary, es'[i]) == o;
      assert i !in more ==> Temporary(temporary, es[i]) == o;
    }
  }

  lemma SharedBy(es: seq<CompileEntry>, e: CompileEntry, more: set<nat>, o: Path)
    requires SharedMore(es, e, more)
    ensures HasShared(es + [e], o) <==> HasShared(es, o) || exists i :: i in more && (es + [e])[i].output == o
  {
    var es' := es + [e];
    if HasShared(es, o) {
      var i :| Shared(es, i) && es[i].output == o;
      assert Shared(es', i) && es'[i].output == o;
    }
    if i :| i in more && es'[i].output == o { assert Shared(es', i); }
    if HasShared(es', o) {
      var i :| Shared(es', i) && es'[i].output == o;
      assert i !in more ==> es[i].output == o;
    }
  }

  ghost predicate SameNames(temporary: (Path, Path) -> Path, es: seq<CompileEntry>, es': seq<CompileEntry>)
  {
    forall o :: (HasTemporary(temporary, es', o) <==> HasTemporary(temporary, es, o)) && (HasShared(es', o) <==> HasShared(es, o))
  }

  lemma NamesStay(temporary: (Path, Path) -> Path, es: seq<CompileEntry>, e: CompileEntry)
    requires e.source.kind != SourceFile || e.output.kind == ObjectFile || !HasOutput(es, e.output)
    ensures SameNames(temporary, es, es + [e])
  {
    forall i ensures Shared(es + [e], i) <==> Shared(es, i) || i in {} { SharedNext(es, e, i); }
    forall o ensures HasTemporary(temporary, es + [e], o) <==> HasTemporary(temporary, es, o)
             ensures HasShared(es + [e], o) <==> HasShared(es, o)
    {
      TemporaryBy(temporary, es, e, {}, o);
      SharedBy(es, e, {}, o);
    }
  }

  /** A command that is skipped, or whose output is new. */
  lemma PlainStep(temporary: (Path, Path) -> Path, es: seq<CompileEntry>, e: CompileEntry, st: State)
    requires NamesObjects(temporary) && Seen(temporary, es, st) && SeenSources(es, st) && HaveCommands(st)
    requires e.source.kind != SourceFile || e.output.kind == ObjectFile || !(e.output in st.objects || e.output in st.targets)
    ensures var st' := Step(st, temporary, e);
      Seen(temporary, es + [e], st') && SeenSources(es + [e], st') && st'.collisions == st.collisions
    ensures Clash(temporary, es + [e]) <==> Clash(temporary, es)
  {
    NamesStay(temporary, es, e);
    ClashStays(temporary, es, e);
    OutputsNext(es, e);
    forall o ensures HasOutput(es + [e], o) <==> HasOutput(es, o) || (e.source.kind == SourceFile && e.output == o) {
      HasOutputNext(es, e, o);
    }
    var st' := Step(st, temporary, e);
    assert !(e.source.kind != SourceFile || e.output.kind == ObjectFile) ==> !HasOutput(es, e.output);
    forall i, o: Path | Outputs(es + [e], i, o) && o in st'.objects && o.kind != ObjectFile
      ensures st'.objects[o].source == (es + [e])[i].source
    {
      if Outputs(es, i, o) { assert HasOutput(es, o); }
    }
  }

  /** The objects of `st'` are those of `st`, those of `tmps`, but not those of `gone`; the rest have their sources. */
  predicate Moved(st: State, st': State, tmps: set<Path>, gone: set<Path>)
  {
    && st'.objects.Keys == st.objects.Keys + tmps - gone && st'.targets.Keys == st.targets.Keys + gone
    && forall o :: o in st'.objects && o !in tmps ==> st'.objects[o].source == st.objects[o].source
  }

  lemma AddMoves(st: State, temporary: (Path, Path) -> Path, e: CompileEntry)
    requires e.output in st.targets && HaveCommands(st)
    ensures var st', tmp := AddToTarget(st, temporary, e), Temporary(temporary, e);
      Moved(st, st', {tmp}, {}) && st'.collisions == st.collisions + if tmp in st.objects then 1 else 0
  {
  }

  lemma ConvertMoves(st: State, temporary: (Path, Path) -> Path, out: Path, first: CompileEntry)
    requires NamesObjects(temporary) && out.kind != ObjectFile && out in st.objects && HaveCommands(st)
    requires first.output == out && first.source == st.objects[out].source
    ensures var st', tmp := Convert(st, temporary, out), Temporary(temporary, first);
      Moved(st, st', {tmp}, {out}) && st'.collisions == st.collisions + if tmp in st.objects then 1 else 0
  {
  }

  /** The outputs of the commands, with `e.output` among them before. */
  lemma SameOutputs(es: seq<CompileEntry>, e: CompileEntry)
    requires HasOutput(es, e.output)
    ensures forall o :: HasOutput(es + [e], o) <==> HasOutput(es, o)
  {
    forall o ensures HasOutput(es + [e], o) <==> HasOutput(es, o) { HasOutputNext(es, e, o); }
  }

  /** The temporary names are those of before and `tmps`; the shared outputs are those of before and `gone`. */
  ghost predicate NamesGrow(temporary: (Path, Path) -> Path, es: seq<CompileEntry>, es': seq<CompileEntry>,
                            tmps: set<Path>, gone: set<Path>)
  {
    && (forall o :: HasTemporary(temporary, es', o) <==> HasTemporary(temporary, es, o) || o in tmps)
    && (forall o :: HasShared(es', o) <==> HasShared(es, o) || o in gone)
  }

  lemma SeenMoves(temporary: (Path, Path) -> Path, es: seq<CompileEntry>, e: CompileEntry, st: State, st': State,
                  tmps: set<Path>, gone: set<Path>)
    requires Seen(temporary, es, st) && Moved(st, st', tmps, gone) && HasOutput(es, e.output)
    requires (forall o :: o in tmps ==> o.kind == ObjectFile) && (forall o :: o in gone ==> o.kind != ObjectFile && HasOutput(es, o))
    requires NamesGrow(temporary, es, es + [e], tmps, gone)
    ensures Seen(temporary, es + [e], st')
  {
    SameOutputs(es, e);
  }

  lemma SourcesMove(es: seq<CompileEntry>, e: CompileEntry, st: State, st': State, tmps: set<Path>, gone: set<Path>)
    requires SeenSources(es, st) && Moved(st, st', tmps, gone) && e.output !in st'.objects
    requires forall o :: o in tmps ==> o.kind == ObjectFile
    ensures SeenSources(es + [e], st')
  {
    OutputsNext(es, e);
  }

  /** The collisions counted in a step go with the clashes the command adds. */
  ghost predicate Counts(temporary: (Path, Path) -> Path, es: seq<CompileEntry>, e: CompileEntry, st: State, st': State)
  {
    && st'.collisions >= st.collisions
    && (Clash(temporary, es + [e]) <==> Clash(temporary, es) || st'.collisions > st.collisions)
  }

  lemma OneShares(temporary: (Path, Path) -> Path, es: seq<CompileEntry>, e: CompileEntry)
    requires SharedMore(es, e, {|es|}) && HasShared(es, e.output)
    ensures NamesGrow(temporary, es, es + [e], {Temporary(temporary, e)}, {})
  {
    var more: set<nat> := {|es|};
    assert |es| in more && forall i :: i in more ==> i == |es|;
    forall o ensures HasTemporary(temporary, es + [e], o) <==> HasTemporary(temporary, es, o) || o in {Temporary(temporary, e)} {
      TemporaryBy(temporary, es, e, more, o);
    }
    forall o ensures HasShared(es + [e], o) <==> HasShared(es, o) || o in {} { SharedBy(es, e, more, o); }
  }

  lemma AddNames(temporary: (Path, Path) -> Path, es: seq<CompileEntry>, e: CompileEntry)
    requires e.source.kind == SourceFile && HasShared(es, e.output)
    ensures NamesGrow(temporary, es, es + [e], {Temporary(temporary, e)}, {}) && HasOutput(es, e.output)
  {
    AddShares(es, e);
    OneShares(temporary, es, e);
  }

  lemma AddSeen(temporary: (Path, Path) -> Path, es: seq<CompileEntry>, e: CompileEntry, st: State, st': State)
    requires NamesObjects(temporary) && Seen(temporary, es, st) && SeenSources(es, st) && e.output !in st'.objects
    requires e.source.kind == SourceFile && HasShared(es, e.output) && Moved(st, st', {Temporary(temporary, e)}, {})
    ensures Seen(temporary, es + [e], st') && SeenSources(es + [e], st')
  {
    var tmps := {Temporary(temporary, e)};
    AddNames(temporary, es, e);
    SeenMoves(temporary, es, e, st, st', tmps, {});
    SourcesMove(es, e, st, st', tmps, {});
  }

  /** One more source of a target. */
  lemma AddStep(temporary: (Path, Path) -> Path, es: seq<CompileEntry>, e: CompileEntry, st: State)
    requires NamesObjects(temporary) && Seen(temporary, es, st) && SeenSources(es, st) && HaveCommands(st)
    requires e.source.kind == SourceFile && e.output.kind != ObjectFile && e.output in st.targets
    ensures var st' := AddToTarget(st, temporary, e);
      Seen(temporary, es + [e], st') && SeenSources(es + [e], st') && Counts(temporary, es, e, st, st')
  {
    AddMoves(st, temporary, e);
    ClashAdds(temporary, es, e);
    AddSeen(temporary, es, e, st, AddToTarget(st, temporary, e));
  }

  lemma MovedTwice(st: State, mid: State, st': State, a: Path, b: Path, out: Path)
    requires Moved(st, mid, {a}, {out}) && Moved(mid, st', {b}, {}) && out !in {a, b}
    ensures Moved(st, st', {a, b}, {out})
    ensures b in mid.objects <==> b in st.objects || a == b
  {
  }

  lemma ConvertSeen(temporary: (Path, Path) -> Path, es: seq<CompileEntry>, e: CompileEntry, st: State, st': State, first: nat)
    requires NamesObjects(temporary) && Seen(temporary, es, st) && SeenSources(es, st)
    requires e.source.kind == SourceFile && e.output.kind != ObjectFile && Outputs(es, first, e.output)
    requires !HasShared(es, e.output)
    requires Moved(st, st', {Temporary(temporary, es[first]), Temporary(temporary, e)}, {e.output})
    ensures Seen(temporary, es + [e], st') && SeenSources(es + [e], st')
  {
    var tmps := {Temporary(temporary, es[first]), Temporary(temporary, e)};
    ConvertNames(temporary, es, e, first);
    SeenMoves(temporary, es, e, st, st', tmps, {e.output});
    SourcesMove(es, e, st, st', tmps, {e.output});
  }

  /** The second source of an output. */
  lemma ConvertStep(temporary: (Path, Path) -> Path, es: seq<CompileEntry>, e: CompileEntry, st: State)
    requires NamesObjects(temporary) && Seen(temporary, es, st) && SeenSources(es, st) && HaveCommands(st)
    requires e.source.kind == SourceFile && e.output.kind != ObjectFile && e.output in st.objects
    ensures var st' := AddToTarget(Convert(st, temporary, e.output), temporary, e);
      Seen(temporary, es + [e], st') && SeenSources(es + [e], st') && Counts(temporary, es, e, st, st')
  {
    var first: nat :| Outputs(es, first, e.output);
    var mid := Convert(st, temporary, e.output);
    var st' := AddToTarget(mid, temporary, e);
    ConvertMoves(st, temporary, e.output, es[first]);
    AddMoves(mid, temporary, e);
    MovedTwice(st, mid, st', Temporary(temporary, es[first]), Temporary(temporary, e), e.output);
    ClashConverts(temporary, es, e, first);
    ConvertSeen(temporary, es, e, st, st', first);
  }

  lemma ConvertNames(temporary: (Path, Path) -> Path, es: seq<CompileEntry>, e: CompileEntry, first: nat)
    requires e.source.kind == SourceFile && e.output.kind != ObjectFile
    requires Outputs(es, first, e.output) && !HasShared(es, e.output)
    ensures NamesGrow(temporary, es, es + [e], {Temporary(temporary, es[first]), Temporary(temporary, e)}, {e.output})
    ensures HasOutput(es, e.output)
  {
    ConvertShares(es, e, first);
    var more: set<nat>, tmps := {first, |es|}, {Temporary(temporary, es[first]), Temporary(temporary, e)};
    assert first in more && |es| in more && forall i :: i in more ==> i == first || i == |es|;
    forall o ensures HasTemporary(temporary, es + [e], o) <==> HasTemporary(temporary, es, o) || o in tmps {
      TemporaryBy(temporary, es, e, more, o);
    }
    forall o ensures HasShared(es + [e], o) <==> HasShared(es, o) || o in {e.output} { SharedBy(es, e, more, o); }
  }

  lemma {:induction false} RunSees(temporary: (Path, Path) -> Path, es: seq<CompileEntry>)
    requires NamesObjects(temporary)
    ensures Seen(temporary, es, Run(temporary, es)) && SeenSources(es, Run(temporary, es))
    ensures Run(temporary, es).collisions > 0 <==> Clash(temporary, es)
  {
    if es != [] {
      var before, e := es[..|es| - 1], es[|es| - 1];
      RunSees(temporary, before);
      assert es == before + [e];
      StepSees(temporary, before, e, Run(temporary, before));
    }
  }

  lemma StepSees(temporary: (Path, Path) -> Path, es: seq<CompileEntry>, e: CompileEntry, st: State)
    requires NamesObjects(temporary) && Seen(temporary, es, st) && SeenSources(es, st) && HaveCommands(st)
    ensures var st' := Step(st, temporary, e);
      Seen(temporary, es + [e], st') && SeenSources(es + [e], st') && Counts(temporary, es, e, st, st')
  {
    if e.source.kind != SourceFile || e.output.kind == ObjectFile || !(e.output in st.objects || e.output in st.targets) {
      PlainStep(temporary, es, e, st);
    } else if e.output in st.targets {
      AddStep(temporary, es, e, st);
      assert Step(st, temporary, e) == AddToTarget(st, temporary, e);
    } else {
      ConvertStep(temporary, es, e, st);
    }
  }

  /** Every listing leads to an object of its own exactly if no two compile commands clash. */
  lemma StoredIffNoClash(temporary: (Path, Path) -> Path, es: seq<CompileEntry>)
    requires NamesObjects(temporary)
    ensures ListingsAreStored(Run(temporary, es)) <==> !Clash(temporary, es)
  {
    RunSees(temporary, es);
    RunKeepsInv(temporary, es);
    StoredIffNoCollision(Run(temporary, es));
  }

  // ---- names

  /** Temporary names are made from those of the program and the source. */
  ghost predicate MadeOfNames(temporary: (Path, Path) -> Path, names: Path -> seq<string>, path: seq<string> -> Path)
  {
    && (forall p: Path :: names(p) != [])
    && forall o, s :: temporary(o, s) == path(TemporaryNames.TemporaryObject(names(o), names(s)))
  }

  /**
   Two files of one name but for their extensions, in different directories or the same, compiled straight into one
   program: the first is lost.
   */
  lemma SameFileNameIsLost(temporary: (Path, Path) -> Path, names: Path -> seq<string>, path: seq<string> -> Path,
                           a: Path, b: Path, program: Path)
    requires NamesObjects(temporary) && MadeOfNames(temporary, names, path)
    requires a.kind == b.kind == SourceFile && a != b && program.kind == OtherFile
    requires Naming.Stem(TemporaryNames.FileName(names(a))) == Naming.Stem(TemporaryNames.FileName(names(b)))
    ensures var es := [CompileEntry(a, program), CompileEntry(b, program)];
      && Clash(temporary, es) && Run(temporary, es).collisions == 1
      && !ListingsAreStored(Run(temporary, es))
  {
    TemporaryNames.TemporaryObjectsEqualIff(names(program), names(a), names(program), names(b));
    SameTemporaryIsLost(temporary, a, b, program);
    RunSees(temporary, [CompileEntry(a, program), CompileEntry(b, program)]);
  }
}
