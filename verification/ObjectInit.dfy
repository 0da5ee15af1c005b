/** Reading the compile commands: which objects, implicit targets and source listings they leave. */
module ObjectInit {
  import opened BuildTypes
  import Priority
  import opened Wrappers

  datatype CompileEntry = CompileEntry(source: Path, output: Path)

  /** The maps being filled, by path; `collisions` counts the temporary names found to be taken already. */
  datatype State = State(objects: map<Path, ObjectInfo>, sources: map<Path, seq<Path>>, targets: map<Path, TargetInfo>,
                         ignored: set<Path>, collisions: nat)

  function Empty(): State { State(map[], map[], map[], {}, 0) }

  /** A link unit with an empty path counts as none. */
  function Unit(t: Path): Option<Path> { if t.name == "" then None else Some(t) }

  /** Insertion into a set that keeps the order of insertion. */
  function Insert(l: seq<Path>, x: Path): seq<Path> { if x in l then l else l + [x] }

  function Append(m: map<Path, seq<Path>>, s: Path, x: Path): map<Path, seq<Path>>
  {
    m[s := (if s in m then m[s] else []) + [x]]
  }

  function Replace(l: seq<Path>, from: Path, to: Path): seq<Path>
  {
    seq(|l|, i requires 0 <= i < |l| => if l[i] == from then to else l[i])
  }

  function ReplaceAll(m: map<Path, seq<Path>>, from: Path, to: Path): map<Path, seq<Path>>
  {
    map s | s in m :: Replace(m[s], from, to)
  }

  /** Storing under a temporary name goes ahead when the name is taken; the clash is only logged. */
  function Store(st: State, o: Path, info: ObjectInfo): State
  {
    st.(objects := st.objects[o := info], collisions := st.collisions + if o in st.objects then 1 else 0)
  }

  /** An output with a second source is no object: its object moves to a temporary name, and it becomes a target. */
  function Convert(st: State, temporary: (Path, Path) -> Path, out: Path): State
    requires out in st.objects
  {
    var source := st.objects[out].source;
    var tmp := temporary(out, source);
    var moved := Store(st, tmp, ObjectInfo(source, Unit(out)));
    moved.(objects := moved.objects - {out}, sources := ReplaceAll(st.sources, out, tmp),
           targets := st.targets[out := TargetInfo([LinkLine(out, [tmp])], [tmp], [], [])])
  }

  /** One more source of the implicit target `e.output`. */
  function AddToTarget(st: State, temporary: (Path, Path) -> Path, e: CompileEntry): State
    requires e.output in st.targets && st.targets[e.output].commands != []
  {
    var tmp := temporary(e.output, e.source);
    var info := st.targets[e.output];
    var line := info.commands[0];
    var bigger := info.(commands := info.commands[0 := line.(arguments := line.arguments + [tmp])],
                        files := Insert(info.files, tmp));
    Store(st, tmp, ObjectInfo(e.source, Unit(e.output)))
    .(sources := Append(st.sources, e.source, tmp), targets := st.targets[e.output := bigger])
  }

  /** The first command with this output, or one more for an object file's name. */
  function NewObject(st: State, e: CompileEntry): State
  {
    st.(objects := st.objects[e.output := ObjectInfo(e.source, None)], sources := Append(st.sources, e.source, e.output))
  }

  predicate HaveCommands(st: State) { forall t :: t in st.targets ==> st.targets[t].commands != [] }

  function Step(st: State, temporary: (Path, Path) -> Path, e: CompileEntry): (st': State)
    requires HaveCommands(st)
    ensures HaveCommands(st')
  {
    if e.source.kind != SourceFile then st.(ignored := st.ignored + {e.output})
    else if e.output in st.objects && e.output.kind == ObjectFile then st
    else if e.output in st.targets then AddToTarget(st, temporary, e)
    else if e.output in st.objects then AddToTarget(Convert(st, temporary, e.output), temporary, e)
    else NewObject(st, e)
  }

  // ---- what every step keeps

  ghost predicate Distinct(l: seq<Path>)
  {
    forall i, j :: 0 <= i < j < |l| ==> l[i] != l[j]
  }

  /** Objects and targets have different names, and no target is named like an object file. */
  ghost predicate Separate(st: State)
  {
    && st.objects.Keys !! st.targets.Keys
    && forall t :: t in st.targets ==> t.kind != ObjectFile
  }

  predicate Placed(st: State, s: Path, i: int)
  {
    s in st.sources && 0 <= i < |st.sources[s]|
  }

  /** Every object is listed under its source, what is listed is an object, and compiled from a C or C++ file. */
  ghost predicate Listed(st: State)
  {
    && (forall o :: o in st.objects ==> st.objects[o].source in st.sources && o in st.sources[st.objects[o].source])
    && (forall s, i :: Placed(st, s, i) ==> st.sources[s][i] in st.objects)
    && (forall s :: s in st.sources ==> s.kind == SourceFile)
  }

  /** Two places in the listings with the same object path. */
  ghost predicate Twice(st: State, s: Path, i: int, s': Path, j: int)
  {
    Placed(st, s, i) && Placed(st, s', j) && (s, i) != (s', j) && st.sources[s][i] == st.sources[s'][j]
  }

  /** A path may be listed twice only when it is an object file's, and only after a collision. */
  ghost predicate OnceUnlessCollided(st: State)
  {
    && (forall s, i, s', j :: Twice(st, s, i, s', j) ==> st.sources[s][i].kind == ObjectFile && st.collisions > 0)
    && (st.collisions > 0 ==> exists s, i, s', j :: Twice(st, s, i, s', j))
  }

  /** The files of an implicit target are known object files, and exactly the arguments of its command. */
  ghost predicate TargetMatches(st: State, t: Path)
    requires t in st.targets
  {
    var info := st.targets[t];
    && |info.commands| == 1 && info.commands[0].output == t && info.parents == []
    && (forall f :: f in info.files <==> f in info.commands[0].arguments)
    && Distinct(info.files)
    && (forall f :: f in info.files ==> f.kind == ObjectFile && f in st.objects)
    && (st.collisions == 0 ==> info.commands[0].arguments == info.files)
  }

  ghost predicate TargetsMatch(st: State) { forall t :: t in st.targets ==> TargetMatches(st, t) }

  /** The files of a target have it as their link unit. */
  ghost predicate FilesLinked(st: State)
  {
    forall t, f :: t in st.targets && f in st.targets[t].files && f in st.objects ==> st.objects[f].linkUnit == Unit(t)
  }

  /** A link unit is a target that lists the object. */
  ghost predicate UnitsList(st: State)
  {
    forall o :: o in st.objects && st.objects[o].linkUnit.Some? ==>
      var t := st.objects[o].linkUnit.value; t in st.targets && o in st.targets[t].files
  }

  /** Without collisions an object's link unit is the implicit target that lists it. */
  ghost predicate LinksMatch(st: State) { FilesLinked(st) && UnitsList(st) }

  ghost predicate FilesKnown(st: State)
  {
    forall t, f :: t in st.targets && f in st.targets[t].files ==> f in st.objects
  }

  ghost predicate Inv(st: State)
  {
    Separate(st) && Listed(st) && OnceUnlessCollided(st) && TargetsMatch(st) && (st.collisions == 0 ==> LinksMatch(st))
  }

  /** Temporary names end in `.o`. */
  ghost predicate NamesObjects(temporary: (Path, Path) -> Path)
  {
    forall o, s :: temporary(o, s).kind == ObjectFile
  }

  lemma ConvertKeepsInv(st: State, temporary: (Path, Path) -> Path, out: Path)
    requires Inv(st) && NamesObjects(temporary) && out in st.objects && out.kind != ObjectFile
    ensures Inv(Convert(st, temporary, out))
  {
    ConvertListed(st, temporary, out);
    ConvertOnce(st, temporary, out);
    ConvertTargets(st, temporary, out);
    if Convert(st, temporary, out).collisions == 0 { ConvertLinks(st, temporary, out); }
  }

  lemma ConvertListed(st: State, temporary: (Path, Path) -> Path, out: Path)
    requires Listed(st) && NamesObjects(temporary) && out in st.objects && out.kind != ObjectFile
    ensures Listed(Convert(st, temporary, out))
  {
    var source := st.objects[out].source;
    var tmp := temporary(out, source);
    var st' := Convert(st, temporary, out);
    var i :| 0 <= i < |st.sources[source]| && st.sources[source][i] == out;
    assert st'.sources[source][i] == tmp;
    forall o | o in st'.objects && o != tmp
      ensures st'.objects[o].source in st'.sources && o in st'.sources[st'.objects[o].source]
    {
      var s := st.objects[o].source;
      var j :| 0 <= j < |st.sources[s]| && st.sources[s][j] == o;
      assert st'.sources[s][j] == o;
    }
    forall s, j | Placed(st', s, j) ensures st'.sources[s][j] in st'.objects { assert Placed(st, s, j); }
  }

  lemma ConvertTargets(st: State, temporary: (Path, Path) -> Path, out: Path)
    requires Separate(st) && TargetsMatch(st) && NamesObjects(temporary) && out in st.objects && out.kind != ObjectFile
    ensures var st' := Convert(st, temporary, out); Separate(st') && TargetsMatch(st')
  {
    var st' := Convert(st, temporary, out);
    forall t | t in st'.targets && t != out ensures TargetMatches(st', t) {
      assert TargetMatches(st, t) && st'.targets[t] == st.targets[t];
    }
    assert TargetMatches(st', out);
  }

  lemma ConvertLinks(st: State, temporary: (Path, Path) -> Path, out: Path)
    requires Separate(st) && TargetsMatch(st) && LinksMatch(st) && NamesObjects(temporary)
    requires out in st.objects && out.kind != ObjectFile && temporary(out, st.objects[out].source) !in st.objects
    ensures LinksMatch(Convert(st, temporary, out))
  {
    assert FilesKnown(st);
    ConvertFilesLinked(st, temporary, out);
    ConvertUnitsList(st, temporary, out);
  }

  lemma ConvertFilesLinked(st: State, temporary: (Path, Path) -> Path, out: Path)
    requires FilesLinked(st) && FilesKnown(st)
    requires out in st.objects && temporary(out, st.objects[out].source) !in st.objects
    ensures FilesLinked(Convert(st, temporary, out))
  {
    var st' := Convert(st, temporary, out);
    var tmp := temporary(out, st.objects[out].source);
    forall t, f | t in st'.targets && f in st'.targets[t].files && f in st'.objects
      ensures st'.objects[f].linkUnit == Unit(t)
    {
      if t != out { assert f in st.targets[t].files && f in st.objects && f != tmp; }
    }
  }

  lemma ConvertUnitsList(st: State, temporary: (Path, Path) -> Path, out: Path)
    requires UnitsList(st) && out in st.objects && out !in st.targets
    requires temporary(out, st.objects[out].source) !in st.objects
    ensures UnitsList(Convert(st, temporary, out))
  {
    var st' := Convert(st, temporary, out);
    var tmp := temporary(out, st.objects[out].source);
    forall o | o in st'.objects && st'.objects[o].linkUnit.Some?
      ensures var t := st'.objects[o].linkUnit.value; t in st'.targets && o in st'.targets[t].files
    {
      if o != tmp {
        assert st'.objects[o] == st.objects[o] && st.objects[o].linkUnit.value != out;
      }
    }
  }

  lemma ConvertListings(st: State, temporary: (Path, Path) -> Path, out: Path)
    requires Inv(st) && NamesObjects(temporary) && out in st.objects && out.kind != ObjectFile
    ensures var st' := Convert(st, temporary, out); forall s, i :: Placed(st', s, i) <==> Placed(st, s, i)
    ensures var st' := Convert(st, temporary, out);
      forall s, i :: Placed(st', s, i) ==>
        && st'.sources[s][i] ==
           (if st.sources[s][i] == out then temporary(out, st.objects[out].source) else st.sources[s][i])
        && st'.sources[s][i] in st'.objects
  {
  }

  lemma ConvertOnce(st: State, temporary: (Path, Path) -> Path, out: Path)
    requires Inv(st) && NamesObjects(temporary) && out in st.objects && out.kind != ObjectFile
    ensures OnceUnlessCollided(Convert(st, temporary, out))
  {
    var source := st.objects[out].source;
    var tmp := temporary(out, source);
    var st' := Convert(st, temporary, out);
    ConvertListings(st, temporary, out);
    var i :| 0 <= i < |st.sources[source]| && st.sources[source][i] == out;
    if tmp in st.objects {
      var s := st.objects[tmp].source;
      var j :| 0 <= j < |st.sources[s]| && st.sources[s][j] == tmp;
      assert Twice(st', source, i, s, j);
    } else if st.collisions > 0 {
      var a, k, b, m :| Twice(st, a, k, b, m);
      assert Twice(st', a, k, b, m);
    }
    forall a, k, b, m | Twice(st', a, k, b, m) ensures st'.sources[a][k].kind == ObjectFile && st'.collisions > 0 {
      if Twice(st, a, k, b, m) {
      } else {
        assert st.sources[a][k] == out || st.sources[b][m] == out;
        assert tmp in st.objects;
      }
    }
  }

  /** Adding one listing of `o` at the end of the listing of `s`. */
  lemma AppendOnce(st: State, st': State, s: Path, o: Path)
    requires OnceUnlessCollided(st) && Listed(st)
    requires st'.sources == Append(st.sources, s, o)
    requires st'.collisions == st.collisions + (if o in st.objects then 1 else 0)
    requires o in st.objects ==> o.kind == ObjectFile
    ensures OnceUnlessCollided(st')
  {
    var n := |st'.sources[s]| - 1;
    assert forall a, k :: Placed(st', a, k) && (a, k) != (s, n) ==> Placed(st, a, k) && st'.sources[a][k] == st.sources[a][k];
    assert Placed(st', s, n) && st'.sources[s][n] == o;
    if o in st.objects {
      var a := st.objects[o].source;
      var j :| 0 <= j < |st.sources[a]| && st.sources[a][j] == o;
      assert Twice(st', a, j, s, n);
    } else if st.collisions > 0 {
      var a, k, b, m :| Twice(st, a, k, b, m);
      assert Twice(st', a, k, b, m);
    }
    forall a, k, b, m | Twice(st', a, k, b, m) ensures st'.sources[a][k].kind == ObjectFile && st'.collisions > 0 {
      if (a, k) != (s, n) && (b, m) != (s, n) { assert Twice(st, a, k, b, m); }
    }
  }

  lemma AppendListed(st: State, st': State, s: Path, o: Path)
    requires Listed(st) && s.kind == SourceFile
    requires st'.sources == Append(st.sources, s, o)
    requires st'.objects.Keys == st.objects.Keys + {o} && st'.objects[o].source == s
    requires forall p :: p in st.objects && p != o ==> st'.objects[p] == st.objects[p]
    ensures Listed(st')
  {
    var n := |st'.sources[s]| - 1;
    assert st'.sources[s][n] == o;
    forall p | p in st'.objects ensures st'.objects[p].source in st'.sources && p in st'.sources[st'.objects[p].source] {
      if p != o {
        var a := st.objects[p].source;
        var j :| 0 <= j < |st.sources[a]| && st.sources[a][j] == p;
        assert st'.sources[a][j] == p;
      }
    }
    forall a, k | Placed(st', a, k) ensures st'.sources[a][k] in st'.objects {
      if (a, k) != (s, n) { assert Placed(st, a, k); }
    }
  }

  lemma AddToTargetKeepsInv(st: State, temporary: (Path, Path) -> Path, e: CompileEntry)
    requires Inv(st) && NamesObjects(temporary) && e.source.kind == SourceFile && e.output in st.targets
    ensures Inv(AddToTarget(st, temporary, e))
  {
    var st' := AddToTarget(st, temporary, e);
    var tmp := temporary(e.output, e.source);
    AppendOnce(st, st', e.source, tmp);
    AppendListed(st, st', e.source, tmp);
    AddToTargetTargets(st, temporary, e);
    if st'.collisions == 0 { AddToTargetLinks(st, temporary, e); }
  }

  lemma AddToTargetTargets(st: State, temporary: (Path, Path) -> Path, e: CompileEntry)
    requires Separate(st) && TargetsMatch(st) && NamesObjects(temporary) && e.output in st.targets
    ensures var st' := AddToTarget(st, temporary, e); Separate(st') && TargetsMatch(st')
  {
    var st' := AddToTarget(st, temporary, e);
    AddToTargetMatches(st, temporary, e);
    forall t | t in st'.targets && t != e.output ensures TargetMatches(st', t) {
      assert TargetMatches(st, t) && st'.targets[t] == st.targets[t];
    }
  }

  lemma AddToTargetMatches(st: State, temporary: (Path, Path) -> Path, e: CompileEntry)
    requires NamesObjects(temporary) && e.output in st.targets && TargetMatches(st, e.output)
    ensures TargetMatches(AddToTarget(st, temporary, e), e.output)
  {
    var st' := AddToTarget(st, temporary, e);
    var tmp := temporary(e.output, e.source);
    var files, more := st.targets[e.output].files, st'.targets[e.output].files;
    assert forall f :: f in more <==> f in files || f == tmp;
    assert Distinct(more);
    if st'.collisions == 0 { assert tmp !in files; }
  }

  lemma AddToTargetLinks(st: State, temporary: (Path, Path) -> Path, e: CompileEntry)
    requires Separate(st) && TargetsMatch(st) && LinksMatch(st) && e.output in st.targets
    requires temporary(e.output, e.source) !in st.objects
    ensures LinksMatch(AddToTarget(st, temporary, e))
  {
    assert FilesKnown(st);
    AddToTargetFilesLinked(st, temporary, e);
    AddToTargetUnitsList(st, temporary, e);
  }

  lemma AddToTargetFilesLinked(st: State, temporary: (Path, Path) -> Path, e: CompileEntry)
    requires FilesLinked(st) && FilesKnown(st) && e.output in st.targets && st.targets[e.output].commands != []
    requires temporary(e.output, e.source) !in st.objects
    ensures FilesLinked(AddToTarget(st, temporary, e))
  {
    var st' := AddToTarget(st, temporary, e);
    var tmp := temporary(e.output, e.source);
    forall t, f | t in st'.targets && f in st'.targets[t].files && f in st'.objects
      ensures st'.objects[f].linkUnit == Unit(t)
    {
      if f != tmp || t != e.output { assert f in st.targets[t].files && f in st.objects && f != tmp; }
    }
  }

  lemma AddToTargetUnitsList(st: State, temporary: (Path, Path) -> Path, e: CompileEntry)
    requires UnitsList(st) && e.output in st.targets && st.targets[e.output].commands != []
    ensures UnitsList(AddToTarget(st, temporary, e))
  {
    var st' := AddToTarget(st, temporary, e);
    var tmp := temporary(e.output, e.source);
    forall o | o in st'.objects && st'.objects[o].linkUnit.Some?
      ensures var t := st'.objects[o].linkUnit.value; t in st'.targets && o in st'.targets[t].files
    {
      if o != tmp { assert st'.objects[o] == st.objects[o]; }
    }
  }

  lemma NewObjectKeepsInv(st: State, e: CompileEntry)
    requires Inv(st) && e.source.kind == SourceFile && e.output !in st.objects && e.output !in st.targets
    ensures Inv(NewObject(st, e))
  {
    var st' := NewObject(st, e);
    AppendOnce(st, st', e.source, e.output);
    AppendListed(st, st', e.source, e.output);
    NewObjectTargets(st, e);
    if st.collisions == 0 { NewObjectLinks(st, e); }
  }

  lemma NewObjectTargets(st: State, e: CompileEntry)
    requires Separate(st) && TargetsMatch(st) && e.output !in st.targets
    ensures Separate(NewObject(st, e)) && TargetsMatch(NewObject(st, e))
  {
    var st' := NewObject(st, e);
    forall t | t in st'.targets ensures TargetMatches(st', t) { assert TargetMatches(st, t); }
  }

  lemma NewObjectLinks(st: State, e: CompileEntry)
    requires TargetsMatch(st) && LinksMatch(st) && e.output !in st.objects
    ensures LinksMatch(NewObject(st, e))
  {
    forall t, f | t in st.targets && f in st.targets[t].files ensures f in st.objects { assert TargetMatches(st, t); }
    assert UnitsList(NewObject(st, e));
  }

  lemma IgnoreKeepsInv(st: State, out: Path)
    requires Inv(st)
    ensures Inv(st.(ignored := st.ignored + {out}))
  {
    var st' := st.(ignored := st.ignored + {out});
    assert forall s, i, s', j :: Twice(st', s, i, s', j) <==> Twice(st, s, i, s', j);
    assert Listed(st') by { assert forall s, i :: Placed(st', s, i) <==> Placed(st, s, i); }
  }

  /** Every compile command keeps the invariant. */
  lemma StepKeepsInv(st: State, temporary: (Path, Path) -> Path, e: CompileEntry)
    requires Inv(st) && NamesObjects(temporary)
    ensures Inv(Step(st, temporary, e))
  {
    if e.source.kind != SourceFile {
      IgnoreKeepsInv(st, e.output);
    } else if e.output in st.objects && e.output.kind == ObjectFile {
    } else if e.output in st.targets {
      AddToTargetKeepsInv(st, temporary, e);
    } else if e.output in st.objects {
      ConvertKeepsInv(st, temporary, e.output);
      AddToTargetKeepsInv(Convert(st, temporary, e.output), temporary, e);
    } else {
      NewObjectKeepsInv(st, e);
    }
  }

  /** The state after a list of compile commands. */
  function Run(temporary: (Path, Path) -> Path, es: seq<CompileEntry>): (st: State)
    ensures HaveCommands(st)
  {
    if es == [] then Empty() else Step(Run(temporary, es[..|es| - 1]), temporary, es[|es| - 1])
  }

  /** The invariant holds after every list of compile commands. */
  lemma {:induction false} RunKeepsInv(temporary: (Path, Path) -> Path, es: seq<CompileEntry>)
    requires NamesObjects(temporary)
    ensures Inv(Run(temporary, es))
  {
    if es != [] {
      RunKeepsInv(temporary, es[..|es| - 1]);
      StepKeepsInv(Run(temporary, es[..|es| - 1]), temporary, es[|es| - 1]);
    }
  }

  /** What the next compile command relies on. */
  lemma RunIsReady(temporary: (Path, Path) -> Path, es: seq<CompileEntry>)
    requires NamesObjects(temporary)
    ensures var st := Run(temporary, es);
      && (forall t :: t in st.targets ==> t !in st.objects)
      && (forall o :: o in st.objects ==> st.objects[o].source.kind == SourceFile)
  {
    RunKeepsInv(temporary, es);
  }

  /** Every listing leads to an object of that very source, and no source lists an object twice. */
  ghost predicate ListingsAreStored(st: State)
  {
    && (forall s, i :: Placed(st, s, i) ==> st.sources[s][i] in st.objects && st.objects[st.sources[s][i]].source == s)
    && (forall s :: s in st.sources ==> Distinct(st.sources[s]))
  }

  /** An object is lost to its source exactly when some temporary name was taken already. */
  lemma StoredIffNoCollision(st: State)
    requires Inv(st)
    ensures ListingsAreStored(st) <==> st.collisions == 0
  {
    if st.collisions == 0 {
      forall s, i | Placed(st, s, i) ensures st.objects[st.sources[s][i]].source == s {
        var o := st.sources[s][i];
        var a := st.objects[o].source;
        var j :| 0 <= j < |st.sources[a]| && st.sources[a][j] == o;
        assert !Twice(st, s, i, a, j);
      }
      forall s | s in st.sources ensures Distinct(st.sources[s]) {
        forall i, j | 0 <= i < j < |st.sources[s]| ensures st.sources[s][i] != st.sources[s][j] {
          assert !Twice(st, s, i, s, j);
        }
      }
    } else {
      var s, i, s', j :| Twice(st, s, i, s', j);
      assert s == s' ==> !Distinct(st.sources[s]);
    }
  }

  /** Two sources with one temporary name, compiled straight into one program: the first is lost. */
  lemma SameTemporaryIsLost(temporary: (Path, Path) -> Path, a: Path, b: Path, program: Path)
    requires NamesObjects(temporary) && a.kind == b.kind == SourceFile && a != b && program.kind == OtherFile
    requires temporary(program, a) == temporary(program, b)
    ensures var st := Run(temporary, [CompileEntry(a, program), CompileEntry(b, program)]);
      st.collisions == 1 && !ListingsAreStored(st)
  {
    var one, two := CompileEntry(a, program), CompileEntry(b, program);
    assert [one, two][..1] == [one] && [one][..0] == [];
    assert Run(temporary, [one]) == Step(Run(temporary, []), temporary, one);
    assert Run(temporary, [one]).objects.Keys == {program};
    var st := Run(temporary, [one, two]);
    assert st == Step(Run(temporary, [one]), temporary, two);
    RunKeepsInv(temporary, [one, two]);
    StoredIffNoCollision(st);
  }

  /** A command's source stays listed to the end, unless its output was an object file compiled already. */
  lemma {:induction false} OnlyDuplicatesAreSkipped(temporary: (Path, Path) -> Path, es: seq<CompileEntry>, k: nat)
    requires k < |es| && es[k].source.kind == SourceFile
    ensures
      || es[k].source in Run(temporary, es).sources
      || (es[k].output.kind == ObjectFile && es[k].output in Run(temporary, es[..k]).objects)
    decreases |es|
  {
    var last := |es| - 1;
    if k < last {
      OnlyDuplicatesAreSkipped(temporary, es[..last], k);
      assert es[..last][..k] == es[..k];
      SourcesStay(Run(temporary, es[..last]), temporary, es[last]);
    } else {
      assert es[..last][..k] == es[..k];
    }
  }

  lemma SourcesStay(st: State, temporary: (Path, Path) -> Path, e: CompileEntry)
    requires HaveCommands(st)
    ensures st.sources.Keys <= Step(st, temporary, e).sources.Keys
  {
  }

  // ---- the listings are sorted at the end

  /** The state with every listing sorted by priority. */
  function SortAll(st: State): State
  {
    st.(sources := map s | s in st.sources :: Priority.Sort(st.sources[s]))
  }

  /** The state with the listings sorted except for the sources in `rest`. */
  function SortedBut(st: State, rest: set<Path>): State
  {
    st.(sources := map s | s in st.sources :: if s in rest then st.sources[s] else Priority.Sort(st.sources[s]))
  }

  lemma AllUnsorted(st: State)
    ensures SortedBut(st, st.sources.Keys) == st && SortedBut(st, {}) == SortAll(st)
  {
    assert SortedBut(st, st.sources.Keys).sources == st.sources;
    assert SortedBut(st, {}).sources == SortAll(st).sources;
  }

  lemma SortOne(st: State, rest: set<Path>, s: Path)
    requires s in rest && s in st.sources
    ensures var st' := SortedBut(st, rest);
      SortedBut(st, rest - {s}) == st'.(sources := st'.sources[s := Priority.Sort(st'.sources[s])])
  {
    var st' := SortedBut(st, rest);
    assert SortedBut(st, rest - {s}).sources == st'.sources[s := Priority.Sort(st'.sources[s])];
  }

  lemma SameMembers(a: seq<Path>, b: seq<Path>, p: Path)
    requires multiset(a) == multiset(b)
    ensures p in a <==> p in b
  {
    assert p in a <==> p in multiset(a);
    assert p in b <==> p in multiset(b);
  }

  lemma TwiceMoves(st: State, st': State, s: Path, i: int, s': Path, j: int)
    requires st'.sources.Keys == st.sources.Keys && Twice(st, s, i, s', j)
    requires forall a :: a in st.sources ==> multiset(st'.sources[a]) == multiset(st.sources[a])
    ensures exists k, m :: Twice(st', s, k, s', m) && st'.sources[s][k] == st.sources[s][i]
  {
    var p := st.sources[s][i];
    if s == s' {
      Priority.TwiceIsMultiplicity(st.sources[s], p);
      assert multiset(st.sources[s])[p] >= 2 by {
        if i < j { assert st.sources[s][i] == p && st.sources[s][j] == p; }
        else { assert st.sources[s][j] == p && st.sources[s][i] == p; }
      }
      Priority.TwiceIsMultiplicity(st'.sources[s], p);
      var k, m :| 0 <= k < m < |st'.sources[s]| && st'.sources[s][k] == p && st'.sources[s][m] == p;
      assert Twice(st', s, k, s', m);
    } else {
      SameMembers(st.sources[s], st'.sources[s], p);
      SameMembers(st.sources[s'], st'.sources[s'], p);
      var k :| 0 <= k < |st'.sources[s]| && st'.sources[s][k] == p;
      var m :| 0 <= m < |st'.sources[s']| && st'.sources[s'][m] == p;
      assert Twice(st', s, k, s', m);
    }
  }

  /** Sorting keeps the invariant and puts an object that yields to none first. */
  lemma SortKeepsInv(st: State)
    requires Inv(st)
    ensures Inv(SortAll(st))
    ensures forall s :: s in st.sources ==> Priority.Ordered(SortAll(st).sources[s])
  {
    var st' := SortAll(st);
    AllSorted(st);
    SortListed(st, st');
    SortOnce(st, st');
    SortTargets(st);
  }

  lemma AllSorted(st: State)
    ensures forall s :: s in st.sources ==>
      Priority.Ordered(SortAll(st).sources[s]) && multiset(SortAll(st).sources[s]) == multiset(st.sources[s])
  {
    forall s | s in st.sources ensures var l := SortAll(st).sources[s];
      Priority.Ordered(l) && multiset(l) == multiset(st.sources[s])
    {
      Priority.SortSorts(st.sources[s]);
    }
  }

  lemma SortTargets(st: State)
    ensures Separate(st) ==> Separate(SortAll(st))
    ensures TargetsMatch(st) ==> TargetsMatch(SortAll(st))
    ensures LinksMatch(st) ==> LinksMatch(SortAll(st))
  {
  }

  lemma SortListed(st: State, st': State)
    requires Listed(st) && st'.sources.Keys == st.sources.Keys && st'.objects == st.objects
    requires forall a :: a in st.sources ==> multiset(st'.sources[a]) == multiset(st.sources[a])
    ensures Listed(st')
  {
    forall o | o in st.objects ensures o in st'.sources[st.objects[o].source] {
      SameMembers(st.sources[st.objects[o].source], st'.sources[st.objects[o].source], o);
    }
    forall s, i | Placed(st', s, i) ensures st'.sources[s][i] in st.objects {
      SameMembers(st.sources[s], st'.sources[s], st'.sources[s][i]);
      var j :| 0 <= j < |st.sources[s]| && st.sources[s][j] == st'.sources[s][i];
      assert Placed(st, s, j);
    }
  }

  lemma SortOnce(st: State, st': State)
    requires OnceUnlessCollided(st) && st'.sources.Keys == st.sources.Keys && st'.collisions == st.collisions
    requires forall a :: a in st.sources ==> multiset(st'.sources[a]) == multiset(st.sources[a])
    ensures OnceUnlessCollided(st')
  {
    if st.collisions > 0 {
      var s, i, s', j :| Twice(st, s, i, s', j);
      TwiceMoves(st, st', s, i, s', j);
    }
    forall s, i, s', j | Twice(st', s, i, s', j) ensures st'.sources[s][i].kind == ObjectFile && st'.collisions > 0 {
      TwiceMoves(st', st, s, i, s', j);
      var k, m :| Twice(st, s, k, s', m) && st.sources[s][k] == st'.sources[s][i];
    }
  }

  /** After all compile commands, and the sorting. */
  lemma ObjectsKeepInv(temporary: (Path, Path) -> Path, es: seq<CompileEntry>)
    requires NamesObjects(temporary)
    ensures var st := SortAll(Run(temporary, es));
      Inv(st) && forall s :: s in st.sources ==> Priority.Ordered(st.sources[s])
  {
    RunKeepsInv(temporary, es);
    SortKeepsInv(Run(temporary, es));
  }
}
