/** How much of a linked unit is stubbed: the join of what its files say. */
module StubTypes {
  import opened BuildTypes
  import opened GraphQueries
  import opened Wrappers

  datatype StubType = NONE | NO_STUBS | ANY_STUBS | ALL_STUBS

  function Join(a: StubType, b: StubType): StubType
  {
    if a == NONE then b
    else if b == NONE then a
    else if a == NO_STUBS && b == NO_STUBS then NO_STUBS
    else if a == ALL_STUBS && b == ALL_STUBS then ALL_STUBS
    else ANY_STUBS
  }

  /** The type of a collection of objects, by whether it has stubbed ones and whether it has others. */
  function Classify(stubbed: bool, genuine: bool): StubType
  {
    if stubbed then (if genuine then ANY_STUBS else ALL_STUBS) else (if genuine then NO_STUBS else NONE)
  }

  /** `|` is the join of a semilattice with `NONE` at the bottom, and means the union of the collections. */
  lemma JoinIsSemilattice(a: StubType, b: StubType, c: StubType)
    ensures Join(a, b) == Join(b, a) && Join(a, Join(b, c)) == Join(Join(a, b), c) && Join(a, a) == a
    ensures Join(NONE, a) == a && Join(a, ANY_STUBS) == ANY_STUBS
  {
  }

  lemma JoinIsUnion(s: bool, n: bool, s': bool, n': bool)
    ensures Join(Classify(s, n), Classify(s', n')) == Classify(s || s', n || n')
    ensures Classify(s, n) == Classify(s', n') ==> s == s' && n == n'
  {
  }

  /** Sources replaced by stubs, objects with a bitcode file, and the file under test. */
  datatype Config = Config(stubs: set<Path>, bitcode: set<Path>, tested: Option<Path>)

  /** An object file gives bitcode unless it is unknown, or has none and is not the one tested. */
  predicate HasBitcode(g: Graph, c: Config, o: Path)
  {
    o in g.objects && (Some(g.objects[o].source) == c.tested || o in c.bitcode)
  }

  function ObjectType(g: Graph, c: Config, o: Path): Result<StubType>
  {
    if !HasBitcode(g, c, o) then Err
    else Ok(if g.objects[o].source in c.stubs then ALL_STUBS else NO_STUBS)
  }

  /** The type a parent sees; a unit without any object is an error. */
  function UnitType(g: Graph, ghost rank: Path -> nat, c: Config, u: Path): Result<StubType>
    requires Acyclic(g, rank)
    decreases rank(u), 1
  {
    if u.kind == ObjectFile then ObjectType(g, c, u)
    else if UnitFiles(g, u).None? then Err
    else
      var r := JoinOfFiles(g, rank, c, u, |UnitFiles(g, u).value|);
      if r == Ok(NONE) then Err else r
  }

  function JoinOfFiles(g: Graph, ghost rank: Path -> nat, c: Config, u: Path, n: nat): Result<StubType>
    requires Acyclic(g, rank) && u.kind != ObjectFile && UnitFiles(g, u).Some? && n <= |UnitFiles(g, u).value|
    decreases rank(u), 0, n
  {
    if n == 0 then Ok(NONE)
    else
      var f := UnitFiles(g, u).value[n - 1];
      assert Next(g, u, f);
      var before := JoinOfFiles(g, rank, c, u, n - 1);
      if Some(f) == c.tested then before
      else
        var sub := UnitType(g, rank, c, f);
        if before.Err? || sub.Err? then Err else Ok(Join(before.value, sub.value))
  }

  /** A library without parents counts as untyped, whatever it is made of. */
  method AddLinkTargetRecursively(g: Graph, ghost rank: Path -> nat, c: Config, fileToBuild: Path, hasParent: bool)
    returns (r: Result<StubType>)
    requires Acyclic(g, rank)
    ensures r == if hasParent || !IsLibrary(fileToBuild) || UnitType(g, rank, c, fileToBuild).Err?
                 then UnitType(g, rank, c, fileToBuild) else Ok(NONE)
    decreases rank(fileToBuild)
  {
    if fileToBuild.kind == ObjectFile {
      if fileToBuild !in g.objects {
        return Err;
      }
      var source := g.objects[fileToBuild].source;
      var objectType := if source in c.stubs then ALL_STUBS else NO_STUBS;
      if Some(source) != c.tested && fileToBuild !in c.bitcode {
        return Err;
      }
      return Ok(objectType);
    }
    var linkUnit := UnitFiles(g, fileToBuild);
    if linkUnit.None? {
      return Err;
    }
    var dependencies: set<Path> := {};
    var unitType := NONE;
    for i := 0 to |linkUnit.value|
      invariant JoinOfFiles(g, rank, c, fileToBuild, i) == Ok(unitType)
      invariant forall d :: d in dependencies ==> Absorbed(g, rank, c, d, unitType)
    {
      var subfile := linkUnit.value[i];
      assert Next(g, fileToBuild, subfile);
      if Some(subfile) != c.tested && subfile !in dependencies {
        var childType := AddLinkTargetRecursively(g, rank, c, subfile, true);
        if childType.Err? {
          JoinErrStays(g, rank, c, fileToBuild, i + 1);
          return Err;
        }
        dependencies := dependencies + {subfile};
        forall d | d in dependencies ensures Absorbed(g, rank, c, d, Join(unitType, childType.value)) {
          if Absorbed(g, rank, c, d, unitType) {
            JoinIsSemilattice(UnitType(g, rank, c, d).value, unitType, childType.value);
          } else {
            JoinIsSemilattice(childType.value, unitType, childType.value);
            JoinIsSemilattice(unitType, childType.value, childType.value);
          }
        }
        unitType := Join(unitType, childType.value);
      } else if Some(subfile) != c.tested {
        assert Absorbed(g, rank, c, subfile, unitType);
        JoinIsSemilattice(unitType, UnitType(g, rank, c, subfile).value, NONE);
      }
    }
    if unitType == NONE {
      return Err;
    }
    r := Ok(if IsLibrary(fileToBuild) && !hasParent then NONE else unitType);
  }

  /** The type of `d` is below `t`: joining it again changes nothing. */
  ghost predicate Absorbed(g: Graph, rank: Path -> nat, c: Config, d: Path, t: StubType)
    requires Acyclic(g, rank)
  {
    UnitType(g, rank, c, d).Ok? && Join(UnitType(g, rank, c, d).value, t) == t
  }

  lemma {:induction false} JoinErrStays(g: Graph, rank: Path -> nat, c: Config, u: Path, n: nat)
    requires Acyclic(g, rank) && u.kind != ObjectFile && UnitFiles(g, u).Some? && n <= |UnitFiles(g, u).value|
    requires JoinOfFiles(g, rank, c, u, n).Err?
    ensures JoinOfFiles(g, rank, c, u, |UnitFiles(g, u).value|).Err?
    decreases |UnitFiles(g, u).value| - n
  {
    if n < |UnitFiles(g, u).value| { JoinErrStays(g, rank, c, u, n + 1); }
  }

  /** A way down to an object file that meets the tested path nowhere below its start. */
  ghost predicate UntestedPath(g: Graph, c: Config, p: seq<Path>)
  {
    LeafPath(g, p) && forall i :: 1 <= i < |p| ==> Some(p[i]) != c.tested
  }

  /** Some object below `u` is stubbed, or is not. */
  ghost predicate HasLeaf(g: Graph, c: Config, u: Path, stubbed: bool)
  {
    exists p :: UntestedPath(g, c, p) && p[0] == u && LeafIs(g, c, p[|p| - 1], stubbed)
  }

  predicate LeafIs(g: Graph, c: Config, o: Path, stubbed: bool)
  {
    o in g.objects && (g.objects[o].source in c.stubs <==> stubbed)
  }

  /** One of the first `n` files of `u`, other than the tested one, has such an object below. */
  ghost predicate FileHasLeaf(g: Graph, c: Config, u: Path, n: nat, stubbed: bool)
    requires UnitFiles(g, u).Some? && n <= |UnitFiles(g, u).value|
  {
    exists i :: 0 <= i < n && Some(UnitFiles(g, u).value[i]) != c.tested && HasLeaf(g, c, UnitFiles(g, u).value[i], stubbed)
  }

  lemma LeafBelow(g: Graph, c: Config, u: Path, stubbed: bool) returns (f: Path)
    requires u.kind != ObjectFile && HasLeaf(g, c, u, stubbed)
    ensures Next(g, u, f) && Some(f) != c.tested && HasLeaf(g, c, f, stubbed)
  {
    var p :| UntestedPath(g, c, p) && p[0] == u && LeafIs(g, c, p[|p| - 1], stubbed);
    var q := p[1..];
    assert [u] + q == p;
    LeafPathCons(g, u, q);
    assert forall i :: 0 <= i < |q| ==> q[i] == p[i + 1];
    assert UntestedPath(g, c, q);
    f := q[0];
  }

  lemma LeafAbove(g: Graph, c: Config, u: Path, f: Path, stubbed: bool)
    requires Next(g, u, f) && Some(f) != c.tested && HasLeaf(g, c, f, stubbed)
    ensures HasLeaf(g, c, u, stubbed)
  {
    var q :| UntestedPath(g, c, q) && q[0] == f && LeafIs(g, c, q[|q| - 1], stubbed);
    var p := [u] + q;
    LeafPathCons(g, u, q);
    assert forall k :: 1 <= k < |p| ==> p[k] == q[k - 1];
    assert UntestedPath(g, c, p) && p[|p| - 1] == q[|q| - 1];
  }

  lemma HasLeafStep(g: Graph, c: Config, u: Path, stubbed: bool)
    requires u.kind != ObjectFile && UnitFiles(g, u).Some?
    ensures HasLeaf(g, c, u, stubbed) <==> FileHasLeaf(g, c, u, |UnitFiles(g, u).value|, stubbed)
  {
    var files := UnitFiles(g, u).value;
    if HasLeaf(g, c, u, stubbed) {
      var f := LeafBelow(g, c, u, stubbed);
      var i :| 0 <= i < |files| && files[i] == f;
    }
    if FileHasLeaf(g, c, u, |files|, stubbed) {
      var i :| 0 <= i < |files| && Some(files[i]) != c.tested && HasLeaf(g, c, files[i], stubbed);
      LeafAbove(g, c, u, files[i], stubbed);
    }
  }

  /** The type of a unit says which kinds of objects are below it, however they are nested, ordered or shared. */
  lemma {:induction false} TypeIsOfLeaves(g: Graph, rank: Path -> nat, c: Config, u: Path)
    requires Acyclic(g, rank) && UnitType(g, rank, c, u).Ok?
    ensures UnitType(g, rank, c, u).value == Classify(HasLeaf(g, c, u, true), HasLeaf(g, c, u, false))
    decreases rank(u), 1
  {
    if u.kind == ObjectFile {
      assert UntestedPath(g, c, [u]);
      forall p: seq<Path> | |p| > 1 && p[0] == u ensures !LeafPath(g, p) { ObjectsAreLeaves(g, p); }
    } else {
      HasLeafStep(g, c, u, true);
      HasLeafStep(g, c, u, false);
      JoinIsOfLeaves(g, rank, c, u, |UnitFiles(g, u).value|);
    }
  }

  lemma {:induction false} JoinIsOfLeaves(g: Graph, rank: Path -> nat, c: Config, u: Path, n: nat)
    requires Acyclic(g, rank) && u.kind != ObjectFile && UnitFiles(g, u).Some? && n <= |UnitFiles(g, u).value|
    requires JoinOfFiles(g, rank, c, u, n).Ok?
    ensures JoinOfFiles(g, rank, c, u, n).value == Classify(FileHasLeaf(g, c, u, n, true), FileHasLeaf(g, c, u, n, false))
    decreases rank(u), 0, n
  {
    if n > 0 {
      var f := UnitFiles(g, u).value[n - 1];
      assert Next(g, u, f);
      JoinIsOfLeaves(g, rank, c, u, n - 1);
      forall b: bool ensures FileHasLeaf(g, c, u, n, b) <==>
        FileHasLeaf(g, c, u, n - 1, b) || (Some(f) != c.tested && HasLeaf(g, c, f, b)) {}
      if Some(f) != c.tested {
        TypeIsOfLeaves(g, rank, c, f);
        JoinIsUnion(FileHasLeaf(g, c, u, n - 1, true), FileHasLeaf(g, c, u, n - 1, false),
                    HasLeaf(g, c, f, true), HasLeaf(g, c, f, false));
      }
    }
  }

  // ---- when the linking fails

  /** An object without bitcode, an unknown unit, or a unit with nothing to link. */
  ghost predicate Stuck(g: Graph, c: Config, u: Path)
  {
    if u.kind == ObjectFile then u !in g.objects || (Some(g.objects[u].source) != c.tested && u !in c.bitcode)
    else !IsUnit(g, u) || forall f :: Next(g, u, f) ==> Some(f) == c.tested
  }

  ghost predicate Edge(g: Graph, c: Config, u: Path, f: Path) { Next(g, u, f) && Some(f) != c.tested }

  ghost predicate Walk(g: Graph, c: Config, p: seq<Path>)
  {
    p != [] && forall i :: 0 <= i < |p| - 1 ==> Edge(g, c, p[i], p[i + 1])
  }

  lemma WalkCons(g: Graph, c: Config, u: Path, p: seq<Path>)
    requires p != []
    ensures Walk(g, c, [u] + p) <==> Edge(g, c, u, p[0]) && Walk(g, c, p)
  {
    var q := [u] + p;
    if Walk(g, c, q) {
      assert Edge(g, c, q[0], q[1]);
      forall i | 0 <= i < |p| - 1 ensures Edge(g, c, p[i], p[i + 1]) { assert Edge(g, c, q[i + 1], q[i + 2]); }
    }
    if Edge(g, c, u, p[0]) && Walk(g, c, p) {
      forall i | 0 <= i < |q| - 1 ensures Edge(g, c, q[i], q[i + 1]) {
        if i > 0 { assert Edge(g, c, p[i - 1], p[i]); }
      }
    }
  }

  ghost predicate ReachesStuck(g: Graph, c: Config, u: Path)
  {
    exists p :: Walk(g, c, p) && p[0] == u && Stuck(g, c, p[|p| - 1])
  }

  ghost predicate FileReachesStuck(g: Graph, c: Config, u: Path, n: nat)
    requires UnitFiles(g, u).Some? && n <= |UnitFiles(g, u).value|
  {
    exists i :: 0 <= i < n && Some(UnitFiles(g, u).value[i]) != c.tested && ReachesStuck(g, c, UnitFiles(g, u).value[i])
  }

  lemma StuckStep(g: Graph, c: Config, u: Path)
    requires u.kind != ObjectFile && UnitFiles(g, u).Some?
    ensures ReachesStuck(g, c, u) <==> Stuck(g, c, u) || FileReachesStuck(g, c, u, |UnitFiles(g, u).value|)
  {
    var files := UnitFiles(g, u).value;
    if Stuck(g, c, u) { assert Walk(g, c, [u]); }
    if ReachesStuck(g, c, u) && !Stuck(g, c, u) {
      var p :| Walk(g, c, p) && p[0] == u && Stuck(g, c, p[|p| - 1]);
      var q := p[1..];
      assert [u] + q == p;
      WalkCons(g, c, u, q);
      var i :| 0 <= i < |files| && files[i] == q[0];
      assert ReachesStuck(g, c, files[i]);
    }
    if FileReachesStuck(g, c, u, |files|) {
      var i :| 0 <= i < |files| && Some(files[i]) != c.tested && ReachesStuck(g, c, files[i]);
      var q :| Walk(g, c, q) && q[0] == files[i] && Stuck(g, c, q[|q| - 1]);
      WalkCons(g, c, u, q);
      assert ([u] + q)[|q|] == q[|q| - 1];
    }
  }

  /** Linking a unit fails exactly when something stuck is below it. */
  lemma {:induction false} FailsIffStuck(g: Graph, rank: Path -> nat, c: Config, u: Path)
    requires Acyclic(g, rank)
    ensures UnitType(g, rank, c, u).Err? <==> ReachesStuck(g, c, u)
    decreases rank(u), 1
  {
    if u.kind == ObjectFile {
      assert Walk(g, c, [u]);
      forall p: seq<Path> | |p| > 1 && p[0] == u ensures !Walk(g, c, p) { assert !Edge(g, c, p[0], p[1]); }
    } else if UnitFiles(g, u).None? {
      assert Walk(g, c, [u]);
    } else {
      StuckStep(g, c, u);
      JoinFailsIffStuck(g, rank, c, u, |UnitFiles(g, u).value|);
    }
  }

  lemma {:induction false} JoinFailsIffStuck(g: Graph, rank: Path -> nat, c: Config, u: Path, n: nat)
    requires Acyclic(g, rank) && u.kind != ObjectFile && UnitFiles(g, u).Some? && n <= |UnitFiles(g, u).value|
    ensures JoinOfFiles(g, rank, c, u, n).Err? <==> FileReachesStuck(g, c, u, n)
    ensures JoinOfFiles(g, rank, c, u, n) == Ok(NONE) <==>
      forall i :: 0 <= i < n ==> Some(UnitFiles(g, u).value[i]) == c.tested
    decreases rank(u), 0, n
  {
    if n > 0 {
      var f := UnitFiles(g, u).value[n - 1];
      assert Next(g, u, f);
      JoinFailsIffStuck(g, rank, c, u, n - 1);
      FailsIffStuck(g, rank, c, f);
      assert FileReachesStuck(g, c, u, n) <==>
        FileReachesStuck(g, c, u, n - 1) || (Some(f) != c.tested && ReachesStuck(g, c, f));
      assert JoinOfFiles(g, rank, c, u, n).Err? ==> FileReachesStuck(g, c, u, n);
    }
  }
}
