/** A longer key of the printer's map that is missed. */
module MissedKey {
  import opened BaseMap
  import opened MakefilePrinter
  import opened PrinterSetup
  import opened Relativizer
  import opened Text
  import opened TreeEnd
  import opened VariableMap

  // ---- two keys below the root, one a prefix of the other

  /** The root, red, on the left of a project below it. */
  function RootEnd(project: Entry, all: Entry): Tree { Node(Black, Single(all), project, Leaf) }

  /** After the declaration of a key between them. */
  function OuterEnd(project: Entry, all: Entry, outer: Entry): Tree { Node(Black, Single(outer), all, Single(project)) }

  ghost predicate Between(root: string, k: Entry, project: Entry, x: string)
  {
    x != root && Less(x, root) && Less(x, k.key) && Less(project.key, x)
  }

  lemma OuterTurns(root: string, project: Entry, all: Entry, outer: Entry)
    requires all.key == root && Less(outer.key, root) && Less(project.key, outer.key) && outer.key != root
    ensures var s := RootEnd(project, all);
      && InOrder(s) == [all, project] && Bound(root, s, outer.key) == 1 && Place(root, s, outer.key) == 0
      && !Found(root, s, outer.key) && Insert(root, s, outer) == Inserted(OuterEnd(project, all, outer))
      && InsertAt(InOrder(s), 0, outer) == [outer, all, project]
  {
    var s := RootEnd(project, all);
    LessIsStrictTotal(project.key, outer.key, project.key);
    assert InOrder(s) == [all, project] && Turns(root, s, outer.key);
    assert Insert(root, s.left, outer) == Inserted(Node(Red, Single(outer), all, Leaf));
  }

  lemma InnerTurns(root: string, project: Entry, all: Entry, outer: Entry, inner: Entry)
    requires all.key == root && Less(inner.key, root) && Less(project.key, inner.key) && inner.key != root
    ensures var s := OuterEnd(project, all, outer);
      && InOrder(s) == [outer, all, project] && Bound(root, s, inner.key) == 2 && Place(root, s, inner.key) == 2
      && !Turns(root, s, inner.key) && !Found(root, s, inner.key)
      && InsertAt(InOrder(s), 2, inner) == [outer, all, inner, project]
  {
    var s := OuterEnd(project, all, outer);
    LessIsStrictTotal(project.key, inner.key, project.key);
    assert InOrder(s.left) == [outer] && InOrder(s.right) == [project] && InOrder(s) == [outer, all, project];
    assert Bound(root, s.right, inner.key) == 0;
  }

  lemma OuterGoesBeforeRoot(root: string, t: Tree, k: Entry, project: Entry, all: Entry, outer: Entry)
    requires EndsIn(t, k, RootEnd(project, all)) && all.key == root && Between(root, k, project, outer.key)
    requires LeadsOn(root, t, RootEnd(project, all), outer.key)
    ensures var r, n := Put(root, t, outer.key, outer.variable), Lead(t, RootEnd(project, all));
      && r.Inserted? && EndsIn(r.tree, k, OuterEnd(project, all, outer))
      && n > 0 && InOrder(r.tree) == InOrder(t)[..n] + [outer, all, project]
  {
    var s, after := RootEnd(project, all), OuterEnd(project, all, outer);
    OuterTurns(root, project, all, outer);
    InsertInEnd(root, t, k, s, outer, after);
    PutInEnd(root, t, k, s, outer);
    EndOrder(Insert(root, t, outer).tree, k, after);
  }

  lemma InnerGoesBehindRoot(root: string, t: Tree, k: Entry, project: Entry, all: Entry, outer: Entry, inner: Entry)
    requires EndsIn(t, k, OuterEnd(project, all, outer)) && all.key == root && Between(root, k, project, inner.key)
    requires LeadsOn(root, t, OuterEnd(project, all, outer), inner.key)
    ensures var r, n := Put(root, t, inner.key, inner.variable), Lead(t, OuterEnd(project, all, outer));
      r.Inserted? && n > 0 && InOrder(r.tree) == InOrder(t)[..n] + [outer, all, inner, project]
  {
    var s := OuterEnd(project, all, outer);
    InnerTurns(root, project, all, outer, inner);
    SearchEnds(root, t, k, s, inner.key);
    if Insert(root, t, inner).Broken? { BrokenTurns(root, t, inner); }
    PutInEnd(root, t, k, s, inner);
  }

  /** The two declarations: the shorter key goes before the root, and the longer one behind it. */
  lemma OuterBeforeInner(root: string, t: Tree, k: Entry, project: Entry, all: Entry, outer: Entry, inner: Entry)
    requires Sorted(root, InOrder(t)) && EndsIn(t, k, RootEnd(project, all)) && all.key == root
    requires Between(root, k, project, outer.key) && Between(root, k, project, inner.key)
    ensures var one, n := Put(root, t, outer.key, outer.variable), Lead(t, RootEnd(project, all));
      && one.Inserted? && n > 0
      && var two := Put(root, one.tree, inner.key, inner.variable);
         two.Inserted? && InOrder(two.tree) == InOrder(t)[..n] + [outer, all, inner, project]
  {
    var s, n := RootEnd(project, all), Lead(t, RootEnd(project, all));
    assert InOrder(s) == [all, project] && [all, project][0] == all;
    LeadIsAbove(root, t, k, s, outer.key);
    OuterGoesBeforeRoot(root, t, k, project, all, outer);
    var one := Put(root, t, outer.key, outer.variable).tree;
    LeadIsAbove(root, t, k, s, inner.key);
    InnerTurns(root, project, all, outer, inner);
    forall i | 0 <= i < n ensures InOrder(one)[i] == InOrder(t)[i] {}
    InnerGoesBehindRoot(root, one, k, project, all, outer, inner);
    assert InOrder(one)[..n] == InOrder(t)[..n];
  }

  /** The path is written relative to `outer`, although `inner` is a longer key of the map and a prefix of the path. */
  ghost predicate Misses(root: string, entries: seq<Entry>, outer: Entry, inner: Entry, source: string)
  {
    && inner in entries && outer.key < inner.key <= source
    && RelativePath(entries, source) == Relative(outer, source)
    && !FindsLongest(root, entries, source)
  }

  /**
   In any map that ends in the root and a project below it, the longer of two keys declared one after the other between
   them, the shorter one first, is missed by every path below it that is below `k`.
   */
  lemma LongerIsMissed(root: string, t: Tree, k: Entry, project: Entry, all: Entry, outer: Entry, inner: Entry,
                       source: string)
    requires Sorted(root, InOrder(t)) && EndsIn(t, k, RootEnd(project, all)) && all.key == root
    requires Between(root, k, project, outer.key) && Between(root, k, project, inner.key)
    requires outer.key < inner.key <= source && Less(source, k.key)
    ensures var one := Put(root, t, outer.key, outer.variable);
      && one.Inserted?
      && var two := Put(root, one.tree, inner.key, inner.variable);
         two.Inserted? && Misses(root, InOrder(two.tree), outer, inner, source)
  {
    OuterBeforeInner(root, t, k, project, all, outer, inner);
    LeadIsNoPrefix(root, t, k, project, all, source);
    MissedBehind(root, InOrder(t)[..Lead(t, RootEnd(project, all))], outer, all, inner, project, source);
  }

  lemma LeadIsNoPrefix(root: string, t: Tree, k: Entry, project: Entry, all: Entry, source: string)
    requires Sorted(root, InOrder(t)) && EndsIn(t, k, RootEnd(project, all)) && all.key == root && Less(source, k.key)
    ensures var n := Lead(t, RootEnd(project, all)); n > 0 && forall e :: e in InOrder(t)[..n] ==> !(e.key <= source)
  {
    var s, n := RootEnd(project, all), Lead(t, RootEnd(project, all));
    EndOrder(t, k, s);
    assert InOrder(s) == [all, project] && [all, project][0] == all;
    LeadIsAbove(root, t, k, s, source);
    forall e | e in InOrder(t)[..n] ensures !(e.key <= source) { NoPrefixAbove(e.key, source); }
  }

  lemma MissedBehind(root: string, lead: seq<Entry>, outer: Entry, all: Entry, inner: Entry, project: Entry, source: string)
    requires (forall e :: e in lead ==> !(e.key <= source)) && outer.key < inner.key <= source && inner.key != root
    ensures Misses(root, lead + [outer, all, inner, project], outer, inner, source)
  {
    var entries, n := lead + [outer, all, inner, project], |lead|;
    var i := FirstMatch(entries, source);
    assert entries[n] == outer && entries[n + 2] == inner;
    assert forall j :: 0 <= j < n ==> entries[j] in lead;
  }

  lemma NoPrefixAbove(a: string, b: string)
    requires Less(b, a)
    ensures !(a <= b)
  {
    if a <= b {
      if a != b { PrefixIsLess(a, b); }
      LessIsStrictTotal(a, b, a);
    }
  }

  // ---- a new printer

  lemma TreeWithRootIs(root: string, base: Tree, project: Entry, all: Entry)
    requires base.Node? && base.color == Black && !RedOverRed(base.left) && base.right == Paint(Single(project), Black)
    requires all.key == root && Before(root, root, project.key)
    ensures Put(root, base, all.key, all.variable) == Inserted(base.(right := RootEnd(project, all)))
  {
    BoundOfRoot(root, base);
    assert Insert(root, base.right, all) == Inserted(RootEnd(project, all));
  }

  const ROOT := "/u"

  /** How the keys of the example compare. */
  lemma Comparisons()
    ensures !Before(ROOT, "/p/build", "/p/tests") && Before(ROOT, "/p/tests", "/p/build")
    ensures Before(ROOT, "/p/build", "/p") && !Before(ROOT, "/p", "/p/build")
    ensures !Before(ROOT, "/p", "build") && Before(ROOT, "build", "/p/build") && Before(ROOT, "build", "/p/tests")
    ensures Before(ROOT, ROOT, "/p")
  {
    LessAfterSlash("p/build", "p/tests");
    LessAfter("p", "/build", "/tests");
    LessAfter("/", "build", "tests");
    LessIsStrictTotal("/p/build", "/p/tests", "/p/build");
    assert "/p" < "/p/build" by { assert "/p/build"[..2] == "/p"; }
    PrefixIsLess("/p", "/p/build");
    LessIsStrictTotal("/p", "/p/build", "/p");
    LessIsStrictTotal("/p", "build", "/p");
    LessAfterSlash("p", "u");
  }

  lemma ComparisonsBelow(rest: string)
    requires rest != [] && rest[0] == 'a'
    ensures var x := "/p/" + rest;
      && Before(ROOT, "/p/build", x) && !Before(ROOT, "/p", x) && Before(ROOT, x, "/p") && Before(ROOT, ROOT, x)
  {
    var x := "/p/" + rest;
    assert x == "/" + ("p" + ("/" + rest));
    LessAfterSlash("p" + ("/" + rest), "p/build");
    LessAfter("p", "/" + rest, "/build");
    LessAfter("/", rest, "build");
    assert "/p" < x by { assert x[..2] == "/p"; }
    PrefixIsLess("/p", x);
    LessIsStrictTotal("/p", x, "/p");
    LessAfterSlash("p" + ("/" + rest), "u");
  }

  lemma LessAfterSlash(a: string, b: string)
    ensures Less("/" + a, "/" + b) == Less(a, b)
  {
    assert ("/" + a)[1..] == a && ("/" + b)[1..] == b;
  }

  lemma LessAfter(s: string, a: string, b: string)
    requires |s| == 1
    ensures Less(s + a, s + b) == Less(a, b)
  {
    assert (s + a)[1..] == a && (s + b)[1..] == b;
  }

  function BuildEntry(): Entry { Entry("/p/build", "BUILD_DIR") }
  function TestsEntry(): Entry { Entry("/p/tests", "TESTS_DIR") }
  function ProjectEntry(): Entry { Entry("/p", "PROJECT_DIR") }
  function RelativeEntry(): Entry { Entry("build", "BUILD_RELATIVE") }
  function All(): Entry { Entry(ROOT, "UTBOT_ALL") }
  function Outer(): Entry { Entry("/p/a", "OUTER") }
  function Inner(): Entry { Entry("/p/a/x", "INNER") }

  function NewContents(env: Environment, canonical: string -> string): Contents
  {
    Setup(env, canonical, "/p/build", "/p/tests", "/p", "build")
  }

  /** With the project below the root and the tools above it, the map of a new printer ends in the root and the project. */
  lemma NewPrinterEnds(env: Environment, canonical: string -> string)
    requires env.root == ROOT && canonical(ROOT) == ROOT && ToolsAbove(canonical, env)
    ensures var c := NewContents(env, canonical);
      c.intact && Sorted(ROOT, InOrder(c.tree)) && EndsIn(c.tree, BuildEntry(), RootEnd(ProjectEntry(), All()))
  {
    Comparisons();
    FourBases(ROOT, BuildEntry(), TestsEntry(), ProjectEntry(), TestsEntry(), BuildEntry(), ProjectEntry(), RelativeEntry());
    BasesSorted(ROOT, "/p/build", "/p/tests", "/p", "build");
    var base := BaseTree(TestsEntry(), BuildEntry(), ProjectEntry(), RelativeEntry());
    TreeWithRootIs(ROOT, base, ProjectEntry(), All());
    var c := Contents(base, [], true);
    assert BaseContents(ROOT, "/p/build", "/p/tests", "/p", "build") == c;
    SetupIsSorted(canonical, env, c);
    var ds := FixedDeclarations(env);
    var one := Declared(ROOT, canonical, c, ds[0]);
    PutKeepsSorted(ROOT, base, ROOT, "UTBOT_ALL");
    ToolKeysAbove(canonical, env);
    LessAfterSlash("p/build", "u");
    forall d | d in ds[1..] ensures Less("/p/build", Key(canonical, d)) {
      LessIsStrictTotal("/p/build", ROOT, Key(canonical, d));
    }
    DeclaredKeepsEnd(ROOT, canonical, one, ds[1..], BuildEntry(), RootEnd(ProjectEntry(), All()));
  }

  /** A new printer, two declarations, and a path that is written relative to the first of them. */
  method LongerKeyIsMissed() returns (printer: RelativeMakefilePrinter, r: string)
    ensures fresh(printer) && printer.intact && printer.env == Installed(ROOT, Under(ROOT, "debs-install"))
    ensures Misses(ROOT, printer.Entries(), Outer(), Inner(), "/p/a/x/f") && r == "$(OUTER)/x/f"
  {
    var canonical := (path: string) => path;
    var env := Installed(ROOT, Under(ROOT, "debs-install"));
    ToolsAboveIff(canonical, ROOT, Under(ROOT, "debs-install"));
    NewPrinterEnds(env, canonical);
    ExampleKeys();
    ghost var c := NewContents(env, canonical);
    LongerIsMissed(ROOT, c.tree, BuildEntry(), ProjectEntry(), All(), Outer(), Inner(), "/p/a/x/f");
    printer := new RelativeMakefilePrinter(env, canonical, "/p/build", "build", "/p", "/p/tests");
    printer.DeclareShellVariable("OUTER", "/p/a", true, true);
    printer.DeclareShellVariable("INNER", "/p/a/x", true, true);
    r := printer.GetRelativePath("/p/a/x/f", true);
  }

  lemma ExampleKeys()
    ensures Between(ROOT, BuildEntry(), ProjectEntry(), Outer().key) && Between(ROOT, BuildEntry(), ProjectEntry(), Inner().key)
    ensures Outer().key < Inner().key <= "/p/a/x/f" && Less("/p/a/x/f", BuildEntry().key)
    ensures Relative(Outer(), "/p/a/x/f") == "$(OUTER)/x/f"
  {
    Comparisons();
    ComparisonsBelow("a");
    ComparisonsBelow("a/x");
    ComparisonsBelow("a/x/f");
    assert "/p/" + "a" == "/p/a" && "/p/" + "a/x" == "/p/a/x" && "/p/" + "a/x/f" == "/p/a/x/f";
    assert "/p/a/x"[..4] == "/p/a" && "/p/a/x/f"[..6] == "/p/a/x" && "/p/a/x/f"[4..] == "/x/f";
    assert Mention("OUTER") + "/x/f" == "$(OUTER)/x/f";
  }
}
