/** Keys below the root, declared after the construction: the second one breaks the map. */
module BelowRoot {
  import opened BaseMap
  import opened BrokenMap
  import opened MakefilePrinter
  import opened PrinterSetup
  import opened Relativizer
  import opened Text
  import opened TreeEnd
  import opened VariableMap

  // ---- any map that ends in the root

  lemma {:induction false} TurnNodeEnds(root: string, t: Tree, k: Entry, s: Tree, x: string)
    requires EndsIn(t, k, s) && s.Node? && LeadsOn(root, t, s, x) && Turns(root, s, x)
    ensures Turns(root, t, x) && TurnNode(root, t, x) == TurnNode(root, s, x)
  {
    SearchEnds(root, t, k, s, x);
    LeadsOnRight(root, t, k, s, x);
    if t.entry != k || t.right != s { TurnNodeEnds(root, t.right, k, s, x); }
  }

  /** The root with a key below it on its left. */
  function Loaded(all: Entry, e: Entry): Tree { Node(Black, Single(e), all, Leaf) }

  lemma AloneTurns(all: Entry, e: Entry)
    requires Less(e.key, all.key) && e.key != all.key
    ensures var root, s := all.key, First(all);
      && InOrder(s) == [all] && Bound(root, s, e.key) == 1 && Turns(root, s, e.key)
      && Insert(root, s, e) == Inserted(Loaded(all, e))
  {
    assert Before(all.key, all.key, e.key) && Bound(all.key, Leaf, e.key) == 0;
  }

  lemma AloneInserts(root: string, t: Tree, k: Entry, all: Entry, e: Entry)
    requires EndsIn(t, k, First(all)) && all.key == root && LeadsOn(root, t, First(all), e.key) && Less(e.key, root)
    ensures Insert(root, t, e).Inserted? && EndsIn(Insert(root, t, e).tree, k, Loaded(all, e))
    ensures |InOrder(t)| > 0 && Bound(root, t, e.key) == |InOrder(t)| && Place(root, t, e.key) == |InOrder(t)| - 1
  {
    var s := First(all);
    LessIsStrictTotal(e.key, root, e.key);
    AloneTurns(all, e);
    SearchEnds(root, t, k, s, e.key);
    InsertInEnd(root, t, k, s, e, Loaded(all, e));
  }

  lemma FirstBelow(root: string, t: Tree, k: Entry, all: Entry, e: Entry)
    requires EndsIn(t, k, First(all)) && all.key == root && LeadsOn(root, t, First(all), e.key) && Less(e.key, root)
    ensures var r := Put(root, t, e.key, e.variable);
      && r.Inserted? && EndsIn(r.tree, k, Loaded(all, e))
      && |InOrder(t)| > 0 && InOrder(r.tree) == InsertAt(InOrder(t), |InOrder(t)| - 1, e)
  {
    AloneInserts(root, t, k, all, e);
    PutNew(root, t, e);
  }

  lemma SecondBelow(root: string, t: Tree, k: Entry, all: Entry, e: Entry, x: string)
    requires EndsIn(t, k, Loaded(all, e)) && all.key == root && LeadsOn(root, t, Loaded(all, e), x) && Less(x, root)
    ensures Breaks(root, t, x) && TurnNode(root, t, x).left == Single(e)
  {
    var s := Loaded(all, e);
    LessIsStrictTotal(x, root, x);
    assert InOrder(Single(e)) == [e] && InOrder(s) == InOrder(Single(e)) + [all] + InOrder(Leaf) == [e, all];
    assert Before(root, all.key, x) && Bound(root, s, x) == 2;
    SearchEnds(root, t, k, s, x);
    EndOrder(t, k, s);
    TurnNodeEnds(root, t, k, s, x);
  }

  /** What led on before still does, with the new key at the end. */
  lemma LeadStays(root: string, t: Tree, one: Tree, all: Entry, e: Entry, x: string)
    requires LeadsOn(root, t, First(all), x)
    requires |InOrder(t)| > 0 && InOrder(one) == InsertAt(InOrder(t), |InOrder(t)| - 1, e)
    ensures LeadsOn(root, one, Loaded(all, e), x)
  {
    assert InOrder(First(all)) == [all];
    assert InOrder(Single(e)) == [e] && InOrder(Loaded(all, e)) == InOrder(Single(e)) + [all] + InOrder(Leaf) == [e, all];
    forall i | 0 <= i < |InOrder(t)| - 1 ensures InOrder(one)[i] == InOrder(t)[i] {}
  }

  lemma BelowLeads(root: string, t: Tree, k: Entry, all: Entry, x: string)
    requires Sorted(root, InOrder(t)) && EndsIn(t, k, First(all)) && all.key == root && Less(root, k.key) && Less(x, root)
    ensures LeadsOn(root, t, First(all), x)
  {
    assert InOrder(First(all)) == [all] && [all][0].key == root;
    LessIsStrictTotal(x, root, k.key);
    LeadIsAbove(root, t, k, First(all), x);
  }

  /**
   In any sorted map that ends in the root, alone on the right of a key above it, the first declaration of a key below the
   root goes to the left of the root, and the second one, even of the same key, takes its place.
   */
  lemma SecondKeyBreaks(root: string, t: Tree, k: Entry, all: Entry, e: Entry, x: string)
    requires Sorted(root, InOrder(t)) && EndsIn(t, k, First(all)) && all.key == root && Less(root, k.key)
    requires Less(e.key, root) && Less(x, root)
    ensures var one := Put(root, t, e.key, e.variable);
      one.Inserted? && Breaks(root, one.tree, x) && TurnNode(root, one.tree, x).left == Single(e)
  {
    BelowLeads(root, t, k, all, e.key);
    BelowLeads(root, t, k, all, x);
    FirstBelow(root, t, k, all, e);
    var one := Put(root, t, e.key, e.variable).tree;
    LeadStays(root, t, one, all, e, x);
    SecondBelow(root, one, k, all, e, x);
  }

  // ---- a new printer whose base paths are above its installation

  function AfterDebs(base: Tree, c: Entry, all: Entry, install: Entry, access: Entry, debs: Entry): Tree
    requires base.Node?
  {
    base.(right := Node(Red, First(c), install, Node(Black, Single(debs), access, Single(all))))
  }

  function AfterAsan(base: Tree, c: Entry, all: Entry, install: Entry, access: Entry, debs: Entry, asan: Entry): Tree
    requires base.Node?
  {
    Node(Black, Node(Red, base.left, base.entry, First(c)), install,
         Node(Red, Node(Black, Single(asan), debs, Leaf), access, First(all)))
  }

  /** The packages come between the directories of the installation. */
  ghost predicate Inside(root: string, b: Entry, install: Entry, access: Entry, debs: Entry, asan: Entry)
  {
    && Chain(root, install, asan, debs) && Less(access.key, debs.key) && Less(access.key, asan.key)
    && Less(root, debs.key) && Less(root, asan.key) && Less(debs.key, b.key) && Less(asan.key, b.key)
    && Less(debs.key, install.key)
  }

  lemma DebsPut(a: Entry, b: Entry, c: Entry, install: Entry, access: Entry, all: Entry, relative: Entry, debs: Entry,
                asan: Entry)
    requires Stacked(a, b, c, install, access, all) && Inside(all.key, b, install, access, debs, asan)
    ensures var base := BaseTree(a, b, c, relative);
      Put(all.key, AfterAccess(base, c, all, install, access), debs.key, debs.variable) ==
      Inserted(AfterDebs(base, c, all, install, access, debs))
  {
    var root, end := all.key, Node(Black, Single(access), all, Leaf);
    var s := Node(Red, First(c), install, end);
    var after := Node(Red, First(c), install, Node(Black, Single(debs), access, Single(all)));
    LessIsStrictTotal(root, debs.key, root);
    LessIsStrictTotal(access.key, debs.key, access.key);
    assert InOrder(Single(access)) == [access] && InOrder(end) == [access, all] && Bound(root, end, debs.key) == 0;
    FoundRight(root, s, debs.key);
    assert Insert(root, Single(access), debs) == Inserted(Node(Red, Single(debs), access, Leaf));
    assert Insert(root, end, debs) == Inserted(Node(Black, Single(debs), access, Single(all)));
    assert Insert(root, s, debs) == Inserted(after);
    PutRight(root, AfterAccess(BaseTree(a, b, c, relative), c, all, install, access), debs, after);
  }

  lemma AsanPut(a: Entry, b: Entry, c: Entry, install: Entry, access: Entry, all: Entry, relative: Entry, debs: Entry,
                asan: Entry)
    requires Stacked(a, b, c, install, access, all) && Inside(all.key, b, install, access, debs, asan)
    ensures var base := BaseTree(a, b, c, relative);
      Put(all.key, AfterDebs(base, c, all, install, access, debs), asan.key, asan.variable) ==
      Inserted(AfterAsan(base, c, all, install, access, debs, asan))
  {
    var root, end := all.key, Node(Black, Single(debs), access, Single(all));
    var t, s := AfterDebs(BaseTree(a, b, c, relative), c, all, install, access, debs), Node(Red, First(c), install, end);
    var moved := Node(Red, Node(Black, Single(asan), debs, Leaf), access, First(all));
    LessIsStrictTotal(root, asan.key, root);
    LessIsStrictTotal(access.key, asan.key, access.key);
    LessIsStrictTotal(debs.key, asan.key, debs.key);
    assert InOrder(Single(debs)) == [debs] && InOrder(Single(all)) == [all] && InOrder(end) == [debs, access, all];
    assert Bound(root, end.left, asan.key) == 0 && Bound(root, end, asan.key) == 0;
    FoundRight(root, s, asan.key);
    FoundRight(root, t, asan.key);
    assert Insert(root, end.left, asan) == Inserted(Node(Red, Single(asan), debs, Leaf));
    assert Insert(root, end, asan) == Inserted(moved);
    assert Insert(root, s, asan) == Inserted(Node(Red, First(c), install, moved));
  }

  /** One more declaration of a key of known effect. */
  lemma NextTree(root: string, canonical: string -> string, start: Contents, ds: seq<Declaration>, n: nat, t: Tree, after: Tree)
    requires n < |ds| && DeclaredAll(root, canonical, start, ds[..n]).tree == t
    requires Put(root, t, Key(canonical, ds[n]), ds[n].name) == Inserted(after)
    ensures DeclaredAll(root, canonical, start, ds[..n + 1]).tree == after
  {
    DeclaredNext(root, canonical, start, ds, n);
  }

  /** Two more declarations, after which the root stands alone on the right of the directory above it. */
  lemma FiveDeclared(canonical: string -> string, start: Contents, ds: seq<Declaration>, a: Entry, b: Entry, c: Entry,
                     install: Entry, access: Entry, all: Entry, relative: Entry, debs: Entry, asan: Entry)
    requires Stacked(a, b, c, install, access, all) && Inside(all.key, b, install, access, debs, asan)
    requires start.tree == BaseTree(a, b, c, relative) && |ds| >= 5
    requires all == KeyEntry(canonical, ds[0]) && install == KeyEntry(canonical, ds[1]) && access == KeyEntry(canonical, ds[2])
    requires debs == KeyEntry(canonical, ds[3]) && asan == KeyEntry(canonical, ds[4])
    ensures EndsIn(DeclaredAll(all.key, canonical, start, ds[..5]).tree, access, First(all))
  {
    var base := BaseTree(a, b, c, relative);
    var three, four := AfterAccess(base, c, all, install, access), AfterDebs(base, c, all, install, access, debs);
    var five := AfterAsan(base, c, all, install, access, debs, asan);
    ThreeDeclared(canonical, start, ds, a, b, c, install, access, all, relative);
    DebsPut(a, b, c, install, access, all, relative, debs, asan);
    NextTree(all.key, canonical, start, ds, 3, three, four);
    AsanPut(a, b, c, install, access, all, relative, debs, asan);
    NextTree(all.key, canonical, start, ds, 4, four, five);
    assert EndsIn(five.right, access, First(all));
  }

  function Packages(root: string): string { Under(root, "debs-install") }

  function DebsEntry(root: string): Entry { Entry(Packages(root), "UTBOT_DEBS_INSTALL_DIR") }

  function AsanEntry(root: string): Entry
  {
    Entry(Under(Under(Packages(root), "usr"), "lib/gcc/x86_64-linux-gnu/9/libasan.so"), "ASAN_LIB")
  }

  lemma FirstFiveKeys(root: string, canonical: string -> string)
    requires root != [] && forall path :: canonical(path) == path
    ensures var ds := FixedDeclarations(Installed(root, Packages(root)));
      && KeyEntry(canonical, ds[0]) == AllEntry(root) && KeyEntry(canonical, ds[1]) == InstallEntry(root)
      && KeyEntry(canonical, ds[2]) == AccessEntry(root)
      && KeyEntry(canonical, ds[3]) == DebsEntry(root) && KeyEntry(canonical, ds[4]) == AsanEntry(root)
  {
  }

  lemma PackagesInside(root: string)
    requires root != []
    ensures var install, access, debs, asan := InstallEntry(root).key, AccessEntry(root).key, DebsEntry(root).key,
                                               AsanEntry(root).key;
      && Less(debs, asan) && Less(asan, install) && Less(debs, install) && Less(access, debs) && Less(access, asan)
      && Less(root, debs) && Less(root, asan) && root !in {install, asan, debs}
  {
    var debs, usr := Packages(root), Under(Packages(root), "usr");
    UnderIsAbove(root, root, "debs-install");
    UnderIsAbove(root, root, "install");
    UnderIsAbove(debs, debs, "usr");
    UnderIsAbove(debs, usr, "lib/gcc/x86_64-linux-gnu/9/libasan.so");
    UnderLess(root, "access_private/include", "debs-install");
    UnderLess(root, "debs-install", "install");
    var asan := AsanEntry(root).key;
    LessIsStrictTotal(root, debs, asan);
    LessIsStrictTotal(AccessEntry(root).key, debs, asan);
    LessIsStrictTotal(root, root, root);
    AsanBelowInstall(root);
  }

  lemma UnderExtends(directory: string, name: string)
    ensures directory <= Under(directory, name)
  {
  }

  lemma AsanBelowInstall(root: string)
    requires root != []
    ensures Less(AsanEntry(root).key, InstallEntry(root).key)
  {
    var s := if root[|root| - 1] == '/' then root else root + "/";
    var debs, asan := Packages(root), AsanEntry(root).key;
    assert debs == s + "debs-install" && debs[|s|] == 'd';
    UnderExtends(debs, "usr");
    UnderExtends(Under(debs, "usr"), "lib/gcc/x86_64-linux-gnu/9/libasan.so");
    ExtendsBelow(s, debs, asan, "install");
  }

  lemma ExtendsBelow(s: string, a: string, b: string, c: string)
    requires s <= a <= b && |s| < |a| && c != [] && a[|s|] < c[0]
    ensures Less(b, s + c)
  {
    var rest := b[|s|..];
    assert b == s + rest && rest[0] == a[|s|];
    LessBehind(s, rest, c);
  }

  // ---- the remaining declarations stay left of that

  lemma ToolAbove(root: string, x: string, a: string, b: string)
    requires root != [] && Less(x, Under(root, a)) && b != []
    ensures Less(x, Under(Under(root, a), b))
  {
    UnderIsAbove(x, Under(root, a), b);
  }

  /** The places of the tools declared last. */
  predicate LateAbove(x: string, env: Environment)
  {
    && Less(x, env.clang) && Less(x, env.clangpp) && Less(x, env.gcc) && Less(x, env.gpp)
    && Less(x, env.ar) && Less(x, env.ldGold) && Less(x, env.ld) && Less(x, env.gtest)
  }

  lemma LateToolsAbove(root: string)
    requires Absolute(root)
    ensures LateAbove(AccessEntry(root).key, Installed(root, Packages(root)))
  {
    var x, debs := AccessEntry(root).key, Packages(root);
    UnderLess(root, "access_private/include", "install");
    UnderLess(root, "access_private/include", "debs-install");
    UnderLess(root, "access_private/include", "gtest");
    ToolAbove(root, x, "install", "bin/clang");
    ToolAbove(root, x, "install", "bin/clang++");
    ToolAbove(root, x, "debs-install", "usr");
    ToolAbove(debs, x, "usr", "bin/ar");
    ToolAbove(debs, x, "usr", "bin/ld.gold");
    ToolAbove(debs, x, "usr", "bin/ld");
    UnderExtends(root, "access_private/include");
    assert Absolute(x);
  }

  lemma LateKeysAbove(x: string, env: Environment, canonical: string -> string)
    requires LateAbove(x, env) && forall path :: canonical(path) == path
    ensures forall d :: d in FixedDeclarations(env)[5..] ==> Less(x, Key(canonical, d))
  {
    forall d | d in FixedDeclarations(env)[5..] ensures Less(x, Key(canonical, d)) {
      assert d in CompilerDeclarations(env)[1..] || d in BinaryDeclarations(env);
    }
  }

  lemma PrefixSorted(env: Environment, canonical: string -> string, c: Contents, n: nat)
    requires Sorted(env.root, InOrder(c.tree)) && !HasKey(InOrder(c.tree), env.root)
    requires canonical(env.root) == env.root && ToolsAbove(canonical, env) && 0 < n <= 13
    ensures Sorted(env.root, InOrder(DeclaredAll(env.root, canonical, c, FixedDeclarations(env)[..n]).tree))
  {
    var ds := FixedDeclarations(env);
    PutKeepsSorted(env.root, c.tree, env.root, "UTBOT_ALL");
    ToolKeysAbove(canonical, env);
    TakeRest(ds, n);
    forall d | d in ds[1..][..n - 1] ensures Less(env.root, Key(canonical, d)) { assert d in ds[1..]; }
    DeclaredStaysSorted(env.root, canonical, Declared(env.root, canonical, c, ds[0]), ds[1..][..n - 1]);
  }

  lemma RestKeepsEnd(root: string, canonical: string -> string, start: Contents, first: seq<Declaration>,
                     rest: seq<Declaration>, k: Entry, s: Tree)
    requires Sorted(root, InOrder(DeclaredAll(root, canonical, start, first).tree))
    requires EndsIn(DeclaredAll(root, canonical, start, first).tree, k, s) && s.Node? && s.color == Black
    requires forall d :: d in rest ==> Less(root, Key(canonical, d)) && Less(k.key, Key(canonical, d))
    ensures EndsIn(DeclaredAll(root, canonical, start, first + rest).tree, k, s)
  {
    DeclaredTwice(root, canonical, start, first, rest);
    DeclaredKeepsEnd(root, canonical, DeclaredAll(root, canonical, start, first), rest, k, s);
  }

  lemma ProductionIsWhole(root: string, canonical: string -> string, build: string, tests: string, project: string,
                          relative: string)
    requires Absolute(root) && BasesAbove(root, build, tests, project, relative) && forall path :: canonical(path) == path
    ensures var env := Installed(root, Packages(root));
      var c := Setup(env, canonical, build, tests, project, relative);
      ToolsAbove(canonical, env) && c.intact && Sorted(root, InOrder(c.tree))
  {
    BasesAreNotRoot(root, build, tests, project, relative);
    ToolsAboveIff(canonical, root, Packages(root));
    NewPrinterIsWhole(Installed(root, Packages(root)), canonical, build, tests, project, relative);
  }

  lemma FirstFiveSorted(root: string, canonical: string -> string, build: string, tests: string, project: string,
                        relative: string)
    requires Absolute(root) && BasesAbove(root, build, tests, project, relative) && forall path :: canonical(path) == path
    requires ToolsAbove(canonical, Installed(root, Packages(root)))
    ensures var env, start := Installed(root, Packages(root)), BaseContents(root, build, tests, project, relative);
      Sorted(root, InOrder(DeclaredAll(root, canonical, start, FixedDeclarations(env)[..5]).tree))
  {
    BasesAreNotRoot(root, build, tests, project, relative);
    BasesSorted(root, build, tests, project, relative);
    PrefixSorted(Installed(root, Packages(root)), canonical, BaseContents(root, build, tests, project, relative), 5);
  }

  /** With base paths above the installation, the map of a new printer ends in the root. */
  lemma NewPrinterEndsInRoot(root: string, canonical: string -> string, build: string, tests: string, project: string,
                             relative: string)
    requires Absolute(root) && BasesAbove(root, build, tests, project, relative) && forall path :: canonical(path) == path
    ensures var c := Setup(Installed(root, Packages(root)), canonical, build, tests, project, relative);
      c.intact && Sorted(root, InOrder(c.tree)) && EndsIn(c.tree, AccessEntry(root), First(AllEntry(root)))
  {
    var env := Installed(root, Packages(root));
    ProductionIsWhole(root, canonical, build, tests, project, relative);
    FirstFive(root, canonical, build, tests, project, relative);
    FirstFiveSorted(root, canonical, build, tests, project, relative);
    LateToolsAbove(root);
    LateKeysAbove(AccessEntry(root).key, env, canonical);
    LateKeysAboveRoot(env, canonical);
    var ds := FixedDeclarations(env);
    RestKeepsEnd(root, canonical, BaseContents(root, build, tests, project, relative), ds[..5], ds[5..], AccessEntry(root),
                 First(AllEntry(root)));
    assert ds[..5] + ds[5..] == ds;
  }

  lemma LateKeysAboveRoot(env: Environment, canonical: string -> string)
    requires ToolsAbove(canonical, env)
    ensures forall d :: d in FixedDeclarations(env)[5..] ==> Less(env.root, Key(canonical, d))
  {
    ToolKeysAbove(canonical, env);
    Later(FixedDeclarations(env), 5);
  }

  lemma Later<T>(s: seq<T>, n: nat)
    requires 0 < n <= |s|
    ensures forall x :: x in s[n..] ==> x in s[1..]
  {
  }

  lemma BasesAreNotRoot(root: string, build: string, tests: string, project: string, relative: string)
    requires Absolute(root) && BasesAbove(root, build, tests, project, relative)
    ensures root !in {build, tests, project, relative} && !Absolute(relative)
  {
    InstallationStacks(root);
    var install, access := InstallEntry(root).key, AccessEntry(root).key;
    AboveInstallation(root, install, access, build);
    AboveInstallation(root, install, access, tests);
    AboveInstallation(root, install, access, project);
  }

  lemma FirstFive(root: string, canonical: string -> string, build: string, tests: string, project: string,
                  relative: string)
    requires Absolute(root) && BasesAbove(root, build, tests, project, relative) && forall path :: canonical(path) == path
    ensures var env, start := Installed(root, Packages(root)), BaseContents(root, build, tests, project, relative);
      EndsIn(DeclaredAll(root, canonical, start, FixedDeclarations(env)[..5]).tree, AccessEntry(root), First(AllEntry(root)))
  {
    var a, b, c := BasesStack(root, build, tests, project, relative);
    FirstFiveKeys(root, canonical);
    PackagesInside(root);
    LessIsStrictTotal(AsanEntry(root).key, InstallEntry(root).key, b.key);
    LessIsStrictTotal(DebsEntry(root).key, InstallEntry(root).key, b.key);
    FiveDeclared(canonical, BaseContents(root, build, tests, project, relative),
                 FixedDeclarations(Installed(root, Packages(root))), a, b, c, InstallEntry(root), AccessEntry(root),
                 AllEntry(root), Entry(relative, "BUILD_RELATIVE"), DebsEntry(root), AsanEntry(root));
  }

  // ---- a printer broken by two declarations

  /** The declaration of the second variable breaks off the entry of the first. */
  method SecondKeyIsLost() returns (printer: RelativeMakefilePrinter)
    ensures fresh(printer) && printer.env == Installed("/utbot", Packages("/utbot")) && !printer.intact
    ensures var t := printer.pathToShellVariable;
      Breaks("/utbot", t, "/home/opt") && TurnNode("/utbot", t, "/home/opt").left == Single(Entry("/a/utbot", "FIRST"))
  {
    var canonical := (path: string) => path;
    ExampleBases();
    NewPrinterEndsInRoot("/utbot", canonical, "/w/build", "/w/tests", "/w", "build");
    InstallationStacks("/utbot");
    ghost var c := Setup(Installed("/utbot", Packages("/utbot")), canonical, "/w/build", "/w/tests", "/w", "build");
    SecondKeyBreaks("/utbot", c.tree, AccessEntry("/utbot"), AllEntry("/utbot"), Entry("/a/utbot", "FIRST"), "/home/opt");
    printer := new RelativeMakefilePrinter(Installed("/utbot", Packages("/utbot")), canonical, "/w/build", "build", "/w",
                                           "/w/tests");
    printer.DeclareShellVariable("FIRST", "/a/utbot", true, true);
    ghost var one := printer.pathToShellVariable;
    PutBreaksIff("/utbot", one, "/home/opt", "SECOND");
    printer.DeclareShellVariable("SECOND", "/home/opt", true, true);
  }

  lemma ExampleBases()
    ensures BasesAbove("/utbot", "/w/build", "/w/tests", "/w", "build")
    ensures Less("/a/utbot", "/utbot") && Less("/home/opt", "/utbot")
  {
    LessBehind("/", "utbot/install", "w");
    LessBehind("/", "utbot/install", "w/build");
    LessBehind("/", "utbot/install", "w/tests");
    LessBehind("/", "a/utbot", "utbot");
    LessBehind("/", "home/opt", "utbot");
    assert "/" + "utbot/install" == Under("/utbot", "install") && "/" + "w" == "/w" && "/" + "utbot" == "/utbot";
    assert "/" + "w/build" == "/w/build" && "/" + "w/tests" == "/w/tests";
    assert "/" + "a/utbot" == "/a/utbot" && "/" + "home/opt" == "/home/opt";
  }
}
