/** A printer whose construction breaks off an entry of its map. */
module BrokenMap {
  import opened BaseMap
  import opened MakefilePrinter
  import opened PrinterSetup
  import opened Relativizer
  import opened Text
  import opened VariableMap

  // ---- assignments to the right of the top of the tree

  lemma FoundRight(root: string, t: Tree, x: string)
    requires t.Node? && Before(root, t.entry.key, x)
    ensures Found(root, t, x) <==> Found(root, t.right, x)
  {
    var n, p := |InOrder(t.left)| + 1, Bound(root, t.right, x);
    if p < |InOrder(t.right)| { assert InOrder(t)[n + p] == InOrder(t.right)[p]; }
  }

  lemma PutRight(root: string, t: Tree, e: Entry, after: Tree)
    requires t.Node? && t.color == Black && !RedOverRed(t.left) && t.right.Node? && Before(root, t.entry.key, e.key)
    requires !Found(root, t.right, e.key) && Insert(root, t.right, e) == Inserted(after) && !RedOverRed(after)
    ensures Put(root, t, e.key, e.variable) == Inserted(t.(right := after))
  {
    FoundRight(root, t, e.key);
  }

  // ---- the root and its tools, below the base paths

  function AfterRoot(base: Tree, c: Entry, all: Entry): Tree
    requires base.Node?
  {
    base.(right := Node(Black, Leaf, c, Single(all)))
  }

  function AfterInstall(base: Tree, c: Entry, all: Entry, install: Entry): Tree
    requires base.Node?
  {
    base.(right := Node(Black, Single(c), install, Single(all)))
  }

  function AfterAccess(base: Tree, c: Entry, all: Entry, install: Entry, access: Entry): Tree
    requires base.Node?
  {
    base.(right := Node(Red, First(c), install, Node(Black, Single(access), all, Leaf)))
  }

  /** Below the base paths come the directories of the installation, and the root last. */
  ghost predicate Stacked(a: Entry, b: Entry, c: Entry, install: Entry, access: Entry, all: Entry)
  {
    && Chain(all.key, a, b, c) && Chain(all.key, c, install, access)
    && Less(install.key, b.key) && Less(access.key, b.key) && Less(all.key, access.key)
    && Less(all.key, b.key) && Less(all.key, c.key) && Less(all.key, install.key)
  }

  lemma RootPut(a: Entry, b: Entry, c: Entry, install: Entry, access: Entry, all: Entry, relative: Entry)
    requires Stacked(a, b, c, install, access, all)
    ensures var base := BaseTree(a, b, c, relative);
      Put(all.key, base, all.key, all.variable) == Inserted(AfterRoot(base, c, all))
  {
    var root, s := all.key, First(c);
    LessIsStrictTotal(root, c.key, root);
    BoundOfRoot(root, s);
    PutRight(root, BaseTree(a, b, c, relative), all, Node(Black, Leaf, c, Single(all)));
  }

  lemma InstallPut(a: Entry, b: Entry, c: Entry, install: Entry, access: Entry, all: Entry, relative: Entry)
    requires Stacked(a, b, c, install, access, all)
    ensures var base := BaseTree(a, b, c, relative);
      Put(all.key, AfterRoot(base, c, all), install.key, install.variable) == Inserted(AfterInstall(base, c, all, install))
  {
    var root, s := all.key, Node(Black, Leaf, c, Single(all));
    LessIsStrictTotal(root, install.key, root);
    assert InOrder(s) == [c, all] && Bound(root, s, install.key) == 1;
    assert Insert(root, s.right, install) == Inserted(Node(Red, Single(install), all, Leaf));
    PutRight(root, AfterRoot(BaseTree(a, b, c, relative), c, all), install, Node(Black, Single(c), install, Single(all)));
  }

  lemma AccessPut(a: Entry, b: Entry, c: Entry, install: Entry, access: Entry, all: Entry, relative: Entry)
    requires Stacked(a, b, c, install, access, all)
    ensures var base := BaseTree(a, b, c, relative);
      Put(all.key, AfterInstall(base, c, all, install), access.key, access.variable) ==
      Inserted(AfterAccess(base, c, all, install, access))
  {
    var root, s := all.key, Node(Black, Single(c), install, Single(all));
    var after := Node(Red, First(c), install, Node(Black, Single(access), all, Leaf));
    LessIsStrictTotal(root, access.key, root);
    assert InOrder(s.left) == [c] && InOrder(s.right) == [all] && InOrder(s) == [c, install, all];
    assert Bound(root, s.right, access.key) == 0 && Bound(root, s, access.key) == 2;
    assert Insert(root, s.right, access) == Inserted(Node(Red, Single(access), all, Leaf));
    assert Insert(root, s, access) == Inserted(after);
    PutRight(root, AfterInstall(BaseTree(a, b, c, relative), c, all, install), access, after);
  }

  /** A key below all of these takes the place of the last directory, to the left of the root. */
  lemma LowestBreaks(a: Entry, b: Entry, c: Entry, install: Entry, access: Entry, all: Entry, relative: Entry, x: string)
    requires Stacked(a, b, c, install, access, all)
    requires Less(x, all.key) && Less(x, install.key) && Less(x, b.key)
    ensures var t := AfterAccess(BaseTree(a, b, c, relative), c, all, install, access);
      Breaks(all.key, t, x) && TurnNode(all.key, t, x).left == Single(access)
  {
    var root, t := all.key, AfterAccess(BaseTree(a, b, c, relative), c, all, install, access);
    var s := t.right;
    LessIsStrictTotal(root, x, root);
    assert TurnNode(root, s, x) == TurnNode(root, s.right, x) == s.right;
    assert Bound(root, s.right, x) == |InOrder(s.right)|;
    FoundRight(root, s, x);
    FoundRight(root, t, x);
  }

  // ---- packages in "/"

  /** Three different absolute base paths above the installation, and a relative directory that sorts ahead of them. */
  predicate BasesAbove(root: string, build: string, tests: string, project: string, relative: string)
  {
    && Absolute(build) && Absolute(tests) && Absolute(project) && Less("/", relative) && !Absolute(relative)
    && build != tests && tests != project && build != project
    && forall x <- [build, tests, project] :: Less(Under(root, "install"), x)
  }

  function AllEntry(root: string): Entry { Entry(root, "UTBOT_ALL") }
  function InstallEntry(root: string): Entry { Entry(Under(root, "install"), "UTBOT_INSTALL") }
  function AccessEntry(root: string): Entry { Entry(Under(root, "access_private/include"), "ACCESS_PRIVATE_LIB") }

  lemma {:induction false} LessBehind(s: string, a: string, b: string)
    ensures Less(s + a, s + b) == Less(a, b)
  {
    if s == [] {
      assert s + a == a && s + b == b;
    } else {
      assert (s + a)[1..] == s[1..] + a && (s + b)[1..] == s[1..] + b;
      LessBehind(s[1..], a, b);
    }
  }

  lemma UnderLess(root: string, a: string, b: string)
    requires root != []
    ensures Less(Under(root, a), Under(root, b)) == Less(a, b)
  {
    if root[|root| - 1] == '/' {
      LessBehind(root, a, b);
    } else {
      LessBehind(root + "/", a, b);
    }
  }

  lemma InstallationStacks(root: string)
    requires root != []
    ensures var install, access := InstallEntry(root).key, AccessEntry(root).key;
      Less(access, install) && Less(root, install) && Less(root, access) && root !in {install, access}
  {
    UnderLess(root, "access_private/include", "install");
    UnderIsAbove(root, root, "install");
    UnderIsAbove(root, root, "access_private/include");
    LessIsStrictTotal(root, root, root);
  }

  lemma AboveInstallation(root: string, install: string, access: string, x: string)
    requires Less(access, install) && Less(root, install) && Less(install, x)
    ensures Less(root, x) && Less(access, x) && x != root
  {
    LessIsStrictTotal(root, install, x);
    LessIsStrictTotal(access, install, x);
    LessIsStrictTotal(root, root, root);
  }

  lemma BasesStack(root: string, build: string, tests: string, project: string, relative: string)
    returns (a: Entry, b: Entry, c: Entry)
    requires root != [] && BasesAbove(root, build, tests, project, relative)
    ensures Stacked(a, b, c, InstallEntry(root), AccessEntry(root), AllEntry(root))
    ensures BaseContents(root, build, tests, project, relative) ==
      Contents(BaseTree(a, b, c, Entry(relative, "BUILD_RELATIVE")), [], true)
  {
    InstallationStacks(root);
    var install, access := InstallEntry(root).key, AccessEntry(root).key;
    AboveInstallation(root, install, access, build);
    AboveInstallation(root, install, access, tests);
    AboveInstallation(root, install, access, project);
    RootIsNoRelative(root, relative, build);
    a, b, c := FourStack(root, Entry(build, "BUILD_DIR"), Entry(tests, "TESTS_DIR"), Entry(project, "PROJECT_DIR"),
                         Entry(relative, "BUILD_RELATIVE"));
  }

  lemma FourStack(root: string, x: Entry, y: Entry, z: Entry, relative: Entry) returns (a: Entry, b: Entry, c: Entry)
    requires root !in {x.key, y.key, z.key, relative.key} && x.key != y.key && y.key != z.key && x.key != z.key
    requires Less(x.key, relative.key) && Less(y.key, relative.key) && Less(z.key, relative.key)
    ensures Chain(root, a, b, c) && Permuted(x, y, z, a, b, c)
    ensures AddAll(root, Leaf, [x, y, z, relative]) == Inserted(BaseTree(a, b, c, relative))
  {
    a, b, c := Ordered(root, x, y, z);
    FourBases(root, x, y, z, a, b, c, relative);
  }

  lemma RootIsNoRelative(root: string, relative: string, above: string)
    requires Less("/", relative) && !Absolute(relative) && Absolute(above) && Less(root, above)
    ensures relative != root && forall x :: Absolute(x) ==> Less(x, relative)
  {
  }

  /** The map after the declarations of the root and its first two directories. */
  lemma ThreeDeclared(canonical: string -> string, start: Contents, ds: seq<Declaration>, a: Entry, b: Entry, c: Entry,
                      install: Entry, access: Entry, all: Entry, relative: Entry)
    requires Stacked(a, b, c, install, access, all) && start.tree == BaseTree(a, b, c, relative) && |ds| >= 3
    requires all == KeyEntry(canonical, ds[0]) && install == KeyEntry(canonical, ds[1]) && access == KeyEntry(canonical, ds[2])
    ensures DeclaredAll(all.key, canonical, start, ds[..3]).tree ==
      AfterAccess(BaseTree(a, b, c, relative), c, all, install, access)
  {
    RootPut(a, b, c, install, access, all, relative);
    InstallPut(a, b, c, install, access, all, relative);
    AccessPut(a, b, c, install, access, all, relative);
    assert DeclaredAll(all.key, canonical, start, ds[..0]) == start;
    DeclaredNext(all.key, canonical, start, ds, 0);
    DeclaredNext(all.key, canonical, start, ds, 1);
    DeclaredNext(all.key, canonical, start, ds, 2);
  }

  function KeyEntry(canonical: string -> string, d: Declaration): Entry { Entry(Key(canonical, d), d.name) }

  predicate InPlace(env: Environment, canonical: string -> string)
  {
    && env.root != [] && canonical(env.root) == env.root && canonical(env.install) == Under(env.root, "install")
    && canonical(env.accessPrivate) == Under(env.root, "access_private/include")
  }

  lemma FirstKeys(env: Environment, canonical: string -> string)
    requires InPlace(env, canonical)
    ensures var ds := FixedDeclarations(env);
      && KeyEntry(canonical, ds[0]) == AllEntry(env.root) && KeyEntry(canonical, ds[1]) == InstallEntry(env.root)
      && KeyEntry(canonical, ds[2]) == AccessEntry(env.root)
  {
  }

  lemma SetupStarts(env: Environment, canonical: string -> string, build: string, tests: string, project: string,
                    relative: string) returns (a: Entry, b: Entry, c: Entry)
    requires BasesAbove(env.root, build, tests, project, relative) && InPlace(env, canonical)
    ensures Stacked(a, b, c, InstallEntry(env.root), AccessEntry(env.root), AllEntry(env.root))
    ensures var root, base := env.root, BaseTree(a, b, c, Entry(relative, "BUILD_RELATIVE"));
      DeclaredAll(root, canonical, BaseContents(root, build, tests, project, relative), FixedDeclarations(env)[..3]).tree ==
      AfterAccess(base, c, AllEntry(root), InstallEntry(root), AccessEntry(root))
  {
    var root := env.root;
    a, b, c := BasesStack(root, build, tests, project, relative);
    FirstKeys(env, canonical);
    ThreeDeclared(canonical, BaseContents(root, build, tests, project, relative), FixedDeclarations(env), a, b, c,
                  InstallEntry(root), AccessEntry(root), AllEntry(root), Entry(relative, "BUILD_RELATIVE"));
  }

  /**
   With packages in "/" and base paths above the installation, the construction itself breaks the map: the declaration
   of the packages breaks off the directory before the root.
   */
  lemma PackagesInRootBreak(root: string, canonical: string -> string, build: string, tests: string, project: string,
                            relative: string)
    requires Absolute(root) && root != "/" && BasesAbove(root, build, tests, project, relative)
    requires forall path :: canonical(path) == path
    ensures var env, start := Installed(root, "/"), BaseContents(root, build, tests, project, relative);
      var t := DeclaredAll(root, canonical, start, FixedDeclarations(env)[..3]).tree;
      && !Setup(env, canonical, build, tests, project, relative).intact
      && Breaks(root, t, "/") && TurnNode(root, t, "/").left == Single(AccessEntry(root))
  {
    var env, start := Installed(root, "/"), BaseContents(root, build, tests, project, relative);
    var a, b, c := SetupStarts(env, canonical, build, tests, project, relative);
    assert root[..1] == "/" && "/" < root;
    PrefixIsLess("/", root);
    LessIsStrictTotal("/", root, Under(root, "install"));
    LessIsStrictTotal("/", root, b.key);
    UnderIsAbove(root, root, "install");
    LowestBreaks(a, b, c, InstallEntry(root), AccessEntry(root), AllEntry(root), Entry(relative, "BUILD_RELATIVE"), "/");
    WholeIff(root, canonical, start, FixedDeclarations(env));
    assert FixedDeclarations(env)[3] == Declaration("UTBOT_DEBS_INSTALL_DIR", "/", true);
  }

  /** A development printer, broken from the start. */
  method ConstructionBreaks() returns (printer: RelativeMakefilePrinter)
    ensures fresh(printer) && printer.env == Installed("/u", "/") && !printer.intact
  {
    var canonical := (path: string) => path;
    assert BasesAbove("/u", "/w/build", "/w/tests", "/w", "build") by {
      LessBehind("/", "u/install", "w");
      LessBehind("/", "u/install", "w/build");
      LessBehind("/", "u/install", "w/tests");
      assert "/" + "u/install" == Under("/u", "install") && "/" + "w" == "/w";
      assert "/" + "w/build" == "/w/build" && "/" + "w/tests" == "/w/tests";
    }
    PackagesInRootBreak("/u", canonical, "/w/build", "/w/tests", "/w", "build");
    printer := new RelativeMakefilePrinter(Installed("/u", "/"), canonical, "/w/build", "build", "/w", "/w/tests");
  }
}
