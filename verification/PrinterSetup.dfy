/** What the printer declares when it is constructed: the base paths, and then the paths of its installation. */
module PrinterSetup {
  import opened Relativizer
  import opened Text
  import opened VariableMap

  /** Where the server and its tools are. */
  datatype Environment = Environment(
    root: string, install: string, accessPrivate: string, debs: string, asan: string, clang: string, clangpp: string,
    gcc: string, gpp: string, ar: string, ldGold: string, ld: string, gtest: string)

  /** Joining directories, none of which is empty. */
  function Under(directory: string, name: string): string
  {
    if directory != [] && directory[|directory| - 1] == '/' then directory + name else directory + "/" + name
  }

  /** The places below the root and below the directory of the packages it uses. */
  function Installed(root: string, debs: string): Environment
  {
    var install, usr := Under(root, "install"), Under(debs, "usr");
    Environment(
      root, install, Under(root, "access_private/include"), debs, Under(usr, "lib/gcc/x86_64-linux-gnu/9/libasan.so"),
      Under(install, "bin/clang"), Under(install, "bin/clang++"), "gcc", "g++", Under(usr, "bin/ar"),
      Under(usr, "bin/ld.gold"), Under(usr, "bin/ld"), Under(root, "gtest"))
  }

  /** A variable declared for a path, which becomes a key of the map. */
  datatype Declaration = Declaration(name: string, path: string, isCanonical: bool)

  function Key(canonical: string -> string, d: Declaration): string
  {
    if d.isCanonical then canonical(d.path) else d.path
  }

  /** The declarations of every printer, the first of which is that of the root. */
  function FixedDeclarations(env: Environment): (ds: seq<Declaration>)
    ensures |ds| == 13 && ds[0] == Declaration("UTBOT_ALL", env.root, true)
  {
    PlaceDeclarations(env) + CompilerDeclarations(env) + BinaryDeclarations(env)
  }

  function PlaceDeclarations(env: Environment): seq<Declaration>
  {
    [Declaration("UTBOT_ALL", env.root, true),
     Declaration("UTBOT_INSTALL", env.install, true),
     Declaration("ACCESS_PRIVATE_LIB", env.accessPrivate, true),
     Declaration("UTBOT_DEBS_INSTALL_DIR", env.debs, true)]
  }

  function CompilerDeclarations(env: Environment): seq<Declaration>
  {
    [Declaration("ASAN_LIB", env.asan, true),
     Declaration("CLANG", env.clang, true),
     Declaration("CLANGXX", env.clangpp, false),
     Declaration("GCC", env.gcc, true),
     Declaration("GXX", env.gpp, true)]
  }

  function BinaryDeclarations(env: Environment): seq<Declaration>
  {
    [Declaration("AR", env.ar, true),
     Declaration("LD_GOLD", env.ldGold, true),
     Declaration("LD", env.ld, true),
     Declaration("GTEST", env.gtest, true)]
  }

  // ---- the effect of a list of declarations

  /** The map, the definitions emitted, and whether no insertion has broken off a part of the map. */
  datatype Contents = Contents(tree: Tree, definitions: seq<Definition>, intact: bool)

  function Declared(root: string, canonical: string -> string, c: Contents, d: Declaration): Contents
  {
    var x := Key(canonical, d);
    var put := Put(root, c.tree, x, d.name);
    Contents(if put.Inserted? then put.tree else c.tree,
             c.definitions + [Definition(d.name, RelativePath(InOrder(c.tree), x))],
             c.intact && put.Inserted?)
  }

  function DeclaredAll(root: string, canonical: string -> string, c: Contents, ds: seq<Declaration>): Contents
    decreases |ds|
  {
    if |ds| == 0 then c else DeclaredAll(root, canonical, Declared(root, canonical, c, ds[0]), ds[1..])
  }

  lemma {:induction false} DeclaredTwice(root: string, canonical: string -> string, c: Contents, a: seq<Declaration>,
                                          b: seq<Declaration>)
    ensures DeclaredAll(root, canonical, c, a + b) ==
      DeclaredAll(root, canonical, DeclaredAll(root, canonical, c, a), b)
    decreases |a|
  {
    if |a| == 0 {
      assert a + b == b;
    } else {
      assert (a + b)[1..] == a[1..] + b;
      DeclaredTwice(root, canonical, Declared(root, canonical, c, a[0]), a[1..], b);
    }
  }

  lemma {:induction false} DeclaredNext(root: string, canonical: string -> string, c: Contents, ds: seq<Declaration>, n: nat)
    requires n < |ds|
    ensures DeclaredAll(root, canonical, c, ds[..n + 1]) ==
      Declared(root, canonical, DeclaredAll(root, canonical, c, ds[..n]), ds[n])
    decreases n
  {
    var one := Declared(root, canonical, c, ds[0]);
    if n == 0 {
      assert ds[..1] == [ds[0]] && [ds[0]][1..] == [];
    } else {
      TakeRest(ds, n);
      TakeRest(ds, n + 1);
      DeclaredNext(root, canonical, one, ds[1..], n - 1);
    }
  }

  lemma DeclaredFour(root: string, canonical: string -> string, c: Contents, ds: seq<Declaration>)
    requires |ds| == 4
    ensures var two := Declared(root, canonical, Declared(root, canonical, c, ds[0]), ds[1]);
      DeclaredAll(root, canonical, c, ds) == Declared(root, canonical, Declared(root, canonical, two, ds[2]), ds[3])
  {
    var one := Declared(root, canonical, c, ds[0]);
    var two := Declared(root, canonical, one, ds[1]);
    var three := Declared(root, canonical, two, ds[2]);
    assert DeclaredAll(root, canonical, c, ds) == DeclaredAll(root, canonical, one, ds[1..]);
    assert DeclaredAll(root, canonical, one, ds[1..]) == DeclaredAll(root, canonical, two, ds[1..][1..]);
    assert DeclaredAll(root, canonical, two, ds[1..][1..]) == DeclaredAll(root, canonical, three, ds[1..][1..][1..]);
  }

  // ---- what is broken off

  /** No declaration meets a map in which its key breaks something. */
  ghost predicate BreaksNothing(root: string, canonical: string -> string, c: Contents, ds: seq<Declaration>)
  {
    forall n :: 0 <= n < |ds| ==> !Breaks(root, DeclaredAll(root, canonical, c, ds[..n]).tree, Key(canonical, ds[n]))
  }

  /** The map stays whole exactly if none of the declarations breaks the map that those before it have left. */
  lemma {:induction false} WholeIff(root: string, canonical: string -> string, c: Contents, ds: seq<Declaration>)
    ensures DeclaredAll(root, canonical, c, ds).intact <==> c.intact && BreaksNothing(root, canonical, c, ds)
    decreases |ds|
  {
    if |ds| > 0 {
      var one := Declared(root, canonical, c, ds[0]);
      PutBreaksIff(root, c.tree, Key(canonical, ds[0]), ds[0].name);
      WholeIff(root, canonical, one, ds[1..]);
      assert DeclaredAll(root, canonical, c, ds[..0]) == c;
      forall n | 0 < n < |ds| ensures DeclaredAll(root, canonical, c, ds[..n]) == DeclaredAll(root, canonical, one, ds[1..][..n - 1])
      {
        TakeRest(ds, n);
      }
      if BreaksNothing(root, canonical, one, ds[1..]) {
        forall n | 0 < n < |ds| ensures !Breaks(root, DeclaredAll(root, canonical, c, ds[..n]).tree, Key(canonical, ds[n])) {
          assert ds[1..][n - 1] == ds[n];
        }
      }
      if BreaksNothing(root, canonical, c, ds) {
        forall n | 0 <= n < |ds[1..]|
          ensures !Breaks(root, DeclaredAll(root, canonical, one, ds[1..][..n]).tree, Key(canonical, ds[1..][n]))
        {
          assert ds[1..][n] == ds[n + 1];
        }
      }
    }
  }

  lemma TakeRest<T>(s: seq<T>, n: nat)
    requires 0 < n <= |s|
    ensures s[..n] != [] && s[..n][0] == s[0] && s[..n][1..] == s[1..][..n - 1]
  {
  }

  // ---- order

  /** Keys above the root keep the map sorted and whole. */
  lemma {:induction false} DeclaredStaysSorted(root: string, canonical: string -> string, c: Contents, ds: seq<Declaration>)
    requires Sorted(root, InOrder(c.tree)) && forall d :: d in ds ==> Less(root, Key(canonical, d))
    ensures var after := DeclaredAll(root, canonical, c, ds);
      Sorted(root, InOrder(after.tree)) && after.intact == c.intact
    decreases |ds|
  {
    if |ds| > 0 {
      LessIsStrictTotal(root, root, root);
      assert ds[0] in ds;
      PutKeepsSorted(root, c.tree, Key(canonical, ds[0]), ds[0].name);
      DeclaredStaysSorted(root, canonical, Declared(root, canonical, c, ds[0]), ds[1..]);
    }
  }

  /** The keys of the installation are above the root. */
  predicate ToolsAbove(canonical: string -> string, env: Environment)
  {
    && Less(env.root, canonical(env.install)) && Less(env.root, canonical(env.accessPrivate))
    && Less(env.root, canonical(env.debs)) && Less(env.root, canonical(env.asan))
    && Less(env.root, canonical(env.clang)) && Less(env.root, env.clangpp)
    && Less(env.root, canonical(env.gcc)) && Less(env.root, canonical(env.gpp))
    && Less(env.root, canonical(env.ar)) && Less(env.root, canonical(env.ldGold))
    && Less(env.root, canonical(env.ld)) && Less(env.root, canonical(env.gtest))
  }

  lemma ToolKeysAbove(canonical: string -> string, env: Environment)
    requires ToolsAbove(canonical, env)
    ensures forall d :: d in FixedDeclarations(env)[1..] ==> Less(env.root, Key(canonical, d))
  {
    forall d | d in FixedDeclarations(env)[1..] ensures Less(env.root, Key(canonical, d)) {
      assert d in PlaceDeclarations(env)[1..] || d in CompilerDeclarations(env) || d in BinaryDeclarations(env);
    }
  }

  /** An installation above its root leaves the map sorted, and whole unless declaring the root breaks it. */
  lemma SetupIsSorted(canonical: string -> string, env: Environment, c: Contents)
    requires Sorted(env.root, InOrder(c.tree)) && !HasKey(InOrder(c.tree), env.root)
    requires canonical(env.root) == env.root && ToolsAbove(canonical, env)
    ensures var after := DeclaredAll(env.root, canonical, c, FixedDeclarations(env));
      && Sorted(env.root, InOrder(after.tree))
      && (after.intact <==> c.intact && Put(env.root, c.tree, env.root, "UTBOT_ALL").Inserted?)
  {
    var ds := FixedDeclarations(env);
    PutKeepsSorted(env.root, c.tree, env.root, "UTBOT_ALL");
    ToolKeysAbove(canonical, env);
    DeclaredStaysSorted(env.root, canonical, Declared(env.root, canonical, c, ds[0]), ds[1..]);
  }

  lemma RootToolsAbove(root: string)
    requires root != []
    ensures var install := Under(root, "install");
      && Less(root, install) && Less(root, Under(install, "bin/clang")) && Less(root, Under(install, "bin/clang++"))
      && Less(root, Under(root, "access_private/include")) && Less(root, Under(root, "gtest"))
      && Less(root, Under(root, "debs-install"))
  {
    var install := Under(root, "install");
    UnderIsAbove(root, root, "install");
    UnderIsAbove(root, install, "bin/clang");
    UnderIsAbove(root, install, "bin/clang++");
    UnderIsAbove(root, root, "access_private/include");
    UnderIsAbove(root, root, "gtest");
    UnderIsAbove(root, root, "debs-install");
  }

  lemma PackagesAbove(root: string, debs: string)
    requires debs != [] && Less(root, debs)
    ensures var usr := Under(debs, "usr");
      && Less(root, Under(usr, "lib/gcc/x86_64-linux-gnu/9/libasan.so")) && Less(root, Under(usr, "bin/ar"))
      && Less(root, Under(usr, "bin/ld.gold")) && Less(root, Under(usr, "bin/ld"))
  {
    var usr := Under(debs, "usr");
    UnderIsAbove(root, debs, "usr");
    UnderIsAbove(root, usr, "lib/gcc/x86_64-linux-gnu/9/libasan.so");
    UnderIsAbove(root, usr, "bin/ar");
    UnderIsAbove(root, usr, "bin/ld.gold");
    UnderIsAbove(root, usr, "bin/ld");
  }

  lemma CompilersAbove(root: string)
    requires root != [] && root[0] == '/'
    ensures Less(root, "gcc") && Less(root, "g++") && !Less(root, "/")
  {
  }

  /** An installation is above its root if and only if its packages are: so below the root, but not in "/". */
  lemma ToolsAboveIff(canonical: string -> string, root: string, debs: string)
    requires root != [] && root[0] == '/' && debs != [] && forall path :: canonical(path) == path
    ensures ToolsAbove(canonical, Installed(root, debs)) <==> Less(root, debs)
    ensures Less(root, Under(root, "debs-install"))
    ensures !Less(root, "/")
  {
    RootToolsAbove(root);
    CompilersAbove(root);
    if Less(root, debs) { PackagesAbove(root, debs); }
  }

  lemma UnderIsAbove(root: string, directory: string, name: string)
    requires directory != [] && name != []
    ensures Under(directory, name) != []
    ensures root == directory || Less(root, directory) ==> Less(root, Under(directory, name))
  {
    PrefixIsLess(directory, Under(directory, name));
    LessIsStrictTotal(root, directory, Under(directory, name));
  }

  // ---- soundness

  /** New variables, declared for plain paths, keep definitions grounded and the keys right. */
  lemma {:induction false} DeclaredStaysSound(root: string, canonical: string -> string, base: map<string, string>,
                                              c: Contents, ds: seq<Declaration>)
    requires DefinitionsSound(base, c.definitions) && EntriesSound(base, c.definitions, InOrder(c.tree))
    requires forall d :: d in ds ==> NameOk(d.name) && d.name !in base && Plain(Key(canonical, d))
    requires forall i, j :: 0 <= i < j < |ds| ==> ds[i].name != ds[j].name
    requires forall e, d :: e in c.definitions && d in ds ==> e.name != d.name
    ensures var after := DeclaredAll(root, canonical, c, ds);
      DefinitionsSound(base, after.definitions) && EntriesSound(base, after.definitions, InOrder(after.tree))
    decreases |ds|
  {
    if |ds| > 0 {
      var d, one := ds[0], Declared(root, canonical, c, ds[0]);
      assert d in ds;
      DeclareFacts(root, base, c.definitions, c.tree, d.name, Key(canonical, d), one.tree);
      forall e, f | e in one.definitions && f in ds[1..] ensures e.name != f.name {
        var j :| 0 <= j < |ds[1..]| && ds[1..][j] == f;
        assert ds[j + 1] == f;
      }
      DeclaredStaysSound(root, canonical, base, one, ds[1..]);
    }
  }

  /** What a declaration does to what is known of definitions and entries, whether it is written to the map or not. */
  lemma DeclareFacts(root: string, base: map<string, string>, defs: seq<Definition>, t: Tree, name: string, x: string,
                     after: Tree)
    requires after == t || Put(root, t, x, name) == Inserted(after)
    requires EntriesSound(base, defs, InOrder(t)) && NameOk(name) && Plain(x)
    ensures var defs' := defs + [Definition(name, RelativePath(InOrder(t), x))];
      && Value(base, defs', |defs'|, name) == x
      && (EntriesSound(base, defs', InOrder(after)) <==> forall e :: e in InOrder(after) && e.variable == name ==> e.key == x)
      && (DefinitionsSound(base, defs) && name !in base && (forall d :: d in defs ==> d.name != name) ==>
            DefinitionsSound(base, defs') && EntriesSound(base, defs', InOrder(after)))
  {
    if after != t { PutKeepsEntries(root, t, x, name); }
    RedeclareKeepsSoundIff(base, defs, InOrder(t), name, x, InOrder(after));
    if DefinitionsSound(base, defs) && name !in base && forall d :: d in defs ==> d.name != name {
      DeclareKeepsSound(base, defs, InOrder(t), name, x);
      forall e | e in InOrder(t) ensures e.variable != name { KnownName(base, defs, |defs|, e.variable); }
    }
  }

  /** Length and first letters tell the names of the base and fixed variables apart. */
  function Code(name: string): (int, char, char)
    requires |name| >= 2
  {
    (|name|, name[0], name[1])
  }

  lemma FixedNamesDiffer(env: Environment)
    ensures var ds := FixedDeclarations(env);
      forall i, j :: 0 <= i < j < |ds| ==> ds[i].name != ds[j].name
  {
    var ds := FixedDeclarations(env);
    forall i, j | 0 <= i < j < |ds| ensures ds[i].name != ds[j].name {
      assert Code(ds[i].name) != Code(ds[j].name);
    }
  }

  lemma FixedNamesAreNoBase(env: Environment)
    ensures forall d :: d in FixedDeclarations(env) ==> d.name !in {"BUILD_DIR", "TESTS_DIR", "PROJECT_DIR", "BUILD_RELATIVE"}
  {
    forall d | d in FixedDeclarations(env) ensures d.name !in {"BUILD_DIR", "TESTS_DIR", "PROJECT_DIR", "BUILD_RELATIVE"} {
      assert Code(d.name) != Code("BUILD_DIR") && Code(d.name) != Code("TESTS_DIR");
      assert Code(d.name) != Code("PROJECT_DIR") && Code(d.name) != Code("BUILD_RELATIVE");
    }
  }

  /** No name is that of a base variable, or there twice. */
  ghost predicate NewNames(ds: seq<Declaration>)
  {
    && (forall d :: d in ds ==> NameOk(d.name) && d.name !in {"BUILD_DIR", "TESTS_DIR", "PROJECT_DIR", "BUILD_RELATIVE"})
    && (forall i, j :: 0 <= i < j < |ds| ==> ds[i].name != ds[j].name)
  }

  lemma FixedNamesAreNew(env: Environment)
    ensures NewNames(FixedDeclarations(env))
  {
    FixedNamesDiffer(env);
    FixedNamesAreNoBase(env);
    PlaceNamesOk(env);
    CompilerNamesOk(env);
    BinaryNamesOk(env);
  }

  ghost predicate NamesOk(ds: seq<Declaration>)
  {
    forall d :: d in ds ==> NameOk(d.name)
  }

  lemma PlaceNamesOk(env: Environment)
    ensures NamesOk(PlaceDeclarations(env))
  {
    InstallNamesOk();
    assert NameOk("ACCESS_PRIVATE_LIB");
  }

  lemma InstallNamesOk()
    ensures NameOk("UTBOT_ALL") && NameOk("UTBOT_INSTALL") && NameOk("UTBOT_DEBS_INSTALL_DIR")
  {
  }

  lemma CompilerNamesOk(env: Environment)
    ensures NamesOk(CompilerDeclarations(env))
  {
    assert NameOk("ASAN_LIB");
    assert NameOk("CLANG") && NameOk("CLANGXX") && NameOk("GCC") && NameOk("GXX");
  }

  lemma BinaryNamesOk(env: Environment)
    ensures NamesOk(BinaryDeclarations(env))
  {
    assert NameOk("AR") && NameOk("LD_GOLD") && NameOk("LD") && NameOk("GTEST");
  }

  // ---- the base paths

  /** The base paths in the order of their insertion. */
  function BaseEntries(build: string, tests: string, project: string, relative: string): seq<Entry>
  {
    [Entry(build, "BUILD_DIR"), Entry(tests, "TESTS_DIR"), Entry(project, "PROJECT_DIR"), Entry(relative, "BUILD_RELATIVE")]
  }

  /** What the exported base variables stand for. */
  function BaseValues(build: string, tests: string, project: string, relative: string): map<string, string>
  {
    map["BUILD_DIR" := build, "TESTS_DIR" := tests, "PROJECT_DIR" := project, "BUILD_RELATIVE" := relative]
  }

  lemma {:induction false} AddAllKeeps(root: string, t: Tree, entries: seq<Entry>)
    ensures var r := AddAll(root, t, entries);
      r.Inserted? ==> forall e :: e in InOrder(r.tree) ==> e in InOrder(t) || e in entries
    decreases |entries|
  {
    if |entries| > 0 && Add(root, t, entries[0]).Inserted? {
      AddKeepsEntries(root, t, entries[0]);
      AddAllKeeps(root, Add(root, t, entries[0]).tree, entries[1..]);
    }
  }

  lemma AddKeepsEntries(root: string, t: Tree, e: Entry)
    requires Add(root, t, e).Inserted?
    ensures forall x :: x in InOrder(Add(root, t, e).tree) ==> x in InOrder(t) || x == e
  {
    if t.Leaf? {
      SingleGrown(t, e);
    } else if Before(root, Last(t).key, e.key) {
      AddLastGrown(root, t, e);
    } else {
      AddDownGrown(root, t, e);
    }
  }

  lemma {:induction false} AddAllSorted(root: string, t: Tree, entries: seq<Entry>)
    requires Sorted(root, InOrder(t)) && !HasKey(InOrder(t), root) && forall e :: e in entries ==> e.key != root
    ensures var r := AddAll(root, t, entries);
      && r.Inserted? && Sorted(root, InOrder(r.tree))
      && forall x :: HasKey(InOrder(r.tree), x) <==> HasKey(InOrder(t), x) || HasKey(entries, x)
    decreases |entries|
  {
    if |entries| > 0 {
      AddKeepsSorted(root, t, entries[0]);
      AddAllSorted(root, Add(root, t, entries[0]).tree, entries[1..]);
      forall x ensures HasKey(entries, x) <==> entries[0].key == x || HasKey(entries[1..], x) {
        if i :| 0 <= i < |entries| && entries[i].key == x { assert i > 0 ==> entries[1..][i - 1].key == x; }
        if i :| 0 <= i < |entries[1..]| && entries[1..][i].key == x { assert entries[i + 1].key == x; }
      }
    }
  }

  lemma BasesSound(root: string, build: string, tests: string, project: string, relative: string)
    requires Plain(build) && Plain(tests) && Plain(project) && Plain(relative)
    requires AddAll(root, Leaf, BaseEntries(build, tests, project, relative)).Inserted?
    ensures EntriesSound(BaseValues(build, tests, project, relative), [],
                         InOrder(AddAll(root, Leaf, BaseEntries(build, tests, project, relative)).tree))
  {
    var base := BaseValues(build, tests, project, relative);
    AddAllKeeps(root, Leaf, BaseEntries(build, tests, project, relative));
    BaseNamesOk();
    BaseIsSound(base, Entry(build, "BUILD_DIR"));
    BaseIsSound(base, Entry(tests, "TESTS_DIR"));
    BaseIsSound(base, Entry(project, "PROJECT_DIR"));
    BaseIsSound(base, Entry(relative, "BUILD_RELATIVE"));
  }

  lemma BaseIsSound(base: map<string, string>, e: Entry)
    requires e.variable in base && base[e.variable] == e.key
    ensures Known(base, [], 0, e.variable) && Value(base, [], 0, e.variable) == e.key
  {
  }

  lemma BasesSorted(root: string, build: string, tests: string, project: string, relative: string)
    requires root !in {build, tests, project, relative}
    ensures var all := AddAll(root, Leaf, BaseEntries(build, tests, project, relative));
      && all.Inserted? && Sorted(root, InOrder(all.tree))
      && forall x :: HasKey(InOrder(all.tree), x) <==> x in [build, tests, project, relative]
  {
    var entries := BaseEntries(build, tests, project, relative);
    AddAllSorted(root, Leaf, entries);
    assert entries[0].key == build && entries[1].key == tests && entries[2].key == project && entries[3].key == relative;
  }

  /** The map after the insertion of the base paths. */
  function BaseContents(root: string, build: string, tests: string, project: string, relative: string): Contents
  {
    var all := AddAll(root, Leaf, BaseEntries(build, tests, project, relative));
    Contents(if all.Inserted? then all.tree else Leaf, [], all.Inserted?)
  }

  /** What a new printer holds. */
  function Setup(env: Environment, canonical: string -> string, build: string, tests: string, project: string,
                 relative: string): Contents
  {
    DeclaredAll(env.root, canonical, BaseContents(env.root, build, tests, project, relative), FixedDeclarations(env))
  }

  lemma NewNamesStaySound(root: string, canonical: string -> string, build: string, tests: string, project: string,
                          relative: string, ds: seq<Declaration>)
    requires Plain(build) && Plain(tests) && Plain(project) && Plain(relative)
    requires NewNames(ds) && forall d <- ds :: Plain(Key(canonical, d))
    ensures var base, c := BaseValues(build, tests, project, relative),
                           DeclaredAll(root, canonical, BaseContents(root, build, tests, project, relative), ds);
      DefinitionsSound(base, c.definitions) && EntriesSound(base, c.definitions, InOrder(c.tree))
  {
    var c := BaseContents(root, build, tests, project, relative);
    if c.intact { BasesSound(root, build, tests, project, relative); }
    DeclaredStaysSound(root, canonical, BaseValues(build, tests, project, relative), c, ds);
  }

  /** A new printer for plain paths has grounded definitions, and every key is the value of its variable. */
  lemma NewPrinterIsSound(env: Environment, canonical: string -> string, build: string, tests: string, project: string,
                     relative: string)
    requires Plain(build) && Plain(tests) && Plain(project) && Plain(relative)
    requires forall d <- FixedDeclarations(env) :: Plain(Key(canonical, d))
    ensures var base, c := BaseValues(build, tests, project, relative), Setup(env, canonical, build, tests, project, relative);
      DefinitionsSound(base, c.definitions) && EntriesSound(base, c.definitions, InOrder(c.tree))
  {
    FixedNamesAreNew(env);
    NewNamesStaySound(env.root, canonical, build, tests, project, relative, FixedDeclarations(env));
  }

  /** A new printer whose base paths are not the root, installed above the root, has a sorted map. */
  lemma NewPrinterIsSorted(env: Environment, canonical: string -> string, build: string, tests: string, project: string,
                            relative: string)
    requires env.root !in {build, tests, project, relative}
    requires canonical(env.root) == env.root && ToolsAbove(canonical, env)
    ensures var c, base := Setup(env, canonical, build, tests, project, relative),
                           BaseContents(env.root, build, tests, project, relative).tree;
      Sorted(env.root, InOrder(c.tree)) && (c.intact <==> !Breaks(env.root, base, env.root))
  {
    var base := BaseContents(env.root, build, tests, project, relative);
    BasesSorted(env.root, build, tests, project, relative);
    SetupIsSorted(canonical, env, base);
    PutBreaksIff(env.root, base.tree, env.root, "UTBOT_ALL");
  }
}
