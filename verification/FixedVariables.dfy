/** What the variables that every printer declares stand for. */
module FixedVariables {
  import opened PrinterSetup
  import opened Relativizer
  import opened VariableMap

  /** A variable keeps its value when others are declared. */
  lemma {:induction false} OthersKeep(root: string, canonical: string -> string, base: map<string, string>, c: Contents,
                                      ds: seq<Declaration>, name: string)
    requires forall d :: d in ds ==> d.name != name
    ensures var after := DeclaredAll(root, canonical, c, ds).definitions;
      Value(base, after, |after|, name) == Value(base, c.definitions, |c.definitions|, name)
    decreases |ds|
  {
    if |ds| > 0 {
      var d, one := ds[0], Declared(root, canonical, c, ds[0]);
      assert d in ds;
      DefinitionAdds(base, c.definitions, Definition(d.name, RelativePath(InOrder(c.tree), Key(canonical, d))), name);
      OthersKeep(root, canonical, base, one, ds[1..], name);
    }
  }

  /** New variables, declared for plain paths, stand for these paths. */
  lemma {:induction false} DeclaredStandFor(root: string, canonical: string -> string, base: map<string, string>,
                                            c: Contents, ds: seq<Declaration>, n: nat)
    requires DefinitionsSound(base, c.definitions) && EntriesSound(base, c.definitions, InOrder(c.tree))
    requires forall d :: d in ds ==> NameOk(d.name) && d.name !in base && Plain(Key(canonical, d))
    requires forall i, j :: 0 <= i < j < |ds| ==> ds[i].name != ds[j].name
    requires forall e, d :: e in c.definitions && d in ds ==> e.name != d.name
    requires n < |ds|
    ensures var after := DeclaredAll(root, canonical, c, ds).definitions;
      Value(base, after, |after|, ds[n].name) == Key(canonical, ds[n])
    decreases |ds|
  {
    var d, one := ds[0], Declared(root, canonical, c, ds[0]);
    assert d in ds;
    DeclareFacts(root, base, c.definitions, c.tree, d.name, Key(canonical, d), one.tree);
    if n == 0 {
      forall e | e in ds[1..] ensures e.name != d.name {
        var j :| 0 <= j < |ds[1..]| && ds[1..][j] == e;
        assert ds[j + 1] == e;
      }
      OthersKeep(root, canonical, base, one, ds[1..], d.name);
    } else {
      forall e, f | e in one.definitions && f in ds[1..] ensures e.name != f.name {
        var j :| 0 <= j < |ds[1..]| && ds[1..][j] == f;
        assert ds[j + 1] == f;
      }
      DeclaredStandFor(root, canonical, base, one, ds[1..], n - 1);
      assert ds[1..][n - 1] == ds[n];
    }
  }

  ghost function ValueIn(base: map<string, string>, defs: seq<Definition>, name: string): string
  {
    Value(base, defs, |defs|, name)
  }

  lemma AllStandFor(root: string, canonical: string -> string, base: map<string, string>, c: Contents, ds: seq<Declaration>)
    requires DefinitionsSound(base, c.definitions) && EntriesSound(base, c.definitions, InOrder(c.tree))
    requires forall d :: d in ds ==> NameOk(d.name) && d.name !in base && Plain(Key(canonical, d))
    requires forall i, j :: 0 <= i < j < |ds| ==> ds[i].name != ds[j].name
    requires c.definitions == []
    ensures var after := DeclaredAll(root, canonical, c, ds).definitions;
      forall n :: 0 <= n < |ds| ==> ValueIn(base, after, ds[n].name) == Key(canonical, ds[n])
  {
    forall n | 0 <= n < |ds|
      ensures ValueIn(base, DeclaredAll(root, canonical, c, ds).definitions, ds[n].name) == Key(canonical, ds[n])
    {
      DeclaredStandFor(root, canonical, base, c, ds, n);
    }
  }

  lemma NamesStandFor(root: string, canonical: string -> string, build: string, tests: string, project: string,
                      relative: string, ds: seq<Declaration>)
    requires Plain(build) && Plain(tests) && Plain(project) && Plain(relative)
    requires NewNames(ds) && forall d <- ds :: Plain(Key(canonical, d))
    ensures var base, c := BaseValues(build, tests, project, relative),
                           DeclaredAll(root, canonical, BaseContents(root, build, tests, project, relative), ds);
      forall n :: 0 <= n < |ds| ==> ValueIn(base, c.definitions, ds[n].name) == Key(canonical, ds[n])
  {
    var base, c := BaseValues(build, tests, project, relative), BaseContents(root, build, tests, project, relative);
    if c.intact { BasesSound(root, build, tests, project, relative); }
    AllStandFor(root, canonical, base, c, ds);
  }

  /** Each fixed variable stands for the place it is named after, in canonical form but for the compiler `clang++`. */
  lemma FixedVariablesStandFor(env: Environment, canonical: string -> string, build: string, tests: string,
                               project: string, relative: string)
    requires Plain(build) && Plain(tests) && Plain(project) && Plain(relative)
    requires forall d <- FixedDeclarations(env) :: Plain(Key(canonical, d))
    ensures var base, defs := BaseValues(build, tests, project, relative),
                              Setup(env, canonical, build, tests, project, relative).definitions;
      && ValueIn(base, defs, "UTBOT_ALL") == canonical(env.root)
      && ValueIn(base, defs, "UTBOT_INSTALL") == canonical(env.install)
      && ValueIn(base, defs, "ACCESS_PRIVATE_LIB") == canonical(env.accessPrivate)
      && ValueIn(base, defs, "UTBOT_DEBS_INSTALL_DIR") == canonical(env.debs)
      && ValueIn(base, defs, "ASAN_LIB") == canonical(env.asan)
      && ValueIn(base, defs, "CLANG") == canonical(env.clang)
      && ValueIn(base, defs, "CLANGXX") == env.clangpp
      && ValueIn(base, defs, "GCC") == canonical(env.gcc)
      && ValueIn(base, defs, "GXX") == canonical(env.gpp)
      && ValueIn(base, defs, "AR") == canonical(env.ar)
      && ValueIn(base, defs, "LD_GOLD") == canonical(env.ldGold)
      && ValueIn(base, defs, "LD") == canonical(env.ld)
      && ValueIn(base, defs, "GTEST") == canonical(env.gtest)
  {
    FixedNamesAreNew(env);
    NamesStandFor(env.root, canonical, build, tests, project, relative, FixedDeclarations(env));
    PlacesAre(env);
  }

  lemma PlacesAre(env: Environment)
    ensures var ds := FixedDeclarations(env);
      && ds[0] == Declaration("UTBOT_ALL", env.root, true) && ds[1] == Declaration("UTBOT_INSTALL", env.install, true)
      && ds[2] == Declaration("ACCESS_PRIVATE_LIB", env.accessPrivate, true)
      && ds[3] == Declaration("UTBOT_DEBS_INSTALL_DIR", env.debs, true) && ds[4] == Declaration("ASAN_LIB", env.asan, true)
      && ds[5] == Declaration("CLANG", env.clang, true) && ds[6] == Declaration("CLANGXX", env.clangpp, false)
      && ds[7] == Declaration("GCC", env.gcc, true) && ds[8] == Declaration("GXX", env.gpp, true)
      && ds[9] == Declaration("AR", env.ar, true) && ds[10] == Declaration("LD_GOLD", env.ldGold, true)
      && ds[11] == Declaration("LD", env.ld, true) && ds[12] == Declaration("GTEST", env.gtest, true)
  {
  }

  /** Where the tools of an installation are. */
  lemma InstalledPlaces(root: string, debs: string)
    requires root != [] && root[|root| - 1] != '/'
    ensures var env := Installed(root, debs);
      && env.root == root && env.debs == debs && env.gcc == "gcc" && env.gpp == "g++"
      && env.install == root + "/" + "install" && env.gtest == root + "/" + "gtest"
      && env.accessPrivate == root + "/" + "access_private/include"
      && env.clang == root + "/" + "install" + "/" + "bin/clang" && env.clangpp == root + "/" + "install" + "/" + "bin/clang++"
  {
    assert (root + "/" + "install")[|root| + 7] == 'l';
  }

  lemma PackagePlaces(root: string, debs: string)
    requires debs != [] && debs[|debs| - 1] != '/'
    ensures var env := Installed(root, debs);
      && env.ar == debs + "/" + "usr" + "/" + "bin/ar" && env.ld == debs + "/" + "usr" + "/" + "bin/ld"
      && env.ldGold == debs + "/" + "usr" + "/" + "bin/ld.gold"
      && env.asan == debs + "/" + "usr" + "/" + "lib/gcc/x86_64-linux-gnu/9/libasan.so"
  {
    assert (debs + "/" + "usr")[|debs| + 3] == 'r';
  }

  lemma PackagesInRootPlaces(root: string)
    ensures var env := Installed(root, "/");
      && env.ar == "/usr" + "/" + "bin/ar" && env.ld == "/usr" + "/" + "bin/ld" && env.ldGold == "/usr" + "/" + "bin/ld.gold"
      && env.asan == "/usr" + "/" + "lib/gcc/x86_64-linux-gnu/9/libasan.so"
  {
    assert "/" + "usr" == "/usr";
  }
}
