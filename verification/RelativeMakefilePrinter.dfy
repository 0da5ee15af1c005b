/** The makefile printer that writes paths relative to shell variables. */
module MakefilePrinter {
  import opened PrinterSetup
  import opened Relativizer
  import opened VariableMap

  method Search(entries: seq<Entry>, source: string) returns (r: string)
    ensures r == RelativePath(entries, source)
  {
    ghost var first := FirstMatch(entries, source);
    for i := 0 to |entries|
      invariant i <= first
    {
      var e := entries[i];
      if e.key <= source {
        assert first == i;
        return Mention(e.variable) + source[|e.key|..];
      }
    }
    r := source;
  }

  class RelativeMakefilePrinter {
    const env: Environment
    const base: map<string, string>
    /** `fs::weakly_canonical`. */
    const canonical: string -> string
    var pathToShellVariable: Tree
    /** No insertion has broken off a part of the tree; what is said of the map holds while this does. */
    var intact: bool
    var definitions: seq<Definition>

    function Entries(): seq<Entry>
      reads this
    {
      InOrder(pathToShellVariable)
    }

    function State(): Contents
      reads this
    {
      Contents(pathToShellVariable, definitions, intact)
    }

    ghost predicate Valid()
      reads this
    {
      DefinitionsSound(base, definitions) && EntriesSound(base, definitions, Entries())
    }

    /** The base paths, inserted one after another, and the fixed declarations. */
    constructor (env: Environment, canonical: string -> string, buildDirectory: string, buildDirectoryRelative: string,
                 projectPath: string, testsPath: string)
      ensures this.env == env && this.canonical == canonical
      ensures base == BaseValues(buildDirectory, testsPath, projectPath, buildDirectoryRelative)
      ensures State() == Setup(env, canonical, buildDirectory, testsPath, projectPath, buildDirectoryRelative)
      ensures (&& Plain(buildDirectory) && Plain(testsPath) && Plain(projectPath) && Plain(buildDirectoryRelative)
               && forall d <- FixedDeclarations(env) :: Plain(Key(canonical, d)))
              ==> Valid()
      ensures (&& env.root !in {buildDirectory, testsPath, projectPath, buildDirectoryRelative}
               && canonical(env.root) == env.root && ToolsAbove(canonical, env))
              ==> Sorted(env.root, Entries())
    {
      this.env, this.canonical := env, canonical;
      base := BaseValues(buildDirectory, testsPath, projectPath, buildDirectoryRelative);
      var all := AddAll(env.root, Leaf, BaseEntries(buildDirectory, testsPath, projectPath, buildDirectoryRelative));
      intact := all.Inserted?;
      pathToShellVariable := if all.Inserted? then all.tree else Leaf;
      definitions := [];
      new;
      InitializePathsToShellVariables();
      if Plain(buildDirectory) && Plain(testsPath) && Plain(projectPath) && Plain(buildDirectoryRelative) &&
         forall d <- FixedDeclarations(env) :: Plain(Key(canonical, d)) {
        NewPrinterIsSound(env, canonical, buildDirectory, testsPath, projectPath, buildDirectoryRelative);
      }
      if env.root !in {buildDirectory, testsPath, projectPath, buildDirectoryRelative} &&
         canonical(env.root) == env.root && ToolsAbove(canonical, env) {
        NewPrinterIsSorted(env, canonical, buildDirectory, testsPath, projectPath, buildDirectoryRelative);
      }
    }

    /** The path relative to the first variable that fits; expanding it gives back the path. */
    method GetRelativePath(path: string, isCanonical: bool) returns (r: string)
      ensures var source := if isCanonical then canonical(path) else path;
        && r == RelativePath(Entries(), source)
        && (Valid() && Plain(source) ==> Expand(base, definitions, |definitions|, r) == source)
    {
      var source := if isCanonical then canonical(path) else path;
      r := Search(InOrder(pathToShellVariable), source);
      if Valid() && Plain(source) { RelativePathExpands(base, definitions, Entries(), source); }
    }

    /** Defines a variable by the relative path of its path and, if asked to, makes the path a key. */
    method DeclareShellVariable(name: string, path: string, shouldWriteToMap: bool, isCanonical: bool)
      modifies this
      ensures var x := if isCanonical then canonical(path) else path;
        var put := Put(env.root, old(pathToShellVariable), x, name);
        && definitions == old(definitions) + [Definition(name, RelativePath(old(Entries()), x))]
        && intact == (old(intact) && (shouldWriteToMap ==> put.Inserted?))
        && pathToShellVariable == if shouldWriteToMap && put.Inserted? then put.tree else old(pathToShellVariable)
      ensures var x := if isCanonical then canonical(path) else path;
        old(Valid()) && NameOk(name) && name !in base && (forall d :: d in old(definitions) ==> d.name != name) && Plain(x) ==>
          Valid() && Value(base, definitions, |definitions|, name) == x
      ensures var x := if isCanonical then canonical(path) else path;
        old(EntriesSound(base, definitions, Entries())) && NameOk(name) && Plain(x) ==>
          && Value(base, definitions, |definitions|, name) == x
          && (EntriesSound(base, definitions, Entries()) <==>
              forall e :: e in Entries() && e.variable == name ==> e.key == x)
      ensures var x := if isCanonical then canonical(path) else path;
        Sorted(env.root, old(Entries())) && (shouldWriteToMap ==> Safe(env.root, old(Entries()), x)) ==>
          Sorted(env.root, Entries()) && (x != env.root ==> intact == old(intact))
    {
      var relativePath := GetRelativePath(path, isCanonical);
      var x := if isCanonical then canonical(path) else path;
      ghost var t, defs := pathToShellVariable, definitions;
      if Sorted(env.root, InOrder(t)) && Safe(env.root, InOrder(t), x) { PutKeepsSorted(env.root, t, x, name); }
      definitions := definitions + [Definition(name, relativePath)];
      if shouldWriteToMap { Assign(x, name); }
      if EntriesSound(base, defs, InOrder(t)) && NameOk(name) && Plain(x) {
        DeclareFacts(env.root, base, defs, t, name, x, pathToShellVariable);
      }
    }

    /** `pathToShellVariable[x] = "$(name)"`. */
    method Assign(x: string, name: string)
      modifies this`pathToShellVariable, this`intact
      ensures var put := Put(env.root, old(pathToShellVariable), x, name);
        && pathToShellVariable == (if put.Inserted? then put.tree else old(pathToShellVariable))
        && intact == (old(intact) && put.Inserted?)
    {
      var put := Put(env.root, pathToShellVariable, x, name);
      if put.Inserted? {
        pathToShellVariable := put.tree;
      } else {
        intact := false;
      }
    }

    /** A declaration with the settings most have: the canonical path becomes a key. */
    method Declare(name: string, path: string)
      modifies this
      ensures State() == Declared(env.root, canonical, old(State()), Declaration(name, path, true))
    {
      DeclareShellVariable(name, path, true, true);
    }

    method DeclareClangpp()
      modifies this
      ensures State() == Declared(env.root, canonical, old(State()), Declaration("CLANGXX", env.clangpp, false))
    {
      DeclareShellVariable("CLANGXX", env.clangpp, false, false);
      Assign(env.clangpp, "CLANGXX");
    }

    method InitializePathsToShellVariables()
      modifies this
      ensures State() == DeclaredAll(env.root, canonical, old(State()), FixedDeclarations(env))
    {
      ghost var c := State();
      DeclarePlaces();
      DeclareCompilers();
      DeclareBinaries();
      DeclaredTwice(env.root, canonical, c, PlaceDeclarations(env), CompilerDeclarations(env));
      DeclaredTwice(env.root, canonical, c, PlaceDeclarations(env) + CompilerDeclarations(env), BinaryDeclarations(env));
    }

    method DeclarePlaces()
      modifies this
      ensures State() == DeclaredAll(env.root, canonical, old(State()), PlaceDeclarations(env))
    {
      DeclaredFour(env.root, canonical, State(), PlaceDeclarations(env));
      Declare("UTBOT_ALL", env.root);
      Declare("UTBOT_INSTALL", env.install);
      Declare("ACCESS_PRIVATE_LIB", env.accessPrivate);
      Declare("UTBOT_DEBS_INSTALL_DIR", env.debs);
    }

    method DeclareCompilers()
      modifies this
      ensures State() == DeclaredAll(env.root, canonical, old(State()), CompilerDeclarations(env))
    {
      var ds := CompilerDeclarations(env);
      assert ds[1..][0] == ds[1] && ds[1..][1] == ds[2] && ds[1..][2] == ds[3] && ds[1..][3] == ds[4];
      DeclaredFour(env.root, canonical, Declared(env.root, canonical, State(), ds[0]), ds[1..]);
      Declare("ASAN_LIB", env.asan);
      Declare("CLANG", env.clang);
      DeclareClangpp();
      Declare("GCC", env.gcc);
      Declare("GXX", env.gpp);
    }

    method DeclareBinaries()
      modifies this
      ensures State() == DeclaredAll(env.root, canonical, old(State()), BinaryDeclarations(env))
    {
      DeclaredFour(env.root, canonical, State(), BinaryDeclarations(env));
      Declare("AR", env.ar);
      Declare("LD_GOLD", env.ldGold);
      Declare("LD", env.ld);
      Declare("GTEST", env.gtest);
    }
  }
}
