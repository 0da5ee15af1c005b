/** The base variables of a makefile, defined relative to its directory, name the base paths. */
module BaseVariables {
  import Naming
  import opened Relativizer
  import opened Text

  // ---- paths as text

  /** The names of a path. */
  predicate Named(names: seq<string>)
  {
    forall s <- names :: s != "" && '/' !in s && '$' !in s
  }

  /** The text of an absolute path with these names. */
  function PathText(names: seq<string>): string
  {
    if names == [] then "" else "/" + names[0] + PathText(names[1..])
  }

  /** The text of a relative path with these names. */
  function RelativeText(names: seq<string>): string
    requires names != []
  {
    PathText(names)[1..]
  }

  /** The names in the text of a path. */
  function Names(s: string): seq<string>
  {
    if s == "" then []
    else if s[0] == '/' then Names(s[1..])
    else
      var n := Find(s, '/');
      [s[..n]] + Names(s[n..])
  }

  /** The normal path a text stands for. */
  function Resolved(s: string): seq<string> { Naming.Join([], Names(s)) }

  lemma {:induction false} NamesOfText(names: seq<string>)
    requires Named(names)
    ensures Names(PathText(names)) == names
  {
    if names != [] {
      assert names[0] in names && names == [names[0]] + names[1..];
      NamesOfText(names[1..]);
      NamesOfName(names[0], PathText(names[1..]));
    }
  }

  lemma NamesOfName(first: string, rest: string)
    requires '/' !in first && first != "" && (rest == "" || rest[0] == '/')
    ensures Names("/" + first + rest) == [first] + Names(rest)
  {
    var s := first + rest;
    FindName(first, rest);
    assert s[0] == first[0] && s[..|first|] == first && s[|first|..] == rest;
    assert ("/" + first + rest)[1..] == s;
  }

  lemma FindName(first: string, rest: string)
    requires '/' !in first && first != "" && (rest == "" || rest[0] == '/')
    ensures Find(first + rest, '/') == |first|
  {
    var s := first + rest;
    assert s[..|first|] == first;
    if rest != "" {
      FindIs(s, '/', |first|);
    } else {
      assert s == first;
      assert forall i :: 0 <= i < |s| ==> s[i] in first;
    }
  }

  lemma {:induction false} TextOfBoth(a: seq<string>, b: seq<string>)
    ensures PathText(a + b) == PathText(a) + PathText(b)
  {
    if a == [] {
      assert a + b == b;
    } else {
      assert (a + b)[1..] == a[1..] + b;
      TextOfBoth(a[1..], b);
    }
  }

  lemma {:induction false} JoinBoth(base: seq<string>, a: seq<string>, b: seq<string>)
    ensures Naming.Join(base, a + b) == Naming.Join(Naming.Join(base, a), b)
    decreases |a|
  {
    if a == [] {
      assert a + b == b;
    } else {
      assert (a + b)[1..] == a[1..] + b;
      var up := if base == [] then [] else base[..|base| - 1];
      var next := if a[0] == "." then base else if a[0] == ".." then up else base + [a[0]];
      JoinBoth(next, a[1..], b);
    }
  }

  /** A relative path behind an absolute one resolves to the two joined. */
  lemma ResolvedBelow(directory: seq<string>, rel: seq<string>)
    requires Named(directory) && Named(rel) && rel != [] && Naming.Normal(directory)
    ensures PathText(directory) + "/" + RelativeText(rel) == PathText(directory + rel)
    ensures Resolved(PathText(directory) + "/" + RelativeText(rel)) == Naming.Join(directory, rel)
  {
    assert PathText(rel) == "/" + RelativeText(rel);
    TextOfBoth(directory, rel);
    NamesOfText(directory + rel);
    JoinBoth([], directory, rel);
    Naming.JoinNames([], directory);
    assert [] + directory == directory;
  }

  // ---- what the base variables name

  lemma RelativeIsNamed(p: seq<string>, base: seq<string>)
    requires Named(p)
    ensures Named(Naming.Relative(p, base)) && Naming.Relative(p, base) != []
  {
    var n := Naming.CommonPrefix(p, base);
    assert forall s :: s in p[n..] ==> s in p;
    var ups := seq(|base| - n, _ => "..");
    assert forall s :: s in ups ==> s == "..";
  }

  lemma {:induction false} TextIsPlain(names: seq<string>)
    requires Named(names)
    ensures Plain(PathText(names))
  {
    if names != [] { TextIsPlain(names[1..]); }
  }

  lemma RelativeTextIsPlain(names: seq<string>)
    requires Named(names) && names != []
    ensures Plain(RelativeText(names)) && PathText(names) == "/" + RelativeText(names)
  {
    TextIsPlain(names);
    assert forall c :: c in PathText(names)[1..] ==> c in PathText(names);
  }

  predicate Clean(names: seq<string>) { Named(names) && Naming.Normal(names) }

  /**
   Whatever directory the makefile is in, the project, test and build variables, defined relative to it, stand for texts
   of the project, test and build paths.
   */
  lemma BaseVariablesNamePaths(directory: seq<string>, project: seq<string>, tests: seq<string>, build: seq<string>)
    requires Clean(directory) && Clean(project) && Clean(tests) && Clean(build) && build != []
    ensures var toProject, toTests := Naming.Relative(project, directory), Naming.Relative(tests, directory);
      && toProject != [] && toTests != []
      && var base := map["MAKEFILE_DIR" := PathText(directory)];
         var defs := BaseDefinitions(RelativeText(toProject), RelativeText(build), RelativeText(toTests));
         && Resolved(Value(base, defs, |defs|, "PROJECT_DIR")) == project
         && Resolved(Value(base, defs, |defs|, "TESTS_DIR")) == tests
         && Resolved(Value(base, defs, |defs|, "BUILD_DIR")) == project + build
         && Resolved(Value(base, defs, |defs|, "BUILD_RELATIVE")) == build
  {
    var toProject, toTests := Naming.Relative(project, directory), Naming.Relative(tests, directory);
    RelativeIsNamed(project, directory);
    RelativeIsNamed(tests, directory);
    RelativeTextIsPlain(toProject);
    RelativeTextIsPlain(toTests);
    RelativeTextIsPlain(build);
    BaseVariablesExpand(PathText(directory), RelativeText(toProject), RelativeText(build), RelativeText(toTests));
    ResolvedBelow(directory, toProject);
    ResolvedBelow(directory, toTests);
    Naming.RelativeRoundTrip(project, directory);
    Naming.RelativeRoundTrip(tests, directory);
    BuildIsBelow(directory, toProject, build);
    RelativeAlone(build);
  }

  lemma BuildIsBelow(directory: seq<string>, rel: seq<string>, build: seq<string>)
    requires Clean(directory) && Named(rel) && rel != [] && Clean(build) && build != []
    ensures Resolved(PathText(directory) + "/" + RelativeText(rel) + "/" + RelativeText(build)) ==
      Naming.Join(directory, rel) + build
  {
    ResolvedBelow(directory, rel);
    RelativeTextIsPlain(build);
    TextOfBoth(directory + rel, build);
    NamesOfText(directory + rel + build);
    JoinBoth([], directory + rel, build);
    NamesOfText(directory + rel);
    Naming.JoinNames(Naming.Join(directory, rel), build);
    var t := PathText(directory) + "/" + RelativeText(rel);
    assert t + "/" + RelativeText(build) == t + ("/" + RelativeText(build));
  }

  lemma RelativeAlone(build: seq<string>)
    requires Clean(build) && build != []
    ensures Resolved(RelativeText(build)) == build
  {
    NamesOfText(build);
    assert PathText(build)[0] == '/';
    assert Names(PathText(build)) == Names(RelativeText(build));
    Naming.JoinNames([], build);
    assert [] + build == build;
  }
}
