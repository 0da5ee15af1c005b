/** Command lines, told from their arguments. */
module CommandLines {
  import opened TrackedCommand

  lemma FirstIs(l: seq<string>, p: string -> bool, n: nat)
    requires n <= |l| && (n < |l| ==> p(l[n])) && forall i :: 0 <= i < n ==> !p(l[i])
    ensures FirstWhere(l, p) == n
  {
  }

  /** The first argument with the file name of the source is the source. */
  lemma SourceIs(pre: seq<string>, arg: string, post: seq<string>, paths: Paths, source: string)
    requires paths.fileName(arg) == paths.fileName(source)
    requires forall a :: a in pre ==> paths.fileName(a) != paths.fileName(source)
    ensures SourceIndex(pre + [arg] + post, paths, source) == |pre|
    ensures (pre + [arg] + post)[|pre| := source] == pre + [source] + post
  {
    var l := pre + [arg] + post;
    forall i | 0 <= i < |pre| ensures paths.fileName(l[i]) != paths.fileName(source) { assert l[i] in pre; }
    FirstIs(l, (a: string) => paths.fileName(a) == paths.fileName(source), |pre|);
  }

  /** The argument behind the first `-o` is the output, and made absolute. */
  lemma OutputIsUsed(pre: seq<string>, out: string, post: seq<string>, paths: Paths, defaultOutput: string)
    requires "-o" !in pre
    ensures var l := pre + ["-o", out] + post;
      && WithOutput(l, paths, defaultOutput) == pre + ["-o", paths.fullPath(out)] + post
      && OutputIndex(l) == |pre| + 1
  {
    var l := pre + ["-o", out] + post;
    assert l[|pre|] == "-o" && forall i :: 0 <= i < |pre| ==> l[i] in pre;
    FirstIs(l, IsDashO, |pre|);
  }

  /** Without an argument behind a `-o`, a default output goes behind the tool. */
  lemma OutputIsAdded(tool: string, rest: seq<string>, paths: Paths, defaultOutput: string)
    requires forall i :: 0 <= i < |rest| ==> ([tool] + rest)[i] != "-o"
    ensures WithOutput([tool] + rest, paths, defaultOutput) == [tool, "-o", defaultOutput] + rest
    ensures OutputIndex([tool] + rest) == 2 && !(DashO([tool] + rest) + 1 < |[tool] + rest|)
  {
    var l := [tool] + rest;
    assert forall i :: 0 <= i < |rest| ==> !IsDashO(l[i]);
  }

  /** An archive command without output is given one in front of its first static library. */
  lemma ArchiveOutputIs(tool: string, pre: seq<string>, lib: string, post: seq<string>, paths: Paths)
    requires paths.isArchiver(tool) && paths.isStaticLibrary(lib) && forall a :: a in [tool] + pre ==> !paths.isStaticLibrary(a)
    requires forall a :: a in [tool] + pre + [lib] + post ==> a != "-o"
    ensures LinkTexts([tool] + pre + [lib] + post, paths) == [tool] + pre + ["-o", lib] + post
    ensures LinkIndex([tool] + pre + [lib] + post, paths) == |pre| + 2
  {
    var front := [tool] + pre;
    var l := front + [lib] + post;
    assert forall i :: 0 <= i < |l| ==> l[i] in l;
    forall i | 0 <= i < |front| ensures !paths.isStaticLibrary(l[i]) { assert l[i] in front; }
    FirstIs(l, paths.isStaticLibrary, |front|);
    assert l[..|front|] == front && l[|front|..] == [lib] + post && l[0] == tool;
  }

  method SetLevel(args: seq<string>, paths: Paths, source: string, flag: string) returns (c: Command)
    requires SourceIndex(args, paths, source) < |args| && args[0] != DASH_O && source != DASH_O
    ensures fresh(c) && c.Valid()
    ensures LevelIs(args, CompileTexts(args, paths, source), OutputIndex(args[SourceIndex(args, paths, source) := source]), flag,
                    Texts(c.commandLine))
  {
    c := new Command.Compile(args, paths, source);
    c.ChangeLevel(args, flag);
  }
}
