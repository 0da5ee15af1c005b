/** Command lines that remember where their source, output and optimisation level are. */
module TrackedCommand {

  /** An element of a linked list; a reference to one is what an iterator is. */
  class Node {
    var text: string
    constructor (text: string)
      ensures this.text == text
    {
      this.text := text;
    }
  }

  ghost function Texts(l: seq<Node>): (t: seq<string>)
    reads l
    ensures |t| == |l| && forall i :: 0 <= i < |l| ==> t[i] == l[i].text
  {
    seq(|l|, i requires 0 <= i < |l| reads l => l[i].text)
  }

  ghost predicate Distinct(l: seq<Node>) { forall i, j :: 0 <= i < j < |l| ==> l[i] != l[j] }

  /** `std::list::insert` at position `p`. */
  function InsertAt(l: seq<Node>, p: nat, more: seq<Node>): seq<Node>
    requires p <= |l|
  {
    l[..p] + more + l[p..]
  }

  lemma InsertKeeps(l: seq<Node>, p: nat, more: seq<Node>)
    requires p <= |l| && Distinct(l) && Distinct(more) && forall n :: n in more ==> n !in l
    ensures Distinct(InsertAt(l, p, more))
    ensures forall n :: n in InsertAt(l, p, more) <==> n in l || n in more
  {
    var r := InsertAt(l, p, more);
    var m := |more|;
    forall i, j | 0 <= i < j < |r| ensures r[i] != r[j] {
      if p <= i < p + m { assert r[i] == more[i - p] && more[i - p] in more; }
      else { assert r[i] == l[if i < p then i else i - m] && r[i] in l; }
      if p <= j < p + m { assert r[j] == more[j - p] && more[j - p] in more; }
      else { assert r[j] == l[if j < p then j else j - m] && r[j] in l; }
    }
    forall n | n in l ensures n in r {
      var i :| 0 <= i < |l| && l[i] == n;
      assert r[if i < p then i else i + |more|] == n;
    }
    forall n | n in more ensures n in r {
      var i :| 0 <= i < |more| && more[i] == n;
      assert r[i + p] == n;
    }
  }

  lemma InsertIndex(l: seq<Node>, p: nat, more: seq<Node>, i: nat)
    requires p <= |l| && i < |l|
    ensures InsertAt(l, p, more)[if i < p then i else i + |more|] == l[i]
  {
  }

  lemma InsertedIndex(l: seq<Node>, p: nat, more: seq<Node>, i: nat)
    requires p <= |l| && i < |more|
    ensures InsertAt(l, p, more)[p + i] == more[i]
  {
  }

  lemma TextsInserted(l: seq<Node>, p: nat, more: seq<Node>)
    requires p <= |l|
    ensures Texts(InsertAt(l, p, more)) == Texts(l)[..p] + Texts(more) + Texts(l)[p..]
  {
  }

  /** Index of the first text that meets `p`; the length if there is none. */
  function FirstWhere(l: seq<string>, p: string -> bool): (n: nat)
    ensures n <= |l| && (n < |l| ==> p(l[n])) && forall i :: 0 <= i < n ==> !p(l[i])
  {
    if l == [] || p(l[0]) then 0
    else
      var n := FirstWhere(l[1..], p);
      assert forall i :: 1 <= i <= n ==> l[i] == l[1..][i - 1];
      n + 1
  }

  /** The output is at `at`; what else is tracked is in the list, and is not the element before the output. */
  ghost predicate Shape(l: seq<Node>, at: nat, output: Node?, source: Node?, level: Node?)
  {
    && Distinct(l) && 2 <= at < |l| && output == l[at]
    && (source == null || (source in l && source != l[at - 1]))
    && (level == null || (level in l && level != l[at - 1]))
  }

  /** Insertion keeps the shape, unless it is between `-o` and the output. */
  lemma ShapeInsert(l: seq<Node>, at: nat, output: Node?, source: Node?, level: Node?, p: nat, more: seq<Node>)
    requires Shape(l, at, output, source, level) && 0 < p <= |l| && p != at
    requires Distinct(more) && forall n :: n in more ==> n !in l
    ensures var at' := if p < at then at + |more| else at;
      Shape(InsertAt(l, p, more), at', output, source, level) && InsertAt(l, p, more)[at' - 1] == l[at - 1]
  {
    InsertKeeps(l, p, more);
    InsertIndex(l, p, more, at - 1);
    InsertIndex(l, p, more, at);
  }

  const DASH_O := "-o"

  /** Argument `i` is the first one that starts with `-O`. */
  ghost predicate FirstLevel(args: seq<string>, i: int)
  {
    0 <= i < |args| && "-O" <= args[i] && forall j :: 0 <= j < i ==> !("-O" <= args[j])
  }

  /** Where element `i` is after `more` elements have been put in front of the output, which is at `at` then. */
  function NewIndex(i: nat, more: nat, at: nat): nat { if i + 1 < at || more == 0 then i else i + more }

  predicate IsDashO(a: string) { a == DASH_O }

  /** The argument starts with `-O`. */
  predicate IsOptimization(a: string) { |a| > 1 && a[0] == '-' && a[1] == 'O' }

  lemma OptimizationIsPrefix(args: seq<string>)
    ensures forall i :: 0 <= i < |args| ==> (IsOptimization(args[i]) <==> "-O" <= args[i])
  {
    forall i | 0 <= i < |args| ensures IsOptimization(args[i]) <==> "-O" <= args[i] {
      if |args[i]| > 1 { assert args[i][..2] == [args[i][0], args[i][1]]; }
    }
  }

  /** What the file system and path functions say, for one working directory. */
  datatype Paths = Paths(fileName: string -> string, fullPath: string -> string, objectName: string -> string,
                         isArchiver: string -> bool, isStaticLibrary: string -> bool, defaultOutput: string)

  /** Index of the first `-o`. */
  function DashO(l: seq<string>): nat { FirstWhere(l, IsDashO) }

  function SourceIndex(args: seq<string>, paths: Paths, source: string): nat
  {
    FirstWhere(args, (a: string) => paths.fileName(a) == paths.fileName(source))
  }

  /** The texts with the output made absolute, or added behind the tool. */
  function WithOutput(l: seq<string>, paths: Paths, defaultOutput: string): seq<string>
    requires l != []
  {
    var d := DashO(l);
    if d + 1 < |l| then l[d + 1 := paths.fullPath(l[d + 1])] else l[..1] + [DASH_O, defaultOutput] + l[1..]
  }

  lemma DashOIsNotTool(args: seq<string>, s: nat, source: string)
    requires s < |args| && args[0] != DASH_O && source != DASH_O
    ensures DashO(args[s := source]) > 0
  {
    assert args[s := source][0] == if s == 0 then source else args[0];
  }

  function OutputIndex(l: seq<string>): nat { if DashO(l) + 1 < |l| then DashO(l) + 1 else 2 }

  function CompileTexts(args: seq<string>, paths: Paths, source: string): seq<string>
    requires SourceIndex(args, paths, source) < |args|
  {
    WithOutput(args[SourceIndex(args, paths, source) := source], paths, paths.fullPath(paths.objectName(source)))
  }

  // ---- link commands

  /** An archive command without `-o`: one goes before the first static library. */
  predicate IsArchiveShape(args: seq<string>, paths: Paths)
    requires args != []
  {
    DashO(args) + 1 >= |args| && paths.isArchiver(args[0])
  }

  function LinkTexts(args: seq<string>, paths: Paths): seq<string>
    requires args != []
  {
    if IsArchiveShape(args, paths) then
      var a := FirstWhere(args, paths.isStaticLibrary);
      args[..a] + [DASH_O] + args[a..]
    else WithOutput(args, paths, paths.defaultOutput)
  }

  function LinkIndex(args: seq<string>, paths: Paths): nat
    requires args != []
  {
    if IsArchiveShape(args, paths) then FirstWhere(args, paths.isStaticLibrary) + 1 else OutputIndex(args)
  }

  /** The output has a place behind a `-o` that is not the tool. */
  predicate Trackable(args: seq<string>, paths: Paths)
    requires args != []
  {
    if DashO(args) + 1 < |args| then DashO(args) > 0
    else if paths.isArchiver(args[0]) then 0 < FirstWhere(args, paths.isStaticLibrary) < |args|
    else true
  }

  /** `erase_if`: the texts that do not meet `p`. */
  function Without(l: seq<string>, p: string -> bool): seq<string>
  {
    if l == [] then []
    else Without(l[..|l| - 1], p) + if p(l[|l| - 1]) then [] else [l[|l| - 1]]
  }

  lemma WithoutNext(l: seq<string>, r: nat, p: string -> bool)
    requires r < |l|
    ensures var before, after := Without(l[..r], p), Without(l[..r + 1], p);
      && (p(l[r]) ==> after == before)
      && (!p(l[r]) ==> |after| == |before| + 1 && after[|before|] == l[r] && forall k :: 0 <= k < |before| ==> after[k] == before[k])
  {
    assert l[..r + 1][..r] == l[..r];
  }

  /** How many of the texts meet `p`. */
  function Count(l: seq<string>, p: string -> bool): (n: nat)
    ensures n <= |l|
  {
    if l == [] then 0 else Count(l[..|l| - 1], p) + if p(l[|l| - 1]) then 1 else 0
  }

  /** A text that stays moves forward by the number of texts erased before it, so only behind them it keeps its place. */
  lemma {:induction false} WithoutMoves(l: seq<string>, p: string -> bool, k: nat)
    requires k < |l| && !p(l[k])
    ensures |Without(l, p)| == |l| - Count(l, p)
    ensures k - Count(l[..k], p) < |Without(l, p)| && Without(l, p)[k - Count(l[..k], p)] == l[k]
  {
    var n := |l| - 1;
    WithoutLength(l, p);
    if k < n {
      WithoutMoves(l[..n], p, k);
      assert l[..n][..k] == l[..k];
    } else {
      WithoutLength(l[..n], p);
    }
  }

  lemma {:induction false} WithoutLength(l: seq<string>, p: string -> bool)
    ensures |Without(l, p)| == |l| - Count(l, p)
  {
    if l != [] { WithoutLength(l[..|l| - 1], p); }
  }

  /** A text that is there once and stays is there once afterwards, at its new place. */
  lemma {:induction false} WithoutUnique(l: seq<string>, p: string -> bool, k: nat, j: nat)
    requires k < |l| && !p(l[k]) && forall i :: 0 <= i < |l| && l[i] == l[k] ==> i == k
    requires j < |Without(l, p)| && Without(l, p)[j] == l[k]
    ensures j == k - Count(l[..k], p)
  {
    var n := |l| - 1;
    WithoutLength(l[..n], p);
    if k < n {
      assert l[..n][..k] == l[..k];
      WithoutUnique(l[..n], p, k, j);
    } else {
      forall i | 0 <= i < |Without(l[..n], p)| ensures Without(l[..n], p)[i] != l[k] {
        WithoutSubset(l[..n], p, i);
      }
    }
  }

  lemma {:induction false} WithoutSubset(l: seq<string>, p: string -> bool, j: nat)
    requires j < |Without(l, p)|
    ensures Without(l, p)[j] in l
  {
    var n := |l| - 1;
    if j < |Without(l[..n], p)| {
      WithoutSubset(l[..n], p, j);
    }
  }

  lemma {:induction false} CountsNone(l: seq<string>, p: string -> bool)
    ensures Count(l, p) == 0 <==> forall a :: a in l ==> !p(a)
  {
    if l == [] {
    } else {
      CountsNone(l[..|l| - 1], p);
      assert l == l[..|l| - 1] + [l[|l| - 1]];
    }
  }

  lemma WithoutSecond(tool: string, arg: string, rest: seq<string>)
    requires arg != tool && arg !in rest
    ensures Without([tool, arg] + rest, (a: string) => a == arg) == [tool] + rest
    decreases |rest|
  {
    var p := (a: string) => a == arg;
    var l, n := [tool, arg] + rest, |rest| - 1;
    if rest == [] {
      assert [tool, arg][..1] == [tool] && Without([tool], p) == [tool];
    } else {
      WithoutSecond(tool, arg, rest[..n]);
      assert l[..|l| - 1] == [tool, arg] + rest[..n];
    }
  }

  lemma OutputThird(tool: string, arg: string, out: string, next: string, paths: Paths)
    requires tool != DASH_O && arg !in {tool, DASH_O, paths.fullPath(out), next}
    ensures var args, texts := [tool, arg, DASH_O, out, next], [tool, arg, DASH_O, paths.fullPath(out), next];
      && LinkIndex(args, paths) == 3 && LinkTexts(args, paths) == texts
      && Without(texts, (a: string) => a == arg) == [tool, DASH_O, paths.fullPath(out), next]
  {
    var args := [tool, arg, DASH_O, out, next];
    var d := DashO(args);
    assert args[0] == tool && args[1] == arg && args[2] == DASH_O && args[3] == out;
    assert IsDashO(args[2]) && forall i :: 0 <= i < d ==> !IsDashO(args[i]);
    var rest := [DASH_O, paths.fullPath(out), next];
    WithoutSecond(tool, arg, rest);
    assert [tool, arg] + rest == [tool, arg, DASH_O, paths.fullPath(out), next];
    assert [tool] + rest == [tool, DASH_O, paths.fullPath(out), next];
  }

  /** The text behind the only `-o`, at index `at`. */
  ghost predicate OutputAt(l: seq<string>, at: nat)
  {
    2 <= at < |l| && l[at - 1] == DASH_O && forall i :: 0 <= i < |l| && l[i] == DASH_O ==> i == at - 1
  }

  /** Erasing an argument leaves the output at its index exactly when the argument does not occur before it. */
  lemma OutputStaysIff(l: seq<string>, at: nat, arg: string)
    requires OutputAt(l, at) && arg != DASH_O && arg != l[at]
    ensures var kept := Without(l, (a: string) => a == arg);
      at < |kept| && kept[at - 1] == DASH_O && kept[at] == l[at] <==> arg !in l[..at]
  {
    var p := (a: string) => a == arg;
    var kept := Without(l, p);
    assert l[..at][..at - 1] == l[..at - 1];
    CountsNone(l[..at], p);
    WithoutMoves(l, p, at - 1);
    WithoutMoves(l, p, at);
    if at < |kept| && kept[at - 1] == DASH_O {
      WithoutUnique(l, p, at - 1, at - 1);
    }
  }

  // ---- the elements that stay when some are unlinked

  /** Which elements meet `p`. */
  ghost function Mask(l: seq<Node>, p: string -> bool): (m: seq<bool>)
    reads l
    ensures |m| == |l| && forall i :: 0 <= i < |l| ==> m[i] == p(l[i].text)
  {
    seq(|l|, i requires 0 <= i < |l| reads l => p(l[i].text))
  }

  function Sift(l: seq<Node>, drop: seq<bool>): seq<Node>
    requires |drop| == |l|
  {
    if l == [] then []
    else
      var n := |l| - 1;
      Sift(l[..n], drop[..n]) + if drop[n] then [] else [l[n]]
  }

  function Dropped(drop: seq<bool>): (n: nat)
    ensures n <= |drop|
  {
    if drop == [] then 0 else Dropped(drop[..|drop| - 1]) + if drop[|drop| - 1] then 1 else 0
  }

  lemma {:induction false} SiftLength(l: seq<Node>, drop: seq<bool>)
    requires |drop| == |l|
    ensures |Sift(l, drop)| == |l| - Dropped(drop)
  {
    if l != [] { SiftLength(l[..|l| - 1], drop[..|l| - 1]); }
  }

  lemma {:induction false} SiftMoves(l: seq<Node>, drop: seq<bool>, k: nat)
    requires |drop| == |l| && k < |l| && !drop[k]
    ensures k - Dropped(drop[..k]) < |Sift(l, drop)| && Sift(l, drop)[k - Dropped(drop[..k])] == l[k]
  {
    var n := |l| - 1;
    SiftLength(l[..n], drop[..n]);
    if k < n {
      SiftMoves(l[..n], drop[..n], k);
      assert drop[..n][..k] == drop[..k];
    }
  }

  lemma {:induction false} SiftDistinct(l: seq<Node>, drop: seq<bool>)
    requires |drop| == |l| && Distinct(l)
    ensures Distinct(Sift(l, drop)) && forall n :: n in Sift(l, drop) ==> n in l
  {
    if l != [] {
      var n := |l| - 1;
      SiftDistinct(l[..n], drop[..n]);
      var kept := Sift(l[..n], drop[..n]);
      forall i | 0 <= i < |kept| ensures kept[i] != l[n] && kept[i] in l {
        assert kept[i] in l[..n];
        var k :| 0 <= k < n && l[k] == kept[i];
      }
      DistinctMore(kept, l[n]);
    }
  }

  lemma DistinctMore(l: seq<Node>, x: Node)
    requires Distinct(l) && forall i :: 0 <= i < |l| ==> l[i] != x
    ensures Distinct(l + [x])
  {
  }

  ghost predicate Stays(l: seq<Node>, drop: seq<bool>, x: Node?)
    requires |drop| == |l|
  {
    forall i :: 0 <= i < |l| && l[i] == x ==> !drop[i]
  }

  lemma SiftKeeps(l: seq<Node>, drop: seq<bool>, x: Node?)
    requires |drop| == |l| && (x == null || x in l) && Stays(l, drop, x)
    ensures x == null || x in Sift(l, drop)
  {
    if x != null {
      var k :| 0 <= k < |l| && l[k] == x;
      SiftMoves(l, drop, k);
    }
  }

  lemma SiftOutput(l: seq<Node>, at: nat, drop: seq<bool>)
    requires 2 <= at < |l| == |drop| && !drop[0] && !drop[at - 1] && !drop[at]
    ensures var at' := at - Dropped(drop[..at]);
      2 <= at' < |Sift(l, drop)| && Sift(l, drop)[at'] == l[at] && Sift(l, drop)[at' - 1] == l[at - 1]
  {
    SiftMoves(l, drop, at);
    SiftMoves(l, drop, at - 1);
    assert drop[..at][..at - 1] == drop[..at - 1];
    SomeStay(drop[..at - 1]);
  }

  lemma {:induction false} SomeStay(drop: seq<bool>)
    requires drop != [] && !drop[0]
    ensures Dropped(drop) < |drop|
  {
    if |drop| > 1 { SomeStay(drop[..|drop| - 1]); }
  }

  /** Unlinking keeps the shape if the tool, what is tracked and the element before the output stay. */
  lemma SiftShape(l: seq<Node>, at: nat, output: Node?, source: Node?, level: Node?, drop: seq<bool>) returns (at': nat)
    requires Shape(l, at, output, source, level) && |drop| == |l|
    requires !drop[0] && !drop[at - 1] && !drop[at]
    requires Stays(l, drop, source) && Stays(l, drop, level)
    ensures Shape(Sift(l, drop), at', output, source, level) && Sift(l, drop)[at' - 1] == l[at - 1]
  {
    at' := at - Dropped(drop[..at]);
    SiftDistinct(l, drop);
    SiftOutput(l, at, drop);
    SiftKeeps(l, drop, source);
    SiftKeeps(l, drop, level);
  }

  lemma {:induction false} SiftTexts(l: seq<Node>, p: string -> bool)
    ensures Texts(Sift(l, Mask(l, p))) == Without(Texts(l), p)
  {
    if l != [] {
      var n := |l| - 1;
      SiftTexts(l[..n], p);
      assert Texts(l)[..n] == Texts(l[..n]) && Mask(l, p)[..n] == Mask(l[..n], p);
    }
  }

  /** The level is the first element whose text starts with `-O`. */
  ghost predicate LevelFound(l: seq<Node>, level: Node?, args: seq<string>)
  {
    && |args| == |l|
    && (level == null <==> forall i :: 0 <= i < |args| ==> !("-O" <= args[i]))
    && forall i :: FirstLevel(args, i) ==> level == l[i]
  }

  /** The first argument that starts with `-O` is replaced, where it is after the construction; without one, the level is added. */
  ghost predicate LevelIs(args: seq<string>, texts: seq<string>, at: nat, flag: string, after: seq<string>)
  {
    && |args| <= |texts| && texts != []
    && (forall i :: FirstLevel(args, i) ==>
          var q := NewIndex(i, |texts| - |args|, at); q < |texts| && after == texts[q := flag])
    && ((forall i :: 0 <= i < |args| ==> !("-O" <= args[i])) ==> after == texts[..1] + [flag] + texts[1..])
  }

  class Command {
    var shouldChangeDirectory: bool
    var commandLine: seq<Node>
    /** `null` stands for the end of the list. */
    var output: Node?
    /** Compile commands only. */
    var sourcePath: Node?
    var optimizationLevel: Node?
    /** Where the output is. */
    ghost var at: nat

    ghost predicate Valid()
      reads this, commandLine
    {
      && Shape(commandLine, at, output, sourcePath, optimizationLevel)
      && commandLine[at - 1].text == DASH_O
    }

    static method MakeNodes(texts: seq<string>) returns (l: seq<Node>)
      ensures fresh(l) && Distinct(l) && Texts(l) == texts
    {
      l := [];
      for i := 0 to |texts|
        invariant fresh(l) && Distinct(l) && |l| == i && forall k :: 0 <= k < i ==> l[k].text == texts[k]
      {
        var n := new Node(texts[i]);
        l := l + [n];
      }
    }

    static method Find(l: seq<Node>, p: string -> bool) returns (i: nat)
      ensures i == FirstWhere(Texts(l), p)
    {
      ghost var first := FirstWhere(Texts(l), p);
      i := 0;
      while i < |l| && !p(l[i].text)
        invariant i <= first
      {
        i := i + 1;
      }
    }

    /** The source and the optimisation level are in the list, and are no `-o`. */
    ghost predicate Ready()
      reads this, commandLine
    {
      && Distinct(commandLine) && commandLine != []
      && (sourcePath != null ==> sourcePath in commandLine && sourcePath.text != DASH_O)
      && (optimizationLevel != null ==> optimizationLevel in commandLine && optimizationLevel.text != DASH_O)
    }

    /** The elements of `l` are still in the list, with what has been added between them in front of the output. */
    ghost predicate KeepsNodes(l: seq<Node>)
      reads this
    {
      && |l| <= |commandLine|
      && forall i :: 0 <= i < |l| ==> commandLine[NewIndex(i, |commandLine| - |l|, at)] == l[i]
    }

    /** The level is that of the first argument that starts with `-O`, in the element it was put in; null without one. */
    ghost predicate LevelTracked(args: seq<string>)
      reads this
    {
      && |args| <= |commandLine|
      && (optimizationLevel == null <==> forall i :: 0 <= i < |args| ==> !("-O" <= args[i]))
      && forall i :: FirstLevel(args, i) ==> optimizationLevel == commandLine[NewIndex(i, |commandLine| - |args|, at)]
    }

    lemma LevelStaysTracked(l: seq<Node>, args: seq<string>)
      requires LevelFound(l, optimizationLevel, args) && KeepsNodes(l)
      ensures LevelTracked(args)
    {
      forall i | FirstLevel(args, i) ensures optimizationLevel == commandLine[NewIndex(i, |commandLine| - |args|, at)] {
        assert optimizationLevel == l[i];
      }
    }

    constructor Compile(args: seq<string>, paths: Paths, source: string)
      requires SourceIndex(args, paths, source) < |args|
      requires args[0] != DASH_O && source != DASH_O
      ensures Valid() && fresh(commandLine) && Texts(commandLine) == CompileTexts(args, paths, source)
      ensures at == OutputIndex(args[SourceIndex(args, paths, source) := source])
      ensures sourcePath != null && (output != sourcePath ==> sourcePath.text == source)
      ensures LevelTracked(args) && !shouldChangeDirectory
    {
      shouldChangeDirectory, commandLine, output, sourcePath, optimizationLevel, at := false, [], null, null, null, 0;
      new;
      StartCompile(args, paths, source);
    }

    method StartCompile(args: seq<string>, paths: Paths, source: string)
      requires SourceIndex(args, paths, source) < |args| && args[0] != DASH_O && source != DASH_O
      requires sourcePath == null && optimizationLevel == null
      modifies this`commandLine, this`output, this`at, this`sourcePath, this`optimizationLevel
      ensures Valid() && fresh(commandLine) && Texts(commandLine) == CompileTexts(args, paths, source)
      ensures at == OutputIndex(args[SourceIndex(args, paths, source) := source])
      ensures sourcePath != null && (output != sourcePath ==> sourcePath.text == source)
      ensures LevelTracked(args)
    {
      var nodes := MakeNodes(args);
      commandLine := nodes;
      InitCompile(paths, source);
      AllFresh(nodes);
    }

    /** Elements that are new, or among new ones, are new. */
    twostate lemma AllFresh(new nodes: seq<Node>)
      requires fresh(nodes) && forall n :: n in commandLine ==> fresh(n) || n in nodes
      ensures fresh(commandLine)
    {
      forall i | 0 <= i < |commandLine| ensures fresh(commandLine[i]) {
        assert commandLine[i] in commandLine && (commandLine[i] in nodes ==> fresh(commandLine[i]));
      }
    }

    method InitCompile(paths: Paths, source: string)
      requires Distinct(commandLine) && commandLine != [] && sourcePath == null && optimizationLevel == null
      requires SourceIndex(Texts(commandLine), paths, source) < |commandLine|
      requires commandLine[0].text != DASH_O && source != DASH_O
      modifies this`commandLine, this`output, this`at, this`sourcePath, this`optimizationLevel, commandLine
      ensures Valid() && Texts(commandLine) == CompileTexts(old(Texts(commandLine)), paths, source)
      ensures var args := old(Texts(commandLine)); at == OutputIndex(args[SourceIndex(args, paths, source) := source])
      ensures sourcePath != null && (output != sourcePath ==> sourcePath.text == source)
      ensures LevelTracked(old(Texts(commandLine)))
      ensures forall n :: n in commandLine ==> fresh(n) || n in old(commandLine)
    {
      ghost var args, l := Texts(commandLine), commandLine;
      InitSource(paths, source);
      InitOutput(paths, paths.fullPath(paths.objectName(source)));
      LevelStaysTracked(l, args);
    }

    /** The level and the source, before the output. */
    method InitSource(paths: Paths, source: string)
      requires Distinct(commandLine) && commandLine != [] && sourcePath == null && optimizationLevel == null
      requires SourceIndex(Texts(commandLine), paths, source) < |commandLine|
      requires commandLine[0].text != DASH_O && source != DASH_O
      modifies this`sourcePath, this`optimizationLevel, commandLine
      ensures Ready() && sourcePath != null && sourcePath.text == source
      ensures LevelFound(commandLine, optimizationLevel, old(Texts(commandLine)))
      ensures Texts(commandLine) == old(Texts(commandLine))[SourceIndex(old(Texts(commandLine)), paths, source) := source]
      ensures DashO(Texts(commandLine)) > 0
    {
      ghost var args := Texts(commandLine);
      InitOptimizationLevel();
      InitSourcePath(paths, source);
      DashOIsNotTool(args, SourceIndex(args, paths, source), source);
    }

    method InitSourcePath(paths: Paths, source: string)
      requires Ready() && source != DASH_O && SourceIndex(Texts(commandLine), paths, source) < |commandLine|
      modifies this`sourcePath, commandLine
      ensures Ready() && sourcePath != null && sourcePath.text == source
      ensures Texts(commandLine) == old(Texts(commandLine))[SourceIndex(old(Texts(commandLine)), paths, source) := source]
    {
      var s := Find(commandLine, (a: string) => paths.fileName(a) == paths.fileName(source));
      sourcePath := commandLine[s];
      sourcePath.text := source;
    }

    method InitOptimizationLevel()
      requires Distinct(commandLine) && commandLine != [] && sourcePath == null && optimizationLevel == null
      modifies this`optimizationLevel
      ensures Ready() && LevelFound(commandLine, optimizationLevel, Texts(commandLine))
    {
      var o := Find(commandLine, IsOptimization);
      OptimizationIsPrefix(Texts(commandLine));
      if o < |commandLine| {
        optimizationLevel := commandLine[o];
      }
    }

    /** Finds the output behind `-o`, or adds a default one. */
    method InitOutput(paths: Paths, defaultOutput: string)
      requires Ready()
      modifies this`commandLine, this`output, this`at, commandLine
      ensures Texts(commandLine) == WithOutput(old(Texts(commandLine)), paths, defaultOutput)
      ensures at == OutputIndex(old(Texts(commandLine)))
      ensures Valid() <==> at >= 2
      ensures KeepsNodes(old(commandLine))
      ensures forall n :: n in old(commandLine) && n != output ==> n.text == old(n.text)
      ensures forall n :: n in commandLine ==> fresh(n) || n in old(commandLine)
    {
      var d := Find(commandLine, IsDashO);
      if d + 1 < |commandLine| {
        UseOutput(d, paths.fullPath(commandLine[d + 1].text));
      } else {
        AddOutput(defaultOutput);
      }
    }

    method UseOutput(d: nat, text: string)
      requires Ready() && d + 1 < |commandLine| && commandLine[d].text == DASH_O
      modifies this`output, this`at, commandLine[d + 1]
      ensures output == commandLine[d + 1] && at == d + 1 && (Valid() <==> d > 0)
      ensures Texts(commandLine) == old(Texts(commandLine))[d + 1 := text]
    {
      assert commandLine[d] != sourcePath && commandLine[d] != optimizationLevel && commandLine[d] != commandLine[d + 1];
      output, at := commandLine[d + 1], d + 1;
      output.text := text;
    }

    /** `std::list::insert`: the other elements, and what is tracked, stay where they are. */
    method InsertTexts(p: nat, texts: seq<string>) returns (more: seq<Node>)
      requires p <= |commandLine|
      modifies this`commandLine, this`at
      ensures fresh(more) && |more| == |texts| && Distinct(more) && (forall n :: n in more ==> n !in old(commandLine))
      ensures forall i :: 0 <= i < |more| ==> more[i].text == texts[i]
      ensures commandLine == InsertAt(old(commandLine), p, more) && (more != [] ==> commandLine[p] == more[0])
      ensures Texts(commandLine) == old(Texts(commandLine))[..p] + texts + old(Texts(commandLine))[p..]
      ensures at == if p < old(at) then old(at) + |texts| else old(at)
    {
      more := MakeNodes(texts);
      TextsInserted(commandLine, p, more);
      commandLine, at := InsertAt(commandLine, p, more), if p < at then at + |texts| else at;
    }

    method AddOutput(text: string)
      requires Ready()
      modifies this`commandLine, this`output, this`at
      ensures Valid() && at == 2 && fresh(output) && KeepsNodes(old(commandLine)) && |commandLine| == |old(commandLine)| + 2
      ensures Texts(commandLine) == old(Texts(commandLine))[..1] + [DASH_O, text] + old(Texts(commandLine))[1..]
      ensures forall n :: n in commandLine ==> fresh(n) || n in old(commandLine)
    {
      ghost var l := commandLine;
      var more := InsertTexts(1, [DASH_O, text]);
      InsertKeeps(l, 1, more);
      InsertedIndex(l, 1, more, 0);
      InsertedIndex(l, 1, more, 1);
      output, at := more[1], 2;
    }

    /** A link command. What is tracked is right exactly when the arguments are trackable. */
    constructor Link(args: seq<string>, paths: Paths, shouldChangeDirectory: bool)
      requires args != []
      ensures fresh(commandLine) && LinkInitialised(args, paths) && LevelTracked(args)
      ensures this.shouldChangeDirectory == shouldChangeDirectory && sourcePath == null
    {
      this.shouldChangeDirectory := shouldChangeDirectory;
      commandLine, output, sourcePath, optimizationLevel, at := [], null, null, null, 0;
      new;
      StartLink(args, paths);
    }

    method StartLink(args: seq<string>, paths: Paths)
      requires args != [] && sourcePath == null && optimizationLevel == null
      modifies this`commandLine, this`output, this`at, this`optimizationLevel
      ensures fresh(commandLine) && LinkInitialised(args, paths) && LevelTracked(args)
    {
      var nodes := MakeNodes(args);
      commandLine := nodes;
      InitLink(paths);
      AllFresh(nodes);
    }

    method InitLink(paths: Paths)
      requires Distinct(commandLine) && commandLine != [] && sourcePath == null && optimizationLevel == null
      modifies this`commandLine, this`output, this`at, this`optimizationLevel, commandLine
      ensures LinkInitialised(old(Texts(commandLine)), paths) && LevelTracked(old(Texts(commandLine)))
      ensures forall n :: n in commandLine ==> fresh(n) || n in old(commandLine)
    {
      ghost var args := Texts(commandLine);
      InitOptimizationLevel();
      InitLinkOutput(paths, args);
    }

    /** What the constructor of a link command leaves. */
    ghost predicate LinkInitialised(args: seq<string>, paths: Paths)
      reads this, commandLine
      requires args != []
    {
      && Texts(commandLine) == LinkTexts(args, paths)
      && (Valid() <==> Trackable(args, paths))
      && (output == null <==> IsArchiveShape(args, paths) && FirstWhere(args, paths.isStaticLibrary) == |args|)
      && at == LinkIndex(args, paths)
      && (output != null ==> Distinct(commandLine) && at < |commandLine| && output == commandLine[at])
    }

    method InitLinkOutput(paths: Paths, ghost args: seq<string>)
      requires Ready() && Texts(commandLine) == args && LevelFound(commandLine, optimizationLevel, args)
      modifies this`commandLine, this`output, this`at, commandLine
      ensures LinkInitialised(args, paths) && LevelTracked(args)
      ensures forall n :: n in commandLine ==> fresh(n) || n in old(commandLine)
    {
      MakeLinkOutput(paths);
      LevelStaysTracked(old(commandLine), args);
    }

    method MakeLinkOutput(paths: Paths)
      requires Ready()
      modifies this`commandLine, this`output, this`at, commandLine
      ensures LinkInitialised(old(Texts(commandLine)), paths) && KeepsNodes(old(commandLine))
      ensures forall n :: n in commandLine ==> fresh(n) || n in old(commandLine)
    {
      var d := Find(commandLine, IsDashO);
      if d + 1 < |commandLine| {
        UseOutput(d, paths.fullPath(commandLine[d + 1].text));
      } else if paths.isArchiver(commandLine[0].text) {
        AddArchiveOutput(paths);
      } else {
        AddOutput(paths.defaultOutput);
      }
    }

    /** Inserts `-o` before the first static library; without one, the output is the end of the list. */
    method AddArchiveOutput(paths: Paths)
      requires Ready()
      modifies this`commandLine, this`output, this`at
      ensures var args := old(Texts(commandLine)); var a := FirstWhere(args, paths.isStaticLibrary);
        && Texts(commandLine) == args[..a] + [DASH_O] + args[a..]
        && (Valid() <==> 0 < a < |args|)
        && (output == null <==> a == |args|)
        && at == a + 1 && (output != null ==> Distinct(commandLine) && at < |commandLine| && output == commandLine[at])
      ensures KeepsNodes(old(commandLine))
      ensures forall n :: n in commandLine ==> fresh(n) || n in old(commandLine)
    {
      var a := Find(commandLine, paths.isStaticLibrary);
      InsertDashO(a);
      UseNext(a);
    }

    /** The output is the element behind the `-o` at `p`, or the end of the list. */
    method UseNext(p: nat)
      requires Ready() && p < |commandLine| && commandLine[p].text == DASH_O
      modifies this`output, this`at
      ensures at == p + 1 && (output == null <==> at == |commandLine|) && (Valid() <==> 0 < p && at < |commandLine|)
      ensures output != null ==> at < |commandLine| && output == commandLine[at]
    {
      at := p + 1;
      output := if p + 1 < |commandLine| then commandLine[p + 1] else null;
    }

    method InsertDashO(p: nat)
      requires Ready() && p <= |commandLine|
      modifies this`commandLine, this`at
      ensures Ready() && |commandLine| == |old(commandLine)| + 1 && commandLine[p].text == DASH_O
      ensures forall i :: 0 <= i < |old(commandLine)| ==> commandLine[NewIndex(i, 1, p + 1)] == old(commandLine)[i]
      ensures Texts(commandLine) == old(Texts(commandLine))[..p] + [DASH_O] + old(Texts(commandLine))[p..]
      ensures forall n :: n in commandLine ==> fresh(n) || n in old(commandLine)
    {
      ghost var l := commandLine;
      var more := InsertTexts(p, [DASH_O]);
      InsertKeeps(l, p, more);
      InsertedIndex(l, p, more, 0);
    }

    /** The output is the element at `at`, behind a `-o`. */
    ghost predicate OutputTracked()
      reads this, commandLine
    {
      Distinct(commandLine) && 2 <= at < |commandLine| && output == commandLine[at] && commandLine[at - 1].text == DASH_O
    }

    // ---- changes that keep what is tracked

    twostate lemma ValidAfterInsert(p: nat, new more: seq<Node>)
      requires old(Valid()) && 0 < p <= |old(commandLine)| && p != old(at)
      requires Distinct(more) && forall n :: n in more ==> n !in old(commandLine)
      requires commandLine == InsertAt(old(commandLine), p, more)
      requires at == if p < old(at) then old(at) + |more| else old(at)
      requires output == old(output) && sourcePath == old(sourcePath) && optimizationLevel == old(optimizationLevel)
      requires forall n :: n in old(commandLine) ==> n.text == old(n.text)
      ensures Valid()
    {
      ShapeInsert(old(commandLine), old(at), output, sourcePath, optimizationLevel, p, more);
    }

    method AddFlagsToBegin(flags: seq<string>)
      requires Valid()
      modifies this`commandLine, this`at
      ensures Valid() && at == old(at) + |flags|
      ensures Texts(commandLine) == old(Texts(commandLine))[..1] + flags + old(Texts(commandLine))[1..]
      ensures |flags| == 1 ==> fresh(commandLine[1])
    {
      var more := InsertTexts(1, flags);
      ValidAfterInsert(1, more);
    }

    method AddFlagToEnd(flag: string)
      requires Valid()
      modifies this`commandLine, this`at
      ensures Valid() && at == old(at)
      ensures Texts(commandLine) == old(Texts(commandLine)) + [flag]
    {
      var more := InsertTexts(|commandLine|, [flag]);
      ValidAfterInsert(|old(commandLine)|, more);
    }

    /** Changes the element the output is and no other; in a valid command that is the one behind `-o`. */
    method SetOutput(text: string)
      requires output != null
      modifies output
      ensures output.text == text && (old(Valid()) ==> Valid())
      ensures Distinct(commandLine) && at < |commandLine| && output == commandLine[at] ==>
        Texts(commandLine) == old(Texts(commandLine))[at := text]
    {
      output.text := text;
    }

    method SetSourcePath(text: string) returns (ghost s: nat)
      requires Valid() && sourcePath != null
      modifies sourcePath
      ensures Valid() && s < |commandLine| && commandLine[s] == sourcePath
      ensures Texts(commandLine) == old(Texts(commandLine))[s := text]
    {
      s :| 0 <= s < |commandLine| && commandLine[s] == sourcePath;
      sourcePath.text := text;
    }

    /** Overwrites the level at `o`, or adds it behind the tool. */
    method SetOptimizationLevel(flag: string) returns (ghost o: nat)
      requires Valid()
      modifies this`commandLine, this`at, this`optimizationLevel, optimizationLevel
      ensures Valid() && o < |commandLine| && optimizationLevel == commandLine[o]
      ensures old(optimizationLevel) != null ==>
        commandLine == old(commandLine) && at == old(at) && Texts(commandLine) == old(Texts(commandLine))[o := flag]
      ensures old(optimizationLevel) != null ==> optimizationLevel == old(optimizationLevel)
      ensures old(optimizationLevel) == null ==>
        && o == 1 && at == old(at) + 1
        && Texts(commandLine) == old(Texts(commandLine))[..1] + [flag] + old(Texts(commandLine))[1..]
    {
      if optimizationLevel != null {
        o :| 0 <= o < |commandLine| && commandLine[o] == optimizationLevel;
        OverwriteLevel(flag, o);
      } else {
        o := 1;
        AddLevel(flag);
      }
    }

    /** Sets the level of a command that still tracks that of its arguments. */
    method ChangeLevel(ghost args: seq<string>, flag: string)
      requires Valid() && LevelTracked(args)
      modifies this`commandLine, this`at, this`optimizationLevel, optimizationLevel
      ensures Valid() && LevelIs(args, old(Texts(commandLine)), old(at), flag, Texts(commandLine))
    {
      ghost var line, level := commandLine, optimizationLevel;
      var o := SetOptimizationLevel(flag);
      forall i | FirstLevel(args, i) ensures level != null && o == NewIndex(i, |line| - |args|, old(at)) {}
    }

    method AddLevel(flag: string)
      requires Valid()
      modifies this`commandLine, this`at, this`optimizationLevel
      ensures Valid() && optimizationLevel == commandLine[1] && at == old(at) + 1
      ensures Texts(commandLine) == old(Texts(commandLine))[..1] + [flag] + old(Texts(commandLine))[1..]
    {
      AddFlagsToBegin([flag]);
      optimizationLevel := commandLine[1];
    }

    method OverwriteLevel(flag: string, ghost o: nat)
      requires Valid() && o < |commandLine| && optimizationLevel == commandLine[o]
      modifies optimizationLevel
      ensures Valid() && Texts(commandLine) == old(Texts(commandLine))[o := flag]
    {
      optimizationLevel.text := flag;
    }

    method SetBuildTool(tool: string)
      requires Valid()
      modifies commandLine[0]
      ensures Valid()
      ensures Texts(commandLine) == old(Texts(commandLine))[0 := tool]
    {
      commandLine[0].text := tool;
    }

    // ---- copies

    /** `n` and `n'` are at the same place of their lists. */
    static ghost predicate SamePlace(l: seq<Node>, n: Node?, l': seq<Node>, n': Node?)
    {
      && (n == null <==> n' == null)
      && |l| == |l'| && forall i :: 0 <= i < |l| ==> (l[i] == n <==> l'[i] == n')
    }

    ghost predicate Mirrors(l: seq<Node>, out: Node?, source: Node?, level: Node?, texts: seq<string>)
      reads this, commandLine
    {
      && Texts(commandLine) == texts
      && SamePlace(l, out, commandLine, output)
      && SamePlace(l, source, commandLine, sourcePath)
      && SamePlace(l, level, commandLine, optimizationLevel)
    }

    static method CopyNodes(l: seq<Node>) returns (r: seq<Node>)
      ensures fresh(r) && Distinct(r) && Texts(r) == Texts(l)
    {
      r := [];
      for i := 0 to |l|
        invariant fresh(r) && Distinct(r) && |r| == i && forall k :: 0 <= k < i ==> r[k].text == l[k].text
      {
        var n := new Node(l[i].text);
        r := r + [n];
      }
    }

    static method Corresponding(l: seq<Node>, n: Node?, l': seq<Node>) returns (n': Node?)
      requires Distinct(l) && Distinct(l') && |l| == |l'| && (n == null || n in l)
      ensures SamePlace(l, n, l', n') && (n' == null || n' in l')
    {
      if n == null {
        return null;
      }
      var i := 0;
      while l[i] != n
        invariant i < |l| && n !in l[..i]
        decreases |l| - i
      {
        i := i + 1;
      }
      n' := l'[i];
    }

    /** What is tracked is null or in the list. */
    ghost predicate Closed()
      reads this
    {
      && Distinct(commandLine) && (output == null || output in commandLine)
      && (sourcePath == null || sourcePath in commandLine) && (optimizationLevel == null || optimizationLevel in commandLine)
    }

    /** A copy has elements of its own, and tracks the same places. */
    constructor CopyOf(other: Command)
      requires other.Closed()
      ensures Closed() && fresh(commandLine) && shouldChangeDirectory == other.shouldChangeDirectory && at == other.at
      ensures Mirrors(other.commandLine, other.output, other.sourcePath, other.optimizationLevel, Texts(other.commandLine))
    {
      var l := CopyNodes(other.commandLine);
      var out := Corresponding(other.commandLine, other.output, l);
      var source := Corresponding(other.commandLine, other.sourcePath, l);
      var level := Corresponding(other.commandLine, other.optimizationLevel, l);
      shouldChangeDirectory, at := other.shouldChangeDirectory, other.at;
      commandLine, output, sourcePath, optimizationLevel := l, out, source, level;
    }

    /** Exchanges everything but `shouldChangeDirectory`. */
    static method Swap(a: Command, b: Command)
      modifies a, b
      ensures a.commandLine == old(b.commandLine) && b.commandLine == old(a.commandLine)
      ensures a.output == old(b.output) && b.output == old(a.output)
      ensures a.sourcePath == old(b.sourcePath) && b.sourcePath == old(a.sourcePath)
      ensures a.optimizationLevel == old(b.optimizationLevel) && b.optimizationLevel == old(a.optimizationLevel)
      ensures a.at == old(b.at) && b.at == old(a.at)
      ensures a.shouldChangeDirectory == old(a.shouldChangeDirectory)
      ensures b.shouldChangeDirectory == old(b.shouldChangeDirectory)
    {
      var line, out, source, level := a.commandLine, a.output, a.sourcePath, a.optimizationLevel;
      ghost var place := a.at;
      a.commandLine, a.output, a.sourcePath, a.optimizationLevel := b.commandLine, b.output, b.sourcePath, b.optimizationLevel;
      a.at := b.at;
      b.commandLine, b.output, b.sourcePath, b.optimizationLevel := line, out, source, level;
      b.at := place;
    }

    /** Copy and swap: all of `other` but `shouldChangeDirectory`, in elements of its own. */
    method Assign(other: Command)
      requires other.Closed()
      modifies this
      ensures this == other ==> unchanged(this)
      ensures this != other ==> Closed() && fresh(commandLine) && at == other.at
      ensures Mirrors(other.commandLine, other.output, other.sourcePath, other.optimizationLevel, Texts(other.commandLine))
      ensures shouldChangeDirectory == old(shouldChangeDirectory)
    {
      if this != other {
        var tmp := new Command.CopyOf(other);
        Swap(this, tmp);
      }
    }

    // ---- erasing

    /** What `EraseIf` must not find: the tool, what is tracked, and `-o`. */
    ghost predicate Spared(p: string -> bool)
      reads this, commandLine, output, sourcePath, optimizationLevel
    {
      && commandLine != [] && !p(commandLine[0].text) && !p(DASH_O) && (output != null ==> !p(output.text))
      && (sourcePath != null ==> !p(sourcePath.text)) && (optimizationLevel != null ==> !p(optimizationLevel.text))
    }

    /** Unlinks the elements that meet `p`; the others stay the elements they are. */
    method EraseIf(p: string -> bool) returns (erased: nat)
      requires Valid() && Spared(p)
      modifies this`commandLine, this`at
      ensures Valid()
      ensures Texts(commandLine) == Without(old(Texts(commandLine)), p)
      ensures erased == |old(commandLine)| - |commandLine|
    {
      var kept;
      ghost var place;
      kept, place := Unlinked(p);
      erased := |commandLine| - |kept|;
      Relink(kept, place);
    }

    method Relink(kept: seq<Node>, ghost place: nat)
      requires Shape(kept, place, output, sourcePath, optimizationLevel) && kept[place - 1].text == DASH_O
      modifies this`commandLine, this`at
      ensures Valid() && commandLine == kept && Texts(commandLine) == old(Texts(kept))
    {
      commandLine, at := kept, place;
    }

    method Unlinked(p: string -> bool) returns (kept: seq<Node>, ghost place: nat)
      requires Valid() && Spared(p)
      ensures Shape(kept, place, output, sourcePath, optimizationLevel) && kept[place - 1].text == DASH_O
      ensures Texts(kept) == Without(Texts(commandLine), p) && |kept| <= |commandLine|
    {
      kept := Keep(commandLine, p);
      ghost var drop := Mask(commandLine, p);
      place := SiftShape(commandLine, at, output, sourcePath, optimizationLevel, drop);
      SiftTexts(commandLine, p);
      SiftLength(commandLine, drop);
    }

    static method Keep(l: seq<Node>, p: string -> bool) returns (kept: seq<Node>)
      ensures kept == Sift(l, Mask(l, p))
    {
      ghost var drop := Mask(l, p);
      kept := [];
      for i := 0 to |l|
        invariant kept == Sift(l[..i], drop[..i])
      {
        assert l[..i + 1][..i] == l[..i] && drop[..i + 1][..i] == drop[..i];
        if !p(l[i].text) {
          kept := kept + [l[i]];
        }
      }
      assert l[..|l|] == l && drop[..|l|] == drop;
    }

    /**
     Erases by value: the texts move forward through the elements, and the last elements are unlinked. The output is
     still tracked, with its text, exactly when the argument did not occur before it.
     */
    method Erase(arg: string)
      requires Distinct(commandLine)
      modifies this`commandLine, commandLine
      ensures var kept := Without(old(Texts(commandLine)), (a: string) => a == arg);
        Texts(commandLine) == kept && |kept| <= |old(commandLine)| && commandLine == old(commandLine)[..|kept|]
      ensures old(Valid() && OutputAt(Texts(commandLine), at) && arg != DASH_O && arg != output.text) ==>
        (OutputTracked() && output.text == old(output.text) <==> arg !in old(Texts(commandLine))[..at])
    {
      ghost var texts := Texts(commandLine);
      var w := Remove(commandLine, arg);
      commandLine := commandLine[..w];
      if old(Valid() && OutputAt(Texts(commandLine), at) && arg != DASH_O && arg != output.text) {
        TrackedIff(old(commandLine), texts, arg);
      }
    }

    lemma TrackedIff(line: seq<Node>, texts: seq<string>, arg: string)
      requires OutputAt(texts, at) && arg != DASH_O && arg != texts[at]
      requires |line| == |texts| && Distinct(line) && output == line[at]
      requires var kept := Without(texts, (a: string) => a == arg);
        Texts(commandLine) == kept && |kept| <= |line| && commandLine == line[..|kept|]
      ensures OutputTracked() && output.text == texts[at] <==> arg !in texts[..at]
    {
      OutputStaysIff(texts, at, arg);
      if at < |commandLine| {
        assert Texts(commandLine)[at] == output.text && Texts(commandLine)[at - 1] == commandLine[at - 1].text;
      }
    }

    /** An argument before `-o` is erased and the output set: the text that is overwritten is the one behind the output. */
    static method ErasedBeforeOutput(tool: string, arg: string, out: string, next: string, text: string, paths: Paths)
      returns (c: Command)
      requires tool != DASH_O && arg !in {tool, DASH_O, paths.fullPath(out), next}
      ensures fresh(c) && Texts(c.commandLine) == [tool, DASH_O, paths.fullPath(out), text]
    {
      var args := [tool, arg, DASH_O, out, next];
      c := new Command.Link(args, paths, false);
      OutputThird(tool, arg, out, next, paths);
      c.Erase(arg);
      c.SetOutput(text);
    }

    static method Move(l: seq<Node>, w: nat, r: nat)
      requires Distinct(l) && w <= r < |l|
      modifies l[w]
      ensures l[w].text == old(l[r].text) && forall k :: 0 <= k < |l| && k != w ==> l[k].text == old(l[k].text)
    {
      l[w].text := l[r].text;
    }

    /** `std::remove`. */
    static method Remove(l: seq<Node>, arg: string) returns (w: nat)
      requires Distinct(l)
      modifies l
      ensures var kept := Without(old(Texts(l)), (a: string) => a == arg);
        w == |kept| <= |l| && forall k :: 0 <= k < w ==> l[k].text == kept[k]
    {
      ghost var texts := Texts(l);
      ghost var p := (a: string) => a == arg;
      ghost var kept: seq<string> := [];
      w := 0;
      for r := 0 to |l|
        invariant w == |kept| <= r && kept == Without(texts[..r], p)
        invariant forall k :: 0 <= k < w ==> l[k].text == kept[k]
        invariant forall k :: r <= k < |l| ==> l[k].text == texts[k]
      {
        WithoutNext(texts, r, p);
        if l[r].text != arg {
          Move(l, w, r);
          w := w + 1;
        }
        kept := Without(texts[..r + 1], p);
      }
      assert texts[..|l|] == texts;
    }
  }
}
