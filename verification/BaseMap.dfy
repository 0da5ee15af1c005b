/** The map of the four base paths, in whatever order they sort. */
module BaseMap {
  import opened PrinterSetup
  import opened Text
  import opened VariableMap

  /** The keys come one after another, and the root is none of them. */
  ghost predicate Chain(root: string, a: Entry, b: Entry, c: Entry)
  {
    root !in {a.key, b.key, c.key} && Less(b.key, a.key) && Less(c.key, b.key)
  }

  lemma ChainOrders(root: string, a: Entry, b: Entry, c: Entry)
    requires Chain(root, a, b, c)
    ensures Before(root, a.key, b.key) && Before(root, b.key, c.key) && Before(root, a.key, c.key)
    ensures !Before(root, b.key, a.key) && !Before(root, c.key, b.key) && !Before(root, c.key, a.key)
  {
    LessIsStrictTotal(c.key, b.key, a.key);
    LessIsStrictTotal(a.key, b.key, a.key);
    LessIsStrictTotal(b.key, c.key, b.key);
    LessIsStrictTotal(a.key, c.key, a.key);
  }

  function First(e: Entry): Tree { Paint(Single(e), Black) }

  function Three(a: Entry, b: Entry, c: Entry): Tree { Node(Black, Single(a), b, Single(c)) }

  lemma AddToOne(root: string, a: Entry, b: Entry)
    requires Before(root, a.key, b.key) && !Before(root, b.key, a.key)
    ensures Add(root, First(a), b) == Inserted(Node(Black, Leaf, a, Single(b)))
    ensures Add(root, First(b), a) == Inserted(Node(Black, Single(a), b, Leaf))
  {
    assert AddDown(root, First(b), a) == Node(Black, Single(a), b, Leaf);
  }

  /** A third entry behind two, or before them. */
  lemma AddBehind(root: string, a: Entry, b: Entry, c: Entry)
    requires Chain(root, a, b, c)
    ensures Add(root, Node(Black, Leaf, a, Single(b)), c) == Inserted(Three(a, b, c))
    ensures Add(root, Node(Black, Single(a), b, Leaf), c) == Inserted(Three(a, b, c))
  {
    ChainOrders(root, a, b, c);
    var t := Node(Black, Leaf, a, Single(b));
    assert Last(t.right) == b && AddLast(root, t.right, c) == Inserted(Node(Red, Leaf, b, Single(c)));
    assert Last(t) == b && AddLast(root, t, c) == Inserted(Three(a, b, c));
  }

  lemma AddAhead(root: string, a: Entry, b: Entry, c: Entry)
    requires Chain(root, a, b, c)
    ensures Add(root, Node(Black, Leaf, b, Single(c)), a) == Inserted(Three(a, b, c))
    ensures Add(root, Node(Black, Single(b), c, Leaf), a) == Inserted(Three(a, b, c))
  {
    ChainOrders(root, a, b, c);
    var t, u := Node(Black, Leaf, b, Single(c)), Node(Black, Single(b), c, Leaf);
    assert Last(t.right) == c && Last(t) == c && Down(root, t, a.key) == 0;
    assert AddDown(root, t, a) == Three(a, b, c);
    assert Down(root, u.left, a.key) == 0 && AddDown(root, u.left, a) == Node(Red, Single(a), b, Leaf);
    assert Last(u) == c && Down(root, u, a.key) == 0 && AddDown(root, u, a) == Three(a, b, c);
  }

  lemma AddBetween(root: string, a: Entry, b: Entry, c: Entry)
    requires Chain(root, a, b, c)
    ensures Add(root, Node(Black, Leaf, a, Single(c)), b) == Inserted(Three(a, b, c))
    ensures Add(root, Node(Black, Single(a), c, Leaf), b) == Inserted(Three(a, b, c))
  {
    ChainOrders(root, a, b, c);
    var t, u := Node(Black, Leaf, a, Single(c)), Node(Black, Single(a), c, Leaf);
    assert InOrder(t) == [a, c] && InOrder(u) == [a, c];
    assert Last(t.right) == c && Last(t) == c && Last(u) == c;
    assert Down(root, t.right, b.key) == 0 && AddDown(root, t.right, b) == Node(Red, Single(b), c, Leaf);
    assert Down(root, t, b.key) == 1 && AddDown(root, t, b) == Three(a, b, c);
    assert Down(root, u.left, b.key) == 1 && AddDown(root, u.left, b) == Node(Red, Leaf, a, Single(b));
    assert Down(root, u, b.key) == 1 && AddDown(root, u, b) == Three(a, b, c);
  }

  /** The entries `x`, `y` and `z` are `a`, `b` and `c` in some order. */
  predicate Permuted(x: Entry, y: Entry, z: Entry, a: Entry, b: Entry, c: Entry)
  {
    [x, y, z] in [[a, b, c], [a, c, b], [b, a, c], [b, c, a], [c, a, b], [c, b, a]]
  }

  /** Three entries inserted in any order. */
  lemma ThreeBases(root: string, x: Entry, y: Entry, z: Entry, a: Entry, b: Entry, c: Entry)
    requires Chain(root, a, b, c) && Permuted(x, y, z, a, b, c)
    ensures AddAll(root, Leaf, [x, y, z]) == Inserted(Three(a, b, c))
  {
    ChainOrders(root, a, b, c);
    AddToOne(root, a, b);
    AddToOne(root, b, c);
    AddToOne(root, a, c);
    AddBehind(root, a, b, c);
    AddAhead(root, a, b, c);
    AddBetween(root, a, b, c);
    AddThree(root, x, y, z);
  }

  lemma AddThree(root: string, x: Entry, y: Entry, z: Entry)
    requires Add(root, First(x), y).Inserted?
    ensures AddAll(root, Leaf, [x, y, z]) == Add(root, Add(root, First(x), y).tree, z)
  {
    AddAllStep(root, Leaf, First(x), [x, y, z]);
    AddAllStep(root, First(x), Add(root, First(x), y).tree, [y, z]);
  }

  lemma AddAllStep(root: string, t: Tree, after: Tree, entries: seq<Entry>)
    requires entries != [] && Add(root, t, entries[0]) == Inserted(after)
    ensures AddAll(root, t, entries) == AddAll(root, after, entries[1..])
  {
  }

  // ---- the relative build directory, which sorts ahead of the other paths or behind them

  function BaseTree(a: Entry, b: Entry, c: Entry, relative: Entry): Tree
  {
    Node(Black, Node(Black, Single(relative), a, Leaf), b, First(c))
  }

  function TailedBaseTree(a: Entry, b: Entry, c: Entry, relative: Entry): Tree
  {
    Node(Black, First(a), b, Node(Black, Leaf, c, Single(relative)))
  }

  lemma AddFourth(root: string, a: Entry, b: Entry, c: Entry, relative: Entry)
    requires Chain(root, a, b, c) && relative.key != root
    ensures Less(a.key, relative.key) ==> Add(root, Three(a, b, c), relative) == Inserted(BaseTree(a, b, c, relative))
    ensures Less(relative.key, c.key) ==> Add(root, Three(a, b, c), relative) == Inserted(TailedBaseTree(a, b, c, relative))
  {
    var t := Three(a, b, c);
    assert Last(t.right) == c && Last(t) == c;
    if Less(a.key, relative.key) {
      LessIsStrictTotal(c.key, b.key, a.key);
      LessIsStrictTotal(b.key, a.key, relative.key);
      LessIsStrictTotal(c.key, a.key, relative.key);
      LessIsStrictTotal(c.key, relative.key, c.key);
      assert Down(root, t.left, relative.key) == 0 && Down(root, t, relative.key) == 0;
      assert AddDown(root, t.left, relative) == Node(Red, Single(relative), a, Leaf);
      assert AddDown(root, t, relative) == Paint(BaseTree(a, b, c, relative), Red);
    } else if Less(relative.key, c.key) {
      LessIsStrictTotal(relative.key, c.key, relative.key);
      assert AddLast(root, t.right, relative) == Inserted(Node(Red, Leaf, c, Single(relative)));
      assert AddLast(root, t, relative) == Inserted(Paint(TailedBaseTree(a, b, c, relative), Red));
    }
  }

  lemma FourBases(root: string, x: Entry, y: Entry, z: Entry, a: Entry, b: Entry, c: Entry, relative: Entry)
    requires Chain(root, a, b, c) && Permuted(x, y, z, a, b, c) && relative.key != root
    ensures Less(a.key, relative.key) ==>
      AddAll(root, Leaf, [x, y, z, relative]) == Inserted(BaseTree(a, b, c, relative))
    ensures Less(relative.key, c.key) ==>
      AddAll(root, Leaf, [x, y, z, relative]) == Inserted(TailedBaseTree(a, b, c, relative))
  {
    ThreeBases(root, x, y, z, a, b, c);
    AddFourth(root, a, b, c, relative);
    AddAllThen(root, Leaf, [x, y, z], relative);
    assert [x, y, z] + [relative] == [x, y, z, relative];
  }

  lemma {:induction false} AddAllThen(root: string, t: Tree, entries: seq<Entry>, e: Entry)
    requires AddAll(root, t, entries).Inserted?
    ensures AddAll(root, t, entries + [e]) == Add(root, AddAll(root, t, entries).tree, e)
    decreases |entries|
  {
    if |entries| == 0 {
      assert entries + [e] == [e];
      assert AddAll(root, t, [e]) == Add(root, t, e);
    } else {
      assert (entries + [e])[1..] == entries[1..] + [e];
      AddAllThen(root, Add(root, t, entries[0]).tree, entries[1..], e);
    }
  }

  lemma Ordered(root: string, x: Entry, y: Entry, z: Entry) returns (a: Entry, b: Entry, c: Entry)
    requires root !in {x.key, y.key, z.key} && x.key != y.key && y.key != z.key && x.key != z.key
    ensures Chain(root, a, b, c) && Permuted(x, y, z, a, b, c)
  {
    LessIsStrictTotal(x.key, y.key, z.key);
    LessIsStrictTotal(y.key, z.key, x.key);
    LessIsStrictTotal(z.key, x.key, y.key);
    a, b, c := x, y, z;
    if Less(a.key, b.key) { a, b := b, a; }
    if Less(b.key, c.key) { b, c := c, b; }
    if Less(a.key, b.key) { a, b := b, a; }
    LessIsStrictTotal(a.key, b.key, c.key);
    LessIsStrictTotal(c.key, b.key, a.key);
  }

  // ---- a new printer

  predicate Absolute(path: string) { path != [] && path[0] == '/' }

  /** Three different absolute base paths leave a map that the declaration of the root does not break. */
  lemma RootBreaksNothing(root: string, build: string, tests: string, project: string, relative: string)
    requires Absolute(build) && Absolute(tests) && Absolute(project) && !Absolute(relative)
    requires build != tests && tests != project && build != project && root !in {build, tests, project, relative}
    ensures !Breaks(root, BaseContents(root, build, tests, project, relative).tree, root)
  {
    var x, y, z, r := Entry(build, "BUILD_DIR"), Entry(tests, "TESTS_DIR"), Entry(project, "PROJECT_DIR"),
                      Entry(relative, "BUILD_RELATIVE");
    var a, b, c := Ordered(root, x, y, z);
    FourBases(root, x, y, z, a, b, c, r);
    assert Absolute(a.key) && Absolute(c.key);
    assert Less(a.key, relative) || Less(relative, c.key);
    assert BaseEntries(build, tests, project, relative) == [x, y, z, r];
    LastTurns(root, a, b, c, r);
  }

  lemma LastTurns(root: string, a: Entry, b: Entry, c: Entry, relative: Entry)
    ensures !Breaks(root, BaseTree(a, b, c, relative), root) && !Breaks(root, TailedBaseTree(a, b, c, relative), root)
  {
    var t, u := BaseTree(a, b, c, relative), TailedBaseTree(a, b, c, relative);
    assert Turns(root, t, root) <==> Turns(root, t.right, root);
    assert Turns(root, u, root) <==> Turns(root, u.right.right, root);
    if Turns(root, t, root) { assert TurnNode(root, t, root) == t.right; }
    if Turns(root, u, root) {
      assert TurnNode(root, u.right, root) == TurnNode(root, u.right.right, root) == u.right.right;
    }
  }

  /** A printer for three different absolute paths, installed above its root, has a map that is whole and sorted. */
  lemma NewPrinterIsWhole(env: Environment, canonical: string -> string, build: string, tests: string, project: string,
                          relative: string)
    requires Absolute(build) && Absolute(tests) && Absolute(project) && !Absolute(relative)
    requires build != tests && tests != project && build != project && env.root !in {build, tests, project, relative}
    requires canonical(env.root) == env.root && ToolsAbove(canonical, env)
    ensures var c := Setup(env, canonical, build, tests, project, relative); c.intact && Sorted(env.root, InOrder(c.tree))
  {
    RootBreaksNothing(env.root, build, tests, project, relative);
    NewPrinterIsSorted(env, canonical, build, tests, project, relative);
  }
}
