/** The printer's map from paths to shell variables: a red-black tree ordered by a comparison that is no order. */
module VariableMap {
  import opened Text

  /** A key of the map and the name of its variable. */
  datatype Entry = Entry(key: string, variable: string)

  datatype Color = Red | Black

  datatype Tree = Leaf | Node(color: Color, left: Tree, entry: Entry, right: Tree)

  datatype Insertion = Broken | Inserted(tree: Tree)

  /** The comparator: descending, with everything before the root. */
  predicate Before(root: string, l: string, r: string) { r == root || Less(r, l) }

  /** The entries in the order of iteration. */
  function InOrder(t: Tree): seq<Entry>
  {
    match t
    case Leaf => []
    case Node(_, left, entry, right) => InOrder(left) + [entry] + InOrder(right)
  }

  // ---- rebalancing

  predicate IsRed(t: Tree) { t.Node? && t.color == Red }

  predicate RedOverRed(t: Tree) { IsRed(t) && (IsRed(t.left) || IsRed(t.right)) }

  function Paint(t: Tree, color: Color): Tree { if t.Leaf? then t else t.(color := color) }

  function RotateRight(t: Tree): Tree
    requires t.Node? && RedOverRed(t.left)
  {
    var l := t.left;
    if IsRed(l.left) then Node(Black, l.left, l.entry, Node(Red, l.right, t.entry, t.right))
    else
      var m := l.right;
      Node(Black, Node(Red, l.left, l.entry, m.left), m.entry, Node(Red, m.right, t.entry, t.right))
  }

  function RotateLeft(t: Tree): Tree
    requires t.Node? && RedOverRed(t.right)
  {
    var r := t.right;
    if IsRed(r.right) then Node(Black, Node(Red, t.left, t.entry, r.left), r.entry, r.right)
    else
      var m := r.left;
      Node(Black, Node(Red, t.left, t.entry, m.left), m.entry, Node(Red, m.right, r.entry, r.right))
  }

  /** Below a black node: a red child with a red child is recoloured if its sibling is red too, and rotated otherwise. */
  function Fix(t: Tree): Tree
  {
    if t.Leaf? || t.color == Red || !(RedOverRed(t.left) || RedOverRed(t.right)) then t
    else if IsRed(t.left) && IsRed(t.right) then Node(Red, Paint(t.left, Black), t.entry, Paint(t.right, Black))
    else if RedOverRed(t.left) then RotateRight(t)
    else RotateLeft(t)
  }

  lemma FixKeepsOrder(t: Tree)
    ensures InOrder(Fix(t)) == InOrder(t)
  {
    if t.Node? && t.color == Black && !(IsRed(t.left) && IsRed(t.right)) {
      if RedOverRed(t.left) {
        RotateRightKeepsOrder(t);
      } else if RedOverRed(t.right) {
        RotateLeftKeepsOrder(t);
      }
    }
  }

  lemma RotateRightKeepsOrder(t: Tree)
    requires t.Node? && RedOverRed(t.left)
    ensures InOrder(RotateRight(t)) == InOrder(t)
  {
    var l := t.left;
    if IsRed(l.left) {
      assert InOrder(RotateRight(t)) == InOrder(l.left) + [l.entry] + (InOrder(l.right) + [t.entry] + InOrder(t.right));
    } else {
      var m := l.right;
      assert InOrder(RotateRight(t)) ==
        InOrder(l.left) + [l.entry] + InOrder(m.left) + [m.entry] + (InOrder(m.right) + [t.entry] + InOrder(t.right));
      assert InOrder(l) == InOrder(l.left) + [l.entry] + (InOrder(m.left) + [m.entry] + InOrder(m.right));
    }
  }

  lemma RotateLeftKeepsOrder(t: Tree)
    requires t.Node? && RedOverRed(t.right)
    ensures InOrder(RotateLeft(t)) == InOrder(t)
  {
    var r := t.right;
    if IsRed(r.right) {
      assert InOrder(RotateLeft(t)) == InOrder(t.left) + [t.entry] + InOrder(r.left) + [r.entry] + InOrder(r.right);
    } else {
      var m := r.left;
      assert InOrder(RotateLeft(t)) ==
        InOrder(t.left) + [t.entry] + InOrder(m.left) + [m.entry] + (InOrder(m.right) + [r.entry] + InOrder(r.right));
      assert InOrder(r) == InOrder(m.left) + [m.entry] + InOrder(m.right) + [r.entry] + InOrder(r.right);
    }
  }

  // ---- insertion

  function Single(e: Entry): Tree { Node(Red, Leaf, e, Leaf) }

  /** A new child of a node without a right child: on the left if the comparison says so, which breaks a left child off. */
  function Attach(root: string, t: Tree, e: Entry): Insertion
    requires t.Node? && t.right.Leaf?
  {
    if !Before(root, e.key, t.entry.key) then Inserted(Fix(t.(right := Single(e))))
    else if t.left.Leaf? then Inserted(Fix(t.(left := Single(e))))
    else Broken
  }

  function WithLeft(t: Tree, r: Insertion): Insertion
    requires t.Node?
  {
    if r.Broken? then Broken else Inserted(Fix(t.(left := r.tree)))
  }

  function WithRight(t: Tree, r: Insertion): Insertion
    requires t.Node?
  {
    if r.Broken? then Broken else Inserted(Fix(t.(right := r.tree)))
  }

  /** Insertion by subscript: where the search for the first key not before the new one ends. */
  function Insert(root: string, t: Tree, e: Entry): Insertion
  {
    if t.Leaf? then Inserted(Single(e))
    else if !Before(root, t.entry.key, e.key) then WithLeft(t, Insert(root, t.left, e))
    else if t.right.Leaf? then Attach(root, t, e)
    else WithRight(t, Insert(root, t.right, e))
  }

  /** The number of entries the search passes on the right. */
  function Bound(root: string, t: Tree, x: string): (p: nat)
    ensures p <= |InOrder(t)|
  {
    if t.Leaf? then 0
    else if Before(root, t.entry.key, x) then |InOrder(t.left)| + 1 + Bound(root, t.right, x)
    else Bound(root, t.left, x)
  }

  /** The search ends behind a node that the new key is before as well. */
  predicate Turns(root: string, t: Tree, x: string)
    ensures Turns(root, t, x) ==> Bound(root, t, x) > 0
  {
    && t.Node?
    && if !Before(root, t.entry.key, x) then Turns(root, t.left, x)
       else if t.right.Leaf? then Before(root, x, t.entry.key)
       else Turns(root, t.right, x)
  }

  /** The position in the order at which a key is inserted. */
  function Place(root: string, t: Tree, x: string): (p: nat)
    ensures p <= |InOrder(t)|
  {
    Bound(root, t, x) - if Turns(root, t, x) then 1 else 0
  }

  function InsertAt(entries: seq<Entry>, p: nat, e: Entry): seq<Entry>
    requires p <= |entries|
  {
    entries[..p] + [e] + entries[p..]
  }

  /** `after` has the entries of `t` and, at position `p`, a new one. */
  predicate Grown(t: Tree, after: Tree, p: nat, e: Entry)
  {
    p <= |InOrder(t)| && InOrder(after) == InsertAt(InOrder(t), p, e)
  }

  lemma InsertInPart(l: seq<Entry>, m: Entry, r: seq<Entry>, p: nat, e: Entry)
    ensures p <= |l| ==> InsertAt(l + [m] + r, p, e) == InsertAt(l, p, e) + [m] + r
    ensures p <= |r| ==> InsertAt(l + [m] + r, |l| + 1 + p, e) == l + [m] + InsertAt(r, p, e)
  {
    if p <= |r| {
      assert (l + [m] + r)[..|l| + 1 + p] == l + [m] + r[..p];
      assert (l + [m] + r)[|l| + 1 + p..] == r[p..];
    }
  }

  lemma LeftGrown(t: Tree, l: Tree, p: nat, e: Entry)
    requires t.Node? && Grown(t.left, l, p, e)
    ensures Grown(t, Fix(t.(left := l)), p, e)
  {
    FixKeepsOrder(t.(left := l));
    InsertInPart(InOrder(t.left), t.entry, InOrder(t.right), p, e);
  }

  lemma RightGrown(t: Tree, r: Tree, p: nat, e: Entry, q: nat)
    requires t.Node? && Grown(t.right, r, p, e) && q == |InOrder(t.left)| + 1 + p
    ensures Grown(t, Fix(t.(right := r)), q, e)
  {
    FixKeepsOrder(t.(right := r));
    InsertInPart(InOrder(t.left), t.entry, InOrder(t.right), p, e);
  }

  lemma SingleGrown(t: Tree, e: Entry)
    requires t.Leaf?
    ensures Grown(t, Single(e), 0, e)
  {
    assert InOrder(Single(e)) == [e];
  }

  lemma AttachGrown(root: string, t: Tree, e: Entry)
    requires t.Node? && t.right.Leaf? && Attach(root, t, e).Inserted?
    ensures Grown(t, Attach(root, t, e).tree, |InOrder(t.left)| + if Before(root, e.key, t.entry.key) then 0 else 1, e)
  {
    if Before(root, e.key, t.entry.key) {
      SingleGrown(t.left, e);
      LeftGrown(t, Single(e), 0, e);
    } else {
      SingleGrown(t.right, e);
      RightGrown(t, Single(e), 0, e, |InOrder(t.left)| + 1);
    }
  }

  lemma {:induction false} InsertGrown(root: string, t: Tree, e: Entry)
    requires Insert(root, t, e).Inserted?
    ensures Grown(t, Insert(root, t, e).tree, Place(root, t, e.key), e)
  {
    if t.Leaf? {
      SingleGrown(t, e);
    } else if !Before(root, t.entry.key, e.key) {
      InsertGrown(root, t.left, e);
      LeftGrown(t, Insert(root, t.left, e).tree, Place(root, t, e.key), e);
    } else if t.right.Leaf? {
      AttachGrown(root, t, e);
    } else {
      InsertGrown(root, t.right, e);
      RightGrown(t, Insert(root, t.right, e).tree, Place(root, t.right, e.key), e, Place(root, t, e.key));
    }
  }

  /** Where a search ends, its neighbours have sent it. */
  predicate Gap(root: string, entries: seq<Entry>, x: string, p: nat)
  {
    && p <= |entries|
    && (p > 0 ==> Before(root, entries[p - 1].key, x))
    && (p < |entries| ==> !Before(root, entries[p].key, x))
  }

  lemma {:induction false} BoundIsGap(root: string, t: Tree, x: string)
    ensures Gap(root, InOrder(t), x, Bound(root, t, x))
  {
    if t.Leaf? {
    } else if Before(root, t.entry.key, x) {
      BoundIsGap(root, t.right, x);
    } else {
      BoundIsGap(root, t.left, x);
    }
  }

  lemma {:induction false} TurnsMeans(root: string, t: Tree, x: string)
    requires Turns(root, t, x)
    ensures Before(root, x, InOrder(t)[Bound(root, t, x) - 1].key)
  {
    if !Before(root, t.entry.key, x) {
      TurnsMeans(root, t.left, x);
    } else if t.right.Leaf? {
    } else {
      TurnsMeans(root, t.right, x);
    }
  }

  lemma {:induction false} BrokenTurns(root: string, t: Tree, e: Entry)
    requires Insert(root, t, e).Broken?
    ensures Turns(root, t, e.key)
  {
    if !Before(root, t.entry.key, e.key) {
      BrokenTurns(root, t.left, e);
    } else if t.right.Leaf? {
    } else {
      BrokenTurns(root, t.right, e);
    }
  }

  // ---- subscripts: pathToShellVariable[x] = variable

  /** The key the search ends before is the one looked for. */
  predicate Found(root: string, t: Tree, x: string)
  {
    Bound(root, t, x) < |InOrder(t)| && !Before(root, x, InOrder(t)[Bound(root, t, x)].key)
  }

  lemma FoundIsKey(root: string, t: Tree, x: string)
    requires Found(root, t, x)
    ensures InOrder(t)[Bound(root, t, x)].key == x != root
  {
    BoundIsGap(root, t, x);
    LessIsStrictTotal(x, InOrder(t)[Bound(root, t, x)].key, x);
  }

  function Rename(root: string, t: Tree, x: string, variable: string): Tree
  {
    if t.Leaf? then t
    else if Before(root, t.entry.key, x) then t.(right := Rename(root, t.right, x, variable))
    else if Bound(root, t.left, x) < |InOrder(t.left)| then t.(left := Rename(root, t.left, x, variable))
    else t.(entry := t.entry.(variable := variable))
  }

  lemma {:induction false} RenamePlaces(root: string, t: Tree, x: string, variable: string)
    requires Bound(root, t, x) < |InOrder(t)|
    ensures var p := Bound(root, t, x);
      InOrder(Rename(root, t, x, variable)) == InOrder(t)[p := InOrder(t)[p].(variable := variable)]
  {
    if Before(root, t.entry.key, x) {
      RenamePlaces(root, t.right, x, variable);
    } else if Bound(root, t.left, x) < |InOrder(t.left)| {
      RenamePlaces(root, t.left, x, variable);
    }
  }

  /** The map after the assignment; broken if it has broken off a part of the tree. */
  function Put(root: string, t: Tree, x: string, variable: string): Insertion
  {
    if Found(root, t, x) then Inserted(Rename(root, t, x, variable))
    else
      var r := Insert(root, t, Entry(x, variable));
      if r.Broken? then r else Inserted(Paint(r.tree, Black))
  }

  lemma PutPlaces(root: string, t: Tree, x: string, variable: string)
    requires Put(root, t, x, variable).Inserted?
    ensures var entries, r := InOrder(t), InOrder(Put(root, t, x, variable).tree);
      if Found(root, t, x) then r == entries[Bound(root, t, x) := Entry(x, variable)]
      else r == InsertAt(entries, Place(root, t, x), Entry(x, variable))
  {
    if Found(root, t, x) {
      FoundIsKey(root, t, x);
      RenamePlaces(root, t, x, variable);
    } else {
      InsertGrown(root, t, Entry(x, variable));
    }
  }

  // ---- insertion of a list of pairs

  function Last(t: Tree): Entry
    requires t.Node?
  {
    if t.right.Leaf? then t.entry else Last(t.right)
  }

  /** Behind the last entry, which the new one is not before. */
  function AddLast(root: string, t: Tree, e: Entry): Insertion
    requires t.Node?
  {
    if t.right.Leaf? then Attach(root, t, e) else WithRight(t, AddLast(root, t.right, e))
  }

  /** Where the search for the first key that the new one is before ends. */
  function AddDown(root: string, t: Tree, e: Entry): Tree
  {
    if t.Leaf? then Single(e)
    else if Before(root, e.key, t.entry.key) then Fix(t.(left := AddDown(root, t.left, e)))
    else Fix(t.(right := AddDown(root, t.right, e)))
  }

  function Down(root: string, t: Tree, x: string): (p: nat)
    ensures p <= |InOrder(t)|
  {
    if t.Leaf? then 0
    else if Before(root, x, t.entry.key) then Down(root, t.left, x)
    else |InOrder(t.left)| + 1 + Down(root, t.right, x)
  }

  /** `insert` with the end as its hint; a key that is there is kept. */
  function Add(root: string, t: Tree, e: Entry): Insertion
  {
    if t.Leaf? then Inserted(Paint(Single(e), Black))
    else if Before(root, Last(t).key, e.key) then
      var r := AddLast(root, t, e);
      if r.Broken? then r else Inserted(Paint(r.tree, Black))
    else
      var p := Down(root, t, e.key);
      if p > 0 && !Before(root, InOrder(t)[p - 1].key, e.key) then Inserted(t)
      else Inserted(Paint(AddDown(root, t, e), Black))
  }

  function AddAll(root: string, t: Tree, entries: seq<Entry>): Insertion
    decreases |entries|
  {
    if |entries| == 0 then Inserted(t)
    else
      var r := Add(root, t, entries[0]);
      if r.Broken? then r else AddAll(root, r.tree, entries[1..])
  }

  lemma {:induction false} LastIsLast(t: Tree)
    requires t.Node?
    ensures InOrder(t) != [] && InOrder(t)[|InOrder(t)| - 1] == Last(t)
  {
    if t.right.Node? { LastIsLast(t.right); }
  }

  /** Where the new last entry goes. */
  function End(root: string, t: Tree, x: string): nat
    requires t.Node?
  {
    LastIsLast(t);
    |InOrder(t)| - if Before(root, x, Last(t).key) then 1 else 0
  }

  lemma {:induction false} AddLastGrown(root: string, t: Tree, e: Entry)
    requires t.Node? && AddLast(root, t, e).Inserted?
    ensures Grown(t, AddLast(root, t, e).tree, End(root, t, e.key), e)
  {
    if t.right.Leaf? {
      AttachGrown(root, t, e);
    } else {
      AddLastGrown(root, t.right, e);
      RightGrown(t, AddLast(root, t.right, e).tree, End(root, t.right, e.key), e, End(root, t, e.key));
    }
  }

  lemma {:induction false} AddDownGrown(root: string, t: Tree, e: Entry)
    ensures Grown(t, AddDown(root, t, e), Down(root, t, e.key), e)
  {
    if t.Leaf? {
      SingleGrown(t, e);
    } else if Before(root, e.key, t.entry.key) {
      AddDownGrown(root, t.left, e);
      LeftGrown(t, AddDown(root, t.left, e), Down(root, t, e.key), e);
    } else {
      AddDownGrown(root, t.right, e);
      RightGrown(t, AddDown(root, t.right, e), Down(root, t.right, e.key), e, Down(root, t, e.key));
    }
  }

  lemma {:induction false} DownSplits(root: string, t: Tree, x: string)
    ensures var p := Down(root, t, x);
      && (p > 0 ==> !Before(root, x, InOrder(t)[p - 1].key))
      && (p < |InOrder(t)| ==> Before(root, x, InOrder(t)[p].key))
  {
    if t.Leaf? {
    } else if Before(root, x, t.entry.key) {
      DownSplits(root, t.left, x);
    } else {
      DownSplits(root, t.right, x);
    }
  }

  // ---- the order of the entries

  /** The comparator is no strict weak order once the root is a key, and no order at all with keys below the root. */
  lemma ComparatorIsNoOrder(root: string, k: string)
    ensures Before(root, root, root)
    ensures k != root ==> (Less(root, k) <==> !(Before(root, k, root) && Before(root, root, k)))
  {
    LessIsStrictTotal(root, k, root);
  }

  /** Without the root, it is a strict total order. */
  lemma ComparatorIsOrderWithoutRoot(root: string, a: string, b: string, c: string)
    requires root !in {a, b, c}
    ensures !Before(root, a, a)
    ensures Before(root, a, b) && Before(root, b, c) ==> Before(root, a, c)
    ensures a == b || Before(root, a, b) || Before(root, b, a)
  {
    LessIsStrictTotal(a, b, c);
    LessIsStrictTotal(c, b, a);
  }

  /** The keys other than the root are strictly descending. */
  ghost predicate Descending(root: string, entries: seq<Entry>)
  {
    forall i, j :: 0 <= i < j < |entries| && entries[i].key != root && entries[j].key != root ==>
      Less(entries[j].key, entries[i].key)
  }

  /** The keys behind the root are below it. */
  ghost predicate RootLate(root: string, entries: seq<Entry>)
  {
    forall i, j :: 0 <= i < j < |entries| && entries[i].key == root ==>
      entries[j].key != root && Less(entries[j].key, root)
  }

  ghost predicate Sorted(root: string, entries: seq<Entry>) { Descending(root, entries) && RootLate(root, entries) }

  ghost predicate HasKey(entries: seq<Entry>, x: string) { exists i :: 0 <= i < |entries| && entries[i].key == x }

  /** A key above the root, or any key that is not there while the root is none. */
  ghost predicate Safe(root: string, entries: seq<Entry>, x: string)
  {
    if x == root then !HasKey(entries, root) else !HasKey(entries, root) || Less(root, x)
  }

  /** A key goes to position `p` of sorted entries. */
  ghost predicate Splits(root: string, entries: seq<Entry>, p: nat, x: string)
  {
    && p <= |entries|
    && (forall i :: 0 <= i < p ==> entries[i].key != root && (x != root ==> Less(x, entries[i].key)))
    && (forall i :: p <= i < |entries| && entries[i].key != root ==> Less(entries[i].key, x))
    && (x == root ==> !HasKey(entries, root))
  }

  lemma InsertKeepsSorted(root: string, entries: seq<Entry>, p: nat, e: Entry)
    requires Sorted(root, entries) && Splits(root, entries, p, e.key)
    ensures Sorted(root, InsertAt(entries, p, e))
  {
    var r := InsertAt(entries, p, e);
    forall i | 0 <= i < |r| ensures r[i] == if i < p then entries[i] else if i == p then e else entries[i - 1] {}
    if e.key == root {
      forall i | 0 <= i < |entries| ensures entries[i].key != root { assert !HasKey(entries, root); }
    }
  }

  /** Above the root, the neighbours at the end of a search order the new key among all others. */
  lemma GapSplits(root: string, entries: seq<Entry>, x: string, p: nat)
    requires Sorted(root, entries) && Gap(root, entries, x, p) && x != root && Safe(root, entries, x)
    ensures forall i :: 0 <= i < p ==> entries[i].key != root && Less(x, entries[i].key)
    ensures forall i :: p <= i < |entries| && entries[i].key != root ==> !Less(x, entries[i].key)
  {
    LessIsStrictTotal(root, x, root);
    forall i | 0 <= i < p ensures entries[i].key != root && Less(x, entries[i].key) {
      var last := entries[p - 1].key;
      assert last != root;
      LessIsStrictTotal(x, last, entries[i].key);
      LessIsStrictTotal(x, last, root);
    }
    forall i | p <= i < |entries| && entries[i].key != root ensures !Less(x, entries[i].key) {
      LessIsStrictTotal(x, entries[i].key, entries[p].key);
    }
  }

  lemma SafeSplits(root: string, t: Tree, x: string)
    requires Sorted(root, InOrder(t)) && x != root && Safe(root, InOrder(t), x) && !Found(root, t, x)
    ensures !Turns(root, t, x) && Splits(root, InOrder(t), Place(root, t, x), x)
  {
    var entries, p := InOrder(t), Bound(root, t, x);
    BoundIsGap(root, t, x);
    GapSplits(root, entries, x, p);
    if Turns(root, t, x) {
      TurnsMeans(root, t, x);
      LessIsStrictTotal(x, entries[p - 1].key, x);
    }
    forall i | p <= i < |entries| && entries[i].key != root ensures Less(entries[i].key, x) {
      LessIsStrictTotal(x, entries[i].key, entries[p].key);
    }
  }

  /** A search for the root goes to the end. */
  lemma {:induction false} BoundOfRoot(root: string, t: Tree)
    ensures Bound(root, t, root) == |InOrder(t)|
  {
    if t.Node? { BoundOfRoot(root, t.right); }
  }

  /** A safe key keeps the entries sorted, and breaks nothing unless it is the root. */
  lemma PutKeepsSorted(root: string, t: Tree, x: string, variable: string)
    requires Sorted(root, InOrder(t)) && Safe(root, InOrder(t), x)
    ensures x != root ==> Put(root, t, x, variable).Inserted?
    ensures Put(root, t, x, variable).Inserted? ==> Sorted(root, InOrder(Put(root, t, x, variable).tree))
  {
    var r := Put(root, t, x, variable);
    if x != root && !Found(root, t, x) {
      SafeSplits(root, t, x);
      if r.Broken? { BrokenTurns(root, t, Entry(x, variable)); }
    }
    if r.Inserted? {
      PutPlaces(root, t, x, variable);
      if Found(root, t, x) {
        FoundIsKey(root, t, x);
      } else {
        if x == root { RootSplits(root, t); }
        InsertKeepsSorted(root, InOrder(t), Place(root, t, x), Entry(x, variable));
      }
    }
  }

  /** The root goes to the end, or before the last key if that is below it. */
  lemma RootSplits(root: string, t: Tree)
    requires !HasKey(InOrder(t), root)
    ensures Splits(root, InOrder(t), Place(root, t, root), root)
  {
    BoundOfRoot(root, t);
    if Turns(root, t, root) { TurnsMeans(root, t, root); }
    var entries := InOrder(t);
    forall i | 0 <= i < |entries| ensures entries[i].key != root { assert !HasKey(entries, root); }
  }

  /** Without the root, inserting a list keeps the entries sorted, and the first of equal keys. */
  lemma AddKeepsSorted(root: string, t: Tree, e: Entry)
    requires Sorted(root, InOrder(t)) && !HasKey(InOrder(t), root) && e.key != root
    ensures Add(root, t, e).Inserted?
    ensures var after := InOrder(Add(root, t, e).tree);
      && Sorted(root, after)
      && (forall x :: HasKey(after, x) <==> HasKey(InOrder(t), x) || x == e.key)
      && (HasKey(InOrder(t), e.key) ==> after == InOrder(t))
  {
    if t.Leaf? {
      assert InOrder(Paint(Single(e), Black)) == [e] && [e][0] == e;
    } else {
      var entries, x := InOrder(t), e.key;
      LastIsLast(t);
      forall i | 0 <= i < |entries| ensures entries[i].key != root { assert !HasKey(entries, root); }
      if Before(root, Last(t).key, x) {
        AddAtEnd(root, t, e);
        AddAt(root, t, e, |entries|);
      } else {
        AddInside(root, t, e);
      }
    }
  }

  lemma AddAt(root: string, t: Tree, e: Entry, p: nat)
    requires Sorted(root, InOrder(t)) && Splits(root, InOrder(t), p, e.key) && e.key != root
    ensures Sorted(root, InsertAt(InOrder(t), p, e)) && !HasKey(InOrder(t), e.key)
    ensures forall x :: HasKey(InsertAt(InOrder(t), p, e), x) <==> HasKey(InOrder(t), x) || x == e.key
  {
    var entries := InOrder(t);
    InsertKeepsSorted(root, entries, p, e);
    KeysOfInsert(entries, p, e);
    if i :| 0 <= i < |entries| && entries[i].key == e.key { LessIsStrictTotal(e.key, e.key, e.key); }
  }

  lemma KeysOfInsert(entries: seq<Entry>, p: nat, e: Entry)
    requires p <= |entries|
    ensures forall x :: HasKey(InsertAt(entries, p, e), x) <==> HasKey(entries, x) || x == e.key
  {
    var r := InsertAt(entries, p, e);
    assert r[p] == e;
    forall x | HasKey(entries, x) ensures HasKey(r, x) {
      var i :| 0 <= i < |entries| && entries[i].key == x;
      assert r[if i < p then i else i + 1].key == x;
    }
    forall i | 0 <= i < |r| ensures r[i] == e || HasKey(entries, r[i].key) {
      assert i < p ==> r[i] == entries[i];
      assert i > p ==> r[i] == entries[i - 1];
    }
  }

  lemma AddAtEnd(root: string, t: Tree, e: Entry)
    requires t.Node? && Sorted(root, InOrder(t)) && !HasKey(InOrder(t), root) && e.key != root
    requires Before(root, Last(t).key, e.key)
    ensures Add(root, t, e).Inserted? && InOrder(Add(root, t, e).tree) == InsertAt(InOrder(t), |InOrder(t)|, e)
    ensures Splits(root, InOrder(t), |InOrder(t)|, e.key)
  {
    var entries := InOrder(t);
    LastIsLast(t);
    forall i | 0 <= i < |entries| ensures entries[i].key != root && Less(e.key, entries[i].key) {
      assert !HasKey(entries, root);
      LessIsStrictTotal(e.key, Last(t).key, entries[i].key);
    }
    LessIsStrictTotal(e.key, Last(t).key, e.key);
    if AddLast(root, t, e).Broken? { BrokenAtEnd(root, t, e); }
    AddLastGrown(root, t, e);
  }

  lemma {:induction false} BrokenAtEnd(root: string, t: Tree, e: Entry)
    requires t.Node? && AddLast(root, t, e).Broken?
    ensures Before(root, e.key, Last(t).key)
  {
    if t.right.Node? { BrokenAtEnd(root, t.right, e); }
  }

  lemma AddInside(root: string, t: Tree, e: Entry)
    requires t.Node? && Sorted(root, InOrder(t)) && !HasKey(InOrder(t), root) && e.key != root
    requires !Before(root, Last(t).key, e.key)
    ensures Add(root, t, e).Inserted?
    ensures var after := InOrder(Add(root, t, e).tree);
      && Sorted(root, after)
      && (forall x :: HasKey(after, x) <==> HasKey(InOrder(t), x) || x == e.key)
      && (HasKey(InOrder(t), e.key) ==> after == InOrder(t))
  {
    var entries, x, p := InOrder(t), e.key, Down(root, t, e.key);
    DownSplits(root, t, x);
    forall i | 0 <= i < |entries| ensures entries[i].key != root { assert !HasKey(entries, root); }
    if p > 0 { LessIsStrictTotal(x, entries[p - 1].key, x); }
    if p > 0 && !Before(root, entries[p - 1].key, x) {
      assert entries[p - 1].key == x;
    } else {
      forall i | 0 <= i < p ensures Less(x, entries[i].key) { LessIsStrictTotal(x, entries[p - 1].key, entries[i].key); }
      forall i | p <= i < |entries| ensures Less(entries[i].key, x) { LessIsStrictTotal(entries[i].key, entries[p].key, x); }
      AddDownGrown(root, t, e);
      AddAt(root, t, e, p);
    }
  }

  /** The root is never found: declaring it again breaks the map or adds it once more. */
  lemma RootIsAddedAgain(root: string, t: Tree, variable: string)
    requires Put(root, t, root, variable).Inserted?
    ensures var after := InOrder(Put(root, t, root, variable).tree);
      |after| == |InOrder(t)| + 1 && HasKey(after, root) && (HasKey(InOrder(t), root) ==> !Sorted(root, after))
  {
    if Found(root, t, root) { FoundIsKey(root, t, root); }
    PutPlaces(root, t, root, variable);
    var p, entries, e := Place(root, t, root), InOrder(t), Entry(root, variable);
    var after := InsertAt(entries, p, e);
    assert after[p] == e;
    if i :| 0 <= i < |entries| && entries[i].key == root {
      var j := if i < p then i else i + 1;
      assert after[j].key == root && j != p;
    }
  }

  // ---- what is broken off

  /** The node behind which the search ends when it turns; the new key goes to its left. */
  function TurnNode(root: string, t: Tree, x: string): (n: Tree)
    requires Turns(root, t, x)
    ensures n.Node? && n.right.Leaf?
  {
    if !Before(root, t.entry.key, x) then TurnNode(root, t.left, x)
    else if t.right.Leaf? then t
    else TurnNode(root, t.right, x)
  }

  /** The key is not there, and where its search turns, its place on the left is taken. */
  predicate Breaks(root: string, t: Tree, x: string)
  {
    !Found(root, t, x) && Turns(root, t, x) && TurnNode(root, t, x).left.Node?
  }

  /** An assignment breaks off a part of the map exactly where the search turns behind a node with a left child. */
  lemma PutBreaksIff(root: string, t: Tree, x: string, variable: string)
    ensures Put(root, t, x, variable).Broken? <==> Breaks(root, t, x)
  {
    InsertBreaksIff(root, t, Entry(x, variable));
  }

  lemma {:induction false} InsertBreaksIff(root: string, t: Tree, e: Entry)
    ensures Insert(root, t, e).Broken? <==> Turns(root, t, e.key) && TurnNode(root, t, e.key).left.Node?
  {
    if t.Leaf? {
    } else if !Before(root, t.entry.key, e.key) {
      InsertBreaksIff(root, t.left, e);
    } else if t.right.Leaf? {
    } else {
      InsertBreaksIff(root, t.right, e);
    }
  }

  // ---- the first entry whose key is a prefix

  /** The first entry whose key is a prefix of the path; the length if there is none. */
  function FirstMatch(entries: seq<Entry>, source: string): (i: nat)
    ensures i <= |entries| && (i < |entries| ==> entries[i].key <= source)
    ensures forall j :: 0 <= j < i ==> !(entries[j].key <= source)
  {
    if entries == [] || entries[0].key <= source then 0
    else
      var i := FirstMatch(entries[1..], source);
      assert forall j :: 1 <= j <= i ==> entries[j] == entries[1..][j - 1];
      i + 1
  }

  /** The first match is the longest key that is a prefix, and the root only if no other key is. */
  ghost predicate FindsLongest(root: string, entries: seq<Entry>, source: string)
  {
    var i := FirstMatch(entries, source);
    forall j :: 0 <= j < |entries| && entries[j].key <= source && entries[j].key != root ==>
      i < |entries| && entries[i].key != root && |entries[j].key| <= |entries[i].key|
  }

  /** A key stands behind one of its proper prefixes. */
  predicate PrefixFirst(root: string, entries: seq<Entry>)
  {
    exists i, j :: 0 <= i < j < |entries| && root !in {entries[i].key, entries[j].key} && entries[i].key <= entries[j].key
  }

  /** A key stands behind the root that extends it, or that is a prefix of it when none before the root is. */
  predicate RootFirst(root: string, entries: seq<Entry>)
  {
    exists r, j :: 0 <= r < j < |entries| && entries[r].key == root != entries[j].key &&
      (root <= entries[j].key || RootShadows(entries, r, j))
  }

  predicate RootShadows(entries: seq<Entry>, r: nat, j: nat)
    requires r < |entries| && j < |entries|
  {
    entries[j].key <= entries[r].key && forall k :: 0 <= k < r ==> !(entries[k].key <= entries[r].key)
  }

  ghost predicate DistinctKeys(entries: seq<Entry>)
  {
    forall i, j :: 0 <= i < j < |entries| ==> entries[i].key != entries[j].key
  }

  /** The longest key is found for every path if and only if no key stands behind a proper prefix, or behind the root. */
  lemma FindsLongestIff(root: string, entries: seq<Entry>)
    requires DistinctKeys(entries)
    ensures (forall source :: FindsLongest(root, entries, source)) <==>
      !PrefixFirst(root, entries) && !RootFirst(root, entries)
  {
    if PrefixFirst(root, entries) {
      var i, j :| 0 <= i < j < |entries| && root !in {entries[i].key, entries[j].key} && entries[i].key <= entries[j].key;
      MissesLater(root, entries, i, j);
    } else if RootFirst(root, entries) {
      var r, j :| 0 <= r < j < |entries| && entries[r].key == root != entries[j].key &&
        (root <= entries[j].key || RootShadows(entries, r, j));
      if root <= entries[j].key {
        MissesLater(root, entries, r, j);
      } else {
        FindsRoot(root, entries, r, j);
      }
    } else {
      forall source ensures FindsLongest(root, entries, source) { FindsLongestOf(root, entries, source); }
    }
  }

  lemma MissesLater(root: string, entries: seq<Entry>, i: nat, j: nat)
    requires DistinctKeys(entries) && i < j < |entries| && entries[i].key <= entries[j].key && entries[j].key != root
    ensures !FindsLongest(root, entries, entries[j].key)
  {
    var first := FirstMatch(entries, entries[j].key);
    assert first <= i;
    assert entries[first].key != entries[j].key;
  }

  lemma FindsRoot(root: string, entries: seq<Entry>, r: nat, j: nat)
    requires r < j < |entries| && entries[r].key == root != entries[j].key && RootShadows(entries, r, j)
    ensures !FindsLongest(root, entries, root)
  {
    assert FirstMatch(entries, root) == r;
  }

  /** A match missed by the first one is behind the root, or behind a prefix of it. */
  lemma MissedMatch(root: string, entries: seq<Entry>, source: string, j: nat)
    requires j < |entries| && entries[j].key <= source && entries[j].key != root
    ensures var i := FirstMatch(entries, source);
      && i < |entries|
      && (entries[i].key == root ==> RootFirst(root, entries))
      && (entries[i].key != root && |entries[i].key| < |entries[j].key| ==> PrefixFirst(root, entries))
  {
    var i := FirstMatch(entries, source);
    var found, other := entries[i].key, entries[j].key;
    if |found| <= |other| {
      PrefixesNest(found, other, source);
    } else {
      PrefixesNest(other, found, source);
      forall k | 0 <= k < i ensures !(entries[k].key <= found) {
        if entries[k].key <= found { PrefixOfPrefix(entries[k].key, found, source); }
      }
      assert RootShadows(entries, i, j);
    }
  }

  lemma FindsLongestOf(root: string, entries: seq<Entry>, source: string)
    requires !PrefixFirst(root, entries) && !RootFirst(root, entries)
    ensures FindsLongest(root, entries, source)
  {
    forall j | 0 <= j < |entries| && entries[j].key <= source && entries[j].key != root
      ensures var i := FirstMatch(entries, source);
        i < |entries| && entries[i].key != root && |entries[j].key| <= |entries[i].key|
    {
      MissedMatch(root, entries, source, j);
    }
  }

  lemma PrefixOfPrefix(a: string, b: string, c: string)
    requires a <= b <= c
    ensures a <= c
  {
  }

  lemma SortedIsDistinct(root: string, entries: seq<Entry>)
    requires Sorted(root, entries)
    ensures DistinctKeys(entries)
  {
    forall i, j | 0 <= i < j < |entries| ensures entries[i].key != entries[j].key {
      LessIsStrictTotal(entries[j].key, entries[i].key, entries[j].key);
    }
  }

  /** In sorted entries, the longest key is found unless the root shadows a prefix of itself. */
  lemma SortedFindsLongestIff(root: string, entries: seq<Entry>)
    requires Sorted(root, entries)
    ensures (forall source :: FindsLongest(root, entries, source)) <==>
      forall r, j :: 0 <= r < j < |entries| && entries[r].key == root ==> !RootShadows(entries, r, j)
  {
    SortedIsDistinct(root, entries);
    FindsLongestIff(root, entries);
    forall i, j | 0 <= i < j < |entries| && entries[j].key != root ensures !(entries[i].key <= entries[j].key) {
      if entries[i].key <= entries[j].key {
        PrefixIsLess(entries[i].key, entries[j].key);
        LessIsStrictTotal(entries[i].key, entries[j].key, entries[i].key);
      }
    }
  }
}
