/** What happens at the right end of the map's tree. */
module TreeEnd {
  import opened PrinterSetup
  import opened Text
  import opened VariableMap

  /** The way down the right of the tree ends with the entry `k` and, on its right, the subtree `s`. */
  predicate EndsIn(t: Tree, k: Entry, s: Tree)
  {
    t.Node? && ((t.entry == k && t.right == s) || EndsIn(t.right, k, s))
  }

  lemma FixKeepsEnd(t: Tree, k: Entry, s: Tree)
    requires EndsIn(t, k, s) && s.Node? && s.color == Black
    ensures EndsIn(Fix(t), k, s)
  {
  }

  /** An insertion to the left of `k` keeps the end. */
  lemma {:induction false} InsertKeepsEnd(root: string, t: Tree, e: Entry, k: Entry, s: Tree)
    requires EndsIn(t, k, s) && s.Node? && s.color == Black
    requires !Before(root, k.key, e.key) && Insert(root, t, e).Inserted?
    ensures EndsIn(Insert(root, t, e).tree, k, s)
  {
    if !Before(root, t.entry.key, e.key) {
      FixKeepsEnd(t.(left := Insert(root, t.left, e).tree), k, s);
    } else {
      InsertKeepsEnd(root, t.right, e, k, s);
      FixKeepsEnd(t.(right := Insert(root, t.right, e).tree), k, s);
    }
  }

  lemma {:induction false} RenameKeepsEnd(root: string, t: Tree, x: string, variable: string, k: Entry, s: Tree)
    requires EndsIn(t, k, s) && !Before(root, k.key, x) && k.key != x
    requires Bound(root, t, x) < |InOrder(t)| && InOrder(t)[Bound(root, t, x)].key == x
    ensures EndsIn(Rename(root, t, x, variable), k, s)
  {
    if Before(root, t.entry.key, x) { RenameKeepsEnd(root, t.right, x, variable, k, s); }
  }

  lemma PutKeepsEnd(root: string, t: Tree, x: string, variable: string, k: Entry, s: Tree)
    requires EndsIn(t, k, s) && s.Node? && s.color == Black
    requires x != root && Less(k.key, x) && Put(root, t, x, variable).Inserted?
    ensures EndsIn(Put(root, t, x, variable).tree, k, s)
  {
    LessIsStrictTotal(k.key, x, k.key);
    if Found(root, t, x) {
      FoundIsKey(root, t, x);
      RenameKeepsEnd(root, t, x, variable, k, s);
    } else {
      InsertKeepsEnd(root, t, Entry(x, variable), k, s);
    }
  }

  /** The number of entries before those of the end. */
  function Lead(t: Tree, s: Tree): int { |InOrder(t)| - |InOrder(s)| }

  lemma {:induction false} EndOrder(t: Tree, k: Entry, s: Tree)
    requires EndsIn(t, k, s)
    ensures var n := Lead(t, s); n > 0 && InOrder(t)[n - 1] == k && InOrder(t)[n..] == InOrder(s)
  {
    if t.entry != k || t.right != s {
      EndOrder(t.right, k, s);
      var l, r := InOrder(t.left) + [t.entry], InOrder(t.right);
      assert InOrder(t) == l + r && (l + r)[|l| + Lead(t.right, s)..] == r[Lead(t.right, s)..];
    }
  }

  /** The entries before those of the end send a search on. */
  ghost predicate LeadsOn(root: string, t: Tree, s: Tree, x: string)
  {
    forall i :: 0 <= i < Lead(t, s) ==> Before(root, InOrder(t)[i].key, x)
  }

  lemma LeadsOnRight(root: string, t: Tree, k: Entry, s: Tree, x: string)
    requires EndsIn(t, k, s) && LeadsOn(root, t, s, x)
    ensures Before(root, t.entry.key, x)
    ensures EndsIn(t.right, k, s) ==> LeadsOn(root, t.right, s, x)
  {
    var n := |InOrder(t.left)|;
    if EndsIn(t.right, k, s) {
      EndOrder(t.right, k, s);
      forall i | 0 <= i < Lead(t.right, s) ensures Before(root, InOrder(t.right)[i].key, x) {
        assert InOrder(t)[n + 1 + i] == InOrder(t.right)[i];
      }
    }
    assert InOrder(t)[n] == t.entry;
  }

  /** A search that is sent on goes through the end. */
  lemma {:induction false} SearchEnds(root: string, t: Tree, k: Entry, s: Tree, x: string)
    requires EndsIn(t, k, s) && s.Node? && LeadsOn(root, t, s, x)
    ensures Bound(root, t, x) == Lead(t, s) + Bound(root, s, x) && (Turns(root, t, x) <==> Turns(root, s, x))
  {
    LeadsOnRight(root, t, k, s, x);
    if t.entry != k || t.right != s { SearchEnds(root, t.right, k, s, x); }
  }

  lemma {:induction false} InsertInEnd(root: string, t: Tree, k: Entry, s: Tree, e: Entry, after: Tree)
    requires EndsIn(t, k, s) && s.Node? && LeadsOn(root, t, s, e.key)
    requires Insert(root, s, e) == Inserted(after) && after.Node? && after.color == Black
    ensures Insert(root, t, e).Inserted? && EndsIn(Insert(root, t, e).tree, k, after)
  {
    LeadsOnRight(root, t, k, s, e.key);
    if t.entry != k || t.right != s { InsertInEnd(root, t.right, k, s, e, after); }
    FixKeepsEnd(t.(right := Insert(root, t.right, e).tree), k, after);
  }

  lemma LeadIsAbove(root: string, t: Tree, k: Entry, s: Tree, x: string)
    requires Sorted(root, InOrder(t)) && EndsIn(t, k, s) && InOrder(s) != [] && Less(x, k.key)
    requires HasKey(InOrder(s), root)
    ensures forall i :: 0 <= i < Lead(t, s) ==> Less(x, InOrder(t)[i].key)
  {
    var entries, n := InOrder(t), Lead(t, s);
    EndOrder(t, k, s);
    var r :| 0 <= r < |InOrder(s)| && InOrder(s)[r].key == root;
    assert entries[n + r] == entries[n..][r];
    forall i | 0 <= i < n ensures Less(x, entries[i].key) {
      assert entries[i].key != root && k.key != root;
      LessIsStrictTotal(x, k.key, entries[i].key);
    }
  }

  lemma FoundInEnd(root: string, t: Tree, k: Entry, s: Tree, x: string)
    requires EndsIn(t, k, s) && s.Node? && LeadsOn(root, t, s, x) && Bound(root, s, x) < |InOrder(s)|
    ensures Found(root, t, x) <==> Found(root, s, x)
    ensures Lead(t, s) > 0 && Place(root, t, x) == Lead(t, s) + Place(root, s, x)
  {
    var n, b := Lead(t, s), Bound(root, s, x);
    EndOrder(t, k, s);
    SearchEnds(root, t, k, s, x);
    assert InOrder(t)[n..][b] == InOrder(t)[n + b];
  }

  /** A new key whose search is sent on goes to its place among the entries of the end. */
  lemma PutInEnd(root: string, t: Tree, k: Entry, s: Tree, e: Entry)
    requires EndsIn(t, k, s) && s.Node? && LeadsOn(root, t, s, e.key)
    requires Bound(root, s, e.key) < |InOrder(s)| && !Found(root, s, e.key) && Insert(root, t, e).Inserted?
    ensures var r := Put(root, t, e.key, e.variable);
      && r.Inserted? && r.tree == Paint(Insert(root, t, e).tree, Black)
      && Lead(t, s) > 0 && InOrder(r.tree) == InOrder(t)[..Lead(t, s)] + InsertAt(InOrder(s), Place(root, s, e.key), e)
  {
    FoundInEnd(root, t, k, s, e.key);
    EndOrder(t, k, s);
    PutNew(root, t, e);
    InsertBehind(InOrder(t), Lead(t, s), Place(root, s, e.key), e);
  }

  lemma PutNew(root: string, t: Tree, e: Entry)
    requires !Found(root, t, e.key) && Insert(root, t, e).Inserted?
    ensures Put(root, t, e.key, e.variable) == Inserted(Paint(Insert(root, t, e).tree, Black))
    ensures InOrder(Paint(Insert(root, t, e).tree, Black)) == InsertAt(InOrder(t), Place(root, t, e.key), e)
  {
    PutPlaces(root, t, e.key, e.variable);
  }

  lemma InsertBehind(entries: seq<Entry>, n: nat, p: nat, e: Entry)
    requires n + p <= |entries|
    ensures InsertAt(entries, n + p, e) == entries[..n] + InsertAt(entries[n..], p, e)
  {
    assert entries[..n + p] == entries[..n] + entries[n..][..p];
    assert entries[n + p..] == entries[n..][p..];
  }

  /** Keys above the root and above `k` keep the end. */
  lemma {:induction false} DeclaredKeepsEnd(root: string, canonical: string -> string, c: Contents, ds: seq<Declaration>,
                                            k: Entry, s: Tree)
    requires Sorted(root, InOrder(c.tree)) && EndsIn(c.tree, k, s) && s.Node? && s.color == Black
    requires forall d :: d in ds ==> Less(root, Key(canonical, d)) && Less(k.key, Key(canonical, d))
    ensures EndsIn(DeclaredAll(root, canonical, c, ds).tree, k, s)
    decreases |ds|
  {
    if |ds| > 0 {
      var d := ds[0];
      assert d in ds;
      LessIsStrictTotal(root, Key(canonical, d), root);
      PutKeepsSorted(root, c.tree, Key(canonical, d), d.name);
      PutKeepsEnd(root, c.tree, Key(canonical, d), d.name, k, s);
      DeclaredKeepsEnd(root, canonical, Declared(root, canonical, c, d), ds[1..], k, s);
    }
  }
}
