/** The order in which the object files of one source are preferred. */
module Priority {
  import opened BuildTypes
  import opened Text

  predicate Contains64(s: string)
  {
    exists i :: 0 <= i < |s| - 1 && s[i] == '6' && s[i + 1] == '4'
  }

  predicate ConflictPriorityMore(left: Path, right: Path)
  {
    var left64 := Contains64(left.name);
    if left64 == Contains64(right.name) then Less(left.name, right.name) else left64
  }

  /** Among two names, the one with "64" in it goes first; if both or neither have it, the one that sorts lower. */
  lemma PriorityIs(left: Path, right: Path, before: string, after: string)
    requires right.name == before + "64" + after
    ensures var left64 := exists a: string, b: string :: left.name == Around64(a, b);
      && (ConflictPriorityMore(right, left) <==> !left64 || Less(right.name, left.name))
      && (ConflictPriorityMore(left, right) <==> left64 && Less(left.name, right.name))
  {
    Contains64Iff(left.name);
    Contains64Iff(right.name);
    assert right.name == Around64(before, after);
  }

  lemma PriorityWithout64(left: Path, right: Path)
    requires forall a: string, b: string :: left.name != Around64(a, b) && right.name != Around64(a, b)
    ensures ConflictPriorityMore(left, right) <==> Less(left.name, right.name)
  {
    Contains64Iff(left.name);
    Contains64Iff(right.name);
  }

  function Around64(before: string, after: string): string { before + "64" + after }

  lemma Contains64Iff(s: string)
    ensures Contains64(s) <==> exists a: string, b: string :: s == Around64(a, b)
  {
    if i :| 0 <= i < |s| - 1 && s[i] == '6' && s[i + 1] == '4' {
      assert s[i..i + 2] == "64";
      assert s == Around64(s[..i], s[i + 2..]);
    }
    if a: string, b: string :| s == Around64(a, b) { assert s[|a|] == '6' && s[|a| + 1] == '4'; }
  }

  /** The comparator is what sorting needs: a strict order, total on names. */
  lemma PriorityIsStrictTotal(a: Path, b: Path, c: Path)
    ensures !ConflictPriorityMore(a, a)
    ensures ConflictPriorityMore(a, b) && ConflictPriorityMore(b, c) ==> ConflictPriorityMore(a, c)
    ensures a.name == b.name || ConflictPriorityMore(a, b) || ConflictPriorityMore(b, a)
  {
    LessIsStrictTotal(a.name, b.name, c.name);
  }

  ghost predicate Ordered(l: seq<Path>)
  {
    forall i, j :: 0 <= i < j < |l| ==> !ConflictPriorityMore(l[j], l[i])
  }

  /** The head of an ordered list yields to none, and is a 64-bit object if there is one. */
  lemma HeadIsPreferred(l: seq<Path>, k: nat)
    requires Ordered(l) && k < |l|
    ensures l[k].name == l[0].name || ConflictPriorityMore(l[0], l[k])
    ensures Contains64(l[k].name) ==> Contains64(l[0].name)
  {
    PriorityIsStrictTotal(l[0], l[k], l[k]);
  }

  /** How many elements of the ordered list `l` stay before `x`. */
  function Rank(l: seq<Path>, x: Path): (n: nat)
    ensures n <= |l|
  {
    if l == [] || ConflictPriorityMore(x, l[0]) then 0 else 1 + Rank(l[1..], x)
  }

  lemma {:induction false} RankIs(l: seq<Path>, x: Path, n: nat)
    requires n <= |l| && forall k :: 0 <= k < n ==> !ConflictPriorityMore(x, l[k])
    requires n < |l| ==> ConflictPriorityMore(x, l[n])
    ensures Rank(l, x) == n
  {
    if n > 0 {
      assert forall k :: 0 <= k < |l| - 1 ==> l[1..][k] == l[k + 1];
      RankIs(l[1..], x, n - 1);
    }
  }

  lemma {:induction false} RankKeepsOrder(l: seq<Path>, x: Path)
    requires Ordered(l)
    ensures Ordered(l[..Rank(l, x)] + [x] + l[Rank(l, x)..])
  {
    var n := Rank(l, x);
    RankSplits(l, x);
    var r := l[..n] + [x] + l[n..];
    forall i, j | 0 <= i < j < |r| ensures !ConflictPriorityMore(r[j], r[i]) {
      if i < n { assert r[i] == l[i]; } else if i > n { assert r[i] == l[i - 1]; }
      if j < n { assert r[j] == l[j]; } else if j > n { assert r[j] == l[j - 1]; }
    }
  }

  lemma {:induction false} RankSplits(l: seq<Path>, x: Path)
    requires Ordered(l)
    ensures forall i :: 0 <= i < Rank(l, x) ==> !ConflictPriorityMore(x, l[i])
    ensures forall i :: Rank(l, x) <= i < |l| ==> !ConflictPriorityMore(l[i], x)
  {
    if l == [] {
    } else if ConflictPriorityMore(x, l[0]) {
      forall i | 0 <= i < |l| ensures !ConflictPriorityMore(l[i], x) {
        PriorityIsStrictTotal(x, l[0], l[i]);
        PriorityIsStrictTotal(l[i], x, l[0]);
      }
    } else {
      RankSplits(l[1..], x);
      forall i | 0 <= i < Rank(l, x) ensures !ConflictPriorityMore(x, l[i]) { if i > 0 { assert l[i] == l[1..][i - 1]; } }
      forall i | Rank(l, x) <= i < |l| ensures !ConflictPriorityMore(l[i], x) { assert l[i] == l[1..][i - 1]; }
    }
  }

  function InsertInOrder(l: seq<Path>, x: Path): seq<Path> { l[..Rank(l, x)] + [x] + l[Rank(l, x)..] }

  function Sort(l: seq<Path>): seq<Path>
  {
    if l == [] then [] else InsertInOrder(Sort(l[..|l| - 1]), l[|l| - 1])
  }

  lemma InsertKeepsMembers(l: seq<Path>, x: Path)
    ensures multiset(InsertInOrder(l, x)) == multiset(l) + multiset{x}
  {
    assert l == l[..Rank(l, x)] + l[Rank(l, x)..];
  }

  lemma {:induction false} SortSorts(l: seq<Path>)
    ensures Ordered(Sort(l)) && multiset(Sort(l)) == multiset(l)
  {
    if l != [] {
      var r, x := Sort(l[..|l| - 1]), l[|l| - 1];
      SortSorts(l[..|l| - 1]);
      RankKeepsOrder(r, x);
      assert l == l[..|l| - 1] + [x];
      InsertKeepsMembers(r, x);
    }
  }

  /** A path is listed twice in a list exactly when its multiplicity is two or more. */
  lemma {:induction false} TwiceIsMultiplicity(l: seq<Path>, p: Path)
    ensures multiset(l)[p] >= 2 <==> exists i, j :: 0 <= i < j < |l| && l[i] == p && l[j] == p
  {
    if l != [] {
      var n := |l| - 1;
      assert l == l[..n] + [l[n]];
      TwiceIsMultiplicity(l[..n], p);
      assert p in l[..n] <==> multiset(l[..n])[p] >= 1;
      if multiset(l[..n])[p] >= 2 {
        var i, j :| 0 <= i < j < n && l[..n][i] == p && l[..n][j] == p;
        assert l[i] == p && l[j] == p;
      } else if p in l[..n] && l[n] == p {
        var i :| 0 <= i < n && l[..n][i] == p;
        assert l[i] == p && l[n] == p;
      }
      if i, j :| 0 <= i < j < |l| && l[i] == p && l[j] == p {
        assert l[..n][i] == p;
        if j < n { assert l[..n][j] == p; }
      }
    }
  }
}
