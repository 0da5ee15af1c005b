/** The order in which a link command lists its dependencies. */
module LinkOrder {
  import opened BuildTypes

  function DependencyType(p: Path): int
  {
    match p.kind
    case ObjectFile => 1
    case StaticLib => 2
    case SharedLib => 3
    case _ => 4
  }

  /** The arguments that are, or are not, among the files, in their order. */
  function Select(line: seq<Path>, files: seq<Path>, dependencies: bool): seq<Path>
  {
    if line == [] then []
    else
      var n := |line| - 1;
      Select(line[..n], files, dependencies) + if (line[n] in files) == dependencies then [line[n]] else []
  }

  ghost predicate Sorted(l: seq<Path>)
  {
    forall i, j :: 0 <= i < j < |l| ==> DependencyType(l[i]) <= DependencyType(l[j])
  }

  /** Objects come before static libraries, these before shared libraries, and these before everything else. */
  ghost predicate InLinkOrder(l: seq<Path>)
  {
    forall i, j :: 0 <= i < j < |l| ==>
      && (l[j].kind == ObjectFile ==> l[i].kind == ObjectFile)
      && (l[j].kind == StaticLib ==> l[i].kind == ObjectFile || l[i].kind == StaticLib)
      && (l[j].kind == SharedLib ==> l[i].kind == ObjectFile || l[i].kind == StaticLib || l[i].kind == SharedLib)
  }

  lemma SortedIsInLinkOrder(l: seq<Path>)
    ensures Sorted(l) <==> InLinkOrder(l)
  {
  }

  /** What is selected keeps its order: it is found behind what is selected before it. */
  lemma {:induction false} SelectAt(line: seq<Path>, files: seq<Path>, dependencies: bool, k: nat)
    requires k < |line| && (line[k] in files <==> dependencies)
    ensures var n := |Select(line[..k], files, dependencies)|;
      n < |Select(line, files, dependencies)| && Select(line, files, dependencies)[n] == line[k]
  {
    var last := |line| - 1;
    if k < last {
      SelectAt(line[..last], files, dependencies, k);
      assert line[..last][..k] == line[..k];
    }
  }

  lemma {:induction false} SelectSplits(line: seq<Path>, files: seq<Path>)
    ensures multiset(line) == multiset(Select(line, files, false)) + multiset(Select(line, files, true))
  {
    if line != [] {
      var before, x := line[..|line| - 1], line[|line| - 1];
      SelectSplits(before, files);
      assert line == before + [x];
    }
  }

  lemma {:induction false} SelectSelects(line: seq<Path>, files: seq<Path>, dependencies: bool)
    ensures forall p :: p in Select(line, files, dependencies) ==> (p in files <==> dependencies)
  {
    if line != [] { SelectSelects(line[..|line| - 1], files, dependencies); }
  }

  /** `std::stable_partition` by membership in `files`. */
  method Partition(line: seq<Path>, files: seq<Path>) returns (others: seq<Path>, dependencies: seq<Path>)
    ensures others == Select(line, files, false) && dependencies == Select(line, files, true)
  {
    others, dependencies := [], [];
    for k := 0 to |line|
      invariant others == Select(line[..k], files, false) && dependencies == Select(line[..k], files, true)
    {
      assert line[..k + 1][..k] == line[..k];
      if line[k] in files {
        dependencies := dependencies + [line[k]];
      } else {
        others := others + [line[k]];
      }
    }
    assert line[..|line|] == line;
  }

  /** `std::sort` by dependency type: any order among equal types would do. */
  method SortByType(l: seq<Path>) returns (r: seq<Path>)
    ensures Sorted(r) && multiset(r) == multiset(l)
  {
    r := [];
    for k := 0 to |l|
      invariant Sorted(r) && multiset(r) == multiset(l[..k])
    {
      r := InsertByType(r, l[k]);
      assert l[..k + 1] == l[..k] + [l[k]];
    }
    assert l[..|l|] == l;
  }

  method InsertByType(l: seq<Path>, p: Path) returns (r: seq<Path>)
    requires Sorted(l)
    ensures Sorted(r) && multiset(r) == multiset(l) + multiset{p}
  {
    var n: nat := |l|;
    while n > 0 && DependencyType(p) < DependencyType(l[n - 1])
      invariant n <= |l| && forall i :: n <= i < |l| ==> DependencyType(p) < DependencyType(l[i])
    {
      n := n - 1;
    }
    r := l[..n] + [p] + l[n..];
    InsertSorts(l, n, p);
    InsertKeepsMembers(l, n, p);
  }

  lemma InsertKeepsMembers(l: seq<Path>, n: nat, p: Path)
    requires n <= |l|
    ensures multiset(l[..n] + [p] + l[n..]) == multiset(l) + multiset{p}
  {
    assert l == l[..n] + l[n..];
  }

  lemma InsertSorts(l: seq<Path>, n: nat, p: Path)
    requires Sorted(l) && n <= |l| && (n > 0 ==> DependencyType(l[n - 1]) <= DependencyType(p))
    requires forall i :: n <= i < |l| ==> DependencyType(p) < DependencyType(l[i])
    ensures Sorted(l[..n] + [p] + l[n..])
  {
    var r := l[..n] + [p] + l[n..];
    forall i, j | 0 <= i < j < |r| ensures DependencyType(r[i]) <= DependencyType(r[j]) {
      if i < n { assert r[i] == l[i]; } else if i > n { assert r[i] == l[i - 1]; }
      if j < n { assert r[j] == l[j]; } else if j > n { assert r[j] == l[j - 1]; }
    }
  }

  /**
   The command line rearranged: what is no dependency first and in its order, then the dependencies as objects, static
   libraries, shared libraries and others. Nothing is lost or added.
   */
  method SortLinkDependencies(line: seq<Path>, files: seq<Path>) returns (r: seq<Path>)
    ensures multiset(r) == multiset(line)
    ensures var n := |Select(line, files, false)|;
      && n <= |r| && r[..n] == Select(line, files, false)
      && InLinkOrder(r[n..]) && multiset(r[n..]) == multiset(Select(line, files, true))
      && (forall i :: 0 <= i < |r| ==> (r[i] in files <==> n <= i))
  {
    var others, dependencies := Partition(line, files);
    var sorted := SortByType(dependencies);
    r := others + sorted;
    SortedIsInLinkOrder(sorted);
    SelectSplits(line, files);
    SelectSelects(line, files, false);
    SelectSelects(line, files, true);
    assert r[..|others|] == others && r[|others|..] == sorted;
    forall i | 0 <= i < |r| ensures r[i] in files <==> |others| <= i {
      if i < |others| {
        assert r[i] in others;
      } else {
        assert r[i] in sorted && r[i] in multiset(sorted) && r[i] in multiset(dependencies);
      }
    }
  }
}
