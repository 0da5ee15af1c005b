/**
 The breadth-first search that gives types to the unnamed objects of a test case: from the
 parameters and the result, along pointers, to every object reached through a matching pointer.
 */
module LazyObjects {
  import opened ObjectTypes
  import opened FieldOffset
  import opened LazyPointers
  import opened Wrappers

  // ---- the search

  /** `parameter` is the root whose test value collects the lazy parameters found from here. */
  datatype Entry = Entry(index: nat, ty: Type, parameter: nat)

  datatype Typing = Typing(types: seq<Option<Type>>, lazyParams: seq<seq<nat>>)

  /** First object with the given name. */
  method FindObject(objs: Objects, name: string) returns (r: Option<nat>)
    ensures r == ObjectNamed(objs, name)
  {
    var i := 0;
    while i < |objs|
      invariant i <= |objs|
      invariant forall j :: 0 <= j < i ==> objs[j].name != name
    {
      if objs[i].name == name {
        ObjectNamedIs(objs, name, i);
        return Some(i);
      }
      i := i + 1;
    }
    ObjectNamedNone(objs, name);
    r := None;
  }

  function ObjectNamed(objs: seq<Object>, name: string): (r: Option<nat>)
    ensures r.Some? ==> r.value < |objs| && objs[r.value].name == name
  {
    if objs == [] then None
    else if objs[0].name == name then Some(0)
    else
      var r := ObjectNamed(objs[1..], name);
      if r.None? then None else Some(r.value + 1)
  }

  lemma {:induction false} ObjectNamedIs(objs: seq<Object>, name: string, i: nat)
    requires i < |objs| && objs[i].name == name
    requires forall j :: 0 <= j < i ==> objs[j].name != name
    ensures ObjectNamed(objs, name) == Some(i)
  {
    if i > 0 { ObjectNamedIs(objs[1..], name, i - 1); }
  }

  lemma {:induction false} ObjectNamedNone(objs: seq<Object>, name: string)
    requires forall j :: 0 <= j < |objs| ==> objs[j].name != name
    ensures ObjectNamed(objs, name) == None
  {
    if objs != [] { ObjectNamedNone(objs[1..], name); }
  }

  /** The entry a root puts in the queue, if the test case has an object of its name. */
  ghost function RootEntry(objs: Objects, roots: seq<Root>, env: Targets, r: nat): Option<Entry>
    requires r < |roots|
  {
    var i := ObjectNamed(objs, roots[r].name);
    if i.None? then None else Some(Entry(i.value, RootType(roots[r].ty, env), r))
  }

  ghost predicate DistinctNames(roots: seq<Root>)
  {
    forall a, b :: 0 <= a < b < |roots| ==> roots[a].name != roots[b].name
  }

  /** Entry `e` may enter the queue: it belongs to a root, or a typed object leads to it. */
  ghost predicate Justified(objs: Objects, roots: seq<Root>, env: Targets, before: seq<Entry>, e: Entry)
  {
    || (e.parameter < |roots| && RootEntry(objs, roots, env, e.parameter) == Some(e))
    || exists b, k :: LeadsTo(objs, env, before, b, k, e)
  }

  ghost predicate LeadsTo(objs: Objects, env: Targets, before: seq<Entry>, b: nat, k: nat, e: Entry)
  {
    && b < |before| && before[b].index < |objs| && k < |objs[before[b].index].links|
    && objs[before[b].index].links[k].index == e.index
    && before[b].parameter == e.parameter
    && PointsTo(objs, env, before[b].ty, objs[before[b].index].links[k], PARAMETER, e.ty)
  }

  /** All entries ever queued, in order: the processed ones first. */
  ghost predicate QueueOk(objs: Objects, roots: seq<Root>, env: Targets, all: seq<Entry>, visited: seq<bool>)
  {
    && |visited| == |objs|
    && (forall a :: 0 <= a < |all| ==> all[a].index < |objs| && all[a].parameter < |roots|)
    && (forall a, b :: 0 <= a < b < |all| ==> all[a].index != all[b].index)
    && (forall i :: 0 <= i < |objs| ==> visited[i] == Queued(all, i))
    && (forall a :: 0 <= a < |all| ==> Justified(objs, roots, env, all[..a], all[a]))
  }

  ghost predicate Queued(all: seq<Entry>, i: nat)
  {
    exists a :: 0 <= a < |all| && all[a].index == i
  }

  /** Pointer `k` of entry `e` leads to an object of a matching size. */
  ghost predicate Accepts(objs: Objects, env: Targets, e: Entry, k: nat)
    requires e.index < |objs| && k < |objs[e.index].links|
  {
    exists ty :: PointsTo(objs, env, e.ty, objs[e.index].links[k], PARAMETER, ty)
  }

  /** How object `i` is used once the entries `done` are processed: processing a lazy object marks it. */
  ghost function UsageOf(objs: Objects, done: seq<Entry>, i: nat): Usage
    requires i < |objs|
  {
    if objs[i].isLazy && Queued(done, i) then LAZY else PARAMETER
  }

  ghost predicate ThrowsOn(objs: Objects, env: Targets, done: seq<Entry>, e: Entry, k: nat)
    requires e.index < |objs| && k < |objs[e.index].links|
  {
    var link := objs[e.index].links[k];
    Unresolved(env, e.ty, link, UsageOf(objs, done, link.index))
  }

  /** A lazy object can be shown. */
  predicate Shown(objs: Objects, env: Targets, e: Entry)
    requires e.index < |objs|
  {
    objs[e.index].isLazy ==> !Base(e.ty, env).Void? && objs[e.index].viewable
  }

  /** No exception for the last of `done`, as far as its first `n` pointers are concerned. */
  ghost predicate Passes(objs: Objects, env: Targets, done: seq<Entry>, n: nat)
    requires done != [] && done[|done| - 1].index < |objs|
  {
    var e := done[|done| - 1];
    Shown(objs, env, e) && forall k :: 0 <= k < n && k < |objs[e.index].links| ==> !ThrowsOn(objs, env, done, e, k)
  }

  /** Processing the last of `done` throws: a lazy object cannot be shown, or a pointer's type cannot be resolved. */
  ghost predicate Fails(objs: Objects, env: Targets, done: seq<Entry>)
    requires done != [] && done[|done| - 1].index < |objs|
  {
    !Passes(objs, env, done, |objs[done[|done| - 1].index].links|)
  }

  /** Processing the entry at position `a` throws, those before it being processed. */
  ghost predicate FailsAt(objs: Objects, env: Targets, all: seq<Entry>, a: nat)
    requires a < |all| && all[a].index < |objs|
  {
    Fails(objs, env, all[..a + 1])
  }

  /** Every accepted pointer of entry `e` leads to a queued object. */
  ghost predicate Expanded(objs: Objects, env: Targets, all: seq<Entry>, e: Entry, n: nat)
    requires e.index < |objs|
  {
    forall k :: 0 <= k < n && k < |objs[e.index].links| && Accepts(objs, env, e, k) ==>
      Queued(all, objs[e.index].links[k].index)
  }

  /** Lazy objects among the processed entries of root `r`, in processing order. */
  ghost function LazyOf(objs: Objects, done: seq<Entry>, r: nat): seq<nat>
  {
    if done == [] then []
    else
      var last := done[|done| - 1];
      var rest := LazyOf(objs, done[..|done| - 1], r);
      if last.parameter == r && last.index < |objs| && objs[last.index].isLazy then rest + [last.index] else rest
  }

  /**
   Processing an entry throws exactly when its object is lazy and either cannot be shown or ends in no type, or when a
   pointer to the beginning of an object resolves to none; a pointer to a lazy object processed before is not indexed.
   */
  lemma FailsIff(objs: Objects, env: Targets, before: seq<Entry>, e: Entry)
    requires e.index < |objs|
    ensures Fails(objs, env, before + [e]) <==>
      || (objs[e.index].isLazy && (!objs[e.index].viewable || e.ty.Void? || (e.ty.Pointer? && NoTarget(env, e.ty.target))))
      || exists k :: 0 <= k < |objs[e.index].links| &&
           var link := objs[e.index].links[k];
           var usage := if objs[link.index].isLazy && (e.index == link.index || Queued(before, link.index)) then LAZY else PARAMETER;
           Unresolved(env, e.ty, link, usage)
  {
    var done := before + [e];
    forall k | 0 <= k < |objs[e.index].links|
      ensures ThrowsOn(objs, env, done, e, k) <==>
        var link := objs[e.index].links[k];
        var usage := if objs[link.index].isLazy && (e.index == link.index || Queued(before, link.index)) then LAZY else PARAMETER;
        Unresolved(env, e.ty, link, usage)
    {
      QueuedAppend(before, e, objs[e.index].links[k].index);
    }
  }

  predicate NoTarget(env: Targets, target: string) { target !in env || env[target].Void? }

  /** A root enters the queue with the first object of its name, and with its type, a single pointer being followed. */
  lemma RootEntryIs(objs: Objects, roots: seq<Root>, env: Targets, r: nat, e: Entry)
    requires r < |roots|
    ensures RootEntry(objs, roots, env, r) == Some(e) <==>
      && e.parameter == r && e.index < |objs| && objs[e.index].name == roots[r].name
      && (forall i :: 0 <= i < e.index ==> objs[i].name != roots[r].name)
      && (if roots[r].ty.Pointer? && roots[r].ty.depth <= 1 then OneLevelOff(env, roots[r].ty, e.ty) else e.ty == roots[r].ty)
  {
    if e.index < |objs| && objs[e.index].name == roots[r].name &&
       forall i :: 0 <= i < e.index ==> objs[i].name != roots[r].name {
      ObjectNamedIs(objs, roots[r].name, e.index);
    }
    var i := ObjectNamed(objs, roots[r].name);
    if i.Some? { ObjectNamedFirst(objs, roots[r].name); }
  }

  lemma {:induction false} ObjectNamedFirst(objs: seq<Object>, name: string)
    requires ObjectNamed(objs, name).Some?
    ensures forall i :: 0 <= i < ObjectNamed(objs, name).value ==> objs[i].name != name
  {
    if objs[0].name != name { ObjectNamedFirst(objs[1..], name); }
  }

  /** What processing the first `n` queue entries has recorded. */
  ghost predicate Recorded(objs: Objects, roots: seq<Root>, done: seq<Entry>, r: Typing)
  {
    && |r.types| == |objs| && |r.lazyParams| == |roots|
    && (forall i :: 0 <= i < |objs| ==> r.types[i].Some? == Queued(done, i))
    && (forall a :: 0 <= a < |done| && done[a].index < |objs| ==> r.types[done[a].index] == Some(done[a].ty))
    && (forall p :: 0 <= p < |roots| ==> r.lazyParams[p] == LazyOf(objs, done, p))
  }

  /** The complete result: the processing order, and what it recorded. */
  ghost predicate Complete(objs: Objects, roots: seq<Root>, env: Targets, order: seq<Entry>, visited: seq<bool>, r: Typing)
  {
    && QueueOk(objs, roots, env, order, visited)
    && Recorded(objs, roots, order, r)
    && (forall a :: 0 <= a < |order| ==> Expanded(objs, env, order, order[a], |objs[order[a].index].links|))
    && (forall a :: 0 <= a < |order| ==> !FailsAt(objs, env, order, a))
    && (forall p :: 0 <= p < |roots| && RootEntry(objs, roots, env, p).Some? ==> RootEntry(objs, roots, env, p).value in order)
  }

  /** Processing one entry: it is typed, and a lazy object becomes a parameter of its root. */
  ghost function RecordOne(objs: Objects, r: Typing, e: Entry): Typing
    requires |r.types| == |objs| && e.index < |objs| && e.parameter < |r.lazyParams|
  {
    Typing(r.types[e.index := Some(e.ty)],
           if objs[e.index].isLazy then r.lazyParams[e.parameter := r.lazyParams[e.parameter] + [e.index]]
           else r.lazyParams)
  }

  lemma QueuedAppend(all: seq<Entry>, e: Entry, i: nat)
    ensures Queued(all + [e], i) == (Queued(all, i) || e.index == i)
  {
    if Queued(all, i) {
      var a :| 0 <= a < |all| && all[a].index == i;
      assert (all + [e])[a].index == i;
    }
    if e.index == i { assert (all + [e])[|all|].index == i; }
  }

  lemma RecordStep(objs: Objects, roots: seq<Root>, before: seq<Entry>, e: Entry, r: Typing)
    requires Recorded(objs, roots, before, r)
    requires e.index < |objs| && e.parameter < |roots| && !Queued(before, e.index)
    ensures Recorded(objs, roots, before + [e], RecordOne(objs, r, e))
  {
    var done, r' := before + [e], RecordOne(objs, r, e);
    forall i | 0 <= i < |objs| ensures r'.types[i].Some? == Queued(done, i) { QueuedAppend(before, e, i); }
    forall a | 0 <= a < |done| && done[a].index < |objs| ensures r'.types[done[a].index] == Some(done[a].ty) {
      if a < |before| { assert Queued(before, before[a].index); }
    }
    assert done[..|done| - 1] == before;
  }

  lemma {:induction false} DistinctBelow(s: seq<nat>, n: nat)
    requires forall a :: 0 <= a < |s| ==> s[a] < n
    requires forall a, b :: 0 <= a < b < |s| ==> s[a] != s[b]
    ensures |s| <= n
  {
    if s != [] {
      assert s[0] < n;
      if k :| 0 <= k < |s| && s[k] == n - 1 {
        var rest := s[..k] + s[k + 1..];
        forall a | 0 <= a < |rest| ensures rest[a] < n - 1 {
          assert rest[a] == if a < k then s[a] else s[a + 1];
        }
        DistinctBelow(rest, n - 1);
      } else {
        DistinctBelow(s, n - 1);
      }
    }
  }

  /** Every object is queued at most once, so the search pops at most as many entries as there are objects. */
  lemma PopsBounded(objs: Objects, roots: seq<Root>, env: Targets, all: seq<Entry>, visited: seq<bool>)
    requires QueueOk(objs, roots, env, all, visited)
    ensures |all| <= |objs|
  {
    DistinctBelow(seq(|all|, a requires 0 <= a < |all| => all[a].index), |objs|);
  }

  /** Appending a justified entry for an unvisited object keeps the queue well-formed. */
  lemma EnqueueKeeps(objs: Objects, roots: seq<Root>, env: Targets, all: seq<Entry>, visited: seq<bool>, e: Entry)
    requires QueueOk(objs, roots, env, all, visited)
    requires e.index < |objs| && e.parameter < |roots| && !visited[e.index]
    requires Justified(objs, roots, env, all, e)
    ensures QueueOk(objs, roots, env, all + [e], visited[e.index := true])
  {
    var all', visited' := all + [e], visited[e.index := true];
    forall i | 0 <= i < |objs| ensures visited'[i] == Queued(all', i) { QueuedAppend(all, e, i); }
    forall a, b | 0 <= a < b < |all'| ensures all'[a].index != all'[b].index {
      if b == |all| { assert Queued(all, all[a].index); }
    }
    JustifiedAppend(objs, roots, env, all, e);
  }

  lemma JustifiedAppend(objs: Objects, roots: seq<Root>, env: Targets, all: seq<Entry>, e: Entry)
    requires forall a :: 0 <= a < |all| ==> all[a].index < |objs| && all[a].parameter < |roots|
    requires forall a :: 0 <= a < |all| ==> Justified(objs, roots, env, all[..a], all[a])
    requires e.index < |objs| && e.parameter < |roots| && Justified(objs, roots, env, all, e)
    ensures forall a :: 0 <= a < |all + [e]| ==> Justified(objs, roots, env, (all + [e])[..a], (all + [e])[a])
  {
    forall a | 0 <= a < |all + [e]| ensures Justified(objs, roots, env, (all + [e])[..a], (all + [e])[a]) {
      assert (all + [e])[..a] == all[..a];
      assert all[..|all|] == all;
    }
  }

  /** All roots found in the test case have entered the queue. */
  ghost predicate RootsQueued(objs: Objects, roots: seq<Root>, env: Targets, all: seq<Entry>, n: nat)
    requires n <= |roots|
  {
    forall p :: 0 <= p < n && RootEntry(objs, roots, env, p).Some? ==> RootEntry(objs, roots, env, p).value in all
  }

  method AddRoots(objs: Objects, roots: seq<Root>, env: Targets) returns (queue: seq<Entry>, visited: seq<bool>)
    requires DistinctNames(roots)
    ensures QueueOk(objs, roots, env, queue, visited)
    ensures RootsQueued(objs, roots, env, queue, |roots|) && FromRoots(objs, roots, env, queue, |roots|)
  {
    queue, visited := [], seq(|objs|, _ => false);
    for r := 0 to |roots|
      invariant QueueOk(objs, roots, env, queue, visited)
      invariant RootsQueued(objs, roots, env, queue, r) && FromRoots(objs, roots, env, queue, r)
    {
      var i := FindObject(objs, roots[r].name);
      if i.Some? {
        var e := Entry(i.value, RootType(roots[r].ty, env), r);
        RootIsNew(objs, roots, env, queue, r, i.value);
        RootStep(objs, roots, env, queue, visited, r, e);
        visited := visited[i.value := true];
        queue := queue + [e];
      }
    }
  }

  /** The queue holds entries of the first `n` roots only. */
  ghost predicate FromRoots(objs: Objects, roots: seq<Root>, env: Targets, queue: seq<Entry>, n: nat)
    requires n <= |roots|
  {
    forall a :: 0 <= a < |queue| ==>
      queue[a].parameter < n && RootEntry(objs, roots, env, queue[a].parameter) == Some(queue[a])
  }

  lemma RootStep(objs: Objects, roots: seq<Root>, env: Targets, queue: seq<Entry>, visited: seq<bool>, r: nat, e: Entry)
    requires r < |roots| && QueueOk(objs, roots, env, queue, visited)
    requires RootsQueued(objs, roots, env, queue, r) && FromRoots(objs, roots, env, queue, r)
    requires e.parameter == r && RootEntry(objs, roots, env, r) == Some(e) && !Queued(queue, e.index)
    ensures QueueOk(objs, roots, env, queue + [e], visited[e.index := true])
    ensures RootsQueued(objs, roots, env, queue + [e], r + 1) && FromRoots(objs, roots, env, queue + [e], r + 1)
  {
    EnqueueKeeps(objs, roots, env, queue, visited, e);
    RootQueued(objs, roots, env, queue, r, e);
  }

  lemma RootQueued(objs: Objects, roots: seq<Root>, env: Targets, queue: seq<Entry>, r: nat, e: Entry)
    requires r < |roots| && RootsQueued(objs, roots, env, queue, r) && FromRoots(objs, roots, env, queue, r)
    requires e.parameter == r && RootEntry(objs, roots, env, r) == Some(e)
    ensures RootsQueued(objs, roots, env, queue + [e], r + 1) && FromRoots(objs, roots, env, queue + [e], r + 1)
  {
    assert forall x :: x in queue ==> x in queue + [e];
    assert e in queue + [e];
  }

  lemma RootIsNew(objs: Objects, roots: seq<Root>, env: Targets, queue: seq<Entry>, r: nat, i: nat)
    requires DistinctNames(roots) && r < |roots| && i < |objs| && objs[i].name == roots[r].name
    requires FromRoots(objs, roots, env, queue, r)
    ensures !Queued(queue, i)
  {
    forall a | 0 <= a < |queue| ensures queue[a].index != i {
      assert roots[queue[a].parameter].name != roots[r].name;
    }
  }

  /** The search state while the last of `done` is processed: the queue holds what comes after it. */
  ghost predicate State(objs: Objects, roots: seq<Root>, env: Targets, done: seq<Entry>,
                        queue: seq<Entry>, seen: seq<bool>, usages: seq<Usage>, all: seq<Entry>)
  {
    && QueueOk(objs, roots, env, all, seen)
    && done != [] && done <= all && all[|done|..] == queue
    && UsagesAre(objs, usages, done)
  }

  ghost predicate UsagesAre(objs: Objects, usages: seq<Usage>, done: seq<Entry>)
  {
    |usages| == |objs| && forall i :: 0 <= i < |objs| ==> usages[i] == UsageOf(objs, done, i)
  }

  lemma EnqueueState(objs: Objects, roots: seq<Root>, env: Targets, done: seq<Entry>,
                     queue: seq<Entry>, seen: seq<bool>, usages: seq<Usage>, all: seq<Entry>, e: Entry, k: nat)
    requires State(objs, roots, env, done, queue, seen, usages, all)
    requires e.index < |objs| && e.parameter < |roots| && !seen[e.index] && LeadsTo(objs, env, all, |done| - 1, k, e)
    ensures State(objs, roots, env, done, queue + [e], seen[e.index := true], usages[e.index := PARAMETER], all + [e])
    ensures usages[e.index] == PARAMETER
  {
    EnqueueKeeps(objs, roots, env, all, seen, e);
    assert (all + [e])[|done|..] == all[|done|..] + [e];
    NotSeenNotDone(done, all, e.index);
  }

  lemma NotSeenNotDone(done: seq<Entry>, all: seq<Entry>, i: nat)
    requires done <= all && !Queued(all, i)
    ensures !Queued(done, i)
  {
    forall a | 0 <= a < |done| ensures done[a].index != i { assert all[a] == done[a]; }
  }

  /** Follows pointer `k` of the last of `done`; false when a type cannot be resolved. */
  method Consider(objs: Objects, roots: seq<Root>, env: Targets, cur: Entry, k: nat, queue0: seq<Entry>, seen0: seq<bool>,
                  usages0: seq<Usage>, ghost done: seq<Entry>, ghost all0: seq<Entry>)
    returns (ok: bool, queue: seq<Entry>, seen: seq<bool>, usages: seq<Usage>, ghost all: seq<Entry>)
    requires State(objs, roots, env, done, queue0, seen0, usages0, all0) && cur == done[|done| - 1]
    requires k < |objs[cur.index].links|
    ensures State(objs, roots, env, done, queue, seen, usages, all) && all0 <= all
    ensures ok && Accepts(objs, env, cur, k) ==> Queued(all, objs[cur.index].links[k].index)
    ensures ok == !ThrowsOn(objs, env, done, cur, k)
  {
    ok, queue, seen, usages, all := true, queue0, seen0, usages0, all0;
    assert all0[|done| - 1] == cur;
    var link := objs[cur.index].links[k];
    var outcome := Follow(objs, cur.ty, link, usages[link.index], env);
    FollowIs(objs, cur.ty, link, usages[link.index], env);
    assert outcome.Throws? == ThrowsOn(objs, env, done, cur, k);
    if seen[link.index] {
      ok := !outcome.Throws?;
    } else {
      NotSeenNotDone(done, all, link.index);
      if outcome.Throws? {
        ok := false;
      } else if outcome.Leads? {
        var e := Entry(link.index, outcome.ty, cur.parameter);
        EnqueueState(objs, roots, env, done, queue, seen, usages, all, e, k);
        QueuedAppend(all, e, link.index);
        queue := queue + [e];
        all := all + [e];
        seen := seen[link.index := true];
        usages := usages[link.index := PARAMETER];
      }
    }
  }

  /** Queues the unvisited objects that the accepted pointers of `cur` lead to; false when a type cannot be resolved. */
  method Expand(objs: Objects, roots: seq<Root>, env: Targets, cur: Entry, queue0: seq<Entry>, seen0: seq<bool>,
                usages0: seq<Usage>, ghost done: seq<Entry>, ghost all0: seq<Entry>)
    returns (ok: bool, queue: seq<Entry>, seen: seq<bool>, usages: seq<Usage>, ghost all: seq<Entry>)
    requires State(objs, roots, env, done, queue0, seen0, usages0, all0) && cur == done[|done| - 1]
    requires Shown(objs, env, cur)
    ensures State(objs, roots, env, done, queue, seen, usages, all) && all0 <= all
    ensures ok ==> Expanded(objs, env, all, cur, |objs[cur.index].links|)
    ensures ok == !Fails(objs, env, done)
  {
    ok, queue, seen, usages, all := true, queue0, seen0, usages0, all0;
    assert all0[|done| - 1] == cur;
    var n := |objs[cur.index].links|;
    for k := 0 to n
      invariant State(objs, roots, env, done, queue, seen, usages, all) && all0 <= all && ok
      invariant Expanded(objs, env, all, cur, k) && Passes(objs, env, done, k)
    {
      ghost var was := all;
      ok, queue, seen, usages, all := Consider(objs, roots, env, cur, k, queue, seen, usages, done, all);
      if !ok {
        return;
      }
      ExpandedLonger(objs, env, was, all, cur, k);
      ExpandedNext(objs, env, all, cur, k);
    }
  }

  lemma ExpandedNext(objs: Objects, env: Targets, all: seq<Entry>, e: Entry, n: nat)
    requires e.index < |objs| && n < |objs[e.index].links| && Expanded(objs, env, all, e, n)
    requires Accepts(objs, env, e, n) ==> Queued(all, objs[e.index].links[n].index)
    ensures Expanded(objs, env, all, e, n + 1)
  {
  }

  lemma ExpandedLonger(objs: Objects, env: Targets, all: seq<Entry>, all': seq<Entry>, e: Entry, n: nat)
    requires e.index < |objs| && all <= all' && Expanded(objs, env, all, e, n)
    ensures Expanded(objs, env, all', e, n)
  {
    forall i: nat | Queued(all, i) ensures Queued(all', i) {
      var a :| 0 <= a < |all| && all[a].index == i;
      assert all'[a].index == i;
    }
  }

  /** The first `n` entries have been expanded. */
  ghost predicate ExpandedUpTo(objs: Objects, env: Targets, all: seq<Entry>, n: nat)
    requires n <= |all|
  {
    forall a :: 0 <= a < n ==> all[a].index < |objs| && Expanded(objs, env, all, all[a], |objs[all[a].index].links|)
  }

  ghost predicate PassedUpTo(objs: Objects, env: Targets, all: seq<Entry>, n: nat)
    requires n <= |all|
  {
    forall a :: 0 <= a < n ==> all[a].index < |objs| && !FailsAt(objs, env, all, a)
  }

  lemma PassedOneMore(objs: Objects, env: Targets, all: seq<Entry>, all': seq<Entry>, n: nat)
    requires n < |all| && all <= all' && PassedUpTo(objs, env, all, n)
    requires all[n].index < |objs| && !FailsAt(objs, env, all, n)
    ensures PassedUpTo(objs, env, all', n + 1)
  {
    forall a | 0 <= a < n + 1 ensures all'[a].index < |objs| && !FailsAt(objs, env, all', a) {
      assert all'[..a + 1] == all[..a + 1];
    }
  }

  lemma ExpandedOneMore(objs: Objects, env: Targets, all: seq<Entry>, all': seq<Entry>, n: nat)
    requires n < |all| && all <= all' && ExpandedUpTo(objs, env, all, n)
    requires all[n].index < |objs| && Expanded(objs, env, all', all[n], |objs[all[n].index].links|)
    ensures ExpandedUpTo(objs, env, all', n + 1)
  {
    forall a | 0 <= a < n + 1
      ensures all'[a].index < |objs| && Expanded(objs, env, all', all'[a], |objs[all'[a].index].links|)
    {
      assert all'[a] == all[a];
      if a < n { ExpandedLonger(objs, env, all, all', all[a], |objs[all[a].index].links|); }
    }
  }

  /** Types the object at the front of the queue; false when a lazy object cannot be shown. */
  method Process(objs: Objects, roots: seq<Root>, env: Targets, cur: Entry, types0: seq<Option<Type>>,
                 lazyParams0: seq<seq<nat>>, usages0: seq<Usage>)
    returns (ok: bool, types: seq<Option<Type>>, lazyParams: seq<seq<nat>>, usages: seq<Usage>)
    requires |types0| == |usages0| == |objs| && |lazyParams0| == |roots|
    requires cur.index < |objs| && cur.parameter < |roots|
    ensures ok == Shown(objs, env, cur)
    ensures ok ==> Typing(types, lazyParams) == RecordOne(objs, Typing(types0, lazyParams0), cur)
    ensures usages == if ok && objs[cur.index].isLazy then usages0[cur.index := LAZY] else usages0
  {
    ok, usages, lazyParams := true, usages0, lazyParams0;
    types := types0[cur.index := Some(cur.ty)];
    if objs[cur.index].isLazy {
      if Base(cur.ty, env).Void? || !objs[cur.index].viewable {
        ok := false;
        return;
      }
      usages := usages[cur.index := LAZY];
      lazyParams := lazyParams[cur.parameter := lazyParams[cur.parameter] + [cur.index]];
    }
  }

  /** Between two rounds: `order` has been processed and recorded, `queue` is still to come. */
  ghost predicate Progress(objs: Objects, roots: seq<Root>, env: Targets, order: seq<Entry>, queue: seq<Entry>,
                           seen: seq<bool>, usages: seq<Usage>, r: Typing, all: seq<Entry>)
  {
    && |order| <= |all| && order == all[..|order|] && queue == all[|order|..]
    && QueueOk(objs, roots, env, all, seen) && UsagesAre(objs, usages, order)
    && Recorded(objs, roots, order, r)
    && ExpandedUpTo(objs, env, all, |order|) && PassedUpTo(objs, env, all, |order|)
    && RootsQueued(objs, roots, env, all, |roots|)
  }

  /** One round: the entry at the front of the queue is typed and its pointers are followed. */
  method Round(objs: Objects, roots: seq<Root>, env: Targets, queue0: seq<Entry>, seen0: seq<bool>, usages0: seq<Usage>,
               types0: seq<Option<Type>>, lazyParams0: seq<seq<nat>>, ghost order: seq<Entry>, ghost all0: seq<Entry>)
    returns (ok: bool, queue: seq<Entry>, seen: seq<bool>, usages: seq<Usage>,
             types: seq<Option<Type>>, lazyParams: seq<seq<nat>>, ghost all: seq<Entry>)
    requires Progress(objs, roots, env, order, queue0, seen0, usages0, Typing(types0, lazyParams0), all0)
    requires queue0 != []
    ensures |order| < |objs|
    ensures ok ==> Progress(objs, roots, env, order + [queue0[0]], queue, seen, usages, Typing(types, lazyParams), all)
    ensures ok == !Fails(objs, env, order + [queue0[0]])
  {
    var cur := queue0[0];
    ghost var done := order + [cur];
    RoundStarts(objs, roots, env, order, queue0, seen0, usages0, Typing(types0, lazyParams0), all0);
    queue, seen, all := queue0[1..], seen0, all0;
    ok, types, lazyParams, usages := Process(objs, roots, env, cur, types0, lazyParams0, usages0);
    if !ok {
      return;
    }
    ok, queue, seen, usages, all := Expand(objs, roots, env, cur, queue, seen, usages, done, all);
    if !ok {
      return;
    }
    RoundDone(objs, roots, env, order, cur, all0, queue, seen, usages, Typing(types, lazyParams), all);
  }

  /** What the round finds at its start. */
  lemma RoundStarts(objs: Objects, roots: seq<Root>, env: Targets, order: seq<Entry>, queue: seq<Entry>, seen: seq<bool>,
                    usages: seq<Usage>, r: Typing, all: seq<Entry>)
    requires Progress(objs, roots, env, order, queue, seen, usages, r, all) && queue != []
    ensures |order| < |objs| && queue[0].index < |objs| && queue[0].parameter < |roots|
    ensures |usages| == |objs| && |r.types| == |objs| && |r.lazyParams| == |roots|
    ensures var used := if objs[queue[0].index].isLazy then usages[queue[0].index := LAZY] else usages;
      State(objs, roots, env, order + [queue[0]], queue[1..], seen, used, all)
    ensures Recorded(objs, roots, order + [queue[0]], RecordOne(objs, r, queue[0]))
  {
    PopsBounded(objs, roots, env, all, seen);
    PopStep(objs, roots, env, all, seen, order, r);
    UsagesStep(objs, usages, order, queue[0]);
  }

  lemma UsagesStep(objs: Objects, usages: seq<Usage>, order: seq<Entry>, cur: Entry)
    requires UsagesAre(objs, usages, order) && cur.index < |objs|
    ensures UsagesAre(objs, if objs[cur.index].isLazy then usages[cur.index := LAZY] else usages, order + [cur])
  {
    forall i: nat | i < |objs| ensures Queued(order + [cur], i) == (Queued(order, i) || cur.index == i) {
      QueuedAppend(order, cur, i);
    }
  }

  /** What the round leaves at its end. */
  lemma RoundDone(objs: Objects, roots: seq<Root>, env: Targets, order: seq<Entry>, cur: Entry, all0: seq<Entry>,
                  queue: seq<Entry>, seen: seq<bool>, usages: seq<Usage>, r: Typing, all: seq<Entry>)
    requires |order| < |all0| && order == all0[..|order|] && all0 <= all
    requires all0[|order|] == cur
    requires ExpandedUpTo(objs, env, all0, |order|) && PassedUpTo(objs, env, all0, |order|)
    requires RootsQueued(objs, roots, env, all0, |roots|)
    requires State(objs, roots, env, order + [cur], queue, seen, usages, all)
    requires cur.index < |objs| && Expanded(objs, env, all, cur, |objs[cur.index].links|)
    requires !Fails(objs, env, order + [cur])
    requires Recorded(objs, roots, order + [cur], r)
    ensures Progress(objs, roots, env, order + [cur], queue, seen, usages, r, all)
  {
    OneMoreProcessed(objs, env, order, cur, all0, all);
    assert all0[..|order| + 1] == order + [cur];
    PassedOneMore(objs, env, all0, all, |order|);
    RootsStayQueued(objs, roots, env, all0, all);
  }

  lemma OneMoreProcessed(objs: Objects, env: Targets, order: seq<Entry>, cur: Entry, all0: seq<Entry>, all: seq<Entry>)
    requires |order| < |all0| && order == all0[..|order|] && all0 <= all && all[|order|] == cur && cur.index < |objs|
    requires ExpandedUpTo(objs, env, all0, |order|) && Expanded(objs, env, all, cur, |objs[cur.index].links|)
    ensures ExpandedUpTo(objs, env, all, |order| + 1) && order + [cur] == all[..|order| + 1]
  {
    ExpandedOneMore(objs, env, all0, all, |order|);
    assert all[..|order|] == order;
  }

  /**
   The search. `None` stands for an exception, after which the test case is skipped. It ends within
   |objs| rounds, each of which processes one more object.
   */
  method AssignTypes(objs: Objects, roots: seq<Root>, env: Targets) returns (result: Option<Typing>)
    requires DistinctNames(roots)
    ensures result.Some? ==> exists order, visited :: Complete(objs, roots, env, order, visited, result.value)
    ensures result.None? ==> exists order :: |order| <= |objs| && FailsAfter(objs, roots, env, order)
  {
    var queue, seen := AddRoots(objs, roots, env);
    var usages := seq(|objs|, _ => PARAMETER);
    var types: seq<Option<Type>> := seq(|objs|, _ => None);
    var lazyParams: seq<seq<nat>> := seq(|roots|, _ => []);
    ghost var all, order: seq<Entry> := queue, [];
    while queue != []
      invariant Progress(objs, roots, env, order, queue, seen, usages, Typing(types, lazyParams), all)
      invariant |order| <= |objs|
      decreases |objs| - |order|
    {
      var ok;
      ghost var done := order + [queue[0]];
      FailsIfStopped(objs, roots, env, order, queue, seen, usages, Typing(types, lazyParams), all);
      ok, queue, seen, usages, types, lazyParams, all :=
        Round(objs, roots, env, queue, seen, usages, types, lazyParams, order, all);
      if !ok {
        return None;
      }
      order := done;
    }
    CompleteAtEnd(objs, roots, env, order, seen, usages, Typing(types, lazyParams), all);
    result := Some(Typing(types, lazyParams));
  }

  lemma CompleteAtEnd(objs: Objects, roots: seq<Root>, env: Targets, order: seq<Entry>, seen: seq<bool>,
                      usages: seq<Usage>, r: Typing, all: seq<Entry>)
    requires Progress(objs, roots, env, order, [], seen, usages, r, all)
    ensures Complete(objs, roots, env, order, seen, r)
  {
    assert all == order;
  }

  lemma FailsIfStopped(objs: Objects, roots: seq<Root>, env: Targets, order: seq<Entry>, queue: seq<Entry>,
                       seen: seq<bool>, usages: seq<Usage>, r: Typing, all: seq<Entry>)
    requires Progress(objs, roots, env, order, queue, seen, usages, r, all) && queue != []
    ensures queue[0].index < |objs|
    ensures Fails(objs, env, order + [queue[0]]) ==> FailsAfter(objs, roots, env, order + [queue[0]])
  {
    var done := order + [queue[0]];
    assert queue[0] == all[|order|] && done == all[..|order| + 1];
    JustifiedOrder(objs, roots, env, done, all, seen);
    PassedPrefix(objs, env, all, done);
  }

  lemma PassedPrefix(objs: Objects, env: Targets, all: seq<Entry>, done: seq<Entry>)
    requires done != [] && done <= all && PassedUpTo(objs, env, all, |done| - 1)
    ensures PassedUpTo(objs, env, done, |done| - 1)
  {
    forall a | 0 <= a < |done| - 1 ensures done[a].index < |objs| && !FailsAt(objs, env, done, a) {
      assert done[..a + 1] == all[..a + 1];
    }
  }

  /** The search got to a justified entry whose processing throws, and processed all entries before it. */
  ghost predicate FailsAfter(objs: Objects, roots: seq<Root>, env: Targets, order: seq<Entry>)
  {
    && order != [] && order[|order| - 1].index < |objs|
    && (forall a :: 0 <= a < |order| ==> Justified(objs, roots, env, order[..a], order[a]))
    && PassedUpTo(objs, env, order, |order| - 1)
    && Fails(objs, env, order)
  }

  /** Processed entries are justified by processed entries. */
  lemma JustifiedOrder(objs: Objects, roots: seq<Root>, env: Targets, order: seq<Entry>, all: seq<Entry>, seen: seq<bool>)
    requires order <= all && QueueOk(objs, roots, env, all, seen)
    ensures forall a :: 0 <= a < |order| ==> Justified(objs, roots, env, order[..a], order[a])
  {
    forall a | 0 <= a < |order| ensures Justified(objs, roots, env, order[..a], order[a]) {
      assert order[..a] == all[..a];
    }
  }

  lemma RootsStayQueued(objs: Objects, roots: seq<Root>, env: Targets, all: seq<Entry>, all': seq<Entry>)
    requires all <= all' && RootsQueued(objs, roots, env, all, |roots|)
    ensures RootsQueued(objs, roots, env, all', |roots|)
  {
    forall e | e in all ensures e in all' {
      var a :| 0 <= a < |all| && all[a] == e;
      assert all'[a] == e;
    }
  }

  /** The entry at the front of the queue has not been processed before. */
  lemma PopStep(objs: Objects, roots: seq<Root>, env: Targets, all: seq<Entry>, seen: seq<bool>, order: seq<Entry>, r: Typing)
    requires QueueOk(objs, roots, env, all, seen) && |order| < |all| && order == all[..|order|]
    requires Recorded(objs, roots, order, r)
    ensures Recorded(objs, roots, order + [all[|order|]], RecordOne(objs, r, all[|order|]))
    ensures seen[all[|order|].index]
    ensures all[|order|..][1..] == all[|order| + 1..]
  {
    var e := all[|order|];
    assert Queued(all, e.index);
    NotYetProcessed(all, |order|);
    RecordStep(objs, roots, order, e, r);
  }

  lemma NotYetProcessed(all: seq<Entry>, n: nat)
    requires n < |all| && forall a, b :: 0 <= a < b < |all| ==> all[a].index != all[b].index
    ensures !Queued(all[..n], all[n].index)
  {
  }

  // ---- what a completed search means

  /** Typed object `i` has an accepted pointer `k`. */
  ghost predicate LinksOn(objs: Objects, env: Targets, r: Typing, i: nat, k: nat)
    requires i < |objs| && i < |r.types| && k < |objs[i].links|
  {
    r.types[i].Some? && Accepts(objs, env, Entry(i, r.types[i].value, 0), k)
  }

  /** A set of objects that contains the roots and is closed under the accepted pointers of the assigned types. */
  ghost predicate ClosedSet(objs: Objects, roots: seq<Root>, env: Targets, r: Typing, s: set<nat>)
  {
    && (forall p :: 0 <= p < |roots| && RootEntry(objs, roots, env, p).Some? ==> RootEntry(objs, roots, env, p).value.index in s)
    && (forall i, k :: i in s && i < |objs| && i < |r.types| && 0 <= k < |objs[i].links| && LinksOn(objs, env, r, i, k) ==>
          objs[i].links[k].index in s)
  }

  ghost function TypedSet(r: Typing): set<nat>
  {
    set i: nat | i < |r.types| && r.types[i].Some?
  }

  /** The typed objects are the least set with the roots that is closed under accepted pointers. */
  lemma TypedIsLeastClosedSet(objs: Objects, roots: seq<Root>, env: Targets, order: seq<Entry>, visited: seq<bool>,
                              r: Typing, s: set<nat>)
    requires Complete(objs, roots, env, order, visited, r)
    ensures ClosedSet(objs, roots, env, r, TypedSet(r))
    ensures ClosedSet(objs, roots, env, r, s) ==> TypedSet(r) <= s
  {
    forall i, k | i in TypedSet(r) && 0 <= k < |objs[i].links| && LinksOn(objs, env, r, i, k)
      ensures objs[i].links[k].index in TypedSet(r)
    {
      var a :| 0 <= a < |order| && order[a].index == i;
      assert Expanded(objs, env, order, order[a], |objs[i].links|);
      assert Accepts(objs, env, order[a], k);
    }
    forall p | 0 <= p < |roots| && RootEntry(objs, roots, env, p).Some?
      ensures RootEntry(objs, roots, env, p).value.index in TypedSet(r)
    {
      var e := RootEntry(objs, roots, env, p).value;
      var a :| 0 <= a < |order| && order[a] == e;
      assert Queued(order, e.index);
    }
    if ClosedSet(objs, roots, env, r, s) {
      forall i | i in TypedSet(r) ensures i in s {
        var a :| 0 <= a < |order| && order[a].index == i;
        ReachedInClosed(objs, roots, env, order, visited, r, s, a);
      }
    }
  }

  lemma {:induction false} ReachedInClosed(objs: Objects, roots: seq<Root>, env: Targets, order: seq<Entry>,
                                           visited: seq<bool>, r: Typing, s: set<nat>, a: nat)
    requires Complete(objs, roots, env, order, visited, r) && ClosedSet(objs, roots, env, r, s) && a < |order|
    ensures order[a].index in s
    decreases a
  {
    var e := order[a];
    assert Justified(objs, roots, env, order[..a], e);
    if b: nat, k: nat :| LeadsTo(objs, env, order[..a], b, k, e) {
      ReachedInClosed(objs, roots, env, order, visited, r, s, b);
      assert r.types[order[b].index] == Some(order[b].ty);
    } else {
      assert RootEntry(objs, roots, env, e.parameter) == Some(e);
    }
  }

  /** Every type comes from a root or from a typed object with a matching pointer. */
  lemma TypesComeFromPointers(objs: Objects, roots: seq<Root>, env: Targets, order: seq<Entry>, visited: seq<bool>,
                              r: Typing, i: nat)
    requires Complete(objs, roots, env, order, visited, r) && i in TypedSet(r)
    ensures
      || (exists p :: 0 <= p < |roots| && RootEntry(objs, roots, env, p) == Some(Entry(i, r.types[i].value, p)))
      || (exists j: nat, k: nat :: j in TypedSet(r) && k < |objs[j].links| && objs[j].links[k].index == i
            && PointsTo(objs, env, r.types[j].value, objs[j].links[k], PARAMETER, r.types[i].value))
  {
    var a :| 0 <= a < |order| && order[a].index == i;
    var e := order[a];
    assert Justified(objs, roots, env, order[..a], e);
    if b: nat, k: nat :| LeadsTo(objs, env, order[..a], b, k, e) {
      var j := order[b].index;
      assert r.types[j] == Some(order[b].ty) && j in TypedSet(r);
    }
  }

  /** Object `i` was processed for root `p`. */
  ghost predicate DoneFor(done: seq<Entry>, p: nat, i: nat)
  {
    exists a :: 0 <= a < |done| && done[a].index == i && done[a].parameter == p
  }

  lemma DoneForAppend(done: seq<Entry>, e: Entry, p: nat, i: nat)
    ensures DoneFor(done + [e], p, i) == (DoneFor(done, p, i) || (e.index == i && e.parameter == p))
  {
    var d := done + [e];
    if DoneFor(done, p, i) {
      var a :| 0 <= a < |done| && done[a].index == i && done[a].parameter == p;
      assert d[a] == done[a];
    }
    assert d[|done|] == e;
  }

  lemma {:induction false} LazyOfCounts(objs: Objects, done: seq<Entry>, p: nat, i: nat)
    requires forall a, b :: 0 <= a < b < |done| ==> done[a].index != done[b].index
    ensures multiset(LazyOf(objs, done, p))[i] ==
            if i < |objs| && objs[i].isLazy && DoneFor(done, p, i) then 1 else 0
  {
    if done != [] {
      var n := |done| - 1;
      var rest, last := done[..n], done[n];
      LazyOfCounts(objs, rest, p, i);
      DoneForAppend(rest, last, p, i);
      assert rest + [last] == done;
      if last.index == i { assert !DoneFor(rest, p, i); }
      assert multiset(LazyOf(objs, rest, p) + [last.index]) == multiset(LazyOf(objs, rest, p)) + multiset{last.index};
    }
  }

  lemma DoneForUnique(done: seq<Entry>, p: nat, q: nat, i: nat)
    requires forall a, b :: 0 <= a < b < |done| ==> done[a].index != done[b].index
    requires DoneFor(done, p, i) && DoneFor(done, q, i)
    ensures p == q
  {
    var a :| 0 <= a < |done| && done[a].index == i && done[a].parameter == p;
    var b :| 0 <= b < |done| && done[b].index == i && done[b].parameter == q;
  }

  /** The lazy parameters of root `p` are the lazy objects processed for it, each once. */
  lemma LazyParameterOf(objs: Objects, roots: seq<Root>, order: seq<Entry>, r: Typing, p: nat, i: nat)
    requires forall a, b :: 0 <= a < b < |order| ==> order[a].index != order[b].index
    requires Recorded(objs, roots, order, r) && p < |roots|
    ensures multiset(r.lazyParams[p])[i] <= 1
    ensures i in r.lazyParams[p] <==> (i < |objs| && objs[i].isLazy && DoneFor(order, p, i))
  {
    LazyOfCounts(objs, order, p, i);
    assert i in r.lazyParams[p] <==> i in multiset(r.lazyParams[p]);
  }

  /** Each typed lazy object is a lazy parameter of exactly one root, once; nothing else is. */
  lemma LazyParametersExact(objs: Objects, roots: seq<Root>, env: Targets, order: seq<Entry>, visited: seq<bool>,
                            r: Typing, i: nat)
    requires Complete(objs, roots, env, order, visited, r)
    ensures forall p :: 0 <= p < |roots| ==> multiset(r.lazyParams[p])[i] <= 1
    ensures (exists p :: 0 <= p < |roots| && i in r.lazyParams[p]) <==>
            (i in TypedSet(r) && objs[i].isLazy)
    ensures forall p, q :: 0 <= p < |roots| && 0 <= q < |roots| && i in r.lazyParams[p] && i in r.lazyParams[q] ==> p == q
  {
    forall p | 0 <= p < |roots|
      ensures multiset(r.lazyParams[p])[i] <= 1
      ensures i in r.lazyParams[p] <==> (i < |objs| && objs[i].isLazy && DoneFor(order, p, i))
    {
      LazyParameterOf(objs, roots, order, r, p, i);
    }
    forall p, q | 0 <= p < |roots| && 0 <= q < |roots| && i in r.lazyParams[p] && i in r.lazyParams[q]
      ensures p == q
    {
      DoneForUnique(order, p, q, i);
    }
    if i in TypedSet(r) && objs[i].isLazy {
      var a :| 0 <= a < |order| && order[a].index == i;
      assert DoneFor(order, order[a].parameter, i);
    } else {
      forall p | 0 <= p < |roots| ensures i !in r.lazyParams[p] {
        if DoneFor(order, p, i) { assert Queued(order, i); }
      }
    }
  }
}
