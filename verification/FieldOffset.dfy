/** Types as the lazy-object search sees them; sizes and offsets are in bits. */
module ObjectTypes {
  import opened Wrappers

  /** Pointers name their target, so that recursive structs are finite values. */
  datatype Type =
    | Prim(size: nat)
    | Void
    | Struct(size: nat, fields: seq<Field>)
    | Pointer(depth: nat, target: string)
    | Other(size: nat)

  datatype Field = Field(ty: Type, offset: nat)

  const POINTER_SIZE: nat := 64

  /** The size of a value; asking for the size of `void` throws. */
  function TypeSize(t: Type): Option<nat>
  {
    match t
    case Prim(size) => Some(size)
    case Void => None
    case Struct(size, _) => Some(size)
    case Pointer(_, _) => Some(POINTER_SIZE)
    case Other(size) => Some(size)
  }
}

/** Resolving a bit offset inside nested structs to the scalar member it falls in. */
module FieldOffset {
  import opened ObjectTypes
  import opened Wrappers

  /** Offsets and sizes are unsigned 64-bit integers. */
  const SIZE_LIMIT: nat := 0x1_0000_0000_0000_0000

  ghost predicate Sorted(fields: seq<Field>)
  {
    forall i, j :: 0 <= i < j < |fields| ==> fields[i].offset <= fields[j].offset
  }

  /** The comparison takes its offset as a 32-bit signed integer and widens it back to 64 bits. */
  function Narrowed(offset: nat): nat
  {
    var low := offset % 0x1_0000_0000;
    if low < 0x8000_0000 then low else 0xFFFF_FFFF_0000_0000 + low
  }

  /** Binary search for the first field that starts beyond `offset`. */
  method UpperBound(fields: seq<Field>, offset: nat) returns (first: nat)
    requires Sorted(fields)
    ensures first <= |fields|
    ensures forall i :: 0 <= i < first ==> fields[i].offset <= Narrowed(offset)
    ensures forall i :: first <= i < |fields| ==> Narrowed(offset) < fields[i].offset
  {
    first := 0;
    var len := |fields|;
    while len > 0
      invariant 0 <= len && first + len <= |fields|
      invariant forall i :: 0 <= i < first ==> fields[i].offset <= Narrowed(offset)
      invariant forall i :: first + len <= i < |fields| ==> Narrowed(offset) < fields[i].offset
    {
      var half := len / 2;
      var middle := first + half;
      if Narrowed(offset) < fields[middle].offset {
        len := half;
      } else {
        first := middle + 1;
        len := len - half - 1;
      }
    }
  }

  /** Index of the last field that starts at or before `offset`, found front to back. */
  function LastAtOrBefore(fields: seq<Field>, offset: nat): (r: Option<nat>)
    ensures r.Some? ==> r.value < |fields| && fields[r.value].offset <= offset
    ensures r.Some? ==> forall i :: r.value < i < |fields| ==> offset < fields[i].offset
    ensures r.None? ==> forall i :: 0 <= i < |fields| ==> offset < fields[i].offset
  {
    if fields == [] then None
    else
      var last := |fields| - 1;
      if fields[last].offset <= offset then Some(last) else LastAtOrBefore(fields[..last], offset)
  }

  /** `None` stands for the exception thrown on a wrong offset. */
  method FindFieldIndex(fields: seq<Field>, offset: nat) returns (r: Option<nat>)
    requires Sorted(fields)
    ensures r == LastAtOrBefore(fields, Narrowed(offset))
  {
    var indField := UpperBound(fields, offset);
    ghost var spec := LastAtOrBefore(fields, Narrowed(offset));
    assert indField > 0 ==> fields[indField - 1].offset <= Narrowed(offset);
    assert spec.Some? ==> fields[spec.value].offset <= Narrowed(offset);
    if indField == 0 {
      return None;
    }
    r := Some(indField - 1);
  }

  /** Unsigned 64-bit subtraction. */
  function Minus(a: nat, b: nat): nat
  {
    (a - b) % SIZE_LIMIT
  }

  /** The member a traversal ends in, the bits left over, and the field indices on the way. */
  datatype Member = Member(ty: Type, residual: nat, path: seq<nat>)

  /** A member of field `i` as a member of the struct. */
  function Through(i: nat, inner: Option<Member>): Option<Member>
  {
    if inner.None? then None else Some(inner.value.(path := [i] + inner.value.path))
  }

  /** `None` stands for an exception: a wrong offset, or a type the search does not support. */
  function Traverse(t: Type, offset: nat): Option<Member>
  {
    match t
    case Struct(_, fields) =>
      var found := LastAtOrBefore(fields, Narrowed(offset));
      if found.None? then None
      else
        var f := fields[found.value];
        Through(found.value, Traverse(f.ty, Minus(offset, f.offset)))
    case Other(_) => None
    case _ => Some(Member(t, offset, []))
  }

  // ---- access paths

  ghost predicate IsPath(t: Type, path: seq<nat>)
    decreases |path|
  {
    path == [] ||
    (t.Struct? && path[0] < |t.fields| && IsPath(t.fields[path[0]].ty, path[1..]))
  }

  ghost function TypeAt(t: Type, path: seq<nat>): Type
    requires IsPath(t, path)
    decreases |path|
  {
    if path == [] then t else TypeAt(t.fields[path[0]].ty, path[1..])
  }

  /** The sum of the field offsets along a path. */
  ghost function PathOffset(t: Type, path: seq<nat>): nat
    requires IsPath(t, path)
    decreases |path|
  {
    if path == [] then 0 else t.fields[path[0]].offset + PathOffset(t.fields[path[0]].ty, path[1..])
  }

  predicate IsScalar(t: Type) { t.Prim? || t.Void? || t.Pointer? }

  /** No field picked on the way of the traversal starts beyond the offset that is left there. */
  ghost predicate NeverBeyond(t: Type, offset: nat)
  {
    t.Struct? && LastAtOrBefore(t.fields, Narrowed(offset)).Some? ==>
      var f := t.fields[LastAtOrBefore(t.fields, Narrowed(offset)).value];
      f.offset <= offset && NeverBeyond(f.ty, Minus(offset, f.offset))
  }

  /**
   A successful traversal ends in a scalar no deeper than the nesting. It conserves the offset modulo
   2^64, and outright exactly when no field it picks starts beyond the offset.
   */
  lemma {:induction false} TraverseConserves(t: Type, offset: nat)
    requires Traverse(t, offset).Some? && offset < SIZE_LIMIT
    ensures var m := Traverse(t, offset).value;
      && IsPath(t, m.path) && TypeAt(t, m.path) == m.ty && IsScalar(m.ty)
      && |m.path| <= Depth(t)
      && (PathOffset(t, m.path) + m.residual - offset) % SIZE_LIMIT == 0
      && (PathOffset(t, m.path) + m.residual == offset <==> NeverBeyond(t, offset))
      && offset <= PathOffset(t, m.path) + m.residual
  {
    if t.Struct? {
      var i := LastAtOrBefore(t.fields, Narrowed(offset)).value;
      var start := t.fields[i].offset;
      TraverseConserves(t.fields[i].ty, Minus(offset, start));
      MaxDepthBounds(t, |t.fields|, i);
      var rest := Traverse(t.fields[i].ty, Minus(offset, start)).value;
      var path := Traverse(t, offset).value.path;
      assert path[1..] == rest.path && path[0] == i;
      MinusStep(offset, start, PathOffset(t.fields[i].ty, rest.path) + rest.residual);
    }
  }

  lemma MinusStep(offset: nat, start: nat, rest: nat)
    requires Minus(offset, start) <= rest && (rest - Minus(offset, start)) % SIZE_LIMIT == 0 && offset < SIZE_LIMIT
    ensures (start + rest - offset) % SIZE_LIMIT == 0
    ensures offset <= start + rest
    ensures start <= offset ==> Minus(offset, start) == offset - start
    ensures offset < start ==> offset < start + rest
  {
  }

  function Depth(t: Type): nat
    decreases t, 1
  {
    if t.Struct? then 1 + MaxDepth(t, |t.fields|) else 0
  }

  /** The greatest depth among the first `n` fields. */
  function MaxDepth(t: Type, n: nat): nat
    requires t.Struct? && n <= |t.fields|
    decreases t, 0, n
  {
    if n == 0 then 0
    else
      var d, rest := Depth(t.fields[n - 1].ty), MaxDepth(t, n - 1);
      if d > rest then d else rest
  }

  lemma {:induction false} MaxDepthBounds(t: Type, n: nat, i: nat)
    requires t.Struct? && i < n <= |t.fields|
    ensures Depth(t.fields[i].ty) <= MaxDepth(t, n)
  {
    if i < n - 1 { MaxDepthBounds(t, n - 1, i); }
  }

  /** Bits a value of the type spans. */
  function Span(t: Type): nat
  {
    match t
    case Prim(size) => size
    case Void => 0
    case Struct(size, _) => size
    case Pointer(_, _) => POINTER_SIZE
    case Other(size) => size
  }

  /** Struct members in order, non-empty and disjoint, at every level. */
  ghost predicate Disjoint(t: Type)
  {
    t.Struct? ==>
      && (forall i :: 0 <= i < |t.fields| ==>
            Disjoint(t.fields[i].ty) && Span(t.fields[i].ty) > 0
            && t.fields[i].offset + Span(t.fields[i].ty) <= t.size)
      && (forall i, j :: 0 <= i < j < |t.fields| ==>
            t.fields[i].offset + Span(t.fields[i].ty) <= t.fields[j].offset)
  }

  lemma {:induction false} PathInside(t: Type, path: seq<nat>)
    requires Disjoint(t) && Span(t) > 0 && IsPath(t, path)
    ensures PathOffset(t, path) < Span(t)
    decreases |path|
  {
    if path != [] { PathInside(t.fields[path[0]].ty, path[1..]); }
  }

  /** Struct members in order at every level. */
  ghost predicate Ordered(t: Type)
  {
    t.Struct? ==> Sorted(t.fields) && forall i :: 0 <= i < |t.fields| ==> Ordered(t.fields[i].ty)
  }

  /** Every field starts on the same side of an offset as of its narrowed value: none starts between the two. */
  ghost predicate NoneBetween(fields: seq<Field>, offset: nat)
  {
    forall i :: 0 <= i < |fields| ==> (fields[i].offset <= offset <==> fields[i].offset <= Narrowed(offset))
  }

  lemma LastIs(fields: seq<Field>, offset: nat, i: nat)
    requires i < |fields| && fields[i].offset <= offset && forall j :: i < j < |fields| ==> offset < fields[j].offset
    ensures LastAtOrBefore(fields, offset) == Some(i)
  {
  }

  /** The narrowing leaves the field that is found as it is exactly when no field starts between the two offsets. */
  lemma NarrowingExact(fields: seq<Field>, offset: nat)
    requires Sorted(fields)
    ensures LastAtOrBefore(fields, Narrowed(offset)) == LastAtOrBefore(fields, offset) <==> NoneBetween(fields, offset)
  {
    var narrowed, plain := LastAtOrBefore(fields, Narrowed(offset)), LastAtOrBefore(fields, offset);
    if narrowed == plain && plain.Some? {
      forall i | 0 <= i < |fields| ensures fields[i].offset <= offset <==> fields[i].offset <= Narrowed(offset) {
        assert i <= plain.value ==> fields[i].offset <= fields[plain.value].offset;
      }
    }
    if NoneBetween(fields, offset) && plain.Some? {
      LastIs(fields, Narrowed(offset), plain.value);
    }
  }

  /** The member an offset falls in: the traversal on the offset itself, neither narrowed nor wrapped around. */
  ghost function Resolve(t: Type, offset: nat): Option<Member>
  {
    match t
    case Struct(_, fields) =>
      var found := LastAtOrBefore(fields, offset);
      if found.None? then None
      else
        var f := fields[found.value];
        Through(found.value, Resolve(f.ty, offset - f.offset))
    case Other(_) => None
    case _ => Some(Member(t, offset, []))
  }

  /** At every struct on the way to the member, no field starts between the offset left there and its narrowed value. */
  ghost predicate NarrowsWell(t: Type, offset: nat)
  {
    t.Struct? ==>
      && NoneBetween(t.fields, offset)
      && var found := LastAtOrBefore(t.fields, offset);
        found.Some? ==> NarrowsWell(t.fields[found.value].ty, offset - t.fields[found.value].offset)
  }

  /** The traversal of a well narrowed offset is right; a right one that finds something is of a well narrowed offset. */
  ghost predicate RightIffNarrowsWell(t: Type, offset: nat)
  {
    && (NarrowsWell(t, offset) ==> Traverse(t, offset) == Resolve(t, offset))
    && (Resolve(t, offset).Some? && Traverse(t, offset) == Resolve(t, offset) ==> NarrowsWell(t, offset))
  }

  /** The traversal resolves an offset that falls in a scalar correctly exactly when every narrowing on the way is harmless. */
  lemma {:induction false} TraverseResolvesIff(t: Type, offset: nat)
    requires Ordered(t) && offset < SIZE_LIMIT
    ensures RightIffNarrowsWell(t, offset)
  {
    if t.Struct? {
      NarrowingExact(t.fields, offset);
      var narrowed, found := LastAtOrBefore(t.fields, Narrowed(offset)), LastAtOrBefore(t.fields, offset);
      if found.None? {
        NoField(t, offset);
      } else if narrowed != found {
        OtherField(t, offset, found.value);
      } else {
        TraverseResolvesIff(t.fields[found.value].ty, offset - t.fields[found.value].offset);
        SameField(t, offset, found.value);
      }
    }
  }

  lemma NoField(t: Type, offset: nat)
    requires t.Struct? && Sorted(t.fields) && LastAtOrBefore(t.fields, offset).None?
    ensures RightIffNarrowsWell(t, offset)
  {
    NarrowingExact(t.fields, offset);
    assert Resolve(t, offset).None?;
  }

  lemma SameField(t: Type, offset: nat, i: nat)
    requires t.Struct? && offset < SIZE_LIMIT && NoneBetween(t.fields, offset)
    requires LastAtOrBefore(t.fields, Narrowed(offset)) == LastAtOrBefore(t.fields, offset) == Some(i)
    requires RightIffNarrowsWell(t.fields[i].ty, offset - t.fields[i].offset)
    ensures RightIffNarrowsWell(t, offset)
  {
    var f := t.fields[i];
    ThroughField(t, offset, i);
    Passes(i, Traverse(f.ty, offset - f.offset), Resolve(f.ty, offset - f.offset), NarrowsWell(f.ty, offset - f.offset));
  }

  lemma Passes(i: nat, a: Option<Member>, b: Option<Member>, narrowsWell: bool)
    requires (narrowsWell ==> a == b) && (b.Some? && a == b ==> narrowsWell)
    ensures narrowsWell ==> Through(i, a) == Through(i, b)
    ensures Through(i, b).Some? && Through(i, a) == Through(i, b) ==> narrowsWell
  {
    ThroughInjective(i, a, i, b);
  }

  lemma ThroughField(t: Type, offset: nat, i: nat)
    requires t.Struct? && offset < SIZE_LIMIT && NoneBetween(t.fields, offset)
    requires LastAtOrBefore(t.fields, Narrowed(offset)) == LastAtOrBefore(t.fields, offset) == Some(i)
    ensures var f := t.fields[i];
      && Traverse(t, offset) == Through(i, Traverse(f.ty, offset - f.offset))
      && Resolve(t, offset) == Through(i, Resolve(f.ty, offset - f.offset))
      && (NarrowsWell(t, offset) <==> NarrowsWell(f.ty, offset - f.offset))
  {
    MinusSmall(offset, t.fields[i].offset);
    NarrowsThrough(t, offset, i);
  }

  lemma MinusSmall(a: nat, b: nat)
    requires b <= a < SIZE_LIMIT
    ensures Minus(a, b) == a - b
  {
  }

  lemma NarrowsThrough(t: Type, offset: nat, i: nat)
    requires t.Struct? && NoneBetween(t.fields, offset) && LastAtOrBefore(t.fields, offset) == Some(i)
    ensures NarrowsWell(t, offset) <==> NarrowsWell(t.fields[i].ty, offset - t.fields[i].offset)
  {
  }

  lemma OtherField(t: Type, offset: nat, j: nat)
    requires t.Struct? && !NoneBetween(t.fields, offset)
    requires LastAtOrBefore(t.fields, Narrowed(offset)) != LastAtOrBefore(t.fields, offset) == Some(j)
    ensures RightIffNarrowsWell(t, offset)
  {
    var narrowed, f := LastAtOrBefore(t.fields, Narrowed(offset)), t.fields[j];
    if narrowed.Some? {
      var g := t.fields[narrowed.value];
      ThroughInjective(narrowed.value, Traverse(g.ty, Minus(offset, g.offset)), j, Resolve(f.ty, offset - f.offset));
    }
  }

  lemma ThroughInjective(i: nat, a: Option<Member>, j: nat, b: Option<Member>)
    ensures b.Some? && Through(i, a) == Through(j, b) ==> i == j && a == b
  {
    if a.Some? && b.Some? {
      assert ([i] + a.value.path)[0] == i && ([i] + a.value.path)[1..] == a.value.path;
      assert ([j] + b.value.path)[0] == j && ([j] + b.value.path)[1..] == b.value.path;
    }
  }

  /** The offset of a scalar member falls in that member, with nothing left over. */
  lemma {:induction false} MemberIsResolved(t: Type, path: seq<nat>)
    requires Disjoint(t) && 0 < Span(t)
    requires IsPath(t, path) && IsScalar(TypeAt(t, path))
    ensures Resolve(t, PathOffset(t, path)) == Some(Member(TypeAt(t, path), 0, path))
    decreases |path|
  {
    if path == [] {
    } else {
      var i, f := path[0], t.fields[path[0]];
      PathInside(f.ty, path[1..]);
      FindsField(t, i, PathOffset(t, path));
      MemberIsResolved(f.ty, path[1..]);
      var inner := Member(TypeAt(f.ty, path[1..]), 0, path[1..]);
      assert Resolve(t, PathOffset(t, path)) == Through(i, Some(inner));
      assert [i] + path[1..] == path;
    }
  }

  /** An offset inside a field is resolved in that field. */
  lemma FindsField(t: Type, i: nat, offset: nat)
    requires t.Struct? && Disjoint(t) && i < |t.fields|
    requires t.fields[i].offset <= offset < t.fields[i].offset + Span(t.fields[i].ty)
    ensures LastAtOrBefore(t.fields, offset) == Some(i)
    ensures Resolve(t, offset) == Through(i, Resolve(t.fields[i].ty, offset - t.fields[i].offset))
  {
    forall j | i < j < |t.fields| ensures offset < t.fields[j].offset {
      assert t.fields[i].offset + Span(t.fields[i].ty) <= t.fields[j].offset;
    }
    LastIs(t.fields, offset, i);
  }

  lemma {:induction false} DisjointIsOrdered(t: Type)
    requires Disjoint(t)
    ensures Ordered(t)
  {
    if t.Struct? {
      forall i | 0 <= i < |t.fields| ensures Ordered(t.fields[i].ty) { DisjointIsOrdered(t.fields[i].ty); }
    }
  }

  /**
   Traversing to the offset of a scalar member finds exactly that member, with nothing left over, if and only if no
   field on the way starts between the offset left there and its narrowed value.
   */
  lemma TraverseFindsMember(t: Type, path: seq<nat>)
    requires Disjoint(t) && 0 < Span(t) <= SIZE_LIMIT
    requires IsPath(t, path) && IsScalar(TypeAt(t, path))
    ensures Traverse(t, PathOffset(t, path)) == Some(Member(TypeAt(t, path), 0, path)) <==>
      NarrowsWell(t, PathOffset(t, path))
  {
    PathInside(t, path);
    DisjointIsOrdered(t);
    MemberIsResolved(t, path);
    TraverseResolvesIff(t, PathOffset(t, path));
  }

  /** Below 2^31 nothing is narrowed: an object of at most so many bits has every member found. */
  lemma {:induction false} SmallNarrowsWell(t: Type, offset: nat)
    requires offset < 0x8000_0000
    ensures NarrowsWell(t, offset)
  {
    if t.Struct? && LastAtOrBefore(t.fields, offset).Some? {
      var f := t.fields[LastAtOrBefore(t.fields, offset).value];
      SmallNarrowsWell(f.ty, offset - f.offset);
    }
  }

  /** A member 2^32 bits into an object is taken for the first one; one that starts at 2^31 is found all the same. */
  lemma NarrowingGoesWrong()
    ensures var t := Struct(0x1_0000_0040, [Field(Prim(32), 0), Field(Prim(32), 0x1_0000_0000)]);
      && Disjoint(t)
      && PathOffset(t, [1]) == 0x1_0000_0000
      && Traverse(t, 0x1_0000_0000) == Some(Member(Prim(32), 0x1_0000_0000, [0]))
    ensures var t := Struct(0x8000_0020, [Field(Prim(32), 0), Field(Prim(32), 0x8000_0000)]);
      && Disjoint(t)
      && PathOffset(t, [1]) == 0x8000_0000
      && Traverse(t, 0x8000_0000) == Some(Member(Prim(32), 0, [1]))
  {
    var far, near := Field(Prim(32), 0x1_0000_0000), Field(Prim(32), 0x8000_0000);
    var first := Field(Prim(32), 0);
    assert [first, far][..1] == [first];
    assert LastAtOrBefore([first, far], 0) == Some(0);
    assert Narrowed(0x1_0000_0000) == 0 && Narrowed(0x8000_0000) == 0xFFFF_FFFF_8000_0000;
    assert LastAtOrBefore([first, near], 0xFFFF_FFFF_8000_0000) == Some(1);
    assert Traverse(Prim(32), Minus(0x1_0000_0000, 0)) == Some(Member(Prim(32), 0x1_0000_0000, []));
    assert Traverse(Prim(32), Minus(0x8000_0000, 0x8000_0000)) == Some(Member(Prim(32), 0, []));
    assert [1][1..] == [] && [0] + [] == [0] && [1] + [] == [1];
  }
}
