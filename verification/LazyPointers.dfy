/** What following one pointer of an object leads to. */
module LazyPointers {
  import opened Bytes
  import opened ObjectTypes
  import opened FieldOffset
  import opened Wrappers

  /** A pointer stored at byte `offset` of an object, to byte `indexOffset` of object `index`. */
  datatype Link = Link(offset: nat, index: nat, indexOffset: nat)

  /** `viewable` tells whether the value of the object can be decoded as a lazy parameter. */
  datatype Object = Object(name: string, size: nat, links: seq<Link>, isLazy: bool, viewable: bool)

  datatype Root = Root(name: string, ty: Type)

  datatype Usage = PARAMETER | LAZY

  type Objects = objs: seq<Object> | forall o, k :: 0 <= o < |objs| && 0 <= k < |objs[o].links| ==>
                                       objs[o].links[k].index < |objs| witness []

  // ---- types along pointers

  /** The types a program's pointers point to. */
  type Targets = map<string, Type>

  /** The innermost type, with every pointer level removed. */
  function Base(t: Type, env: Targets): Type
  {
    if t.Pointer? && t.target in env then env[t.target] else if t.Pointer? then Void else t
  }

  /** One pointer level removed. */
  function Pointee(t: Type, env: Targets): Type
  {
    if t.Pointer? && t.depth > 1 then t.(depth := t.depth - 1) else Base(t, env)
  }

  function RootType(t: Type, env: Targets): Type
  {
    if t.Pointer? && t.depth <= 1 then Base(t, env) else t
  }

  /** What following a pointer leads to: an exception, nothing, or an object of some type. */
  datatype Outcome = Throws | Skips | Leads(ty: Type)

  /** The type and the offset inside it once the array indices of a double pointer are taken off. */
  function Unindexed(t: Type, offset: nat, usage: Usage, env: Targets): Option<(Type, nat)>
  {
    if !(t.Pointer? && t.depth > 1) || usage != PARAMETER then Some((t, offset))
    else
      var base := Base(t, env);
      var size := TypeSize(base);
      if size.None? || size.value == 0 then None else Some((base, offset % size.value))
  }

  function Follow(objs: Objects, t: Type, link: Link, usage: Usage, env: Targets): Outcome
    requires link.index < |objs|
  {
    if link.indexOffset != 0 then Skips
    else
      var place := Unindexed(t, 8 * link.offset, usage, env);
      if place.None? then Throws
      else
        var member := Traverse(place.value.0, place.value.1);
        if member.None? then Throws
        else
          var target := Pointee(member.value.ty, env);
          var size := TypeSize(target);
          if size.None? then Throws
          else if 8 * objs[link.index].size != size.value then Skips
          else Leads(target)
  }

  // ---- the same, read off the types

  /** `ty` is `t` with one pointer level removed; what is no pointer stays. */
  predicate OneLevelOff(env: Targets, t: Type, ty: Type)
  {
    if !t.Pointer? then ty == t
    else if t.depth > 1 then ty.Pointer? && ty.depth + 1 == t.depth && ty.target == t.target
    else if t.target in env then ty == env[t.target]
    else ty == Void
  }

  predicate HasSize(t: Type, bits: nat)
  {
    t == Prim(bits) || t == Other(bits) || (t.Struct? && t.size == bits) || (t.Pointer? && bits == 64)
  }

  /** At every struct on the path, the field taken is the last one that starts at or before the narrowed offset left there. */
  ghost predicate FallsIn(t: Type, offset: nat, path: seq<nat>)
    requires IsPath(t, path)
    decreases |path|
  {
    if path == [] then t.Prim? || t.Void? || t.Pointer?
    else
      var f := t.fields[path[0]];
      && f.offset <= Narrowed(offset) && (forall j :: path[0] < j < |t.fields| ==> Narrowed(offset) < t.fields[j].offset)
      && FallsIn(f.ty, Minus(offset, f.offset), path[1..])
  }

  /** A pointer to pointers, used as a parameter, is an array of what they point to; any other type stays. */
  ghost predicate Indexed(env: Targets, t: Type, offset: nat, usage: Usage, inner: Type, rest: nat)
  {
    if t.Pointer? && t.depth > 1 && usage == PARAMETER then
      && t.target in env && inner == env[t.target]
      && exists size: nat, n: nat :: HasSize(inner, size) && rest < size && offset == Elements(n, size) + rest
    else
      inner == t && rest == offset
  }

  function Elements(n: nat, size: nat): nat { n * size }

  /** The offset falls in a scalar from which, one pointer level removed, comes the type `ty`, which has a size. */
  ghost predicate Resolves(env: Targets, t: Type, offset: nat, usage: Usage, ty: Type)
  {
    !ty.Void? && exists inner, rest, path :: ResolvesAt(env, t, offset, usage, ty, inner, rest, path)
  }

  ghost predicate ResolvesAt(env: Targets, t: Type, offset: nat, usage: Usage, ty: Type, inner: Type, rest: nat,
                             path: seq<nat>)
  {
    && Indexed(env, t, offset, usage, inner, rest)
    && IsPath(inner, path) && FallsIn(inner, rest, path) && OneLevelOff(env, TypeAt(inner, path), ty)
  }

  /** A pointer to the beginning of an object whose size is that of the type it resolves to. */
  ghost predicate PointsTo(objs: Objects, env: Targets, t: Type, link: Link, usage: Usage, ty: Type)
    requires link.index < |objs|
  {
    && link.indexOffset == 0 && Resolves(env, t, 8 * link.offset, usage, ty)
    && HasSize(ty, 8 * objs[link.index].size)
  }

  /** A pointer to the beginning of an object that resolves to no type. */
  ghost predicate Unresolved(env: Targets, t: Type, link: Link, usage: Usage)
  {
    link.indexOffset == 0 && forall ty :: !Resolves(env, t, 8 * link.offset, usage, ty)
  }

  lemma {:induction false} FallsInIff(t: Type, offset: nat, path: seq<nat>)
    requires IsPath(t, path)
    ensures FallsIn(t, offset, path) <==> Traverse(t, offset).Some? && Traverse(t, offset).value.path == path
    decreases |path|
  {
    if t.Struct? {
      var found := LastAtOrBefore(t.fields, Narrowed(offset));
      if path != [] {
        var f := t.fields[path[0]];
        FallsInIff(f.ty, Minus(offset, f.offset), path[1..]);
        assert path == [path[0]] + path[1..];
        if f.offset <= Narrowed(offset) && forall j :: path[0] < j < |t.fields| ==> Narrowed(offset) < t.fields[j].offset {
          LastIs(t.fields, Narrowed(offset), path[0]);
        }
      }
    }
  }

  lemma {:induction false} TraversePath(t: Type, offset: nat)
    requires Traverse(t, offset).Some?
    ensures var m := Traverse(t, offset).value; IsPath(t, m.path) && TypeAt(t, m.path) == m.ty
  {
    if t.Struct? {
      var i := LastAtOrBefore(t.fields, Narrowed(offset)).value;
      TraversePath(t.fields[i].ty, Minus(offset, t.fields[i].offset));
      var path := Traverse(t, offset).value.path;
      assert path[0] == i && path[1..] == Traverse(t.fields[i].ty, Minus(offset, t.fields[i].offset)).value.path;
    }
  }

  lemma UnindexedIff(env: Targets, t: Type, offset: nat, usage: Usage, inner: Type, rest: nat)
    ensures Indexed(env, t, offset, usage, inner, rest) <==> Unindexed(t, offset, usage, env) == Some((inner, rest))
  {
    if t.Pointer? && t.depth > 1 && usage == PARAMETER {
      var base := Base(t, env);
      if TypeSize(base).Some? && TypeSize(base).value > 0 {
        var size := TypeSize(base).value;
        assert HasSize(base, size);
        assert offset == Elements(offset / size, size) + offset % size;
      }
      forall size: nat, n: nat | HasSize(inner, size) && rest < size && offset == Elements(n, size) + rest
        ensures TypeSize(inner) == Some(size) && rest == offset % size
      {
        Remainder(n, size, rest);
      }
    }
  }

  lemma Remainder(n: nat, size: nat, rest: nat)
    requires rest < size
    ensures (Elements(n, size) + rest) % size == rest
  {
    DivModUnique(Elements(n, size) + rest, size, n, rest);
  }

  lemma ResolvesIff(env: Targets, t: Type, offset: nat, usage: Usage, ty: Type)
    ensures Resolves(env, t, offset, usage, ty) <==>
      && Unindexed(t, offset, usage, env).Some?
      && var place := Unindexed(t, offset, usage, env).value;
         && Traverse(place.0, place.1).Some?
         && ty == Pointee(Traverse(place.0, place.1).value.ty, env) && !ty.Void?
  {
    if Resolves(env, t, offset, usage, ty) {
      var inner, rest, path :| ResolvesAt(env, t, offset, usage, ty, inner, rest, path);
      UnindexedIff(env, t, offset, usage, inner, rest);
      FallsInIff(inner, rest, path);
      TraversePath(inner, rest);
    }
    var place := Unindexed(t, offset, usage, env);
    if place.Some? && Traverse(place.value.0, place.value.1).Some? {
      var m := Traverse(place.value.0, place.value.1).value;
      UnindexedIff(env, t, offset, usage, place.value.0, place.value.1);
      TraversePath(place.value.0, place.value.1);
      FallsInIff(place.value.0, place.value.1, m.path);
      assert ty == Pointee(m.ty, env) ==> ResolvesAt(env, t, offset, usage, ty, place.value.0, place.value.1, m.path);
    }
  }

  lemma HasSizeIff(t: Type, bits: nat)
    ensures HasSize(t, bits) <==> TypeSize(t) == Some(bits)
  {
  }

  /** Exactly when following a pointer leads to an object, and when it throws. */
  lemma FollowIs(objs: Objects, t: Type, link: Link, usage: Usage, env: Targets)
    requires link.index < |objs|
    ensures forall ty :: Follow(objs, t, link, usage, env) == Leads(ty) <==> PointsTo(objs, env, t, link, usage, ty)
    ensures Follow(objs, t, link, usage, env) == Throws <==> Unresolved(env, t, link, usage)
  {
    forall ty ensures Resolves(env, t, 8 * link.offset, usage, ty) <==>
      && Unindexed(t, 8 * link.offset, usage, env).Some?
      && var place := Unindexed(t, 8 * link.offset, usage, env).value;
         && Traverse(place.0, place.1).Some?
         && ty == Pointee(Traverse(place.0, place.1).value.ty, env) && !ty.Void?
    {
      ResolvesIff(env, t, 8 * link.offset, usage, ty);
    }
    forall ty ensures HasSize(ty, 8 * objs[link.index].size) <==> TypeSize(ty) == Some(8 * objs[link.index].size) {
      HasSizeIff(ty, 8 * objs[link.index].size);
    }
    var place := Unindexed(t, 8 * link.offset, usage, env);
    if !Follow(objs, t, link, usage, env).Throws? && link.indexOffset == 0 {
      var ty := Pointee(Traverse(place.value.0, place.value.1).value.ty, env);
      assert Resolves(env, t, 8 * link.offset, usage, ty);
    }
  }

  /** Where narrowing is harmless, the path falls in the member that starts at or before the offset. */
  lemma {:induction false} FallsInMember(t: Type, offset: nat, path: seq<nat>)
    requires IsPath(t, path) && NarrowsWell(t, offset) && offset < SIZE_LIMIT && FallsIn(t, offset, path)
    ensures PathOffset(t, path) <= offset
    ensures Resolve(t, offset) == Some(Member(TypeAt(t, path), offset - PathOffset(t, path), path))
    decreases |path|
  {
    if path != [] {
      var f := t.fields[path[0]];
      assert f.offset <= offset;
      MinusSmall(offset, f.offset);
      LastIs(t.fields, offset, path[0]);
      FallsInMember(f.ty, offset - f.offset, path[1..]);
      assert path == [path[0]] + path[1..];
      assert PathOffset(t, path) == f.offset + PathOffset(f.ty, path[1..]) && TypeAt(t, path) == TypeAt(f.ty, path[1..]);
    }
  }

  /** A root is given its declared type, a single pointer that of its target. */
  lemma RootTypeIs(t: Type, env: Targets)
    ensures if t.Pointer? && t.depth <= 1 then OneLevelOff(env, t, RootType(t, env)) else RootType(t, env) == t
  {
  }
}
