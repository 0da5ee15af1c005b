/** Which layouts keep every byte when they are decoded and initialised again, and what the dirty flag tells. */
module Padding {
  import opened Bytes

  import opened Dims
  import opened Encoding
  import opened Layouts
  import opened StructDecoder
  import opened Wrappers

  // ---- views of records, in terms of the views of their fields

  function Size(t: Type, i: nat): nat
    requires t.Record? && i < |t.fields|
  {
    TypeSize(t.fields[i].ty)
  }

  predicate SomeDirty(t: Type, bytes: seq<Byte>, off: nat, subs: seq<View>)
    requires t.Record? && |subs| == |t.fields|
  {
    exists i :: 0 <= i < |t.fields| && FieldDirty(t, bytes, off, i, subs[i])
  }

  lemma StructFacts(t: Type, bytes: seq<Byte>, off: nat, anonymous: bool)
    requires t.Record? && !t.isUnion
    ensures var v := Decode(t, bytes, off, anonymous);
      && v.RecordView? && v.subViews == DecodeFields(t, bytes, off)
      && ((forall i :: 0 <= i < |t.fields| ==> ViewInit(v.subViews[i])) ==> v.init && v.copy.None?)
      && (v.copy.None? && (v.init || SelfInit(t, anonymous)) ==> forall i :: 0 <= i < |t.fields| ==> ViewInit(v.subViews[i]))
      && (v.copy.Some? ==> v.init && SelfInit(t, anonymous))
      && (v.dirty <==> v.copy.None? && v.init && SomeDirty(t, bytes, off, v.subViews))
  {
    var v := Decode(t, bytes, off, anonymous);
    var clean := CleanFlags(t, bytes, off, v.subViews);
    assert (exists i :: 0 <= i < |clean| && !clean[i]) <==> SomeDirty(t, bytes, off, v.subViews) by {
      if i :| 0 <= i < |t.fields| && FieldDirty(t, bytes, off, i, v.subViews[i]) { assert !clean[i]; }
    }
  }

  lemma UnionFacts(t: Type, bytes: seq<Byte>, off: nat, anonymous: bool)
    requires t.Record? && t.isUnion
    ensures var v := Decode(t, bytes, off, anonymous);
      && v.RecordView? && v.subViews == DecodeFields(t, bytes, off) && !v.dirty
      && (v.init <==> v.pick.Some? || SelfInit(t, anonymous))
      && (v.copy.Some? <==> v.pick.None? && SelfInit(t, anonymous))
      && (v.pick.Some? ==>
            && v.pick.value < |t.fields| && Size(t, v.pick.value) > 0
            && !FieldDirty(t, bytes, off, v.pick.value, v.subViews[v.pick.value]))
      && forall i :: 0 <= i < |t.fields| && Size(t, i) > 0 && !FieldDirty(t, bytes, off, i, v.subViews[i]) ==>
            && v.pick.Some? && Size(t, i) <= Size(t, v.pick.value)
            && (i < v.pick.value ==> Size(t, i) < Size(t, v.pick.value))
  {
    var v := Decode(t, bytes, off, anonymous);
    var clean, sizes := CleanFlags(t, bytes, off, v.subViews), MemberSizes(t);
    assert v.pick == Pick(clean, sizes, |v.subViews|);
    forall i | 0 <= i < |t.fields| && Size(t, i) > 0 && !FieldDirty(t, bytes, off, i, v.subViews[i])
      ensures && v.pick.Some? && Size(t, i) <= Size(t, v.pick.value)
              && (i < v.pick.value ==> Size(t, i) < Size(t, v.pick.value))
    {
      assert clean[i] && sizes[i] == Size(t, i);
    }
  }

  // ---- layouts

  /** Field `i` touches the end of the field before it and, if it is the last one, the end of the record. */
  predicate Unchecked(t: Type, i: nat)
    requires t.Record? && i < |t.fields|
  {
    && FieldStart(t, i) <= PrevEnd(t, 0, i)
    && (t.isUnion || i + 1 == |t.fields| ==> t.size <= FieldStart(t, i) + Size(t, i))
  }

  /** No bytes of the object make the view dirty. */
  ghost predicate NeverDirty(t: Type)
    decreases t, 1
  {
    t.Record? && !t.isUnion ==> forall i :: 0 <= i < |t.fields| ==> AlwaysClean(t, i)
  }

  ghost predicate AlwaysClean(t: Type, i: nat)
    requires t.Record? && i < |t.fields|
    decreases t, 0
  {
    Unchecked(t, i) && NeverDirty(t.fields[i].ty)
  }

  /** Whatever the bytes are, the view is initialised. */
  ghost predicate AlwaysInit(t: Type, anonymous: bool)
  {
    t.Record? && !SelfInit(t, anonymous) ==>
      if t.isUnion then exists i :: 0 <= i < |t.fields| && Size(t, i) > 0 && AlwaysClean(t, i)
      else forall i :: 0 <= i < |t.fields| ==> AlwaysInit(t.fields[i].ty, t.fields[i].anonymous)
  }

  /** A union prefers `j` to `i` if both are clean. */
  predicate Preferred(t: Type, j: nat, i: nat)
    requires t.Record? && i < |t.fields| && j < |t.fields|
  {
    Size(t, i) < Size(t, j) || (Size(t, i) == Size(t, j) && j < i)
  }

  ghost predicate NeverPicked(t: Type, i: nat)
    requires t.Record? && i < |t.fields|
  {
    Size(t, i) == 0 || exists j :: 0 <= j < |t.fields| && AlwaysClean(t, j) && Preferred(t, j, i)
  }

  predicate InField(t: Type, i: nat, k: int)
    requires t.Record? && i < |t.fields|
  {
    FieldStart(t, i) <= k < FieldStop(t, i)
  }

  predicate InSomeField(t: Type, k: int)
    requires t.Record?
  {
    exists i :: 0 <= i < |t.fields| && InField(t, i, k)
  }

  predicate NoGap(t: Type)
    requires t.Record?
  {
    forall k :: 0 <= k < t.size ==> InSomeField(t, k)
  }

  /** All padding of an initialised and clean view is zero. */
  ghost predicate Tracked(t: Type)
    decreases t, 1
  {
    match t
    case Prim(_) => true
    case Array(elem, _) => Gapless(elem, false, false)
    case Record(isUnion, size, _, fields) =>
      if isUnion then forall i :: 0 <= i < |fields| ==> Harmless(t, i)
      else (size > 0 ==> |fields| > 0) && forall i :: 0 <= i < |fields| ==> Tracked(fields[i].ty)
  }

  /** Initialising the union from member `i` loses nothing. */
  ghost predicate Harmless(t: Type, i: nat)
    requires t.Record? && i < |t.fields|
    decreases t, 0
  {
    NeverPicked(t, i) || (Tracked(t.fields[i].ty) && AlwaysInit(t.fields[i].ty, t.fields[i].anonymous))
  }

  /** All padding is zero, dirty or not; with `init` only that of an initialised view. */
  ghost predicate Gapless(t: Type, anonymous: bool, init: bool)
    decreases t, 2
  {
    match t
    case Prim(_) => true
    case Array(elem, _) => Gapless(elem, false, false)
    case Record(isUnion, _, _, fields) =>
      if isUnion then Tracked(t) && (init || AlwaysInit(t, anonymous))
      else
        && NoGap(t)
        && forall i :: 0 <= i < |fields| ==> Gapless(fields[i].ty, fields[i].anonymous, init || SelfInit(t, anonymous))
  }

  // ---- what these say about views

  lemma UncheckedField(t: Type, bytes: seq<Byte>, off: nat, i: nat, sub: View)
    requires t.Record? && i < |t.fields| && Unchecked(t, i) && !ViewDirty(sub)
    ensures !FieldDirty(t, bytes, off, i, sub)
  {
  }

  lemma {:induction false} NeverDirtyIsClean(t: Type, bytes: seq<Byte>, off: nat, anonymous: bool)
    requires NeverDirty(t)
    ensures !ViewDirty(Decode(t, bytes, off, anonymous))
    decreases t, 1
  {
    if t.Record? && !t.isUnion {
      StructFacts(t, bytes, off, anonymous);
      forall i | 0 <= i < |t.fields| ensures !FieldDirty(t, bytes, off, i, DecodeFields(t, bytes, off)[i]) {
        AlwaysCleanIsClean(t, bytes, off, i);
      }
    } else if t.Record? {
      UnionFacts(t, bytes, off, anonymous);
    }
  }

  lemma {:induction false} AlwaysCleanIsClean(t: Type, bytes: seq<Byte>, off: nat, i: nat)
    requires t.Record? && i < |t.fields| && AlwaysClean(t, i)
    ensures !FieldDirty(t, bytes, off, i, DecodeFields(t, bytes, off)[i])
    decreases t, 0
  {
    NeverDirtyIsClean(t.fields[i].ty, bytes, off + t.fields[i].offset, t.fields[i].anonymous);
    UncheckedField(t, bytes, off, i, DecodeFields(t, bytes, off)[i]);
  }

  lemma {:induction false} AlwaysInitIsInit(t: Type, bytes: seq<Byte>, off: nat, anonymous: bool)
    requires AlwaysInit(t, anonymous)
    ensures ViewInit(Decode(t, bytes, off, anonymous))
  {
    if t.Record? && t.isUnion {
      UnionFacts(t, bytes, off, anonymous);
      if !SelfInit(t, anonymous) {
        var i :| 0 <= i < |t.fields| && Size(t, i) > 0 && AlwaysClean(t, i);
        AlwaysCleanIsClean(t, bytes, off, i);
      }
    } else if t.Record? {
      StructFacts(t, bytes, off, anonymous);
      if !SelfInit(t, anonymous) {
        forall i | 0 <= i < |t.fields| ensures ViewInit(DecodeFields(t, bytes, off)[i]) {
          AlwaysInitIsInit(t.fields[i].ty, bytes, off + t.fields[i].offset, t.fields[i].anonymous);
        }
      }
    }
  }

  lemma NeverPickedIsNotPicked(t: Type, bytes: seq<Byte>, off: nat, anonymous: bool)
    requires t.Record? && t.isUnion
    ensures var v := Decode(t, bytes, off, anonymous);
      v.pick.Some? ==> v.pick.value < |t.fields| && !NeverPicked(t, v.pick.value)
  {
    UnionFacts(t, bytes, off, anonymous);
    var v := Decode(t, bytes, off, anonymous);
    if v.pick.Some? {
      forall j | 0 <= j < |t.fields| && AlwaysClean(t, j) ensures !Preferred(t, j, v.pick.value) {
        AlwaysCleanIsClean(t, bytes, off, j);
      }
    }
  }

  // ---- tracked padding is zero when the view is clean

  lemma StructPadding(t: Type, v: View, bytes: seq<Byte>, off: nat)
    requires t.Record? && !t.isUnion && off + t.size <= |bytes|
    requires v.RecordView? && v.copy.None? && |v.subViews| == |t.fields|
    requires forall i :: 0 <= i < |t.fields| ==>
      FieldStop(t, i) <= t.size && PaddingZero(t.fields[i].ty, v.subViews[i], bytes, off + FieldStart(t, i))
    requires forall k :: 0 <= k < t.size && !InSomeField(t, k) ==> bytes[off + k] == 0
    ensures PaddingZero(t, v, bytes, off)
  {
    forall k | 0 <= k < t.size && !Covers(t, v, k) ensures bytes[off + k] == 0 {
      if i :| 0 <= i < |t.fields| && InField(t, i, k) {
        assert !CoversField(t, v.subViews, i, k);
        ByteOfField(t, v.subViews[i], bytes, off, i, k);
      } else {
        assert !InSomeField(t, k);
      }
    }
  }

  lemma ByteOfField(t: Type, sub: View, bytes: seq<Byte>, off: nat, i: nat, k: nat)
    requires t.Record? && i < |t.fields| && FieldStop(t, i) <= t.size && off + t.size <= |bytes|
    requires InField(t, i, k) && PaddingZero(t.fields[i].ty, sub, bytes, off + FieldStart(t, i))
    ensures Covers(t.fields[i].ty, sub, k - FieldStart(t, i)) || bytes[off + k] == 0
  {
    var j := k - FieldStart(t, i);
    assert off + FieldStart(t, i) + j == off + k;
    assert Covers(t.fields[i].ty, sub, j) || bytes[off + FieldStart(t, i) + j] == 0;
  }

  lemma PickedPadding(t: Type, v: View, bytes: seq<Byte>, off: nat)
    requires t.Record? && t.isUnion && off + t.size <= |bytes|
    requires v.RecordView? && v.copy.None? && |v.subViews| == |t.fields| && v.pick.Some? && v.pick.value < |t.fields|
    requires FieldStop(t, v.pick.value) <= t.size
    requires PaddingZero(t.fields[v.pick.value].ty, v.subViews[v.pick.value], bytes, off + FieldStart(t, v.pick.value))
    requires forall k :: 0 <= k < t.size && !InField(t, v.pick.value, k) ==> bytes[off + k] == 0
    ensures PaddingZero(t, v, bytes, off)
  {
    var p := v.pick.value;
    forall k | 0 <= k < t.size && !Covers(t, v, k) ensures bytes[off + k] == 0 {
      assert !CoversField(t, v.subViews, p, k);
      if InField(t, p, k) { ByteOfField(t, v.subViews[p], bytes, off, p, k); }
    }
  }

  /** A byte of a clean struct that no field occupies lies in a gap the decoder has checked. */
  lemma {:induction false} GapIsZero(t: Type, bytes: seq<Byte>, off: nat, subs: seq<View>, k: nat, n: nat)
    requires t.Record? && !t.isUnion && WellFormed(t) && |t.fields| > 0 && n <= |t.fields| == |subs|
    requires off + t.size <= |bytes| && k < t.size && !InSomeField(t, k)
    requires forall i :: 0 <= i < |t.fields| ==> !FieldDirty(t, bytes, off, i, subs[i])
    requires n > 0 ==> FieldStop(t, n - 1) <= k
    ensures bytes[off + k] == 0
    decreases |t.fields| - n
  {
    if n > 0 { SizeWithinExtent(t.fields[n - 1].ty); }
    if n == |t.fields| {
      assert !FieldDirty(t, bytes, off, n - 1, subs[n - 1]);
      assert !IsSet(bytes, off + k);
    } else if k < FieldStart(t, n) {
      assert !FieldDirty(t, bytes, off, n, subs[n]);
      assert !IsSet(bytes, off + k);
    } else {
      assert !InField(t, n, k);
      GapIsZero(t, bytes, off, subs, k, n + 1);
    }
  }

  /** A byte of a union that its clean member does not occupy has been checked. */
  lemma OutsideIsZero(t: Type, bytes: seq<Byte>, off: nat, p: nat, sub: View, k: nat)
    requires t.Record? && t.isUnion && WellFormed(t) && p < |t.fields| && off + t.size <= |bytes| && k < t.size
    requires !FieldDirty(t, bytes, off, p, sub) && !InField(t, p, k)
    ensures bytes[off + k] == 0
  {
    SizeWithinExtent(t.fields[p].ty);
    assert !IsSet(bytes, off + k);
  }

  /** Tracked layouts: what the decoder reports clean has zero padding throughout. */
  lemma {:induction false} CleanMeansZeroPadding(t: Type, bytes: seq<Byte>, off: nat, anonymous: bool)
    requires WellFormed(t) && Tracked(t) && off + Extent(t) <= |bytes|
    requires ViewInit(Decode(t, bytes, off, anonymous)) && !ViewDirty(Decode(t, bytes, off, anonymous))
    ensures PaddingZero(t, Decode(t, bytes, off, anonymous), bytes, off)
    decreases t, 0
  {
    match t
    case Prim(_) =>
    case Array(elem, dims) =>
      ElementsZero(elem, bytes, off, Product(dims));
    case Record(isUnion, _, _, _) =>
      if isUnion {
        CleanUnion(t, bytes, off, anonymous);
      } else {
        CleanStruct(t, bytes, off, anonymous);
      }
  }

  lemma {:induction false} CleanUnion(t: Type, bytes: seq<Byte>, off: nat, anonymous: bool)
    requires t.Record? && t.isUnion && WellFormed(t) && Tracked(t) && off + Extent(t) <= |bytes|
    requires ViewInit(Decode(t, bytes, off, anonymous))
    ensures PaddingZero(t, Decode(t, bytes, off, anonymous), bytes, off)
    decreases t, 0, 0
  {
    UnionFacts(t, bytes, off, anonymous);
    var v := Decode(t, bytes, off, anonymous);
    if v.copy.None? {
      NeverPickedIsNotPicked(t, bytes, off, anonymous);
      var p := v.pick.value;
      var f := t.fields[p];
      assert FieldStop(t, p) <= t.size && Harmless(t, p);
      AlwaysInitIsInit(f.ty, bytes, off + f.offset, f.anonymous);
      CleanMeansZeroPadding(f.ty, bytes, off + f.offset, f.anonymous);
      forall k | 0 <= k < t.size && !InField(t, p, k) ensures bytes[off + k] == 0 {
        OutsideIsZero(t, bytes, off, p, v.subViews[p], k);
      }
      PickedPadding(t, v, bytes, off);
    }
  }

  lemma {:induction false} CleanStruct(t: Type, bytes: seq<Byte>, off: nat, anonymous: bool)
    requires t.Record? && !t.isUnion && WellFormed(t) && Tracked(t) && off + Extent(t) <= |bytes|
    requires ViewInit(Decode(t, bytes, off, anonymous)) && !ViewDirty(Decode(t, bytes, off, anonymous))
    ensures PaddingZero(t, Decode(t, bytes, off, anonymous), bytes, off)
    decreases t, 0, 0
  {
    StructFacts(t, bytes, off, anonymous);
    var v := Decode(t, bytes, off, anonymous);
    if v.copy.None? {
      forall i | 0 <= i < |t.fields|
        ensures FieldStop(t, i) <= t.size && PaddingZero(t.fields[i].ty, v.subViews[i], bytes, off + FieldStart(t, i))
      {
        assert FieldStop(t, i) <= t.size && !FieldDirty(t, bytes, off, i, v.subViews[i]);
        CleanMeansZeroPadding(t.fields[i].ty, bytes, off + t.fields[i].offset, t.fields[i].anonymous);
      }
      forall k | 0 <= k < t.size && !InSomeField(t, k) ensures bytes[off + k] == 0 {
        GapIsZero(t, bytes, off, v.subViews, k, 0);
      }
      StructPadding(t, v, bytes, off);
    }
  }

  /** Layouts without gaps: all padding is zero. */
  lemma {:induction false} GaplessMeansZeroPadding(t: Type, bytes: seq<Byte>, off: nat, anonymous: bool, init: bool)
    requires WellFormed(t) && Gapless(t, anonymous, init) && off + Extent(t) <= |bytes|
    requires init ==> ViewInit(Decode(t, bytes, off, anonymous))
    ensures PaddingZero(t, Decode(t, bytes, off, anonymous), bytes, off)
    decreases t, 1
  {
    match t
    case Prim(_) =>
    case Array(elem, dims) =>
      ElementsZero(elem, bytes, off, Product(dims));
    case Record(isUnion, _, _, _) =>
      if isUnion {
        if !init { AlwaysInitIsInit(t, bytes, off, anonymous); }
        CleanUnion(t, bytes, off, anonymous);
      } else {
        GaplessStruct(t, bytes, off, anonymous, init);
      }
  }

  lemma {:induction false} GaplessStruct(t: Type, bytes: seq<Byte>, off: nat, anonymous: bool, init: bool)
    requires t.Record? && !t.isUnion && WellFormed(t) && Gapless(t, anonymous, init) && off + Extent(t) <= |bytes|
    requires init ==> ViewInit(Decode(t, bytes, off, anonymous))
    ensures PaddingZero(t, Decode(t, bytes, off, anonymous), bytes, off)
    decreases t, 1, 0
  {
    StructFacts(t, bytes, off, anonymous);
    var v := Decode(t, bytes, off, anonymous);
    if v.copy.None? {
      forall i | 0 <= i < |t.fields|
        ensures FieldStop(t, i) <= t.size && PaddingZero(t.fields[i].ty, v.subViews[i], bytes, off + FieldStart(t, i))
      {
        assert FieldStop(t, i) <= t.size;
        var f := t.fields[i];
        assert init || SelfInit(t, anonymous) ==> ViewInit(v.subViews[i]);
        GaplessMeansZeroPadding(f.ty, bytes, off + f.offset, f.anonymous, init || SelfInit(t, anonymous));
      }
      StructPadding(t, v, bytes, off);
    }
  }

  lemma {:induction false} ElementsZero(elem: Type, bytes: seq<Byte>, off: nat, n: nat)
    requires WellFormed(elem) && !elem.Array? && Gapless(elem, false, false) && off + Times(n, TypeSize(elem)) <= |bytes|
    ensures AllPaddingZero(elem, DecodeAll(elem, bytes, off, n), bytes, off)
    decreases elem, 2, n
  {
    if n > 0 {
      GaplessMeansZeroPadding(elem, bytes, off, false, false);
      ElementsZero(elem, bytes, off + TypeSize(elem), n - 1);
      ConsPadding(elem, DecodeAll(elem, bytes, off, n), bytes, off);
    }
  }

  // ---- bytes that a layout loses

  /** The object at `off` has the bytes `w`. */
  ghost predicate Placed(bytes: seq<Byte>, off: nat, w: seq<Byte>)
  {
    off + |w| <= |bytes| && forall j :: 0 <= j < |w| ==> bytes[off + j] == w[j]
  }

  /** Wherever an object has the bytes `w`, its byte `k` is set and not covered; `init` and `clean` say what the view is. */
  ghost predicate Loses(t: Type, anonymous: bool, init: bool, clean: bool, w: seq<Byte>, k: nat)
  {
    && |w| == Extent(t) && k < |w| && w[k] != 0
    && (clean ==> forall j :: TypeSize(t) <= j < |w| ==> w[j] == 0)
    && forall bytes: seq<Byte>, off: nat :: Placed(bytes, off, w) ==>
      && !Covers(t, Decode(t, bytes, off, anonymous), k)
      && (init ==> ViewInit(Decode(t, bytes, off, anonymous)))
      && (clean ==> !ViewDirty(Decode(t, bytes, off, anonymous)))
  }

  /** Is the view initialised if all bytes are set? */
  ghost predicate OnesInit(t: Type, anonymous: bool)
    decreases t, 1
  {
    t.Record? && !SelfInit(t, anonymous) ==>
      if t.isUnion then exists i :: 0 <= i < |t.fields| && Size(t, i) > 0 && OnesClean(t, i)
      else forall i :: 0 <= i < |t.fields| ==> OnesInit(t.fields[i].ty, t.fields[i].anonymous)
  }

  /** Is the view dirty if all bytes are set? */
  ghost predicate OnesDirty(t: Type)
    decreases t, 1
  {
    && t.Record? && !t.isUnion
    && (forall i :: 0 <= i < |t.fields| ==> OnesInit(t.fields[i].ty, t.fields[i].anonymous))
    && exists i :: 0 <= i < |t.fields| && !OnesClean(t, i)
  }

  ghost predicate OnesClean(t: Type, i: nat)
    requires t.Record? && i < |t.fields|
    decreases t, 0
  {
    Unchecked(t, i) && !OnesDirty(t.fields[i].ty)
  }

  /**
   The layouts for which tracked is decided by looking at one member of each union: every member is never dirty or dirty
   when all bytes are set, and all but the most preferred one are tracked, or never picked.
   */
  ghost predicate Settled(t: Type)
  {
    match t
    case Prim(_) => true
    case Array(elem, _) => Settled(elem)
    case Record(isUnion, _, _, fields) =>
      && (forall i :: 0 <= i < |fields| ==> Settled(fields[i].ty))
      && (isUnion ==>
            && (exists i :: 0 <= i < |fields| && Size(t, i) > 0)
            && (forall i :: 0 <= i < |fields| ==> NeverDirty(fields[i].ty) || OnesDirty(fields[i].ty))
            && forall i, j :: 0 <= i < |fields| && 0 <= j < |fields| && Preferred(t, j, i) ==> Harmless(t, i))
  }

  /** Every union has a member to be initialised from. */
  predicate ZeroInits(t: Type)
  {
    match t
    case Prim(_) => true
    case Array(elem, _) => ZeroInits(elem)
    case Record(isUnion, _, _, fields) =>
      && (forall i :: 0 <= i < |fields| ==> ZeroInits(fields[i].ty))
      && (isUnion ==> exists i :: 0 <= i < |fields| && Size(t, i) > 0)
  }

  lemma {:induction false} SettledZeroInits(t: Type)
    requires Settled(t)
    ensures ZeroInits(t)
  {
    match t
    case Prim(_) =>
    case Array(elem, _) =>
      SettledZeroInits(elem);
    case Record(_, _, _, fields) =>
      forall i | 0 <= i < |fields| ensures ZeroInits(fields[i].ty) { SettledZeroInits(fields[i].ty); }
  }

  predicate IsZero(bytes: seq<Byte>, off: nat, n: nat)
  {
    off + n <= |bytes| && forall j :: off <= j < off + n ==> bytes[j] == 0
  }

  predicate AllSet(bytes: seq<Byte>, off: nat, n: nat)
  {
    off + n <= |bytes| && forall j :: off <= j < off + n ==> bytes[j] != 0
  }

  /** An object of zeros is initialised and clean. */
  lemma {:induction false} ZeroView(t: Type, bytes: seq<Byte>, off: nat, anonymous: bool)
    requires WellFormed(t) && ZeroInits(t) && IsZero(bytes, off, Extent(t))
    ensures ViewInit(Decode(t, bytes, off, anonymous)) && !ViewDirty(Decode(t, bytes, off, anonymous))
  {
    if t.Record? {
      var subs := DecodeFields(t, bytes, off);
      forall i | 0 <= i < |t.fields| ensures ViewInit(subs[i]) && !FieldDirty(t, bytes, off, i, subs[i]) {
        assert FieldStop(t, i) <= t.size;
        ZeroView(t.fields[i].ty, bytes, off + t.fields[i].offset, t.fields[i].anonymous);
      }
      if t.isUnion {
        UnionFacts(t, bytes, off, anonymous);
      } else {
        StructFacts(t, bytes, off, anonymous);
      }
    }
  }

  /** What the view of an object with all bytes set is. */
  lemma {:induction false} OnesView(t: Type, bytes: seq<Byte>, off: nat, anonymous: bool)
    requires WellFormed(t) && AllSet(bytes, off, Extent(t))
    ensures ViewInit(Decode(t, bytes, off, anonymous)) == OnesInit(t, anonymous)
    ensures ViewDirty(Decode(t, bytes, off, anonymous)) == OnesDirty(t)
  {
    if t.Record? {
      var subs := DecodeFields(t, bytes, off);
      forall i | 0 <= i < |t.fields|
        ensures ViewInit(subs[i]) == OnesInit(t.fields[i].ty, t.fields[i].anonymous)
        ensures FieldDirty(t, bytes, off, i, subs[i]) == !OnesClean(t, i)
      {
        assert FieldStop(t, i) <= t.size;
        OnesView(t.fields[i].ty, bytes, off + t.fields[i].offset, t.fields[i].anonymous);
        OnesField(t, bytes, off, i, subs[i]);
      }
      if t.isUnion {
        UnionFacts(t, bytes, off, anonymous);
      } else {
        StructFacts(t, bytes, off, anonymous);
      }
    }
  }

  lemma OnesField(t: Type, bytes: seq<Byte>, off: nat, i: nat, sub: View)
    requires t.Record? && WellFormed(t) && i < |t.fields| && AllSet(bytes, off, t.size)
    ensures FieldDirty(t, bytes, off, i, sub) == (!Unchecked(t, i) || ViewDirty(sub))
  {
    assert FieldStop(t, i) <= t.size;
    var start, end := off + FieldStart(t, i), off + FieldStart(t, i) + Size(t, i);
    if PrevEnd(t, off, i) < start {
      assert IsSet(bytes, PrevEnd(t, off, i));
    }
    if end < off + t.size {
      assert IsSet(bytes, end);
    }
  }

  /** In a settled layout a record is initialised whatever the bytes are, or not if all are set. */
  lemma {:induction false} InitDecided(t: Type, anonymous: bool)
    requires Settled(t)
    ensures AlwaysInit(t, anonymous) || !OnesInit(t, anonymous)
  {
    if t.Record? && t.isUnion {
      if i :| 0 <= i < |t.fields| && Size(t, i) > 0 && OnesClean(t, i) {
        assert AlwaysClean(t, i);
      }
    } else if t.Record? {
      forall i | 0 <= i < |t.fields|
        ensures AlwaysInit(t.fields[i].ty, t.fields[i].anonymous) || !OnesInit(t.fields[i].ty, t.fields[i].anonymous)
      {
        InitDecided(t.fields[i].ty, t.fields[i].anonymous);
      }
    }
  }

  // ---- uncovered bytes of records

  lemma UncoveredGap(t: Type, v: View, k: nat)
    requires t.Record? && !t.isUnion && v.RecordView? && v.copy.None? && |v.subViews| == |t.fields| && !InSomeField(t, k)
    ensures !Covers(t, v, k)
  {
    forall i | 0 <= i < |t.fields| ensures !CoversField(t, v.subViews, i, k) {
      assert !InField(t, i, k);
    }
  }

  lemma UncoveredInField(t: Type, v: View, i: nat, k: nat)
    requires t.Record? && !t.isUnion && WellFormed(t) && v.RecordView? && v.copy.None? && |v.subViews| == |t.fields|
    requires i < |t.fields| && k < Extent(t.fields[i].ty) && !Covers(t.fields[i].ty, v.subViews[i], k)
    ensures !Covers(t, v, FieldStart(t, i) + k)
  {
    var n := FieldStart(t, i) + k;
    assert n - FieldStart(t, i) == k;
    forall j | 0 <= j < |t.fields| ensures !CoversField(t, v.subViews, j, n) {
      if j < i {
        assert FieldStop(t, j) <= FieldStart(t, i);
      } else if j > i {
        assert FieldStop(t, i) <= FieldStart(t, j);
      }
    }
  }

  // ---- objects that are zero but for one field

  function Frame(t: Type, i: nat, w: seq<Byte>): (r: seq<Byte>)
    requires t.Record? && i < |t.fields| && FieldStop(t, i) <= t.size && |w| == Extent(t.fields[i].ty)
    ensures |r| == t.size
    ensures forall k :: 0 <= k < t.size ==> r[k] == if InField(t, i, k) then w[k - FieldStart(t, i)] else 0
  {
    Overlay(Zeros(t.size), FieldStart(t, i), w)
  }

  /** The bytes of an object outside [lo, hi) are zero. */
  predicate ZeroOutside(bytes: seq<Byte>, off: nat, size: nat, lo: nat, hi: nat)
    requires off + size <= |bytes|
  {
    forall n :: off <= n < off + size && !(off + lo <= n < off + hi) ==> bytes[n] == 0
  }

  lemma FramePlaced(t: Type, i: nat, w: seq<Byte>, bytes: seq<Byte>, off: nat)
    requires t.Record? && i < |t.fields| && FieldStop(t, i) <= t.size && |w| == Extent(t.fields[i].ty)
    requires Placed(bytes, off, Frame(t, i, w))
    ensures Placed(bytes, off + FieldStart(t, i), w)
    ensures ZeroOutside(bytes, off, t.size, FieldStart(t, i), FieldStop(t, i))
    ensures (forall j :: Size(t, i) <= j < |w| ==> w[j] == 0) ==>
      ZeroOutside(bytes, off, t.size, FieldStart(t, i), FieldStart(t, i) + Size(t, i))
  {
    var r := Frame(t, i, w);
    forall j | 0 <= j < |w| ensures bytes[off + FieldStart(t, i) + j] == w[j] {
      var k := FieldStart(t, i) + j;
      assert InField(t, i, k) && k - FieldStart(t, i) == j;
      assert bytes[off + k] == r[k];
    }
    forall n | off <= n < off + t.size ensures bytes[n] == r[n - off] {
      assert off + (n - off) == n;
    }
  }

  /** The other fields of such a struct are zero, so they are initialised and clean. */
  lemma OtherField(t: Type, i: nat, j: nat, bytes: seq<Byte>, off: nat)
    requires t.Record? && !t.isUnion && WellFormed(t) && ZeroInits(t) && i < |t.fields| && j < |t.fields| && i != j
    requires off + t.size <= |bytes| && ZeroOutside(bytes, off, t.size, FieldStart(t, i), FieldStop(t, i))
    ensures var sub := DecodeFields(t, bytes, off)[j]; ViewInit(sub) && !ViewDirty(sub)
  {
    assert FieldStop(t, j) <= t.size;
    assert FieldStop(t, i) <= FieldStart(t, j) || FieldStop(t, j) <= FieldStart(t, i);
    ZeroView(t.fields[j].ty, bytes, off + t.fields[j].offset, t.fields[j].anonymous);
  }

  /** No byte that is checked beside field `j` is set, if all set bytes are within the reported size of field `i`. */
  lemma NoneChecked(t: Type, i: nat, j: nat, bytes: seq<Byte>, off: nat, sub: View)
    requires t.Record? && WellFormed(t) && i < |t.fields| && j < |t.fields| && off + t.size <= |bytes|
    requires t.isUnion ==> i == j
    requires ZeroOutside(bytes, off, t.size, FieldStart(t, i), FieldStart(t, i) + Size(t, i))
    requires !ViewDirty(sub)
    ensures !FieldDirty(t, bytes, off, j, sub)
  {
    assert FieldStop(t, j) <= t.size && FieldStop(t, i) <= t.size;
    SizeWithinExtent(t.fields[i].ty);
    assert j < i ==> FieldStop(t, j) <= FieldStart(t, i);
    assert i < j - 1 ==> FieldStop(t, i) <= FieldStart(t, j - 1);
    assert i < j ==> FieldStop(t, i) <= FieldStart(t, j);
    SizeWithinExtent(t.fields[j].ty);
  }

  /** A union is initialised from its most preferred member if nothing outside that member is set. */
  lemma PicksMember(t: Type, m: nat, bytes: seq<Byte>, off: nat, anonymous: bool)
    requires t.Record? && t.isUnion && WellFormed(t) && m < |t.fields| && Size(t, m) > 0 && off + t.size <= |bytes|
    requires forall j :: 0 <= j < |t.fields| ==> !Preferred(t, j, m)
    requires ZeroOutside(bytes, off, t.size, FieldStart(t, m), FieldStart(t, m) + Size(t, m))
    requires !ViewDirty(DecodeFields(t, bytes, off)[m])
    ensures var v := Decode(t, bytes, off, anonymous); v.RecordView? && v.pick == Some(m) && v.copy.None? && v.init
  {
    UnionFacts(t, bytes, off, anonymous);
    NoneChecked(t, m, m, bytes, off, DecodeFields(t, bytes, off)[m]);
    var p := Decode(t, bytes, off, anonymous).pick.value;
    assert !Preferred(t, p, m);
  }

  // ---- a lost byte of every layout that is not tracked

  function Ones(n: nat): (w: seq<Byte>)
    ensures |w| == n && forall j :: 0 <= j < n ==> w[j] == 1
  {
    seq(n, _ => 1)
  }

  /** A record that all bytes set leave uninitialised loses one of them. */
  lemma {:induction false} OnesLose(t: Type, anonymous: bool) returns (k: nat)
    requires WellFormed(t) && ZeroInits(t) && !OnesInit(t, anonymous)
    ensures Loses(t, anonymous, false, true, Ones(Extent(t)), k)
  {
    if t.isUnion {
      k := 0;
      var i :| 0 <= i < |t.fields| && Size(t, i) > 0;
      assert FieldStop(t, i) <= t.size;
      SizeWithinExtent(t.fields[i].ty);
      forall bytes: seq<Byte>, off: nat | Placed(bytes, off, Ones(Extent(t)))
        ensures !Covers(t, Decode(t, bytes, off, anonymous), k) && !ViewDirty(Decode(t, bytes, off, anonymous))
      {
        UnionOfOnes(t, bytes, off, anonymous);
      }
    } else {
      var i :| 0 <= i < |t.fields| && !OnesInit(t.fields[i].ty, t.fields[i].anonymous);
      assert FieldStop(t, i) <= t.size;
      var j := OnesLose(t.fields[i].ty, t.fields[i].anonymous);
      k := FieldStart(t, i) + j;
      forall bytes: seq<Byte>, off: nat | Placed(bytes, off, Ones(Extent(t)))
        ensures !Covers(t, Decode(t, bytes, off, anonymous), k) && !ViewDirty(Decode(t, bytes, off, anonymous))
      {
        StructOfOnes(t, i, j, bytes, off, anonymous);
      }
    }
  }

  lemma UnionOfOnes(t: Type, bytes: seq<Byte>, off: nat, anonymous: bool)
    requires t.Record? && t.isUnion && WellFormed(t) && !OnesInit(t, anonymous) && Placed(bytes, off, Ones(t.size))
    ensures var v := Decode(t, bytes, off, anonymous); !ViewDirty(v) && forall k :: !Covers(t, v, k)
  {
    OnesPlaced(bytes, off, t.size);
    OnesView(t, bytes, off, anonymous);
    UnionFacts(t, bytes, off, anonymous);
  }

  lemma StructOfOnes(t: Type, i: nat, j: nat, bytes: seq<Byte>, off: nat, anonymous: bool)
    requires t.Record? && !t.isUnion && WellFormed(t) && !OnesInit(t, anonymous) && Placed(bytes, off, Ones(t.size))
    requires i < |t.fields| && FieldStop(t, i) <= t.size
    requires Loses(t.fields[i].ty, t.fields[i].anonymous, false, true, Ones(Extent(t.fields[i].ty)), j)
    ensures var v := Decode(t, bytes, off, anonymous); !ViewDirty(v) && !Covers(t, v, FieldStart(t, i) + j)
  {
    OnesPlaced(bytes, off, t.size);
    OnesView(t, bytes, off, anonymous);
    StructFacts(t, bytes, off, anonymous);
    PlacedOnes(bytes, off + FieldStart(t, i), Extent(t.fields[i].ty));
    UncoveredInField(t, Decode(t, bytes, off, anonymous), i, j);
  }

  lemma OnesPlaced(bytes: seq<Byte>, off: nat, n: nat)
    requires Placed(bytes, off, Ones(n))
    ensures AllSet(bytes, off, n) && forall j :: off <= j < off + n ==> bytes[j] == 1
  {
    forall j | off <= j < off + n ensures bytes[j] == 1 {
      assert bytes[off + (j - off)] == Ones(n)[j - off];
    }
  }

  lemma PlacedOnes(bytes: seq<Byte>, off: nat, n: nat)
    requires off + n <= |bytes| && forall j :: off <= j < off + n ==> bytes[j] == 1
    ensures Placed(bytes, off, Ones(n))
  {
  }

  lemma StructLosesAt(t: Type, anonymous: bool, init: bool, clean: bool, i: nat, w: seq<Byte>, k: nat, bytes: seq<Byte>, off: nat)
    requires t.Record? && !t.isUnion && WellFormed(t) && ZeroInits(t) && i < |t.fields| && FieldStop(t, i) <= t.size
    requires Loses(t.fields[i].ty, t.fields[i].anonymous, init || SelfInit(t, anonymous), clean, w, k)
    requires clean ==> init
    requires Placed(bytes, off, Frame(t, i, w))
    ensures var v := Decode(t, bytes, off, anonymous);
      && !Covers(t, v, FieldStart(t, i) + k)
      && (init ==> ViewInit(v))
      && (clean ==> !ViewDirty(v))
  {
    FramePlaced(t, i, w, bytes, off);
    StructFacts(t, bytes, off, anonymous);
    var subs := DecodeFields(t, bytes, off);
    forall j | 0 <= j < |t.fields|
      ensures init || SelfInit(t, anonymous) ==> ViewInit(subs[j])
      ensures clean ==> !FieldDirty(t, bytes, off, j, subs[j])
    {
      if j != i { OtherField(t, i, j, bytes, off); }
      if clean { NoneChecked(t, i, j, bytes, off, subs[j]); }
    }
    UncoveredInField(t, Decode(t, bytes, off, anonymous), i, k);
  }

  /** A struct loses what one of its fields loses. */
  lemma StructLoses(t: Type, anonymous: bool, init: bool, clean: bool, i: nat, w: seq<Byte>, k: nat)
    requires t.Record? && !t.isUnion && WellFormed(t) && ZeroInits(t) && i < |t.fields| && FieldStop(t, i) <= t.size
    requires Loses(t.fields[i].ty, t.fields[i].anonymous, init || SelfInit(t, anonymous), clean, w, k)
    requires clean ==> init
    ensures Loses(t, anonymous, init, clean, Frame(t, i, w), FieldStart(t, i) + k)
  {
    forall bytes: seq<Byte>, off: nat | Placed(bytes, off, Frame(t, i, w))
      ensures !Covers(t, Decode(t, bytes, off, anonymous), FieldStart(t, i) + k)
      ensures init ==> ViewInit(Decode(t, bytes, off, anonymous))
      ensures clean ==> !ViewDirty(Decode(t, bytes, off, anonymous))
    {
      StructLosesAt(t, anonymous, init, clean, i, w, k, bytes, off);
    }
  }

  /** A union that is zero but for bytes of its most preferred member is initialised from it. */
  lemma UnionFrame(t: Type, anonymous: bool, m: nat, w: seq<Byte>, k: nat, bytes: seq<Byte>, off: nat)
    requires t.Record? && t.isUnion && WellFormed(t) && m < |t.fields| && FieldStop(t, m) <= t.size
    requires forall j :: 0 <= j < |t.fields| ==> !Preferred(t, j, m)
    requires |w| == Extent(t.fields[m].ty) && k < Size(t, m) && (forall j :: Size(t, m) <= j < |w| ==> w[j] == 0)
    requires k < |w| && Placed(bytes, off, Frame(t, m, w)) && !ViewDirty(DecodeFields(t, bytes, off)[m])
    ensures Placed(bytes, off + FieldStart(t, m), w)
    ensures var v := Decode(t, bytes, off, anonymous);
      && ViewInit(v) && !ViewDirty(v)
      && Covers(t, v, FieldStart(t, m) + k) == Covers(t.fields[m].ty, DecodeFields(t, bytes, off)[m], k)
  {
    FramePlaced(t, m, w, bytes, off);
    UnionFacts(t, bytes, off, anonymous);
    PicksMember(t, m, bytes, off, anonymous);
    assert FieldStart(t, m) + k - FieldStart(t, m) == k;
  }

  lemma UnionLosesAt(t: Type, anonymous: bool, m: nat, w: seq<Byte>, k: nat, bytes: seq<Byte>, off: nat)
    requires t.Record? && t.isUnion && WellFormed(t) && m < |t.fields| && FieldStop(t, m) <= t.size
    requires forall j :: 0 <= j < |t.fields| ==> !Preferred(t, j, m)
    requires Loses(t.fields[m].ty, t.fields[m].anonymous, false, true, w, k) && Placed(bytes, off, Frame(t, m, w))
    ensures var v := Decode(t, bytes, off, anonymous);
      !Covers(t, v, FieldStart(t, m) + k) && ViewInit(v) && !ViewDirty(v)
  {
    FramePlaced(t, m, w, bytes, off);
    UnionFrame(t, anonymous, m, w, k, bytes, off);
  }

  /** A union loses what its most preferred member loses, clean. */
  lemma UnionLoses(t: Type, anonymous: bool, m: nat, w: seq<Byte>, k: nat)
    requires t.Record? && t.isUnion && WellFormed(t) && m < |t.fields| && FieldStop(t, m) <= t.size
    requires forall j :: 0 <= j < |t.fields| ==> !Preferred(t, j, m)
    requires Loses(t.fields[m].ty, t.fields[m].anonymous, false, true, w, k)
    ensures Loses(t, anonymous, true, true, Frame(t, m, w), FieldStart(t, m) + k)
  {
    forall bytes: seq<Byte>, off: nat | Placed(bytes, off, Frame(t, m, w))
      ensures !Covers(t, Decode(t, bytes, off, anonymous), FieldStart(t, m) + k)
      ensures ViewInit(Decode(t, bytes, off, anonymous)) && !ViewDirty(Decode(t, bytes, off, anonymous))
    {
      UnionLosesAt(t, anonymous, m, w, k, bytes, off);
    }
  }

  /** An array loses what its first element loses, initialised and clean as every array. */
  lemma ArrayLoses(t: Type, anonymous: bool, w: seq<Byte>, k: nat) returns (r: seq<Byte>)
    requires t.Array? && WellFormed(t) && Loses(t.elem, false, false, false, w, k)
    ensures Loses(t, anonymous, true, true, r, k)
  {
    ProductPositive(t.dims);
    TimesGrows(1, Product(t.dims), TypeSize(t.elem));
    TimesGrows(1, t.dims[0], TypeSize(t.elem));
    r := w + Zeros(Extent(t) - |w|);
    forall bytes: seq<Byte>, off: nat | Placed(bytes, off, r)
      ensures !Covers(t, Decode(t, bytes, off, anonymous), k)
    {
      ArrayLosesAt(t, anonymous, w, r, k, bytes, off);
    }
  }

  lemma ArrayLosesAt(t: Type, anonymous: bool, w: seq<Byte>, r: seq<Byte>, k: nat, bytes: seq<Byte>, off: nat)
    requires t.Array? && WellFormed(t) && Loses(t.elem, false, false, false, w, k) && Product(t.dims) > 0
    requires |w| <= |r| && r[..|w|] == w && Placed(bytes, off, r)
    ensures !Covers(t, Decode(t, bytes, off, anonymous), k)
  {
    assert Placed(bytes, off, w) by {
      forall j | 0 <= j < |w| ensures bytes[off + j] == w[j] { assert r[j] == r[..|w|][j]; }
    }
    var views := DecodeAll(t.elem, bytes, off, Product(t.dims));
    assert views[0] == Decode(t.elem, bytes, off, false);
    assert !CoversAll(t.elem, views, k);
  }

  function OneSet(n: nat, k: nat): (w: seq<Byte>)
    requires k < n
    ensures |w| == n && forall j :: 0 <= j < n ==> w[j] == if j == k then 1 else 0
  {
    Overlay(Zeros(n), k, [1])
  }

  /** A byte of a struct that no field occupies is lost; the view is dirty unless there is no field. */
  lemma GapLoses(t: Type, anonymous: bool, k: nat)
    requires t.Record? && !t.isUnion && WellFormed(t) && ZeroInits(t) && k < t.size && !InSomeField(t, k)
    ensures Loses(t, anonymous, true, |t.fields| == 0, OneSet(t.size, k), k)
  {
    forall bytes: seq<Byte>, off: nat | Placed(bytes, off, OneSet(t.size, k))
      ensures !Covers(t, Decode(t, bytes, off, anonymous), k) && ViewInit(Decode(t, bytes, off, anonymous))
      ensures |t.fields| == 0 ==> !ViewDirty(Decode(t, bytes, off, anonymous))
    {
      GapLosesAt(t, anonymous, k, bytes, off);
    }
  }

  lemma GapLosesAt(t: Type, anonymous: bool, k: nat, bytes: seq<Byte>, off: nat)
    requires t.Record? && !t.isUnion && WellFormed(t) && ZeroInits(t) && k < t.size && !InSomeField(t, k)
    requires Placed(bytes, off, OneSet(t.size, k))
    ensures var v := Decode(t, bytes, off, anonymous); !Covers(t, v, k) && ViewInit(v) && (|t.fields| == 0 ==> !ViewDirty(v))
  {
    StructFacts(t, bytes, off, anonymous);
    forall i | 0 <= i < |t.fields| ensures ViewInit(DecodeFields(t, bytes, off)[i]) {
      assert FieldStop(t, i) <= t.size && !InField(t, i, k);
      var f := t.fields[i];
      forall n | off + f.offset <= n < off + f.offset + Extent(f.ty) ensures bytes[n] == 0 {
        assert bytes[off + (n - off)] == OneSet(t.size, k)[n - off];
      }
      ZeroView(f.ty, bytes, off + f.offset, f.anonymous);
    }
    UncoveredGap(t, Decode(t, bytes, off, anonymous), k);
  }

  /** A settled layout that is not tracked has a clean object that loses a byte. */
  lemma {:induction false} UntrackedLoses(t: Type, anonymous: bool) returns (w: seq<Byte>, k: nat)
    requires WellFormed(t) && Settled(t) && !Tracked(t)
    ensures Loses(t, anonymous, true, true, w, k)
    decreases t, 0, 0, 0
  {
    SettledZeroInits(t);
    if t.Array? {
      w, k := GapLosesSomewhere(t.elem, false, false);
      w := ArrayLoses(t, anonymous, w, k);
    } else if t.isUnion {
      w, k := UntrackedUnionLoses(t, anonymous);
    } else if |t.fields| == 0 {
      w, k := OneSet(t.size, 0), 0;
      GapLoses(t, anonymous, 0);
    } else {
      var i :| 0 <= i < |t.fields| && !Tracked(t.fields[i].ty);
      assert FieldStop(t, i) <= t.size;
      w, k := UntrackedLoses(t.fields[i].ty, t.fields[i].anonymous);
      StructLoses(t, anonymous, true, true, i, w, k);
      w, k := Frame(t, i, w), FieldStart(t, i) + k;
    }
  }

  lemma {:induction false} UntrackedUnionLoses(t: Type, anonymous: bool) returns (w: seq<Byte>, k: nat)
    requires t.Record? && t.isUnion && WellFormed(t) && Settled(t) && !Tracked(t)
    ensures Loses(t, anonymous, true, true, w, k)
    decreases t, 0, 0, 0, 0
  {
    var m :| 0 <= m < |t.fields| && !Harmless(t, m);
    assert FieldStop(t, m) <= t.size;
    w, k := HarmfulLoses(t.fields[m].ty, t.fields[m].anonymous);
    UnionLoses(t, anonymous, m, w, k);
    w, k := Frame(t, m, w), FieldStart(t, m) + k;
  }

  lemma {:induction false} HarmfulLoses(t: Type, anonymous: bool) returns (w: seq<Byte>, k: nat)
    requires WellFormed(t) && Settled(t) && !(Tracked(t) && AlwaysInit(t, anonymous))
    ensures Loses(t, anonymous, false, true, w, k)
    decreases t, 0, 1
  {
    SettledZeroInits(t);
    if !Tracked(t) {
      w, k := UntrackedLoses(t, anonymous);
    } else {
      InitDecided(t, anonymous);
      w := Ones(Extent(t));
      k := OnesLose(t, anonymous);
    }
  }

  /** A settled layout with a gap has an object, clean or dirty, that loses a byte. */
  lemma {:induction false} GapLosesSomewhere(t: Type, anonymous: bool, init: bool) returns (w: seq<Byte>, k: nat)
    requires WellFormed(t) && Settled(t) && !Gapless(t, anonymous, init)
    ensures Loses(t, anonymous, init, false, w, k)
    decreases t, 1
  {
    SettledZeroInits(t);
    if t.Array? {
      w, k := GapLosesSomewhere(t.elem, false, false);
      w := ArrayLoses(t, anonymous, w, k);
    } else if t.isUnion {
      if !Tracked(t) {
        w, k := UntrackedLoses(t, anonymous);
      } else {
        InitDecided(t, anonymous);
        w := Ones(Extent(t));
        k := OnesLose(t, anonymous);
      }
    } else if !NoGap(t) {
      k :| 0 <= k < t.size && !InSomeField(t, k);
      w := OneSet(t.size, k);
      GapLoses(t, anonymous, k);
    } else {
      var i :| 0 <= i < |t.fields| && !Gapless(t.fields[i].ty, t.fields[i].anonymous, init || SelfInit(t, anonymous));
      assert FieldStop(t, i) <= t.size;
      w, k := GapLosesSomewhere(t.fields[i].ty, t.fields[i].anonymous, init || SelfInit(t, anonymous));
      StructLoses(t, anonymous, init, false, i, w, k);
      w, k := Frame(t, i, w), FieldStart(t, i) + k;
    }
  }

  // ---- the dirty flag

  /** The reported sizes are the real ones wherever a struct checks the bytes behind a field, inside unions and arrays aside. */
  predicate ExactSizes(t: Type)
  {
    match t
    case Prim(_) => true
    case Array(_, _) => TypeSize(t) == Extent(t)
    case Record(isUnion, _, _, fields) => isUnion || forall i :: 0 <= i < |fields| ==> ExactSizes(fields[i].ty)
  }

  /** With exact sizes, a dirty view has a set byte in its padding. */
  lemma {:induction false} DirtyMeansSetPadding(t: Type, bytes: seq<Byte>, off: nat, anonymous: bool)
    requires WellFormed(t) && ExactSizes(t) && off + Extent(t) <= |bytes|
    requires ViewDirty(Decode(t, bytes, off, anonymous))
    ensures !PaddingZero(t, Decode(t, bytes, off, anonymous), bytes, off)
    decreases t
  {
    if t.isUnion {
      UnionFacts(t, bytes, off, anonymous);
    } else {
      StructFacts(t, bytes, off, anonymous);
      var subs := DecodeFields(t, bytes, off);
      var i :| 0 <= i < |t.fields| && FieldDirty(t, bytes, off, i, subs[i]);
      DirtyField(t, bytes, off, Decode(t, bytes, off, anonymous), i);
    }
  }

  lemma {:induction false} DirtyField(t: Type, bytes: seq<Byte>, off: nat, v: View, i: nat)
    requires t.Record? && !t.isUnion && WellFormed(t) && ExactSizes(t) && off + t.size <= |bytes| && i < |t.fields|
    requires v.RecordView? && v.copy.None? && v.subViews == DecodeFields(t, bytes, off)
    requires FieldDirty(t, bytes, off, i, v.subViews[i])
    ensures !PaddingZero(t, v, bytes, off)
    decreases t, 0
  {
    var f := t.fields[i];
    assert FieldStop(t, i) <= t.size;
    if ViewDirty(v.subViews[i]) {
      DirtyMeansSetPadding(f.ty, bytes, off + f.offset, f.anonymous);
      DirtyInside(t, bytes, off, v, i);
    } else {
      var k := CheckedByte(t, bytes, off, i, v.subViews[i]);
      UncoveredGap(t, v, k);
    }
  }

  lemma DirtyInside(t: Type, bytes: seq<Byte>, off: nat, v: View, i: nat)
    requires t.Record? && !t.isUnion && WellFormed(t) && v.RecordView? && v.copy.None? && |v.subViews| == |t.fields|
    requires off + t.size <= |bytes| && i < |t.fields| && FieldStop(t, i) <= t.size
    requires !PaddingZero(t.fields[i].ty, v.subViews[i], bytes, off + FieldStart(t, i))
    ensures !PaddingZero(t, v, bytes, off)
  {
    var start := FieldStart(t, i);
    var k :| 0 <= k < Extent(t.fields[i].ty) && !Covers(t.fields[i].ty, v.subViews[i], k) && bytes[off + start + k] != 0;
    UncoveredInField(t, v, i, k);
    assert off + start + k == off + (start + k);
  }

  /** The set byte that a struct with exact sizes has found beside a field is in no field. */
  lemma CheckedByte(t: Type, bytes: seq<Byte>, off: nat, i: nat, sub: View) returns (k: nat)
    requires t.Record? && !t.isUnion && WellFormed(t) && ExactSizes(t) && off + t.size <= |bytes| && i < |t.fields|
    requires FieldDirty(t, bytes, off, i, sub) && !ViewDirty(sub)
    ensures k < t.size && bytes[off + k] != 0 && !InSomeField(t, k)
  {
    SizeWithinExtent(t.fields[i].ty);
    if i > 0 { SizeWithinExtent(t.fields[i - 1].ty); }
    assert FieldStop(t, i) <= t.size;
    var start, stop := off + FieldStart(t, i), off + FieldStop(t, i);
    var n;
    if NonZero(bytes, PrevEnd(t, off, i), start) {
      n :| PrevEnd(t, off, i) <= n < start && IsSet(bytes, n);
    } else {
      n :| stop <= n < off + t.size && IsSet(bytes, n);
    }
    k := n - off;
    forall j | 0 <= j < |t.fields| ensures !InField(t, j, k) {
      assert j < i - 1 ==> FieldStop(t, j) <= FieldStart(t, i - 1);
      assert j < i ==> FieldStop(t, j) <= FieldStart(t, i);
      assert j > i ==> FieldStop(t, i) <= FieldStart(t, j);
    }
  }

  /** Every record has a field. */
  predicate NoEmpty(t: Type)
  {
    match t
    case Prim(_) => true
    case Array(elem, _) => NoEmpty(elem)
    case Record(_, _, _, fields) => |fields| > 0 && forall i :: 0 <= i < |fields| ==> NoEmpty(fields[i].ty)
  }

  lemma {:induction false} NoEmptySize(t: Type)
    requires WellFormed(t) && NoEmpty(t)
    ensures TypeSize(t) > 0
  {
    match t
    case Prim(_) =>
    case Array(elem, dims) =>
      TimesGrows(1, dims[0], TypeSize(elem));
    case Record(_, _, _, fields) =>
      NoEmptySize(fields[0].ty);
      SizeWithinExtent(fields[0].ty);
      assert FieldStop(t, 0) <= t.size;
  }

  lemma {:induction false} NoEmptyZeroInits(t: Type)
    requires WellFormed(t) && NoEmpty(t)
    ensures ZeroInits(t)
  {
    match t
    case Prim(_) =>
    case Array(elem, _) =>
      NoEmptyZeroInits(elem);
    case Record(_, _, _, fields) =>
      forall i | 0 <= i < |fields| ensures ZeroInits(fields[i].ty) { NoEmptyZeroInits(fields[i].ty); }
      NoEmptySize(fields[0].ty);
      assert Size(t, 0) > 0;
  }

  /** Wherever an object has the bytes `w`, set at `k` alone, it is initialised, byte `k` is covered, and it is dirty or not. */
  ghost predicate Shows(t: Type, anonymous: bool, dirty: bool, w: seq<Byte>, k: nat)
  {
    && |w| == Extent(t) && k < |w| && (forall j :: 0 <= j < |w| ==> (w[j] != 0 <==> j == k))
    && forall bytes: seq<Byte>, off: nat :: Placed(bytes, off, w) ==>
      && Covers(t, Decode(t, bytes, off, anonymous), k)
      && ViewInit(Decode(t, bytes, off, anonymous))
      && ViewDirty(Decode(t, bytes, off, anonymous)) == dirty
  }

  lemma FrameOne(t: Type, i: nat, w: seq<Byte>, k: nat)
    requires t.Record? && i < |t.fields| && FieldStop(t, i) <= t.size && |w| == Extent(t.fields[i].ty) && k < |w|
    requires forall j :: 0 <= j < |w| ==> (w[j] != 0 <==> j == k)
    ensures forall j :: 0 <= j < t.size ==> (Frame(t, i, w)[j] != 0 <==> j == FieldStart(t, i) + k)
  {
  }

  /** A struct shows what one of its fields shows; it is dirty if the byte is beyond the size reported for the field. */
  lemma StructShows(t: Type, anonymous: bool, dirty: bool, i: nat, w: seq<Byte>, k: nat)
    requires t.Record? && !t.isUnion && WellFormed(t) && ZeroInits(t) && i < |t.fields| && FieldStop(t, i) <= t.size
    requires Shows(t.fields[i].ty, t.fields[i].anonymous, dirty, w, k)
    ensures Shows(t, anonymous, dirty || k >= Size(t, i), Frame(t, i, w), FieldStart(t, i) + k)
  {
    FrameOne(t, i, w, k);
    forall bytes: seq<Byte>, off: nat | Placed(bytes, off, Frame(t, i, w))
      ensures Covers(t, Decode(t, bytes, off, anonymous), FieldStart(t, i) + k)
      ensures ViewInit(Decode(t, bytes, off, anonymous))
      ensures ViewDirty(Decode(t, bytes, off, anonymous)) == (dirty || k >= Size(t, i))
    {
      StructShowsAt(t, anonymous, dirty, i, w, k, bytes, off);
    }
  }

  lemma StructShowsAt(t: Type, anonymous: bool, dirty: bool, i: nat, w: seq<Byte>, k: nat, bytes: seq<Byte>, off: nat)
    requires t.Record? && !t.isUnion && WellFormed(t) && ZeroInits(t) && i < |t.fields| && FieldStop(t, i) <= t.size
    requires Shows(t.fields[i].ty, t.fields[i].anonymous, dirty, w, k) && Placed(bytes, off, Frame(t, i, w))
    ensures var v := Decode(t, bytes, off, anonymous);
      Covers(t, v, FieldStart(t, i) + k) && ViewInit(v) && (ViewDirty(v) <==> dirty || k >= Size(t, i))
  {
    FramePlaced(t, i, w, bytes, off);
    StructFacts(t, bytes, off, anonymous);
    var subs := DecodeFields(t, bytes, off);
    forall j | 0 <= j < |t.fields| ensures ViewInit(subs[j]) {
      if j != i { OtherField(t, i, j, bytes, off); }
    }
    OneSetDirty(t, dirty, i, w, k, bytes, off);
    assert FieldStart(t, i) + k - FieldStart(t, i) == k && CoversField(t, subs, i, FieldStart(t, i) + k);
  }

  lemma OneSetDirty(t: Type, dirty: bool, i: nat, w: seq<Byte>, k: nat, bytes: seq<Byte>, off: nat)
    requires t.Record? && !t.isUnion && WellFormed(t) && ZeroInits(t) && i < |t.fields| && FieldStop(t, i) <= t.size
    requires Shows(t.fields[i].ty, t.fields[i].anonymous, dirty, w, k) && Placed(bytes, off, Frame(t, i, w))
    ensures SomeDirty(t, bytes, off, DecodeFields(t, bytes, off)) <==> dirty || k >= Size(t, i)
  {
    FramePlaced(t, i, w, bytes, off);
    var subs := DecodeFields(t, bytes, off);
    if k >= Size(t, i) {
      assert bytes[off + FieldStart(t, i) + k] == w[k];
      BeyondIsChecked(t, i, k, bytes, off);
    } else if dirty {
      var sub := DecodeFields(t, bytes, off)[i];
      assert ViewDirty(sub) && FieldDirty(t, bytes, off, i, sub);
    } else {
      forall j | 0 <= j < |t.fields| ensures !FieldDirty(t, bytes, off, j, subs[j]) {
        if j != i { OtherField(t, i, j, bytes, off); }
        NoneChecked(t, i, j, bytes, off, subs[j]);
      }
    }
  }

  /** A set byte of a field beyond its reported size is found by the next check. */
  lemma BeyondIsChecked(t: Type, i: nat, k: nat, bytes: seq<Byte>, off: nat)
    requires t.Record? && !t.isUnion && WellFormed(t) && i < |t.fields| && Size(t, i) <= k < Extent(t.fields[i].ty)
    requires off + t.size <= |bytes| && FieldStop(t, i) <= t.size && bytes[off + FieldStart(t, i) + k] != 0
    ensures SomeDirty(t, bytes, off, DecodeFields(t, bytes, off))
  {
    var subs := DecodeFields(t, bytes, off);
    var n := off + FieldStart(t, i) + k;
    assert IsSet(bytes, n);
    if i + 1 == |t.fields| {
      assert FieldDirty(t, bytes, off, i, subs[i]);
    } else {
      var j := i + 1;
      assert FieldStop(t, i) <= FieldStart(t, j);
      assert NonZero(bytes, PrevEnd(t, off, j), off + FieldStart(t, j));
      assert FieldDirty(t, bytes, off, j, subs[j]);
    }
  }

  lemma {:induction false} MostPreferred(t: Type, n: nat) returns (m: nat)
    requires t.Record? && 0 < n <= |t.fields|
    ensures m < n && forall j :: 0 <= j < n ==> !Preferred(t, j, m)
    decreases n
  {
    if n == 1 {
      m := 0;
    } else {
      var r := MostPreferred(t, n - 1);
      m := if Preferred(t, n - 1, r) then n - 1 else r;
      forall j | 0 <= j < n ensures !Preferred(t, j, m) {
        assert j < n - 1 ==> !Preferred(t, j, r);
      }
    }
  }

  /** A union shows what its most preferred member shows within its reported size, and is clean. */
  lemma UnionShows(t: Type, anonymous: bool, m: nat, w: seq<Byte>, k: nat)
    requires t.Record? && t.isUnion && WellFormed(t) && m < |t.fields| && FieldStop(t, m) <= t.size
    requires forall j :: 0 <= j < |t.fields| ==> !Preferred(t, j, m)
    requires Shows(t.fields[m].ty, t.fields[m].anonymous, false, w, k) && k < Size(t, m)
    ensures Shows(t, anonymous, false, Frame(t, m, w), FieldStart(t, m) + k)
  {
    FrameOne(t, m, w, k);
    forall bytes: seq<Byte>, off: nat | Placed(bytes, off, Frame(t, m, w))
      ensures Covers(t, Decode(t, bytes, off, anonymous), FieldStart(t, m) + k)
      ensures ViewInit(Decode(t, bytes, off, anonymous)) && !ViewDirty(Decode(t, bytes, off, anonymous))
    {
      UnionShowsAt(t, anonymous, m, w, k, bytes, off);
    }
  }

  lemma UnionShowsAt(t: Type, anonymous: bool, m: nat, w: seq<Byte>, k: nat, bytes: seq<Byte>, off: nat)
    requires t.Record? && t.isUnion && WellFormed(t) && m < |t.fields| && FieldStop(t, m) <= t.size
    requires forall j :: 0 <= j < |t.fields| ==> !Preferred(t, j, m)
    requires Shows(t.fields[m].ty, t.fields[m].anonymous, false, w, k) && k < Size(t, m)
    requires Placed(bytes, off, Frame(t, m, w))
    ensures var v := Decode(t, bytes, off, anonymous);
      Covers(t, v, FieldStart(t, m) + k) && ViewInit(v) && !ViewDirty(v)
  {
    FramePlaced(t, m, w, bytes, off);
    UnionFrame(t, anonymous, m, w, k, bytes, off);
  }

  lemma {:induction false} CoversElement(elem: Type, views: seq<View>, j: nat, k: nat)
    requires j < |views| && k < Extent(elem)
    ensures CoversAll(elem, views, Times(j, Extent(elem)) + k) == Covers(elem, views[j], k)
    decreases j
  {
    if j > 0 { CoversElement(elem, views[1..], j - 1, k); }
  }

  lemma {:induction false} DecodeAllAt(elem: Type, bytes: seq<Byte>, off: nat, n: nat, i: nat)
    requires i < n
    ensures DecodeAll(elem, bytes, off, n)[i] == Decode(elem, bytes, off + Times(i, TypeSize(elem)), false)
    decreases n
  {
    if i > 0 { DecodeAllAt(elem, bytes, off + TypeSize(elem), n - 1, i - 1); }
  }

  /** The object that is zero but for element `j`. */
  function Row(t: Type, j: nat, w: seq<Byte>): (r: seq<Byte>)
    requires t.Array?
    ensures |r| == Extent(t)
  {
    Overlay(Zeros(Extent(t)), Times(j, TypeSize(t.elem)), w)
  }

  lemma ElementInside(t: Type, j: nat)
    requires t.Array? && WellFormed(t) && j < Product(t.dims)
    ensures Times(j, TypeSize(t.elem)) + TypeSize(t.elem) <= Extent(t)
  {
    TimesOrder(j, j + 1, TypeSize(t.elem));
    TimesGrows(j + 1, Product(t.dims), TypeSize(t.elem));
  }

  lemma ArrayShowsAt(t: Type, anonymous: bool, dirty: bool, j: nat, w: seq<Byte>, k: nat, bytes: seq<Byte>, off: nat)
    requires t.Array? && WellFormed(t) && j < Product(t.dims) && Shows(t.elem, false, dirty, w, k)
    requires Placed(bytes, off, Row(t, j, w))
    ensures Covers(t, Decode(t, bytes, off, anonymous), Times(j, TypeSize(t.elem)) + k)
  {
    var at := Times(j, TypeSize(t.elem));
    ElementInside(t, j);
    var views := DecodeAll(t.elem, bytes, off, Product(t.dims));
    forall n | 0 <= n < |w| ensures bytes[off + at + n] == w[n] {
      assert Row(t, j, w)[at + n] == w[n] && bytes[off + (at + n)] == Row(t, j, w)[at + n];
    }
    DecodeAllAt(t.elem, bytes, off, Product(t.dims), j);
    CoversElement(t.elem, views, j, k);
  }

  /** An array shows, clean, what one of its elements shows, dirty or not. */
  lemma ArrayShows(t: Type, anonymous: bool, dirty: bool, j: nat, w: seq<Byte>, k: nat)
    requires t.Array? && WellFormed(t) && j < Product(t.dims) && Shows(t.elem, false, dirty, w, k)
    ensures Shows(t, anonymous, false, Row(t, j, w), Times(j, TypeSize(t.elem)) + k)
  {
    ElementInside(t, j);
    forall bytes: seq<Byte>, off: nat | Placed(bytes, off, Row(t, j, w))
      ensures Covers(t, Decode(t, bytes, off, anonymous), Times(j, TypeSize(t.elem)) + k)
    {
      ArrayShowsAt(t, anonymous, dirty, j, w, k, bytes, off);
    }
  }

  /** Every layout without empty records shows some byte, within its reported size and clean. */
  lemma {:induction false} ShownByte(t: Type, anonymous: bool) returns (w: seq<Byte>, k: nat)
    requires WellFormed(t) && NoEmpty(t)
    ensures Shows(t, anonymous, false, w, k) && k < TypeSize(t)
    decreases t
  {
    match t
    case Prim(len) =>
      w, k := OneSet(len, 0), 0;
    case Array(elem, dims) =>
      w, k := ShownByte(elem, false);
      ProductPositive(dims);
      ArrayShows(t, anonymous, false, 0, w, k);
      TimesGrows(1, dims[0], TypeSize(elem));
      w := Row(t, 0, w);
    case Record(isUnion, _, _, fields) =>
      var i := 0;
      if isUnion { i := MostPreferred(t, |fields|); }
      assert FieldStop(t, i) <= t.size;
      w, k := ShownByte(fields[i].ty, fields[i].anonymous);
      SizeWithinExtent(fields[i].ty);
      if isUnion {
        UnionShows(t, anonymous, i, w, k);
      } else {
        NoEmptyZeroInits(t);
        StructShows(t, anonymous, false, i, w, k);
      }
      w, k := Frame(t, i, w), FieldStart(t, i) + k;
  }

  /** Without exact sizes, a struct has an object that is dirty although its only set byte is covered. */
  lemma {:induction false} FalselyDirty(t: Type, anonymous: bool) returns (w: seq<Byte>, k: nat)
    requires WellFormed(t) && NoEmpty(t) && t.Record? && !ExactSizes(t)
    ensures Shows(t, anonymous, true, w, k)
    decreases t
  {
    var i :| 0 <= i < |t.fields| && !ExactSizes(t.fields[i].ty);
    var f := t.fields[i];
    assert FieldStop(t, i) <= t.size;
    NoEmptyZeroInits(t);
    var dirty := f.ty.Record?;
    if dirty {
      w, k := FalselyDirty(f.ty, f.anonymous);
    } else {
      w, k := LaterRow(f.ty, f.anonymous);
    }
    StructShows(t, anonymous, dirty, i, w, k);
    w, k := Frame(t, i, w), FieldStart(t, i) + k;
  }

  /** A byte of the second row of an array lies beyond its reported size. */
  lemma LaterRow(t: Type, anonymous: bool) returns (w: seq<Byte>, k: nat)
    requires t.Array? && WellFormed(t) && NoEmpty(t) && !ExactSizes(t)
    ensures Shows(t, anonymous, false, w, k) && k >= TypeSize(t)
  {
    w, k := ShownByte(t.elem, false);
    TimesOrder(t.dims[0], Product(t.dims), TypeSize(t.elem));
    SizeWithinExtent(t);
    ArrayShows(t, anonymous, false, t.dims[0], w, k);
    w, k := Row(t, t.dims[0], w), Times(t.dims[0], TypeSize(t.elem)) + k;
  }

  // ---- main results

  /**
   Decoding a named record and initialising a fresh object from the view changes padding bytes alone, and gives the
   record's bytes back exactly if its padding is zero. A view that is not dirty is restored if the layout is tracked; one
   that is dirty is not restored if the reported sizes are exact.
   */
  lemma RoundTrip(t: Type, bytes: seq<Byte>, off: nat)
    requires t.Record? && t.named && WellFormed(t) && off + t.size <= |bytes|
    ensures var v := Decode(t, bytes, off, false);
      && v.RecordView? && v.init && Fits(t, v) && Agrees(t, v, bytes, off)
      && (Encode(t, v) == bytes[off..off + t.size] <==> PaddingZero(t, v, bytes, off))
      && (Tracked(t) && !v.dirty ==> Encode(t, v) == bytes[off..off + t.size])
      && (ExactSizes(t) && v.dirty ==> Encode(t, v) != bytes[off..off + t.size])
  {
    var v := Decode(t, bytes, off, false);
    DecodeFits(t, bytes, off, false);
    EncodeOfDecode(t, bytes, off, false);
    RestoredIff(t, v, bytes, off);
    assert AlwaysInit(t, false);
    AlwaysInitIsInit(t, bytes, off, false);
    if Tracked(t) && !v.dirty {
      CleanMeansZeroPadding(t, bytes, off, false);
    }
    if ExactSizes(t) && v.dirty {
      DirtyMeansSetPadding(t, bytes, off, false);
    }
  }

  /** The generated initialiser gives the bytes of the record back. */
  ghost predicate Restores(t: Type, bytes: seq<Byte>, off: nat)
    requires off + Extent(t) <= |bytes|
  {
    Encode(t, Decode(t, bytes, off, false)) == bytes[off..off + Extent(t)]
  }

  /** In a settled layout, every object that is not flagged dirty is restored if and only if the layout is tracked. */
  lemma CleanIsRestoredIff(t: Type)
    requires t.Record? && t.named && WellFormed(t) && Settled(t)
    ensures Tracked(t) <==>
      forall bytes, off: nat | off + t.size <= |bytes| && !ViewDirty(Decode(t, bytes, off, false)) :: Restores(t, bytes, off)
  {
    forall bytes: seq<Byte>, off: nat | off + t.size <= |bytes| && !ViewDirty(Decode(t, bytes, off, false)) && Tracked(t)
      ensures Restores(t, bytes, off)
    {
      RoundTrip(t, bytes, off);
    }
    if !Tracked(t) {
      var w, k := UntrackedLoses(t, false);
      assert Placed(w, 0, w);
      RoundTrip(t, w, 0);
      assert w[0 + k] != 0 && !Covers(t, Decode(t, w, 0, false), k);
      assert !Restores(t, w, 0);
    }
  }

  /** In a layout without empty records, no object that is flagged dirty is restored if and only if the sizes are exact. */
  lemma DirtyIsLostIff(t: Type)
    requires t.Record? && t.named && WellFormed(t) && NoEmpty(t)
    ensures ExactSizes(t) <==>
      forall bytes, off: nat | off + t.size <= |bytes| && ViewDirty(Decode(t, bytes, off, false)) :: !Restores(t, bytes, off)
  {
    forall bytes: seq<Byte>, off: nat | off + t.size <= |bytes| && ViewDirty(Decode(t, bytes, off, false)) && ExactSizes(t)
      ensures !Restores(t, bytes, off)
    {
      RoundTrip(t, bytes, off);
    }
    if !ExactSizes(t) {
      var w, k := FalselyDirty(t, false);
      assert Placed(w, 0, w);
      RoundTrip(t, w, 0);
      forall j | 0 <= j < t.size && !Covers(t, Decode(t, w, 0, false), j) ensures w[0 + j] == 0 {
        assert j != k;
      }
      assert Restores(t, w, 0);
    }
  }

  /** A union is initialised by the first of its largest clean members, or copied when none is clean. */
  lemma UnionChoice(t: Type, bytes: seq<Byte>, off: nat)
    requires t.Record? && t.isUnion && t.named && WellFormed(t) && off + t.size <= |bytes|
    ensures var v := Decode(t, bytes, off, false);
      && |v.subViews| == |t.fields| && !v.dirty
      && (v.copy.Some? <==> v.pick.None?)
      && (v.copy.Some? ==> v.copy.value == bytes[off..off + t.size])
      && (v.pick.Some? ==> v.pick.value < |t.fields|)
    ensures var v := Decode(t, bytes, off, false);
      forall i :: 0 <= i < |t.fields| && !FieldDirty(t, bytes, off, i, v.subViews[i]) && TypeSize(t.fields[i].ty) > 0 ==>
        && v.pick.Some?
        && !FieldDirty(t, bytes, off, v.pick.value, v.subViews[v.pick.value])
        && TypeSize(t.fields[i].ty) <= TypeSize(t.fields[v.pick.value].ty)
        && (i < v.pick.value ==> TypeSize(t.fields[i].ty) < TypeSize(t.fields[v.pick.value].ty))
    ensures var v := Decode(t, bytes, off, false);
      v.pick.Some? ==> !FieldDirty(t, bytes, off, v.pick.value, v.subViews[v.pick.value])
  {
    UnionFacts(t, bytes, off, false);
    var v := Decode(t, bytes, off, false);
    forall i | 0 <= i < |t.fields| && !FieldDirty(t, bytes, off, i, v.subViews[i]) && TypeSize(t.fields[i].ty) > 0
      ensures v.pick.Some? && Size(t, i) <= Size(t, v.pick.value) && (i < v.pick.value ==> Size(t, i) < Size(t, v.pick.value))
    {
      assert Size(t, i) > 0;
    }
  }
}
