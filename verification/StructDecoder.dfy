/** Memory layouts of C values, in bytes, and what the decoder can rely on. */
module Layouts {
  import opened Bytes
  import opened Dims
  import opened Wrappers

  datatype Type =
    | Prim(len: nat)
    | Array(elem: Type, dims: seq<nat>)
    | Record(isUnion: bool, size: nat, named: bool, fields: seq<Field>)

  datatype Field = Field(ty: Type, offset: nat, anonymous: bool)

  /** `copy` is the memory-copy fallback, `pick` the member that initialises a union. */
  datatype View =
    | PrimView(value: nat)
    | ArrayView(elems: seq<View>)
    | RecordView(subViews: seq<View>, copy: Option<seq<Byte>>, init: bool, dirty: bool, pick: Option<nat>)

  /** The size the type table reports; of an array it multiplies in the first dimension only. */
  function TypeSize(t: Type): nat
  {
    match t
    case Prim(len) => len
    case Record(_, size, _, _) => size
    case Array(elem, dims) => if |dims| == 0 then 0 else Times(dims[0], TypeSize(elem))
  }

  /** The bytes a value of the type really occupies. */
  function Extent(t: Type): nat
  {
    match t
    case Prim(len) => len
    case Record(_, size, _, _) => size
    case Array(elem, dims) => Times(Product(dims), TypeSize(elem))
  }

  function FieldStart(t: Type, i: nat): nat
    requires t.Record? && i < |t.fields|
  {
    t.fields[i].offset
  }

  function FieldStop(t: Type, i: nat): nat
    requires t.Record? && i < |t.fields|
  {
    t.fields[i].offset + Extent(t.fields[i].ty)
  }

  /** A layout a C compiler can produce: fields inside the record, struct fields in order and disjoint. */
  ghost predicate WellFormed(t: Type)
  {
    match t
    case Prim(len) => len > 0
    case Array(elem, dims) =>
      && |dims| > 0 && (forall i :: 0 <= i < |dims| ==> dims[i] > 0)
      && !elem.Array? && TypeSize(elem) > 0 && WellFormed(elem)
    case Record(isUnion, size, _, fields) =>
      && (forall i :: 0 <= i < |fields| ==> WellFormed(fields[i].ty))
      && (forall i :: 0 <= i < |fields| ==> FieldStop(t, i) <= size)
      && (!isUnion ==> forall i, j :: 0 <= i < j < |fields| ==> FieldStop(t, i) <= FieldStart(t, j))
  }

  /** A record that falls back to a memory copy when it cannot be initialised otherwise. */
  predicate SelfInit(t: Type, anonymous: bool)
  {
    t.Record? ==> t.named && !anonymous
  }

  /** The reported size never exceeds the real one. */
  lemma SizeWithinExtent(t: Type)
    requires WellFormed(t)
    ensures TypeSize(t) <= Extent(t)
    ensures !t.Array? ==> TypeSize(t) == Extent(t)
  {
    if t.Array? {
      ProductPositive(t.dims[1..]);
      var p, q := t.dims[0], Product(t.dims[1..]);
      TimesOne(p);
      TimesOfMore(p, 1, q);
      TimesGrows(p, Times(p, q), TypeSize(t.elem));
    }
  }
}

/** Decoding the bytes of a struct or union into a tree of value views. Offsets and sizes are in bytes. */
module StructDecoder {
  import opened Bytes

  import opened Dims
  import opened Encoding
  import opened Layouts
  import BitSlice
  import opened Wrappers

  // ---- decoding, as a specification

  function ViewInit(v: View): bool { v.RecordView? ==> v.init }

  function ViewDirty(v: View): bool { v.RecordView? && v.dirty }

  /** Byte `k` is set, or lies beyond the object. */
  predicate IsSet(bytes: seq<Byte>, k: nat)
  {
    k >= |bytes| || bytes[k] != 0
  }

  predicate NonZero(bytes: seq<Byte>, lo: nat, hi: nat)
  {
    exists k :: lo <= k < hi && IsSet(bytes, k)
  }

  /** Where the check for padding in front of field `i` starts. */
  function PrevEnd(t: Type, off: nat, i: nat): nat
    requires t.Record? && i <= |t.fields|
  {
    if t.isUnion || i == 0 then off else off + t.fields[i - 1].offset + TypeSize(t.fields[i - 1].ty)
  }

  /** Field `i`, decoded as `sub`, cannot stand for its part of the record: some byte beside it is set. */
  predicate FieldDirty(t: Type, bytes: seq<Byte>, off: nat, i: nat, sub: View)
    requires t.Record? && i < |t.fields|
  {
    var start := off + t.fields[i].offset;
    var end := start + TypeSize(t.fields[i].ty);
    || NonZero(bytes, PrevEnd(t, off, i), start)
    || ((t.isUnion || i + 1 == |t.fields|) && NonZero(bytes, end, off + t.size))
    || ViewDirty(sub)
  }

  /** The first of the largest clean members of non-zero size, among the first `n`. */
  function Pick(clean: seq<bool>, sizes: seq<nat>, n: nat): (p: Option<nat>)
    requires n <= |clean| == |sizes|
    ensures p.Some? ==> p.value < n && clean[p.value] && sizes[p.value] > 0
    ensures p.None? ==> forall i {:trigger clean[i]} :: 0 <= i < n ==> !clean[i] || sizes[i] == 0
    ensures p.Some? ==> forall i {:trigger clean[i]} :: 0 <= i < n && clean[i] ==>
      sizes[i] <= sizes[p.value] && (i < p.value ==> sizes[i] < sizes[p.value])
  {
    if n == 0 then None
    else
      var p := Pick(clean, sizes, n - 1);
      if clean[n - 1] && (if p.Some? then sizes[p.value] else 0) < sizes[n - 1] then Some(n - 1) else p
  }

  function CleanFlags(t: Type, bytes: seq<Byte>, off: nat, subs: seq<View>): (clean: seq<bool>)
    requires t.Record? && |subs| == |t.fields|
    ensures |clean| == |subs|
    ensures forall i {:trigger clean[i]} :: 0 <= i < |subs| ==> clean[i] == !FieldDirty(t, bytes, off, i, subs[i])
  {
    seq(|subs|, i requires 0 <= i < |subs| => !FieldDirty(t, bytes, off, i, subs[i]))
  }

  function MemberSizes(t: Type): (sizes: seq<nat>)
    requires t.Record?
    ensures |sizes| == |t.fields|
    ensures forall i {:trigger sizes[i]} :: 0 <= i < |t.fields| ==> sizes[i] == TypeSize(t.fields[i].ty)
  {
    seq(|t.fields|, i requires 0 <= i < |t.fields| => TypeSize(t.fields[i].ty))
  }

  /** Bytes of an object; nothing when the range leaves the object. */
  function Window(bytes: seq<Byte>, off: nat, len: nat): seq<Byte>
  {
    if off + len <= |bytes| then bytes[off..off + len] else []
  }

  function Decode(t: Type, bytes: seq<Byte>, off: nat, anonymous: bool): View
    decreases t, 1
  {
    match t
    case Prim(len) => PrimView(Value(Window(bytes, off, len)))
    case Array(elem, dims) => ArrayView(DecodeAll(elem, bytes, off, Product(dims)))
    case Record(_, _, _, _) => RecordOf(t, bytes, off, anonymous, DecodeFields(t, bytes, off))
  }

  function DecodeFields(t: Type, bytes: seq<Byte>, off: nat): (subs: seq<View>)
    requires t.Record?
    ensures |subs| == |t.fields|
    decreases t, 0
  {
    seq(|t.fields|, i requires 0 <= i < |t.fields| =>
      Decode(t.fields[i].ty, bytes, off + t.fields[i].offset, t.fields[i].anonymous))
  }

  function DecodeAll(elem: Type, bytes: seq<Byte>, off: nat, n: nat): (views: seq<View>)
    ensures |views| == n
    decreases elem, 2, n
  {
    if n == 0 then []
    else [Decode(elem, bytes, off, false)] + DecodeAll(elem, bytes, off + TypeSize(elem), n - 1)
  }

  /** The view of a record, given the views of its fields. */
  function RecordOf(t: Type, bytes: seq<Byte>, off: nat, anonymous: bool, subs: seq<View>): View
    requires t.Record? && |subs| == |t.fields|
  {
    var clean := CleanFlags(t, bytes, off, subs);
    var pick := if t.isUnion then Pick(clean, MemberSizes(t), |subs|) else None;
    var init := if t.isUnion then pick.Some? else forall i :: 0 <= i < |subs| ==> ViewInit(subs[i]);
    var dirty := !t.isUnion && exists i :: 0 <= i < |clean| && !clean[i];
    if !init && t.named && !anonymous then
      RecordView(subs, Some(Window(bytes, off, t.size)), true, false, pick)
    else
      RecordView(subs, None, init, init && dirty, pick)
  }

  /** A primitive view holds the number that reading the value's bits gives. */
  lemma PrimitiveIsSlice(len: nat, bytes: seq<Byte>, off: nat, anonymous: bool)
    requires off + len <= |bytes|
    ensures Decode(Prim(len), bytes, off, anonymous) == PrimView(BitSlice.Slice(bytes, 8 * off, 8 * len))
  {
    BitSlice.HoldsSlice(bytes[off..off + len], bytes, 8 * off, 8 * len);
  }

  // ---- decoding, as the program does it

  /** One of the bytes in [lo, hi) is set, or lies beyond the object. */
  method AnyDirty(bytes: seq<Byte>, lo: nat, hi: nat) returns (dirty: bool)
    ensures dirty == NonZero(bytes, lo, hi)
  {
    dirty := false;
    var i := lo;
    while i < hi
      invariant lo <= i && !dirty
      invariant forall k :: lo <= k < i && k < hi ==> !IsSet(bytes, k)
    {
      if i >= |bytes| || bytes[i] != 0 {
        assert IsSet(bytes, i);
        return true;
      }
      i := i + 1;
    }
  }

  method ArrayViewOf(elem: Type, bytes: seq<Byte>, off: nat, arraySize: nat, ghost n: nat) returns (views: seq<View>)
    requires WellFormed(elem) && !elem.Array? && TypeSize(elem) > 0
    requires arraySize == Times(n, TypeSize(elem)) && off + arraySize <= |bytes|
    ensures views == DecodeAll(elem, bytes, off, n)
    decreases elem, 2
  {
    views := [];
    var curPos: nat := off;
    ghost var i: nat := 0;
    TimesOrder(0, n, TypeSize(elem));
    while curPos < off + arraySize
      invariant i <= n && curPos == off + Times(i, TypeSize(elem)) && (curPos < off + arraySize <==> i < n)
      invariant views == DecodeAll(elem, bytes, off, i)
      decreases n - i
    {
      DecodeAllNext(elem, bytes, off, i);
      TimesOrder(i, n, TypeSize(elem));
      TimesOrder(i + 1, n, TypeSize(elem));
      var view := ValueView(elem, bytes, curPos, false);
      views, curPos, i := views + [view], curPos + TypeSize(elem), i + 1;
    }
  }

  lemma {:induction false} DecodeAllNext(elem: Type, bytes: seq<Byte>, off: nat, n: nat)
    ensures DecodeAll(elem, bytes, off, n + 1) ==
      DecodeAll(elem, bytes, off, n) + [Decode(elem, bytes, off + Times(n, TypeSize(elem)), false)]
    decreases n
  {
    var head := [Decode(elem, bytes, off, false)];
    assert DecodeAll(elem, bytes, off, n + 1) == head + DecodeAll(elem, bytes, off + TypeSize(elem), n);
    if n == 0 {
    } else {
      DecodeAllNext(elem, bytes, off + TypeSize(elem), n - 1);
      Reassociate(head, DecodeAll(elem, bytes, off + TypeSize(elem), n - 1),
                  [Decode(elem, bytes, off + Times(n, TypeSize(elem)), false)]);
    }
  }

  lemma Reassociate(a: seq<View>, b: seq<View>, c: seq<View>)
    ensures a + (b + c) == a + b + c
  {
  }

  method ValueView(t: Type, bytes: seq<Byte>, off: nat, anonymous: bool) returns (view: View)
    requires WellFormed(t) && off + Extent(t) <= |bytes|
    ensures view == Decode(t, bytes, off, anonymous)
    decreases t, 1
  {
    match t
    case Prim(len) =>
      view := PrimView(Value(bytes[off..off + len]));
    case Array(elem, dims) =>
      var size := Times(Product(dims), TypeSize(elem));
      var views := ArrayViewOf(elem, bytes, off, size, Product(dims));
      view := ArrayView(views);
    case Record(_, _, _, _) =>
      view := StructView(t, bytes, off, anonymous);
  }

  /** The checks around one field, and its view. */
  method FieldView(t: Type, bytes: seq<Byte>, off: nat, i: nat, prevFieldEnd: nat)
    returns (sub: View, dirtyField: bool, initField: bool)
    requires t.Record? && WellFormed(t) && off + Extent(t) <= |bytes| && i < |t.fields|
    requires prevFieldEnd == PrevEnd(t, off, i)
    ensures FieldStop(t, i) <= t.size
    ensures sub == DecodeFields(t, bytes, off)[i]
    ensures dirtyField == !CleanFlags(t, bytes, off, DecodeFields(t, bytes, off))[i]
    ensures initField == ViewInit(sub)
    decreases t, 0, 0
  {
    var field := t.fields[i];
    dirtyField, initField := false, true;
    var fieldStart := off + field.offset;
    var fieldEnd := fieldStart + TypeSize(field.ty);
    if prevFieldEnd < fieldStart {
      dirtyField := AnyDirty(bytes, prevFieldEnd, fieldStart);
    }
    if !dirtyField && (t.isUnion || i + 1 == |t.fields|) {
      dirtyField := AnyDirty(bytes, fieldEnd, off + t.size);
    }
    assert FieldStop(t, i) <= t.size;
    sub := ValueView(field.ty, bytes, fieldStart, field.anonymous);
    if field.ty.Record? {
      dirtyField := dirtyField || sub.dirty;
      initField := sub.init;
    }
  }

  /** The loop variables after `n` fields, in terms of which fields are clean and which are initialised. */
  ghost predicate Flags(isUnion: bool, clean: seq<bool>, inits: seq<bool>, sizes: seq<nat>, n: nat,
                        pick: Option<nat>, pickSize: nat, init: bool, dirty: bool)
    requires n <= |clean| == |inits| == |sizes|
  {
    && (pick.Some? ==> pick.value < n)
    && pickSize == (if pick.Some? then sizes[pick.value] else 0)
    && (isUnion ==> pick == Pick(clean, sizes, n) && init == pick.Some? && !dirty)
    && (!isUnion ==> pick == None && init == (forall i :: 0 <= i < n ==> inits[i])
                     && dirty == exists i :: 0 <= i < n && !clean[i])
  }

  method NoteField(isUnion: bool, fieldIndex: nat, fieldLen: nat, dirtyField: bool, initField: bool,
                   pick0: Option<nat>, pickSize0: nat, init0: bool, dirty0: bool,
                   ghost clean: seq<bool>, ghost inits: seq<bool>, ghost sizes: seq<nat>)
    returns (pick: Option<nat>, pickSize: nat, init: bool, dirty: bool)
    requires fieldIndex < |clean| == |inits| == |sizes|
    requires Flags(isUnion, clean, inits, sizes, fieldIndex, pick0, pickSize0, init0, dirty0)
    requires clean[fieldIndex] == !dirtyField && inits[fieldIndex] == initField && sizes[fieldIndex] == fieldLen
    ensures Flags(isUnion, clean, inits, sizes, fieldIndex + 1, pick, pickSize, init, dirty)
  {
    pick, pickSize, init, dirty := pick0, pickSize0, init0, dirty0;
    if !dirtyField && pickSize < fieldLen && isUnion {
      pick := Some(fieldIndex);
      pickSize := fieldLen;
      init := true;
      dirty := false;
    }
    if !isUnion {
      dirty := dirty || dirtyField;
      init := init && initField;
    }
  }

  method StructView(t: Type, bytes: seq<Byte>, off: nat, anonymousField: bool) returns (view: View)
    requires t.Record? && WellFormed(t) && off + Extent(t) <= |bytes|
    ensures view == Decode(t, bytes, off, anonymousField)
    decreases t, 0, 2
  {
    var subViews: seq<View> := [];
    var fieldIndexToInitUnion: Option<nat>, sizeOfFieldToInitUnion: nat := None, 0;
    var prevFieldEnd := off;
    var initStruct, dirtyStruct := !t.isUnion, false;
    ghost var spec := DecodeFields(t, bytes, off);
    ghost var clean, sizes := CleanFlags(t, bytes, off, spec), MemberSizes(t);
    ghost var inits := seq(|spec|, i requires 0 <= i < |spec| => ViewInit(spec[i]));
    for fieldIndex := 0 to |t.fields|
      invariant |subViews| == fieldIndex && forall k :: 0 <= k < fieldIndex ==> subViews[k] == spec[k]
      invariant prevFieldEnd == PrevEnd(t, off, fieldIndex)
      invariant Flags(t.isUnion, clean, inits, sizes, fieldIndex,
                      fieldIndexToInitUnion, sizeOfFieldToInitUnion, initStruct, dirtyStruct)
    {
      var sub;
      sub, prevFieldEnd, fieldIndexToInitUnion, sizeOfFieldToInitUnion, initStruct, dirtyStruct :=
        NextField(t, bytes, off, fieldIndex, prevFieldEnd, fieldIndexToInitUnion, sizeOfFieldToInitUnion,
                  initStruct, dirtyStruct, clean, inits);
      subViews := subViews + [sub];
    }
    assert subViews == spec;
    view := FinishRecord(t, bytes, off, anonymousField, subViews, fieldIndexToInitUnion, initStruct, dirtyStruct,
                         sizeOfFieldToInitUnion, clean, inits);
  }

  /** One round of the loop over the fields. */
  method NextField(t: Type, bytes: seq<Byte>, off: nat, i: nat, prevFieldEnd: nat,
                   pick0: Option<nat>, pickSize0: nat, init0: bool, dirty0: bool,
                   ghost clean: seq<bool>, ghost inits: seq<bool>)
    returns (sub: View, fieldEnd: nat, pick: Option<nat>, pickSize: nat, init: bool, dirty: bool)
    requires t.Record? && WellFormed(t) && off + Extent(t) <= |bytes| && i < |t.fields|
    requires prevFieldEnd == PrevEnd(t, off, i) && |inits| == |t.fields|
    requires clean == CleanFlags(t, bytes, off, DecodeFields(t, bytes, off))
    requires inits[i] == ViewInit(DecodeFields(t, bytes, off)[i])
    requires Flags(t.isUnion, clean, inits, MemberSizes(t), i, pick0, pickSize0, init0, dirty0)
    ensures sub == DecodeFields(t, bytes, off)[i] && fieldEnd == PrevEnd(t, off, i + 1)
    ensures Flags(t.isUnion, clean, inits, MemberSizes(t), i + 1, pick, pickSize, init, dirty)
    decreases t, 0, 1
  {
    var field := t.fields[i];
    var fieldLen := TypeSize(field.ty);
    var dirtyField, initField;
    sub, dirtyField, initField := FieldView(t, bytes, off, i, prevFieldEnd);
    pick, pickSize, init, dirty := NoteField(t.isUnion, i, fieldLen, dirtyField, initField, pick0, pickSize0, init0, dirty0,
                                             clean, inits, MemberSizes(t));
    fieldEnd := if t.isUnion then off else off + field.offset + fieldLen;
  }

  method FinishRecord(t: Type, bytes: seq<Byte>, off: nat, anonymousField: bool, subViews: seq<View>,
                      pick: Option<nat>, init0: bool, dirty0: bool,
                      ghost pickSize: nat, ghost clean: seq<bool>, ghost inits: seq<bool>) returns (view: View)
    requires t.Record? && |subViews| == |t.fields| && off + t.size <= |bytes|
    requires clean == CleanFlags(t, bytes, off, subViews)
    requires |inits| == |subViews| && forall i :: 0 <= i < |subViews| ==> inits[i] == ViewInit(subViews[i])
    requires Flags(t.isUnion, clean, inits, MemberSizes(t), |t.fields|, pick, pickSize, init0, dirty0)
    ensures view == RecordOf(t, bytes, off, anonymousField, subViews)
  {
    var initStruct, dirtyStruct := init0, dirty0;
    var entryValue: Option<seq<Byte>> := None;
    if !initStruct && t.named && !anonymousField {
      entryValue := Some(bytes[off..off + t.size]);
      initStruct := true;
      dirtyStruct := false;
    }
    if !initStruct {
      dirtyStruct := false;
    }
    view := RecordView(subViews, entryValue, initStruct, dirtyStruct, pick);
  }

  // ---- what decoding keeps

  lemma {:induction false} DecodeFits(t: Type, bytes: seq<Byte>, off: nat, anonymous: bool)
    requires WellFormed(t) && off + Extent(t) <= |bytes|
    ensures Fits(t, Decode(t, bytes, off, anonymous))
    decreases t, 1
  {
    match t
    case Prim(_) =>
    case Array(elem, dims) =>
      DecodeAllFits(elem, bytes, off, Product(dims));
    case Record(_, _, _, fields) =>
      forall i | 0 <= i < |fields|
        ensures Fits(fields[i].ty, DecodeFields(t, bytes, off)[i])
      {
        assert FieldStop(t, i) <= t.size;
        DecodeFits(fields[i].ty, bytes, off + fields[i].offset, fields[i].anonymous);
      }
  }

  lemma {:induction false} DecodeAllFits(elem: Type, bytes: seq<Byte>, off: nat, n: nat)
    requires WellFormed(elem) && !elem.Array? && off + Times(n, TypeSize(elem)) <= |bytes|
    ensures forall i :: 0 <= i < n ==> Fits(elem, DecodeAll(elem, bytes, off, n)[i])
    decreases elem, 2, n
  {
    if n > 0 {
      DecodeFits(elem, bytes, off, false);
      DecodeAllFits(elem, bytes, off + TypeSize(elem), n - 1);
    }
  }

  /**
   Encoding a decoded value reproduces every byte its initialiser covers and zeroes the padding, for every
   layout and all bytes of the object, clean or dirty.
   */
  lemma {:induction false} EncodeOfDecode(t: Type, bytes: seq<Byte>, off: nat, anonymous: bool)
    requires WellFormed(t) && off + Extent(t) <= |bytes|
    ensures Agrees(t, Decode(t, bytes, off, anonymous), bytes, off)
    decreases t, 1
  {
    match t
    case Prim(len) =>
      ToBytesOfValue(bytes[off..off + len]);
    case Array(elem, dims) =>
      EncodeOfDecodeAll(elem, bytes, off, Product(dims));
    case Record(_, _, _, _) =>
      EncodeOfDecodeRecord(t, bytes, off, Decode(t, bytes, off, anonymous));
  }

  lemma {:induction false} EncodeOfDecodeRecord(t: Type, bytes: seq<Byte>, off: nat, v: View)
    requires t.Record? && WellFormed(t) && off + Extent(t) <= |bytes|
    requires v.RecordView? && v.subViews == DecodeFields(t, bytes, off)
    requires v.copy.Some? ==> v.copy.value == bytes[off..off + t.size]
    requires v.pick.Some? ==> v.pick.value < |t.fields|
    ensures Agrees(t, v, bytes, off)
    decreases t, 0
  {
    forall i | 0 <= i < |t.fields| ensures FieldAgrees(t, v.subViews, i, bytes, off) {
      assert FieldStop(t, i) <= t.size;
      EncodeOfDecode(t.fields[i].ty, bytes, off + t.fields[i].offset, t.fields[i].anonymous);
    }
    if v.copy.Some? {
    } else if !t.isUnion {
      FieldsInPlace(t, v.subViews, |t.fields|, bytes, off);
    } else if v.pick.Some? {
      PickedField(t, v, bytes, off);
    }
  }

  lemma {:induction false} FieldsInPlace(t: Type, subs: seq<View>, n: nat, bytes: seq<Byte>, off: nat)
    requires t.Record? && off + t.size <= |bytes| && n <= |t.fields| == |subs|
    requires forall i, j :: 0 <= i < j < |t.fields| ==> FieldStop(t, i) <= FieldStart(t, j)
    requires forall i :: 0 <= i < |t.fields| ==> FieldAgrees(t, subs, i, bytes, off)
    ensures FieldsAgree(t, subs, n, bytes, off)
    decreases n
  {
    if n > 0 {
      FieldsInPlace(t, subs, n - 1, bytes, off);
      OverlayField(t, subs, n - 1, bytes, off);
    }
  }

  lemma DecodeAllCons(elem: Type, bytes: seq<Byte>, off: nat, n: nat)
    requires n > 0
    ensures DecodeAll(elem, bytes, off, n)[0] == Decode(elem, bytes, off, false)
    ensures DecodeAll(elem, bytes, off, n)[1..] == DecodeAll(elem, bytes, off + TypeSize(elem), n - 1)
  {
  }

  lemma {:induction false} EncodeOfDecodeAll(elem: Type, bytes: seq<Byte>, off: nat, n: nat)
    requires WellFormed(elem) && !elem.Array? && off + Times(n, TypeSize(elem)) <= |bytes|
    ensures AllAgree(elem, DecodeAll(elem, bytes, off, n), bytes, off)
    decreases elem, 2, n
  {
    if n > 0 {
      EncodeOfDecode(elem, bytes, off, false);
      EncodeOfDecodeAll(elem, bytes, off + TypeSize(elem), n - 1);
      var views := DecodeAll(elem, bytes, off, n);
      DecodeAllCons(elem, bytes, off, n);
      ConsAgrees(elem, views, bytes, off);
    }
  }
}
