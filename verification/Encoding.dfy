/**
 Re-encoding a tree of value views the way the generated aggregate initialiser does: fields at their offsets, zeros
 elsewhere; and which bytes of the object the initialiser writes.
 */
module Encoding {
  import opened Bytes

  import opened Dims
  import opened Layouts
  import opened Wrappers

  /** The view has the shape of the type. */
  ghost predicate Fits(t: Type, v: View)
    decreases t
  {
    match t
    case Prim(_) => v.PrimView?
    case Array(elem, dims) =>
      && v.ArrayView? && |v.elems| == Product(dims)
      && forall i :: 0 <= i < |v.elems| ==> Fits(elem, v.elems[i])
    case Record(_, size, _, fields) =>
      && v.RecordView? && |v.subViews| == |fields|
      && (v.copy.Some? ==> |v.copy.value| == size)
      && (v.pick.Some? ==> v.pick.value < |fields|)
      && forall i :: 0 <= i < |fields| ==> Fits(fields[i].ty, v.subViews[i])
  }

  function Overlay(base: seq<Byte>, at: nat, piece: seq<Byte>): (r: seq<Byte>)
    ensures |r| == |base|
    ensures at + |piece| <= |base| ==> forall k :: 0 <= k < |base| ==>
      r[k] == if at <= k < at + |piece| then piece[k - at] else base[k]
  {
    if at + |piece| <= |base| then base[..at] + piece + base[at + |piece|..] else base
  }

  function Sized(piece: seq<Byte>, n: nat): (r: seq<Byte>)
    ensures |r| == n
    ensures |piece| == n ==> r == piece
  {
    if |piece| == n then piece else Zeros(n)
  }

  /** The bytes of an object initialised from the view; zeros for a view of another shape. */
  function Encode(t: Type, v: View): (r: seq<Byte>)
    ensures |r| == Extent(t)
    decreases t, 1
  {
    match t
    case Prim(len) => if v.PrimView? then ToBytes(v.value, len) else Zeros(len)
    case Array(elem, _) => Sized(if v.ArrayView? then EncodeAll(elem, v.elems) else [], Extent(t))
    case Record(isUnion, size, _, fields) =>
      if !v.RecordView? then Zeros(size)
      else if v.copy.Some? then Sized(v.copy.value, size)
      else if |v.subViews| != |fields| then Zeros(size)
      else if !isUnion then EncodeFields(t, v.subViews, |fields|)
      else if v.pick.None? || v.pick.value >= |fields| then Zeros(size)
      else
        var p := v.pick.value;
        Overlay(Zeros(size), fields[p].offset, Encode(fields[p].ty, v.subViews[p]))
  }

  /** A zeroed record with its first `n` fields written over it. */
  function EncodeFields(t: Type, subs: seq<View>, n: nat): (r: seq<Byte>)
    requires t.Record? && n <= |t.fields| == |subs|
    ensures |r| == t.size
    decreases t, 0, n
  {
    if n == 0 then Zeros(t.size)
    else Overlay(EncodeFields(t, subs, n - 1), t.fields[n - 1].offset, Encode(t.fields[n - 1].ty, subs[n - 1]))
  }

  function EncodeAll(elem: Type, views: seq<View>): (r: seq<Byte>)
    ensures |r| == Times(|views|, Extent(elem))
    decreases elem, 2, |views|
  {
    if |views| == 0 then [] else Encode(elem, views[0]) + EncodeAll(elem, views[1..])
  }

  /** Byte `k` of the object is written by the initialiser, rather than being padding. */
  ghost predicate Covers(t: Type, v: View, k: int)
    decreases t, 1
  {
    match t
    case Prim(len) => v.PrimView? && 0 <= k < len
    case Array(elem, _) => v.ArrayView? && CoversAll(elem, v.elems, k)
    case Record(isUnion, size, _, fields) =>
      v.RecordView? &&
      if v.copy.Some? then 0 <= k < size
      else if |v.subViews| != |fields| then false
      else if !isUnion then exists i :: 0 <= i < |fields| && CoversField(t, v.subViews, i, k)
      else v.pick.Some? && v.pick.value < |fields| && CoversField(t, v.subViews, v.pick.value, k)
  }

  ghost predicate CoversField(t: Type, subs: seq<View>, i: nat, k: int)
    requires t.Record? && i < |t.fields| == |subs|
    decreases t, 0
  {
    FieldStart(t, i) <= k < FieldStop(t, i) && Covers(t.fields[i].ty, subs[i], k - FieldStart(t, i))
  }

  ghost predicate CoversAll(elem: Type, views: seq<View>, k: int)
    decreases elem, 2, |views|
  {
    |views| > 0 &&
    if k < Extent(elem) then Covers(elem, views[0], k) else CoversAll(elem, views[1..], k - Extent(elem))
  }

  // ---- when an encoding agrees with an object

  /** The encoding agrees with the object: covered bytes carry over, the others become zero. */
  ghost predicate Agrees(t: Type, v: View, bytes: seq<Byte>, off: nat)
    requires off + Extent(t) <= |bytes|
  {
    forall k :: 0 <= k < Extent(t) ==> Encode(t, v)[k] == if Covers(t, v, k) then bytes[off + k] else 0
  }

  /** All padding of the object is zero. */
  ghost predicate PaddingZero(t: Type, v: View, bytes: seq<Byte>, off: nat)
    requires off + Extent(t) <= |bytes|
  {
    forall k :: 0 <= k < Extent(t) && !Covers(t, v, k) ==> bytes[off + k] == 0
  }

  /** An encoding that agrees restores the object exactly when the padding is zero. */
  lemma RestoredIff(t: Type, v: View, bytes: seq<Byte>, off: nat)
    requires off + Extent(t) <= |bytes| && Agrees(t, v, bytes, off)
    ensures Encode(t, v) == bytes[off..off + Extent(t)] <==> PaddingZero(t, v, bytes, off)
  {
    var window := bytes[off..off + Extent(t)];
    assert forall k :: 0 <= k < Extent(t) ==> window[k] == bytes[off + k];
  }

  ghost predicate FieldAgrees(t: Type, subs: seq<View>, i: nat, bytes: seq<Byte>, off: nat)
    requires t.Record? && i < |t.fields| == |subs| && off + t.size <= |bytes|
  {
    FieldStop(t, i) <= t.size && Agrees(t.fields[i].ty, subs[i], bytes, off + FieldStart(t, i))
  }

  /** The first `n` fields are in place. */
  ghost predicate FieldsAgree(t: Type, subs: seq<View>, n: nat, bytes: seq<Byte>, off: nat)
    requires t.Record? && n <= |t.fields| == |subs| && off + t.size <= |bytes|
  {
    forall k :: 0 <= k < t.size ==>
      EncodeFields(t, subs, n)[k] == if CoveredBelow(t, subs, n, k) then bytes[off + k] else 0
  }

  ghost predicate CoveredBelow(t: Type, subs: seq<View>, n: nat, k: int)
    requires t.Record? && n <= |t.fields| == |subs|
  {
    exists i :: 0 <= i < n && CoversField(t, subs, i, k)
  }

  /** Writing one more field keeps the earlier ones, because fields do not overlap. */
  lemma OverlayField(t: Type, subs: seq<View>, n: nat, bytes: seq<Byte>, off: nat)
    requires t.Record? && n < |t.fields| == |subs| && off + t.size <= |bytes|
    requires forall i :: 0 <= i < n ==> FieldStop(t, i) <= FieldStart(t, n)
    requires FieldsAgree(t, subs, n, bytes, off) && FieldAgrees(t, subs, n, bytes, off)
    ensures FieldsAgree(t, subs, n + 1, bytes, off)
  {
    var before, piece, start := EncodeFields(t, subs, n), Encode(t.fields[n].ty, subs[n]), FieldStart(t, n);
    var m := n + 1;
    var after := EncodeFields(t, subs, m);
    assert after == Overlay(before, start, piece);
    forall k | 0 <= k < t.size
      ensures after[k] == if CoveredBelow(t, subs, m, k) then bytes[off + k] else 0
    {
      assert CoveredBelow(t, subs, m, k) == (CoveredBelow(t, subs, n, k) || CoversField(t, subs, n, k));
      if start <= k < FieldStop(t, n) {
        assert off + k == off + start + (k - start);
        forall i | 0 <= i < n ensures !CoversField(t, subs, i, k) {
          assert FieldStop(t, i) <= start;
        }
      }
    }
  }

  /** The member a union is initialised with, in an otherwise zero object. */
  lemma PickedField(t: Type, v: View, bytes: seq<Byte>, off: nat)
    requires t.Record? && t.isUnion && v.RecordView? && v.copy.None? && |v.subViews| == |t.fields|
    requires off + t.size <= |bytes| && v.pick.Some? && v.pick.value < |t.fields|
    requires FieldAgrees(t, v.subViews, v.pick.value, bytes, off)
    ensures Agrees(t, v, bytes, off)
  {
    var p := v.pick.value;
    var start := FieldStart(t, p);
    assert Encode(t, v) == Overlay(Zeros(t.size), start, Encode(t.fields[p].ty, v.subViews[p]));
    forall k | start <= k < FieldStop(t, p)
      ensures Encode(t, v)[k] == if Covers(t, v, k) then bytes[off + k] else 0
    {
      assert off + k == off + start + (k - start);
    }
  }

  /** The encoding of consecutive elements agrees with the object. */
  ghost predicate AllAgree(elem: Type, views: seq<View>, bytes: seq<Byte>, off: nat)
    requires off + Times(|views|, Extent(elem)) <= |bytes|
  {
    forall k :: 0 <= k < Times(|views|, Extent(elem)) ==>
      EncodeAll(elem, views)[k] == if CoversAll(elem, views, k) then bytes[off + k] else 0
  }

  /** Byte `k` of consecutive elements: it is in the first one, or in the others. */
  lemma ConsAt(elem: Type, views: seq<View>, k: nat)
    requires |views| > 0 && k < Times(|views|, Extent(elem))
    ensures k < Extent(elem) ==>
      && EncodeAll(elem, views)[k] == Encode(elem, views[0])[k]
      && CoversAll(elem, views, k) == Covers(elem, views[0], k)
    ensures k >= Extent(elem) ==>
      && EncodeAll(elem, views)[k] == EncodeAll(elem, views[1..])[k - Extent(elem)]
      && CoversAll(elem, views, k) == CoversAll(elem, views[1..], k - Extent(elem))
  {
  }

  lemma ConsAgrees(elem: Type, views: seq<View>, bytes: seq<Byte>, off: nat)
    requires |views| > 0 && off + Extent(elem) + Times(|views| - 1, Extent(elem)) <= |bytes|
    requires Agrees(elem, views[0], bytes, off)
    requires AllAgree(elem, views[1..], bytes, off + Extent(elem))
    ensures AllAgree(elem, views, bytes, off)
  {
    forall k | 0 <= k < Times(|views|, Extent(elem))
      ensures EncodeAll(elem, views)[k] == if CoversAll(elem, views, k) then bytes[off + k] else 0
    {
      ConsAt(elem, views, k);
      assert k >= Extent(elem) ==> off + Extent(elem) + (k - Extent(elem)) == off + k;
    }
  }

  /** All padding of consecutive elements is zero. */
  ghost predicate AllPaddingZero(elem: Type, views: seq<View>, bytes: seq<Byte>, off: nat)
    requires off + Times(|views|, Extent(elem)) <= |bytes|
  {
    forall k :: 0 <= k < Times(|views|, Extent(elem)) && !CoversAll(elem, views, k) ==> bytes[off + k] == 0
  }

  lemma ConsPadding(elem: Type, views: seq<View>, bytes: seq<Byte>, off: nat)
    requires |views| > 0 && off + Extent(elem) + Times(|views| - 1, Extent(elem)) <= |bytes|
    requires PaddingZero(elem, views[0], bytes, off)
    requires AllPaddingZero(elem, views[1..], bytes, off + Extent(elem))
    ensures AllPaddingZero(elem, views, bytes, off)
  {
    forall k | 0 <= k < Times(|views|, Extent(elem)) && !CoversAll(elem, views, k) ensures bytes[off + k] == 0 {
      ConsAt(elem, views, k);
      if k < Extent(elem) {
        assert !Covers(elem, views[0], k);
      } else {
        var j := k - Extent(elem);
        assert off + Extent(elem) + j == off + k;
        assert !CoversAll(elem, views[1..], j);
      }
    }
  }
}
