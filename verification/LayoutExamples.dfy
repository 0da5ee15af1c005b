/** The smallest layouts that are not tracked, or have no exact sizes. */
module LayoutExamples {
  import opened Bytes

  import opened Dims
  import opened Encoding
  import opened Layouts
  import opened Padding
  import opened StructDecoder
  import opened Wrappers

  /** Unfolds the sizes of a one-dimensional array of one element. */
  lemma OneElement(elem: Type)
    ensures Product([1]) == 1 && Times(1, TypeSize(elem)) == TypeSize(elem)
  {
    assert [1][1..] == [];
  }

  function Byte1(): Type { Prim(1) }

  /** A two-byte record whose second byte is padding. */
  function Padded(isUnion: bool): (t: Type)
    ensures t.Record? && WellFormed(t) && !InSomeField(t, 1)
  {
    var t := Record(isUnion, 2, true, [Field(Byte1(), 0, false)]);
    assert !InField(t, 0, 1);
    t
  }

  function ArrayOfPadded(): (t: Type)
    ensures WellFormed(t)
  {
    OneElement(Padded(false));
    var a := Array(Padded(false), [1]);
    assert WellFormed(a) && Extent(a) == 2;
    var t := Record(false, 2, true, [Field(a, 0, false)]);
    assert FieldStop(t, 0) == 2;
    t
  }

  /** The padding of records inside an array goes unnoticed: clean, yet not restored. */
  lemma ArrayOfRecordsHidesPadding()
    ensures Settled(ArrayOfPadded()) && !Tracked(ArrayOfPadded())
    ensures var v := Decode(ArrayOfPadded(), [1, 7], 0, false);
      v.init && !v.dirty && Encode(ArrayOfPadded(), v) != [1, 7]
  {
    var t, bytes := ArrayOfPadded(), [1, 7];
    ArrayOfPaddedIsUntracked();
    NeverDirtyIsClean(t, bytes, 0, false);
    RoundTrip(t, bytes, 0);
    ElementHides(bytes);
    assert bytes[0..0 + t.size] == bytes && bytes[0 + 1] != 0;
  }

  lemma ArrayOfPaddedIsUntracked()
    ensures Settled(ArrayOfPadded()) && !Tracked(ArrayOfPadded()) && NeverDirty(ArrayOfPadded())
  {
    var t, elem := ArrayOfPadded(), Padded(false);
    OneElement(elem);
    assert !NoGap(elem);
    assert !Gapless(elem, false, false);
    assert !Tracked(t.fields[0].ty);
    assert Unchecked(t, 0) && AlwaysClean(t, 0);
  }

  lemma ElementHides(bytes: seq<Byte>)
    ensures !Covers(ArrayOfPadded(), Decode(ArrayOfPadded(), bytes, 0, false), 1)
  {
    var t, elem := ArrayOfPadded(), Padded(false);
    OneElement(elem);
    PaddedHides(bytes);
    var views := DecodeAll(elem, bytes, 0, 1);
    assert views[0] == Decode(elem, bytes, 0, false);
    CoversElement(elem, views, 0, 1);
    StructFacts(t, bytes, 0, false);
    UncoveredInField(t, Decode(t, bytes, 0, false), 0, 1);
  }

  lemma PaddedHides(bytes: seq<Byte>)
    ensures !Covers(Padded(false), Decode(Padded(false), bytes, 0, false), 1)
  {
    var elem := Padded(false);
    StructFacts(elem, bytes, 0, false);
    var e := Decode(elem, bytes, 0, false);
    assert ViewInit(e.subViews[0]);
    UncoveredGap(elem, e, 1);
  }

  function UnionOfAnonymous(): (t: Type)
    ensures WellFormed(t)
  {
    var t := Record(true, 2, true, [Field(Padded(true), 0, true)]);
    assert FieldStop(t, 0) == 2;
    t
  }

  /** An anonymous member that stays uninitialised still counts as clean and initialises its union. */
  lemma AnonymousMemberLosesBytes()
    ensures Settled(UnionOfAnonymous()) && !Tracked(UnionOfAnonymous())
    ensures var v := Decode(UnionOfAnonymous(), [1, 7], 0, false);
      v.init && !v.dirty && v.copy.None? && Fits(UnionOfAnonymous(), v) && Encode(UnionOfAnonymous(), v) != [1, 7]
  {
    var t, bytes := UnionOfAnonymous(), [1, 7];
    UnionOfAnonymousIsUntracked();
    UninitialisedIsPicked();
    MemberIsLost();
    RoundTrip(t, bytes, 0);
    assert bytes[0..0 + t.size] == bytes;
  }

  lemma MemberIsLost()
    ensures !PaddingZero(UnionOfAnonymous(), Decode(UnionOfAnonymous(), [1, 7], 0, false), [1, 7], 0)
  {
    UninitialisedIsPicked();
    assert [1, 7][0 + 1] != 0;
  }

  lemma UninitialisedIsPicked()
    ensures var v := Decode(UnionOfAnonymous(), [1, 7], 0, false);
      v.RecordView? && v.copy.None? && v.init && !v.dirty && !Covers(UnionOfAnonymous(), v, 1)
  {
    var t, inner, bytes := UnionOfAnonymous(), Padded(true), [1, 7];
    UnionFacts(inner, bytes, 0, true);
    assert IsSet(bytes, 1);
    UnionFacts(t, bytes, 0, false);
    UncheckedField(t, bytes, 0, 0, Decode(inner, bytes, 0, true));
    assert Size(t, 0) == 2;
  }

  lemma UnionOfAnonymousIsUntracked()
    ensures Settled(UnionOfAnonymous()) && !Tracked(UnionOfAnonymous())
  {
    var t, inner := UnionOfAnonymous(), Padded(true);
    assert Size(inner, 0) == 1 && Size(t, 0) == 2;
    assert !Unchecked(inner, 0) && !AlwaysInit(inner, true);
    assert !NeverPicked(t, 0);
    assert !Harmless(t, 0);
  }

  function TwoDimensional(): (t: Type)
    ensures t.Record? && WellFormed(t) && !ExactSizes(t) && Extent(t.fields[0].ty) == 2 && Size(t, 0) == 1
  {
    var a := Array(Byte1(), [1, 2]);
    assert Product([1, 2]) == 2 by { assert [1, 2][1..] == [2] && [2][1..] == []; }
    assert Times(1, 1) == 1 && Extent(a) == 2;
    var t := Record(false, 2, true, [Field(a, 0, false)]);
    assert FieldStop(t, 0) == 2;
    assert !ExactSizes(t.fields[0].ty);
    t
  }

  /** Only the first dimension counts in the reported size, so data of later rows looks like padding. */
  lemma LaterRowsLookDirty()
    ensures var v := Decode(TwoDimensional(), [1, 7], 0, false);
      NoEmpty(TwoDimensional()) && v.dirty && Encode(TwoDimensional(), v) == [1, 7]
  {
    var t, bytes := TwoDimensional(), [1, 7];
    SecondRowIsDirty();
    NoPadding(bytes);
    RoundTrip(t, bytes, 0);
    assert bytes[0..0 + t.size] == bytes;
  }

  lemma NoPadding(bytes: seq<Byte>)
    requires |bytes| == 2
    ensures PaddingZero(TwoDimensional(), Decode(TwoDimensional(), bytes, 0, false), bytes, 0)
  {
    AllCovered(bytes);
  }

  lemma SecondRowIsDirty()
    ensures ViewDirty(Decode(TwoDimensional(), [1, 7], 0, false))
  {
    var t, bytes := TwoDimensional(), [1, 7];
    BeyondIsChecked(t, 0, 1, bytes, 0);
    StructFacts(t, bytes, 0, false);
  }

  lemma AllCovered(bytes: seq<Byte>)
    ensures var t := TwoDimensional();
      var v := Decode(t, bytes, 0, false);
      v.RecordView? && v.copy.None? && forall k :: 0 <= k < t.size ==> Covers(t, v, k)
  {
    var t := TwoDimensional();
    StructFacts(t, bytes, 0, false);
    var v := Decode(t, bytes, 0, false);
    forall k | 0 <= k < t.size ensures Covers(t, v, k) {
      TimesOne(k);
      CoversElement(Byte1(), v.subViews[0].elems, k, 0);
      assert Covers(t.fields[0].ty, v.subViews[0], k);
      assert CoversField(t, v.subViews, 0, k);
    }
  }
}
