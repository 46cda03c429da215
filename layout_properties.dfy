/**
 * What the registrations promise about a class layout taken as a whole: a
 * field is entered once and with the item its type calls for; in a named
 * class (or, for the bounds, one with no field yet) the class's bounds
 * bracket every registered range, a duplicate leaves the layout unchanged and
 * registrations of different fields commute; and the corner cases the code
 * has (a failed probe, an empty std::array, an empty class name, which
 * reopens the bounds at every registration) behave as written.
 */
module LayoutProperties {
  import opened ArithmeticEncoding
  import opened Items
  import opened BitProbe
  import opened LayoutRegistry

  /** The header after a registration: set by the first registration of the
      class (while the name is still empty) and never touched again. */
  predicate HeaderAfter(before: ClassLayout, after: ClassLayout, id: nat, classname: string) {
    if before.name == "" then after.name == classname && after.id == id
    else after.name == before.name && after.id == before.id
  }

  /** The bounds only widen, unless the registration is the first touch (which
      reopens them). */
  predicate Widened(before: ClassLayout, after: ClassLayout) {
    before.name != "" ==> after.firstbit <= before.firstbit && before.lastbit <= after.lastbit
  }

  /** Entering any item into a layout and folding its ranges: the entry is
      added, the header kept, the bounds only widen and cover every range of
      the item. */
  lemma EnterItem(touched: ClassLayout, fieldname: string, info: FieldInfo)
    ensures var after := Fold(WithField(touched, fieldname, info), AllRanges(info.item));
      && after.fields == touched.fields[fieldname := info]
      && after.name == touched.name && after.id == touched.id
      && after.firstbit <= touched.firstbit && touched.lastbit <= after.lastbit
      && ItemWithin(info.item, after.firstbit, after.lastbit)
      && forall x | x in info.item.ranges :: after.firstbit <= x.first && x.last <= after.lastbit
  {
    var rs := AllRanges(info.item);
    FoldBounds(touched.firstbit, touched.lastbit, rs);
    assert forall x | x in info.item.ranges :: x in rs;
  }

  /** A new field is entered with the item its type produces and bounds that
      cover that item; the other fields keep their entries. */
  lemma {:induction false} FieldRegistered(layout: ClassLayout, id: nat, ids: IdTable, ty: FieldType, offset: nat,
                                           classname: string, fieldname: string, userData: nat)
    requires WellFormed(ty) && fieldname !in layout.fields
    ensures var after := AfterField(layout, id, ids, ty, offset, classname, fieldname, userData);
      var item := ItemOf(ty, offset, ids);
      && after.fields.Keys == layout.fields.Keys + {fieldname}
      && after.fields[fieldname] == FieldInfo(userData, item)
      && (forall f | f in layout.fields :: after.fields[f] == layout.fields[f])
      && HeaderAfter(layout, after, id, classname)
      && Widened(layout, after)
      && ItemWithin(item, after.firstbit, after.lastbit)
      && after.firstbit <= offset * 8 && item.ranges[0].last <= after.lastbit
  {
    var item := ItemOf(ty, offset, ids);
    var touched := Touch(layout, id, classname);
    EnterItem(touched, fieldname, FieldInfo(userData, item));
    assert item.ranges[0] in item.ranges;
  }

  /** A field registered before (in a class already named) leaves the layout as it was. */
  lemma DuplicateFieldIgnored(layout: ClassLayout, id: nat, ids: IdTable, ty: FieldType, offset: nat,
                              classname: string, fieldname: string, userData: nat)
    requires WellFormed(ty) && layout.name != "" && fieldname in layout.fields
    ensures AfterField(layout, id, ids, ty, offset, classname, fieldname, userData) == layout
  {
  }

  lemma DuplicateBitfieldIgnored(layout: ClassLayout, id: nat, ft: Arith, acc: Accessors, classBytes: nat,
                                 classname: string, fieldname: string, userData: nat)
    requires IsIntegral(ft) && Valid(ft) && SizeOf(ft) <= 4
    requires layout.name != "" && fieldname in layout.fields
    ensures AfterBitfield(layout, id, ft, acc, classBytes, classname, fieldname, userData) == layout
  {
  }

  /** Bounds that bracket every registered range keep doing so after a
      registration of a field, as long as the registration does not reopen the
      bounds over fields already there (a class whose first registration used
      an empty name). */
  lemma {:induction false} FieldKeepsBracketed(layout: ClassLayout, id: nat, ids: IdTable, ty: FieldType, offset: nat,
                                               classname: string, fieldname: string, userData: nat)
    requires WellFormed(ty) && Bracketed(layout)
    requires layout.name != "" || layout.fields == map[]
    ensures Bracketed(AfterField(layout, id, ids, ty, offset, classname, fieldname, userData))
  {
    var touched := Touch(layout, id, classname);
    if fieldname !in touched.fields {
      var item := ItemOf(ty, offset, ids);
      var after := AfterField(layout, id, ids, ty, offset, classname, fieldname, userData);
      FoldBounds(touched.firstbit, touched.lastbit, AllRanges(item));
      forall f | f in after.fields
        ensures ItemWithin(after.fields[f].item, after.firstbit, after.lastbit)
      {
        if f != fieldname {
          assert ItemWithin(layout.fields[f].item, layout.firstbit, layout.lastbit);
        }
      }
    }
  }

  /** The same for a bit-field registration, whatever its probe finds. */
  lemma {:induction false} BitfieldKeepsBracketed(layout: ClassLayout, id: nat, ft: Arith, acc: Accessors, classBytes: nat,
                                                  classname: string, fieldname: string, userData: nat)
    requires IsIntegral(ft) && Valid(ft) && SizeOf(ft) <= 4 && Bracketed(layout)
    requires layout.name != "" || layout.fields == map[]
    ensures Bracketed(AfterBitfield(layout, id, ft, acc, classBytes, classname, fieldname, userData))
  {
    var touched := Touch(layout, id, classname);
    if fieldname !in touched.fields {
      var after := AfterBitfield(layout, id, ft, acc, classBytes, classname, fieldname, userData);
      var rs := match ProbeSpec(ft, acc, classBytes) case None => [] case Some(rs) => rs;
      FoldBounds(touched.firstbit, touched.lastbit, rs);
      assert after.firstbit == MinFirst(touched.firstbit, rs) && after.lastbit == MaxLast(touched.lastbit, rs);
      assert AllRanges(after.fields[fieldname].item) == rs;
      forall f | f in after.fields
        ensures ItemWithin(after.fields[f].item, after.firstbit, after.lastbit)
      {
        if f != fieldname {
          assert ItemWithin(layout.fields[f].item, layout.firstbit, layout.lastbit);
        }
      }
    }
  }

  /** A bit-field whose probe finds its bits: the entry holds the descriptor and
      the ranges found, every one inside the class's bytes when the setter keeps
      the object's size, and the bounds cover them. */
  lemma {:induction false} BitfieldRegistered(layout: ClassLayout, id: nat, ft: Arith, acc: Accessors, classBytes: nat,
                                              classname: string, fieldname: string, userData: nat)
    requires IsIntegral(ft) && Valid(ft) && SizeOf(ft) <= 4 && fieldname !in layout.fields
    requires forall b, v :: |acc.setter(b, v)| == |b|
    requires exists k | 0 <= k < 8 * classBytes :: IsSet(acc.setter(Zeros(classBytes), AsField(ft, 1)), k)
    ensures var after := AfterBitfield(layout, id, ft, acc, classBytes, classname, fieldname, userData);
      var it := after.fields[fieldname].item;
      && fieldname in after.fields
      && after.fields[fieldname].userData == userData
      && it.category == Bitfield && it.data == Encoded(Encode(ft))
      && 1 <= |it.ranges| <= Width(ft)
      && (forall x | x in it.ranges :: x.first < 8 * classBytes && x.last < 8 * classBytes)
      && (forall x | x in it.ranges :: after.firstbit <= x.first && x.last <= after.lastbit)
      && HeaderAfter(layout, after, id, classname)
      && Widened(layout, after)
  {
    ProbeShape(ft, acc, classBytes);
    assert |acc.setter(Zeros(classBytes), AsField(ft, 1))| == classBytes;
    var rs := ProbeSpec(ft, acc, classBytes).value;
    var touched := Touch(layout, id, classname);
    FoldBounds(touched.firstbit, touched.lastbit, rs);
  }

  /** A bit-field whose setter writes no bit for the value 1: the entry stays in
      the map, marked a bit-field, with no ranges, and the bounds are untouched. */
  lemma {:induction false} FailedProbeKeepsEntry(layout: ClassLayout, id: nat, ft: Arith, acc: Accessors, classBytes: nat,
                                                 classname: string, fieldname: string, userData: nat)
    requires IsIntegral(ft) && Valid(ft) && SizeOf(ft) <= 4 && fieldname !in layout.fields
    requires forall b, v :: |acc.setter(b, v)| == |b|
    requires forall k | 0 <= k < 8 * classBytes :: !IsSet(acc.setter(Zeros(classBytes), AsField(ft, 1)), k)
    ensures var after := AfterBitfield(layout, id, ft, acc, classBytes, classname, fieldname, userData);
      var touched := Touch(layout, id, classname);
      && after.fields.Keys == layout.fields.Keys + {fieldname}
      && after.fields[fieldname] == FieldInfo(userData, Item(Bitfield, Encoded(Encode(ft)), []))
      && after.firstbit == touched.firstbit && after.lastbit == touched.lastbit
  {
    ProbeShape(ft, acc, classBytes);
    assert |acc.setter(Zeros(classBytes), AsField(ft, 1))| == classBytes;
  }

  /** Entering two items under different names gives the same layout in either order. */
  lemma EnterCommutes(layout: ClassLayout, fa: string, ia: FieldInfo, fb: string, ib: FieldInfo)
    requires fa != fb
    ensures Fold(WithField(Fold(WithField(layout, fa, ia), AllRanges(ia.item)), fb, ib), AllRanges(ib.item))
         == Fold(WithField(Fold(WithField(layout, fb, ib), AllRanges(ib.item)), fa, ia), AllRanges(ia.item))
  {
    FoldCommutes(layout.firstbit, layout.lastbit, AllRanges(ia.item), AllRanges(ib.item));
    assert layout.fields[fa := ia][fb := ib] == layout.fields[fb := ib][fa := ia];
  }

  /** Two new, different fields registered into a class that already has its
      name give the same layout in either order. (The first registration still
      decides the class's name, and nothing here fixes the order of error
      entries with equal lines.) */
  lemma {:induction false} FieldsCommute(layout: ClassLayout, id: nat, ids: IdTable, classname: string,
                                         ta: FieldType, oa: nat, fa: string, ua: nat,
                                         tb: FieldType, ob: nat, fb: string, ub: nat)
    requires WellFormed(ta) && WellFormed(tb) && layout.name != ""
    requires fa != fb && fa !in layout.fields && fb !in layout.fields
    ensures AfterField(AfterField(layout, id, ids, ta, oa, classname, fa, ua), id, ids, tb, ob, classname, fb, ub)
         == AfterField(AfterField(layout, id, ids, tb, ob, classname, fb, ub), id, ids, ta, oa, classname, fa, ua)
  {
    var ia := FieldInfo(ua, ItemOf(ta, oa, ids));
    var ib := FieldInfo(ub, ItemOf(tb, ob, ids));
    var la := AfterField(layout, id, ids, ta, oa, classname, fa, ua);
    var lb := AfterField(layout, id, ids, tb, ob, classname, fb, ub);
    assert la == Fold(WithField(layout, fa, ia), AllRanges(ia.item));
    assert lb == Fold(WithField(layout, fb, ib), AllRanges(ib.item));
    EnterCommutes(layout, fa, ia, fb, ib);
  }

  /** The first field of a class, when scalar, sets the bounds to exactly its range. */
  lemma FirstScalarField(id: nat, ids: IdTable, ty: FieldType, offset: nat,
                         classname: string, fieldname: string, userData: nat)
    requires WellFormed(ty) && !ty.ContainerField? && offset * 8 <= SizeMax
    ensures var after := AfterField(Untouched, id, ids, ty, offset, classname, fieldname, userData);
      var bytes := if ty.ArithField? then SizeOf(ty.arith) else ty.bytes;
      && after.name == classname && after.id == id
      && after.firstbit == offset * 8 && after.lastbit == (offset + bytes) * 8 - 1
      && after.fields.Keys == {fieldname}
  {
    ScalarItem(ty, offset, ids);
    var item := ItemOf(ty, offset, ids);
    FoldOne(SizeMax, 0, item.ranges[0]);
  }

  /** An empty std::array gets the range [offset*8, 0]: registered first into a
      class at a non-zero offset it leaves the class's first bit above its last. */
  lemma EmptyArrayInvertsBounds(id: nat, ids: IdTable, offset: nat, classname: string, fieldname: string, userData: nat)
    requires 1 <= offset && offset * 8 <= SizeMax
    ensures ItemOf(ContainerField(StdArray, [], []), offset, ids).ranges == [Range(offset * 8, 0)]
    ensures var after := AfterField(Untouched, id, ids, ContainerField(StdArray, [], []), offset, classname, fieldname, userData);
      after.firstbit == offset * 8 && after.lastbit == 0 && after.firstbit > after.lastbit
  {
    var ty := ContainerField(StdArray, [], []);
    var kids := ChildItems([], [], offset, ids);
    assert kids == [];
    var shell := Item(Container, Children(kids), [Range(offset * 8, offset * 8)]);
    assert MaxBit(0, shell) == 0 by {
      assert MaxBitOver(0, kids) == 0;
    }
    var it := ItemOf(ty, offset, ids);
    assert it == shell.(ranges := [Range(offset * 8, 0)]);
    assert AllRanges(it) == [Range(offset * 8, 0)] by {
      assert RangesOver(kids) == [];
    }
    FoldOne(SizeMax, 0, Range(offset * 8, 0));
  }

  /** A class whose first registration gave an empty name stays unnamed, so each
      later registration reopens the bounds: after a scalar field they are that
      field's range alone, whatever the earlier fields covered. */
  lemma UnnamedClassReopensBounds(layout: ClassLayout, id: nat, ids: IdTable, ty: FieldType, offset: nat,
                                  fieldname: string, userData: nat)
    requires WellFormed(ty) && !ty.ContainerField? && offset * 8 <= SizeMax
    requires layout.name == "" && fieldname !in layout.fields
    ensures var after := AfterField(layout, id, ids, ty, offset, "", fieldname, userData);
      var bytes := if ty.ArithField? then SizeOf(ty.arith) else ty.bytes;
      && after.name == ""
      && after.fields.Keys == layout.fields.Keys + {fieldname}
      && after.firstbit == offset * 8 && after.lastbit == (offset + bytes) * 8 - 1
  {
    ScalarItem(ty, offset, ids);
    var item := ItemOf(ty, offset, ids);
    FoldOne(SizeMax, 0, item.ranges[0]);
  }
}
