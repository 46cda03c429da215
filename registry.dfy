/**
 * The layout registry. Every class type T owns two statics: its class layout
 * (get_layout<T>) and its error list (get_type_errors<T>). The field and
 * bit-field registrations of T fill them in.
 */
module LayoutRegistry {
  import opened ArithmeticEncoding
  import opened Items
  import opened BitProbe
  import opened ErrorLog

  /** numeric_limits<size_t>::max(), the first bit of a layout before any field */
  const SizeMax: nat := 0xFFFF_FFFF_FFFF_FFFF

  /** field_info_t */
  datatype FieldInfo = FieldInfo(userData: nat, item: Item)

  /** class_layout; fields are keyed by the field's name */
  datatype ClassLayout = ClassLayout(name: string, id: nat, firstbit: nat, lastbit: nat, fields: map<string, FieldInfo>)

  /** The layout of a class nothing was registered for (a zero-initialised static) */
  const Untouched := ClassLayout("", 0, 0, 0, map[])

  /** Where a registration is written: __FILE__ and __LINE__ */
  datatype Site = Site(file: string, line: nat)

  /** The first registration of a class (an empty name) sets its id and name and
      opens the bit bounds; later ones leave the header alone. */
  function Touch(layout: ClassLayout, id: nat, classname: string): (r: ClassLayout)
    ensures r.fields == layout.fields
    ensures layout.name != "" ==> r == layout
    ensures r.name == "" <==> layout.name == "" && classname == ""
  {
    if layout.name == "" then layout.(id := id, name := classname, firstbit := SizeMax, lastbit := 0)
    else layout
  }

  /** The loop closing every registration: each range widens the class's bounds */
  function Fold(layout: ClassLayout, rs: seq<Range>): ClassLayout {
    layout.(firstbit := MinFirst(layout.firstbit, rs), lastbit := MaxLast(layout.lastbit, rs))
  }

  function WithField(layout: ClassLayout, fieldname: string, info: FieldInfo): ClassLayout {
    layout.(fields := layout.fields[fieldname := info])
  }

  /** The layout after register_field of a field of type `ty` at byte `offset`,
      for a class whose id_of is `id` */
  function AfterField(layout: ClassLayout, id: nat, ids: IdTable, ty: FieldType, offset: nat,
                      classname: string, fieldname: string, userData: nat): (r: ClassLayout)
    requires WellFormed(ty)
    ensures r.fields.Keys == layout.fields.Keys + {fieldname}
    ensures r.name == Touch(layout, id, classname).name && r.id == Touch(layout, id, classname).id
    ensures fieldname !in layout.fields ==> r.fields[fieldname] == FieldInfo(userData, ItemOf(ty, offset, ids))
  {
    var touched := Touch(layout, id, classname);
    if fieldname in touched.fields then touched
    else
      var item := ItemOf(ty, offset, ids);
      Fold(WithField(touched, fieldname, FieldInfo(userData, item)), AllRanges(item))
  }

  /** Entering a bit-field's entry once its probe has run: a probe that found
      nothing leaves the entry with no ranges, one that found ranges stores
      them in the entry and folds them into the bounds. */
  function EnterProbed(touched: ClassLayout, fieldname: string, info: FieldInfo, probe: Option<seq<Range>>): (r: ClassLayout)
    ensures r.fields.Keys == touched.fields.Keys + {fieldname}
    ensures r.name == touched.name && r.id == touched.id
    ensures r.fields[fieldname].userData == info.userData
    ensures r.fields[fieldname].item.category == info.item.category && r.fields[fieldname].item.data == info.item.data
  {
    match probe
    case None => WithField(touched, fieldname, info)
    case Some(rs) => Fold(WithField(touched, fieldname, info.(item := info.item.(ranges := rs))), rs)
  }

  /** The layout after register_bitfield over a `classBytes`-byte class. A probe
      that finds no bit leaves the entry in place, with no ranges. */
  function AfterBitfield(layout: ClassLayout, id: nat, ft: Arith, acc: Accessors, classBytes: nat,
                         classname: string, fieldname: string, userData: nat): (r: ClassLayout)
    requires IsIntegral(ft) && Valid(ft) && SizeOf(ft) <= 4
    ensures r.fields.Keys == layout.fields.Keys + {fieldname}
    ensures r.name == Touch(layout, id, classname).name && r.id == Touch(layout, id, classname).id
    ensures fieldname !in layout.fields ==>
      r.fields[fieldname].item.category == Bitfield && r.fields[fieldname].item.data == Encoded(Encode(ft))
  {
    var touched := Touch(layout, id, classname);
    if fieldname in touched.fields then touched
    else
      EnterProbed(touched, fieldname, FieldInfo(userData, Item(Bitfield, Encoded(Encode(ft)), [])), ProbeSpec(ft, acc, classBytes))
  }

  /** Every range of every registered field lies inside the class's bounds. */
  predicate Bracketed(layout: ClassLayout) {
    forall f | f in layout.fields :: ItemWithin(layout.fields[f].item, layout.firstbit, layout.lastbit)
  }

  /** add_error's outcome: the entry added, the list ordered by line */
  predicate Logged(before: seq<ErrorEntry>, after: seq<ErrorEntry>, e: ErrorEntry) {
    multiset(after) == multiset(before) + multiset{e} && SortedByLine(after)
  }

  lemma PrefixStep<T>(s: seq<T>, i: nat)
    requires i < |s|
    ensures s[..i + 1] == s[..i] + [s[i]]
  {
  }

  /** A field registered before changes nothing but a first touch. */
  lemma DuplicateField(layout: ClassLayout, id: nat, ids: IdTable, ty: FieldType, offset: nat,
                       classname: string, fieldname: string, userData: nat)
    requires WellFormed(ty) && fieldname in layout.fields
    ensures AfterField(layout, id, ids, ty, offset, classname, fieldname, userData) == Touch(layout, id, classname)
  {
  }

  /** The steps of register_field (enter an empty entry, replace it with the
      classified item, fold its ranges) give the layout AfterField describes. */
  lemma FieldSteps(layout: ClassLayout, id: nat, ids: IdTable, ty: FieldType, offset: nat,
                   classname: string, fieldname: string, userData: nat)
    requires WellFormed(ty) && fieldname !in layout.fields
    ensures var touched := Touch(layout, id, classname);
      var item := ItemOf(ty, offset, ids);
      var entered := WithField(touched, fieldname, FieldInfo(userData, EmptyItem));
      Fold(WithField(entered, fieldname, FieldInfo(userData, item)), AllRanges(item))
        == AfterField(layout, id, ids, ty, offset, classname, fieldname, userData)
  {
    var touched := Touch(layout, id, classname);
    var item := ItemOf(ty, offset, ids);
    assert touched.fields[fieldname := FieldInfo(userData, EmptyItem)][fieldname := FieldInfo(userData, item)]
        == touched.fields[fieldname := FieldInfo(userData, item)];
  }

  /** The steps of register_bitfield (enter an empty entry, mark it a bit-field,
      probe, fill the ranges, fold them) give the layout AfterBitfield describes. */
  lemma BitfieldSteps(layout: ClassLayout, id: nat, ft: Arith, acc: Accessors, classBytes: nat,
                      classname: string, fieldname: string, userData: nat)
    requires IsIntegral(ft) && Valid(ft) && SizeOf(ft) <= 4 && fieldname !in layout.fields
    ensures var touched := Touch(layout, id, classname);
      var item := Item(Bitfield, Encoded(Encode(ft)), []);
      var entered := WithField(WithField(touched, fieldname, FieldInfo(userData, EmptyItem)), fieldname, FieldInfo(userData, item));
      var after := AfterBitfield(layout, id, ft, acc, classBytes, classname, fieldname, userData);
      && (ProbeSpec(ft, acc, classBytes).None? ==> entered == after)
      && (ProbeSpec(ft, acc, classBytes).Some? ==>
            var rs := ProbeSpec(ft, acc, classBytes).value;
            Fold(WithField(entered, fieldname, FieldInfo(userData, item.(ranges := rs))), rs) == after)
  {
    var touched := Touch(layout, id, classname);
    var item := Item(Bitfield, Encoded(Encode(ft)), []);
    assert touched.fields[fieldname := FieldInfo(userData, EmptyItem)][fieldname := FieldInfo(userData, item)]
        == touched.fields[fieldname := FieldInfo(userData, item)];
    if ProbeSpec(ft, acc, classBytes).Some? {
      var rs := ProbeSpec(ft, acc, classBytes).value;
      assert touched.fields[fieldname := FieldInfo(userData, item)][fieldname := FieldInfo(userData, item.(ranges := rs))]
          == touched.fields[fieldname := FieldInfo(userData, item.(ranges := rs))];
    }
  }

  /** get_max_bit */
  method GetMaxBit(val: nat, item: Item) returns (r: nat)
    requires Shaped(item)
    ensures r == MaxBit(val, item)
    decreases item
  {
    if item.category == Container {
      var kids := item.data.items;
      r := val;
      var i := 0;
      while i < |kids|
        invariant 0 <= i <= |kids|
        invariant MaxBitOver(r, kids[i..]) == MaxBitOver(val, kids)
      {
        assert kids[i] in item.data.items;
        var tmp := GetMaxBit(r, kids[i]);
        assert kids[i..][1..] == kids[i + 1..];
        if tmp > r {
          r := tmp;
        }
        i := i + 1;
      }
    } else {
      var back := item.ranges[|item.ranges| - 1].last;
      r := if val < back then back else val;
    }
  }

  /** The statics of one class type T: the class_layout behind get_layout<T>
      and the error list behind get_type_errors<T>. `ids` is the id_of table,
      `classBytes` is sizeof(T). */
  class TypeRegistry {
    const t: TypeId
    const ids: IdTable
    const classBytes: nat
    var name: string
    var id: nat
    var firstbit: nat
    var lastbit: nat
    var fields: map<string, FieldInfo>
    var errors: seq<ErrorEntry>

    /** The statics before any registration: all zero, no field, no error */
    constructor(t: TypeId, ids: IdTable, classBytes: nat)
      ensures this.t == t && this.ids == ids && this.classBytes == classBytes
      ensures Layout() == Untouched && errors == []
    {
      this.t := t;
      this.ids := ids;
      this.classBytes := classBytes;
      name := "";
      id := 0;
      firstbit := 0;
      lastbit := 0;
      fields := map[];
      errors := [];
    }

    /** get_layout<T> */
    function Layout(): ClassLayout
      reads this
    {
      ClassLayout(name, id, firstbit, lastbit, fields)
    }

    /** add_error<T> */
    method AddError(file: string, line: nat, message: string)
      requires SortedByLine(errors)
      modifies this`errors
      ensures Logged(old(errors), errors, ErrorEntry(file, line, message))
    {
      errors := PushAndSort(errors, ErrorEntry(file, line, message));
    }

    /** add_duplication_error<T> */
    method AddDuplicationError(site: Site, classname: string, fieldname: string)
      requires SortedByLine(errors)
      modifies this`errors
      ensures Logged(old(errors), errors, ErrorEntry(site.file, site.line, DuplicationMessage(classname, fieldname)))
    {
      AddError(site.file, site.line, DuplicationMessage(classname, fieldname));
    }

    /** setup_class_field<T, FIELD>: initialise the layout on first touch,
        then insert an empty entry for the field, or log a duplicate. */
    method SetupClassField(classname: string, fieldname: string, userData: nat, site: Site)
      returns (inserted: bool)
      requires SortedByLine(errors)
      modifies this
      ensures inserted == (fieldname !in old(fields))
      ensures var touched := Touch(old(Layout()), IdOf(ids, t), classname);
        Layout() == if inserted then WithField(touched, fieldname, FieldInfo(userData, EmptyItem)) else touched
      ensures inserted ==> errors == old(errors)
      ensures !inserted ==> Logged(old(errors), errors, ErrorEntry(site.file, site.line, DuplicationMessage(classname, fieldname)))
    {
      if name == "" {
        id := IdOf(ids, t);
        name := classname;
        firstbit := SizeMax;
        lastbit := 0;
      }
      inserted := fieldname !in fields;
      if inserted {
        fields := fields[fieldname := FieldInfo(userData, EmptyItem)];
      } else {
        AddDuplicationError(site, classname, fieldname);
      }
    }

    /** The `firstbit`/`lastbit` loop at the end of every registration */
    method FoldRanges(rs: seq<Range>)
      modifies this`firstbit, this`lastbit
      ensures firstbit == MinFirst(old(firstbit), rs) && lastbit == MaxLast(old(lastbit), rs)
    {
      var i := 0;
      while i < |rs|
        invariant 0 <= i <= |rs|
        invariant firstbit == MinFirst(old(firstbit), rs[..i]) && lastbit == MaxLast(old(lastbit), rs[..i])
      {
        assert rs[..i + 1][..i] == rs[..i];
        if rs[i].first < firstbit {
          firstbit := rs[i].first;
        }
        if rs[i].last > lastbit {
          lastbit := rs[i].last;
        }
        i := i + 1;
      }
      assert rs[..i] == rs;
    }

    /** The body shared by the register_field overloads once an item is at hand:
        classify the field, fill the item, fold its ranges (and, for a
        container, its elements' first) into the class's bounds. */
    method Classify(ty: FieldType, offset: nat) returns (item: Item)
      requires WellFormed(ty)
      modifies this`firstbit, this`lastbit
      ensures item == ItemOf(ty, offset, ids)
      ensures firstbit == MinFirst(old(firstbit), AllRanges(item)) && lastbit == MaxLast(old(lastbit), AllRanges(item))
      decreases ty, 2
    {
      match ty
      case ArithField(a) =>
        item := Item(Arithmetic, Encoded(Encode(a)), [Span(offset, SizeOf(a))]);
        FoldRanges(item.ranges);
      case PointerField(b) =>
        item := Item(Pointer, NoData, [Span(offset, b)]);
        FoldRanges(item.ranges);
      case ClassField(c, b) =>
        item := Item(Klass, ClassId(IdOf(ids, c)), [Span(offset, b)]);
        FoldRanges(item.ranges);
      case ContainerField(_, _, _) =>
        item := ClassifyContainer(ty, offset);
    }

    /** register_field for an indexable type: the container's range starts as
        [offset*8, offset*8], the elements are registered, and the end becomes
        get_max_bit(0, item). */
    method ClassifyContainer(ty: FieldType, offset: nat) returns (item: Item)
      requires WellFormed(ty) && ty.ContainerField?
      modifies this`firstbit, this`lastbit
      ensures item == ItemOf(ty, offset, ids)
      ensures firstbit == MinFirst(old(firstbit), AllRanges(item)) && lastbit == MaxLast(old(lastbit), AllRanges(item))
      decreases ty, 1
    {
      var kids := RegisterContainer(ty.elems, ty.offsets, offset);
      item := Item(Container, Children(kids), [Range(offset * 8, offset * 8)]);
      var end := GetMaxBit(0, item);
      item := item.(ranges := [Range(offset * 8, end)]);
      FoldRanges(item.ranges);
      FoldConcat(old(firstbit), old(lastbit), RangesOver(kids), item.ranges);
      assert AllRanges(item) == RangesOver(kids) + item.ranges;
    }

    /** register_container: every element classified in turn, at the
        container's offset plus the element's offset in the container */
    method RegisterContainer(elems: seq<FieldType>, offsets: seq<nat>, offset: nat) returns (kids: seq<Item>)
      requires |offsets| == |elems|
      requires forall i | 0 <= i < |elems| :: WellFormed(elems[i])
      modifies this`firstbit, this`lastbit
      ensures kids == ChildItems(elems, offsets, offset, ids)
      ensures firstbit == MinFirst(old(firstbit), RangesOver(kids)) && lastbit == MaxLast(old(lastbit), RangesOver(kids))
      decreases elems, 0
    {
      ghost var all := ChildItems(elems, offsets, offset, ids);
      kids := [];
      var i := 0;
      while i < |elems|
        invariant 0 <= i <= |elems|
        invariant kids == all[..i]
        invariant firstbit == MinFirst(old(firstbit), RangesOver(kids)) && lastbit == MaxLast(old(lastbit), RangesOver(kids))
      {
        var child := Classify(elems[i], offset + offsets[i]);
        assert child == all[i];
        FoldConcat(old(firstbit), old(lastbit), RangesOver(kids), AllRanges(child));
        assert (kids + [child])[..|kids|] == kids;
        PrefixStep(all, i);
        kids := kids + [child];
        i := i + 1;
      }
      assert all[..i] == all;
    }

    /** register_field<T, FIELD> for an arithmetic, pointer, class or indexable
        field; a reference field does not compile. */
    method RegisterField(ty: FieldType, offset: nat, classname: string, fieldname: string, userData: nat, site: Site)
      returns (ok: bool)
      requires SortedByLine(errors) && WellFormed(ty)
      modifies this
      ensures ok == (fieldname !in old(fields))
      ensures Layout() == AfterField(old(Layout()), IdOf(ids, t), ids, ty, offset, classname, fieldname, userData)
      ensures ok ==> errors == old(errors)
      ensures !ok ==> Logged(old(errors), errors, ErrorEntry(site.file, site.line, DuplicationMessage(classname, fieldname)))
    {
      ok := SetupClassField(classname, fieldname, userData, site);
      if !ok {
        DuplicateField(old(Layout()), IdOf(ids, t), ids, ty, offset, classname, fieldname, userData);
        return;
      }
      FieldSteps(old(Layout()), IdOf(ids, t), ids, ty, offset, classname, fieldname, userData);
      var item := Classify(ty, offset);
      fields := fields[fieldname := FieldInfo(userData, item)];
    }

    /** register_bitfield<T, FIELD>: the entry is made first and stays when
        the probe finds no bit. */
    method RegisterBitfield(ft: Arith, acc: Accessors, classname: string, fieldname: string, userData: nat, site: Site)
      returns (ok: bool)
      requires SortedByLine(errors) && IsIntegral(ft) && Valid(ft) && SizeOf(ft) <= 4
      modifies this
      ensures ok == (fieldname !in old(fields) && ProbeSpec(ft, acc, classBytes).Some?)
      ensures Layout() == AfterBitfield(old(Layout()), IdOf(ids, t), ft, acc, classBytes, classname, fieldname, userData)
      ensures fieldname !in old(fields) ==> errors == old(errors)
      ensures fieldname in old(fields) ==> Logged(old(errors), errors, ErrorEntry(site.file, site.line, DuplicationMessage(classname, fieldname)))
    {
      ok := SetupClassField(classname, fieldname, userData, site);
      if !ok {
        return;
      }
      BitfieldSteps(old(Layout()), IdOf(ids, t), ft, acc, classBytes, classname, fieldname, userData);
      var item := Item(Bitfield, Encoded(Encode(ft)), []);
      fields := fields[fieldname := FieldInfo(userData, item)];
      var probe := Probe(ft, acc, classBytes);
      if probe.None? {
        return false;
      }
      item := item.(ranges := probe.value);
      fields := fields[fieldname := FieldInfo(userData, item)];
      FoldRanges(item.ranges);
    }
  }

  /** gather_all_errors<TS...>: the types' error lists one after the other, in
      the order the types are named */
  function GatherAllErrors(ts: seq<TypeRegistry>): (r: seq<ErrorEntry>)
    reads set i | 0 <= i < |ts| :: ts[i]
    ensures forall e :: e in r <==> exists i | 0 <= i < |ts| :: e in ts[i].errors
  {
    if ts == [] then []
    else
      var rest := GatherAllErrors(ts[1..]);
      assert forall i | 1 <= i < |ts| :: ts[i] == ts[1..][i - 1];
      ts[0].errors + rest
  }

  /** Gathering over two runs of types is gathering over each in turn. */
  lemma {:induction false} GatherAppend(a: seq<TypeRegistry>, b: seq<TypeRegistry>)
    ensures GatherAllErrors(a + b) == GatherAllErrors(a) + GatherAllErrors(b)
  {
    if a == [] {
      assert a + b == b;
    } else {
      assert (a + b)[0] == a[0] && (a + b)[1..] == a[1..] + b;
      GatherAppend(a[1..], b);
    }
  }
}
