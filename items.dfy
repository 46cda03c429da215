/**
 * Items: the classified memory regions of a field, the field types the
 * classifier dispatches on, and the item each field type produces.
 */
module Items {
  import opened ArithmeticEncoding

  datatype Option<T> = None | Some(value: T)

  /** Identity of a C++ type (the template argument the registry is keyed by) */
  type TypeId = nat

  /** An inclusive bit range; the source stores it as two consecutive entries
      of `item_t::ranges`, always pushed together. */
  datatype Range = Range(first: nat, last: nat)

  datatype Category = Undefined | Arithmetic | Bitfield | Pointer | Klass | Container

  /** The union of `item_t`: descriptor byte, class id, or the container's children
      (whose number is the container's count). */
  datatype Payload = NoData | Encoded(enc: bv8) | ClassId(id: nat) | Children(items: seq<Item>)

  datatype Item = Item(category: Category, data: Payload, ranges: seq<Range>)

  /** A default-constructed `item_t` */
  const EmptyItem := Item(Undefined, NoData, [])

  /** The resolved `id_of` table: class types bound to an id; every other type has id 0 */
  type IdTable = map<TypeId, nat>

  function IdOf(ids: IdTable, t: TypeId): (r: nat)
    ensures t !in ids ==> r == 0
    ensures r != 0 ==> t in ids
  {
    if t in ids then ids[t] else 0
  }

  datatype ContainerKind = Pair | Tuple | StdArray | CArray

  /** The static type of a registered field, as the overload set sees it. An
      indexable type lists its elements' (decayed) types and, beside them, each
      element's byte offset from the start of the container object as measured
      on a scratch instance. */
  datatype FieldType =
    | ArithField(arith: Arith)
    | PointerField(bytes: nat)
    | ClassField(cls: TypeId, bytes: nat)
    | ContainerField(kind: ContainerKind, elems: seq<FieldType>, offsets: seq<nat>)
    | ReferenceField

  /** is_container<T> */
  predicate IsContainer(ty: FieldType) {
    ty.ContainerField?
  }

  /** container_size<T>: the arity of an indexable type, 1 for every other type */
  function ContainerSize(ty: FieldType): (r: nat)
    ensures !IsContainer(ty) ==> r == 1
  {
    if ty.ContainerField? then |ty.elems| else 1
  }

  /** A type as `decay` leaves it: an element of a container is registered as
      `decay<decltype(container_elem<I>(field))>`, which drops const and
      volatile, and a C-array decays to a pointer to its first element, so no
      element is ever a C-array or a qualified arithmetic type. */
  predicate Decayed(ty: FieldType) {
    && !(ty.ContainerField? && ty.kind == CArray)
    && !(ty.ArithField? && ty.arith.Qualified?)
  }

  /** At least the field types for which a registration compiles (also a few
      no C++ type has, such as a zero-length C-array): a reference trips a
      static_assert, a pair has two elements, every size is positive, and a
      container's elements are themselves registrable, in their decayed form. */
  predicate WellFormed(ty: FieldType)
    decreases ty
  {
    match ty
    case ArithField(a) => Valid(a)
    case PointerField(b) => b >= 1
    case ClassField(_, b) => b >= 1
    case ContainerField(k, elems, offsets) =>
      && |offsets| == |elems|
      && (k == Pair ==> |elems| == 2)
      && forall i | 0 <= i < |elems| :: WellFormed(elems[i]) && Decayed(elems[i])
    case ReferenceField => false
  }

  /** The single range of a field of `bytes` bytes at byte `offset` */
  function Span(offset: nat, bytes: nat): (r: Range)
    requires bytes >= 1
    ensures r.first <= r.last && r.last - r.first + 1 == bytes * 8
  {
    Range(offset * 8, (offset + bytes) * 8 - 1)
  }

  /** Every non-container item of the tree has a range to read the end from,
      and exactly the container items carry children. */
  predicate Shaped(item: Item)
    decreases item
  {
    && (item.category == Container <==> item.data.Children?)
    && (item.category != Container ==> |item.ranges| >= 1)
    && (item.data.Children? ==> forall i | 0 <= i < |item.data.items| :: Shaped(item.data.items[i]))
  }

  /** The end bits of the non-container leaves of a tree, left to right */
  ghost function LeafEnds(item: Item): seq<nat>
    requires Shaped(item)
    decreases item
  {
    if item.category == Container then LeafEndsOver(item.data.items)
    else [item.ranges[|item.ranges| - 1].last]
  }

  ghost function LeafEndsOver(kids: seq<Item>): seq<nat>
    requires forall i | 0 <= i < |kids| :: Shaped(kids[i])
    decreases kids
  {
    if kids == [] then [] else LeafEnds(kids[0]) + LeafEndsOver(kids[1..])
  }

  /** get_max_bit: the larger of `val` and the largest leaf end of the tree */
  function MaxBit(val: nat, item: Item): (r: nat)
    requires Shaped(item)
    ensures val <= r
    decreases item, 1
  {
    if item.category == Container then MaxBitOver(val, item.data.items)
    else
      var back := item.ranges[|item.ranges| - 1].last;
      if val < back then back else val
  }

  /** The loop of get_max_bit over the children, carrying the running maximum */
  function MaxBitOver(val: nat, kids: seq<Item>): (r: nat)
    requires forall i | 0 <= i < |kids| :: Shaped(kids[i])
    ensures val <= r
    decreases kids, 0
  {
    if kids == [] then val
    else
      var tmp := MaxBit(val, kids[0]);
      var next := if tmp > val then tmp else val;
      MaxBitOver(next, kids[1..])
  }

  /** get_max_bit returns the largest of `val` and every leaf end of the tree. */
  lemma {:induction false} MaxBitBounds(val: nat, item: Item)
    requires Shaped(item)
    ensures val <= MaxBit(val, item)
    ensures forall e | e in LeafEnds(item) :: e <= MaxBit(val, item)
    ensures MaxBit(val, item) == val || MaxBit(val, item) in LeafEnds(item)
    decreases item, 1
  {
    if item.category == Container {
      MaxBitOverBounds(val, item.data.items);
    }
  }

  lemma {:induction false} MaxBitOverBounds(val: nat, kids: seq<Item>)
    requires forall i | 0 <= i < |kids| :: Shaped(kids[i])
    ensures val <= MaxBitOver(val, kids)
    ensures forall e | e in LeafEndsOver(kids) :: e <= MaxBitOver(val, kids)
    ensures MaxBitOver(val, kids) == val || MaxBitOver(val, kids) in LeafEndsOver(kids)
    decreases kids, 0
  {
    if kids != [] {
      var tmp := MaxBit(val, kids[0]);
      var next := if tmp > val then tmp else val;
      MaxBitBounds(val, kids[0]);
      MaxBitOverBounds(next, kids[1..]);
    }
  }

  /** The item `register_field` builds for a field of type `ty` at byte `offset`:
      one range for every kind, a descriptor, an id or the children as payload. */
  function ItemOf(ty: FieldType, offset: nat, ids: IdTable): (r: Item)
    requires WellFormed(ty)
    ensures Shaped(r) && |r.ranges| == 1 && r.ranges[0].first == offset * 8
    decreases ty, 1
  {
    match ty
    case ArithField(a) => Item(Arithmetic, Encoded(Encode(a)), [Span(offset, SizeOf(a))])
    case PointerField(b) => Item(Pointer, NoData, [Span(offset, b)])
    case ClassField(c, b) => Item(Klass, ClassId(IdOf(ids, c)), [Span(offset, b)])
    case ContainerField(_, elems, offsets) =>
      var shell := Item(Container, Children(ChildItems(elems, offsets, offset, ids)), [Range(offset * 8, offset * 8)]);
      shell.(ranges := [Range(offset * 8, MaxBit(0, shell))])
  }

  /** register_container: element i classified at the container's offset plus
      the element's own offset inside the container */
  function ChildItems(elems: seq<FieldType>, offsets: seq<nat>, offset: nat, ids: IdTable): (r: seq<Item>)
    requires |offsets| == |elems|
    requires forall i | 0 <= i < |elems| :: WellFormed(elems[i])
    ensures |r| == |elems|
    ensures forall i | 0 <= i < |elems| :: Shaped(r[i])
    decreases elems, 0
  {
    seq(|elems|, i requires 0 <= i < |elems| => ItemOf(elems[i], offset + offsets[i], ids))
  }

  /** Every range of a tree, children before their parent: the order in which
      the classifier folds them into the class's bounds. */
  function AllRanges(item: Item): seq<Range>
    decreases item, 1
  {
    (if item.data.Children? then RangesOver(item.data.items) else []) + item.ranges
  }

  function RangesOver(kids: seq<Item>): seq<Range>
    decreases kids, 0
  {
    if kids == [] then [] else
      var n := |kids| - 1;
      RangesOver(kids[..n]) + AllRanges(kids[n])
  }

  /** The running `firstbit` after folding `rs` into `f` */
  function MinFirst(f: nat, rs: seq<Range>): nat {
    if rs == [] then f
    else
      var n := |rs| - 1;
      var m := MinFirst(f, rs[..n]);
      if rs[n].first < m then rs[n].first else m
  }

  /** The running `lastbit` after folding `rs` into `l` */
  function MaxLast(l: nat, rs: seq<Range>): nat {
    if rs == [] then l
    else
      var n := |rs| - 1;
      var m := MaxLast(l, rs[..n]);
      if rs[n].last > m then rs[n].last else m
  }

  /** The fold computes the minimum of the first bits and the maximum of the
      last bits, the starting values included. */
  lemma {:induction false} FoldBounds(f: nat, l: nat, rs: seq<Range>)
    ensures MinFirst(f, rs) <= f && l <= MaxLast(l, rs)
    ensures forall x | x in rs :: MinFirst(f, rs) <= x.first && x.last <= MaxLast(l, rs)
    ensures MinFirst(f, rs) == f || exists x | x in rs :: MinFirst(f, rs) == x.first
    ensures MaxLast(l, rs) == l || exists x | x in rs :: MaxLast(l, rs) == x.last
  {
    if rs != [] {
      var n := |rs| - 1;
      FoldBounds(f, l, rs[..n]);
      assert forall x | x in rs :: x in rs[..n] || x == rs[n];
      assert rs[n] in rs;
      if MinFirst(f, rs[..n]) != f {
        var x :| x in rs[..n] && MinFirst(f, rs[..n]) == x.first;
        assert x in rs;
      }
      if MaxLast(l, rs[..n]) != l {
        var x :| x in rs[..n] && MaxLast(l, rs[..n]) == x.last;
        assert x in rs;
      }
    }
  }

  function Min(a: nat, b: nat): nat { if a <= b then a else b }

  function Max(a: nat, b: nat): nat { if a >= b then a else b }

  /** Starting the fold lower only lowers the result by as much. */
  lemma {:induction false} MinFirstStart(x: nat, y: nat, rs: seq<Range>)
    ensures MinFirst(Min(x, y), rs) == Min(x, MinFirst(y, rs))
  {
    if rs != [] {
      MinFirstStart(x, y, rs[..|rs| - 1]);
    }
  }

  lemma {:induction false} MaxLastStart(x: nat, y: nat, rs: seq<Range>)
    ensures MaxLast(Max(x, y), rs) == Max(x, MaxLast(y, rs))
  {
    if rs != [] {
      MaxLastStart(x, y, rs[..|rs| - 1]);
    }
  }

  /** Folding one range */
  lemma FoldOne(f: nat, l: nat, x: Range)
    ensures MinFirst(f, [x]) == Min(f, x.first) && MaxLast(l, [x]) == Max(l, x.last)
  {
    assert [x][..0] == [];
  }

  lemma MinFirstCommutes(f: nat, a: seq<Range>, b: seq<Range>)
    ensures MinFirst(MinFirst(f, a), b) == MinFirst(MinFirst(f, b), a)
  {
    FoldBounds(f, 0, a);
    FoldBounds(f, 0, b);
    MinFirstStart(MinFirst(f, a), f, b);
    MinFirstStart(MinFirst(f, b), f, a);
    assert Min(MinFirst(f, a), f) == MinFirst(f, a);
    assert Min(MinFirst(f, b), f) == MinFirst(f, b);
  }

  lemma MaxLastCommutes(l: nat, a: seq<Range>, b: seq<Range>)
    ensures MaxLast(MaxLast(l, a), b) == MaxLast(MaxLast(l, b), a)
  {
    FoldBounds(0, l, a);
    FoldBounds(0, l, b);
    MaxLastStart(MaxLast(l, a), l, b);
    MaxLastStart(MaxLast(l, b), l, a);
    assert Max(MaxLast(l, a), l) == MaxLast(l, a);
    assert Max(MaxLast(l, b), l) == MaxLast(l, b);
  }

  /** The order in which two runs of ranges are folded does not change the bounds. */
  lemma FoldCommutes(f: nat, l: nat, a: seq<Range>, b: seq<Range>)
    ensures MinFirst(MinFirst(f, a), b) == MinFirst(MinFirst(f, b), a)
    ensures MaxLast(MaxLast(l, a), b) == MaxLast(MaxLast(l, b), a)
  {
    MinFirstCommutes(f, a, b);
    MaxLastCommutes(l, a, b);
  }

  /** Folding two runs of ranges one after the other is folding their concatenation. */
  lemma {:induction false} FoldConcat(f: nat, l: nat, a: seq<Range>, b: seq<Range>)
    ensures MinFirst(f, a + b) == MinFirst(MinFirst(f, a), b)
    ensures MaxLast(l, a + b) == MaxLast(MaxLast(l, a), b)
  {
    if b == [] {
      assert a + b == a;
    } else {
      var n := |b| - 1;
      assert (a + b)[..|a + b| - 1] == a + b[..n];
      FoldConcat(f, l, a, b[..n]);
    }
  }

  /** Every range of the tree lies inside [f, l]. */
  predicate ItemWithin(item: Item, f: nat, l: nat) {
    forall x | x in AllRanges(item) :: f <= x.first && x.last <= l
  }

  /** An arithmetic, pointer or class field gets exactly the range
      [offset*8, (offset+sizeof)*8-1] and the matching category and payload. */
  lemma ScalarItem(ty: FieldType, offset: nat, ids: IdTable)
    requires WellFormed(ty) && !ty.ContainerField?
    ensures var it := ItemOf(ty, offset, ids);
      && it.ranges == [Range(offset * 8, (offset + (if ty.ArithField? then SizeOf(ty.arith) else ty.bytes)) * 8 - 1)]
      && it.category == (if ty.ArithField? then Arithmetic else if ty.PointerField? then Pointer else Klass)
      && (ty.ArithField? ==> it.data == Encoded(Encode(ty.arith)))
      && (ty.ClassField? ==> it.data == ClassId(IdOf(ids, ty.cls)))
      && AllRanges(it) == it.ranges
  {
  }

  /** A container of arity N gets N children, child i classified at the
      container's offset plus element i's offset, and one range running from
      the container's first bit to the largest leaf end of the whole subtree
      (0 when there is no leaf). */
  lemma ContainerItem(ty: FieldType, offset: nat, ids: IdTable)
    requires WellFormed(ty) && ty.ContainerField?
    ensures var it := ItemOf(ty, offset, ids);
      && it.category == Container && it.data.Children?
      && |it.data.items| == ContainerSize(ty)
      && (forall i | 0 <= i < |ty.elems| ::
            it.data.items[i] == ItemOf(ty.elems[i], offset + ty.offsets[i], ids))
      && |it.ranges| == 1 && it.ranges[0].first == offset * 8
      && (forall e | e in LeafEnds(it) :: e <= it.ranges[0].last)
      && (it.ranges[0].last == 0 || it.ranges[0].last in LeafEnds(it))
  {
    var it := ItemOf(ty, offset, ids);
    var shell := Item(Container, Children(ChildItems(ty.elems, ty.offsets, offset, ids)), [Range(offset * 8, offset * 8)]);
    assert LeafEnds(shell) == LeafEnds(it);
    MaxBitBounds(0, shell);
  }

  /** A container item's end never falls short of any of its children's ends
      (for children that are themselves containers this is their whole subtree). */
  lemma {:induction false} ContainerEndCoversChildren(ty: FieldType, offset: nat, ids: IdTable, i: nat)
    requires WellFormed(ty) && ty.ContainerField? && i < |ty.elems|
    ensures var it := ItemOf(ty, offset, ids);
      forall e | e in LeafEnds(it.data.items[i]) :: e <= it.ranges[0].last
  {
    var it := ItemOf(ty, offset, ids);
    ContainerItem(ty, offset, ids);
    LeafEndsOverContains(it.data.items, i);
    assert LeafEnds(it) == LeafEndsOver(it.data.items);
  }

  lemma {:induction false} LeafEndsOverContains(kids: seq<Item>, i: nat)
    requires forall j | 0 <= j < |kids| :: Shaped(kids[j])
    requires i < |kids|
    ensures forall e | e in LeafEnds(kids[i]) :: e in LeafEndsOver(kids)
  {
    if i > 0 {
      LeafEndsOverContains(kids[1..], i - 1);
      assert kids[1..][i - 1] == kids[i];
    }
  }

  /** A C-array of C-arrays is not registrable as it stands: its element
      decays to a pointer, which is the element type the registration sees. */
  lemma NestedArrayNotRegistrable()
    ensures !WellFormed(ContainerField(CArray, [ContainerField(CArray, [ArithField(Int(4, true))], [0])], [0]))
  {
    var bad := ContainerField(CArray, [ContainerField(CArray, [ArithField(Int(4, true))], [0])], [0]);
    assert !Decayed(bad.elems[0]);
  }

  /** The two row pointers of `int a[2][3]`, each classified as a pointer field */
  lemma RowPointers(offset: nat, ids: IdTable)
    ensures ChildItems([PointerField(8), PointerField(8)], [0, 12], offset, ids)
         == [Item(Pointer, NoData, [Range(offset * 8, offset * 8 + 63)]),
             Item(Pointer, NoData, [Range(offset * 8 + 96, offset * 8 + 159)])]
  {
  }

  /** A two-dimensional C-array is not expanded: `int a[2][3]` at byte `offset`
      (12-byte rows, 8-byte pointers) has as elements two pointers to its rows,
      so its children cover bits 0-63 and 96-159 of the field and its range ends
      at bit 159 although the array's last bit is 191. */
  lemma NestedArrayDecays(offset: nat, ids: IdTable)
    ensures var ty := ContainerField(CArray, [PointerField(8), PointerField(8)], [0, 12]);
      && WellFormed(ty)
      && var it := ItemOf(ty, offset, ids);
      && it.data.items == [Item(Pointer, NoData, [Range(offset * 8, offset * 8 + 63)]),
                           Item(Pointer, NoData, [Range(offset * 8 + 96, offset * 8 + 159)])]
      && it.ranges == [Range(offset * 8, offset * 8 + 159)]
      && it.ranges[0].last < (offset + 2 * 12) * 8 - 1
  {
    var ty := ContainerField(CArray, [PointerField(8), PointerField(8)], [0, 12]);
    var kids := ChildItems(ty.elems, ty.offsets, offset, ids);
    RowPointers(offset, ids);
    var shell := Item(Container, Children(kids), [Range(offset * 8, offset * 8)]);
    assert MaxBit(0, kids[0]) == offset * 8 + 63;
    assert MaxBit(offset * 8 + 63, kids[1]) == offset * 8 + 159;
    assert kids[1..][0] == kids[1] && kids[1..][1..] == [];
    assert MaxBitOver(offset * 8 + 159, kids[1..][1..]) == offset * 8 + 159;
    assert MaxBitOver(offset * 8 + 63, kids[1..]) == offset * 8 + 159;
    assert MaxBit(0, shell) == offset * 8 + 159;
  }

  /** A container whose element keeps a const or volatile qualifier is not
      registrable as it stands: its elements are registered decayed. */
  lemma QualifiedElementNotRegistrable()
    ensures !WellFormed(ContainerField(CArray, [ArithField(Qualified(Int(4, true)))], [0]))
  {
    var bad := ContainerField(CArray, [ArithField(Qualified(Int(4, true)))], [0]);
    assert !Decayed(bad.elems[0]);
  }

  /** `const int a[3]` is still a C-array: `is_container<T[N]>` matches with
      `T = const int`, and each element is registered decayed, as a plain
      `int`. The field is a container of three arithmetic children. */
  lemma QualifiedCArray(offset: nat, ids: IdTable)
    ensures var ty := ContainerField(CArray, [ArithField(Int(4, true)), ArithField(Int(4, true)), ArithField(Int(4, true))], [0, 4, 8]);
      && WellFormed(ty)
      && var it := ItemOf(ty, offset, ids);
      && it.category == Container && |it.data.items| == 3
      && forall i | 0 <= i < 3 :: it.data.items[i].category == Arithmetic && it.data.items[i].ranges == [Span(offset + 4 * i, 4)]
  {
    var ty := ContainerField(CArray, [ArithField(Int(4, true)), ArithField(Int(4, true)), ArithField(Int(4, true))], [0, 4, 8]);
    var kids := ChildItems(ty.elems, ty.offsets, offset, ids);
    assert ItemOf(ty, offset, ids).data.items == kids;
    forall i | 0 <= i < 3
      ensures kids[i].category == Arithmetic && kids[i].ranges == [Span(offset + 4 * i, 4)]
    {
      assert ty.elems[i] == ArithField(Int(4, true)) && ty.offsets[i] == 4 * i;
    }
  }
}
