# map-layout: the layout registry, modelled in Dafny

map-layout records, for a C++ class, which bits of an instance each
registered field occupies. Each registration (a macro expanding to
`register_field<CLASS, FIELD>` or `register_bitfield<CLASS, FIELD>`) adds one
entry to the class's `class_layout`: the field's item and the class's bit
bounds `firstbit`/`lastbit`. An item holds a category, a one-byte type
descriptor, a class id or the items of a container's elements, plus inclusive
bit ranges. Duplicate registrations go to a per-class error list, which is
kept ordered by source line.

The model covers `include/map_layout.h`:

- `arithmetic.dfy` (module `ArithmeticEncoding`): the `0WZZZYXX` descriptor
  built by `get_encoded_arithmetic` and read back by `decode_arithmetic`.
- `items.dfy` (module `Items`): `item_t` and the field types the
  `register_field` overloads dispatch on. It also defines
  `is_container`/`container_size`, `id_of` (0 for an unbound type), the item
  each field type produces, `get_max_bit`, and the fold of ranges into the
  class's bounds.
- `errorlog.dfy` (module `ErrorLog`): `add_error`'s push-then-sort and the
  duplicate message.
- `probe.dfy` (module `BitProbe`): `get_first_bit_position` and the bit-field
  probe of `register_bitfield`. Module `ProbeExamples` evaluates the probe,
  in lemmas, on two concrete accessor pairs.
- `registry.dfy` (module `LayoutRegistry`): class `TypeRegistry` holds the two
  statics of one class type, the layout behind `get_layout<T>` and the error
  list behind `get_type_errors<T>`. Its methods are `add_error`,
  `setup_class_field`, the `register_field` overloads (with
  `register_container`) and `register_bitfield`, each proved against a pure
  function (`AfterField`, `AfterBitfield`) of the old layout.
  `GatherAllErrors` concatenates the error lists.
- `layout_properties.dfy` (module `LayoutProperties`): what holds across
  registrations:
  - in a named class, or one with no field yet, the bounds bracket every
    registered range;
  - in a named class, a duplicate leaves the layout unchanged, and still logs
    one duplication error;
  - in a named class, registrations of two new, different fields commute;
  - in an unnamed class every registration re-runs the first-touch block and
    resets the bounds, so none of these three holds there;
  - the edge cases behave as the code has them.

Modelling decisions:

- **Field keys.** `class_layout::fields` is a `map<const char*, ...>`, so the
  source detects duplicates by pointer identity of the field-name literal. The
  model keys fields by the name's characters. Two registrations with equal
  names held in different literals count as one field here.
- **SFINAE dispatch.** The overload set becomes the datatype `FieldType`.
  `WellFormed` admits at least the types for which a registration compiles
  (also some that no C++ type has, such as a zero-length C-array), and a
  reference field is excluded by it, because the source rejects it with a
  `static_assert`.
- **const and volatile.** A field's type is `decltype(CLASS::field)`, which
  keeps `const` and `volatile`. The bool and character tests of the encoder
  compare exact types, so a qualified bool or character type is encoded as
  the integer of its width and sign: `const bool` decodes as `uint8_t`, and
  `const char16_t` as `uint16_t` (`Arith.Qualified`,
  `QualifiedDecodesAsInteger`). A container's elements are decayed, which
  drops the qualifiers, so only a top-level field can be qualified. A
  qualified class, `std::pair`, `std::tuple` or `std::array` is a type of its
  own for `id_of` and `is_container`: it is given as a `ClassField` of its own
  `TypeId`, which has id 0 unless the table binds it. A qualified C-array
  (`const int a[3]`) is the exception: `is_container<T[N]>` still matches,
  with `T` the qualified element type, so it is given as a
  `ContainerField(CArray, ...)` whose elements are decayed and unqualified,
  and it yields a container item with one child per element
  (`QualifiedCArray`, `QualifiedElementNotRegistrable`).
- **Container element offsets.** Each element is classified at the
  container's offset plus the element's offset measured from the start of the
  container object. The source computes `&container_elem<IDX>(field) - &field`
  on `static_of<FIELD>()`.
- **Nested C-arrays.** An element of a container is registered under its
  decayed type (`decay<decltype(container_elem<I>(field))>`). A C-array
  element therefore becomes a pointer to its first element and is never
  expanded. `int a[2][3]` yields two pointer children, at bits 0-63 and 96-159
  of the field, and the container's range ends at bit 159, not at the array's
  last bit 191 (`NestedArrayDecays`). `WellFormed` therefore admits a
  container only with decayed element types (`Decayed`).
- **Fold order.** A container's elements fold their ranges into the class's
  bounds before the container's own range does. `AllRanges` lists them in that
  order.
- **Empty containers.** An empty container (`std::array<T, 0>`) gets the range
  `[offset*8, 0]`, because `get_max_bit(0, item)` finds no leaf.
  `EmptyArrayInvertsBounds` shows the resulting class bounds with `firstbit`
  above `lastbit`.
- **Failed probe.** The entry is made before the probe runs. A probe that
  finds no bit therefore leaves an entry of category bit-field with no ranges,
  and the function returns false (`FailedProbeKeepsEntry`).
- **Dropped final range.** When the probe loop ends without a failed readback
  and a range was already closed by a gap, the last open `[curr, last]` range
  is not pushed (`FinalRangeDroppedAfterGap`).
- **Unnamed class.** The header is initialised while the class's name is
  empty. A class first registered under an empty name stays unnamed as long as
  the later registrations also pass an empty name, and each such registration
  reopens its bounds (`UnnamedClassReopensBounds`). The first registration
  with a non-empty name names the class and sets its id.
- **The probe's memory.** The scratch instance is a byte sequence. The
  getter and setter are functions over it (`Accessors`).

## Model

| member | source | states |
|---|---|---|
| ArithmeticEncoding.Encode | include/map_layout.h:470-514 | category, sign, size class and W flag each land in their own bits of the descriptor; bit 7 is clear |
| ArithmeticEncoding.Decode | include/map_layout.h:352-404 | the answer is "bool" exactly when the category bits are 0, and is always one of the names the switch lists or "undefined" |
| ArithmeticEncoding.DecodeEncode | include/map_layout.h:352-404 | decoding the descriptor of any valid type gives that type's fixed-width name (integers by width and sign, `char8_t`, `signed char` and a qualified bool or character as integers, an 8-byte long double as `double`) |
| ArithmeticEncoding.DecodeFixedWidth | include/map_layout.h:352-404 | every 1/2/4/8-byte integer, bool, float and double decodes to its own name, never `undefined` |
| ArithmeticEncoding.EncodeSeparatesFacets | include/map_layout.h:470-514 | two types share a descriptor if and only if they agree on category, signedness, size class and W flag |
| ArithmeticEncoding.DecodeIgnoresBitSeven | include/map_layout.h:352-404 | the decoder's answer does not depend on bit 7 |
| ArithmeticEncoding.QualifiedDecodesAsInteger | include/map_layout.h:468-514 | a const or volatile bool or character type decodes as the integer name of its width and sign (`const bool` as `uint8_t`, `const char16_t` as `uint16_t`) |
| ArithmeticEncoding.QualifiedDescriptor | include/map_layout.h:468-514 | qualifying a type changes its descriptor if and only if the type is bool or one of the four character types |
| ArithmeticEncoding.CharEightNeverDecoded | include/map_layout.h:352-404 | no encoded type decodes to `char8_t`; `char8_t` itself decodes as `uint8_t` |
| ArithmeticEncoding.UnlistedDecodesUndefined | include/map_layout.h:352-404 | integer size classes above 8 bytes, floating point size classes other than 4/8/16, and W-flagged characters wider than 4 bytes decode to `undefined` |
| Items.Span | include/map_layout.h:576-577 | a field of `bytes` bytes covers exactly `8*bytes` bits, first to last |
| Items.ItemOf | include/map_layout.h:557-717 | every field type yields a well-shaped item with one range starting at `offset*8` |
| Items.ChildItems | include/map_layout.h:720-742 | a container has one child per element, each well shaped |
| Items.ScalarItem | include/map_layout.h:557-654 | an arithmetic, pointer or class field gets the range `[offset*8, (offset+sizeof)*8-1]`, its category, and its descriptor or `id_of` value |
| Items.IdOf | include/map_layout.h:226-228 | a type with no `id_of` specialisation has id 0; a non-zero id comes from a specialisation |
| Items.ContainerSize | include/map_layout.h:161-201 | `container_size` is 1 for every type that is not indexable (the element count of an indexable one is stated by `Items.ContainerItem`) |
| Items.QualifiedElementNotRegistrable | include/map_layout.h:727-742 | a container whose element type keeps a const qualifier is not a registrable element list: elements are registered decayed, so unqualified |
| Items.QualifiedCArray | include/map_layout.h:196-206 | `const int a[3]` is a registrable C-array container whose three children are arithmetic items at bytes offset, offset+4 and offset+8 |
| Items.NestedArrayNotRegistrable | include/map_layout.h:203-206 | a C-array of C-arrays is not a registrable element list: its elements must be given decayed, as pointers |
| Items.RowPointers | include/map_layout.h:727-742 | the two decayed rows of `int a[2][3]` are classified as pointer items at bits 0-63 and 96-159 |
| Items.NestedArrayDecays | include/map_layout.h:727-742 | `int a[2][3]` gets two pointer children and a range ending at bit 159, short of the array's last bit 191 |
| Items.ContainerItem | include/map_layout.h:679-742 | a container item has `container_size` children, child i classified at the container's offset plus element i's offset |
| Items.ContainerEndCoversChildren | include/map_layout.h:709 | the container's range ends at or after the last bit of every leaf below it |
| Items.MaxBitBounds | include/map_layout.h:658-674 | get_max_bit returns at least `val`, at least every leaf's last bit, and is `val` or one of those bits |
| Items.MaxBitOverBounds | include/map_layout.h:663-669 | the same for the loop over a container's children |
| Items.MaxBit | include/map_layout.h:658-674 | get_max_bit never returns less than `val` (its full characterisation is `Items.MaxBitBounds`) |
| Items.MaxBitOver | include/map_layout.h:663-669 | the loop over the children never returns less than its starting value |
| Items.FoldBounds | include/map_layout.h:580-583 | after folding, `firstbit` is at most its start and every range's first bit, `lastbit` at least its start and every range's last bit, each being the start or some range's bound |
| Items.FoldConcat | include/map_layout.h:701-716 | folding the elements' ranges and then the container's equals folding them together |
| Items.FoldCommutes | include/map_layout.h:580-583 | folding two runs of ranges gives the same bounds in either order |
| ErrorLog.PushAndSort | include/map_layout.h:426-430 | the new list holds the old entries plus the new one (as a multiset) and is ordered by line |
| ErrorLog.DuplicationMessage | include/map_layout.h:434-435 | the message is "Duplicated field registration ", the class name, "::" and the field name, in that order and nothing else |
| BitProbe.LowBit | include/map_layout.h:783-787 | the lowest set bit of a byte at or after `from` |
| BitProbe.FirstSetBit | include/map_layout.h:779-790 | -1 exactly when no bit is set, otherwise the lowest set bit of the image |
| BitProbe.ScanFirstBit | include/map_layout.h:779-790 | the byte-then-bit scan returns the lowest set bit of the image, or -1 |
| BitProbe.Zeros | include/map_layout.h:794 | the memset instance has `n` bytes and no bit set |
| BitProbe.ProbeLoopCount | include/map_layout.h:803-841 | the probe yields between 1 and `8*sizeof(FIELD)` ranges |
| BitProbe.ProbeLoopInside | include/map_layout.h:803-841 | with a setter that keeps the instance's size, every range found lies inside the class's bits |
| BitProbe.ProbeLoopKeepsClosed | include/map_layout.h:803-841 | the probe loop (`BitProbe.ProbeLoop`) never takes back a closed range, returns at least one range, and its first range starts at the first bit found when no gap closed one earlier |
| BitProbe.ProbeSpec | include/map_layout.h:794-841 | a successful probe returns at least one range, the first starting at the lowest bit that writing 1 sets |
| BitProbe.ProbeLoopContiguous | include/map_layout.h:811-834 | while each value bit lands on the class bit after the previous one, the loop extends the open range, and it closes it when the readback stops it or the bits run out |
| BitProbe.ProbeFindsContiguousBits | include/map_layout.h:794-841 | a field whose value bit k lands on class bit p+k for its first w bits, with the readback stopping the probe at bit w or the storage having only w bits, is found as exactly the range [p, p+w-1] |
| BitProbe.ProbeShape | include/map_layout.h:794-841 | the probe fails exactly when writing 1 sets no bit; otherwise it finds 1 to width ranges inside the class |
| BitProbe.Probe | include/map_layout.h:794-841 | the imperative probe computes `ProbeSpec` and returns 1 to width ranges when it succeeds |
| ProbeExamples.ThreeBitFieldAtBitTwo | include/map_layout.h:803-841 | a 3-bit field stored at bits 2..4 of a one-byte class is found as the single range [2, 4] |
| ProbeExamples.FinalRangeDroppedAfterGap | include/map_layout.h:820-841 | a byte field split into bits 0-3 and 8-11 is found as [0, 3] alone: the range opened after the gap is never pushed |
| LayoutRegistry.DuplicateField | include/map_layout.h:535-555 | registering a field name already present changes nothing but the first-touch header |
| LayoutRegistry.Touch | include/map_layout.h:538-544 | the first-touch block keeps the fields, leaves a named layout unchanged, and leaves the name empty only when it was empty and the class name passed is empty |
| LayoutRegistry.AfterField | include/map_layout.h:557-717 | register_field's effect on the layout: the field names become the old ones plus this one, the header is the first-touch header, and a new field's entry is its user data with `ItemOf` of its type |
| LayoutRegistry.AfterBitfield | include/map_layout.h:756-851 | register_bitfield's effect on the layout: the field names become the old ones plus this one, the header is the first-touch header, and a new entry is a bit-field carrying the type's descriptor |
| LayoutRegistry.EnterProbed | include/map_layout.h:765-851 | after the probe, the field names gain this field, the header is kept, and the entry keeps its user data, category and descriptor whether or not ranges were found |
| LayoutRegistry.FieldSteps | include/map_layout.h:557-583 | entering an empty item, replacing it with the classified item and folding its ranges gives the layout `AfterField` describes |
| LayoutRegistry.BitfieldSteps | include/map_layout.h:765-851 | entering an empty item, marking it a bit-field, probing and folding gives the layout `AfterBitfield` describes |
| LayoutRegistry.GetMaxBit | include/map_layout.h:658-674 | the recursive get_max_bit computes `MaxBit` (bounded by `Items.MaxBitBounds`) |
| LayoutRegistry.TypeRegistry.constructor | include/map_layout.h:333-345 | a class's statics start zeroed: no name, id 0, no field, no error |
| LayoutRegistry.TypeRegistry.AddError | include/map_layout.h:426-430 | the entry is added and the list stays ordered by line |
| LayoutRegistry.TypeRegistry.AddDuplicationError | include/map_layout.h:432-437 | logs "Duplicated field registration CLASS::FIELD" at the registration's file and line |
| LayoutRegistry.TypeRegistry.SetupClassField | include/map_layout.h:535-555 | first touch sets id, name and the opened bounds; a new name gets an empty entry and no error; a known name gets a duplicate error and no entry |
| LayoutRegistry.TypeRegistry.FoldRanges | include/map_layout.h:580-583 | the loop leaves `firstbit`/`lastbit` at the fold of the old bounds over the ranges, touching nothing else |
| LayoutRegistry.TypeRegistry.Classify | include/map_layout.h:557-654 | the item built is `ItemOf` of the type, and its ranges, children first, are folded into the bounds |
| LayoutRegistry.TypeRegistry.ClassifyContainer | include/map_layout.h:679-717 | the container's item, with its end from get_max_bit, and all its ranges folded |
| LayoutRegistry.TypeRegistry.RegisterContainer | include/map_layout.h:720-742 | the elements are classified in order at their offsets and their ranges folded |
| LayoutRegistry.TypeRegistry.RegisterField | include/map_layout.h:557-717 | succeeds exactly when the name is new; the layout becomes `AfterField` of the old one; errors unchanged on success, one duplicate entry added otherwise |
| LayoutRegistry.TypeRegistry.RegisterBitfield | include/map_layout.h:756-851 | succeeds exactly when the name is new and the probe finds a bit; the layout becomes `AfterBitfield` (entry kept on a failed probe) |
| LayoutRegistry.GatherAllErrors | include/map_layout.h:95-117 | an entry is gathered if and only if it is in the error list of one of the named types |
| LayoutRegistry.GatherAppend | include/map_layout.h:97-117 | gathering over two runs of types is the first run's errors followed by the second's |
| LayoutProperties.EnterItem | include/map_layout.h:579-583 | entering an item adds exactly that entry, keeps the header, widens the bounds, and covers every range of the item |
| LayoutProperties.FieldRegistered | include/map_layout.h:535-717 | a new field is entered with `ItemOf` of its type; the other entries are kept; the header is set only on first touch; the bounds widen and cover the new item |
| LayoutProperties.DuplicateFieldIgnored | include/map_layout.h:548-554 | in a named class, re-registering a field leaves the layout unchanged |
| LayoutProperties.DuplicateBitfieldIgnored | include/map_layout.h:765-768 | in a named class, re-registering a bit-field leaves the layout unchanged |
| LayoutProperties.FieldKeepsBracketed | include/map_layout.h:557-717 | in a class that is named or has no field yet, if the bounds bracket every registered range before a field registration, they still do after it |
| LayoutProperties.BitfieldKeepsBracketed | include/map_layout.h:756-851 | the same for a bit-field registration in a class that is named or has no field yet, whether or not its probe succeeds |
| LayoutProperties.BitfieldRegistered | include/map_layout.h:765-851 | a successful probe stores the descriptor and 1 to width ranges inside the class's bits, and the bounds cover them |
| LayoutProperties.FailedProbeKeepsEntry | include/map_layout.h:765-799 | when writing 1 sets no bit, the entry stays, marked bit-field with no ranges, and the bounds are not changed |
| LayoutProperties.EnterCommutes | include/map_layout.h:579-583 | entering two items under different names gives the same layout in either order |
| LayoutProperties.FieldsCommute | include/map_layout.h:535-717 | two different fields registered into a named class give the same layout in either order |
| LayoutProperties.FirstScalarField | include/map_layout.h:538-583 | the first scalar field of a class sets its name and id, and sets its bounds to exactly that field's range |
| LayoutProperties.EmptyArrayInvertsBounds | include/map_layout.h:701-716 | an empty std::array gets the range `[offset*8, 0]`; registered first at offset 1 or more, it leaves `firstbit` above `lastbit` |
| LayoutProperties.UnnamedClassReopensBounds | include/map_layout.h:538-544 | while a class's name is empty, a scalar registration resets the bounds to that field's range alone, forgetting earlier fields |

## Left out

- The `ML_*` registration macros, `FIELD_OFFSET` and `static_of` are left out. The model takes a field's byte offset and a container's element offsets as inputs.
- `get_filtered_classname` (regex stripping of `ML_WRAP(...)`) is left out. The class name reaching the registry is an input string.
- SFINAE overload selection is left out. The `FieldType` datatype stands for it, and the conditional `id_of<T, cond>` specialisation becomes a resolved `IdTable`.
- Reference fields are left out. They are excluded by `WellFormed` and by a precondition, because the source refuses them at compile time.
- Memory is left out: `reinterpret_cast`, the static scratch buffer, `memset` and the probe's writes through `std::function`. The instance is a byte sequence and the accessors are pure functions of it, so accessors with side effects elsewhere are not modelled.
- `new[]`/`delete[]` of container items and `item_t`'s destructor are left out. Children are a sequence.
- BitProbe.Probe: bit-fields whose storage type is wider than 4 bytes are not modelled, because `1u << offset` is a 32-bit shift. For those the source shifts past the width.
- Platform-dependent widths (`wchar_t`, `long double`, the signedness of `char`) are parameters of the `Arith` constructors. They are not fixed.
- Offsets and bit positions are unbounded naturals: `size_t` wrap-around of `offset * 8` is not modelled. The lemmas that need it require `offset * 8 <= SizeMax`.
- LayoutRegistry.TypeRegistry.AddError: the order among entries with equal lines is not stated, because `std::sort` is not stable.
- LayoutRegistry.GatherAllErrors: states membership. The order (each type's list in turn) is stated by `GatherAppend`.
- The layout's `id` is an unbounded natural. The `uint32_t` width of `id_of` is not enforced.
- `decode_arithmetic`'s use as a debugging aid, the JSON export in `example/tojson.*` and the example program are not part of this model.
