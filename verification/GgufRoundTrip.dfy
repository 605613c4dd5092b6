/** Scanning what was printed: the whole round trip. */
module GgufRoundTrip {
  import opened Outcomes
  import opened LittleEndian
  import opened GgufReader
  import opened GgufScan
  import opened GgufPrinter
  import opened GgufFacts
  import opened TensorNames
  import opened TensorSizes
  import opened TensorTable

  // ----------------------------------------------------------------- fields

  // The text a field's reading holds on to.
  function TextBytes(f: Field): nat {
    |Kept(f.key)| + if Kept(f.key) == ARCHITECTURE && f.value.Str? then |Kept(f.value.s)| else 0
  }

  function AllTextBytes(fields: seq<Field>): nat {
    if fields == [] then 0 else TextBytes(fields[0]) + AllTextBytes(fields[1..])
  }

  // The string entries a field's reading charges: its key, and each text of its value.
  function TextEntries(f: Field): nat {
    1 + if Kept(f.key) == ARCHITECTURE && f.value.Str? then 1 else TextCount(f.value)
  }

  function AllTextEntries(fields: seq<Field>): nat {
    if fields == [] then 0 else TextEntries(fields[0]) + AllTextEntries(fields[1..])
  }

  predicate FitsField(f: Field) {
    NarrowField(f) && FitsValue(f.value)
  }

  lemma ValuePrinted(d: Bytes, s: State, h: Header, f: Field)
    requires FitsField(f) && Passable(s, f.value) && At(d, s.pos, PrintValue(f.value))
    requires !(Kept(f.key) == ARCHITECTURE && f.value.Str?)
    ensures EntryValue(d, s, h, Kept(f.key), Kind(f.value)) == Ok(Read(Applied(h, f), Past(s, f.value)))
  {
    var key, v := Kept(f.key), f.value;
    OnlyTextsAreTexts(v);
    hide Passable, Past, At, PrintValue, Whole, Fact, Parts, Integer, Raw, SkipValue, NoteRecurrent, NoteValue, Text;
    if key == ALIGNMENT || key == SPLIT_COUNT {
      IntegerPrinted(d, s, v);
    } else if Parts(key).1 in FACT_SUFFIXES {
      RawPrinted(d, s, v);
    } else {
      SkipPrinted(d, s, v);
    }
  }

  lemma OnlyTextsAreTexts(v: Value)
    ensures Kind(v) == 8 <==> v.Str?
  {
  }

  // The state after a field.
  function AfterField(s: State, f: Field): State {
    var t := Advance(Charged(s, f.key), 4);
    if Kept(f.key) == ARCHITECTURE && f.value.Str? then Charged(t, f.value.s) else Past(t, f.value)
  }

  lemma ArchitectureRead(d: Bytes, s: State, h: Header, text: string, t: State)
    requires Text(d, s) == Ok(Read(text, t))
    ensures EntryValue(d, s, h, ARCHITECTURE, 8) == Ok(Read(h.(architecture := Some(text)), t))
  {
    hide Text;
  }

  // A key and the type of the value behind it.
  lemma {:induction false} KeyPrinted(d: Bytes, s: State, f: Field)
    requires FitsField(f) && Room(s, |PrintField(f)|) && At(d, s.pos, PrintField(f)) && Affordable(s, f.key)
    ensures var t := Advance(Charged(s, f.key), 4);
            Text(d, s) == Ok(Read(Kept(f.key), Charged(s, f.key)))
            && UInt(d, Charged(s, f.key), 4) == Ok(Read(Kind(f.value), t)) && At(d, t.pos, PrintValue(f.value))
            && Room(t, |PrintValue(f.value)|)
  {
    hide ToLe, FromLe, Pow256, UInt, At, Text, PrintText, Narrow, PrintValue;
    AtBoth(d, s.pos, PrintText(f.key), ToLe(Kind(f.value), 4) + PrintValue(f.value));
    TextPrinted(d, s, f.key);
    UInt4Then(d, Charged(s, f.key), Kind(f.value), PrintValue(f.value));
  }

  lemma {:induction false} FieldPrinted(d: Bytes, s: State, h: Header, f: Field)
    requires FitsField(f) && Room(s, |PrintField(f)|) && At(d, s.pos, PrintField(f))
    requires s.strings + TextBytes(f) <= MAX_STRING_BUDGET && s.entries + TextEntries(f) <= MAX_STRING_ENTRIES
    ensures ScanEntry(d, s, h) == Ok(Read(Applied(h, f), AfterField(s, f)))
  {
    hide UInt, At, Text, EntryValue, PrintText, Narrow, PrintValue, PrintField, FitsValue, Past;
    KeyPrinted(d, s, f);
    var u := Advance(Charged(s, f.key), 4);
    if Kept(f.key) == ARCHITECTURE && f.value.Str? {
      TextIsItsText(f.value);
      TextPrinted(d, u, f.value.s);
      ArchitectureRead(d, u, h, Kept(f.value.s), Charged(u, f.value.s));
    } else {
      ValuePrinted(d, u, h, f);
    }
  }

  lemma TextIsItsText(v: Value)
    requires v.Str? && FitsValue(v)
    ensures PrintValue(v) == PrintText(v.s) && Narrow(v.s)
  {
  }

  lemma AfterFieldMoves(s: State, f: Field)
    requires InStep(s)
    ensures var t := AfterField(s, f);
            t.consumed == t.pos == s.pos + |PrintField(f)|
            && t.strings == s.strings + TextBytes(f) && t.entries == s.entries + TextEntries(f)
  {
  }

  lemma FieldThen(d: Bytes, s: State, h: Header, f: Field, rest: Bytes)
    requires FitsField(f) && Room(s, |PrintField(f)| + |rest|) && At(d, s.pos, PrintField(f) + rest)
    requires s.strings + TextBytes(f) <= MAX_STRING_BUDGET && s.entries + TextEntries(f) <= MAX_STRING_ENTRIES
    ensures ScanEntry(d, s, h) == Ok(Read(Applied(h, f), AfterField(s, f)))
    ensures At(d, AfterField(s, f).pos, rest) && Room(AfterField(s, f), |rest|)
  {
    hide ScanEntry, Applied, AfterField, TextBytes, TextEntries, FitsField, PrintField;
    AtBoth(d, s.pos, PrintField(f), rest);
    FieldPrinted(d, s, h, f);
    AfterFieldMoves(s, f);
  }

  /** A printed list of fields of any types is read field by field. */
  lemma {:induction false} FieldsPrinted(d: Bytes, s: State, h: Header, fields: seq<Field>)
    requires forall i :: 0 <= i < |fields| ==> FitsField(fields[i])
    requires Room(s, |PrintFields(fields)|) && At(d, s.pos, PrintFields(fields))
    requires s.strings + AllTextBytes(fields) <= MAX_STRING_BUDGET
    requires s.entries + AllTextEntries(fields) <= MAX_STRING_ENTRIES
    ensures var r := ScanEntries(d, s, h, |fields|);
            r.Ok? && r.value.value == AppliedAll(h, fields)
            && InStep(r.value.next) && r.value.next.pos == s.pos + |PrintFields(fields)|
    decreases |fields|
  {
    hide ScanEntry, Applied, AfterField, TextBytes, TextEntries, FitsField, PrintField;
    if fields != [] {
      var f, rest := fields[0], fields[1..];
      FieldThen(d, s, h, f, PrintFields(rest));
      AfterFieldMoves(s, f);
      FieldsPrinted(d, AfterField(s, f), Applied(h, f), rest);
    }
  }

  // ---------------------------------------------------------------- tensors

  predicate FitsTensor(t: Spec) {
    Narrow(t.name) && |t.name| <= 256 && |t.shape| <= 4
    && (forall i :: 0 <= i < |t.shape| ==> t.shape[i] <= U64_MAX)
    && t.kind < 0x1_0000_0000 && t.bytes > 0
  }

  // The table entries a list of tensors is printed as.
  function Laid(tensors: seq<Spec>, offset: nat, alignment: nat): (r: seq<Tensor>)
    requires alignment > 0
    ensures |r| == |tensors|
  {
    if tensors == [] then []
    else
      [LaidAt(tensors[0], offset)]
      + Laid(tensors[1..], offset + Rounded(tensors[0].bytes, alignment), alignment)
  }

  function LaidAt(t: Spec, offset: nat): Tensor {
    Tensor(t.name, t.shape, Cap(offset))
  }

  lemma {:induction false} DimsPrinted(d: Bytes, s: State, shape: seq<nat>)
    requires forall i :: 0 <= i < |shape| ==> shape[i] <= U64_MAX
    requires Room(s, 8 * |shape|) && At(d, s.pos, PrintNumbers(shape, 8))
    ensures Dims(d, s, |shape|) == Ok(Read(shape, Advance(s, 8 * |shape|)))
    decreases |shape|
  {
    hide ToLe, FromLe, Pow256, UInt, At;
    if shape != [] {
      UInt8Then(d, s, shape[0], PrintNumbers(shape[1..], 8));
      DimsPrinted(d, Advance(s, 8), shape[1..]);
      assert [shape[0]] + shape[1..] == shape;
    }
  }

  lemma NamePrinted(d: Bytes, s: State, name: string)
    requires Narrow(name) && |name| <= MAX_TENSOR_NAME_BYTES
    requires Room(s, 8 + |name|) && At(d, s.pos, PrintText(name))
    ensures TensorName(d, s) == Ok(Read(name, Advance(s, 8 + |name|)))
  {
    UInt8Then(d, s, |name|, ToBytes(name));
    TakePrinted(d, Advance(s, 8), ToBytes(name));
    CharsOfBytes(name);
    assert Advance(Advance(s, 8), |name|) == Advance(s, 8 + |name|);
  }

  lemma {:induction false} ShapePrinted(d: Bytes, s: State, shape: seq<nat>)
    requires |shape| <= MAX_TENSOR_DIMS && forall i :: 0 <= i < |shape| ==> shape[i] <= U64_MAX
    requires Room(s, 4 + 8 * |shape|) && At(d, s.pos, ToLe(|shape|, 4) + PrintNumbers(shape, 8))
    ensures Shape(d, s) == Ok(Read(shape, Advance(s, 4 + 8 * |shape|)))
  {
    UInt4Then(d, s, |shape|, PrintNumbers(shape, 8));
    DimsPrinted(d, Advance(s, 4), shape);
    assert Advance(Advance(s, 4), 8 * |shape|) == Advance(s, 4 + 8 * |shape|);
  }

  lemma {:induction false} OffsetPrinted(d: Bytes, s: State, kind: nat, offset: nat)
    requires offset <= U64_MAX && kind < 0x1_0000_0000 && Room(s, 12)
    requires At(d, s.pos, ToLe(kind, 4) + ToLe(offset, 8))
    ensures Offset(d, s) == Ok(Read(offset, Advance(s, 12)))
  {
    UInt4Then(d, s, kind, ToLe(offset, 8));
    assert ToLe(offset, 8) == ToLe(offset, 8) + [];
    UInt8Then(d, Advance(s, 4), offset, []);
    assert Advance(Advance(s, 4), 8) == Advance(s, 12);
  }

  lemma TensorPrinted(d: Bytes, s: State, t: Spec, offset: nat)
    requires FitsTensor(t) && offset <= U64_MAX
    requires Room(s, |PrintTensor(t, offset)|) && At(d, s.pos, PrintTensor(t, offset))
    ensures TensorInfo(d, s) == Ok(Read(LaidAt(t, offset), Advance(s, |PrintTensor(t, offset)|)))
  {
    hide TensorName, Shape, Offset, Narrow, ToLe, At;
    var shape := ToLe(|t.shape|, 4) + PrintNumbers(t.shape, 8);
    var tail := ToLe(t.kind, 4) + ToLe(offset, 8);
    AtBoth(d, s.pos, PrintText(t.name), shape + tail);
    NamePrinted(d, s, t.name);
    var u := Advance(s, 8 + |t.name|);
    AtBoth(d, u.pos, shape, tail);
    ShapePrinted(d, u, t.shape);
    var v := Advance(u, 4 + 8 * |t.shape|);
    OffsetPrinted(d, v, t.kind, offset);
    assert Advance(v, 12) == Advance(s, |PrintTensor(t, offset)|);
  }

  lemma TensorThen(d: Bytes, s: State, t: Spec, offset: nat, rest: Bytes)
    requires FitsTensor(t) && offset <= U64_MAX
    requires Room(s, |PrintTensor(t, offset)| + |rest|) && At(d, s.pos, PrintTensor(t, offset) + rest)
    ensures TensorInfo(d, s) == Ok(Read(LaidAt(t, offset), Advance(s, |PrintTensor(t, offset)|)))
    ensures At(d, Advance(s, |PrintTensor(t, offset)|).pos, rest)
  {
    hide TensorInfo, PrintTensor, FitsTensor, LaidAt;
    AtBoth(d, s.pos, PrintTensor(t, offset), rest);
    TensorPrinted(d, s, t, offset);
  }

  /** A printed table is read back, each tensor at its offset. */
  lemma {:induction false} TensorsPrinted(d: Bytes, s: State, tensors: seq<Spec>, offset: nat, alignment: nat)
    requires alignment > 0 && FitsTensors(tensors) && offset + DataSize(tensors, alignment) <= U64_MAX
    requires Room(s, |PrintTensors(tensors, offset, alignment)|)
    requires At(d, s.pos, PrintTensors(tensors, offset, alignment))
    ensures TensorInfos(d, s, |tensors|)
         == Ok(Read(Laid(tensors, offset, alignment), Advance(s, |PrintTensors(tensors, offset, alignment)|)))
    decreases |tensors|
  {
    hide TensorInfo, PrintTensor, FitsTensor, LaidAt, Rounded;
    if tensors != [] {
      var t, rest := tensors[0], tensors[1..];
      var next := offset + Rounded(t.bytes, alignment);
      var printed := PrintTensors(rest, next, alignment);
      TensorThen(d, s, t, offset, printed);
      TensorsPrinted(d, Advance(s, |PrintTensor(t, offset)|), rest, next, alignment);
      AdvanceTwice(s, |PrintTensor(t, offset)|, |printed|);
    }
  }

  // ------------------------------------------------------------------ sizes

  // The rounded sizes of the tensors whose names belong to one bucket.
  ghost function RoundedIn(tensors: seq<Spec>, alignment: nat, k: Bucket): nat
    requires alignment > 0
  {
    if tensors == [] then 0 else RoundedOne(tensors[0], alignment, k) + RoundedIn(tensors[1..], alignment, k)
  }

  ghost function RoundedOne(t: Spec, alignment: nat, k: Bucket): nat
    requires alignment > 0
  {
    if Belongs(t.name, k) then Rounded(t.bytes, alignment) else 0
  }

  predicate FitsTensors(tensors: seq<Spec>) {
    forall i :: 0 <= i < |tensors| ==> FitsTensor(tensors[i])
  }

  lemma {:induction false} LaidEntries(t: Spec, offset: nat, rest: seq<Spec>, alignment: nat)
    requires alignment > 0 && offset <= U64_MAX
    ensures Entries(Laid([t] + rest, offset, alignment))
         == [EntryOf(t.name, offset)] + Entries(Laid(rest, offset + Rounded(t.bytes, alignment), alignment))
  {
    hide EntryOf, Rounded;
    var all := [t] + rest;
    assert all[1..] == rest;
    assert Laid(all, offset, alignment)[1..] == Laid(rest, offset + Rounded(t.bytes, alignment), alignment);
  }

  /** The printed offsets increase from the first one to the end of the data. */
  lemma {:induction false} LaidIsPlaced(tensors: seq<Spec>, offset: nat, alignment: nat)
    requires alignment > 0 && FitsTensors(tensors) && offset + DataSize(tensors, alignment) <= U64_MAX
    ensures var es := Entries(Laid(tensors, offset, alignment));
            Increasing(es) && Placed(es, offset + DataSize(tensors, alignment)) && AtLeast(es, offset)
            && (es != [] ==> es[0].offset == offset)
  {
    hide Classify, Rounded, Entries, Laid, Increasing, Placed, AtLeast;
    if tensors == [] {
      EmptyTable(offset + DataSize(tensors, alignment), offset, alignment);
    } else {
      var t, rest := tensors[0], tensors[1..];
      var next := offset + Rounded(t.bytes, alignment);
      assert tensors == [t] + rest;
      LaidIsPlaced(rest, next, alignment);
      LaidEntries(t, offset, rest, alignment);
      ConsIncreases(EntryOf(t.name, offset), Entries(Laid(rest, next, alignment)), next,
                    offset + DataSize(tensors, alignment));
    }
  }

  lemma {:induction false} EmptyTable(dataLen: U64, offset: U64, alignment: nat)
    requires alignment > 0
    ensures Entries(Laid([], offset, alignment)) == []
    ensures Increasing([]) && Placed([], dataLen) && AtLeast([], offset)
  {
  }

  /** Each gap between printed offsets is the rounded size of one tensor. */
  lemma {:induction false} GapsAreRounded(tensors: seq<Spec>, offset: nat, alignment: nat, k: Bucket)
    requires alignment > 0 && FitsTensors(tensors) && offset + DataSize(tensors, alignment) <= U64_MAX
    ensures GapsIn(Entries(Laid(tensors, offset, alignment)), offset + DataSize(tensors, alignment), k)
         == RoundedIn(tensors, alignment, k)
  {
    hide Classify, Rounded, Laid, Entries, Increasing, Placed, AtLeast, In, EntryOf, RoundedOne, FitsTensor, GapsIn;
    if tensors == [] {
      EmptyTable(offset, offset, alignment);
      NoGaps(offset, k);
    } else {
      var t, rest := tensors[0], tensors[1..];
      var next := offset + Rounded(t.bytes, alignment);
      assert tensors == [t] + rest;
      GapsAreRounded(rest, next, alignment, k);
      LaidIsPlaced(rest, next, alignment);
      LaidEntries(t, offset, rest, alignment);
      GapStep(t, offset, alignment, Entries(Laid(rest, next, alignment)), offset + DataSize(tensors, alignment), k);
    }
  }

  lemma {:induction false} NoGaps(dataLen: U64, k: Bucket)
    ensures GapsIn([], dataLen, k) == 0
  {
  }

  lemma {:induction false} GapStep(t: Spec, offset: U64, alignment: nat, tail: seq<TensorTable.Entry>, dataLen: U64,
                                   k: Bucket)
    requires alignment > 0
    requires offset + Rounded(t.bytes, alignment) == (if tail != [] then tail[0].offset else dataLen)
    ensures GapsIn([EntryOf(t.name, offset)] + tail, dataLen, k)
         == RoundedOne(t, alignment, k) + GapsIn(tail, dataLen, k)
  {
    hide Classify, Rounded, Belongs;
    var es := [EntryOf(t.name, offset)] + tail;
    assert es[1..] == tail;
    BucketOfName(t.name, offset, k);
  }

  /** A printed table is sized, and every bucket holds its tensors' rounded sizes. */
  lemma {:induction false} LaidSizes(tensors: seq<Spec>, alignment: nat, seed: TensorBytes, k: Bucket)
    requires alignment > 0 && FitsTensors(tensors) && DataSize(tensors, alignment) <= U64_MAX && Unsized(seed)
    ensures var r := SizeTable(Entries(Laid(tensors, 0, alignment)), DataSize(tensors, alignment), seed);
            r.Some? && Get(r.value, k) == RoundedIn(tensors, alignment, k)
            && r.value.vocab == seed.vocab && r.value.hasOutputWeight == seed.hasOutputWeight
  {
    hide Classify, Laid, Increasing, Placed, FitsTensors, DataSize, RoundedIn, Get, SizeFrom, Sort;
    var laid := Laid(tensors, 0, alignment);
    var es := Entries(laid);
    LaidIsPlaced(tensors, 0, alignment);
    forall i | 0 <= i < |es|
      ensures Flagged(es[i])
    {
      EntriesAreFlagged(laid[i].name, laid[i].offset);
    }
    GapsAreRounded(tensors, 0, alignment, k);
    InOrderSizes(es, DataSize(tensors, alignment), seed, k);
    SizingKeepsNotes(Sort(es), DataSize(tensors, alignment), seed);
  }

  // ------------------------------------------------------- what names and shapes say

  predicate HoldsOutput(tensors: seq<Spec>) {
    exists i :: 0 <= i < |tensors| && tensors[i].name == "output.weight"
  }

  /** The second dimension of the first embedding or output table with two. */
  function Words(tensors: seq<Spec>): Option<nat> {
    if tensors == [] then None
    else
      var t := tensors[0];
      if (t.name == "token_embd.weight" || t.name == "output.weight") && |t.shape| > 1 then Some(t.shape[1])
      else Words(tensors[1..])
  }

  lemma {:induction false} LaidNames(tensors: seq<Spec>, offset: nat, alignment: nat, i: nat)
    requires alignment > 0 && i < |tensors|
    ensures Laid(tensors, offset, alignment)[i].name == tensors[i].name
    decreases i
  {
    hide Rounded;
    if i > 0 {
      LaidNames(tensors[1..], offset + Rounded(tensors[0].bytes, alignment), alignment, i - 1);
    }
  }

  lemma {:induction false} LaidVocabulary(tensors: seq<Spec>, offset: nat, alignment: nat)
    requires alignment > 0
    ensures Vocabulary(Laid(tensors, offset, alignment)) == Words(tensors)
  {
    hide Rounded;
    if tensors != [] {
      var laid := Laid(tensors, offset, alignment);
      var next := offset + Rounded(tensors[0].bytes, alignment);
      LaidVocabulary(tensors[1..], next, alignment);
      assert laid[1..] == Laid(tensors[1..], next, alignment);
    }
  }

  lemma {:induction false} LaidNotes(tensors: seq<Spec>, alignment: nat)
    requires alignment > 0
    ensures NamesOutput(Laid(tensors, 0, alignment)) <==> HoldsOutput(tensors)
    ensures Vocabulary(Laid(tensors, 0, alignment)) == Words(tensors)
  {
    hide Laid, Words, Vocabulary;
    LaidVocabulary(tensors, 0, alignment);
    forall i | 0 <= i < |tensors| ensures Laid(tensors, 0, alignment)[i].name == tensors[i].name {
      LaidNames(tensors, 0, alignment, i);
    }
  }

  lemma {:induction false} NotesAreKept(tensors: seq<Spec>, alignment: nat)
    requires alignment > 0
    ensures var noted := Noted(NOTHING, Laid(tensors, 0, alignment));
            Unsized(noted) && noted.vocab == Words(tensors) && (noted.hasOutputWeight <==> HoldsOutput(tensors))
  {
    hide Noted, Laid, Words, HoldsOutput, NamesOutput, Vocabulary;
    var laid := Laid(tensors, 0, alignment);
    NothingIsUnsized();
    NotedIsUnsized(NOTHING, laid);
    NotedVocabulary(NOTHING, laid);
    NotedCounts(NOTHING, laid);
    LaidNotes(tensors, alignment);
  }

  // -------------------------------------------------------------- whole file

  /** What the reader's limits allow: the round trip holds for all of it. */
  predicate Printable(version: nat, fields: seq<Field>, tensors: seq<Spec>) {
    2 <= version <= 3 && |fields| <= 4096 && |tensors| <= 1048576
    && (forall i :: 0 <= i < |fields| ==> FitsField(fields[i])) && FitsTensors(tensors)
    && AllTextBytes(fields) <= 2000000 && AllTextEntries(fields) <= 2000000
    && Alignment(fields) > 0 && IsPowerOfTwo(Alignment(fields))
    && |PrintHeader(version, fields, tensors, Alignment(fields))| <= 128 * 1024 * 1024
    && |File(version, fields, tensors, Alignment(fields))| <= 0xFFFF_FFFF_FFFF_FFFF
  }

  lemma {:induction false} AfterMagic(d: Bytes, magic: Bytes, version: nat, tensors: nat, keys: nat, rest: Bytes)
    requires |magic| == 4 && At(d, 0, (magic + (ToLe(version, 4) + (ToLe(tensors, 8) + ToLe(keys, 8)))) + rest)
    ensures At(d, 0, magic) && At(d, 4, ToLe(version, 4) + (ToLe(tensors, 8) + ToLe(keys, 8))) && At(d, 24, rest)
  {
    hide At, ToLe;
    var numbers := ToLe(version, 4) + (ToLe(tensors, 8) + ToLe(keys, 8));
    AtBoth(d, 0, magic + numbers, rest);
    AtBoth(d, 0, magic, numbers);
  }

  lemma {:induction false} NumbersPrinted(d: Bytes, s: State, version: nat, tensors: nat, keys: nat)
    requires Room(s, 20) && At(d, s.pos, ToLe(version, 4) + (ToLe(tensors, 8) + ToLe(keys, 8)))
    requires version < 0x1_0000_0000
    requires tensors < 0x1_0000_0000_0000_0000 && keys < 0x1_0000_0000_0000_0000
    ensures UInt(d, s, 4) == Ok(Read(version, Advance(s, 4)))
    ensures UInt(d, Advance(s, 4), 8) == Ok(Read(tensors, Advance(s, 12)))
    ensures UInt(d, Advance(s, 12), 8) == Ok(Read(keys, Advance(s, 20)))
  {
    hide At, Take, ToLe, UInt, FromLe, Pow256;
    UInt4Then(d, s, version, ToLe(tensors, 8) + ToLe(keys, 8));
    UInt8Then(d, Advance(s, 4), tensors, ToLe(keys, 8));
    assert ToLe(keys, 8) == ToLe(keys, 8) + [];
    UInt8Then(d, Advance(s, 12), keys, []);
  }

  // What a preamble answers whose parts read one after the other.
  function PreambleAnswer(magic: Bytes, version: nat, tensors: nat, keys: nat, t: State)
    : Result<Read<(nat, nat)>, Fault>
  {
    if magic != [71, 71, 85, 70] then Err(NotGguf)
    else if version != 2 && version != 3 then Err(BadVersion)
    else if keys > 4096 then Err(KeyCount)
    else Ok(Read((tensors, keys), t))
  }

  lemma PreambleReads(d: Bytes, s: State, magic: Bytes, version: nat, tensors: nat, keys: nat)
    requires Take(d, s, 4) == Ok(Read(magic, Advance(s, 4)))
    requires UInt(d, Advance(s, 4), 4) == Ok(Read(version, Advance(s, 8)))
    requires UInt(d, Advance(s, 8), 8) == Ok(Read(tensors, Advance(s, 16)))
    requires UInt(d, Advance(s, 16), 8) == Ok(Read(keys, Advance(s, 24)))
    ensures Preamble(d, s) == PreambleAnswer(magic, version, tensors, keys, Advance(s, 24))
  {
    hide Take, UInt, Advance;
  }

  // The preamble behind any position, such as the start of a file.
  lemma {:induction false} PreambleAt(d: Bytes, s: State, magic: Bytes, version: nat, tensors: nat, keys: nat)
    requires Room(s, 24) && |magic| == 4 && At(d, s.pos, magic)
    requires At(d, s.pos + 4, ToLe(version, 4) + (ToLe(tensors, 8) + ToLe(keys, 8)))
    requires version < 0x1_0000_0000
    requires tensors < 0x1_0000_0000_0000_0000 && keys < 0x1_0000_0000_0000_0000
    ensures Preamble(d, s) == PreambleAnswer(magic, version, tensors, keys, Advance(s, 24))
  {
    hide At, Take, UInt, ToLe, Preamble, PreambleAnswer;
    TakePrinted(d, s, magic);
    AdvanceTwice(s, 4, 4);
    AdvanceTwice(s, 4, 12);
    AdvanceTwice(s, 4, 20);
    NumbersPrinted(d, Advance(s, 4), version, tensors, keys);
    PreambleReads(d, s, magic, version, tensors, keys);
  }

  /** How the scan answers the first 24 bytes of a file, whatever they are. */
  lemma {:induction false} PreamblePrinted(d: Bytes, s: State, magic: Bytes, version: nat, tensors: nat, keys: nat,
                                           rest: Bytes)
    requires s == START && |magic| == 4
    requires At(d, 0, (magic + (ToLe(version, 4) + (ToLe(tensors, 8) + ToLe(keys, 8)))) + rest)
    requires version < 0x1_0000_0000
    requires tensors < 0x1_0000_0000_0000_0000 && keys < 0x1_0000_0000_0000_0000
    ensures Preamble(d, s) == PreambleAnswer(magic, version, tensors, keys, Advance(s, 24)) && At(d, 24, rest)
  {
    hide At, ToLe, Preamble, Advance, PreambleAnswer;
    AfterMagic(d, magic, version, tensors, keys, rest);
    PreambleAt(d, s, magic, version, tensors, keys);
  }

  /** A file that does not start as a GGUF file of version 2 or 3 within the limits is refused. */
  lemma {:induction false} PreambleIsChecked(d: Bytes, magic: Bytes, version: nat, tensors: nat, keys: nat, rest: Bytes)
    requires |d| <= U64_MAX && |magic| == 4 && version < 0x1_0000_0000
    requires tensors < 0x1_0000_0000_0000_0000 && keys < 0x1_0000_0000_0000_0000
    requires d == (magic + (ToLe(version, 4) + (ToLe(tensors, 8) + ToLe(keys, 8)))) + rest
    ensures magic != [71, 71, 85, 70] ==> ScanModel(d) == Err(NotGguf)
    ensures magic == [71, 71, 85, 70] && version != 2 && version != 3 ==> ScanModel(d) == Err(BadVersion)
    ensures magic == [71, 71, 85, 70] && 2 <= version <= 3 && keys > 4096 ==> ScanModel(d) == Err(KeyCount)
    ensures magic == [71, 71, 85, 70] && 2 <= version <= 3 && keys <= 4096 && tensors > 1048576 ==>
              ScanModel(d) == Err(TensorCount)
  {
    PreamblePrinted(d, START, magic, version, tensors, keys, rest);
    hide ToLe, Preamble, ScanEntries, TensorInfos, Sized;
  }

  // The header facts and the state behind a printed list of fields.
  lemma {:induction false} FactsPrinted(d: Bytes, version: nat, fields: seq<Field>, tensors: nat, rest: Bytes)
    requires 2 <= version <= 3 && |fields| <= MAX_KEYS && tensors <= MAX_TENSORS
    requires forall i :: 0 <= i < |fields| ==> FitsField(fields[i])
    requires AllTextBytes(fields) <= MAX_STRING_BUDGET && AllTextEntries(fields) <= MAX_STRING_ENTRIES
    requires 24 + |PrintFields(fields)| <= MAX_HEADER_SPAN
    requires At(d, 0, PrintPreamble(version, tensors, |fields|) + (PrintFields(fields) + rest))
    ensures Preamble(d, START) == Ok(Read((tensors, |fields|), Advance(START, 24)))
    ensures var r := ScanEntries(d, Advance(START, 24), EMPTY_HEADER, |fields|);
            r.Ok? && Reports(r.value.value, fields)
            && InStep(r.value.next) && r.value.next.pos == 24 + |PrintFields(fields)|
            && At(d, r.value.next.pos, rest)
  {
    hide FitsField, ScanEntry, Applied, PrintField, At, Preamble, Reports, ToLe;
    PreamblePrinted(d, START, [71, 71, 85, 70], version, tensors, |fields|, PrintFields(fields) + rest);
    AtBoth(d, 24, PrintFields(fields), rest);
    FieldsPrinted(d, Advance(START, 24), EMPTY_HEADER, fields);
    FactsAreReported(fields);
  }

  /** A file whose fields give an alignment that is no power of two is refused. */
  lemma {:induction false} BadAlignmentIsRefused(d: Bytes, version: nat, fields: seq<Field>, tensors: nat, rest: Bytes)
    requires 2 <= version <= 3 && |fields| <= MAX_KEYS && tensors <= MAX_TENSORS && |d| <= U64_MAX
    requires forall i :: 0 <= i < |fields| ==> FitsField(fields[i])
    requires AllTextBytes(fields) <= MAX_STRING_BUDGET && AllTextEntries(fields) <= MAX_STRING_ENTRIES
    requires 24 + |PrintFields(fields)| <= MAX_HEADER_SPAN
    requires d == PrintPreamble(version, tensors, |fields|) + (PrintFields(fields) + rest)
    ensures (forall k: nat :: Alignment(fields) != Pow2(k)) ==> ScanModel(d) == Err(BadAlignment)
  {
    hide Preamble, ScanEntries, TensorInfos, Sized, PrintPreamble, PrintFields, FitsField, Reports, Alignment,
         IsPowerOfTwo, At, AllTextBytes, AllTextEntries;
    assert At(d, 0, PrintPreamble(version, tensors, |fields|) + (PrintFields(fields) + rest)) by { AtStart(d); }
    FactsPrinted(d, version, fields, tensors, rest);
    AlignmentIsReported(ScanEntries(d, Advance(START, 24), EMPTY_HEADER, |fields|).value.value, fields);
    UnevenIsNoPower(Alignment(fields));
  }

  lemma AtStart(d: Bytes)
    ensures At(d, 0, d)
  {
  }

  lemma {:induction false} AlignmentIsReported(h: Header, fields: seq<Field>)
    requires Reports(h, fields)
    ensures h.alignment == Alignment(fields)
  {
  }

  lemma {:induction false} UnevenIsNoPower(n: nat)
    ensures (forall k: nat :: n != Pow2(k)) ==> !IsPowerOfTwo(n)
  {
    if IsPowerOfTwo(n) {
      var k := PowersOfTwo(n);
    }
  }

  // The table behind a printed header.
  lemma {:induction false} HeaderPrinted(d: Bytes, version: nat, fields: seq<Field>, tensors: seq<Spec>)
    requires Printable(version, fields, tensors)
    requires At(d, 0, PrintHeader(version, fields, tensors, Alignment(fields)))
    ensures Preamble(d, START) == Ok(Read((|tensors|, |fields|), Advance(START, 24)))
    ensures var r := ScanEntries(d, Advance(START, 24), EMPTY_HEADER, |fields|);
            r.Ok? && Reports(r.value.value, fields)
            && (var infos := TensorInfos(d, r.value.next, |tensors|);
                infos.Ok? && infos.value.value == Laid(tensors, 0, Alignment(fields))
                && infos.value.next.consumed == |PrintHeader(version, fields, tensors, Alignment(fields))|)
  {
    var alignment := Alignment(fields);
    hide FitsField, FitsTensor, ScanEntry, Applied, TensorInfo, PrintTensor, PrintField, Rounded, At, Preamble, Reports,
         Alignment, IsPowerOfTwo;
    var ts := PrintTensors(tensors, 0, alignment);
    FactsPrinted(d, version, fields, |tensors|, ts);
    var t := ScanEntries(d, Advance(START, 24), EMPTY_HEADER, |fields|).value.next;
    TensorsPrinted(d, t, tensors, 0, alignment);
  }

  lemma {:induction false} FileLayout(version: nat, fields: seq<Field>, tensors: seq<Spec>, alignment: nat)
    requires alignment > 0
    ensures var d, n := File(version, fields, tensors, alignment), |PrintHeader(version, fields, tensors, alignment)|;
            At(d, 0, PrintHeader(version, fields, tensors, alignment))
            && |d| == Rounded(n, alignment) + DataSize(tensors, alignment)
  {
    var header := PrintHeader(version, fields, tensors, alignment);
    assert File(version, fields, tensors, alignment)[..|header|] == header;
  }

  /**
   Round trip: whatever fields of any types and whatever tensors are printed within
   the limits, in either version and with any alignment, the scan accepts them. It
   reports the facts of the fields, gives every class and layer bucket the sizes of
   the tensors named for it, rounded up to the alignment, and notes the vocabulary
   and whether there is an output table.
   */
  lemma {:induction false} RoundTrip(version: nat, fields: seq<Field>, tensors: seq<Spec>, k: Bucket)
    requires Printable(version, fields, tensors)
    ensures var r := ScanModel(File(version, fields, tensors, Alignment(fields)));
            r.Ok? && Reports(r.value.header, fields) && r.value.tensors.Some?
            && (var sizes := r.value.tensors.value;
                Get(sizes, k) == RoundedIn(tensors, Alignment(fields), k)
                && sizes.vocab == Words(tensors) && (sizes.hasOutputWeight <==> HoldsOutput(tensors)))
  {
    hide *;
    PrintableParts(version, fields, tensors);
    var alignment := Alignment(fields);
    var d := File(version, fields, tensors, alignment);
    FileLayout(version, fields, tensors, alignment);
    HeaderPrinted(d, version, fields, tensors);
    var entries := ScanEntries(d, Advance(START, 24), EMPTY_HEADER, |fields|).value;
    ReportedAlignment(entries.value, fields);
    SizedPrinted(|PrintHeader(version, fields, tensors, alignment)|, tensors, alignment, |d|, k);
    ScanParts(d, |tensors|, |fields|, Advance(START, 24), entries.value, entries.next);
  }

  lemma {:induction false} ReportedAlignment(h: Header, fields: seq<Field>)
    requires Reports(h, fields)
    ensures h.alignment == Alignment(fields)
  {
  }

  lemma {:induction false} PrintableParts(version: nat, fields: seq<Field>, tensors: seq<Spec>)
    requires Printable(version, fields, tensors)
    ensures FitsTensors(tensors) && |tensors| <= MAX_TENSORS && Alignment(fields) > 0
    ensures IsPowerOfTwo(Alignment(fields)) && |File(version, fields, tensors, Alignment(fields))| <= U64_MAX
  {
  }

  lemma RoundedIsNext(n: nat, alignment: nat)
    requires alignment > 0
    ensures CeilDiv(n, alignment) * alignment == Rounded(n, alignment)
  {
    var m := Rounded(n, alignment);
    var q := n / alignment;
    assert n == q * alignment + n % alignment;
    if n % alignment != 0 {
      assert m == q * alignment + alignment;
      MultipleDivides(q + 1, alignment);
      assert (q + 1) * alignment == q * alignment + alignment;
    }
    NextMultiple(n, alignment, m);
  }

  lemma MultipleDivides(q: nat, alignment: nat)
    requires alignment > 0
    ensures (q * alignment) % alignment == 0
  {
    DivisionIs(q * alignment, alignment, q);
  }

  lemma {:induction false} SizedPrinted(consumed: nat, tensors: seq<Spec>, alignment: nat, fileLen: nat, k: Bucket)
    requires alignment > 0 && FitsTensors(tensors)
    requires fileLen == Rounded(consumed, alignment) + DataSize(tensors, alignment) <= U64_MAX
    ensures var r := Sized(consumed, Laid(tensors, 0, alignment), alignment, fileLen);
            r.Ok? && r.value.Some? && Get(r.value.value, k) == RoundedIn(tensors, alignment, k)
            && r.value.value.vocab == Words(tensors) && (r.value.value.hasOutputWeight <==> HoldsOutput(tensors))
  {
    hide Classify, Laid, FitsTensors, DataSize, RoundedIn, Get, SizeTable, Noted, Unsized, Entries, Words, HoldsOutput,
         Rounded, CeilDiv;
    RoundedIsNext(consumed, alignment);
    NotesAreKept(tensors, alignment);
    LaidSizes(tensors, alignment, Noted(NOTHING, Laid(tensors, 0, alignment)), k);
  }

  lemma {:induction false} ScanParts(d: Bytes, tensors: nat, keys: nat, s: State, h: Header, t: State)
    requires |d| <= U64_MAX && tensors <= MAX_TENSORS && h.alignment > 0 && IsPowerOfTwo(h.alignment)
    requires Preamble(d, START) == Ok(Read((tensors, keys), s))
    requires ScanEntries(d, s, EMPTY_HEADER, keys) == Ok(Read(h, t))
    requires TensorInfos(d, t, tensors).Ok?
    ensures var infos := TensorInfos(d, t, tensors).value;
            var sizes := Sized(infos.next.consumed, infos.value, h.alignment, |d|);
            ScanModel(d) == match sizes { case Err(e) => Err(e) case Ok(x) => Ok(Facts(h, x)) }
  {
    hide Preamble, ScanEntries, TensorInfos, Sized, IsPowerOfTwo;
  }

  // ------------------------------------------------------- refused tensors

  /** A tensor name over 256 bytes is refused. */
  lemma {:induction false} LongNameIsRefused(d: Bytes, s: State, length: nat)
    requires 256 < length < 0x1_0000_0000_0000_0000 && Room(s, 8) && At(d, s.pos, ToLe(length, 8))
    ensures TensorInfo(d, s) == Err(NameTooLong)
  {
    assert ToLe(length, 8) == ToLe(length, 8) + [];
    UInt8Then(d, s, length, []);
    hide UInt, ToLe, At;
  }

  /** A tensor of more than four dimensions is refused. */
  lemma {:induction false} ManyDimensionsAreRefused(d: Bytes, s: State, name: string, dims: nat)
    requires Narrow(name) && |name| <= 256 && 4 < dims < 0x1_0000_0000
    requires Room(s, 12 + |name|) && At(d, s.pos, PrintText(name) + ToLe(dims, 4))
    ensures TensorInfo(d, s) == Err(TensorDims)
  {
    hide At, PrintText, TensorName, ToLe, UInt;
    AtBoth(d, s.pos, PrintText(name), ToLe(dims, 4));
    NamePrinted(d, s, name);
    assert ToLe(dims, 4) == ToLe(dims, 4) + [];
    UInt4Then(d, Advance(s, 8 + |name|), dims, []);
  }
}
