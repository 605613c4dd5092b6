/** The header scan as the source runs it: one pass over a reader, then the sizing loop. */
module GgufModel {
  import opened Outcomes
  import opened GgufStream
  import G = GgufReader
  import opened GgufScan
  import opened TensorSizes
  import opened TensorTable

  method ReadPreamble(reader: Reader) returns (r: Result<(nat, nat), G.Fault>)
    modifies reader
    ensures Reads(Preamble(reader.data, old(reader.State())), r, reader.State())
  {
    var magic := reader.Take(4);
    if magic.Err? { return Err(magic.error); }
    if magic.value != MAGIC { return Err(G.NotGguf); }
    var version := reader.UInt(4);
    if version.Err? { return Err(version.error); }
    if !(2 <= version.value <= 3) { return Err(G.BadVersion); }
    var tensors := reader.UInt(8);
    if tensors.Err? { return Err(tensors.error); }
    var keys := reader.UInt(8);
    if keys.Err? { return Err(keys.error); }
    if keys.value > MAX_KEYS { return Err(G.KeyCount); }
    r := Ok((tensors.value, keys.value));
  }

  method ReadEntryValue(reader: Reader, h: Header, key: string, kind: nat) returns (r: Result<Header, G.Fault>)
    modifies reader
    ensures Reads(EntryValue(reader.data, old(reader.State()), h, key, kind), r, reader.State())
  {
    if key == ARCHITECTURE && kind == 8 {
      var text := reader.Text();
      return if text.Err? then Err(text.error) else Ok(h.(architecture := Some(text.value)));
    }
    if key == ALIGNMENT {
      var n := reader.Integer(kind);
      if n.Err? { return Err(n.error); }
      return Ok(if n.value.Some? then h.(alignment := n.value.value) else h);
    }
    if key == SPLIT_COUNT {
      var n := reader.Integer(kind);
      return if n.Err? then Err(n.error) else Ok(h.(splitCount := n.value));
    }
    var next := NoteRecurrent(h, key);
    if Parts(key).1 in FACT_SUFFIXES {
      var v := reader.Raw(kind);
      return if v.Err? then Err(v.error) else Ok(NoteValue(next, key, v.value));
    }
    var skipped := reader.SkipValue(kind);
    return if skipped.Err? then Err(skipped.error) else Ok(next);
  }

  method ReadEntries(reader: Reader, keys: nat) returns (r: Result<Header, G.Fault>)
    modifies reader
    ensures Reads(ScanEntries(reader.data, old(reader.State()), EMPTY_HEADER, keys), r, reader.State())
  {
    var h := EMPTY_HEADER;
    for k := 0 to keys
      invariant ScanEntries(reader.data, old(reader.State()), EMPTY_HEADER, keys)
             == ScanEntries(reader.data, reader.State(), h, keys - k)
    {
      var key := reader.Text();
      if key.Err? { return Err(key.error); }
      var kind := reader.UInt(4);
      if kind.Err? { return Err(kind.error); }
      var next := ReadEntryValue(reader, h, key.value, kind.value);
      if next.Err? { return Err(next.error); }
      h := next.value;
    }
    r := Ok(h);
  }

  method ReadShape(reader: Reader) returns (r: Result<seq<nat>, G.Fault>)
    modifies reader
    ensures Reads(Shape(reader.data, old(reader.State())), r, reader.State())
  {
    var dims := reader.UInt(4);
    if dims.Err? { return Err(dims.error); }
    if dims.value > MAX_TENSOR_DIMS { return Err(G.TensorDims); }
    var shape: seq<nat> := [];
    ghost var spec := Dims(reader.data, reader.State(), dims.value);
    PrependNothing(spec);
    for k := 0 to dims.value
      invariant spec == Prepend(shape, Dims(reader.data, reader.State(), dims.value - k))
    {
      var dim := reader.UInt(8);
      if dim.Err? { return Err(dim.error); }
      PrependStep(shape, dim.value, Dims(reader.data, reader.State(), dims.value - k - 1));
      shape := shape + [dim.value];
    }
    assert shape + [] == shape;
    r := Ok(shape);
  }

  method ReadTensor(reader: Reader) returns (r: Result<Tensor, G.Fault>)
    modifies reader
    ensures Reads(TensorInfo(reader.data, old(reader.State())), r, reader.State())
  {
    var length := reader.UInt(8);
    if length.Err? { return Err(length.error); }
    if length.value > MAX_TENSOR_NAME_BYTES { return Err(G.NameTooLong); }
    var name := reader.Take(length.value);
    if name.Err? { return Err(name.error); }
    var shape := ReadShape(reader);
    if shape.Err? { return Err(shape.error); }
    var kind := reader.UInt(4);
    if kind.Err? { return Err(kind.error); }
    var offset := reader.UInt(8);
    if offset.Err? { return Err(offset.error); }
    r := Ok(Tensor(G.Chars(name.value), shape.value, Cap(offset.value)));
  }

  lemma {:induction false} EntriesSnoc(tensors: seq<Tensor>, t: Tensor)
    ensures Entries(tensors + [t]) == Entries(tensors) + [EntryOf(t.name, t.offset)]
  {
    var a, b := Entries(tensors + [t]), Entries(tensors) + [EntryOf(t.name, t.offset)];
    assert forall i :: 0 <= i < |a| ==> a[i] == b[i];
  }

  lemma {:induction false} NotedSnoc(s: TensorBytes, tensors: seq<Tensor>, t: Tensor)
    ensures Noted(s, tensors + [t]) == Note(Noted(s, tensors), t)
    decreases |tensors|
  {
    hide Note;
    if tensors == [] {
      assert tensors + [t] == [t] && [t][1..] == [];
    } else {
      assert (tensors + [t])[1..] == tensors[1..] + [t];
      NotedSnoc(Note(s, tensors[0]), tensors[1..], t);
    }
  }

  /** Walks the tensor table, noting each tensor as it is read. */
  method ReadTable(reader: Reader, count: nat)
    returns (r: Result<(seq<TensorTable.Entry>, TensorBytes), G.Fault>)
    modifies reader
    ensures match TensorInfos(reader.data, old(reader.State()), count)
            case Err(e) => r == Err(e)
            case Ok(x) => r == Ok((Entries(x.value), Noted(NOTHING, x.value))) && reader.State() == x.next
  {
    hide Note, TensorInfo, EntryOf, Classify;
    var entries: seq<TensorTable.Entry> := [];
    var summary := NOTHING;
    ghost var seen: seq<Tensor> := [];
    ghost var spec := TensorInfos(reader.data, reader.State(), count);
    PrependNothing(spec);
    for k := 0 to count
      invariant spec == Prepend(seen, TensorInfos(reader.data, reader.State(), count - k))
      invariant entries == Entries(seen) && summary == Noted(NOTHING, seen)
    {
      var t := ReadTensor(reader);
      if t.Err? { return Err(t.error); }
      PrependStep(seen, t.value, TensorInfos(reader.data, reader.State(), count - k - 1));
      EntriesSnoc(seen, t.value);
      NotedSnoc(NOTHING, seen, t.value);
      entries := entries + [EntryOf(t.value.name, t.value.offset)];
      summary := Note(summary, t.value);
      seen := seen + [t.value];
    }
    assert seen + [] == seen;
    r := Ok((entries, summary));
  }

  /** Sizes the tensors once the data section is known to exist. */
  method SizeAll(consumed: nat, entries: seq<TensorTable.Entry>, summary: TensorBytes, alignment: nat, fileLen: U64,
                 ghost infos: seq<Tensor>)
    returns (r: Result<Option<TensorBytes>, G.Fault>)
    requires alignment > 0 && entries == Entries(infos) && summary == Noted(NOTHING, infos)
    ensures r == Sized(consumed, infos, alignment, fileLen)
  {
    hide Noted, Entries, SizeFrom, Sort;
    var dataStart := CeilDiv(consumed, alignment) * alignment;
    if dataStart > U64_MAX { return Err(G.DataOffset); }
    if dataStart > fileLen { return Ok(None); }
    var sizes := SizeTensors(Sort(entries), fileLen - dataStart, summary);
    r := Ok(sizes);
  }

  /** The whole scan of a file. */
  method Scan(file: Bytes) returns (r: Result<Facts, G.Fault>)
    requires |file| <= U64_MAX
    ensures r == ScanModel(file)
  {
    hide Preamble, ScanEntries, TensorInfos, Sized, Entries, Noted;
    var reader := new Reader(file);
    var counts := ReadPreamble(reader);
    if counts.Err? { return Err(counts.error); }
    var (tensors, keys) := counts.value;
    if tensors > MAX_TENSORS { return Err(G.TensorCount); }
    var header := ReadEntries(reader, keys);
    if header.Err? { return Err(header.error); }
    var alignment := header.value.alignment;
    if !IsPowerOfTwo(alignment) { return Err(G.BadAlignment); }
    ghost var infos := TensorInfos(file, reader.State(), tensors);
    var table := ReadTable(reader, tensors);
    if table.Err? { return Err(table.error); }
    var (entries, summary) := table.value;
    var sizes := SizeAll(reader.consumed, entries, summary, alignment, |file|, infos.value.value);
    if sizes.Err? { return Err(sizes.error); }
    r := Ok(Facts(header.value, sizes.value));
  }
}
