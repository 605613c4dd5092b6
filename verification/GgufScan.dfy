/** The header scan that sizes a model: metadata facts, then the tensor table. */
module GgufScan {
  import opened Outcomes
  import opened LittleEndian
  import opened GgufReader
  import T = Strings
  import opened TensorSizes
  import opened TensorTable

  const MAX_KEYS: nat := 4096
  const MAX_TENSORS: nat := 0x10_0000
  const MAX_TENSOR_NAME_BYTES: nat := 256
  const MAX_TENSOR_DIMS: nat := 4
  const DEFAULT_ALIGNMENT: nat := 32

  const FACT_SUFFIXES: seq<string> :=
    ["block_count", "nextn_predict_layers", "context_length", "embedding_length", "vocab_size",
     "feed_forward_length", "expert_feed_forward_length", "expert_shared_feed_forward_length",
     "expert_used_count", "attention.head_count", "attention.head_count_kv", "attention.key_length",
     "attention.value_length", "attention.sliding_window", "attention.kv_lora_rank",
     "attention.recurrent_layers", "full_attention_interval", "ssm.conv_kernel", "ssm.inner_size",
     "ssm.state_size", "ssm.group_count", "attention.indexer.key_length", "hyper_connection.count",
     "ple.layers", "ple.conv_kernel", "ple.ngram_size"]

  const RECURRENT_KEYS: seq<string> :=
    ["ssm.", "wkv.", "shortconv.", "time_mix_extra_dim", "time_decay_extra_dim"]

  // --------------------------------------------------------------- metadata

  datatype Header = Header(
    architecture: Option<string>,
    alignment: nat,
    splitCount: Option<nat>,
    values: map<string, RawValue>,
    recurrent: set<string>
  )

  const EMPTY_HEADER: Header := Header(None, DEFAULT_ALIGNMENT, None, map[], {})

  const ARCHITECTURE: string := "general.architecture"
  const ALIGNMENT: string := "general.alignment"
  const SPLIT_COUNT: string := "split.count"

  // The architecture prefix of a key, and what follows it.
  function Parts(key: string): (string, string) {
    match T.SplitOnce(key, ".")
    case None => (key, "")
    case Some(parts) => parts
  }

  function NoteRecurrent(h: Header, key: string): Header {
    var (prefix, rest) := Parts(key);
    if StartsWithAny(rest, RECURRENT_KEYS) then h.(recurrent := h.recurrent + {prefix}) else h
  }

  function EntryValue(d: Bytes, s: State, h: Header, key: string, kind: nat): Result<Read<Header>, Fault> {
    if key == ARCHITECTURE && kind == 8 then
      match Text(d, s)
      case Err(e) => Err(e)
      case Ok(Read(text, t)) => Ok(Read(h.(architecture := Some(text)), t))
    else if key == ALIGNMENT then
      match Integer(d, s, kind)
      case Err(e) => Err(e)
      case Ok(Read(n, t)) => Ok(Read(if n.Some? then h.(alignment := n.value) else h, t))
    else if key == SPLIT_COUNT then
      match Integer(d, s, kind)
      case Err(e) => Err(e)
      case Ok(Read(n, t)) => Ok(Read(h.(splitCount := n), t))
    else if Parts(key).1 in FACT_SUFFIXES then
      match Raw(d, s, kind)
      case Err(e) => Err(e)
      case Ok(Read(v, t)) => Ok(Read(NoteValue(NoteRecurrent(h, key), key, v), t))
    else
      match SkipValue(d, s, kind)
      case Err(e) => Err(e)
      case Ok(t) => Ok(Read(NoteRecurrent(h, key), t))
  }

  function NoteValue(h: Header, key: string, v: Option<RawValue>): Header {
    if v.Some? then h.(values := h.values[key := v.value]) else h
  }

  function ScanEntry(d: Bytes, s: State, h: Header): Result<Read<Header>, Fault> {
    match Text(d, s)
    case Err(e) => Err(e)
    case Ok(Read(key, t)) =>
      match UInt(d, t, 4)
      case Err(e) => Err(e)
      case Ok(Read(kind, u)) => EntryValue(d, u, h, key, kind)
  }

  function ScanEntries(d: Bytes, s: State, h: Header, count: nat): Result<Read<Header>, Fault>
    decreases count
  {
    if count == 0 then Ok(Read(h, s))
    else match ScanEntry(d, s, h)
      case Err(e) => Err(e)
      case Ok(Read(next, t)) => ScanEntries(d, t, next, count - 1)
  }

  // How the scan reads the value behind a key.
  function HowToRead(key: string, kind: nat): Reading {
    if key == ARCHITECTURE && kind == 8 then AsText
    else if key == ALIGNMENT || key == SPLIT_COUNT then AsInteger
    else if Parts(key).1 in FACT_SUFFIXES then AsRaw
    else SkipIt
  }

  lemma ValueIsRead(d: Bytes, s: State, h: Header, key: string, kind: nat)
    requires EntryValue(d, s, h, key, kind).Ok?
    ensures After(d, s, kind, HowToRead(key, kind)) == Ok(EntryValue(d, s, h, key, kind).value.next)
  {
    hide Text, Integer, Raw, SkipValue, Parts, NoteRecurrent, NoteValue;
  }

  lemma EntryIsVisited(d: Bytes, s: State, h: Header) returns (how: Reading, t: State, kind: nat)
    requires ScanEntry(d, s, h).Ok?
    ensures Text(d, s).Ok? && UInt(d, Text(d, s).value.next, 4) == Ok(Read(kind, t))
    ensures After(d, t, kind, how) == Ok(ScanEntry(d, s, h).value.next)
  {
    hide Text, UInt, EntryValue, HowToRead, After;
    var key := Text(d, s).value;
    t := UInt(d, key.next, 4).value.next;
    kind := UInt(d, key.next, 4).value.value;
    how := HowToRead(key.value, kind);
    ValueIsRead(d, t, h, key.value, kind);
  }

  lemma {:induction false} VisitedCons(d: Bytes, s: State, t: State, v: State, kind: nat, how: Reading,
                                       rest: seq<Reading>)
    requires Text(d, s).Ok? && UInt(d, Text(d, s).value.next, 4) == Ok(Read(kind, t))
    requires After(d, t, kind, how) == Ok(v) && Visited(d, v, rest).Ok?
    ensures Visited(d, s, [how] + rest).Ok?
    ensures Visited(d, s, [how] + rest).value.next == Visited(d, v, rest).value.next
  {
    hide Text, UInt, After;
    assert ([how] + rest)[1..] == rest && ([how] + rest)[0] == how;
  }

  /** The model scan visits its entries: it is one of the scans that agree. */
  lemma {:induction false} ScanVisits(d: Bytes, s: State, h: Header, count: nat) returns (hows: seq<Reading>)
    requires ScanEntries(d, s, h, count).Ok?
    ensures |hows| == count && Visited(d, s, hows).Ok?
    ensures Visited(d, s, hows).value.next == ScanEntries(d, s, h, count).value.next
    decreases count
  {
    hide *;
    ScanStep(d, s, h, count);
    if count == 0 {
      hows := [];
    } else {
      var head := ScanEntry(d, s, h).value;
      var how, t, kind := EntryIsVisited(d, s, h);
      var rest := ScanVisits(d, head.next, head.value, count - 1);
      hows := [how] + rest;
      VisitedCons(d, s, t, head.next, kind, how, rest);
    }
  }

  lemma ScanStep(d: Bytes, s: State, h: Header, count: nat)
    requires ScanEntries(d, s, h, count).Ok?
    ensures count == 0 ==> ScanEntries(d, s, h, 0) == Ok(Read(h, s)) && Visited(d, s, []) == Ok(Read([], s))
    ensures count > 0 ==>
              ScanEntry(d, s, h).Ok?
              && var head := ScanEntry(d, s, h).value;
                 ScanEntries(d, s, h, count) == ScanEntries(d, head.next, head.value, count - 1)
  {
    hide ScanEntry;
  }

  /** Any other scan of the same entries sees the keys the model scan sees and stops where it stops. */
  lemma {:induction false} ModelScanAgrees(d: Bytes, s: State, h: Header, count: nat, t: State, others: seq<Reading>)
    returns (hows: seq<Reading>)
    requires InStep(s) && InStep(t) && s.pos == t.pos && |others| == count
    requires ScanEntries(d, s, h, count).Ok? && Visited(d, t, others).Ok?
    ensures |hows| == count && Visited(d, s, hows).Ok?
    ensures Visited(d, s, hows).value.next == ScanEntries(d, s, h, count).value.next
    ensures Visited(d, t, others).value.value == Visited(d, s, hows).value.value
    ensures Visited(d, t, others).value.next.pos == ScanEntries(d, s, h, count).value.next.pos
  {
    hide *;
    hows := ScanVisits(d, s, h, count);
    ScansAgree(d, s, t, hows, others);
  }

  // ----------------------------------------------------------- tensor table

  datatype Tensor = Tensor(name: string, shape: seq<nat>, offset: U64)

  function TensorName(d: Bytes, s: State): Result<Read<string>, Fault> {
    match UInt(d, s, 8)
    case Err(e) => Err(e)
    case Ok(Read(length, t)) =>
      if length > MAX_TENSOR_NAME_BYTES then Err(NameTooLong)
      else match Take(d, t, length)
        case Err(e) => Err(e)
        case Ok(Read(b, u)) => Ok(Read(Chars(b), u))
  }

  function Dims(d: Bytes, s: State, count: nat): Result<Read<seq<nat>>, Fault>
    decreases count
  {
    if count == 0 then Ok(Read([], s))
    else match UInt(d, s, 8)
      case Err(e) => Err(e)
      case Ok(Read(n, t)) => Before(n, Dims(d, t, count - 1))
  }

  function Shape(d: Bytes, s: State): Result<Read<seq<nat>>, Fault> {
    match UInt(d, s, 4)
    case Err(e) => Err(e)
    case Ok(Read(dims, t)) => if dims > MAX_TENSOR_DIMS then Err(TensorDims) else Dims(d, t, dims)
  }

  function Offset(d: Bytes, s: State): Result<Read<U64>, Fault> {
    match UInt(d, s, 4)
    case Err(e) => Err(e)
    case Ok(Read(kind, t)) =>
      match UInt(d, t, 8)
      case Err(e) => Err(e)
      case Ok(Read(n, u)) => Ok(Read(Cap(n), u))
  }

  function TensorInfo(d: Bytes, s: State): Result<Read<Tensor>, Fault> {
    match TensorName(d, s)
    case Err(e) => Err(e)
    case Ok(Read(name, t)) =>
      match Shape(d, t)
      case Err(e) => Err(e)
      case Ok(Read(shape, u)) =>
        match Offset(d, u)
        case Err(e) => Err(e)
        case Ok(Read(offset, v)) => Ok(Read(Tensor(name, shape, offset), v))
  }

  function TensorInfos(d: Bytes, s: State, count: nat): Result<Read<seq<Tensor>>, Fault>
    decreases count
  {
    if count == 0 then Ok(Read([], s))
    else match TensorInfo(d, s)
      case Err(e) => Err(e)
      case Ok(Read(head, t)) => Before(head, TensorInfos(d, t, count - 1))
  }

  /** What a tensor's name and shape say besides its size. */
  function Note(t: TensorBytes, x: Tensor): TensorBytes {
    var u := if x.name == "output.weight" then t.(hasOutputWeight := true) else t;
    if x.name in ["token_embd.weight", "output.weight"] && |x.shape| >= 2 && u.vocab.None?
    then u.(vocab := Some(x.shape[1]))
    else u
  }

  function Noted(t: TensorBytes, tensors: seq<Tensor>): TensorBytes
    decreases |tensors|
  {
    if tensors == [] then t else Noted(Note(t, tensors[0]), tensors[1..])
  }

  function Entries(tensors: seq<Tensor>): (r: seq<TensorTable.Entry>)
    ensures |r| == |tensors|
    ensures forall i :: 0 <= i < |r| ==> r[i] == EntryOf(tensors[i].name, tensors[i].offset)
  {
    if tensors == [] then [] else [EntryOf(tensors[0].name, tensors[0].offset)] + Entries(tensors[1..])
  }

  function CeilDiv(n: nat, d: nat): nat
    requires d > 0
  {
    (n + d - 1) / d
  }

  /** Sizes the table once all of it has been read. */
  function Sized(consumed: nat, tensors: seq<Tensor>, alignment: nat, fileLen: U64): Result<Option<TensorBytes>, Fault>
    requires alignment > 0
  {
    var dataStart := CeilDiv(consumed, alignment) * alignment;
    if dataStart > U64_MAX then Err(DataOffset)
    else if dataStart > fileLen then Ok(None)
    else Ok(SizeTable(Entries(tensors), fileLen - dataStart, Noted(NOTHING, tensors)))
  }

  lemma {:induction false} Multiples(p: nat, q: nat, a: nat)
    requires p < q
    ensures p * a + a <= q * a
    decreases q - p
  {
    if p + 1 < q {
      Multiples(p + 1, q, a);
    }
    assert (p + 1) * a == p * a + a;
  }

  lemma DivisionIs(x: nat, a: nat, q: nat)
    requires a > 0 && q * a <= x < q * a + a
    ensures x / a == q
  {
    var p := x / a;
    assert p * a <= x < p * a + a;
    if p < q {
      Multiples(p, q, a);
    } else if q < p {
      Multiples(q, p, a);
    }
  }

  /** The data starts at the only multiple of the alignment within one step of the header's end. */
  lemma NextMultiple(n: nat, a: nat, m: nat)
    requires a > 0 && m % a == 0 && n <= m < n + a
    ensures CeilDiv(n, a) * a == m
  {
    DivisionIs(n + a - 1, a, m / a);
  }

  /**
   The three outcomes of sizing, told by where the data starts: past 64 bits, past the
   end of the file, or inside it. There, sizes exist exactly for distinct offsets in range.
   */
  lemma SizedByStart(consumed: nat, tensors: seq<Tensor>, alignment: nat, fileLen: U64, start: nat)
    requires alignment > 0 && start % alignment == 0 && consumed <= start < consumed + alignment
    ensures var r := Sized(consumed, tensors, alignment, fileLen);
            if start > 0xFFFF_FFFF_FFFF_FFFF then r == Err(DataOffset)
            else if start > fileLen then r == Ok(None)
            else
              r.Ok?
              && (r.value.Some? <==>
                  (forall i :: 0 <= i < |tensors| ==> start + tensors[i].offset < fileLen)
                  && forall i, j :: 0 <= i < j < |tensors| ==> tensors[i].offset != tensors[j].offset)
  {
    NextMultiple(consumed, alignment, start);
    SizedFrom(consumed, tensors, alignment, fileLen, start);
    hide CeilDiv, Sized, SizeTable, Noted, Placed, Entries;
    if start <= fileLen {
      SizedExactlyWhenPlaced(Entries(tensors), fileLen - start, Noted(NOTHING, tensors));
      EntriesPlaced(tensors, start, fileLen);
    }
  }

  lemma {:induction false} SizedFrom(consumed: nat, tensors: seq<Tensor>, alignment: nat, fileLen: U64, start: nat)
    requires alignment > 0 && CeilDiv(consumed, alignment) * alignment == start
    ensures Sized(consumed, tensors, alignment, fileLen)
         == if start > 0xFFFF_FFFF_FFFF_FFFF then Err(DataOffset)
            else if start > fileLen then Ok(None)
            else Ok(SizeTable(Entries(tensors), fileLen - start, Noted(NOTHING, tensors)))
  {
    hide CeilDiv, SizeTable, Noted, Entries;
  }

  lemma {:induction false} EntriesPlaced(tensors: seq<Tensor>, start: nat, fileLen: U64)
    requires start <= fileLen
    ensures Placed(Entries(tensors), fileLen - start) <==>
            (forall i :: 0 <= i < |tensors| ==> start + tensors[i].offset < fileLen)
            && forall i, j :: 0 <= i < j < |tensors| ==> tensors[i].offset != tensors[j].offset
  {
    var es := Entries(tensors);
    hide EntryOf, Entries;
    assert forall i :: 0 <= i < |tensors| ==> es[i].offset == tensors[i].offset by {
      OffsetsAre(tensors);
    }
    assert |es| == |tensors|;
  }

  lemma {:induction false} OffsetsAre(tensors: seq<Tensor>)
    ensures forall i :: 0 <= i < |tensors| ==> Entries(tensors)[i].offset == tensors[i].offset
  {
  }

  /** The vocabulary size: the second dimension of the first embedding or output table with two. */
  function Vocabulary(tensors: seq<Tensor>): Option<nat> {
    if tensors == [] then None
    else if (tensors[0].name == "token_embd.weight" || tensors[0].name == "output.weight") && |tensors[0].shape| > 1
    then Some(tensors[0].shape[1])
    else Vocabulary(tensors[1..])
  }

  lemma NoteVocabulary(t: TensorBytes, x: Tensor)
    ensures Note(t, x).vocab == if t.vocab.Some? then t.vocab else Vocabulary([x])
  {
    assert [x][1..] == [] && Vocabulary([]) == None;
  }

  lemma {:induction false} VocabularyCons(x: Tensor, rest: seq<Tensor>)
    ensures Vocabulary([x] + rest) == if Vocabulary([x]).Some? then Vocabulary([x]) else Vocabulary(rest)
  {
    assert [x][1..] == [] && ([x] + rest)[1..] == rest && Vocabulary([]) == None;
  }

  lemma {:induction false} NotedVocabulary(t: TensorBytes, tensors: seq<Tensor>)
    ensures Noted(t, tensors).vocab == if t.vocab.Some? then t.vocab else Vocabulary(tensors)
    decreases |tensors|
  {
    hide Note, Vocabulary;
    if tensors == [] {
      EmptyVocabulary();
    } else {
      NoteVocabulary(t, tensors[0]);
      NotedVocabulary(Note(t, tensors[0]), tensors[1..]);
      VocabularyCons(tensors[0], tensors[1..]);
      assert [tensors[0]] + tensors[1..] == tensors;
    }
  }

  lemma EmptyVocabulary()
    ensures Vocabulary([]) == None
  {
  }

  lemma {:induction false} NotedIsUnsized(t: TensorBytes, tensors: seq<Tensor>)
    requires Unsized(t)
    ensures Unsized(Noted(t, tensors))
    decreases |tensors|
  {
    if tensors != [] {
      NotedIsUnsized(Note(t, tensors[0]), tensors[1..]);
    }
  }

  lemma NothingIsUnsized()
    ensures Unsized(NOTHING)
  {
  }

  /**
   Whatever the file, when sizes are reported every tensor starts inside the data
   section behind the header, and the sizes fill it from the first tensor on.
   */
  lemma {:induction false} ReportedSizesTile(consumed: nat, tensors: seq<Tensor>, alignment: nat,
                                             fileLen: U64, first: U64)
    requires alignment > 0 && tensors != [] && IsFirst(Entries(tensors), first)
    requires var r := Sized(consumed, tensors, alignment, fileLen); r.Ok? && r.value.Some?
    ensures var r := Sized(consumed, tensors, alignment, fileLen).value.value;
            var dataStart := CeilDiv(consumed, alignment) * alignment;
            Total(r) == Sum(r) == fileLen - dataStart - first && r.perLayerTokenEmbd <= r.input
            && forall i :: 0 <= i < |tensors| ==> dataStart + tensors[i].offset < fileLen
  {
    hide Classify, Note, CeilDiv, Unsized, Sum, Total;
    NothingIsUnsized();
    NotedIsUnsized(NOTHING, tensors);
    var es := Entries(tensors);
    var dataLen := fileLen - CeilDiv(consumed, alignment) * alignment;
    forall i | 0 <= i < |es|
      ensures Flagged(es[i])
    {
      EntriesAreFlagged(tensors[i].name, tensors[i].offset);
    }
    SizesTileTheData(es, dataLen, Noted(NOTHING, tensors), first);
    SizedExactlyWhenPlaced(es, dataLen, Noted(NOTHING, tensors));
    assert forall i :: 0 <= i < |tensors| ==> es[i].offset == tensors[i].offset;
  }

  // ------------------------------------------------------ order of the table

  predicate NamesOutput(tensors: seq<Tensor>) {
    exists i :: 0 <= i < |tensors| && tensors[i].name == "output.weight"
  }

  lemma NoteCounts(t: TensorBytes, x: Tensor)
    ensures Counts(Note(t, x))
         == Counts(t).(hasOutputWeight := t.hasOutputWeight || x.name == "output.weight")
  {
  }

  // Besides the vocabulary, only whether an output tensor exists is noted.
  lemma {:induction false} NotedCounts(t: TensorBytes, tensors: seq<Tensor>)
    ensures Counts(Noted(t, tensors))
         == Counts(t).(hasOutputWeight := t.hasOutputWeight || NamesOutput(tensors))
    decreases |tensors|
  {
    hide Note;
    if tensors != [] {
      var rest := tensors[1..];
      NoteCounts(t, tensors[0]);
      NotedCounts(Note(t, tensors[0]), rest);
      assert forall i :: 0 <= i < |rest| ==> rest[i] == tensors[i + 1];
      assert forall i :: 0 < i < |tensors| ==> tensors[i] == rest[i - 1];
    }
  }

  lemma {:induction false} EntriesConcat(a: seq<Tensor>, b: seq<Tensor>)
    ensures Entries(a + b) == Entries(a) + Entries(b)
  {
    if a == [] {
      assert a + b == b;
    } else {
      assert (a + b)[1..] == a[1..] + b;
      EntriesConcat(a[1..], b);
    }
  }

  lemma {:induction false} EntriesOne(a: seq<Tensor>)
    requires a != []
    ensures multiset(Entries(a)) == multiset(Entries(a[1..])) + multiset{EntryOf(a[0].name, a[0].offset)}
  {
    hide EntryOf;
  }

  lemma {:induction false} EntriesPermute(a: seq<Tensor>, b: seq<Tensor>)
    requires multiset(a) == multiset(b)
    ensures multiset(Entries(a)) == multiset(Entries(b))
    decreases |a|
  {
    if a == [] {
      assert |multiset(b)| == 0;
    } else {
      assert a == [a[0]] + a[1..] && a[0] in multiset(b);
      var k :| 0 <= k < |b| && b[k] == a[0];
      EntriesOne(a);
      hide EntryOf, Entries;
      TensorSizes.RemoveOne(a, b, k);
      EntriesPermute(a[1..], b[..k] + b[k + 1..]);
      EntriesWithout(b, k);
    }
  }

  lemma {:induction false} EntriesWithout(b: seq<Tensor>, k: nat)
    requires k < |b|
    ensures multiset(Entries(b))
         == multiset(Entries(b[..k] + b[k + 1..])) + multiset{EntryOf(b[k].name, b[k].offset)}
  {
    hide EntryOf;
    assert b == b[..k] + ([b[k]] + b[k + 1..]);
    EntriesConcat(b[..k], [b[k]] + b[k + 1..]);
    EntriesConcat(b[..k], b[k + 1..]);
    assert ([b[k]] + b[k + 1..])[1..] == b[k + 1..];
  }

  lemma {:induction false} OutputPermutes(a: seq<Tensor>, b: seq<Tensor>)
    requires multiset(a) == multiset(b)
    ensures NamesOutput(a) <==> NamesOutput(b)
  {
    if i :| 0 <= i < |a| && a[i].name == "output.weight" {
      assert a[i] in multiset(b);
    }
    if i :| 0 <= i < |b| && b[i].name == "output.weight" {
      assert b[i] in multiset(a);
    }
  }

  // A reported size without its vocabulary.
  function SizedCounts(r: Result<Option<TensorBytes>, Fault>): Result<Option<TensorBytes>, Fault> {
    match r { case Err(e) => Err(e) case Ok(sizes) => Ok(CountsOf(sizes)) }
  }

  /** Permuting the tensors of a file changes no reported count. */
  lemma {:induction false} ScanOrderIsIrrelevant(consumed: nat, a: seq<Tensor>, b: seq<Tensor>,
                                                 alignment: nat, fileLen: U64)
    requires alignment > 0 && multiset(a) == multiset(b)
    ensures SizedCounts(Sized(consumed, a, alignment, fileLen)) == SizedCounts(Sized(consumed, b, alignment, fileLen))
  {
    hide CeilDiv, NamesOutput, Entries, Noted, Sort;
    var dataStart := CeilDiv(consumed, alignment) * alignment;
    if dataStart <= U64_MAX && dataStart <= fileLen {
      EntriesPermute(a, b);
      OutputPermutes(a, b);
      NotedCounts(NOTHING, a);
      NotedCounts(NOTHING, b);
      SizingIgnoresVocab(Sort(Entries(a)), fileLen - dataStart, Noted(NOTHING, a));
      SizingIgnoresVocab(Sort(Entries(b)), fileLen - dataStart, Noted(NOTHING, b));
      TableOrderIsIrrelevant(Entries(a), Entries(b), fileLen - dataStart, Counts(Noted(NOTHING, a)));
    }
  }

  // ------------------------------------------------------------- whole scan

  datatype Facts = Facts(header: Header, tensors: Option<TensorBytes>)

  predicate IsPowerOfTwo(n: nat) {
    n > 0 && (n == 1 || (n % 2 == 0 && IsPowerOfTwo(n / 2)))
  }

  function Pow2(k: nat): nat {
    if k == 0 then 1 else 2 * Pow2(k - 1)
  }

  /** The alignments taken are the powers of two. */
  lemma {:induction false} PowersOfTwo(n: nat) returns (k: nat)
    requires IsPowerOfTwo(n)
    ensures n == Pow2(k)
  {
    if n == 1 {
      k := 0;
    } else {
      k := PowersOfTwo(n / 2);
      k := k + 1;
    }
  }

  lemma {:induction false} PowerIsTaken(k: nat)
    ensures IsPowerOfTwo(Pow2(k))
  {
    if k > 0 {
      PowerIsTaken(k - 1);
      assert Pow2(k) / 2 == Pow2(k - 1);
    }
  }

  const MAGIC: Bytes := [71, 71, 85, 70]

  /** The fixed start of a file: how many tensors and keys follow. */
  function Preamble(d: Bytes, s: State): Result<Read<(nat, nat)>, Fault> {
    match Take(d, s, 4)
    case Err(e) => Err(e)
    case Ok(Read(magic, t)) =>
      if magic != MAGIC then Err(NotGguf)
      else match UInt(d, t, 4)
        case Err(e) => Err(e)
        case Ok(Read(version, u)) =>
          if !(2 <= version <= 3) then Err(BadVersion)
          else match UInt(d, u, 8)
            case Err(e) => Err(e)
            case Ok(Read(tensors, v)) =>
              match UInt(d, v, 8)
              case Err(e) => Err(e)
              case Ok(Read(keys, w)) => if keys > MAX_KEYS then Err(KeyCount) else Ok(Read((tensors, keys), w))
  }

  const START: State := State(0, 0, 0, 0)

  function ScanModel(d: Bytes): Result<Facts, Fault>
    requires |d| <= U64_MAX
  {
    match Preamble(d, START)
    case Err(e) => Err(e)
    case Ok(Read((tensors, keys), s)) =>
      if tensors > MAX_TENSORS then Err(TensorCount)
      else match ScanEntries(d, s, EMPTY_HEADER, keys)
        case Err(e) => Err(e)
        case Ok(Read(h, t)) =>
          if !IsPowerOfTwo(h.alignment) then Err(BadAlignment)
          else match TensorInfos(d, t, tensors)
            case Err(e) => Err(e)
            case Ok(Read(infos, u)) =>
              match Sized(u.consumed, infos, h.alignment, |d|)
              case Err(e) => Err(e)
              case Ok(sizes) => Ok(Facts(h, sizes))
  }
}
