/**
 The tensor table: every tensor's size is the gap to the next data offset, and
 the gaps tile the data section.
 */
module TensorTable {
  import opened Outcomes
  import opened TensorSizes
  import Sorting

  datatype Entry = Entry(offset: U64, cls: TensorClass, ple: bool)

  function EntryOf(name: string, offset: U64): Entry {
    Entry(offset, Classify(name), name == PLE_NAME)
  }

  // Only the per-layer embedding table is flagged, and it is an input tensor.
  predicate Flagged(e: Entry) { e.ple ==> e.cls.Input? }

  lemma EntriesAreFlagged(name: string, offset: U64)
    ensures Flagged(EntryOf(name, offset))
  {
    PleIsInput();
  }

  // ------------------------------------------------------------- sorting

  predicate ByOffset(a: Entry, b: Entry) { a.offset <= b.offset }

  /** A stable sort by offset. */
  function Sort(entries: seq<Entry>): seq<Entry> {
    Sorting.Sort(ByOffset, entries)
  }

  function Insert(e: Entry, sorted: seq<Entry>): seq<Entry> {
    Sorting.Insert(ByOffset, e, sorted)
  }

  predicate Sorted(s: seq<Entry>) {
    forall i, j :: 0 <= i < j < |s| ==> s[i].offset <= s[j].offset
  }

  predicate AtLeast(s: seq<Entry>, x: U64) {
    forall i :: 0 <= i < |s| ==> x <= s[i].offset
  }

  lemma SortKeeps(s: seq<Entry>)
    ensures Sorted(Sort(s)) && multiset(Sort(s)) == multiset(s) && |Sort(s)| == |s|
  {
    Sorting.SortKeeps(ByOffset, s);
    assert forall i, j :: 0 <= i < j < |Sort(s)| ==> ByOffset(Sort(s)[i], Sort(s)[j]);
  }

  predicate Increasing(s: seq<Entry>) {
    forall i, j :: 0 <= i < j < |s| ==> s[i].offset < s[j].offset
  }

  lemma TailsAgree(a: seq<Entry>, b: seq<Entry>)
    requires a != [] && b != [] && a[0] == b[0] && multiset(a) == multiset(b)
    ensures multiset(a[1..]) == multiset(b[1..])
  {
    assert a == [a[0]] + a[1..] && b == [b[0]] + b[1..];
    assert multiset(a[1..]) == multiset(a) - multiset{a[0]};
    assert multiset(b[1..]) == multiset(b) - multiset{b[0]};
  }

  lemma FirstIsLeast(a: seq<Entry>, b: seq<Entry>)
    requires Sorted(a) && Increasing(b) && a != [] && b != [] && multiset(a) == multiset(b)
    ensures a[0] == b[0]
  {
    assert a[0] in multiset(b) && b[0] in multiset(a);
    var i :| 0 <= i < |b| && b[i] == a[0];
    var j :| 0 <= j < |a| && a[j] == b[0];
  }

  /** A table with distinct offsets has one sorted order. */
  lemma {:induction false} SortedIsUnique(a: seq<Entry>, b: seq<Entry>)
    requires Sorted(a) && Increasing(b) && multiset(a) == multiset(b)
    ensures a == b
  {
    assert |a| == |multiset(a)| == |multiset(b)| == |b|;
    if a != [] {
      FirstIsLeast(a, b);
      TailsAgree(a, b);
      SortedIsUnique(a[1..], b[1..]);
      assert a == [a[0]] + a[1..] && b == [b[0]] + b[1..];
    }
  }

  // -------------------------------------------------------------- buckets

  datatype Bucket = InputBytes | PleBytes | TokenBytes | OutputBytes | LayerBytesOf(il: nat, part: LayerPart)

  function PartOf(l: LayerBytes, part: LayerPart): U64 {
    match part
    case Experts => l.experts
    case DenseFfn => l.denseFfn
    case OtherPart => l.other
  }

  function Get(t: TensorBytes, k: Bucket): U64 {
    match k
    case InputBytes => t.input
    case PleBytes => t.perLayerTokenEmbd
    case TokenBytes => t.tokenEmbd
    case OutputBytes => t.output
    case LayerBytesOf(il, part) => if il < |t.layers| then PartOf(t.layers[il], part) else 0
  }

  // ------------------------------------------------------- several shards

  function SumIn(shards: seq<TensorBytes>, k: Bucket): nat {
    if shards == [] then 0 else Get(shards[0], k) + SumIn(shards[1..], k)
  }

  function FirstVocabulary(shards: seq<TensorBytes>): Option<nat> {
    if shards == [] then None
    else if shards[0].vocab.Some? then shards[0].vocab
    else FirstVocabulary(shards[1..])
  }

  predicate SomeOutput(shards: seq<TensorBytes>) {
    exists i :: 0 <= i < |shards| && shards[i].hasOutputWeight
  }

  lemma AbsorbedIn(a: TensorBytes, b: TensorBytes, k: Bucket)
    ensures Get(Absorbed(a, b), k) == Cap(Get(a, k) + Get(b, k))
  {
    if k.LayerBytesOf? && k.il < |MergeLayers(a.layers, b.layers)| {
      MergeLayersAt(a.layers, b.layers, k.il);
    }
  }

  /**
   What a model in several shards reports: every bucket holds the sum of the shards'
   buckets, capped once; the vocabulary is the first one given; and there is an
   output table when some shard has one.
   */
  lemma {:induction false} ShardsAddUp(first: TensorBytes, rest: seq<TensorBytes>, k: Bucket)
    ensures var r, all := AbsorbAll(first, rest), [first] + rest;
            Get(r, k) == Cap(SumIn(all, k)) && r.vocab == FirstVocabulary(all)
            && (r.hasOutputWeight <==> SomeOutput(all))
    decreases |rest|
  {
    var all := [first] + rest;
    assert all[1..] == rest && all[0] == first;
    if rest != [] {
      var next := Absorbed(first, rest[0]);
      var fewer := [next] + rest[1..];
      ShardsAddUp(next, rest[1..], k);
      assert fewer[1..] == rest[1..] && fewer[0] == next;
      AbsorbedIn(first, rest[0], k);
      hide Get, MergeLayers, SomeOutput;
      OutputOfTwo(first, rest[0], rest[1..]);
      assert all == [first, rest[0]] + rest[1..];
    }
  }

  lemma OutputOfTwo(a: TensorBytes, b: TensorBytes, rest: seq<TensorBytes>)
    ensures SomeOutput([Absorbed(a, b)] + rest) <==> SomeOutput([a, b] + rest)
  {
    hide MergeLayers;
    var two, one := [a, b] + rest, [Absorbed(a, b)] + rest;
    if i :| 0 <= i < |two| && two[i].hasOutputWeight {
      assert one[if i < 2 then 0 else i - 1].hasOutputWeight;
    }
    if i :| 0 <= i < |one| && one[i].hasOutputWeight {
      assert two[if i > 0 then i + 1 else if a.hasOutputWeight then 0 else 1].hasOutputWeight;
    }
  }

  predicate In(e: Entry, k: Bucket) {
    match k
    case InputBytes => e.cls.Input?
    case PleBytes => e.ple
    case TokenBytes => e.cls.TokenEmbd?
    case OutputBytes => e.cls.Output?
    case LayerBytesOf(il, part) => e.cls == Layer(il, part)
  }

  function Padded(layers: seq<LayerBytes>, n: nat): (r: seq<LayerBytes>)
    ensures |r| == if |layers| < n then n else |layers|
    ensures forall i :: 0 <= i < |r| ==> r[i] == if i < |layers| then layers[i] else NO_LAYER
    decreases n - |layers|
  {
    if n <= |layers| then layers else Padded(layers + [NO_LAYER], n)
  }

  function AddPart(l: LayerBytes, part: LayerPart, bytes: U64): LayerBytes {
    match part
    case Experts => l.(experts := Plus(l.experts, bytes))
    case DenseFfn => l.(denseFfn := Plus(l.denseFfn, bytes))
    case OtherPart => l.(other := Plus(l.other, bytes))
  }

  /** Adds one tensor's bytes to its class. */
  function AddBytes(t: TensorBytes, e: Entry, bytes: U64): TensorBytes {
    var u := if e.ple then t.(perLayerTokenEmbd := Plus(t.perLayerTokenEmbd, bytes)) else t;
    match e.cls
    case Input => u.(input := Plus(u.input, bytes))
    case TokenEmbd => u.(tokenEmbd := Plus(u.tokenEmbd, bytes))
    case Output => u.(output := Plus(u.output, bytes))
    case Layer(il, part) =>
      var layers := Padded(u.layers, il + 1);
      u.(layers := layers[il := AddPart(layers[il], part, bytes)])
  }

  lemma AddBytesGet(t: TensorBytes, e: Entry, bytes: U64, k: Bucket)
    ensures Get(AddBytes(t, e, bytes), k) == if In(e, k) then Plus(Get(t, k), bytes) else Get(t, k)
  {
  }

  lemma {:induction false} LayersSumUpdate(layers: seq<LayerBytes>, il: nat, l: LayerBytes)
    requires il < |layers|
    ensures LayersSum(layers[il := l]) + layers[il].experts + layers[il].denseFfn + layers[il].other
         == LayersSum(layers) + l.experts + l.denseFfn + l.other
  {
    if il > 0 {
      LayersSumUpdate(layers[1..], il - 1, l);
      assert layers[il := l][1..] == layers[1..][il - 1 := l];
    } else {
      assert layers[il := l][1..] == layers[1..];
    }
  }

  lemma {:induction false} LayersSumSnoc(layers: seq<LayerBytes>)
    ensures LayersSum(layers + [NO_LAYER]) == LayersSum(layers)
  {
    if layers != [] {
      LayersSumSnoc(layers[1..]);
      assert (layers + [NO_LAYER])[1..] == layers[1..] + [NO_LAYER];
    } else {
      assert layers + [NO_LAYER] == [NO_LAYER];
    }
  }

  lemma {:induction false} PaddedSum(layers: seq<LayerBytes>, n: nat)
    ensures LayersSum(Padded(layers, n)) == LayersSum(layers)
    decreases n - |layers|
  {
    if n > |layers| {
      LayersSumSnoc(layers);
      PaddedSum(layers + [NO_LAYER], n);
    }
  }

  lemma {:induction false} PartIsWithinLayers(layers: seq<LayerBytes>, il: nat)
    requires il < |layers|
    ensures layers[il].experts + layers[il].denseFfn + layers[il].other <= LayersSum(layers)
  {
    if il > 0 {
      PartIsWithinLayers(layers[1..], il - 1);
    }
  }

  lemma LayerSumGrows(t: TensorBytes, il: nat, part: LayerPart, bytes: U64)
    requires LayersSum(t.layers) + bytes <= U64_MAX
    ensures var layers := Padded(t.layers, il + 1);
            LayersSum(layers[il := AddPart(layers[il], part, bytes)]) == LayersSum(t.layers) + bytes
  {
    var layers := Padded(t.layers, il + 1);
    PaddedSum(t.layers, il + 1);
    PartIsWithinLayers(layers, il);
    LayersSumUpdate(layers, il, AddPart(layers[il], part, bytes));
  }

  /** While the grand total fits, one addition saturates nothing. */
  lemma AddBytesSum(t: TensorBytes, e: Entry, bytes: U64)
    requires Sum(t) + bytes <= U64_MAX
    ensures Sum(AddBytes(t, e, bytes)) == Sum(t) + bytes
  {
    if e.cls.Layer? {
      LayerSumGrows(t, e.cls.il, e.cls.part, bytes);
    }
  }

  // Per-layer token embeddings stay a part of the input bytes.
  lemma AddBytesFlags(t: TensorBytes, e: Entry, bytes: U64)
    requires t.perLayerTokenEmbd <= t.input && Flagged(e)
    ensures AddBytes(t, e, bytes).perLayerTokenEmbd <= AddBytes(t, e, bytes).input
  {
  }

  /** Every bucket is part of the grand total. */
  lemma GetIsWithinSum(t: TensorBytes, k: Bucket)
    requires t.perLayerTokenEmbd <= t.input
    ensures Get(t, k) <= Sum(t)
  {
    if k.LayerBytesOf? && k.il < |t.layers| {
      PartIsWithinLayers(t.layers, k.il);
    }
  }

  // --------------------------------------------------------------- sizing

  function End(entries: seq<Entry>, dataLen: U64): U64
    requires entries != []
  {
    if |entries| > 1 then entries[1].offset else dataLen
  }

  /** Sizes the tensors of a sorted table; None when an offset is out of place. */
  function SizeFrom(entries: seq<Entry>, dataLen: U64, t: TensorBytes): Option<TensorBytes>
    decreases |entries|
  {
    if entries == [] then Some(t)
    else
      var offset, end := entries[0].offset, End(entries, dataLen);
      if offset >= dataLen || end <= offset then None
      else SizeFrom(entries[1..], dataLen, AddBytes(t, entries[0], end - offset))
  }

  /** The sizing loop of the source. */
  method SizeTensors(sorted: seq<Entry>, dataLen: U64, seed: TensorBytes) returns (r: Option<TensorBytes>)
    ensures r == SizeFrom(sorted, dataLen, seed)
  {
    var summary := seed;
    var index := 0;
    while index < |sorted|
      invariant 0 <= index <= |sorted|
      invariant SizeFrom(sorted[index..], dataLen, summary) == SizeFrom(sorted, dataLen, seed)
    {
      var offset := sorted[index].offset;
      var end := if index + 1 < |sorted| then sorted[index + 1].offset else dataLen;
      if offset >= dataLen || end <= offset { return None; }
      summary := AddBytes(summary, sorted[index], end - offset);
      assert sorted[index..][1..] == sorted[index + 1..];
      index := index + 1;
    }
    r := Some(summary);
  }

  const NOTHING: TensorBytes := TensorBytes(0, 0, 0, 0, [], false, None)

  // A summary before any tensor has been sized.
  predicate Unsized(t: TensorBytes) { t.(hasOutputWeight := false, vocab := None) == NOTHING }

  function SizeTable(table: seq<Entry>, dataLen: U64, seed: TensorBytes): Option<TensorBytes> {
    SizeFrom(Sort(table), dataLen, seed)
  }

  // All offsets are distinct and inside the data section.
  predicate Placed(table: seq<Entry>, dataLen: U64) {
    (forall i :: 0 <= i < |table| ==> table[i].offset < dataLen)
    && forall i, j :: 0 <= i < j < |table| ==> table[i].offset != table[j].offset
  }

  // No entry has a given offset.
  predicate Fresh(s: seq<Entry>, x: U64) {
    forall i :: 0 <= i < |s| ==> s[i].offset != x
  }

  lemma PlacedCons(s: seq<Entry>, dataLen: U64)
    requires s != []
    ensures Placed(s, dataLen) <==>
            s[0].offset < dataLen && Fresh(s[1..], s[0].offset) && Placed(s[1..], dataLen)
  {
    var rest := s[1..];
    assert forall j :: 1 <= j < |s| ==> s[j] == rest[j - 1];
  }

  lemma {:induction false} InsertFresh(e: Entry, s: seq<Entry>, x: U64)
    ensures Fresh(Insert(e, s), x) <==> Fresh(s, x) && e.offset != x
  {
    if s != [] && e.offset > s[0].offset {
      InsertFresh(e, s[1..], x);
      FreshCons(s, x);
      FreshCons(Insert(e, s), x);
    } else {
      FreshCons(Insert(e, s), x);
    }
  }

  lemma FreshCons(s: seq<Entry>, x: U64)
    requires s != []
    ensures Fresh(s, x) <==> s[0].offset != x && Fresh(s[1..], x)
  {
    var rest := s[1..];
    assert forall j :: 1 <= j < |s| ==> s[j] == rest[j - 1];
  }

  lemma {:induction false} InsertPlaced(e: Entry, s: seq<Entry>, dataLen: U64)
    ensures Placed(Insert(e, s), dataLen) <==>
            Placed(s, dataLen) && e.offset < dataLen && Fresh(s, e.offset)
  {
    var r := Insert(e, s);
    PlacedCons(r, dataLen);
    if s != [] && e.offset > s[0].offset {
      InsertPlaced(e, s[1..], dataLen);
      InsertFresh(e, s[1..], s[0].offset);
      PlacedCons(s, dataLen);
      FreshCons(s, e.offset);
    }
  }

  /** Sorting neither creates nor removes a misplaced offset. */
  lemma {:induction false} SortPlaced(s: seq<Entry>, dataLen: U64)
    ensures Placed(Sort(s), dataLen) <==> Placed(s, dataLen)
    ensures forall x: U64 :: Fresh(Sort(s), x) <==> Fresh(s, x)
  {
    if s != [] {
      SortPlaced(s[1..], dataLen);
      InsertPlaced(s[0], Sort(s[1..]), dataLen);
      PlacedCons(s, dataLen);
      forall x: U64
        ensures Fresh(Sort(s), x) <==> Fresh(s, x)
      {
        InsertFresh(s[0], Sort(s[1..]), x);
        FreshCons(s, x);
      }
    }
  }

  lemma {:induction false} SizedIffPlaced(s: seq<Entry>, dataLen: U64, t: TensorBytes)
    requires Sorted(s)
    ensures SizeFrom(s, dataLen, t).Some? <==> Placed(s, dataLen)
    decreases |s|
  {
    if s != [] {
      var rest := s[1..];
      PlacedCons(s, dataLen);
      assert Sorted(rest);
      if s[0].offset < dataLen && End(s, dataLen) > s[0].offset {
        SizedIffPlaced(rest, dataLen, AddBytes(t, s[0], End(s, dataLen) - s[0].offset));
        forall j | 0 <= j < |rest|
          ensures s[0].offset < rest[j].offset
        {
          assert s[1].offset <= s[j + 1].offset;
        }
      } else if |s| > 1 {
        assert rest[0].offset == s[1].offset;
      }
    }
  }

  // The bytes that the gaps of a sorted table give to one bucket.
  function GapsIn(s: seq<Entry>, dataLen: U64, k: Bucket): int {
    if s == [] then 0
    else (if In(s[0], k) then End(s, dataLen) - s[0].offset else 0) + GapsIn(s[1..], dataLen, k)
  }

  /**
   On a sorted table that is sized, no addition saturates: each bucket is exactly
   the sum of its gaps, and together they cover the data from the first offset on.
   */
  lemma {:induction false} SizesAreGaps(s: seq<Entry>, dataLen: U64, t: TensorBytes, k: Bucket)
    requires SizeFrom(s, dataLen, t).Some? && s != []
    requires forall i :: 0 <= i < |s| ==> Flagged(s[i])
    requires t.perLayerTokenEmbd <= t.input && Sum(t) <= s[0].offset
    ensures var r := SizeFrom(s, dataLen, t).value;
            Sum(r) == Sum(t) + dataLen - s[0].offset && r.perLayerTokenEmbd <= r.input
            && Get(r, k) == Get(t, k) + GapsIn(s, dataLen, k)
    decreases |s|
  {
    var bytes := End(s, dataLen) - s[0].offset;
    var next := AddBytes(t, s[0], bytes);
    if |s| > 1 { assert SizeFrom(s[1..], dataLen, next).Some?; assert s[1].offset < dataLen; }
    assert Flagged(s[0]);
    AddBytesFlags(t, s[0], bytes);
    hide Sum, Get, AddBytes, In, Flagged;
    AddBytesSum(t, s[0], bytes);
    AddBytesGet(t, s[0], bytes, k);
    GetIsWithinSum(t, k);
    if |s| > 1 {
      SizesAreGaps(s[1..], dataLen, next, k);
    } else {
      assert s[1..] == [];
    }
  }

  /** Sizing leaves alone what was noted before it. */
  lemma {:induction false} SizingKeepsNotes(s: seq<Entry>, dataLen: U64, t: TensorBytes)
    requires SizeFrom(s, dataLen, t).Some?
    ensures var r := SizeFrom(s, dataLen, t).value;
            r.vocab == t.vocab && r.hasOutputWeight == t.hasOutputWeight
    decreases |s|
  {
    if s != [] {
      SizingKeepsNotes(s[1..], dataLen, AddBytes(t, s[0], End(s, dataLen) - s[0].offset));
    }
  }

  lemma {:induction false} SortedEntriesAreFlagged(table: seq<Entry>)
    requires forall i :: 0 <= i < |table| ==> Flagged(table[i])
    ensures forall i :: 0 <= i < |Sort(table)| ==> Flagged(Sort(table)[i])
  {
    SortKeeps(table);
    forall i | 0 <= i < |Sort(table)|
      ensures Flagged(Sort(table)[i])
    {
      assert Sort(table)[i] in multiset(table);
      var j :| 0 <= j < |table| && table[j] == Sort(table)[i];
    }
  }

  lemma SortedPlacedIncreases(s: seq<Entry>, dataLen: U64)
    requires Sorted(s) && Placed(s, dataLen)
    ensures Increasing(s)
  {
  }

  /**
   Sizes are reported exactly for the tables whose offsets are all distinct and
   inside the data section.
   */
  lemma SizedExactlyWhenPlaced(table: seq<Entry>, dataLen: U64, seed: TensorBytes)
    ensures SizeTable(table, dataLen, seed).Some? <==> Placed(table, dataLen)
  {
    SortKeeps(table);
    SizedIffPlaced(Sort(table), dataLen, seed);
    SortPlaced(table, dataLen);
  }

  // The least offset of a table.
  predicate IsFirst(table: seq<Entry>, first: U64) {
    AtLeast(table, first) && !Fresh(table, first)
  }

  /**
   When a nonempty table is sized, nothing saturates: the total is the data from
   the smallest offset to the end, and the on-demand part is within the input.
   */
  lemma SizesTileTheData(table: seq<Entry>, dataLen: U64, seed: TensorBytes, first: U64)
    requires SizeTable(table, dataLen, seed).Some? && table != [] && Unsized(seed) && IsFirst(table, first)
    requires forall i :: 0 <= i < |table| ==> Flagged(table[i])
    ensures var r := SizeTable(table, dataLen, seed).value;
            Total(r) == Sum(r) == dataLen - first && r.perLayerTokenEmbd <= r.input
  {
    var s := Sort(table);
    SortKeeps(table);
    SortedEntriesAreFlagged(table);
    SortPlaced(table, dataLen);
    assert s[0].offset == first by {
      assert !Fresh(s, first);
      assert s[0] in multiset(table);
      var j :| 0 <= j < |table| && table[j] == s[0];
    }
    SizedIffPlaced(s, dataLen, seed);
    SizesAreGaps(s, dataLen, seed, InputBytes);
    TotalIsCapped(SizeTable(table, dataLen, seed).value);
  }

  // A reported summary without its vocabulary.
  function CountsOf(r: Option<TensorBytes>): Option<TensorBytes> {
    if r.Some? then Some(Counts(r.value)) else None
  }

  /** The vocabulary has no part in sizing. */
  lemma {:induction false} SizingIgnoresVocab(s: seq<Entry>, dataLen: U64, t: TensorBytes)
    ensures CountsOf(SizeFrom(s, dataLen, t)) == SizeFrom(s, dataLen, Counts(t))
    decreases |s|
  {
    if s != [] {
      var bytes := End(s, dataLen) - s[0].offset;
      if s[0].offset < dataLen && bytes > 0 {
        SizingIgnoresVocab(s[1..], dataLen, AddBytes(t, s[0], bytes));
      }
    }
  }

  /** The sizes do not depend on the order of the table. */
  lemma TableOrderIsIrrelevant(a: seq<Entry>, b: seq<Entry>, dataLen: U64, seed: TensorBytes)
    requires multiset(a) == multiset(b)
    ensures SizeTable(a, dataLen, seed) == SizeTable(b, dataLen, seed)
  {
    SortKeeps(a);
    SortKeeps(b);
    SizedIffPlaced(Sort(a), dataLen, seed);
    SizedIffPlaced(Sort(b), dataLen, seed);
    if Placed(Sort(a), dataLen) {
      SortedPlacedIncreases(Sort(a), dataLen);
      SortedIsUnique(Sort(b), Sort(a));
    } else if Placed(Sort(b), dataLen) {
      SortedPlacedIncreases(Sort(b), dataLen);
      SortedIsUnique(Sort(a), Sort(b));
    }
  }

  lemma ConsIncreases(e: Entry, tail: seq<Entry>, next: U64, dataLen: U64)
    requires e.offset < next && AtLeast(tail, next) && Increasing(tail) && Placed(tail, dataLen)
    requires e.offset < dataLen
    ensures var es := [e] + tail;
            Increasing(es) && Placed(es, dataLen) && AtLeast(es, e.offset)
  {
    var es := [e] + tail;
    assert es[1..] == tail;
    PlacedCons(es, dataLen);
    forall i | 1 <= i < |es|
      ensures e.offset < es[i].offset
    {
      assert es[i] == tail[i - 1];
    }
  }

  /** A table that is already in order, from offset zero on, has its gaps as sizes. */
  lemma {:induction false} InOrderSizes(es: seq<Entry>, dataLen: U64, seed: TensorBytes, k: Bucket)
    requires Increasing(es) && Placed(es, dataLen) && (es != [] ==> es[0].offset == 0)
    requires Unsized(seed) && forall i :: 0 <= i < |es| ==> Flagged(es[i])
    ensures var r := SizeTable(es, dataLen, seed);
            r.Some? && Get(r.value, k) == GapsIn(es, dataLen, k)
  {
    SortKeeps(es);
    SortedIsUnique(Sort(es), es);
    SizedExactlyWhenPlaced(es, dataLen, seed);
    if es != [] {
      SizesAreGaps(es, dataLen, seed, k);
    }
  }
}
