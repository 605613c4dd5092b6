/**
 The safetensors inventory behind a rebuilt weight index: a header is accepted
 exactly when its tensors tile the data section.
 */
module Safetensors {
  import opened Outcomes
  import LittleEndian
  import Sorting

  // JSON as it is written: objects keep their pairs in order, repeated keys included.
  datatype Value =
    | Whole(n: int)
    | Text(s: string)
    | List(items: seq<Value>)
    | Object(pairs: seq<(string, Value)>)
    | Other

  const MAX_HEADER_BYTES: nat := 16 * 1024 * 1024

  // ------------------------------------------------------------- descriptors

  function DtypeBytes(dtype: string): Option<nat> {
    if dtype in {"BOOL", "U8", "I8", "F8_E4M3", "F8_E5M2"} then Some(1)
    else if dtype in {"I16", "U16", "F16", "BF16"} then Some(2)
    else if dtype in {"I32", "U32", "F32"} then Some(4)
    else if dtype in {"I64", "U64", "F64"} then Some(8)
    else None
  }

  predicate DistinctKeys(pairs: seq<(string, Value)>) {
    forall i, j :: 0 <= i < j < |pairs| ==> pairs[i].0 != pairs[j].0
  }

  // No object anywhere repeats a key.
  predicate Unique(value: Value) {
    match value
    case Object(pairs) => DistinctKeys(pairs) && forall i :: 0 <= i < |pairs| ==> Unique(pairs[i].1)
    case List(items) => forall i :: 0 <= i < |items| ==> Unique(items[i])
    case _ => true
  }

  function KeySet(pairs: seq<(string, Value)>): set<string> {
    set i | 0 <= i < |pairs| :: pairs[i].0
  }

  /** Keys are distinct when there are as many as pairs. */
  lemma {:induction false} DistinctKeysCount(pairs: seq<(string, Value)>)
    ensures DistinctKeys(pairs) <==> |KeySet(pairs)| == |pairs|
    ensures |KeySet(pairs)| <= |pairs|
  {
    if pairs != [] {
      var rest := pairs[1..];
      DistinctKeysCount(rest);
      assert forall i :: 0 < i < |pairs| ==> pairs[i] == rest[i - 1];
      assert forall i :: 0 <= i < |rest| ==> rest[i] == pairs[i + 1];
      assert KeySet(pairs) == {pairs[0].0} + KeySet(rest);
      assert pairs[0].0 in KeySet(rest) <==> exists j :: 0 < j < |pairs| && pairs[j].0 == pairs[0].0;
      assert DistinctKeys(pairs) <==> DistinctKeys(rest) && pairs[0].0 !in KeySet(rest);
    }
  }

  // A value occurs in another: it is that value, or occurs in one of its parts.
  ghost predicate Occurs(inner: Value, value: Value) {
    inner == value
    || match value
       case Object(pairs) => exists i :: 0 <= i < |pairs| && Occurs(inner, pairs[i].1)
       case List(items) => exists i :: 0 <= i < |items| && Occurs(inner, items[i])
       case _ => false
  }

  /** A value is free of repeated keys when every object that occurs in it is. */
  lemma {:induction false} UniqueEverywhere(value: Value)
    ensures Unique(value) <==>
            forall inner :: Occurs(inner, value) && inner.Object? ==> DistinctKeys(inner.pairs)
  {
    hide DistinctKeys;
    match value
    case Object(pairs) =>
      forall i | 0 <= i < |pairs| { UniqueEverywhere(pairs[i].1); }
      assert Occurs(value, value);
    case List(items) =>
      forall i | 0 <= i < |items| { UniqueEverywhere(items[i]); }
    case _ =>
  }

  function Get(pairs: seq<(string, Value)>, key: string): Option<Value> {
    if pairs == [] then None
    else if pairs[0].0 == key then Some(pairs[0].1)
    else Get(pairs[1..], key)
  }

  predicate IsShape(items: seq<Value>) {
    forall i :: 0 <= i < |items| ==> items[i].Whole? && items[i].n >= 0
  }

  function Product(items: seq<Value>): nat
    requires IsShape(items)
  {
    if items == [] then 1 else items[0].n * Product(items[1..])
  }

  // A byte range, from its start up to its end.
  datatype Range = Range(start: nat, end: nat)

  predicate Within(r: Range, size: nat) { r.start <= r.end <= size }

  // The bytes a tensor's shape and type call for.
  function Needs(tensor: Value): Option<nat> {
    if !tensor.Object? then None
    else
      match (Get(tensor.pairs, "shape"), Get(tensor.pairs, "dtype"))
      case (Some(List(shape)), Some(Text(dtype))) =>
        if DtypeBytes(dtype).Some? && IsShape(shape) then Some(Product(shape) * DtypeBytes(dtype).value)
        else None
      case _ => None
  }

  // The range of a well-formed tensor descriptor whose range fits its shape and type.
  function Described(name: string, tensor: Value, size: nat): (r: Option<Range>)
    ensures r.Some? ==> Within(r.value, size) && Needs(tensor) == Some(r.value.end - r.value.start)
  {
    if name == "" || !tensor.Object? then None
    else
      match (Needs(tensor), Get(tensor.pairs, "data_offsets"))
      case (Some(bytes), Some(List(offsets))) =>
        if |offsets| == 2 && offsets[0].Whole? && offsets[1].Whole?
           && 0 <= offsets[0].n <= offsets[1].n <= size && offsets[1].n - offsets[0].n == bytes
        then Some(Range(offsets[0].n, offsets[1].n))
        else None
      case _ => None
  }

  // The entries of a header that are tensors.
  function Tensors(header: seq<(string, Value)>): seq<(string, Value)> {
    if header == [] then []
    else if header[0].0 == "__metadata__" then Tensors(header[1..])
    else [header[0]] + Tensors(header[1..])
  }

  predicate AllDescribed(tensors: seq<(string, Value)>, size: nat) {
    forall i :: 0 <= i < |tensors| ==> Described(tensors[i].0, tensors[i].1, size).Some?
  }

  function Ranges(tensors: seq<(string, Value)>, size: nat): (rs: seq<Range>)
    requires AllDescribed(tensors, size)
    ensures |rs| == |tensors| && forall i :: 0 <= i < |rs| ==> Within(rs[i], size)
  {
    seq(|tensors|, i requires 0 <= i < |tensors| => Described(tensors[i].0, tensors[i].1, size).value)
  }

  function Names(tensors: seq<(string, Value)>): seq<string> {
    seq(|tensors|, i requires 0 <= i < |tensors| => tensors[i].0)
  }

  // ------------------------------------------------------------------ sorting

  predicate Before(a: Range, b: Range) {
    a.start < b.start || (a.start == b.start && a.end <= b.end)
  }

  function Insert(r: Range, sorted: seq<Range>): seq<Range> {
    Sorting.Insert(Before, r, sorted)
  }

  function Sort(rs: seq<Range>): seq<Range> {
    Sorting.Sort(Before, rs)
  }

  predicate Ordered(rs: seq<Range>) {
    forall i, j :: 0 <= i < j < |rs| ==> Before(rs[i], rs[j])
  }

  lemma SortKeeps(rs: seq<Range>)
    ensures Ordered(Sort(rs)) && multiset(Sort(rs)) == multiset(rs)
  {
    Sorting.SortKeeps(Before, rs);
  }

  // ------------------------------------------------------------------- tiling

  // Each range starts where the one before it ended, from the cursor up to the size.
  predicate Chained(sorted: seq<Range>, cursor: nat, size: nat) {
    if sorted == [] then cursor == size
    else sorted[0].start == cursor && Chained(sorted[1..], sorted[0].end, size)
  }

  predicate Covers(r: Range, byte: nat) { r.start <= byte < r.end }

  // How many ranges hold a byte.
  function Holders(rs: seq<Range>, byte: nat): nat {
    if rs == [] then 0 else (if Covers(rs[0], byte) then 1 else 0) + Holders(rs[1..], byte)
  }

  // No empty range lies strictly inside another.
  predicate NoneInside(rs: seq<Range>) {
    forall i, j :: 0 <= i < |rs| && 0 <= j < |rs| && rs[i].start == rs[i].end ==>
      !(rs[j].start < rs[i].start < rs[j].end)
  }

  /** The data section is tiled: each byte is in exactly one range, and no empty range splits one. */
  predicate Tiled(rs: seq<Range>, size: nat) {
    NoneInside(rs) && forall byte: nat :: byte < size ==> Holders(rs, byte) == 1
  }

  predicate AllWithin(rs: seq<Range>, size: nat) {
    forall i :: 0 <= i < |rs| ==> Within(rs[i], size)
  }

  lemma {:induction false} HoldersConcat(a: seq<Range>, b: seq<Range>, byte: nat)
    ensures Holders(a + b, byte) == Holders(a, byte) + Holders(b, byte)
  {
    if a == [] {
      assert a + b == b;
    } else {
      assert (a + b)[1..] == a[1..] + b;
      HoldersConcat(a[1..], b, byte);
    }
  }

  // Counting holders does not depend on the order of the ranges.
  lemma {:induction false} HoldersPermute(a: seq<Range>, b: seq<Range>, byte: nat)
    requires multiset(a) == multiset(b)
    ensures Holders(a, byte) == Holders(b, byte)
    decreases |a|
  {
    if a == [] {
      assert |multiset(b)| == 0;
    } else {
      assert a == [a[0]] + a[1..];
      assert a[0] in multiset(b);
      var k :| 0 <= k < |b| && b[k] == a[0];
      Sorting.Without(b, k);
      assert multiset(a[1..]) == multiset(b) - multiset{a[0]};
      HoldersPermute(a[1..], b[..k] + b[k + 1..], byte);
      HoldersWithout(b, k, byte);
    }
  }

  lemma {:induction false} HoldersWithout(b: seq<Range>, k: nat, byte: nat)
    requires k < |b|
    ensures Holders(b, byte) == (if Covers(b[k], byte) then 1 else 0) + Holders(b[..k] + b[k + 1..], byte)
  {
    var rest := [b[k]] + b[k + 1..];
    assert b == b[..k] + rest && rest[1..] == b[k + 1..];
    HoldersConcat(b[..k], rest, byte);
    HoldersConcat(b[..k], b[k + 1..], byte);
  }

  lemma ElementsPermute(a: seq<Range>, b: seq<Range>, i: nat) returns (j: nat)
    requires multiset(a) == multiset(b) && i < |a|
    ensures j < |b| && b[j] == a[i]
  {
    assert a[i] in multiset(b);
    j :| 0 <= j < |b| && b[j] == a[i];
  }

  lemma NoneInsidePermutes(a: seq<Range>, b: seq<Range>)
    requires multiset(a) == multiset(b) && NoneInside(a)
    ensures NoneInside(b)
  {
    forall i, j | 0 <= i < |b| && 0 <= j < |b| && b[i].start == b[i].end
      ensures !(b[j].start < b[i].start < b[j].end)
    {
      var i' := ElementsPermute(b, a, i);
      var j' := ElementsPermute(b, a, j);
    }
  }

  lemma AllWithinPermutes(a: seq<Range>, b: seq<Range>, size: nat)
    requires multiset(a) == multiset(b) && AllWithin(a, size)
    ensures AllWithin(b, size)
  {
    forall i | 0 <= i < |b| ensures Within(b[i], size) {
      var i' := ElementsPermute(b, a, i);
    }
  }

  /** Header order is irrelevant to tiling. */
  lemma TilingPermutes(a: seq<Range>, b: seq<Range>, size: nat)
    requires multiset(a) == multiset(b)
    ensures Tiled(a, size) <==> Tiled(b, size)
  {
    if NoneInside(a) { NoneInsidePermutes(a, b); }
    if NoneInside(b) { NoneInsidePermutes(b, a); }
    forall byte: nat ensures Holders(a, byte) == Holders(b, byte) {
      HoldersPermute(a, b, byte);
    }
  }

  // In a chain, the bytes from the cursor on have one holder and those before it none.
  lemma {:induction false} ChainHolds(s: seq<Range>, cursor: nat, size: nat, byte: nat)
    requires Chained(s, cursor, size) && AllWithin(s, size) && cursor <= size
    ensures Holders(s, byte) == if cursor <= byte < size then 1 else 0
    decreases |s|
  {
    if s != [] {
      ChainHolds(s[1..], s[0].end, size, byte);
    }
  }

  lemma {:induction false} ChainStarts(s: seq<Range>, cursor: nat, size: nat, i: nat)
    requires Chained(s, cursor, size) && AllWithin(s, size) && i < |s|
    ensures cursor <= s[i].start
    decreases |s|
  {
    if i > 0 {
      ChainStarts(s[1..], s[0].end, size, i - 1);
    }
  }

  lemma {:induction false} ChainSplitsNone(s: seq<Range>, cursor: nat, size: nat)
    requires Chained(s, cursor, size) && AllWithin(s, size)
    ensures NoneInside(s)
    decreases |s|
  {
    if s != [] {
      var rest := s[1..];
      ChainSplitsNone(rest, s[0].end, size);
      forall i, j | 0 <= i < |s| && 0 <= j < |s| && s[i].start == s[i].end
        ensures !(s[j].start < s[i].start < s[j].end)
      {
        if i > 0 && j > 0 {
          assert s[i] == rest[i - 1] && s[j] == rest[j - 1];
        } else if i > 0 {
          ChainStarts(rest, s[0].end, size, i - 1);
        } else if j > 0 {
          ChainStarts(s, cursor, size, j);
        }
      }
    }
  }

  // What the first ranges of a tiling leave for the rest.
  predicate Tail(s: seq<Range>, cursor: nat, size: nat) {
    Ordered(s) && AllWithin(s, size) && NoneInside(s) && cursor <= size
    && (forall byte: nat :: cursor <= byte < size ==> Holders(s, byte) == 1)
    && (forall byte: nat :: byte < cursor ==> Holders(s, byte) == 0)
    && forall i :: 0 <= i < |s| ==> s[i].start >= cursor
  }

  lemma {:induction false} HeldBySome(s: seq<Range>, byte: nat) returns (i: nat)
    requires Holders(s, byte) > 0
    ensures i < |s| && Covers(s[i], byte)
  {
    if Covers(s[0], byte) {
      i := 0;
    } else {
      i := HeldBySome(s[1..], byte);
      i := i + 1;
    }
  }

  lemma {:induction false} HeldTwice(s: seq<Range>, byte: nat, i: nat)
    requires i < |s| && Covers(s[i], byte)
    ensures Holders(s, byte) > 0
  {
    if i > 0 {
      HeldTwice(s[1..], byte, i - 1);
    }
  }

  lemma TailStarts(s: seq<Range>, cursor: nat, size: nat)
    requires Tail(s, cursor, size) && s != []
    ensures s[0].start == cursor
  {
    if cursor < size {
      var i := HeldBySome(s, cursor);
      assert i == 0 || Before(s[0], s[i]);
    }
  }

  lemma TailStep(s: seq<Range>, cursor: nat, size: nat)
    requires Tail(s, cursor, size) && s != [] && s[0].start == cursor
    ensures Tail(s[1..], s[0].end, size)
  {
    var rest := s[1..];
    forall i | 0 <= i < |rest| ensures rest[i].start >= s[0].end {
      TailAfter(s, cursor, size, i + 1);
    }
    assert forall byte: nat :: Holders(s, byte) == (if Covers(s[0], byte) then 1 else 0) + Holders(rest, byte);
  }

  // A later range cannot start inside the first one.
  lemma TailAfter(s: seq<Range>, cursor: nat, size: nat, i: nat)
    requires Tail(s, cursor, size) && 0 < i < |s| && s[0].start == cursor
    ensures s[i].start >= s[0].end
  {
    var start := s[i].start;
    assert Before(s[0], s[i]);
    if s[i].end > start {
      HeldTwice(s[1..], start, i - 1);
      assert Holders(s, start) == 1;
    } else {
      assert Within(s[i], size);
    }
  }

  lemma {:induction false} TailChains(s: seq<Range>, cursor: nat, size: nat)
    requires Tail(s, cursor, size)
    ensures Chained(s, cursor, size)
    decreases |s|
  {
    if s == [] {
      assert cursor < size ==> Holders(s, cursor) == 1;
    } else {
      TailStarts(s, cursor, size);
      TailStep(s, cursor, size);
      TailChains(s[1..], s[0].end, size);
    }
  }

  /** Walking the sorted ranges succeeds exactly when they tile the data section. */
  lemma {:induction false} ChainedExactlyWhenTiled(rs: seq<Range>, size: nat)
    requires AllWithin(rs, size)
    ensures Chained(Sort(rs), 0, size) <==> Tiled(rs, size)
  {
    var s := Sort(rs);
    SortKeeps(rs);
    AllWithinPermutes(rs, s, size);
    TilingPermutes(rs, s, size);
    if Chained(s, 0, size) {
      ChainSplitsNone(s, 0, size);
      forall byte: nat | byte < size ensures Holders(s, byte) == 1 {
        ChainHolds(s, 0, size, byte);
      }
    }
    if Tiled(s, size) {
      TailChains(s, 0, size);
    }
  }

  // ----------------------------------------------------------------- lengths

  function Lengths(rs: seq<Range>): int {
    if rs == [] then 0 else rs[0].end - rs[0].start + Lengths(rs[1..])
  }

  lemma {:induction false} InsertLengths(r: Range, s: seq<Range>)
    ensures Lengths(Insert(r, s)) == r.end - r.start + Lengths(s)
  {
    if s == [] || Before(r, s[0]) {
      assert ([r] + s)[1..] == s;
    } else {
      InsertLengths(r, s[1..]);
      assert Insert(r, s)[1..] == Insert(r, s[1..]);
    }
  }

  lemma {:induction false} SortLengths(rs: seq<Range>)
    ensures Lengths(Sort(rs)) == Lengths(rs)
  {
    if rs != [] {
      SortLengths(rs[1..]);
      InsertLengths(rs[0], Sort(rs[1..]));
    }
  }

  lemma {:induction false} ChainLengths(s: seq<Range>, cursor: nat, size: nat)
    requires Chained(s, cursor, size)
    ensures Lengths(s) == size - cursor
    decreases |s|
  {
    if s != [] {
      ChainLengths(s[1..], s[0].end, size);
    }
  }

  /** The lengths of ranges that tile the data section add up to its size. */
  lemma {:induction false} TiledLengths(rs: seq<Range>, size: nat)
    requires AllWithin(rs, size) && Tiled(rs, size)
    ensures Lengths(rs) == size
  {
    ChainedExactlyWhenTiled(rs, size);
    SortLengths(rs);
    ChainLengths(Sort(rs), 0, size);
  }

  // ------------------------------------------------------------ one shard

  datatype Inventory = Inventory(names: seq<string>, dataSize: nat)

  // The header of a file: its pairs, and the size of the data after it.
  datatype Header = Header(pairs: seq<(string, Value)>, dataSize: nat)

  function HeaderOf(parse: Bytes -> Option<Value>, file: Bytes): (h: Option<Header>)
    ensures h.Some? ==> DistinctKeys(h.value.pairs) && h.value.dataSize <= |file|
  {
    if |file| < 8 then None
    else
      var headerSize := LittleEndian.FromLe(file[..8]);
      if !(2 <= headerSize <= MAX_HEADER_BYTES && headerSize <= |file| - 8) then None
      else
        match parse(file[8..8 + headerSize])
        case Some(Object(pairs)) =>
          if Unique(Object(pairs)) then Some(Header(pairs, |file| - 8 - headerSize)) else None
        case _ => None
  }

  /** What an accepted shard is: every tensor well formed, at least one, and the data tiled. */
  ghost predicate Complete(h: Header) {
    var tensors := Tensors(h.pairs);
    AllDescribed(tensors, h.dataSize) && tensors != [] && Tiled(Ranges(tensors, h.dataSize), h.dataSize)
  }

  // -------------------------------------------------- what the bytes say

  // The width of a tensor type.
  predicate IsWidth(dtype: string, width: nat) {
    match width
    case 1 => dtype == "BOOL" || dtype == "U8" || dtype == "I8" || dtype == "F8_E4M3" || dtype == "F8_E5M2"
    case 2 => dtype == "I16" || dtype == "U16" || dtype == "F16" || dtype == "BF16"
    case 4 => dtype == "I32" || dtype == "U32" || dtype == "F32"
    case 8 => dtype == "I64" || dtype == "U64" || dtype == "F64"
    case _ => false
  }

  lemma WidthIsListed(dtype: string, width: nat)
    ensures DtypeBytes(dtype) == Some(width) <==> IsWidth(dtype, width)
  {
  }

  // The numbers of a list.
  function Wholes(ns: seq<nat>): (items: seq<Value>)
    ensures |items| == |ns|
  {
    if ns == [] then [] else [Whole(ns[0])] + Wholes(ns[1..])
  }

  /** How many elements a shape has: every dimension multiplies, the last one first. */
  function Elements(ns: seq<nat>): nat {
    if ns == [] then 1 else Elements(ns[..|ns| - 1]) * ns[|ns| - 1]
  }

  lemma {:induction false} WholesAre(ns: seq<nat>)
    ensures IsShape(Wholes(ns)) && forall i :: 0 <= i < |ns| ==> Wholes(ns)[i] == Whole(ns[i])
  {
    if ns != [] {
      WholesAre(ns[1..]);
    }
  }

  lemma {:induction false} ElementsCons(n: nat, ns: seq<nat>)
    ensures Elements([n] + ns) == n * Elements(ns)
  {
    if ns == [] {
      assert [n] + ns == [n] && [n][..0] == [];
      assert Elements([n]) == Elements([]) * n;
    } else {
      var init, last := ns[..|ns| - 1], ns[|ns| - 1];
      ElementsCons(n, init);
      assert ([n] + ns)[..|ns|] == [n] + init;
      Regroup(n, Elements(init), last);
    }
  }

  lemma Regroup(a: nat, b: nat, c: nat)
    ensures (a * b) * c == a * (b * c)
  {
  }

  lemma {:induction false} ProductIsElements(ns: seq<nat>)
    ensures IsShape(Wholes(ns)) && Product(Wholes(ns)) == Elements(ns)
  {
    WholesAre(ns);
    if ns != [] {
      ProductIsElements(ns[1..]);
      ElementsCons(ns[0], ns[1..]);
      assert [ns[0]] + ns[1..] == ns;
      assert Wholes(ns)[1..] == Wholes(ns[1..]);
    }
  }

  lemma {:induction false} ShapeIsWholes(items: seq<Value>) returns (ns: seq<nat>)
    requires IsShape(items)
    ensures items == Wholes(ns)
  {
    if items == [] {
      ns := [];
    } else {
      var rest := ShapeIsWholes(items[1..]);
      ns := [items[0].n] + rest;
      assert ns[1..] == rest && items == [Whole(items[0].n)] + items[1..];
    }
  }

  // Without repeated keys, a key leads to its one value.
  lemma {:induction false} GetIsEntry(pairs: seq<(string, Value)>, key: string, value: Value)
    requires DistinctKeys(pairs)
    ensures Get(pairs, key) == Some(value) <==> (key, value) in pairs
  {
    if pairs != [] {
      var rest := pairs[1..];
      assert forall i :: 0 <= i < |rest| ==> rest[i] == pairs[i + 1];
      GetIsEntry(rest, key, value);
      assert (key, value) in pairs <==> pairs[0] == (key, value) || (key, value) in rest;
    }
  }

  // The keys for a type and a shape that call for some bytes.
  ghost predicate CallsFor(pairs: seq<(string, Value)>, bytes: nat) {
    exists dtype, width, ns ::
      IsWidth(dtype, width) && ("dtype", Text(dtype)) in pairs && ("shape", List(Wholes(ns))) in pairs
      && bytes == Elements(ns) * width
  }

  /**
   A tensor's descriptor: a name, the keys for its type, its shape and its two offsets,
   which lie in order in the data and as far apart as its elements need.
   */
  ghost predicate IsTensor(name: string, pairs: seq<(string, Value)>, size: nat, r: Range) {
    name != "" && r.start <= r.end <= size
    && ("data_offsets", List([Whole(r.start), Whole(r.end)])) in pairs && CallsFor(pairs, r.end - r.start)
  }

  lemma {:induction false} NeedsAre(pairs: seq<(string, Value)>, bytes: nat)
    requires DistinctKeys(pairs)
    ensures Needs(Object(pairs)) == Some(bytes) <==> CallsFor(pairs, bytes)
  {
    hide DtypeBytes, Get, IsWidth, Product, DistinctKeys;
    if Needs(Object(pairs)) == Some(bytes) {
      var shape, dtype := Get(pairs, "shape").value.items, Get(pairs, "dtype").value.s;
      var ns := ShapeIsWholes(shape);
      ProductIsElements(ns);
      GetIsEntry(pairs, "shape", List(Wholes(ns)));
      GetIsEntry(pairs, "dtype", Text(dtype));
      WidthIsListed(dtype, DtypeBytes(dtype).value);
    }
    if dtype, width, ns :|
      IsWidth(dtype, width) && ("dtype", Text(dtype)) in pairs && ("shape", List(Wholes(ns))) in pairs
      && bytes == Elements(ns) * width
    {
      GetIsEntry(pairs, "shape", List(Wholes(ns)));
      GetIsEntry(pairs, "dtype", Text(dtype));
      WidthIsListed(dtype, width);
      ProductIsElements(ns);
    }
  }

  /** The descriptors accepted are the tensors that fit their data. */
  lemma {:induction false} TensorIsRead(name: string, pairs: seq<(string, Value)>, size: nat, r: Range)
    requires DistinctKeys(pairs)
    ensures Described(name, Object(pairs), size) == Some(r) <==> IsTensor(name, pairs, size, r)
  {
    hide Needs, Get, CallsFor, DistinctKeys;
    var offsets := [Whole(r.start), Whole(r.end)];
    GetIsEntry(pairs, "data_offsets", List(offsets));
    if r.start <= r.end {
      NeedsAre(pairs, r.end - r.start);
    }
    var found := Get(pairs, "data_offsets");
    if found.Some? && found.value.List? && |found.value.items| == 2 {
      assert found.value.items == [found.value.items[0], found.value.items[1]];
    }
  }

  /** How a shard's file is laid out: the header's length, the header, and the data behind it. */
  ghost predicate IsLaidOut(parse: Bytes -> Option<Value>, file: Bytes, pairs: seq<(string, Value)>, dataSize: nat) {
    Unique(Object(pairs))
    && exists header, data ::
         2 <= |header| <= 16777216 && |data| == dataSize && parse(header) == Some(Object(pairs))
         && file == LittleEndian.ToLe(|header|, 8) + header + data
  }

  lemma {:induction false} LaidOutIsRead(parse: Bytes -> Option<Value>, file: Bytes, header: Bytes, data: Bytes)
    requires 2 <= |header| <= 16777216 && file == LittleEndian.ToLe(|header|, 8) + header + data
    ensures |file| >= 8 && LittleEndian.FromLe(file[..8]) == |header| && file[8..8 + |header|] == header
    ensures |file| - 8 - |header| == |data|
  {
    LittleEndian.Widths();
    LittleEndian.FromToLe(|header|, 8);
    assert file[..8] == LittleEndian.ToLe(|header|, 8);
  }

  lemma {:induction false} LaidOutIsFound(parse: Bytes -> Option<Value>, file: Bytes, pairs: seq<(string, Value)>,
                                          dataSize: nat)
    requires IsLaidOut(parse, file, pairs, dataSize)
    ensures HeaderOf(parse, file) == Some(Header(pairs, dataSize))
  {
    hide Unique, LittleEndian.ToLe, LittleEndian.FromLe;
    var header, data :|
      2 <= |header| <= 16777216 && |data| == dataSize && parse(header) == Some(Object(pairs))
      && file == LittleEndian.ToLe(|header|, 8) + header + data;
    LaidOutIsRead(parse, file, header, data);
  }

  lemma {:induction false} FoundIsLaidOut(parse: Bytes -> Option<Value>, file: Bytes)
    requires HeaderOf(parse, file).Some?
    ensures IsLaidOut(parse, file, HeaderOf(parse, file).value.pairs, HeaderOf(parse, file).value.dataSize)
  {
    hide Unique, LittleEndian.ToLe, LittleEndian.FromLe;
    var n := LittleEndian.FromLe(file[..8]);
    LittleEndian.ToFromLe(file[..8]);
    SplitInThree(file, n);
    assert parse(file[8..8 + n]).Some?;
  }

  lemma SplitInThree(file: Bytes, n: nat)
    requires 8 + n <= |file|
    ensures file == file[..8] + file[8..8 + n] + file[8 + n..]
  {
  }

  /** The header of a file is found exactly where the layout puts it. */
  lemma {:induction false} HeaderIsRead(parse: Bytes -> Option<Value>, file: Bytes, pairs: seq<(string, Value)>,
                                        dataSize: nat)
    ensures HeaderOf(parse, file) == Some(Header(pairs, dataSize)) <==> IsLaidOut(parse, file, pairs, dataSize)
  {
    hide HeaderOf, IsLaidOut;
    if HeaderOf(parse, file) == Some(Header(pairs, dataSize)) {
      FoundIsLaidOut(parse, file);
    }
    if IsLaidOut(parse, file, pairs, dataSize) {
      LaidOutIsFound(parse, file, pairs, dataSize);
    }
  }

  /** A digest is 64 small hexadecimal digits. */
  lemma DigestIsHex(expected: string)
    ensures HexDigest(expected) <==> |expected| == 64 && forall c :: c in expected ==> c in "0123456789abcdef"
  {
    var digits := "0123456789abcdef";
    forall c: char ensures c in digits <==> '0' <= c <= '9' || 'a' <= c <= 'f' {
      if '0' <= c <= '9' {
        assert digits[(c - '0') as int] == c;
      } else if 'a' <= c <= 'f' {
        assert digits[10 + (c - 'a') as int] == c;
      }
    }
    assert forall i :: 0 <= i < |expected| ==> expected[i] in expected;
  }

  /** A shard, told from its bytes: a laid-out file whose tensors, at least one, tile the data. */
  ghost predicate IsShard(parse: Bytes -> Option<Value>, file: Bytes, h: Header, ranges: seq<Range>) {
    IsLaidOut(parse, file, h.pairs, h.dataSize)
    && var tensors := Tensors(h.pairs);
       |ranges| == |tensors| > 0 && Tiled(ranges, h.dataSize)
       && forall i :: 0 <= i < |tensors| ==>
            tensors[i].1.Object? && IsTensor(tensors[i].0, tensors[i].1.pairs, h.dataSize, ranges[i])
  }

  lemma {:induction false} TensorsAreUnique(pairs: seq<(string, Value)>, i: nat)
    requires Unique(Object(pairs)) && i < |Tensors(pairs)|
    ensures Unique(Tensors(pairs)[i].1)
    ensures Tensors(pairs)[i].1.Object? ==> DistinctKeys(Tensors(pairs)[i].1.pairs)
  {
    NamesAreDistinct(pairs);
    var k :| 0 <= k < |pairs| && pairs[k] == Tensors(pairs)[i];
  }

  lemma DescribedIsObject(name: string, tensor: Value, size: nat)
    requires Described(name, tensor, size).Some?
    ensures tensor.Object?
  {
  }

  lemma ShardRanges(h: Header, ranges: seq<Range>)
    requires Unique(Object(h.pairs))
    ensures AllDescribed(Tensors(h.pairs), h.dataSize) && ranges == Ranges(Tensors(h.pairs), h.dataSize) <==>
            |ranges| == |Tensors(h.pairs)|
            && forall i :: 0 <= i < |ranges| ==>
                 Tensors(h.pairs)[i].1.Object?
                 && IsTensor(Tensors(h.pairs)[i].0, Tensors(h.pairs)[i].1.pairs, h.dataSize, ranges[i])
  {
    hide Unique, Described, IsTensor, Tensors;
    var tensors := Tensors(h.pairs);
    if |ranges| == |tensors| {
      forall i | 0 <= i < |ranges|
        ensures Described(tensors[i].0, tensors[i].1, h.dataSize) == Some(ranges[i]) <==>
                tensors[i].1.Object? && IsTensor(tensors[i].0, tensors[i].1.pairs, h.dataSize, ranges[i])
      {
        TensorsAreUnique(h.pairs, i);
        if tensors[i].1.Object? {
          TensorIsRead(tensors[i].0, tensors[i].1.pairs, h.dataSize, ranges[i]);
        } else if Described(tensors[i].0, tensors[i].1, h.dataSize).Some? {
          DescribedIsObject(tensors[i].0, tensors[i].1, h.dataSize);
        }
      }
    }
  }

  lemma {:induction false} LaidOutIsUnique(parse: Bytes -> Option<Value>, file: Bytes, h: Header)
    requires IsLaidOut(parse, file, h.pairs, h.dataSize)
    ensures Unique(Object(h.pairs)) && HeaderOf(parse, file) == Some(h)
  {
    HeaderIsRead(parse, file, h.pairs, h.dataSize);
    hide HeaderOf, Unique;
  }

  /** A file has a complete header exactly when it is a shard. */
  lemma {:induction false} ShardIsRead(parse: Bytes -> Option<Value>, file: Bytes, h: Header)
    ensures HeaderOf(parse, file) == Some(h) && Complete(h) <==> exists ranges :: IsShard(parse, file, h, ranges)
  {
    hide HeaderOf, Unique, Tiled, IsLaidOut, Tensors, Described, IsTensor;
    HeaderIsRead(parse, file, h.pairs, h.dataSize);
    if HeaderOf(parse, file) == Some(h) && Complete(h) {
      LaidOutIsUnique(parse, file, h);
      var ranges := Ranges(Tensors(h.pairs), h.dataSize);
      ShardRanges(h, ranges);
      assert IsShard(parse, file, h, ranges);
    }
    if ranges :| IsShard(parse, file, h, ranges) {
      LaidOutIsUnique(parse, file, h);
      ShardRanges(h, ranges);
    }
  }

  lemma {:induction false} ShardIsAccepted(parse: Bytes -> Option<Value>, file: Bytes)
    ensures HeaderOf(parse, file).Some? && Complete(HeaderOf(parse, file).value) <==>
            exists h, ranges :: IsShard(parse, file, h, ranges)
  {
    hide HeaderOf, Complete, IsShard;
    if HeaderOf(parse, file).Some? {
      ShardIsRead(parse, file, HeaderOf(parse, file).value);
    }
    if h, ranges :| IsShard(parse, file, h, ranges) {
      ShardIsRead(parse, file, h);
    }
  }

  lemma {:induction false} TensorsSnoc(pairs: seq<(string, Value)>, k: nat)
    requires k < |pairs|
    ensures Tensors(pairs[..k + 1])
         == Tensors(pairs[..k]) + (if pairs[k].0 == "__metadata__" then [] else [pairs[k]])
  {
    if k == 0 {
      assert pairs[..1][1..] == [];
    } else {
      assert pairs[..k + 1][1..] == pairs[1..][..k] && pairs[..k][1..] == pairs[1..][..k - 1];
      TensorsSnoc(pairs[1..], k - 1);
    }
  }

  lemma {:induction false} TensorsPrefix(pairs: seq<(string, Value)>, k: nat)
    requires k <= |pairs|
    ensures Tensors(pairs[..k]) <= Tensors(pairs)
    decreases |pairs| - k
  {
    if k == |pairs| {
      assert pairs[..k] == pairs;
    } else {
      TensorsSnoc(pairs, k);
      TensorsPrefix(pairs, k + 1);
    }
  }

  /**
   Reads one shard. The walk over the sorted ranges accepts exactly the complete
   shards, and names their tensors in header order.
   */
  method TensorInventory(parse: Bytes -> Option<Value>, file: Bytes) returns (r: Option<Inventory>)
    ensures r.Some? <==> HeaderOf(parse, file).Some? && Complete(HeaderOf(parse, file).value)
    ensures r.Some? ==>
              var h := HeaderOf(parse, file).value;
              r.value == Inventory(Names(Tensors(h.pairs)), h.dataSize)
    ensures r.Some? <==> exists h, ranges :: IsShard(parse, file, h, ranges)
  {
    ShardIsAccepted(parse, file);
    hide Described, Tiled, Tensors, IsShard;
    var h := HeaderOf(parse, file);
    if h.None? { return None; }
    var ranges, names := Describe(h.value);
    if ranges.None? { return None; }
    ChainedExactlyWhenTiled(ranges.value, h.value.dataSize);
    var chained := Walk(Sort(ranges.value), h.value.dataSize);
    if names == [] || !chained { return None; }
    r := Some(Inventory(names, h.value.dataSize));
  }

  // The loop over the header: one range and one name for each tensor.
  method Describe(h: Header) returns (ranges: Option<seq<Range>>, names: seq<string>)
    ensures ranges.Some? <==> AllDescribed(Tensors(h.pairs), h.dataSize)
    ensures ranges.Some? ==>
              ranges.value == Ranges(Tensors(h.pairs), h.dataSize) && names == Names(Tensors(h.pairs))
              && AllWithin(ranges.value, h.dataSize) && (names == [] <==> Tensors(h.pairs) == [])
  {
    hide Described, Tensors, Within;
    var rs: seq<Range> := [];
    names := [];
    TensorsOfNone(h.pairs);
    for k := 0 to |h.pairs|
      invariant AllDescribed(Tensors(h.pairs[..k]), h.dataSize)
      invariant rs == Ranges(Tensors(h.pairs[..k]), h.dataSize)
      invariant names == Names(Tensors(h.pairs[..k]))
    {
      var (name, tensor) := h.pairs[k];
      TensorsSnoc(h.pairs, k);
      if name != "__metadata__" {
        var range := Described(name, tensor, h.dataSize);
        if range.None? {
          TensorsPrefix(h.pairs, k + 1);
          assert Tensors(h.pairs)[|Tensors(h.pairs[..k])|] == (name, tensor);
          ranges := None;
          return;
        }
        rs := rs + [range.value];
        names := names + [name];
      }
    }
    assert h.pairs[..|h.pairs|] == h.pairs;
    ranges := Some(rs);
  }

  lemma TensorsOfNone(pairs: seq<(string, Value)>)
    ensures Tensors(pairs[..0]) == []
  {
  }

  // The cursor walk over sorted ranges.
  method Walk(sorted: seq<Range>, size: nat) returns (chained: bool)
    ensures chained <==> Chained(sorted, 0, size)
  {
    var cursor := 0;
    for k := 0 to |sorted|
      invariant Chained(sorted[k..], cursor, size) <==> Chained(sorted, 0, size)
    {
      assert sorted[k..][1..] == sorted[k + 1..];
      if sorted[k].start != cursor { return false; }
      cursor := sorted[k].end;
    }
    chained := cursor == size;
  }

  // The bytes that the shapes and types of some tensors call for.
  function Needed(tensors: seq<(string, Value)>): nat {
    if tensors == [] then 0
    else (match Needs(tensors[0].1) case Some(n) => n case None => 0) + Needed(tensors[1..])
  }

  lemma {:induction false} NeededIsLengths(tensors: seq<(string, Value)>, size: nat)
    requires AllDescribed(tensors, size)
    ensures Lengths(Ranges(tensors, size)) == Needed(tensors)
  {
    hide Described, Needs;
    if tensors != [] {
      assert Described(tensors[0].0, tensors[0].1, size).Some?;
      assert Ranges(tensors, size)[1..] == Ranges(tensors[1..], size);
      NeededIsLengths(tensors[1..], size);
    }
  }

  /** The data section of a complete shard is as long as all shape-times-width products together. */
  lemma DataSizeIsNeeded(h: Header)
    requires Complete(h)
    ensures h.dataSize == Needed(Tensors(h.pairs))
  {
    hide Tiled, Described, Tensors;
    var tensors := Tensors(h.pairs);
    NeededIsLengths(tensors, h.dataSize);
    TiledLengths(Ranges(tensors, h.dataSize), h.dataSize);
  }

  lemma {:induction false} NamesAreDistinct(pairs: seq<(string, Value)>)
    requires DistinctKeys(pairs)
    ensures DistinctKeys(Tensors(pairs))
    ensures forall i :: 0 <= i < |Tensors(pairs)| ==> Tensors(pairs)[i] in pairs
  {
    if pairs != [] {
      NamesAreDistinct(pairs[1..]);
      var rest := Tensors(pairs[1..]);
      forall j | 0 <= j < |rest| ensures rest[j].0 != pairs[0].0 && rest[j] in pairs {
        assert rest[j] in pairs[1..];
        var k :| 0 <= k < |pairs[1..]| && pairs[1..][k] == rest[j];
        assert pairs[k + 1] == rest[j];
      }
    }
  }

  // -------------------------------------------------------------- the index

  datatype Shard = Shard(name: string, file: Bytes)

  datatype Index = Index(totalSize: nat, weightMap: map<string, string>)

  // What the snapshot offers: its weight files, and the JSON parser and SHA-256 it is read with.
  datatype Reading = Reading(parse: Bytes -> Option<Value>, sha256: Bytes -> string)

  predicate HexDigest(expected: string) {
    |expected| == 64 && forall i :: 0 <= i < 64 ==> '0' <= expected[i] <= '9' || 'a' <= expected[i] <= 'f'
  }

  ghost predicate Readable(w: Reading, shard: Shard) {
    HeaderOf(w.parse, shard.file).Some? && Complete(HeaderOf(w.parse, shard.file).value)
  }

  // The names of the tensors in a shard.
  function NamesOf(w: Reading, shard: Shard): seq<string> {
    match HeaderOf(w.parse, shard.file)
    case None => []
    case Some(h) => Names(Tensors(h.pairs))
  }

  function SizeOf(w: Reading, shard: Shard): nat {
    match HeaderOf(w.parse, shard.file)
    case None => 0
    case Some(h) => Needed(Tensors(h.pairs))
  }

  function TotalSize(w: Reading, shards: seq<Shard>): nat {
    if shards == [] then 0 else TotalSize(w, shards[..|shards| - 1]) + SizeOf(w, shards[|shards| - 1])
  }

  // The expected digests name a shard's own bytes.
  predicate Verified(w: Reading, shard: Shard, expected: map<string, string>) {
    shard.name in expected && HexDigest(expected[shard.name]) && w.sha256(shard.file) == expected[shard.name]
  }

  predicate Separate(w: Reading, a: Shard, b: Shard) {
    forall i, j :: 0 <= i < |NamesOf(w, a)| && 0 <= j < |NamesOf(w, b)| ==> NamesOf(w, a)[i] != NamesOf(w, b)[j]
  }

  // No two shards hold a tensor of the same name.
  predicate AllSeparate(w: Reading, shards: seq<Shard>) {
    forall i, j :: 0 <= i < j < |shards| ==> Separate(w, shards[i], shards[j])
  }

  // The map sends every tensor of every shard to that shard, and nothing else anywhere.
  ghost predicate Indexes(w: Reading, shards: seq<Shard>, weightMap: map<string, string>) {
    (forall i, j :: 0 <= i < |shards| && 0 <= j < |NamesOf(w, shards[i])| ==>
       NamesOf(w, shards[i])[j] in weightMap && weightMap[NamesOf(w, shards[i])[j]] == shards[i].name)
    && forall name :: name in weightMap ==> InSome(w, shards, name)
  }

  predicate InSome(w: Reading, shards: seq<Shard>, name: string) {
    exists i :: 0 <= i < |shards| && name in NamesOf(w, shards[i])
  }

  function ShardNames(shards: seq<Shard>): set<string> {
    set i | 0 <= i < |shards| :: shards[i].name
  }

  /** The snapshots that get an index. */
  ghost predicate Acceptable(w: Reading, shards: seq<Shard>, expected: map<string, string>) {
    shards != [] && ShardNames(shards) == expected.Keys && AllGood(w, shards, expected) && AllSeparate(w, shards)
  }

  ghost predicate AllGood(w: Reading, shards: seq<Shard>, expected: map<string, string>) {
    forall i :: 0 <= i < |shards| ==> Verified(w, shards[i], expected) && Readable(w, shards[i])
  }

  function Entries(names: seq<string>, shard: string): map<string, string> {
    map n | n in names :: shard
  }

  lemma FileOne(inventory: map<string, string>, names: seq<string>, k: nat, shard: string)
    requires k < |names| && forall i :: 0 <= i < k ==> names[i] != names[k]
    ensures var filed := inventory + Entries(names[..k], shard);
            filed[names[k] := shard] == inventory + Entries(names[..k + 1], shard)
            && (names[k] in filed <==> names[k] in inventory)
  {
    var filed := inventory + Entries(names[..k], shard);
    assert names[..k + 1] == names[..k] + [names[k]];
    assert names[k] !in names[..k];
    assert filed[names[k] := shard] == inventory + Entries(names[..k + 1], shard);
  }

  lemma FileNone(inventory: map<string, string>, names: seq<string>, shard: string)
    ensures inventory == inventory + Entries(names[..0], shard)
  {
  }

  /** Files the names of one shard; a name that is already filed stops it. */
  method File(inventory: map<string, string>, names: seq<string>, shard: string)
    returns (r: Option<map<string, string>>)
    requires forall i, j :: 0 <= i < j < |names| ==> names[i] != names[j]
    ensures r.Some? <==> forall i :: 0 <= i < |names| ==> names[i] !in inventory
    ensures r.Some? ==> r.value == inventory + Entries(names, shard)
  {
    var filed := inventory;
    FileNone(inventory, names, shard);
    hide Entries;
    for k := 0 to |names|
      invariant filed == inventory + Entries(names[..k], shard)
      invariant forall i :: 0 <= i < k ==> names[i] !in inventory
    {
      FileOne(inventory, names, k, shard);
      if names[k] in filed { return None; }
      filed := filed[names[k] := shard];
    }
    assert names[..|names|] == names;
    r := Some(filed);
  }

  lemma NamesInFileAreDistinct(w: Reading, shard: Shard)
    ensures forall i, j :: 0 <= i < j < |NamesOf(w, shard)| ==> NamesOf(w, shard)[i] != NamesOf(w, shard)[j]
  {
    var h := HeaderOf(w.parse, shard.file);
    if h.Some? {
      hide HeaderOf;
      NamesAreDistinct(h.value.pairs);
    }
  }

  predicate Unfiled(w: Reading, shard: Shard, filed: map<string, string>) {
    forall i :: 0 <= i < |NamesOf(w, shard)| ==> NamesOf(w, shard)[i] !in filed
  }

  lemma FiledIsShared(w: Reading, shards: seq<Shard>, k: nat, filed: map<string, string>)
    requires k < |shards| && Indexes(w, shards[..k], filed) && !Unfiled(w, shards[k], filed)
    ensures !AllSeparate(w, shards[..k + 1])
  {
    hide NamesOf;
    var names, longer := NamesOf(w, shards[k]), shards[..k + 1];
    var i :| 0 <= i < |names| && names[i] in filed;
    assert InSome(w, shards[..k], names[i]);
    var s :| 0 <= s < k && names[i] in NamesOf(w, shards[..k][s]);
    var j :| 0 <= j < |NamesOf(w, shards[s])| && NamesOf(w, shards[s])[j] == names[i];
    assert longer[s] == shards[s] && longer[k] == shards[k];
    assert !Separate(w, longer[s], longer[k]);
  }

  lemma UnfiledIsSeparate(w: Reading, shards: seq<Shard>, k: nat, filed: map<string, string>)
    requires k < |shards| && Indexes(w, shards[..k], filed) && AllSeparate(w, shards[..k])
    requires Unfiled(w, shards[k], filed)
    ensures AllSeparate(w, shards[..k + 1])
  {
    hide NamesOf;
    var shorter, longer := shards[..k], shards[..k + 1];
    forall i, j | 0 <= i < j < |longer| ensures Separate(w, longer[i], longer[j]) {
      assert longer[i] == shorter[i];
      if j < k {
        assert longer[j] == shorter[j];
      }
    }
  }

  lemma IndexesMore(w: Reading, shards: seq<Shard>, k: nat, filed: map<string, string>)
    requires k < |shards| && Indexes(w, shards[..k], filed) && Unfiled(w, shards[k], filed)
    ensures Indexes(w, shards[..k + 1], filed + Entries(NamesOf(w, shards[k]), shards[k].name))
  {
    hide NamesOf;
    var names, shorter, longer := NamesOf(w, shards[k]), shards[..k], shards[..k + 1];
    var more := filed + Entries(names, shards[k].name);
    forall i, j | 0 <= i < |longer| && 0 <= j < |NamesOf(w, longer[i])|
      ensures NamesOf(w, longer[i])[j] in more && more[NamesOf(w, longer[i])[j]] == longer[i].name
    {
      if i < k {
        assert longer[i] == shorter[i] && NamesOf(w, shorter[i])[j] in filed;
      }
    }
    forall name | name in more ensures InSome(w, longer, name) {
      if name in names {
        assert name in NamesOf(w, longer[k]);
      } else {
        assert InSome(w, shorter, name);
        var s :| 0 <= s < k && name in NamesOf(w, shorter[s]);
        assert name in NamesOf(w, longer[s]);
      }
    }
  }

  // A further shard can be filed exactly when it shares no tensor with those before it.
  lemma IndexesStep(w: Reading, shards: seq<Shard>, k: nat, filed: map<string, string>)
    requires k < |shards| && Indexes(w, shards[..k], filed) && AllSeparate(w, shards[..k])
    ensures Unfiled(w, shards[k], filed) <==> AllSeparate(w, shards[..k + 1])
    ensures Unfiled(w, shards[k], filed) ==>
              Indexes(w, shards[..k + 1], filed + Entries(NamesOf(w, shards[k]), shards[k].name))
  {
    hide *;
    if Unfiled(w, shards[k], filed) {
      UnfiledIsSeparate(w, shards, k, filed);
      IndexesMore(w, shards, k, filed);
    } else {
      FiledIsShared(w, shards, k, filed);
    }
  }

  lemma SeparatePrefix(w: Reading, shards: seq<Shard>, k: nat)
    requires k <= |shards| && !AllSeparate(w, shards[..k])
    ensures !AllSeparate(w, shards)
  {
    hide Separate;
    var i, j :| 0 <= i < j < k && !Separate(w, shards[..k][i], shards[..k][j]);
    assert !Separate(w, shards[i], shards[j]);
  }

  /**
   The inventory loop: the index exists exactly for acceptable snapshots, sends
   each tensor to the one shard that holds it, and its total is the sum of all
   shape-times-width products.
   */
  method Reindex(w: Reading, shards: seq<Shard>, expected: map<string, string>) returns (r: Option<Index>)
    ensures r.Some? <==> Acceptable(w, shards, expected)
    ensures r.Some? ==> Indexes(w, shards, r.value.weightMap) && r.value.totalSize == TotalSize(w, shards)
  {
    hide Complete, HeaderOf, HexDigest, Indexes, AllSeparate, Names, Tensors, Needed, Entries, Unique;
    if shards == [] || ShardNames(shards) != expected.Keys { return None; }
    var filed: map<string, string> := map[];
    var total := 0;
    StartIndex(w, shards);
    for k := 0 to |shards|
      invariant AllGood(w, shards[..k], expected) && AllSeparate(w, shards[..k])
      invariant Indexes(w, shards[..k], filed) && total == TotalSize(w, shards[..k])
    {
      var shard := shards[k];
      assert shard.name in ShardNames(shards);
      if !HexDigest(expected[shard.name]) || w.sha256(shard.file) != expected[shard.name] { return None; }
      var inventory := TensorInventory(w.parse, shard.file);
      if inventory.None? { return None; }
      DataSizeIsNeeded(HeaderOf(w.parse, shard.file).value);
      NamesInFileAreDistinct(w, shard);
      IndexesStep(w, shards, k, filed);
      var more := File(filed, inventory.value.names, shard.name);
      if more.None? {
        SeparatePrefix(w, shards, k + 1);
        return None;
      }
      filed := more.value;
      total := total + inventory.value.dataSize;
      assert shards[..k + 1][..k] == shards[..k];
    }
    assert shards[..|shards|] == shards;
    r := Some(Index(total, filed));
  }

  lemma StartIndex(w: Reading, shards: seq<Shard>)
    ensures AllSeparate(w, shards[..0]) && Indexes(w, shards[..0], map[])
  {
  }

  /** In an index of separate shards, no tensor has a second shard to go to. */
  lemma OneShardPerTensor(w: Reading, shards: seq<Shard>, i: nat, j: nat, name: string)
    requires AllSeparate(w, shards) && i < |shards| && j < |shards|
    requires name in NamesOf(w, shards[i]) && name in NamesOf(w, shards[j])
    ensures i == j
  {
    hide NamesOf;
    var a :| 0 <= a < |NamesOf(w, shards[i])| && NamesOf(w, shards[i])[a] == name;
    var b :| 0 <= b < |NamesOf(w, shards[j])| && NamesOf(w, shards[j])[b] == name;
    assert !Separate(w, shards[i], shards[j]) && !Separate(w, shards[j], shards[i]);
  }
}
