/**
 Tensor sizes from the gaps between sorted data offsets, grouped by layer and by
 class, with the saturating sums of the source.
 */
module TensorSizes {
  import opened Outcomes
  import opened Strings
  import Sorting

  // ----------------------------------------------------------- saturation

  const U64_MAX: nat := 0xFFFF_FFFF_FFFF_FFFF

  type U64 = n: nat | n <= U64_MAX

  function Cap(n: nat): U64 { if n <= U64_MAX then n else U64_MAX }

  /** Saturating addition. */
  function Plus(a: U64, b: U64): (r: U64)
    ensures r == Cap(a + b)
  {
    if a + b <= U64_MAX then a + b else U64_MAX
  }

  // ------------------------------------------------------- classification

  datatype LayerPart = Experts | DenseFfn | OtherPart

  datatype TensorClass = Input | TokenEmbd | Output | Layer(il: nat, part: LayerPart)

  const MAX_MODEL_LAYERS: nat := 4096

  const EXPERTS: seq<string> :=
    [".ffn_up_exps", ".ffn_down_exps", ".ffn_gate_exps", ".ffn_gate_up_exps",
     ".ffn_up_chexps", ".ffn_down_chexps", ".ffn_gate_chexps", ".ffn_gate_up_chexps"]

  const DENSE: seq<string> := [".ffn_up.", ".ffn_down.", ".ffn_gate."]

  const INPUT_BASES: seq<string> :=
    ["token_embd", "position_embd", "token_types", "per_layer_token_embd",
     "masked_embd_centroids", "masked_embd_ordering"]

  predicate StartsWithAny(s: string, prefixes: seq<string>) {
    exists k :: 0 <= k < |prefixes| && prefixes[k] <= s
  }

  function LayerOf(name: string): Option<(nat, string)> {
    match StripPrefix(name, "blk.")
    case None => None
    case Some(rest) =>
      var digits := Before(rest, '.');
      match ParseUnsigned(digits)
      case None => None
      case Some(il) => if il < MAX_MODEL_LAYERS then Some((il, rest[|digits|..])) else None
  }

  function Classify(name: string): (c: TensorClass)
    ensures c.Layer? ==> c.il < MAX_MODEL_LAYERS
  {
    match LayerOf(name)
    case Some((il, tail)) =>
      if StartsWithAny(tail, EXPERTS) then Layer(il, Experts)
      else if StartsWithAny(tail, DENSE) then Layer(il, DenseFfn)
      else Layer(il, OtherPart)
    case None =>
      if name == "token_embd.weight" then TokenEmbd
      else if Before(name, '.') in INPUT_BASES || "hrm.z_l_init" <= name then Input
      else Output
  }

  const PLE_NAME: string := "per_layer_token_embd.weight"

  lemma InputByBase(base: string, rest: string)
    requires '.' !in base && base in INPUT_BASES && base != "" && base[0] != 'b'
    requires base + "." + rest != "token_embd.weight"
    ensures Classify(base + "." + rest) == Input
  {
    BeforeAt(base, '.', rest);
    var name := base + "." + rest;
    assert name[0] == base[0];
  }

  /** The per-layer embedding table is one of the input tensors. */
  lemma PleIsInput()
    ensures Classify(PLE_NAME) == Input
  {
    var base := "per_layer_token_embd";
    assert INPUT_BASES[3] == base;
    assert '.' !in base;
    assert base + "." + "weight" == PLE_NAME;
    assert |PLE_NAME| == 27 && |"token_embd.weight"| == 17;
    InputByBase(base, "weight");
  }

  // ----------------------------------------------------------------- sizes

  datatype LayerBytes = LayerBytes(experts: U64, denseFfn: U64, other: U64)

  const NO_LAYER: LayerBytes := LayerBytes(0, 0, 0)

  datatype TensorBytes = TensorBytes(
    input: U64,
    perLayerTokenEmbd: U64,
    tokenEmbd: U64,
    output: U64,
    layers: seq<LayerBytes>,
    hasOutputWeight: bool,
    vocab: Option<nat>
  )

  function LayerTotal(l: LayerBytes): U64 { Plus(Plus(l.experts, l.denseFfn), l.other) }

  function FoldLayers(sum: U64, layers: seq<LayerBytes>): U64
    decreases |layers|
  {
    if layers == [] then sum else FoldLayers(Plus(sum, LayerTotal(layers[0])), layers[1..])
  }

  function Total(t: TensorBytes): U64 {
    Plus(FoldLayers(Plus(t.input, t.tokenEmbd), t.layers), t.output)
  }

  // The same sums without a bound.
  function LayersSum(layers: seq<LayerBytes>): nat {
    if layers == [] then 0
    else layers[0].experts + layers[0].denseFfn + layers[0].other + LayersSum(layers[1..])
  }

  function Sum(t: TensorBytes): nat {
    t.input + t.tokenEmbd + LayersSum(t.layers) + t.output
  }

  lemma {:induction false} FoldIsCapped(sum: U64, layers: seq<LayerBytes>)
    ensures FoldLayers(sum, layers) == Cap(sum + LayersSum(layers))
    decreases |layers|
  {
    if layers != [] {
      FoldIsCapped(Plus(sum, LayerTotal(layers[0])), layers[1..]);
    }
  }

  /** The reported total is the true sum of all classes, capped once. */
  lemma TotalIsCapped(t: TensorBytes)
    ensures Total(t) == Cap(Sum(t))
  {
    FoldIsCapped(Plus(t.input, t.tokenEmbd), t.layers);
  }

  // ---------------------------------------------------------------- absorb

  function AddLayer(a: LayerBytes, b: LayerBytes): LayerBytes {
    LayerBytes(Plus(a.experts, b.experts), Plus(a.denseFfn, b.denseFfn), Plus(a.other, b.other))
  }

  function MergeLayers(a: seq<LayerBytes>, b: seq<LayerBytes>): (r: seq<LayerBytes>)
    ensures |r| == if |a| < |b| then |b| else |a|
  {
    if a == [] then b
    else if b == [] then a
    else [AddLayer(a[0], b[0])] + MergeLayers(a[1..], b[1..])
  }

  /** Adding the tensors of another shard. */
  function Absorbed(a: TensorBytes, b: TensorBytes): TensorBytes {
    TensorBytes(
      Plus(a.input, b.input), Plus(a.perLayerTokenEmbd, b.perLayerTokenEmbd),
      Plus(a.tokenEmbd, b.tokenEmbd), Plus(a.output, b.output),
      MergeLayers(a.layers, b.layers),
      a.hasOutputWeight || b.hasOutputWeight,
      if a.vocab.Some? then a.vocab else b.vocab)
  }

  lemma {:induction false} MergeLayersAt(a: seq<LayerBytes>, b: seq<LayerBytes>, k: nat)
    requires k < |MergeLayers(a, b)|
    ensures MergeLayers(a, b)[k] ==
            if k < |a| && k < |b| then AddLayer(a[k], b[k]) else if k < |a| then a[k] else b[k]
  {
    if a != [] && b != [] && k > 0 {
      MergeLayersAt(a[1..], b[1..], k - 1);
    }
  }

  /** The shard loop of the source: pad the shorter list, then add in place. */
  method Absorb(mine: TensorBytes, other: TensorBytes) returns (r: TensorBytes)
    ensures r == Absorbed(mine, other)
  {
    var layers := mine.layers;
    while |layers| < |other.layers|
      invariant |mine.layers| <= |layers|
      invariant |layers| <= |other.layers| || layers == mine.layers
      invariant forall k :: 0 <= k < |layers| ==> layers[k] == if k < |mine.layers| then mine.layers[k] else NO_LAYER
    {
      layers := layers + [NO_LAYER];
    }
    for i := 0 to |other.layers|
      invariant |layers| == |MergeLayers(mine.layers, other.layers)|
      invariant forall k :: 0 <= k < i ==> layers[k] == MergeLayers(mine.layers, other.layers)[k]
      invariant forall k :: i <= k < |layers| ==> layers[k] == if k < |mine.layers| then mine.layers[k] else NO_LAYER
    {
      MergeLayersAt(mine.layers, other.layers, i);
      layers := layers[i := AddLayer(layers[i], other.layers[i])];
    }
    forall k | |other.layers| <= k < |layers|
      ensures layers[k] == MergeLayers(mine.layers, other.layers)[k]
    {
      MergeLayersAt(mine.layers, other.layers, k);
    }
    assert layers == MergeLayers(mine.layers, other.layers);
    r := TensorBytes(
      Plus(mine.input, other.input), Plus(mine.perLayerTokenEmbd, other.perLayerTokenEmbd),
      Plus(mine.tokenEmbd, other.tokenEmbd), Plus(mine.output, other.output), layers,
      mine.hasOutputWeight || other.hasOutputWeight,
      if mine.vocab.Some? then mine.vocab else other.vocab);
  }

  lemma CapSums(a: nat, b: nat, c: nat, d: nat)
    requires Cap(a) == Cap(b) && Cap(c) == Cap(d)
    ensures Cap(a + c) == Cap(b + d)
  {
  }

  lemma AddLayerSum(a: LayerBytes, b: LayerBytes)
    ensures var l := AddLayer(a, b);
            Cap(l.experts + l.denseFfn + l.other)
            == Cap((a.experts + a.denseFfn + a.other) + (b.experts + b.denseFfn + b.other))
  {
  }

  lemma {:induction false} MergeLayersSum(a: seq<LayerBytes>, b: seq<LayerBytes>)
    ensures Cap(LayersSum(MergeLayers(a, b))) == Cap(LayersSum(a) + LayersSum(b))
  {
    if a != [] && b != [] {
      MergeLayersSum(a[1..], b[1..]);
      AddLayerSum(a[0], b[0]);
      var l := AddLayer(a[0], b[0]);
      CapSums(l.experts + l.denseFfn + l.other,
              (a[0].experts + a[0].denseFfn + a[0].other) + (b[0].experts + b[0].denseFfn + b[0].other),
              LayersSum(MergeLayers(a[1..], b[1..])), LayersSum(a[1..]) + LayersSum(b[1..]));
    }
  }

  lemma CapOfSum(i: U64, t: U64, l: nat, o: U64, i': nat, t': nat, l': nat, o': nat)
    requires i == Cap(i') && t == Cap(t') && Cap(l) == Cap(l') && o == Cap(o')
    ensures Cap(i + t + l + o) == Cap(i' + t' + l' + o')
  {
    CapSums(i, i', t, t');
    CapSums(i + t, i' + t', l, l');
    CapSums(i + t + l, i' + t' + l', o, o');
  }

  lemma SumOfAbsorbed(a: TensorBytes, b: TensorBytes)
    ensures Cap(Sum(Absorbed(a, b))) == Cap(Sum(a) + Sum(b))
  {
    MergeLayersSum(a.layers, b.layers);
    hide LayersSum, MergeLayers;
    CapOfSum(Plus(a.input, b.input), Plus(a.tokenEmbd, b.tokenEmbd),
             LayersSum(MergeLayers(a.layers, b.layers)), Plus(a.output, b.output),
             a.input + b.input, a.tokenEmbd + b.tokenEmbd,
             LayersSum(a.layers) + LayersSum(b.layers), a.output + b.output);
  }

  /** Absorbing a shard adds its total exactly, saturation included. */
  lemma AbsorbTotal(a: TensorBytes, b: TensorBytes)
    ensures Total(Absorbed(a, b)) == Plus(Total(a), Total(b))
  {
    TotalIsCapped(a);
    TotalIsCapped(b);
    TotalIsCapped(Absorbed(a, b));
    SumOfAbsorbed(a, b);
    PlusOfCaps(Sum(a), Sum(b));
  }

  lemma PlusOfCaps(x: nat, y: nat)
    ensures Plus(Cap(x), Cap(y)) == Cap(x + y)
  {
  }

  lemma {:induction false} MergeLayersAssociative(a: seq<LayerBytes>, b: seq<LayerBytes>, c: seq<LayerBytes>)
    ensures MergeLayers(MergeLayers(a, b), c) == MergeLayers(a, MergeLayers(b, c))
  {
    if a != [] && b != [] && c != [] {
      MergeLayersAssociative(a[1..], b[1..], c[1..]);
      assert AddLayer(AddLayer(a[0], b[0]), c[0]) == AddLayer(a[0], AddLayer(b[0], c[0]));
      assert MergeLayers(a, b)[1..] == MergeLayers(a[1..], b[1..]);
      assert MergeLayers(b, c)[1..] == MergeLayers(b[1..], c[1..]);
    }
  }

  lemma {:induction false} MergeLayersCommutative(a: seq<LayerBytes>, b: seq<LayerBytes>)
    ensures MergeLayers(a, b) == MergeLayers(b, a)
  {
    if a != [] && b != [] {
      MergeLayersCommutative(a[1..], b[1..]);
      assert AddLayer(a[0], b[0]) == AddLayer(b[0], a[0]);
    }
  }

  // The byte counts alone: everything but the first vocabulary seen.
  function Counts(t: TensorBytes): TensorBytes { t.(vocab := None) }

  /** Grouping shards differently changes nothing; reordering keeps all counts. */
  lemma AbsorbGroupsAndReorders(a: TensorBytes, b: TensorBytes, c: TensorBytes)
    ensures Absorbed(Absorbed(a, b), c) == Absorbed(a, Absorbed(b, c))
    ensures Counts(Absorbed(a, b)) == Counts(Absorbed(b, a))
    ensures Counts(Absorbed(a, b)) == Absorbed(Counts(a), Counts(b))
  {
    MergeLayersAssociative(a.layers, b.layers, c.layers);
    MergeLayersCommutative(a.layers, b.layers);
  }

  /** The sizes of a sharded model: each further shard is absorbed in turn. */
  function AbsorbAll(first: TensorBytes, rest: seq<TensorBytes>): TensorBytes
    decreases |rest|
  {
    if rest == [] then first else AbsorbAll(Absorbed(first, rest[0]), rest[1..])
  }

  lemma {:induction false} AbsorbAllPullsOut(first: TensorBytes, rest: seq<TensorBytes>, k: nat)
    requires k < |rest|
    ensures Counts(AbsorbAll(first, rest)) == Counts(AbsorbAll(Absorbed(first, rest[k]), rest[..k] + rest[k + 1..]))
    decreases |rest|
  {
    var others := rest[..k] + rest[k + 1..];
    if k == 0 {
      assert others == rest[1..];
    } else {
      assert others[0] == rest[0] && others[1..] == rest[1..][..k - 1] + rest[1..][k..];
      AbsorbAllPullsOut(Absorbed(first, rest[0]), rest[1..], k - 1);
      var x, y := rest[0], rest[k];
      AbsorbGroupsAndReorders(first, x, y);
      AbsorbGroupsAndReorders(first, y, x);
      AbsorbGroupsAndReorders(x, y, first);
      AbsorbGroupsAndReorders(first, Absorbed(x, y), x);
      AbsorbGroupsAndReorders(first, Absorbed(y, x), x);
      CountsAbsorbAll(Absorbed(Absorbed(first, x), y), Absorbed(Absorbed(first, y), x), others[1..]);
    }
  }

  lemma {:induction false} CountsAbsorbAll(a: TensorBytes, b: TensorBytes, rest: seq<TensorBytes>)
    requires Counts(a) == Counts(b)
    ensures Counts(AbsorbAll(a, rest)) == Counts(AbsorbAll(b, rest))
    decreases |rest|
  {
    if rest != [] {
      AbsorbGroupsAndReorders(a, rest[0], a);
      AbsorbGroupsAndReorders(b, rest[0], b);
      CountsAbsorbAll(Absorbed(a, rest[0]), Absorbed(b, rest[0]), rest[1..]);
    }
  }

  lemma RemoveOne<T>(a: seq<T>, b: seq<T>, k: nat)
    requires a != [] && k < |b| && b[k] == a[0] && multiset(a) == multiset(b)
    ensures multiset(b[..k] + b[k + 1..]) == multiset(a[1..])
  {
    Sorting.Without(b, k);
    assert multiset(a[1..]) == multiset(a) - multiset{a[0]} by {
      Sorting.Without(a, 0);
      assert a[..0] + a[1..] == a[1..];
    }
  }

  /** Whatever order the shards are read in, all byte counts come out the same. */
  lemma {:induction false} ShardOrderIsIrrelevant(first: TensorBytes, a: seq<TensorBytes>, b: seq<TensorBytes>)
    requires multiset(a) == multiset(b)
    ensures Counts(AbsorbAll(first, a)) == Counts(AbsorbAll(first, b))
    decreases |a|
  {
    assert |a| == |multiset(a)| == |multiset(b)| == |b|;
    if a != [] {
      assert a[0] in multiset(b);
      var k :| 0 <= k < |b| && b[k] == a[0];
      AbsorbAllPullsOut(first, b, k);
      RemoveOne(a, b, k);
      ShardOrderIsIrrelevant(Absorbed(first, a[0]), a[1..], b[..k] + b[k + 1..]);
    }
  }
}
