/**
 Which bucket a tensor's bytes count in, read off the text of its name: an account
 of the classification that does not follow its steps.
 */
module TensorNames {
  import opened Outcomes
  import opened Strings
  import opened Decimals
  import opened TensorSizes
  import opened TensorTable

  // ------------------------------------------------------------ what names say

  predicate SomeStarts(starts: set<string>, s: string) {
    exists p :: p in starts && p <= s
  }

  /** Names of repeating tensors: "blk.", a spelling of the layer below 4096, then nothing or a dot. */
  ghost predicate InLayer(name: string, il: nat, tail: string) {
    il < 4096 && (tail == "" || tail[0] == '.')
    && exists spelled :: Spells(spelled, il) && name == "blk." + spelled + tail
  }

  ghost predicate Repeating(name: string) {
    exists il, tail :: InLayer(name, il, tail)
  }

  predicate OfExperts(tail: string) {
    SomeStarts({".ffn_up_exps", ".ffn_down_exps", ".ffn_gate_exps", ".ffn_gate_up_exps",
                ".ffn_up_chexps", ".ffn_down_chexps", ".ffn_gate_chexps", ".ffn_gate_up_chexps"}, tail)
  }

  predicate OfDense(tail: string) {
    SomeStarts({".ffn_up.", ".ffn_down.", ".ffn_gate."}, tail)
  }

  predicate OfPart(tail: string, part: LayerPart) {
    match part
    case Experts => OfExperts(tail)
    case DenseFfn => OfDense(tail)
    case OtherPart => !OfExperts(tail) && !OfDense(tail)
  }

  predicate IsBase(base: string) {
    base in {"token_embd", "position_embd", "token_types", "per_layer_token_embd",
             "masked_embd_centroids", "masked_embd_ordering"}
  }

  // The input tables, by the part of their names before the first dot.
  ghost predicate NamesInput(name: string) {
    "hrm.z_l_init" <= name
    || exists base :: IsBase(base) && (name == base || base + "." <= name)
  }

  /** The bucket a name belongs to. */
  ghost predicate Belongs(name: string, k: Bucket) {
    match k
    case InputBytes => !Repeating(name) && name != "token_embd.weight" && NamesInput(name)
    case PleBytes => name == "per_layer_token_embd.weight"
    case TokenBytes => name == "token_embd.weight"
    case OutputBytes => !Repeating(name) && name != "token_embd.weight" && !NamesInput(name)
    case LayerBytesOf(il, part) => exists tail :: InLayer(name, il, tail) && OfPart(tail, part)
  }

  // --------------------------------------------------------------- the layer

  lemma {:induction false} SpellingHoldsNoDot(spelled: string, n: nat)
    requires Spells(spelled, n)
    ensures '.' !in spelled && spelled != ""
  {
    hide Decimal, Zeros, Padding, Digits;
    ParsesSpellings(spelled, n);
    forall i | 0 <= i < |spelled| ensures spelled[i] != '.' {
      if spelled[0] == '+' && i > 0 {
        assert spelled[1..][i - 1] == spelled[i] && IsDigit(spelled[1..][i - 1]);
      }
    }
  }

  lemma {:induction false} BeforeDot(spelled: string, tail: string)
    requires '.' !in spelled && (tail == "" || tail[0] == '.')
    ensures Before(spelled + tail, '.') == spelled
  {
    if tail == "" {
      BeforeAll(spelled, '.');
      assert spelled + tail == spelled;
    } else {
      BeforeAt(spelled, '.', tail[1..]);
      assert spelled + ['.'] + tail[1..] == spelled + tail;
    }
  }

  lemma {:induction false} BeforeAll(s: string, c: char)
    requires c !in s
    ensures Before(s, c) == s
  {
    if s != "" {
      BeforeAll(s[1..], c);
    }
  }

  /** The layer and the tail read off a name are those it was put together from. */
  lemma {:induction false} LayerIsRead(name: string, il: nat, tail: string)
    ensures LayerOf(name) == Some((il, tail)) <==> InLayer(name, il, tail)
  {
    hide Spells, ParseUnsigned, Before;
    if InLayer(name, il, tail) {
      var spelled :| Spells(spelled, il) && name == "blk." + spelled + tail;
      assert name[4..] == spelled + tail;
      SpellingHoldsNoDot(spelled, il);
      BeforeDot(spelled, tail);
      ParsesSpellings(spelled, il);
    }
    if LayerOf(name) == Some((il, tail)) {
      var rest := name[4..];
      var spelled := Before(rest, '.');
      ParsesSpellings(spelled, il);
      assert name == "blk." + rest && rest == spelled + tail;
    }
  }

  lemma {:induction false} RepeatingIsRead(name: string)
    ensures LayerOf(name).Some? <==> Repeating(name)
  {
    hide LayerOf, InLayer;
    if LayerOf(name).Some? {
      var (il, tail) := LayerOf(name).value;
      LayerIsRead(name, il, tail);
    }
    if Repeating(name) {
      var il, tail :| InLayer(name, il, tail);
      LayerIsRead(name, il, tail);
    }
  }

  // ----------------------------------------------------------------- the part

  lemma ExpertsAreListed(tail: string)
    ensures StartsWithAny(tail, EXPERTS) <==> OfExperts(tail)
  {
    if OfExperts(tail) {
      assert EXPERTS[0] <= tail || EXPERTS[1] <= tail || EXPERTS[2] <= tail || EXPERTS[3] <= tail
             || EXPERTS[4] <= tail || EXPERTS[5] <= tail || EXPERTS[6] <= tail || EXPERTS[7] <= tail;
    }
  }

  lemma DenseAreListed(tail: string)
    ensures StartsWithAny(tail, DENSE) <==> OfDense(tail)
  {
    if OfDense(tail) {
      assert DENSE[0] <= tail || DENSE[1] <= tail || DENSE[2] <= tail;
    }
  }

  lemma ExpertsGoOn(tail: string)
    requires OfExperts(tail)
    ensures |tail| > 9 && tail[if tail[5] == 'u' then 7 else 9] == '_'
  {
  }

  lemma DenseEnd(tail: string)
    requires OfDense(tail)
    ensures |tail| > 7 && (if tail[5] == 'u' then tail[7] == '.' else |tail| > 9 && tail[9] == '.')
  {
  }

  // No tail starts like the tensors of both kinds.
  lemma NotBoth(tail: string)
    ensures !(OfExperts(tail) && OfDense(tail))
  {
    hide OfExperts, OfDense;
    if OfExperts(tail) && OfDense(tail) {
      ExpertsGoOn(tail);
      DenseEnd(tail);
    }
  }

  // ------------------------------------------------------------- the others

  lemma {:induction false} BaseIsBefore(name: string, base: string)
    requires '.' !in base
    ensures Before(name, '.') == base <==> name == base || base + "." <= name
  {
    if name == base {
      BeforeAll(name, '.');
    } else if base + "." <= name {
      BeforeAt(base, '.', name[|base| + 1..]);
      assert base + ['.'] + name[|base| + 1..] == name;
    }
  }

  lemma BasesAreListed(base: string)
    ensures base in INPUT_BASES <==> IsBase(base)
  {
    var l := INPUT_BASES;
    if base == l[0] || base == l[1] || base == l[2] || base == l[3] || base == l[4] || base == l[5] {
      assert base in l;
    }
  }

  lemma BaseIsPlain(base: string)
    requires IsBase(base)
    ensures '.' !in base
  {
  }

  lemma {:induction false} InputsAreListed(name: string)
    ensures Before(name, '.') in INPUT_BASES || "hrm.z_l_init" <= name <==> NamesInput(name)
  {
    hide Before, IsBase;
    var first := Before(name, '.');
    BasesAreListed(first);
    if IsBase(first) {
      BaseIsPlain(first);
      BaseIsBefore(name, first);
    }
    if base :| IsBase(base) && (name == base || base + "." <= name) {
      BaseIsPlain(base);
      BaseIsBefore(name, base);
    }
  }

  lemma NotRepeating(name: string)
    requires name == "token_embd.weight" || name == "per_layer_token_embd.weight"
    ensures !Repeating(name)
  {
    assert forall il, tail :: InLayer(name, il, tail) ==> name[0] == 'b';
  }

  /** The buckets of a table entry are the ones its name says. */
  lemma {:induction false} BucketOfName(name: string, offset: U64, k: Bucket)
    ensures In(EntryOf(name, offset), k) <==> Belongs(name, k)
  {
    hide LayerOf, Before, InLayer, Repeating, StartsWithAny, OfExperts, OfDense, NamesInput;
    RepeatingIsRead(name);
    InputsAreListed(name);
    if name == "token_embd.weight" || name == "per_layer_token_embd.weight" {
      NotRepeating(name);
    }
    if k.LayerBytesOf? {
      LayerBucket(name, offset, k.il, k.part);
    }
  }

  lemma {:induction false} LayerBucket(name: string, offset: U64, il: nat, part: LayerPart)
    ensures In(EntryOf(name, offset), LayerBytesOf(il, part)) <==> Belongs(name, LayerBytesOf(il, part))
  {
    hide LayerOf, Before, InLayer, StartsWithAny, OfExperts, OfDense;
    if LayerOf(name).Some? {
      var (jl, tail) := LayerOf(name).value;
      LayerIsRead(name, jl, tail);
      ExpertsAreListed(tail);
      DenseAreListed(tail);
      NotBoth(tail);
    }
    forall tail | InLayer(name, il, tail) ensures LayerOf(name) == Some((il, tail)) {
      LayerIsRead(name, il, tail);
    }
  }

  lemma {:induction false} LayerClass(il: nat, tail: string)
    requires il < 4096 && (tail == "" || tail[0] == '.')
    ensures Classify("blk." + Decimal(il) + tail)
         == Layer(il, if OfExperts(tail) then Experts else if OfDense(tail) then DenseFfn else OtherPart)
  {
    var name := "blk." + Decimal(il) + tail;
    hide LayerOf, StartsWithAny, OfExperts, OfDense, Decimal, Spells;
    DecimalSpells(il);
    LayerIsRead(name, il, tail);
    ExpertsAreListed(tail);
    DenseAreListed(tail);
  }

  /** The marker behind a printed layer number decides the part, whatever follows it. */
  lemma {:induction false} LayerTensors(il: nat, marker: string, rest: string)
    requires il < 4096
    ensures marker in {".ffn_up_exps", ".ffn_down_exps", ".ffn_gate_exps", ".ffn_gate_up_exps",
                       ".ffn_up_chexps", ".ffn_down_chexps", ".ffn_gate_chexps", ".ffn_gate_up_chexps"} ==>
              Classify("blk." + Decimal(il) + marker + rest) == Layer(il, Experts)
    ensures marker in {".ffn_up.", ".ffn_down.", ".ffn_gate."} ==>
              Classify("blk." + Decimal(il) + marker + rest) == Layer(il, DenseFfn)
  {
    var tail := marker + rest;
    assert "blk." + Decimal(il) + marker + rest == "blk." + Decimal(il) + tail;
    hide Classify;
    assert marker <= tail;
    if marker != "" && marker[0] == '.' {
      LayerClass(il, tail);
      NotBoth(tail);
    }
  }
}
