/**
 What the header facts of a model say about its metadata fields, told from the
 fields themselves: which one decides each fact, whatever order the scan works in.
 */
module GgufFacts {
  import opened Outcomes
  import S = Strings
  import opened GgufReader
  import opened GgufScan
  import opened GgufPrinter
  import opened TensorSizes

  /** What one metadata field contributes to the header facts, in the scan's steps. */
  function Applied(h: Header, f: Field): Header {
    var key := Kept(f.key);
    if key == ARCHITECTURE && f.value.Str? then h.(architecture := Some(Kept(f.value.s)))
    else if key == ALIGNMENT then (if Whole(f.value).Some? then h.(alignment := Whole(f.value).value) else h)
    else if key == SPLIT_COUNT then h.(splitCount := Whole(f.value))
    else if Parts(key).1 in FACT_SUFFIXES then NoteValue(NoteRecurrent(h, key), key, Fact(f.value))
    else NoteRecurrent(h, key)
  }

  function AppliedAll(h: Header, fields: seq<Field>): Header
    decreases |fields|
  {
    if fields == [] then h else AppliedAll(Applied(h, fields[0]), fields[1..])
  }

  // ---------------------------------------------------- which field decides

  // The key a reader sees: a key over 1024 bytes is blank.
  function KeyOf(f: Field): string {
    if |f.key| <= 1024 then f.key else ""
  }

  /** The text last given as the architecture. */
  function Architecture(fields: seq<Field>): Option<string> {
    if fields == [] then None
    else
      var init, f := fields[..|fields| - 1], fields[|fields| - 1];
      if KeyOf(f) == "general.architecture" && f.value.Str?
      then Some(if |f.value.s| <= 1024 then f.value.s else "")
      else Architecture(init)
  }

  /** The natural number last given as the alignment; 32 without one. */
  function Alignment(fields: seq<Field>): nat {
    if fields == [] then 32
    else
      var init, f := fields[..|fields| - 1], fields[|fields| - 1];
      if KeyOf(f) == "general.alignment" && Whole(f.value).Some? then Whole(f.value).value else Alignment(init)
  }

  /** The last count of parts, if it is a natural number. */
  function SplitCount(fields: seq<Field>): Option<nat> {
    if fields == [] then None
    else
      var init, f := fields[..|fields| - 1], fields[|fields| - 1];
      if KeyOf(f) == "split.count" then Whole(f.value) else SplitCount(init)
  }

  // "<architecture>." in front of what a size depends on.
  ghost predicate IsFactKey(key: string) {
    exists prefix, suffix :: '.' !in prefix && key == prefix + "." + suffix && IsFactSuffix(suffix)
  }

  predicate IsSizeSuffix(s: string) {
    s == "block_count" || s == "nextn_predict_layers" || s == "context_length" || s == "embedding_length"
    || s == "vocab_size" || s == "feed_forward_length" || s == "expert_feed_forward_length"
    || s == "expert_shared_feed_forward_length" || s == "expert_used_count"
  }

  predicate IsAttentionSuffix(s: string) {
    s == "attention.head_count" || s == "attention.head_count_kv" || s == "attention.key_length"
    || s == "attention.value_length" || s == "attention.sliding_window" || s == "attention.kv_lora_rank"
    || s == "attention.recurrent_layers" || s == "full_attention_interval" || s == "attention.indexer.key_length"
  }

  predicate IsStateSuffix(s: string) {
    s == "ssm.conv_kernel" || s == "ssm.inner_size" || s == "ssm.state_size" || s == "ssm.group_count"
    || s == "hyper_connection.count" || s == "ple.layers" || s == "ple.conv_kernel" || s == "ple.ngram_size"
  }

  predicate IsFactSuffix(s: string) {
    IsSizeSuffix(s) || IsAttentionSuffix(s) || IsStateSuffix(s)
  }

  /** The last usable value under a key. */
  function LastFact(fields: seq<Field>, key: string): Option<RawValue> {
    if fields == [] then None
    else
      var init, f := fields[..|fields| - 1], fields[|fields| - 1];
      if KeyOf(f) == key && Fact(f.value).Some? then Fact(f.value) else LastFact(init, key)
  }

  predicate StartsRecurrent(rest: string) {
    "ssm." <= rest || "wkv." <= rest || "shortconv." <= rest || "time_mix_extra_dim" <= rest
    || "time_decay_extra_dim" <= rest
  }

  // A key that marks its architecture as a recurrent one.
  ghost predicate MarksRecurrent(key: string, prefix: string) {
    '.' !in prefix
    && exists rest :: key == prefix + "." + rest && StartsRecurrent(rest)
  }

  ghost predicate SomeMarks(fields: seq<Field>, prefix: string) {
    exists i :: 0 <= i < |fields| && MarksRecurrent(KeyOf(fields[i]), prefix)
  }

  // The value under a key is the last usable one, if its key is one that sizes depend on.
  ghost predicate ValueReported(h: Header, fields: seq<Field>, key: string) {
    (key in h.values <==> IsFactKey(key) && LastFact(fields, key).Some?)
    && (key in h.values ==> LastFact(fields, key) == Some(h.values[key]))
  }

  /** The header facts are those of the fields. */
  ghost predicate Reports(h: Header, fields: seq<Field>) {
    h.architecture == Architecture(fields) && h.alignment == Alignment(fields) && h.splitCount == SplitCount(fields)
    && (forall key :: ValueReported(h, fields, key))
    && forall prefix :: prefix in h.recurrent <==> SomeMarks(fields, prefix)
  }

  // ------------------------------------------------------------- keys' parts

  lemma {:induction false} PartsAre(key: string, prefix: string, rest: string)
    requires '.' !in prefix && key == prefix + "." + rest
    ensures Parts(key) == (prefix, rest)
  {
    S.SplitOnceAt(prefix, ".", rest);
  }

  lemma {:induction false} SplitHasNoDot(key: string)
    ensures S.SplitOnce(key, ".").Some? ==> '.' !in S.SplitOnce(key, ".").value.0
  {
    if key != "" && key[0] != '.' {
      SplitHasNoDot(key[1..]);
    }
  }

  lemma {:induction false} PartsJoin(key: string)
    requires Parts(key).1 != ""
    ensures '.' !in Parts(key).0 && key == Parts(key).0 + "." + Parts(key).1
  {
    SplitHasNoDot(key);
  }

  lemma SizeSuffixIsListed(s: string)
    requires IsSizeSuffix(s)
    ensures s in FACT_SUFFIXES
  {
    var l := FACT_SUFFIXES;
    assert s == l[0] || s == l[1] || s == l[2] || s == l[3] || s == l[4] || s == l[5] || s == l[6] || s == l[7]
           || s == l[8];
  }

  lemma AttentionSuffixIsListed(s: string)
    requires IsAttentionSuffix(s)
    ensures s in FACT_SUFFIXES
  {
    var l := FACT_SUFFIXES;
    assert s == l[9] || s == l[10] || s == l[11] || s == l[12] || s == l[13] || s == l[14] || s == l[15] || s == l[16]
           || s == l[21];
  }

  lemma StateSuffixIsListed(s: string)
    requires IsStateSuffix(s)
    ensures s in FACT_SUFFIXES
  {
    var l := FACT_SUFFIXES;
    assert s == l[17] || s == l[18] || s == l[19] || s == l[20] || s == l[22] || s == l[23] || s == l[24] || s == l[25];
  }

  lemma SuffixIsFact(s: string)
    requires s in FACT_SUFFIXES
    ensures IsFactSuffix(s)
  {
    hide IsSizeSuffix, IsAttentionSuffix, IsStateSuffix;
    var i :| 0 <= i < |FACT_SUFFIXES| && s == FACT_SUFFIXES[i];
    if i < 9 {
      SizesAreListed(i);
    } else if i < 17 || i == 21 {
      AttentionIsListed(i);
    } else {
      StatesAreListed(i);
    }
  }

  lemma SizesAreListed(i: nat)
    requires i < 9
    ensures IsSizeSuffix(FACT_SUFFIXES[i])
  {
  }

  lemma AttentionIsListed(i: nat)
    requires 9 <= i < 17 || i == 21
    ensures IsAttentionSuffix(FACT_SUFFIXES[i])
  {
  }

  lemma StatesAreListed(i: nat)
    requires 17 <= i < 21 || 22 <= i < 26
    ensures IsStateSuffix(FACT_SUFFIXES[i])
  {
  }

  lemma SuffixIsListed(s: string)
    ensures s in FACT_SUFFIXES <==> IsFactSuffix(s)
  {
    hide IsSizeSuffix, IsAttentionSuffix, IsStateSuffix;
    if IsSizeSuffix(s) { SizeSuffixIsListed(s); }
    if IsAttentionSuffix(s) { AttentionSuffixIsListed(s); }
    if IsStateSuffix(s) { StateSuffixIsListed(s); }
    if s in FACT_SUFFIXES { SuffixIsFact(s); }
  }

  lemma {:induction false} FactKeyIsRead(key: string)
    ensures IsFactKey(key) <==> Parts(key).1 in FACT_SUFFIXES
  {
    hide Parts, IsFactSuffix;
    SuffixIsListed(Parts(key).1);
    SuffixIsSolid("");
    if IsFactKey(key) {
      var prefix, suffix :| '.' !in prefix && key == prefix + "." + suffix && IsFactSuffix(suffix);
      PartsAre(key, prefix, suffix);
    }
    if IsFactSuffix(Parts(key).1) {
      PartsJoin(key);
    }
  }

  lemma SuffixIsSolid(s: string)
    ensures IsFactSuffix(s) ==> s != ""
  {
  }

  lemma RecurrentIsListed(rest: string)
    ensures StartsWithAny(rest, RECURRENT_KEYS) <==> StartsRecurrent(rest)
    ensures StartsRecurrent(rest) ==> rest != ""
  {
    if StartsRecurrent(rest) {
      var l := RECURRENT_KEYS;
      assert l[0] <= rest || l[1] <= rest || l[2] <= rest || l[3] <= rest || l[4] <= rest;
    }
  }

  lemma {:induction false} RecurrentIsRead(key: string, prefix: string)
    ensures MarksRecurrent(key, prefix) <==> Parts(key).0 == prefix && StartsWithAny(Parts(key).1, RECURRENT_KEYS)
  {
    hide Parts, StartsWithAny, StartsRecurrent;
    RecurrentIsListed(Parts(key).1);
    if MarksRecurrent(key, prefix) {
      var rest :| key == prefix + "." + rest && StartsRecurrent(rest);
      PartsAre(key, prefix, rest);
    }
    if StartsRecurrent(Parts(key).1) {
      PartsJoin(key);
    }
  }

  // The three general keys are neither facts nor marks.
  lemma {:induction false} GeneralKeys(key: string)
    requires key == "general.architecture" || key == "general.alignment" || key == "split.count"
    ensures !(Parts(key).1 in FACT_SUFFIXES) && !StartsWithAny(Parts(key).1, RECURRENT_KEYS)
  {
    var rest := if key == "general.architecture" then "architecture"
                else if key == "general.alignment" then "alignment" else "count";
    PartsAre(key, if key == "split.count" then "split" else "general", rest);
    NoFact(rest);
  }

  lemma NoFact(rest: string)
    requires rest == "architecture" || rest == "alignment" || rest == "count"
    ensures !(rest in FACT_SUFFIXES) && !StartsWithAny(rest, RECURRENT_KEYS)
  {
    SuffixIsListed(rest);
    RecurrentIsListed(rest);
    assert rest[0] == 'a' || rest[0] == 'c';
    NoFactSuffix(rest);
    hide IsFactSuffix, StartsRecurrent, StartsWithAny;
    if StartsRecurrent(rest) {
      RecurrentStarts(rest);
    }
  }

  lemma NoFactSuffix(rest: string)
    requires rest == "architecture" || rest == "alignment" || rest == "count"
    ensures !IsFactSuffix(rest)
  {
    if IsFactSuffix(rest) {
      FactSuffixIsLonger(rest);
    }
  }

  // The three words are as long as no suffix that starts like them.
  lemma FactSuffixIsLonger(s: string)
    requires IsFactSuffix(s)
    ensures s != "" && (s[0] == 'a' ==> |s| > 12) && (s[0] == 'c' ==> |s| > 5)
  {
  }

  lemma RecurrentStarts(rest: string)
    requires StartsRecurrent(rest)
    ensures rest != "" && (rest[0] == 's' || rest[0] == 'w' || rest[0] == 't')
  {
  }

  // ------------------------------------------------------------ one field more

  lemma {:induction false} AppliedLast(h: Header, fields: seq<Field>, f: Field)
    ensures AppliedAll(h, fields + [f]) == Applied(AppliedAll(h, fields), f)
    decreases |fields|
  {
    hide Applied;
    if fields == [] {
      assert fields + [f] == [f] && [f][1..] == [];
    } else {
      assert (fields + [f])[1..] == fields[1..] + [f];
      AppliedLast(Applied(h, fields[0]), fields[1..], f);
    }
  }

  // What one field changes, read off its key.
  lemma AppliedChanges(h: Header, f: Field)
    ensures var g, key, n := Applied(h, f), KeyOf(f), Whole(f.value);
            g.architecture == (if key == "general.architecture" && f.value.Str?
                               then Some(if |f.value.s| <= 1024 then f.value.s else "") else h.architecture)
            && g.alignment == (if key == "general.alignment" && n.Some? then n.value else h.alignment)
            && g.splitCount == (if key == "split.count" then n else h.splitCount)
  {
    KeysDiffer(KeyOf(f));
    hide Parts, Fact, Whole, StartsWithAny;
  }

  lemma KeysDiffer(key: string)
    ensures !(key == "general.architecture" && key == "general.alignment")
    ensures !(key == "split.count" && (key == "general.architecture" || key == "general.alignment"))
  {
    if key == "general.architecture" {
      assert key[9] == 'r';
    }
    if key == "general.alignment" {
      assert key[9] == 'l';
    }
  }

  lemma {:induction false} GeneralsStep(h: Header, init: seq<Field>, f: Field)
    requires h.architecture == Architecture(init) && h.alignment == Alignment(init) && h.splitCount == SplitCount(init)
    ensures var g, fields := Applied(h, f), init + [f];
            g.architecture == Architecture(fields) && g.alignment == Alignment(fields)
            && g.splitCount == SplitCount(fields)
  {
    AppliedChanges(h, f);
    hide Applied, Whole, KeyOf;
    assert (init + [f])[..|init|] == init;
  }

  // The value one field leaves under its key, if its key is one that sizes depend on.
  lemma {:induction false} AppliedValues(h: Header, f: Field)
    ensures Applied(h, f).values
         == if IsFactKey(KeyOf(f)) && Fact(f.value).Some? then h.values[KeyOf(f) := Fact(f.value).value] else h.values
  {
    var here := KeyOf(f);
    FactKeyIsRead(here);
    if here == "general.architecture" || here == "general.alignment" || here == "split.count" {
      GeneralKeys(here);
    }
    hide Parts, Fact, Whole, StartsWithAny, IsFactKey;
  }

  lemma {:induction false} ValuesStep(h: Header, init: seq<Field>, f: Field, key: string)
    requires ValueReported(h, init, key)
    ensures ValueReported(Applied(h, f), init + [f], key)
  {
    AppliedValues(h, f);
    hide Applied, Fact, KeyOf, IsFactKey;
    assert (init + [f])[..|init|] == init;
  }

  lemma {:induction false} RecurrentStep(h: Header, init: seq<Field>, f: Field, prefix: string)
    requires prefix in h.recurrent <==> SomeMarks(init, prefix)
    ensures prefix in Applied(h, f).recurrent <==> SomeMarks(init + [f], prefix)
  {
    var here, fields := KeyOf(f), init + [f];
    RecurrentIsRead(here, prefix);
    if here == "general.architecture" || here == "general.alignment" || here == "split.count" {
      GeneralKeys(here);
    }
    hide Parts, Fact, Whole, StartsWithAny, MarksRecurrent;
    assert prefix in Applied(h, f).recurrent <==> prefix in h.recurrent || MarksRecurrent(here, prefix);
    assert forall i :: 0 <= i < |init| ==> fields[i] == init[i];
    assert fields[|init|] == f;
  }

  /** The facts the scan gathers step by step are those of the deciding fields. */
  lemma {:induction false} FactsAreReported(fields: seq<Field>)
    ensures Reports(AppliedAll(EMPTY_HEADER, fields), fields)
  {
    if fields != [] {
      var init, f := fields[..|fields| - 1], fields[|fields| - 1];
      assert fields == init + [f];
      FactsAreReported(init);
      var h := AppliedAll(EMPTY_HEADER, init);
      AppliedLast(EMPTY_HEADER, init, f);
      hide Applied, AppliedAll, ValueReported, SomeMarks;
      GeneralsStep(h, init, f);
      forall key { ValuesStep(h, init, f, key); }
      forall prefix { RecurrentStep(h, init, f, prefix); }
    }
  }
}
