/**
 A printer of GGUF files: every type of value, any alignment, both versions the
 scan takes. The type numbers and widths are those of the GGUF specification
 ("File Structure"), written down here a second time.
 */
module GgufPrinter {
  import opened Outcomes
  import opened LittleEndian
  import opened GgufReader
  import opened GgufScan
  import opened TensorSizes
  import opened TensorTable

  datatype NumberType = U8 | I8 | U16 | I16 | U32 | I32 | F32 | Bool | U64 | I64 | F64
  {
    function Code(): nat {
      match this
      case U8 => 0 case I8 => 1 case U16 => 2 case I16 => 3 case U32 => 4 case I32 => 5
      case F32 => 6 case Bool => 7 case U64 => 10 case I64 => 11 case F64 => 12
    }

    function Width(): (w: nat)
      ensures 1 <= w <= 8
    {
      match this
      case U8 => 1 case I8 => 1 case U16 => 2 case I16 => 2 case U32 => 4 case I32 => 4
      case F32 => 4 case Bool => 1 case U64 => 8 case I64 => 8 case F64 => 8
    }

    // The first number that does not fit the width.
    function Ceiling(): nat {
      match Width()
      case 1 => 0x100
      case 2 => 0x1_0000
      case 4 => 0x1_0000_0000
      case _ => 0x1_0000_0000_0000_0000
    }

    predicate Signed() { I8? || I16? || I32? || I64? }

    predicate Floating() { F32? || F64? }

    /** The natural number that the bits of a value stand for, if any. */
    function Natural(bits: nat): Option<nat> {
      if Floating() || (Signed() && bits >= Ceiling() / 2) then None
      else if Bool? then Some(if bits == 0 then 0 else 1)
      else Some(bits)
    }
  }

  // A value by its type: a number as its bits, a text, or a list of either.
  datatype Value =
    | Num(t: NumberType, n: nat)
    | Str(s: string)
    | Nums(t: NumberType, ns: seq<nat>)
    | Strs(ss: seq<string>)

  datatype Field = Field(key: string, value: Value)

  datatype Spec = Spec(name: string, kind: nat, shape: seq<nat>, bytes: nat)

  // Text of one byte per character.
  predicate Narrow(s: string) { forall i :: 0 <= i < |s| ==> s[i] < 256 as char }

  function ToBytes(s: string): (b: Bytes)
    ensures |b| == |s|
  {
    seq(|s|, i requires 0 <= i < |s| => (s[i] as int % 256) as byte)
  }

  function PrintText(s: string): (b: Bytes)
    ensures |b| == 8 + |s|
  {
    ToLe(|s|, 8) + ToBytes(s)
  }

  function PrintNumbers(ns: seq<nat>, width: nat): (b: Bytes)
    ensures |b| == width * |ns|
  {
    if ns == [] then [] else
      assert width * |ns| == width + width * |ns[1..]|;
      ToLe(ns[0], width) + PrintNumbers(ns[1..], width)
  }

  function PrintTexts(ss: seq<string>): Bytes {
    if ss == [] then [] else PrintText(ss[0]) + PrintTexts(ss[1..])
  }

  function Kind(v: Value): nat {
    match v case Num(t, _) => t.Code() case Str(_) => 8 case Nums(_, _) => 9 case Strs(_) => 9
  }

  predicate NarrowAll(ss: seq<string>) { forall i :: 0 <= i < |ss| ==> Narrow(ss[i]) }

  predicate NarrowValue(v: Value) {
    (v.Str? ==> Narrow(v.s)) && (v.Strs? ==> NarrowAll(v.ss))
  }

  function PrintValue(v: Value): Bytes {
    match v
    case Num(t, n) => ToLe(n, t.Width())
    case Str(s) => PrintText(s)
    case Nums(t, ns) => ToLe(t.Code(), 4) + (ToLe(|ns|, 8) + PrintNumbers(ns, t.Width()))
    case Strs(ss) => ToLe(8, 4) + (ToLe(|ss|, 8) + PrintTexts(ss))
  }

  predicate NarrowField(f: Field) { Narrow(f.key) && NarrowValue(f.value) }

  function PrintField(f: Field): (b: Bytes)
    ensures |b| == 12 + |f.key| + |PrintValue(f.value)|
  {
    PrintText(f.key) + (ToLe(Kind(f.value), 4) + PrintValue(f.value))
  }

  function PrintFields(fields: seq<Field>): Bytes {
    if fields == [] then [] else PrintField(fields[0]) + PrintFields(fields[1..])
  }

  // The next multiple of the alignment.
  function Rounded(bytes: nat, alignment: nat): (r: nat)
    requires alignment > 0
    ensures bytes <= r < bytes + alignment
  {
    if bytes % alignment == 0 then bytes else bytes + (alignment - bytes % alignment)
  }

  function PrintTensor(t: Spec, offset: nat): (b: Bytes)
    ensures |b| == 24 + |t.name| + 8 * |t.shape|
  {
    PrintText(t.name) + ((ToLe(|t.shape|, 4) + PrintNumbers(t.shape, 8)) + (ToLe(t.kind, 4) + ToLe(offset, 8)))
  }

  function PrintTensors(tensors: seq<Spec>, offset: nat, alignment: nat): Bytes
    requires alignment > 0
  {
    if tensors == [] then []
    else
      PrintTensor(tensors[0], offset)
      + PrintTensors(tensors[1..], offset + Rounded(tensors[0].bytes, alignment), alignment)
  }

  /** Bytes of data behind the header. */
  function DataSize(tensors: seq<Spec>, alignment: nat): nat
    requires alignment > 0
  {
    if tensors == [] then 0 else Rounded(tensors[0].bytes, alignment) + DataSize(tensors[1..], alignment)
  }

  function PrintPreamble(version: nat, tensors: nat, keys: nat): (b: Bytes)
    ensures |b| == 24
  {
    [71, 71, 85, 70] + (ToLe(version, 4) + (ToLe(tensors, 8) + ToLe(keys, 8)))
  }

  function PrintHeader(version: nat, fields: seq<Field>, tensors: seq<Spec>, alignment: nat): Bytes
    requires alignment > 0
  {
    PrintPreamble(version, |tensors|, |fields|) + (PrintFields(fields) + PrintTensors(tensors, 0, alignment))
  }

  function Zeros(n: nat): (b: Bytes)
    ensures |b| == n
  {
    seq(n, _ => 0)
  }

  function File(version: nat, fields: seq<Field>, tensors: seq<Spec>, alignment: nat): Bytes
    requires alignment > 0
  {
    var header := PrintHeader(version, fields, tensors, alignment);
    header + (Zeros(Rounded(|header|, alignment) - |header|) + Zeros(DataSize(tensors, alignment)))
  }

  // ------------------------------------------------------ printed at a place

  // The bytes of `x` stand at `pos`.
  predicate At(d: Bytes, pos: nat, x: Bytes) {
    pos + |x| <= |d| && d[pos..pos + |x|] == x
  }

  lemma AtBoth(d: Bytes, pos: nat, x: Bytes, y: Bytes)
    ensures At(d, pos, x + y) <==> At(d, pos, x) && At(d, pos + |x|, y)
  {
    if pos + |x| + |y| <= |d| {
      var whole := d[pos..pos + |x| + |y|];
      assert whole[..|x|] == d[pos..pos + |x|];
      assert whole[|x|..] == d[pos + |x|..pos + |x| + |y|];
      assert whole == whole[..|x|] + whole[|x|..];
      assert (x + y)[..|x|] == x && (x + y)[|x|..] == y;
    }
  }

  // The state after `n` more bytes.
  function Advance(s: State, n: nat): State {
    s.(pos := s.pos + n, consumed := s.consumed + n)
  }

  lemma AdvanceTwice(s: State, a: nat, b: nat)
    ensures Advance(Advance(s, a), b) == Advance(s, a + b)
  {
  }

  predicate Room(s: State, n: nat) { InStep(s) && s.pos + n <= MAX_HEADER_SPAN }

  lemma TakePrinted(d: Bytes, s: State, x: Bytes)
    requires Room(s, |x|) && At(d, s.pos, x)
    ensures Take(d, s, |x|) == Ok(Read(x, Advance(s, |x|)))
  {
  }

  lemma {:induction false} UIntPrinted(d: Bytes, s: State, n: nat, width: nat)
    requires Room(s, width) && At(d, s.pos, ToLe(n, width)) && n < Pow256(width)
    ensures UInt(d, s, width) == Ok(Read(n, Advance(s, width)))
  {
    TakePrinted(d, s, ToLe(n, width));
    FromToLe(n, width);
  }

  lemma WidthIsRead(t: NumberType)
    ensures ScalarWidth(t.Code()) == Some(t.Width()) && Pow256(t.Width()) == t.Ceiling()
  {
    Widths();
  }

  /** Reads one number of any type and leaves what follows it in place. */
  lemma {:induction false} NumberThen(d: Bytes, s: State, t: NumberType, n: nat, rest: Bytes)
    requires Room(s, t.Width()) && n < t.Ceiling() && At(d, s.pos, ToLe(n, t.Width()) + rest)
    ensures UInt(d, s, t.Width()) == Ok(Read(n, Advance(s, t.Width()))) && At(d, Advance(s, t.Width()).pos, rest)
  {
    AtBoth(d, s.pos, ToLe(n, t.Width()), rest);
    WidthIsRead(t);
    UIntPrinted(d, s, n, t.Width());
  }

  /** Reads one 4-byte number and leaves what follows it in place. */
  lemma {:induction false} UInt4Then(d: Bytes, s: State, n: nat, rest: Bytes)
    requires Room(s, 4) && At(d, s.pos, ToLe(n, 4) + rest) && n < 0x1_0000_0000
    ensures UInt(d, s, 4) == Ok(Read(n, Advance(s, 4))) && At(d, Advance(s, 4).pos, rest)
  {
    AtBoth(d, s.pos, ToLe(n, 4), rest);
    Widths();
    UIntPrinted(d, s, n, 4);
  }

  lemma {:induction false} UInt8Then(d: Bytes, s: State, n: nat, rest: Bytes)
    requires Room(s, 8) && At(d, s.pos, ToLe(n, 8) + rest) && n < 0x1_0000_0000_0000_0000
    ensures UInt(d, s, 8) == Ok(Read(n, Advance(s, 8))) && At(d, Advance(s, 8).pos, rest)
  {
    AtBoth(d, s.pos, ToLe(n, 8), rest);
    Widths();
    UIntPrinted(d, s, n, 8);
  }

  lemma CharsOfBytes(s: string)
    requires Narrow(s)
    ensures Chars(ToBytes(s)) == s
  {
  }

  // What a reader keeps of a text, and charges for it.
  function Kept(s: string): (r: string)
    ensures |r| <= |s| && |r| <= MAX_KEY_BYTES
  {
    if |s| > MAX_KEY_BYTES then "" else s
  }

  function Charged(s: State, text: string): State {
    Advance(s, 8 + |text|).(strings := s.strings + |Kept(text)|, entries := s.entries + 1)
  }

  predicate Affordable(s: State, text: string) {
    s.strings + |Kept(text)| <= MAX_STRING_BUDGET && s.entries < MAX_STRING_ENTRIES
  }

  lemma TextPrinted(d: Bytes, s: State, text: string)
    requires Narrow(text) && Room(s, 8 + |text|) && At(d, s.pos, PrintText(text)) && Affordable(s, text)
    ensures Text(d, s) == Ok(Read(Kept(text), Charged(s, text)))
  {
    var t := s.(entries := s.entries + 1);
    UInt8Then(d, t, |text|, ToBytes(text));
    if |text| <= MAX_KEY_BYTES {
      ShortTextPrinted(d, s, Advance(t, 8), text);
    } else {
      assert Advance(Advance(t, 8), |text|) == Charged(s, text);
    }
  }

  lemma ShortTextPrinted(d: Bytes, s: State, u: State, text: string)
    requires Narrow(text) && |text| <= MAX_KEY_BYTES && Affordable(s, text)
    requires u == Advance(s, 8).(entries := s.entries + 1)
    requires Room(u, |text|) && At(d, u.pos, ToBytes(text))
    requires UInt(d, s.(entries := s.entries + 1), 8) == Ok(Read(|text|, u))
    ensures Text(d, s) == Ok(Read(Kept(text), Charged(s, text)))
  {
    var v := u.(strings := u.strings + |text|);
    TakePrinted(d, v, ToBytes(text));
    CharsOfBytes(text);
    assert Advance(v, |text|) == Charged(s, text);
  }

  lemma SkipTextPrinted(d: Bytes, s: State, text: string)
    requires Narrow(text) && Room(s, 8 + |text|) && At(d, s.pos, PrintText(text))
    ensures SkipText(d, s) == Ok(Advance(s, 8 + |text|))
  {
    hide ToLe, FromLe, Pow256, UInt, At;
    UInt8Then(d, s, |text|, ToBytes(text));
  }

  // ------------------------------------------------------------ field values

  // A value as wide as its type allows and as long as the skipper accepts.
  predicate FitsValue(v: Value) {
    NarrowValue(v)
    && (v.Num? ==> v.n < v.t.Ceiling())
    && (v.Nums? ==> |v.ns| <= 16777216 && FitAll(v.t, v.ns))
    && (v.Strs? ==> |v.ss| <= 16777216)
  }

  predicate FitAll(t: NumberType, ns: seq<nat>) {
    forall i :: 0 <= i < |ns| ==> ns[i] < t.Ceiling()
  }

  // The string entries that stepping over a value charges.
  function TextCount(v: Value): nat {
    if v.Strs? then |v.ss| else 0
  }

  // The state after a value that was not read as a text.
  function Past(s: State, v: Value): State {
    Advance(s, |PrintValue(v)|).(entries := s.entries + TextCount(v))
  }

  predicate Passable(s: State, v: Value) {
    FitsValue(v) && Room(s, |PrintValue(v)|) && s.entries + TextCount(v) <= MAX_STRING_ENTRIES
  }

  lemma {:induction false} ArrayHeadThen(d: Bytes, s: State, element: nat, count: nat, rest: Bytes)
    requires Room(s, 12) && element < 0x1_0000_0000 && count < 0x1_0000_0000_0000_0000
    requires At(d, s.pos, ToLe(element, 4) + (ToLe(count, 8) + rest))
    ensures ArrayHead(d, s) == Ok(Read((element, count), Advance(s, 12)))
    ensures At(d, Advance(s, 12).pos, rest)
  {
    hide ToLe, FromLe, Pow256, UInt, At;
    UInt4Then(d, s, element, ToLe(count, 8) + rest);
    UInt8Then(d, Advance(s, 4), count, rest);
    AdvanceTwice(s, 4, 8);
  }

  lemma {:induction false} NumbersHead(d: Bytes, s: State, t: NumberType, ns: seq<nat>)
    requires Room(s, 12) && |ns| <= MAX_ARRAY_LEN && At(d, s.pos, PrintValue(Nums(t, ns)))
    ensures ArrayHead(d, s) == Ok(Read((t.Code(), |ns|), Advance(s, 12)))
    ensures At(d, Advance(s, 12).pos, PrintNumbers(ns, t.Width()))
  {
    ArrayHeadThen(d, s, t.Code(), |ns|, PrintNumbers(ns, t.Width()));
  }

  lemma {:induction false} TextsHead(d: Bytes, s: State, ss: seq<string>)
    requires Room(s, 12) && |ss| <= MAX_ARRAY_LEN && At(d, s.pos, PrintValue(Strs(ss)))
    ensures ArrayHead(d, s) == Ok(Read((8, |ss|), Advance(s, 12)))
    ensures At(d, Advance(s, 12).pos, PrintTexts(ss))
  {
    ArrayHeadThen(d, s, 8, |ss|, PrintTexts(ss));
  }

  lemma {:induction false} SkipTextThen(d: Bytes, s: State, text: string, rest: Bytes)
    requires Narrow(text) && Room(s, 8 + |text|) && At(d, s.pos, PrintText(text) + rest)
    ensures SkipText(d, s) == Ok(Advance(s, 8 + |text|)) && At(d, Advance(s, 8 + |text|).pos, rest)
  {
    AtBoth(d, s.pos, PrintText(text), rest);
    SkipTextPrinted(d, s, text);
  }

  lemma {:induction false} SkipTextsPrinted(d: Bytes, s: State, ss: seq<string>)
    requires NarrowAll(ss) && Room(s, |PrintTexts(ss)|) && At(d, s.pos, PrintTexts(ss))
    ensures SkipTexts(d, s, |ss|) == Ok(Advance(s, |PrintTexts(ss)|))
    decreases |ss|
  {
    hide SkipText, At, PrintText, Narrow;
    if ss != [] {
      SkipTextThen(d, s, ss[0], PrintTexts(ss[1..]));
      var t := Advance(s, 8 + |ss[0]|);
      SkipTextsPrinted(d, t, ss[1..]);
      AdvanceTwice(s, 8 + |ss[0]|, |PrintTexts(ss[1..])|);
    }
  }

  lemma SkipNumbers(d: Bytes, s: State, t: NumberType, count: nat)
    requires count <= MAX_ARRAY_LEN && Room(s, t.Width() * count)
    ensures SkipArrayBody(d, s, t.Code(), count) == Ok(Advance(s, t.Width() * count))
  {
    WidthIsRead(t);
  }

  lemma SkipNumbersPrinted(d: Bytes, s: State, v: Value)
    requires v.Nums? && Passable(s, v) && At(d, s.pos, PrintValue(v))
    ensures SkipValue(d, s, 9) == Ok(Past(s, v))
  {
    hide ToLe, Pow256, ArrayHead, SkipArrayBody, At;
    NumbersHead(d, s, v.t, v.ns);
    SkipNumbers(d, Advance(s, 12), v.t, |v.ns|);
    AdvanceTwice(s, 12, v.t.Width() * |v.ns|);
  }

  lemma SkipStringsPrinted(d: Bytes, s: State, v: Value)
    requires v.Strs? && Passable(s, v) && At(d, s.pos, PrintValue(v))
    ensures SkipValue(d, s, 9) == Ok(Past(s, v))
  {
    hide ToLe, Pow256, ArrayHead, SkipTexts, At, PrintTexts;
    TextsHead(d, s, v.ss);
    var t := Advance(s, 12).(entries := s.entries + |v.ss|);
    SkipTextsPrinted(d, t, v.ss);
    assert Advance(t, |PrintTexts(v.ss)|) == Past(s, v);
  }

  lemma SkipNumberPrinted(d: Bytes, s: State, v: Value)
    requires v.Num? && Passable(s, v)
    ensures SkipValue(d, s, v.t.Code()) == Ok(Past(s, v))
  {
    WidthIsRead(v.t);
  }

  /** Any printed value is stepped over, whatever its type. */
  lemma SkipPrinted(d: Bytes, s: State, v: Value)
    requires Passable(s, v) && At(d, s.pos, PrintValue(v))
    ensures SkipValue(d, s, Kind(v)) == Ok(Past(s, v))
  {
    hide ToLe, Pow256, SkipText, At;
    match v
    case Num(_, _) => SkipNumberPrinted(d, s, v);
    case Str(text) => SkipTextPrinted(d, s, text);
    case Nums(_, _) => SkipNumbersPrinted(d, s, v);
    case Strs(_) => SkipStringsPrinted(d, s, v);
  }

  lemma {:induction false} IntegerThen(d: Bytes, s: State, t: NumberType, n: nat, rest: Bytes)
    requires Room(s, t.Width()) && n < t.Ceiling() && At(d, s.pos, ToLe(n, t.Width()) + rest)
    ensures Integer(d, s, t.Code()) == Ok(Read(t.Natural(n), Advance(s, t.Width())))
    ensures At(d, Advance(s, t.Width()).pos, rest)
  {
    NumberThen(d, s, t, n, rest);
    WidthIsRead(t);
    hide UInt, At, ToLe, Pow256;
  }

  // The natural number a value stands for as a whole.
  function Whole(v: Value): Option<nat> {
    if v.Num? then v.t.Natural(v.n) else None
  }

  lemma IntegerPrinted(d: Bytes, s: State, v: Value)
    requires Passable(s, v) && At(d, s.pos, PrintValue(v))
    ensures Integer(d, s, Kind(v)) == Ok(Read(Whole(v), Past(s, v)))
  {
    hide UInt, At, ToLe, Pow256, SkipValue;
    if v.Num? {
      assert PrintValue(v) == ToLe(v.n, v.t.Width()) + [];
      IntegerThen(d, s, v.t, v.n, []);
    } else {
      SkipPrinted(d, s, v);
    }
  }

  // The natural numbers of a list, those there are.
  function Naturals(t: NumberType, ns: seq<nat>): (r: seq<Option<nat>>)
    ensures |r| == |ns|
  {
    if ns == [] then [] else [t.Natural(ns[0])] + Naturals(t, ns[1..])
  }

  // All natural numbers of a list, if it holds nothing else.
  function AllNaturals(t: NumberType, ns: seq<nat>): Option<seq<nat>> {
    if forall i :: 0 <= i < |ns| ==> t.Natural(ns[i]).Some?
    then Some(seq(|ns|, i requires 0 <= i < |ns| && t.Natural(ns[i]).Some? => t.Natural(ns[i]).value))
    else None
  }

  lemma {:induction false} AllNaturalsCons(t: NumberType, ns: seq<nat>)
    requires ns != []
    ensures var rest := AllNaturals(t, ns[1..]);
            if t.Natural(ns[0]).Some? && rest.Some?
            then AllNaturals(t, ns) == Some([t.Natural(ns[0]).value] + rest.value)
            else AllNaturals(t, ns) == None
  {
    var rest := ns[1..];
    hide NumberType.Natural;
    assert forall i :: 0 <= i < |rest| ==> rest[i] == ns[i + 1];
    assert forall i :: 0 < i < |ns| ==> ns[i] == rest[i - 1];
    if AllNaturals(t, ns).Some? {
      assert AllNaturals(t, ns).value == [t.Natural(ns[0]).value] + AllNaturals(t, rest).value;
    }
  }

  lemma {:induction false} CollectNaturals(t: NumberType, ns: seq<nat>)
    ensures Collect(Naturals(t, ns)) == AllNaturals(t, ns)
  {
    if ns == [] {
      assert AllNaturals(t, ns).Some? && AllNaturals(t, ns).value == [];
    } else {
      hide AllNaturals, NumberType.Natural;
      CollectNaturals(t, ns[1..]);
      AllNaturalsCons(t, ns);
      assert Naturals(t, ns)[1..] == Naturals(t, ns[1..]);
    }
  }

  lemma {:induction false} IntegersPrinted(d: Bytes, s: State, t: NumberType, ns: seq<nat>)
    requires FitAll(t, ns) && Room(s, t.Width() * |ns|) && At(d, s.pos, PrintNumbers(ns, t.Width()))
    ensures Integers(d, s, t.Code(), |ns|) == Ok(Read(Naturals(t, ns), Advance(s, t.Width() * |ns|)))
    decreases |ns|
  {
    hide ToLe, FromLe, Pow256, Integer, At;
    var width := t.Width();
    if ns != [] {
      assert width * |ns| == width + width * |ns[1..]|;
      IntegerThen(d, s, t, ns[0], PrintNumbers(ns[1..], width));
      IntegersPrinted(d, Advance(s, width), t, ns[1..]);
      AdvanceTwice(s, width, width * |ns[1..]|);
    }
  }

  /** What a size-relevant key keeps of a value: a natural number, or up to 4096 of them. */
  function Fact(v: Value): Option<RawValue> {
    match v
    case Num(t, n) => if t.Natural(n).Some? then Some(Int(t.Natural(n).value)) else None
    case Str(_) => None
    case Nums(t, ns) =>
      if !t.Floating() && |ns| <= 4096 && AllNaturals(t, ns).Some? then Some(Ints(AllNaturals(t, ns).value)) else None
    case Strs(_) => None
  }

  lemma RawNumbersPrinted(d: Bytes, s: State, v: Value)
    requires v.Nums? && Passable(s, v) && At(d, s.pos, PrintValue(v))
    ensures Raw(d, s, 9) == Ok(Read(Fact(v), Past(s, v)))
  {
    hide ToLe, FromLe, Pow256, Text, Take, ArrayHead, At, SkipArrayBody, Integers, AllNaturals;
    var t := Advance(s, 12);
    NumbersHead(d, s, v.t, v.ns);
    AdvanceTwice(s, 12, v.t.Width() * |v.ns|);
    if !v.t.Floating() && |v.ns| <= 4096 {
      IntegersPrinted(d, t, v.t, v.ns);
      CollectNaturals(v.t, v.ns);
    } else {
      SkipNumbers(d, t, v.t, |v.ns|);
    }
  }

  lemma RawStringsPrinted(d: Bytes, s: State, v: Value)
    requires v.Strs? && Passable(s, v) && At(d, s.pos, PrintValue(v))
    ensures Raw(d, s, 9) == Ok(Read(None, Past(s, v)))
  {
    SkipStringsPrinted(d, s, v);
    TextsHead(d, s, v.ss);
    hide ToLe, Pow256, ArrayHead, SkipArrayBody, At;
  }

  lemma RawPrinted(d: Bytes, s: State, v: Value)
    requires Passable(s, v) && At(d, s.pos, PrintValue(v))
    ensures Raw(d, s, Kind(v)) == Ok(Read(Fact(v), Past(s, v)))
  {
    hide ToLe, Pow256, Integer, At, RawArray, ArrayHead, Past;
    if v.Nums? {
      RawNumbersPrinted(d, s, v);
    } else if v.Strs? {
      RawStringsPrinted(d, s, v);
    } else {
      IntegerPrinted(d, s, v);
    }
  }
}
