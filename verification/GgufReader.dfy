/**
 The bounded reader of GGUF headers: every typed reader and every skipper, what
 each consumes, and the one grammar of value extents they all agree on.
 */
module GgufReader {
  import opened Outcomes
  import opened LittleEndian
  import TensorSizes

  const MAX_KEY_BYTES: nat := 1024
  const MAX_ARRAY_LEN: nat := 0x100_0000
  const MAX_HEADER_SPAN: nat := 128 * 1024 * 1024
  const MAX_STRING_BUDGET: nat := 2_000_000
  const MAX_STRING_ENTRIES: nat := 2_000_000

  datatype Fault =
    | EntryBudget
    | SpanExceeded
    | Unreadable
    | FieldLength
    | StringData
    | ImplausibleArray
    | UnsupportedType
    | UnsupportedElement
    | NestedArray
    | NotGguf
    | BadVersion
    | KeyCount
    | TensorCount
    | NameTooLong
    | TensorDims
    | BadAlignment
    | DataOffset

  // Where the stream stands, and what the reader has charged so far.
  datatype State = State(pos: nat, consumed: nat, strings: nat, entries: nat)

  // A value read, and the state after it.
  datatype Read<+T> = Read(value: T, next: State)

  // Header text: its bytes, one character each.
  function Chars(b: Bytes): (s: string)
    ensures |s| == |b| && forall i :: 0 <= i < |b| ==> s[i] == b[i] as char
  {
    seq(|b|, i requires 0 <= i < |b| => b[i] as char)
  }

  // ------------------------------------------------------------- primitives

  function AccountStrings(s: State, count: nat): Result<State, Fault> {
    if s.entries + count <= MAX_STRING_ENTRIES then Ok(s.(entries := s.entries + count))
    else Err(EntryBudget)
  }

  function Account(s: State, bytes: nat): Result<State, Fault> {
    if s.consumed + bytes <= MAX_HEADER_SPAN then Ok(s.(consumed := s.consumed + bytes))
    else Err(SpanExceeded)
  }

  function Take(d: Bytes, s: State, n: nat): Result<Read<Bytes>, Fault> {
    match Account(s, n)
    case Err(e) => Err(e)
    case Ok(t) =>
      if t.pos + n <= |d| then Ok(Read(d[t.pos..t.pos + n], t.(pos := t.pos + n)))
      else Err(Unreadable)
  }

  function UInt(d: Bytes, s: State, width: nat): Result<Read<nat>, Fault> {
    match Take(d, s, width)
    case Err(e) => Err(e)
    case Ok(Read(b, t)) => Ok(Read(FromLe(b), t))
  }

  /** Steps over bytes; like the seek it models, it may step past the end. */
  function Skip(s: State, count: nat): Result<State, Fault> {
    if count >= 0x8000_0000_0000_0000 then Err(FieldLength)
    else match Account(s, count)
      case Err(e) => Err(e)
      case Ok(t) => Ok(t.(pos := t.pos + count))
  }

  function Text(d: Bytes, s: State): Result<Read<string>, Fault> {
    match AccountStrings(s, 1)
    case Err(e) => Err(e)
    case Ok(t) =>
      match UInt(d, t, 8)
      case Err(e) => Err(e)
      case Ok(Read(length, u)) =>
        if length > MAX_KEY_BYTES then
          match Skip(u, length) { case Err(e) => Err(e) case Ok(v) => Ok(Read("", v)) }
        else if u.strings + length > MAX_STRING_BUDGET then Err(StringData)
        else
          match Take(d, u.(strings := u.strings + length), length)
          case Err(e) => Err(e)
          case Ok(Read(b, v)) => Ok(Read(Chars(b), v))
  }

  // ----------------------------------------------------------------- values

  /** Width of a scalar value type, or None for the variable-length ones. */
  function ScalarWidth(kind: nat): (w: Option<nat>)
    ensures w.Some? ==> w.value in {1, 2, 4, 8}
  {
    if kind in {0, 1, 7} then Some(1)
    else if kind in {2, 3} then Some(2)
    else if kind in {4, 5, 6} then Some(4)
    else if kind in {10, 11, 12} then Some(8)
    else None
  }

  function SkipValue(d: Bytes, s: State, kind: nat): Result<State, Fault> {
    if ScalarWidth(kind).Some? then Skip(s, ScalarWidth(kind).value)
    else if kind == 8 then SkipText(d, s)
    else if kind == 9 then
      match ArrayHead(d, s)
      case Err(e) => Err(e)
      case Ok(Read((element, count), t)) => SkipArrayBody(d, t, element, count)
    else Err(UnsupportedType)
  }

  function SkipText(d: Bytes, s: State): Result<State, Fault> {
    match UInt(d, s, 8)
    case Err(e) => Err(e)
    case Ok(Read(length, t)) => Skip(t, length)
  }

  function ArrayHead(d: Bytes, s: State): Result<Read<(nat, nat)>, Fault> {
    match UInt(d, s, 4)
    case Err(e) => Err(e)
    case Ok(Read(element, t)) =>
      match UInt(d, t, 8)
      case Err(e) => Err(e)
      case Ok(Read(count, u)) => Ok(Read((element, count), u))
  }

  function SkipArrayBody(d: Bytes, s: State, element: nat, count: nat): Result<State, Fault> {
    if count > MAX_ARRAY_LEN then Err(ImplausibleArray)
    else if ScalarWidth(element).Some? then Skip(s, ScalarWidth(element).value * count)
    else if element != 8 then Err(UnsupportedElement)
    else match AccountStrings(s, count)
      case Err(e) => Err(e)
      case Ok(t) => SkipTexts(d, t, count)
  }

  function SkipTexts(d: Bytes, s: State, count: nat): Result<State, Fault>
    decreases count
  {
    if count == 0 then Ok(s)
    else match SkipText(d, s)
      case Err(e) => Err(e)
      case Ok(t) => SkipTexts(d, t, count - 1)
  }

  // Two's complement: the value when it is not negative.
  function NonNegative(raw: nat, width: nat): Option<nat> {
    if 2 * raw < Pow256(width) then Some(raw) else None
  }

  function Unsigned(d: Bytes, s: State, kind: nat): Result<Read<Option<nat>>, Fault> {
    if kind in {4, 10} then Scalar(d, s, kind, false)
    else if kind in {5, 11} then Scalar(d, s, kind, true)
    else Skipped(d, s, kind)
  }

  function Integer(d: Bytes, s: State, kind: nat): Result<Read<Option<nat>>, Fault> {
    if kind in {0, 2, 4, 10} then Scalar(d, s, kind, false)
    else if kind in {1, 3, 5, 11} then Scalar(d, s, kind, true)
    else if kind == 7 then
      match UInt(d, s, 1)
      case Err(e) => Err(e)
      case Ok(Read(raw, t)) => Ok(Read(Some(if raw != 0 then 1 else 0), t))
    else Skipped(d, s, kind)
  }

  function Scalar(d: Bytes, s: State, kind: nat, signed: bool): Result<Read<Option<nat>>, Fault>
    requires ScalarWidth(kind).Some?
  {
    var width := ScalarWidth(kind).value;
    match UInt(d, s, width)
    case Err(e) => Err(e)
    case Ok(Read(raw, t)) => Ok(Read(if signed then NonNegative(raw, width) else Some(raw), t))
  }

  function Skipped<T>(d: Bytes, s: State, kind: nat): Result<Read<Option<T>>, Fault> {
    match SkipValue(d, s, kind)
    case Err(e) => Err(e)
    case Ok(t) => Ok(Read(None, t))
  }

  datatype RawValue = Int(n: nat) | Ints(ns: seq<nat>)

  function Raw(d: Bytes, s: State, kind: nat): Result<Read<Option<RawValue>>, Fault> {
    if kind != 9 then
      match Integer(d, s, kind)
      case Err(e) => Err(e)
      case Ok(Read(None, t)) => Ok(Read(None, t))
      case Ok(Read(Some(n), t)) => Ok(Read(Some(Int(n)), t))
    else
      match ArrayHead(d, s)
      case Err(e) => Err(e)
      case Ok(Read((element, count), t)) => RawArray(d, t, element, count)
  }

  function RawArray(d: Bytes, s: State, element: nat, count: nat): Result<Read<Option<RawValue>>, Fault> {
    if !IntegerKind(element) || count > TensorSizes.MAX_MODEL_LAYERS then
      match SkipArrayBody(d, s, element, count)
      case Err(e) => Err(e)
      case Ok(u) => Ok(Read(None, u))
    else
      match Integers(d, s, element, count)
      case Err(e) => Err(e)
      case Ok(Read(values, u)) =>
        Ok(Read(if Collect(values).Some? then Some(Ints(Collect(values).value)) else None, u))
  }

  predicate IntegerKind(element: nat) { element <= 5 || element in {7, 10, 11} }

  /** The elements of an array; a negative one has no value. */
  function Integers(d: Bytes, s: State, element: nat, count: nat): Result<Read<seq<Option<nat>>>, Fault>
    decreases count
  {
    if count == 0 then Ok(Read([], s))
    else match Integer(d, s, element)
      case Err(e) => Err(e)
      case Ok(Read(head, t)) => Before(head, Integers(d, t, element, count - 1))
  }

  // All values, if none is missing.
  function Collect(values: seq<Option<nat>>): Option<seq<nat>> {
    if values == [] then Some([])
    else
      var tail := Collect(values[1..]);
      if values[0].Some? && tail.Some? then Some([values[0].value] + tail.value) else None
  }

  /** A value followed by the rest of a list, or the rest's fault. */
  function Before<T>(head: T, rest: Result<Read<seq<T>>, Fault>): Result<Read<seq<T>>, Fault> {
    match rest
    case Err(e) => Err(e)
    case Ok(Read(tail, t)) => Ok(Read([head] + tail, t))
  }

  function TextArray(d: Bytes, s: State, kind: nat): Result<Read<seq<string>>, Fault> {
    if kind != 9 then
      match SkipValue(d, s, kind) { case Err(e) => Err(e) case Ok(t) => Ok(Read([], t)) }
    else
      match ArrayHead(d, s)
      case Err(e) => Err(e)
      case Ok(Read((element, count), t)) =>
        if count > MAX_ARRAY_LEN then Err(ImplausibleArray)
        else if ScalarWidth(element).Some? then
          match Skip(t, ScalarWidth(element).value * count) { case Err(e) => Err(e) case Ok(u) => Ok(Read([], u)) }
        else if element == 9 then Err(NestedArray)
        else TextElements(d, t, element, count)
  }

  /** The elements as the reader sees them, blank ones included. */
  function TextElements(d: Bytes, s: State, element: nat, count: nat): Result<Read<seq<string>>, Fault>
    decreases count
  {
    if count == 0 then Ok(Read([], s))
    else if element == 8 then
      match Text(d, s)
      case Err(e) => Err(e)
      case Ok(Read(head, t)) => Before(head, TextElements(d, t, element, count - 1))
    else
      match SkipValue(d, s, element)
      case Err(e) => Err(e)
      case Ok(t) => TextElements(d, t, element, count - 1)
  }

  // ------------------------------------------------- the grammar of extents

  function NumberAt(d: Bytes, pos: nat, width: nat): Option<nat> {
    if pos + width <= |d| then Some(FromLe(d[pos..pos + width])) else None
  }

  /** Where a length-prefixed text that starts at `pos` ends. */
  function TextEnd(d: Bytes, pos: nat): Option<nat> {
    match NumberAt(d, pos, 8)
    case None => None
    case Some(length) => Some(pos + 8 + length)
  }

  function TextsEnd(d: Bytes, pos: nat, count: nat): Option<nat>
    decreases count
  {
    if count == 0 then Some(pos)
    else match TextEnd(d, pos)
      case None => None
      case Some(next) => TextsEnd(d, next, count - 1)
  }

  function ElementsEnd(d: Bytes, pos: nat, element: nat, count: nat): Option<nat> {
    if ScalarWidth(element).Some? then Some(pos + ScalarWidth(element).value * count)
    else if element == 8 then TextsEnd(d, pos, count)
    else if count == 0 then Some(pos)
    else None
  }

  /** Where a value of a given type that starts at `pos` ends. */
  function ValueEnd(d: Bytes, pos: nat, kind: nat): Option<nat> {
    if ScalarWidth(kind).Some? then Some(pos + ScalarWidth(kind).value)
    else if kind == 8 then TextEnd(d, pos)
    else if kind == 9 then
      match (NumberAt(d, pos, 4), NumberAt(d, pos + 4, 8))
      case (Some(element), Some(count)) => ElementsEnd(d, pos + 12, element, count)
      case _ => None
    else None
  }

  /** The reader has charged exactly the bytes it passed, all within its span. */
  predicate InStep(s: State) { s.consumed == s.pos && s.pos <= MAX_HEADER_SPAN }

  predicate FramesAt(s: State, end: Option<nat>) { InStep(s) && end == Some(s.pos) }

  lemma UIntFrames(d: Bytes, s: State, width: nat)
    requires InStep(s) && UInt(d, s, width).Ok?
    ensures var r := UInt(d, s, width).value;
            FramesAt(r.next, Some(s.pos + width)) && NumberAt(d, s.pos, width) == Some(r.value)
  {
  }

  lemma ArrayHeadFrames(d: Bytes, s: State)
    requires InStep(s) && ArrayHead(d, s).Ok?
    ensures var r := ArrayHead(d, s).value;
            FramesAt(r.next, Some(s.pos + 12))
            && NumberAt(d, s.pos, 4) == Some(r.value.0) && NumberAt(d, s.pos + 4, 8) == Some(r.value.1)
  {
    UIntFrames(d, s, 4);
    UIntFrames(d, UInt(d, s, 4).value.next, 8);
  }

  lemma SkipTextFrames(d: Bytes, s: State)
    requires InStep(s) && SkipText(d, s).Ok?
    ensures FramesAt(SkipText(d, s).value, TextEnd(d, s.pos))
  {
    UIntFrames(d, s, 8);
  }

  lemma TextFrames(d: Bytes, s: State)
    requires InStep(s) && Text(d, s).Ok?
    ensures FramesAt(Text(d, s).value.next, TextEnd(d, s.pos))
    ensures Text(d, s).value.value == KeyAt(d, s.pos)
  {
    UIntFrames(d, AccountStrings(s, 1).value, 8);
  }

  /** What a text that starts at `pos` is read as: nothing, if it is too long. */
  function KeyAt(d: Bytes, pos: nat): string {
    match NumberAt(d, pos, 8)
    case None => ""
    case Some(length) =>
      if length <= MAX_KEY_BYTES && pos + 8 + length <= |d| then Chars(d[pos + 8..pos + 8 + length]) else ""
  }

  lemma {:induction false} SkipTextsFrames(d: Bytes, s: State, count: nat)
    requires InStep(s) && SkipTexts(d, s, count).Ok?
    ensures FramesAt(SkipTexts(d, s, count).value, TextsEnd(d, s.pos, count))
    decreases count
  {
    if count > 0 {
      SkipTextFrames(d, s);
      SkipTextsFrames(d, SkipText(d, s).value, count - 1);
    }
  }

  lemma SkipArrayBodyFrames(d: Bytes, s: State, element: nat, count: nat)
    requires InStep(s) && SkipArrayBody(d, s, element, count).Ok?
    ensures FramesAt(SkipArrayBody(d, s, element, count).value, ElementsEnd(d, s.pos, element, count))
  {
    if ScalarWidth(element).None? {
      SkipTextsFrames(d, AccountStrings(s, count).value, count);
    }
  }

  lemma SkipValueFrames(d: Bytes, s: State, kind: nat)
    requires InStep(s) && SkipValue(d, s, kind).Ok?
    ensures FramesAt(SkipValue(d, s, kind).value, ValueEnd(d, s.pos, kind))
  {
    if ScalarWidth(kind).Some? {
    } else if kind == 8 {
      SkipTextFrames(d, s);
    } else if kind == 9 {
      ArrayHeadFrames(d, s);
      var r := ArrayHead(d, s).value;
      SkipArrayBodyFrames(d, r.next, r.value.0, r.value.1);
    }
  }

  lemma IntegerFrames(d: Bytes, s: State, kind: nat)
    requires InStep(s) && Integer(d, s, kind).Ok?
    ensures FramesAt(Integer(d, s, kind).value.next, ValueEnd(d, s.pos, kind))
  {
    if ScalarWidth(kind).None? {
      SkipValueFrames(d, s, kind);
    }
  }

  lemma UnsignedFrames(d: Bytes, s: State, kind: nat)
    requires InStep(s) && Unsigned(d, s, kind).Ok?
    ensures FramesAt(Unsigned(d, s, kind).value.next, ValueEnd(d, s.pos, kind))
  {
    if kind !in {4, 5, 10, 11} {
      SkipValueFrames(d, s, kind);
    }
  }

  lemma ElementsStep(d: Bytes, pos: nat, element: nat, count: nat)
    requires ScalarWidth(element).Some? && count > 0
    ensures ElementsEnd(d, pos, element, count)
         == ElementsEnd(d, pos + ScalarWidth(element).value, element, count - 1)
  {
    var width := ScalarWidth(element).value;
    assert width * count == width + width * (count - 1);
  }

  lemma {:induction false} IntegersFrame(d: Bytes, s: State, element: nat, count: nat)
    requires InStep(s) && IntegerKind(element) && Integers(d, s, element, count).Ok?
    ensures FramesAt(Integers(d, s, element, count).value.next, ElementsEnd(d, s.pos, element, count))
    decreases count
  {
    if count > 0 {
      IntegerFrames(d, s, element);
      var r := Integer(d, s, element).value;
      IntegersFrame(d, r.next, element, count - 1);
      ElementsStep(d, s.pos, element, count);
    }
  }

  lemma RawFrames(d: Bytes, s: State, kind: nat)
    requires InStep(s) && Raw(d, s, kind).Ok?
    ensures FramesAt(Raw(d, s, kind).value.next, ValueEnd(d, s.pos, kind))
  {
    if kind != 9 {
      IntegerFrames(d, s, kind);
    } else {
      ArrayHeadFrames(d, s);
      var r := ArrayHead(d, s).value;
      var (element, count) := r.value;
      if !IntegerKind(element) || count > TensorSizes.MAX_MODEL_LAYERS {
        SkipArrayBodyFrames(d, r.next, element, count);
      } else {
        IntegersFrame(d, r.next, element, count);
      }
    }
  }

  lemma {:induction false} TextElementsFrame(d: Bytes, s: State, element: nat, count: nat)
    requires InStep(s) && ScalarWidth(element).None? && element != 9
    requires TextElements(d, s, element, count).Ok?
    ensures FramesAt(TextElements(d, s, element, count).value.next, ElementsEnd(d, s.pos, element, count))
    decreases count
  {
    if count > 0 && element == 8 {
      TextFrames(d, s);
      TextElementsFrame(d, Text(d, s).value.next, element, count - 1);
    }
  }

  lemma TextArrayFrames(d: Bytes, s: State, kind: nat)
    requires InStep(s) && TextArray(d, s, kind).Ok?
    ensures FramesAt(TextArray(d, s, kind).value.next, ValueEnd(d, s.pos, kind))
  {
    if kind != 9 {
      SkipValueFrames(d, s, kind);
    } else {
      ArrayHeadFrames(d, s);
      var r := ArrayHead(d, s).value;
      if ScalarWidth(r.value.0).None? {
        TextElementsFrame(d, r.next, r.value.0, r.value.1);
      }
    }
  }

  // -------------------------------------------------------------- key scans

  // The readers a scan may use for the value behind a key.
  datatype Reading = SkipIt | AsText | AsUnsigned | AsInteger | AsRaw | AsTexts | AsFlag

  /** Reads a value in one of the ways, keeping only the state after it. */
  function After(d: Bytes, s: State, kind: nat, how: Reading): Result<State, Fault> {
    match how
    case SkipIt => SkipValue(d, s, kind)
    case AsText => if kind == 8 then Ended(Text(d, s)) else SkipValue(d, s, kind)
    case AsUnsigned => Ended(Unsigned(d, s, kind))
    case AsInteger => Ended(Integer(d, s, kind))
    case AsRaw => Ended(Raw(d, s, kind))
    case AsTexts => Ended(TextArray(d, s, kind))
    case AsFlag => if kind == 7 then Ended(UInt(d, s, 1)) else SkipValue(d, s, kind)
  }

  function Ended<T>(r: Result<Read<T>, Fault>): Result<State, Fault> {
    match r { case Err(e) => Err(e) case Ok(x) => Ok(x.next) }
  }

  /** Every way of reading a value ends where the grammar says the value ends. */
  lemma EveryReadingFrames(d: Bytes, s: State, kind: nat, how: Reading)
    requires InStep(s) && After(d, s, kind, how).Ok?
    ensures FramesAt(After(d, s, kind, how).value, ValueEnd(d, s.pos, kind))
  {
    match how
    case SkipIt => SkipValueFrames(d, s, kind);
    case AsText => if kind == 8 { TextFrames(d, s); } else { SkipValueFrames(d, s, kind); }
    case AsUnsigned => UnsignedFrames(d, s, kind);
    case AsInteger => IntegerFrames(d, s, kind);
    case AsRaw => RawFrames(d, s, kind);
    case AsTexts => TextArrayFrames(d, s, kind);
    case AsFlag => if kind == 7 { UIntFrames(d, s, 1); } else { SkipValueFrames(d, s, kind); }
  }

  /** Two ways of reading one value that both succeed stop at the same byte. */
  lemma ReadingsAgree(d: Bytes, s: State, t: State, kind: nat, how: Reading, other: Reading)
    requires InStep(s) && InStep(t) && s.pos == t.pos
    requires After(d, s, kind, how).Ok? && After(d, t, kind, other).Ok?
    ensures After(d, s, kind, how).value.pos == After(d, t, kind, other).value.pos
  {
    EveryReadingFrames(d, s, kind, how);
    EveryReadingFrames(d, t, kind, other);
  }

  // A key and the type of its value.
  datatype Entry = Entry(key: string, kind: nat)

  /** The keys a scan of `count` entries visits, reading the k-th value as `hows[k]`. */
  function Visited(d: Bytes, s: State, hows: seq<Reading>): Result<Read<seq<Entry>>, Fault>
    decreases |hows|
  {
    if hows == [] then Ok(Read([], s))
    else match Text(d, s)
      case Err(e) => Err(e)
      case Ok(Read(key, t)) =>
        match UInt(d, t, 4)
        case Err(e) => Err(e)
        case Ok(Read(kind, u)) =>
          match After(d, u, kind, hows[0])
          case Err(e) => Err(e)
          case Ok(v) =>
            match Visited(d, v, hows[1..])
            case Err(e) => Err(e)
            case Ok(Read(rest, w)) => Ok(Read([Entry(key, kind)] + rest, w))
  }

  /**
   Whatever each scan reads and skips, scans of the same header that succeed see
   the same keys and types and end at the same byte, which each has charged for.
   */
  lemma {:induction false} ScansAgree(d: Bytes, s: State, t: State, hows: seq<Reading>, others: seq<Reading>)
    requires InStep(s) && InStep(t) && s.pos == t.pos && |hows| == |others|
    requires Visited(d, s, hows).Ok? && Visited(d, t, others).Ok?
    ensures var a, b := Visited(d, s, hows).value, Visited(d, t, others).value;
            a.value == b.value && a.next.pos == b.next.pos && InStep(a.next) && InStep(b.next)
    decreases |hows|
  {
    if hows != [] {
      TextFrames(d, s);
      TextFrames(d, t);
      var s1, t1 := Text(d, s).value.next, Text(d, t).value.next;
      UIntFrames(d, s1, 4);
      UIntFrames(d, t1, 4);
      var s2, t2 := UInt(d, s1, 4).value, UInt(d, t1, 4).value;
      EveryReadingFrames(d, s2.next, s2.value, hows[0]);
      EveryReadingFrames(d, t2.next, t2.value, others[0]);
      ScansAgree(d, After(d, s2.next, s2.value, hows[0]).value, After(d, t2.next, t2.value, others[0]).value,
                 hows[1..], others[1..]);
    }
  }
}
