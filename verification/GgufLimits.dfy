/**
 Two further ways of reading printed values, and what the bounded reader refuses:
 every limit by its number, at the byte where it is passed.
 */
module GgufLimits {
  import opened Outcomes
  import opened LittleEndian
  import opened GgufReader
  import opened GgufPrinter

  // ----------------------------------------------------- other ways to read

  /** Reading an unsigned number takes the 32- and 64-bit integers, and steps over anything else. */
  lemma UnsignedPrinted(d: Bytes, s: State, v: Value)
    requires Passable(s, v) && At(d, s.pos, PrintValue(v))
    ensures var wide := v.Num? && (v.t.U32? || v.t.I32? || v.t.U64? || v.t.I64?);
            Unsigned(d, s, Kind(v)) == Ok(Read(if wide then v.t.Natural(v.n) else None, Past(s, v)))
  {
    hide UInt, At, ToLe, Pow256, SkipValue;
    if v.Num? && (v.t.U32? || v.t.I32? || v.t.U64? || v.t.I64?) {
      assert PrintValue(v) == ToLe(v.n, v.t.Width()) + [];
      NumberThen(d, s, v.t, v.n, []);
      WidthIsRead(v.t);
    } else {
      SkipPrinted(d, s, v);
      hide Past, PrintValue;
    }
  }

  function KeptAll(ss: seq<string>): (r: seq<string>)
    ensures |r| == |ss|
  {
    if ss == [] then [] else [Kept(ss[0])] + KeptAll(ss[1..])
  }

  function KeptBytes(ss: seq<string>): nat {
    if ss == [] then 0 else |Kept(ss[0])| + KeptBytes(ss[1..])
  }

  // The state after a list of texts that were all read.
  function ChargedAll(s: State, ss: seq<string>): State {
    Advance(s, |PrintTexts(ss)|).(strings := s.strings + KeptBytes(ss), entries := s.entries + |ss|)
  }

  lemma {:induction false} TextThen(d: Bytes, s: State, text: string, rest: Bytes)
    requires Narrow(text) && Room(s, 8 + |text| + |rest|) && At(d, s.pos, PrintText(text) + rest) && Affordable(s, text)
    ensures Text(d, s) == Ok(Read(Kept(text), Charged(s, text)))
    ensures At(d, Charged(s, text).pos, rest) && Room(Charged(s, text), |rest|)
  {
    AtBoth(d, s.pos, PrintText(text), rest);
    TextPrinted(d, s, text);
    hide At, PrintText, Text, Narrow;
  }

  lemma {:induction false} TextElementsPrinted(d: Bytes, s: State, ss: seq<string>)
    requires NarrowAll(ss) && Room(s, |PrintTexts(ss)|) && At(d, s.pos, PrintTexts(ss))
    requires s.strings + KeptBytes(ss) <= 2000000 && s.entries + |ss| <= 2000000
    ensures TextElements(d, s, 8, |ss|) == Ok(Read(KeptAll(ss), ChargedAll(s, ss)))
    decreases |ss|
  {
    hide Text, At, PrintText, Narrow, Kept;
    if ss != [] {
      TextThen(d, s, ss[0], PrintTexts(ss[1..]));
      TextElementsPrinted(d, Charged(s, ss[0]), ss[1..]);
      assert ChargedAll(Charged(s, ss[0]), ss[1..]) == ChargedAll(s, ss);
    }
  }

  /** A printed list of texts is read text by text, long ones as blanks; any other value as an empty list. */
  lemma {:induction false} TextArrayPrinted(d: Bytes, s: State, v: Value)
    requires Passable(s, v) && At(d, s.pos, PrintValue(v))
    requires v.Strs? ==> s.strings + KeptBytes(v.ss) <= 2000000
    ensures TextArray(d, s, Kind(v))
         == if v.Strs? then Ok(Read(KeptAll(v.ss), ChargedAll(Advance(s, 12), v.ss))) else Ok(Read([], Past(s, v)))
  {
    hide UInt, At, ToLe, Pow256, SkipValue, TextElements, ArrayHead, PrintTexts, PrintNumbers, Skip;
    match v
    case Strs(ss) =>
      TextsHead(d, s, ss);
      TextElementsPrinted(d, Advance(s, 12), ss);
    case Nums(t, ns) =>
      NumbersHead(d, s, t, ns);
      WidthIsRead(t);
      SkipBytes(Advance(s, 12), t.Width() * |ns|);
      AdvanceTwice(s, 12, t.Width() * |ns|);
    case _ =>
      SkipPrinted(d, s, v);
  }

  lemma SkipBytes(s: State, n: nat)
    requires Room(s, n)
    ensures Skip(s, n) == Ok(Advance(s, n))
  {
  }

  // ------------------------------------------------------------- the limits

  /** Nothing is read past 128 MiB of header, past the end of the file, or in steps of 64 signed bits. */
  lemma ReadingIsBounded(d: Bytes, s: State, n: nat)
    ensures s.consumed + n > 128 * 1024 * 1024 ==> Take(d, s, n) == Err(SpanExceeded)
    ensures s.consumed + n <= 128 * 1024 * 1024 && s.pos + n > |d| ==> Take(d, s, n) == Err(Unreadable)
    ensures s.consumed + n <= 128 * 1024 * 1024 && s.pos + n <= |d| ==>
              Take(d, s, n) == Ok(Read(d[s.pos..s.pos + n], Advance(s, n)))
    ensures n > 0x7FFF_FFFF_FFFF_FFFF ==> Skip(s, n) == Err(FieldLength)
    ensures n <= 0x7FFF_FFFF_FFFF_FFFF && s.consumed + n > 128 * 1024 * 1024 ==> Skip(s, n) == Err(SpanExceeded)
    ensures s.consumed + n <= 128 * 1024 * 1024 ==> Skip(s, n) == Ok(Advance(s, n))
  {
  }

  /** How a text is refused: too many texts, too much text, or too long to step over. */
  lemma {:induction false} TextIsBounded(d: Bytes, s: State, length: nat)
    requires Room(s, 8) && length < 0x1_0000_0000_0000_0000 && At(d, s.pos, ToLe(length, 8))
    ensures s.entries >= 2000000 ==> Text(d, s) == Err(EntryBudget)
    ensures s.entries < 2000000 && length <= 1024 && s.strings + length > 2000000 ==> Text(d, s) == Err(StringData)
    ensures s.entries < 2000000 && length > 0x7FFF_FFFF_FFFF_FFFF ==> Text(d, s) == Err(FieldLength)
    ensures length > 0x7FFF_FFFF_FFFF_FFFF ==> SkipText(d, s) == Err(FieldLength)
  {
    assert ToLe(length, 8) == ToLe(length, 8) + [];
    UInt8Then(d, s, length, []);
    UInt8Then(d, s.(entries := s.entries + 1), length, []);
    hide UInt, At, ToLe;
  }

  /** How an array is refused, by every reader: too long, or of a type no header holds in arrays. */
  lemma {:induction false} ArraysAreBounded(d: Bytes, s: State, element: nat, count: nat)
    requires Room(s, 12) && element < 0x1_0000_0000 && count < 0x1_0000_0000_0000_0000
    requires At(d, s.pos, ToLe(element, 4) + (ToLe(count, 8) + []))
    ensures count > 16777216 ==>
              SkipValue(d, s, 9) == Err(ImplausibleArray) && Raw(d, s, 9) == Err(ImplausibleArray)
              && TextArray(d, s, 9) == Err(ImplausibleArray)
    ensures count <= 16777216 && (element == 9 || element > 12) ==>
              SkipValue(d, s, 9) == Err(UnsupportedElement) && Raw(d, s, 9) == Err(UnsupportedElement)
    ensures count <= 16777216 && element == 9 ==> TextArray(d, s, 9) == Err(NestedArray)
    ensures count <= 16777216 && element == 8 && s.entries + count > 2000000 ==>
              SkipValue(d, s, 9) == Err(EntryBudget) && Raw(d, s, 9) == Err(EntryBudget)
  {
    ArrayHeadThen(d, s, element, count, []);
    hide ArrayHead, At, ToLe, SkipTexts, TextElements, Integers, Skip;
  }

  /** A type that no header holds is refused by every reader. */
  lemma UnknownTypesAreRefused(d: Bytes, s: State, kind: nat)
    requires kind > 12
    ensures SkipValue(d, s, kind) == Err(UnsupportedType) && Integer(d, s, kind) == Err(UnsupportedType)
    ensures Unsigned(d, s, kind) == Err(UnsupportedType) && Raw(d, s, kind) == Err(UnsupportedType)
    ensures TextArray(d, s, kind) == Err(UnsupportedType)
  {
  }
}
