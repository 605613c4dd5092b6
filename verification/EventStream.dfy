/**
 The line splitter under a streamed response: text arrives in chunks cut
 anywhere, and the data payloads handed on must not depend on the cuts. Chunks
 are text that is already decoded.
 */
module EventStream {
  import opened Outcomes
  import opened Strings

  const MAX_STREAM_PENDING_BYTES: nat := 4 * 1024 * 1024

  function TrimReturns(text: string): string {
    if text != [] && text[|text| - 1] == '\r' then TrimReturns(text[..|text| - 1]) else text
  }

  // ------------------------------------------------------- lines and payloads

  // Where the first newline is, or the length of the text.
  function Newline(text: string): (n: nat)
    ensures n <= |text| && (n < |text| ==> text[n] == '\n')
    ensures forall i :: 0 <= i < n ==> text[i] != '\n'
  {
    if text == [] || text[0] == '\n' then 0 else 1 + Newline(text[1..])
  }

  // The complete lines of a text, and what follows the last of them.
  function Lines(text: string): seq<string> {
    var n := Newline(text);
    if n == |text| then [] else [TrimReturns(text[..n])] + Lines(text[n + 1..])
  }

  function Rest(text: string): string {
    var n := Newline(text);
    if n == |text| then text else Rest(text[n + 1..])
  }

  // The payload of a complete line: what follows `data:` when it is JSON.
  function LinePayload(parses: string -> bool, line: string): seq<string> {
    match StripPrefix(line, "data:")
    case None => []
    case Some(data) =>
      if Trim(data) == "[DONE]" || !parses(Trim(data)) then [] else [Trim(data)]
  }

  function Payloads(parses: string -> bool, lines: seq<string>): seq<string> {
    if lines == [] then [] else LinePayload(parses, lines[0]) + Payloads(parses, lines[1..])
  }

  // The payload of an unterminated last line, which is trimmed on both sides first.
  function LastPayload(parses: string -> bool, rest: string): seq<string> {
    match StripPrefix(Trim(rest), "data:")
    case None => []
    case Some(data) => if parses(Trim(data)) then [Trim(data)] else []
  }

  // What a whole text hands on.
  function Handed(parses: string -> bool, text: string): seq<string> {
    Payloads(parses, Lines(text)) + LastPayload(parses, Rest(text))
  }

  // ---------------------------------------------------- chunk independence

  /** Cutting a text anywhere and carrying the rest over gives the same lines. */
  lemma {:induction false} LinesConcat(a: string, b: string)
    ensures Lines(a + b) == Lines(a) + Lines(Rest(a) + b)
    ensures Rest(a + b) == Rest(Rest(a) + b)
    decreases |a|
  {
    hide *;
    var n := Newline(a);
    if n == |a| {
      NoLine(a);
      assert [] + Lines(a + b) == Lines(a + b);
    } else {
      LinesConcat(a[n + 1..], b);
      FirstLineConcat(a, b);
    }
  }

  lemma FirstLineConcat(a: string, b: string)
    requires Newline(a) < |a|
    requires var tail := a[Newline(a) + 1..]; Lines(tail + b) == Lines(tail) + Lines(Rest(tail) + b)
    requires var tail := a[Newline(a) + 1..]; Rest(tail + b) == Rest(Rest(tail) + b)
    ensures Lines(a + b) == Lines(a) + Lines(Rest(a) + b)
    ensures Rest(a + b) == Rest(Rest(a) + b)
  {
    hide *;
    var n := Newline(a);
    var tail := a[n + 1..];
    NewlineConcat(a, b);
    FirstLine(a);
    FirstLine(a + b);
    assert (a + b)[n + 1..] == tail + b && (a + b)[..n] == a[..n];
    Associate([TrimReturns(a[..n])], Lines(tail), Lines(Rest(tail) + b));
  }

  lemma Associate(a: seq<string>, b: seq<string>, c: seq<string>)
    ensures a + (b + c) == (a + b) + c
  {
  }

  lemma {:induction false} NoLine(text: string)
    requires Newline(text) == |text|
    ensures Lines(text) == [] && Rest(text) == text
  {
  }

  lemma {:induction false} FirstLine(text: string)
    requires Newline(text) < |text|
    ensures Lines(text) == [TrimReturns(text[..Newline(text)])] + Lines(text[Newline(text) + 1..])
    ensures Rest(text) == Rest(text[Newline(text) + 1..])
  {
  }

  lemma {:induction false} NewlineConcat(a: string, b: string)
    requires Newline(a) < |a|
    ensures Newline(a + b) == Newline(a)
  {
    assert (a + b)[0] == a[0];
    if a[0] != '\n' {
      assert (a + b)[1..] == a[1..] + b;
      NewlineConcat(a[1..], b);
    }
  }

  lemma {:induction false} RestHasNoNewline(text: string)
    ensures Newline(Rest(text)) == |Rest(text)| <= |text|
    ensures Lines(Rest(text)) == [] && Rest(Rest(text)) == Rest(text)
    decreases |text|
  {
    hide *;
    var n := Newline(text);
    if n == |text| {
      NoLine(text);
    } else {
      RestHasNoNewline(text[n + 1..]);
      FirstLine(text);
    }
  }

  lemma {:induction false} PayloadsConcat(parses: string -> bool, a: seq<string>, b: seq<string>)
    ensures Payloads(parses, a + b) == Payloads(parses, a) + Payloads(parses, b)
  {
    if a == [] {
      assert a + b == b;
    } else {
      assert (a + b)[1..] == a[1..] + b;
      PayloadsConcat(parses, a[1..], b);
    }
  }

  // ------------------------------------------------------------- the stream

  datatype Chunk = Text(text: string) | ReadFailure

  function TextOf(chunk: Chunk): string {
    if chunk.Text? then chunk.text else ""
  }

  function Whole(chunks: seq<Chunk>): string {
    if chunks == [] then "" else Whole(chunks[..|chunks| - 1]) + TextOf(chunks[|chunks| - 1])
  }

  // The buffer holds at most the limit right after chunk `k` is pushed.
  predicate Fits(chunks: seq<Chunk>, k: nat)
    requires k < |chunks|
  {
    ByteLen(Rest(Whole(chunks[..k])) + TextOf(chunks[k])) <= 4194304
  }

  // The first `taken` chunks were read, and none of them was too long.
  predicate Taken(chunks: seq<Chunk>, taken: nat) {
    taken <= |chunks| && forall k :: 0 <= k < taken ==> chunks[k].Text? && Fits(chunks, k)
  }

  lemma WholeSnoc(chunks: seq<Chunk>, k: nat)
    requires k < |chunks|
    ensures Whole(chunks[..k + 1]) == Whole(chunks[..k]) + TextOf(chunks[k])
  {
    assert chunks[..k + 1][..k] == chunks[..k];
  }

  datatype Ending = Completed | LineTooLong | ReadFailed

  /** Takes the next complete line and moves the cursor past its newline. */
  method TakeLine(pending: string, cursor: nat) returns (line: Option<string>, next: nat)
    requires cursor <= |pending|
    ensures var n := cursor + Newline(pending[cursor..]);
            if n == |pending| then line == None && next == cursor
            else line == Some(TrimReturns(pending[cursor..n])) && next == n + 1
  {
    var relative := Newline(pending[cursor..]);
    if cursor + relative == |pending| { return None, cursor; }
    var end := cursor + relative;
    line := Some(TrimReturns(pending[cursor..end]));
    next := end + 1;
  }

  // The lines before the cursor are taken; what follows is still to be read.
  predicate TakenUpTo(pending: string, cursor: nat, taken: seq<string>)
    requires cursor <= |pending|
  {
    Lines(pending) == taken + Lines(pending[cursor..]) && Rest(pending) == Rest(pending[cursor..])
  }

  lemma TakeOneMore(pending: string, cursor: nat, taken: seq<string>, line: string, next: nat)
    requires cursor <= |pending| && TakenUpTo(pending, cursor, taken)
    requires cursor + Newline(pending[cursor..]) == next - 1 < |pending|
    requires line == TrimReturns(pending[cursor..next - 1])
    ensures TakenUpTo(pending, next, taken + [line])
  {
    hide TrimReturns, Newline;
    var left := pending[cursor..];
    assert left[..next - 1 - cursor] == pending[cursor..next - 1];
    assert left[next - cursor..] == pending[next..];
    assert taken + ([line] + Lines(pending[next..])) == (taken + [line]) + Lines(pending[next..]);
  }

  lemma {:induction false} AllTaken(pending: string, cursor: nat, taken: seq<string>)
    requires cursor <= |pending| && TakenUpTo(pending, cursor, taken)
    requires cursor + Newline(pending[cursor..]) == |pending|
    ensures Lines(pending) == taken && Rest(pending) == pending[cursor..]
  {
    assert taken + [] == taken;
  }

  lemma NothingTaken(pending: string)
    ensures TakenUpTo(pending, 0, [])
  {
    assert pending[0..] == pending;
  }

  lemma {:induction false} PayloadsSnoc(parses: string -> bool, taken: seq<string>, line: string)
    ensures Payloads(parses, taken + [line]) == Payloads(parses, taken) + LinePayload(parses, line)
  {
    PayloadsConcat(parses, taken, [line]);
    PayloadOfOne(parses, line);
  }

  /** Hands on the payloads of every complete line and drops those lines from the buffer. */
  method Drain(parses: string -> bool, pending: string) returns (payloads: seq<string>, rest: string)
    ensures payloads == Payloads(parses, Lines(pending)) && rest == Rest(pending)
  {
    hide Newline, Lines, Rest, TrimReturns, LinePayload, TakenUpTo;
    var cursor := 0;
    payloads := [];
    ghost var taken: seq<string> := [];
    NothingTaken(pending);
    var line, next := TakeLine(pending, cursor);
    while line.Some?
      invariant cursor <= |pending| && TakenUpTo(pending, cursor, taken)
      invariant var n := cursor + Newline(pending[cursor..]);
                if n == |pending| then line == None && next == cursor
                else line == Some(TrimReturns(pending[cursor..n])) && next == n + 1
      invariant payloads == Payloads(parses, taken)
      decreases |pending| - cursor, line.Some?
    {
      TakeOneMore(pending, cursor, taken, line.value, next);
      PayloadsSnoc(parses, taken, line.value);
      taken := taken + [line.value];
      payloads := payloads + LinePayload(parses, line.value);
      cursor := next;
      line, next := TakeLine(pending, cursor);
    }
    AllTaken(pending, cursor, taken);
    rest := if cursor > 0 then pending[cursor..] else pending;
  }

  lemma PayloadOfOne(parses: string -> bool, line: string)
    ensures Payloads(parses, [line]) == LinePayload(parses, line)
  {
    assert [line][1..] == [];
    assert LinePayload(parses, line) + [] == LinePayload(parses, line);
  }

  /**
   The buffering loop. A completed stream hands on exactly what its whole text
   hands on, however it was cut; it stops early at the first chunk that fails to
   read or overfills the buffer, and no other.
   */
  method Stream(parses: string -> bool, chunks: seq<Chunk>)
    returns (delivered: seq<string>, ending: Ending, taken: nat)
    ensures Taken(chunks, taken)
    ensures match ending {
              case Completed => taken == |chunks| && delivered == Handed(parses, Whole(chunks))
              case LineTooLong => taken < |chunks| && chunks[taken].Text? && !Fits(chunks, taken)
              case ReadFailed => taken < |chunks| && chunks[taken].ReadFailure?
            }
    ensures !ending.Completed? ==> delivered == Payloads(parses, Lines(Whole(chunks[..taken])))
  {
    hide Lines, Rest, Payloads, LastPayload, ByteLen, Trim, Newline, Whole;
    var pending := "";
    delivered := [];
    taken := 0;
    NothingRead(parses);
    assert chunks[..0] == [];
    for i := 0 to |chunks|
      invariant taken == i && Taken(chunks, i)
      invariant pending == Rest(Whole(chunks[..i])) && Newline(pending) == |pending|
      invariant delivered == Payloads(parses, Lines(Whole(chunks[..i])))
    {
      if chunks[i].ReadFailure? {
        ending := ReadFailed;
        return;
      }
      pending := pending + chunks[i].text;
      if ByteLen(pending) > MAX_STREAM_PENDING_BYTES {
        ending := LineTooLong;
        return;
      }
      var payloads, rest := Drain(parses, pending);
      ReadOneMore(parses, chunks, i);
      delivered := delivered + payloads;
      pending := rest;
      taken := i + 1;
    }
    assert chunks[..|chunks|] == chunks;
    ending := Completed;
    if Trim(pending) != [] {
      delivered := delivered + LastPayload(parses, pending);
    } else {
      BlankHandsNothing(parses, pending);
    }
  }

  lemma ReadOneMore(parses: string -> bool, chunks: seq<Chunk>, k: nat)
    requires k < |chunks|
    ensures var pending := Rest(Whole(chunks[..k])) + TextOf(chunks[k]);
            Rest(pending) == Rest(Whole(chunks[..k + 1])) && Newline(Rest(pending)) == |Rest(pending)|
            && Payloads(parses, Lines(Whole(chunks[..k]))) + Payloads(parses, Lines(pending))
            == Payloads(parses, Lines(Whole(chunks[..k + 1])))
  {
    hide *;
    var before := Whole(chunks[..k]);
    WholeSnoc(chunks, k);
    LinesConcat(before, TextOf(chunks[k]));
    PayloadsConcat(parses, Lines(before), Lines(Rest(before) + TextOf(chunks[k])));
    RestHasNoNewline(Rest(before) + TextOf(chunks[k]));
  }

  lemma NothingRead(parses: string -> bool)
    ensures Rest(Whole([])) == "" && Newline("") == 0
    ensures Payloads(parses, Lines(Whole([]))) == []
  {
  }

  lemma BlankHandsNothing(parses: string -> bool, rest: string)
    requires Trim(rest) == []
    ensures LastPayload(parses, rest) == []
  {
  }

  /** A text may be cut anywhere: its first part is read, and its rest is carried over. */
  lemma {:induction false} CutAnywhere(parses: string -> bool, a: string, b: string)
    ensures Handed(parses, a + b) == Payloads(parses, Lines(a)) + Handed(parses, Rest(a) + b)
  {
    LinesConcat(a, b);
    PayloadsConcat(parses, Lines(a), Lines(Rest(a) + b));
  }

  lemma {:induction false} WholeConcat(a: seq<Chunk>, b: seq<Chunk>)
    ensures Whole(a + b) == Whole(a) + Whole(b)
    decreases |b|
  {
    if b == [] {
      assert a + b == a;
    } else {
      var init, last := b[..|b| - 1], b[|b| - 1];
      assert (a + b)[..|a + b| - 1] == a + init && (a + b)[|a + b| - 1] == last;
      WholeConcat(a, init);
      assert (Whole(a) + Whole(init)) + TextOf(last) == Whole(a) + (Whole(init) + TextOf(last));
    }
  }

  // A list of chunks with one of them cut in two.
  function Cut(chunks: seq<Chunk>, k: nat, a: string, b: string): seq<Chunk>
    requires k < |chunks|
  {
    chunks[..k] + [Text(a), Text(b)] + chunks[k + 1..]
  }

  /** Cutting a chunk in two never makes the buffer overflow where it did not before. */
  lemma {:induction false} FinerCutsFit(chunks: seq<Chunk>, k: nat, a: string, b: string)
    requires k < |chunks| && chunks[k] == Text(a + b) && Taken(chunks, |chunks|)
    ensures var finer := Cut(chunks, k, a, b);
            Taken(finer, |finer|) && Whole(finer) == Whole(chunks)
  {
    hide Whole, Rest, ByteLen, Fits;
    var finer := Cut(chunks, k, a, b);
    forall i | 0 <= i < |finer|
      ensures finer[i].Text? && Fits(finer, i)
    {
      FinerCutFits(chunks, k, a, b, i);
    }
    WholeFiner(chunks, k, a, b, |chunks|);
    assert chunks[k + 1..|chunks|] == chunks[k + 1..] && chunks[..|chunks|] == chunks;
  }

  lemma FinerCutFits(chunks: seq<Chunk>, k: nat, a: string, b: string, i: nat)
    requires k < |chunks| && chunks[k] == Text(a + b) && Taken(chunks, |chunks|)
    requires i < |Cut(chunks, k, a, b)|
    ensures Fits(Cut(chunks, k, a, b), i)
  {
    hide Whole, Rest, ByteLen;
    var finer := Cut(chunks, k, a, b);
    if i < k {
      assert finer[..i] == chunks[..i];
      assert Fits(chunks, i);
    } else if i == k {
      FirstHalfFits(chunks, k, a, b);
      assert finer[..i] == chunks[..k];
    } else if i == k + 1 {
      SecondHalfFits(chunks, k, a, b);
      assert finer[..i] == chunks[..k] + [Text(a)];
    } else {
      WholeFiner(chunks, k, a, b, i - 1);
      assert finer[..i] == chunks[..k] + [Text(a), Text(b)] + chunks[k + 1..i - 1];
      assert finer[i] == chunks[i - 1] && Fits(chunks, i - 1);
    }
  }

  lemma {:induction false} FirstHalfFits(chunks: seq<Chunk>, k: nat, a: string, b: string)
    requires k < |chunks| && chunks[k] == Text(a + b) && Fits(chunks, k)
    ensures ByteLen(Rest(Whole(chunks[..k])) + a) <= MAX_STREAM_PENDING_BYTES
  {
    hide Whole, Rest, ByteLen;
    var rest := Rest(Whole(chunks[..k]));
    assert rest + (a + b) == (rest + a) + b;
    ByteLenConcat(rest + a, b);
  }

  lemma {:induction false} SecondHalfFits(chunks: seq<Chunk>, k: nat, a: string, b: string)
    requires k < |chunks| && chunks[k] == Text(a + b) && Fits(chunks, k)
    ensures ByteLen(Rest(Whole(chunks[..k] + [Text(a)])) + b) <= MAX_STREAM_PENDING_BYTES
  {
    hide Rest, ByteLen, Whole, Lines;
    var read := Whole(chunks[..k]);
    WholeConcat(chunks[..k], [Text(a)]);
    WholeOfOne(a);
    LinesConcat(read, a);
    RestShrinks(Rest(read) + a, b);
    assert Rest(read) + (a + b) == (Rest(read) + a) + b;
  }

  lemma {:induction false} RestShrinks(text: string, b: string)
    ensures ByteLen(Rest(text) + b) <= ByteLen(text + b)
  {
    hide Rest, ByteLen;
    RestIsSuffix(text);
    var cut := |text| - |Rest(text)|;
    assert text + b == text[..cut] + (Rest(text) + b);
    ByteLenConcat(text[..cut], Rest(text) + b);
  }

  lemma SuffixOfTail(text: string, n: nat, m: nat)
    requires n + m <= |text|
    ensures text[n..][m..] == text[n + m..]
  {
  }

  lemma {:induction false} RestIsSuffix(text: string)
    ensures |Rest(text)| <= |text| && Rest(text) == text[|text| - |Rest(text)|..]
    decreases |text|
  {
    hide *;
    var n := Newline(text);
    if n == |text| {
      NoLine(text);
      assert text[|text| - |text|..] == text;
    } else {
      var tail := text[n + 1..];
      RestIsSuffix(tail);
      FirstLine(text);
      SuffixOfTail(text, n + 1, |tail| - |Rest(tail)|);
    }
  }

  lemma WholeFiner(chunks: seq<Chunk>, k: nat, a: string, b: string, end: nat)
    requires k < end <= |chunks| && chunks[k] == Text(a + b)
    ensures Whole(chunks[..k] + [Text(a), Text(b)] + chunks[k + 1..end]) == Whole(chunks[..end])
  {
    hide Whole;
    WholeOfTwo(a, b);
    WholeOfOne(a + b);
    WholeOfThree(chunks[..k], [Text(a), Text(b)], chunks[k + 1..end]);
    WholeOfThree(chunks[..k], [Text(a + b)], chunks[k + 1..end]);
    assert chunks[..end] == chunks[..k] + [Text(a + b)] + chunks[k + 1..end];
  }

  lemma {:induction false} WholeOfThree(a: seq<Chunk>, b: seq<Chunk>, c: seq<Chunk>)
    ensures Whole(a + b + c) == Whole(a) + Whole(b) + Whole(c)
  {
    hide Whole;
    WholeConcat(a + b, c);
    WholeConcat(a, b);
  }

  lemma WholeOfOne(a: string)
    ensures Whole([Text(a)]) == a
  {
    assert [Text(a)][..0] == [];
  }

  lemma WholeOfTwo(a: string, b: string)
    ensures Whole([Text(a), Text(b)]) == a + b
  {
    assert [Text(a), Text(b)][..1] == [Text(a)];
    WholeOfOne(a);
  }

  // ------------------------------------------------------ the unterminated line

  // What the last line's text holds for the JSON parser.
  function LastData(rest: string): string
    requires "data:" <= Trim(rest)
  {
    Trim(Trim(rest)[5..])
  }

  // The last line holds JSON that the same line with a newline after it would not hand on.
  predicate Unprotected(parses: string -> bool, rest: string) {
    "data:" <= Trim(rest) && parses(LastData(rest)) && (White(rest[0]) || LastData(rest) == "[DONE]")
  }

  /**
   An unterminated last line hands on what it would with a newline after it, unless
   it holds JSON behind leading white space, or the end marker itself were JSON.
   */
  lemma {:induction false} LastLineTerminated(parses: string -> bool, rest: string)
    requires Newline(rest) == |rest|
    ensures LastPayload(parses, rest) == LinePayload(parses, TrimReturns(rest)) <==> !Unprotected(parses, rest)
  {
    LastPayloadIs(parses, rest);
    hide LastPayload, LinePayload, TrimReturns, Trim, Newline;
    if rest != [] && White(rest[0]) {
      WhiteHidesPayload(parses, rest);
    } else {
      NothingToTrim(rest);
      SameHere(parses, rest);
    }
  }

  lemma LastPayloadIs(parses: string -> bool, rest: string)
    ensures LastPayload(parses, rest)
         == if "data:" <= Trim(rest) && parses(LastData(rest)) then [LastData(rest)] else []
    ensures "data:" <= Trim(rest) ==> rest != []
  {
  }

  /** JSON behind leading white space is handed on at the end of the stream, and not when a newline follows. */
  lemma {:induction false} NewlineHidesPayload(parses: string -> bool, line: string)
    requires '\n' !in line && line != "" && White(line[0])
    requires "data:" <= Trim(line) && parses(LastData(line))
    ensures Handed(parses, line) == [LastData(line)] && Handed(parses, line + "\n") == []
  {
    LastPayloadIs(parses, line);
    LastPayloadIs(parses, "");
    WhiteHidesPayload(parses, line);
    TrimOfNothing();
    LineAlone(line);
    LineTerminated(line);
    PayloadOfOne(parses, TrimReturns(line));
    NoPayloads(parses);
    hide *;
    assert Handed(parses, line) == [] + [LastData(line)];
    assert Handed(parses, line + "\n") == [] + [];
  }

  lemma TrimOfNothing()
    ensures Trim("") == ""
  {
  }

  lemma NoPayloads(parses: string -> bool)
    ensures Payloads(parses, []) == []
    ensures forall text :: Handed(parses, text) == Payloads(parses, Lines(text)) + LastPayload(parses, Rest(text))
  {
  }

  lemma {:induction false} NewlineAfter(line: string)
    requires '\n' !in line
    ensures Newline(line) == |line| == Newline(line + "\n")
  {
    if line != "" {
      assert (line + "\n")[1..] == line[1..] + "\n" && (line + "\n")[0] == line[0];
      NewlineAfter(line[1..]);
    }
  }

  lemma {:induction false} LineAlone(line: string)
    requires '\n' !in line
    ensures Lines(line) == [] && Rest(line) == line
  {
    NewlineAfter(line);
  }

  lemma {:induction false} LineTerminated(line: string)
    requires '\n' !in line
    ensures Lines(line + "\n") == [TrimReturns(line)] && Rest(line + "\n") == ""
  {
    NewlineAfter(line);
    FirstLine(line + "\n");
    LineAlone("");
    hide *;
    assert (line + "\n")[..|line|] == line && (line + "\n")[|line| + 1..] == "";
    assert [TrimReturns(line)] + [] == [TrimReturns(line)];
  }

  // A line with a payload behind a space.
  lemma SpacedLine()
    ensures Trim(" data:{}") == "data:{}" && LastData(" data:{}") == "{}"
    ensures Unprotected((s: string) => s == "{}", " data:{}")
  {
    var line := " data:{}";
    assert line[1..] == "data:{}";
    TrimSolid("data:{}");
    assert TrimStart("data:{}") == "data:{}";
    assert Trim(line)[5..] == "{}";
    TrimSolid("{}");
  }

  /** Its payload is delivered when the stream ends there and lost when the line is terminated. */
  lemma SpacedLineLosesItsPayload()
    ensures var parses := (s: string) => s == "{}";
            Handed(parses, " data:{}") == ["{}"] && Handed(parses, " data:{}" + "\n") == []
  {
    var parses := (s: string) => s == "{}";
    var line := " data:{}";
    SpacedLine();
    assert '\n' !in line && White(line[0]);
    hide *;
    NewlineHidesPayload(parses, line);
  }

  lemma {:induction false} WhiteHidesPayload(parses: string -> bool, rest: string)
    requires rest != [] && White(rest[0])
    ensures LinePayload(parses, TrimReturns(rest)) == []
  {
    hide Trim, TrimReturns;
    ReturnsTrimmed(rest);
  }

  lemma {:induction false} NothingToTrim(rest: string)
    requires rest == [] || !White(rest[0])
    ensures TrimStart(rest) == rest
  {
  }

  lemma {:induction false} SameHere(parses: string -> bool, rest: string)
    requires TrimStart(rest) == rest
    ensures LastPayload(parses, rest) == LinePayload(parses, TrimReturns(rest))
       <==> !("data:" <= Trim(rest) && parses(LastData(rest)) && LastData(rest) == "[DONE]")
  {
    assert Trim(rest) == TrimEnd(rest);
    hide Trim, TrimEnd, TrimReturns, TrimStart;
    TrimsAgree(rest);
  }

  lemma {:induction false} ReturnsTrimmed(text: string)
    ensures TrimReturns(text) <= text
    ensures TrimEnd(TrimReturns(text)) == TrimEnd(text)
  {
    if text != [] && text[|text| - 1] == '\r' {
      ReturnsTrimmed(text[..|text| - 1]);
    }
  }

  // A line that starts with no white space reads the same trimmed at its end or stripped of returns.
  lemma {:induction false} TrimsAgree(rest: string)
    ensures var line, trimmed := TrimReturns(rest), TrimEnd(rest);
            match (StripPrefix(line, "data:"), StripPrefix(trimmed, "data:"))
            case (Some(x), Some(y)) => Trim(x) == Trim(y)
            case (None, None) => true
            case _ => false
  {
    var line, trimmed := TrimReturns(rest), TrimEnd(rest);
    ReturnsTrimmed(rest);
    EndTrimmed(line);
    if "data:" <= line {
      assert line[4] == ':';
      assert 5 <= |trimmed|;
      assert "data:" <= trimmed;
      assert line[5..] == trimmed[5..] + line[|trimmed|..];
      TrimAppend(trimmed[5..], line[|trimmed|..]);
    }
  }

  // ---------------------------------------------------------- written streams

  /** A line as a server writes it: a payload between white space, or something that is none. */
  datatype Line = Event(before: string, json: string, after: string) | Noise(text: string)

  // No white space at either end, and something in between.
  predicate Solid(text: string) {
    text != "" && !White(text[0]) && !White(text[|text| - 1])
  }

  predicate WellWritten(parses: string -> bool, line: Line) {
    match line
    case Event(before, json, after) =>
      AllWhite(before) && AllWhite(after) && Solid(json) && parses(json) && json != "[DONE]"
      && '\n' !in before && '\n' !in json && '\n' !in after
    case Noise(text) => '\n' !in text && (!("data:" <= text) || Silent(parses, text[5..]))
  }

  // Data that is no JSON, or marks the end.
  predicate Silent(parses: string -> bool, data: string) {
    Trim(data) == "[DONE]" || !parses(Trim(data))
  }

  function Written(line: Line): string {
    match line
    case Event(before, json, after) => "data:" + (before + json + after)
    case Noise(text) => text
  }

  function WriteAll(lines: seq<Line>): string {
    if lines == [] then "" else Written(lines[0]) + "\n" + WriteAll(lines[1..])
  }

  // The payloads that were written, in order.
  function Jsons(lines: seq<Line>): seq<string> {
    if lines == [] then []
    else (if lines[0].Event? then [lines[0].json] else []) + Jsons(lines[1..])
  }

  lemma {:induction false} TrimPadded(before: string, text: string, after: string)
    requires AllWhite(before) && AllWhite(after) && Solid(text)
    ensures Trim(before + text + after) == text
  {
    TrimAppend(before + text, after);
    assert before + text + after == (before + text) + after;
    AllWhiteVanishes(before);
    StartPadded(before, text);
    hide TrimEnd;
    TrimSolid(text);
  }

  lemma {:induction false} StartPadded(before: string, text: string)
    requires AllWhite(before) && Solid(text)
    ensures TrimStart(before + text) == text && TrimStart(text) == text
  {
    if before == "" {
      assert before + text == text;
    } else {
      assert (before + text)[1..] == before[1..] + text;
      StartPadded(before[1..], text);
    }
  }

  // What carriage returns at the end of a line take away is nothing of its data.
  lemma {:induction false} ReturnsKeepData(text: string)
    ensures "data:" <= TrimReturns(text) <==> "data:" <= text
    ensures "data:" <= text ==> Trim(TrimReturns(text)[5..]) == Trim(text[5..])
  {
    if text != "" && text[|text| - 1] == '\r' {
      var init := text[..|text| - 1];
      ReturnsKeepData(init);
      hide Trim, TrimReturns;
      if "data:" <= text {
        assert text[4] == ':' && |text| > 5;
        assert "data:" <= init && text[5..] == init[5..] + "\r";
        TrimAppend(init[5..], "\r");
      }
    }
  }

  lemma {:induction false} LineHandsOn(parses: string -> bool, line: Line)
    requires WellWritten(parses, line)
    ensures LinePayload(parses, TrimReturns(Written(line))) == if line.Event? then [line.json] else []
  {
    hide Trim, TrimReturns;
    var text := Written(line);
    ReturnsKeepData(text);
    if line.Event? {
      assert text[5..] == line.before + line.json + line.after;
      TrimPadded(line.before, line.json, line.after);
    }
  }

  lemma WrittenIsOneLine(parses: string -> bool, line: Line)
    requires WellWritten(parses, line)
    ensures '\n' !in Written(line)
  {
    hide Trim;
  }

  lemma {:induction false} WrittenIsRead(parses: string -> bool, lines: seq<Line>)
    requires forall i :: 0 <= i < |lines| ==> WellWritten(parses, lines[i])
    ensures Payloads(parses, Lines(WriteAll(lines))) == Jsons(lines) && Rest(WriteAll(lines)) == ""
  {
    if lines == [] {
      LineAlone("");
    } else {
      var head, tail := Written(lines[0]), WriteAll(lines[1..]);
      WrittenIsRead(parses, lines[1..]);
      WrittenIsOneLine(parses, lines[0]);
      LineHandsOn(parses, lines[0]);
      hide Lines, Rest, LinePayload, TrimReturns, WellWritten;
      LineTerminated(head);
      LinesConcat(head + "\n", tail);
      PayloadsConcat(parses, [TrimReturns(head)], Lines(tail));
      PayloadOfOne(parses, TrimReturns(head));
      assert "" + tail == tail;
    }
  }

  /**
   Whatever lines a server writes, events and anything else between them, a stream hands
   on exactly the payloads of the events, in order.
   */
  lemma {:induction false} WrittenStream(parses: string -> bool, lines: seq<Line>)
    requires forall i :: 0 <= i < |lines| ==> WellWritten(parses, lines[i])
    ensures Handed(parses, WriteAll(lines)) == Jsons(lines)
  {
    WrittenIsRead(parses, lines);
    LastPayloadIs(parses, "");
    TrimOfNothing();
    NoPayloads(parses);
    hide *;
    assert Jsons(lines) + [] == Jsons(lines);
  }

  /** Exactly the carriage returns at the end of a line are dropped. */
  lemma {:induction false} OnlyReturnsGo(text: string)
    ensures TrimReturns(text) <= text && (TrimReturns(text) == "" || TrimReturns(text)[|TrimReturns(text)| - 1] != '\r')
    ensures forall i :: |TrimReturns(text)| <= i < |text| ==> text[i] == '\r'
  {
    if text != [] && text[|text| - 1] == '\r' {
      OnlyReturnsGo(text[..|text| - 1]);
    }
  }
}
