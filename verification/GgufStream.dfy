/** The reader object of the source: a stream and the budgets charged so far. */
module GgufStream {
  import opened Outcomes
  import opened LittleEndian
  import G = GgufReader
  import TensorSizes

  // A call does what its specification says, or fails with the same fault.
  predicate Moves(spec: Result<G.State, G.Fault>, r: Result<(), G.Fault>, now: G.State) {
    match spec
    case Err(e) => r == Err(e)
    case Ok(t) => r == Ok(()) && now == t
  }

  predicate Reads<T(==)>(spec: Result<G.Read<T>, G.Fault>, r: Result<T, G.Fault>, now: G.State) {
    match spec
    case Err(e) => r == Err(e)
    case Ok(x) => r == Ok(x.value) && now == x.next
  }

  class Reader {
    const data: Bytes
    var position: nat
    var consumed: nat
    var strings: nat
    var stringEntries: nat

    constructor (data: Bytes)
      ensures this.data == data && State() == G.State(0, 0, 0, 0)
    {
      this.data := data;
      position, consumed, strings, stringEntries := 0, 0, 0, 0;
    }

    function State(): G.State
      reads this
    {
      G.State(position, consumed, strings, stringEntries)
    }

    method AccountStrings(count: nat) returns (r: Result<(), G.Fault>)
      modifies this
      ensures Moves(G.AccountStrings(old(State()), count), r, State())
    {
      if stringEntries + count > G.MAX_STRING_ENTRIES { return Err(G.EntryBudget); }
      stringEntries := stringEntries + count;
      r := Ok(());
    }

    method Account(bytes: nat) returns (r: Result<(), G.Fault>)
      modifies this
      ensures Moves(G.Account(old(State()), bytes), r, State())
    {
      consumed := consumed + bytes;
      if consumed > G.MAX_HEADER_SPAN { return Err(G.SpanExceeded); }
      r := Ok(());
    }

    method Take(n: nat) returns (r: Result<Bytes, G.Fault>)
      modifies this
      ensures Reads(G.Take(data, old(State()), n), r, State())
    {
      var charged := Account(n);
      if charged.Err? { return Err(charged.error); }
      if position + n > |data| { return Err(G.Unreadable); }
      r := Ok(data[position..position + n]);
      position := position + n;
    }

    method UInt(width: nat) returns (r: Result<nat, G.Fault>)
      modifies this
      ensures Reads(G.UInt(data, old(State()), width), r, State())
    {
      var b := Take(width);
      if b.Err? { return Err(b.error); }
      r := Ok(FromLe(b.value));
    }

    method Skip(count: nat) returns (r: Result<(), G.Fault>)
      modifies this
      ensures Moves(G.Skip(old(State()), count), r, State())
    {
      if count >= 0x8000_0000_0000_0000 { return Err(G.FieldLength); }
      r := Account(count);
      if r.Ok? {
        position := position + count;
      }
    }

    method Text() returns (r: Result<string, G.Fault>)
      modifies this
      ensures Reads(G.Text(data, old(State())), r, State())
    {
      var charged := AccountStrings(1);
      if charged.Err? { return Err(charged.error); }
      var length := UInt(8);
      if length.Err? { return Err(length.error); }
      if length.value > G.MAX_KEY_BYTES {
        var skipped := Skip(length.value);
        return if skipped.Err? then Err(skipped.error) else Ok("");
      }
      strings := strings + length.value;
      if strings > G.MAX_STRING_BUDGET { return Err(G.StringData); }
      var b := Take(length.value);
      return if b.Err? then Err(b.error) else Ok(G.Chars(b.value));
    }

    method SkipValue(kind: nat) returns (r: Result<(), G.Fault>)
      modifies this
      ensures Moves(G.SkipValue(data, old(State()), kind), r, State())
    {
      if G.ScalarWidth(kind).Some? {
        r := Skip(G.ScalarWidth(kind).value);
      } else if kind == 8 {
        var length := UInt(8);
        if length.Err? { return Err(length.error); }
        r := Skip(length.value);
      } else if kind == 9 {
        var element := UInt(4);
        if element.Err? { return Err(element.error); }
        var count := UInt(8);
        if count.Err? { return Err(count.error); }
        r := SkipArrayBody(element.value, count.value);
      } else {
        r := Err(G.UnsupportedType);
      }
    }

    method SkipArrayBody(element: nat, count: nat) returns (r: Result<(), G.Fault>)
      modifies this
      ensures Moves(G.SkipArrayBody(data, old(State()), element, count), r, State())
    {
      if count > G.MAX_ARRAY_LEN { return Err(G.ImplausibleArray); }
      if G.ScalarWidth(element).Some? {
        r := Skip(G.ScalarWidth(element).value * count);
        return;
      }
      if element != 8 { return Err(G.UnsupportedElement); }
      r := AccountStrings(count);
      if r.Err? { return; }
      ghost var spec := G.SkipTexts(data, State(), count);
      for k := 0 to count
        invariant spec == G.SkipTexts(data, State(), count - k)
      {
        var length := UInt(8);
        if length.Err? { return Err(length.error); }
        r := Skip(length.value);
        if r.Err? { return; }
      }
      r := Ok(());
    }

    method Unsigned(kind: nat) returns (r: Result<Option<nat>, G.Fault>)
      modifies this
      ensures Reads(G.Unsigned(data, old(State()), kind), r, State())
    {
      if kind in {4, 5, 10, 11} {
        r := Scalar(kind, kind in {5, 11});
      } else {
        var skipped := SkipValue(kind);
        return if skipped.Err? then Err(skipped.error) else Ok(None);
      }
    }

    method Scalar(kind: nat, signed: bool) returns (r: Result<Option<nat>, G.Fault>)
      requires G.ScalarWidth(kind).Some?
      modifies this
      ensures Reads(G.Scalar(data, old(State()), kind, signed), r, State())
    {
      var width := G.ScalarWidth(kind).value;
      var raw := UInt(width);
      if raw.Err? { return Err(raw.error); }
      r := Ok(if signed then G.NonNegative(raw.value, width) else Some(raw.value));
    }

    method Integer(kind: nat) returns (r: Result<Option<nat>, G.Fault>)
      modifies this
      ensures Reads(G.Integer(data, old(State()), kind), r, State())
    {
      if kind in {0, 1, 2, 3, 4, 5, 10, 11} {
        r := Scalar(kind, kind in {1, 3, 5, 11});
      } else if kind == 7 {
        var raw := UInt(1);
        if raw.Err? { return Err(raw.error); }
        r := Ok(Some(if raw.value != 0 then 1 else 0));
      } else {
        var skipped := SkipValue(kind);
        return if skipped.Err? then Err(skipped.error) else Ok(None);
      }
    }

    method Raw(kind: nat) returns (r: Result<Option<G.RawValue>, G.Fault>)
      modifies this
      ensures Reads(G.Raw(data, old(State()), kind), r, State())
    {
      if kind != 9 {
        var n := Integer(kind);
        if n.Err? { return Err(n.error); }
        return Ok(if n.value.Some? then Some(G.Int(n.value.value)) else None);
      }
      var element := UInt(4);
      if element.Err? { return Err(element.error); }
      var count := UInt(8);
      if count.Err? { return Err(count.error); }
      if !G.IntegerKind(element.value) || count.value > TensorSizes.MAX_MODEL_LAYERS {
        var skipped := SkipArrayBody(element.value, count.value);
        return if skipped.Err? then Err(skipped.error) else Ok(None);
      }
      var values := Integers(element.value, count.value);
      if values.Err? { return Err(values.error); }
      var all := G.Collect(values.value);
      r := Ok(if all.Some? then Some(G.Ints(all.value)) else None);
    }

    method Integers(element: nat, count: nat) returns (r: Result<seq<Option<nat>>, G.Fault>)
      modifies this
      ensures Reads(G.Integers(data, old(State()), element, count), r, State())
    {
      var values: seq<Option<nat>> := [];
      PrependNothing(G.Integers(data, State(), element, count));
      for k := 0 to count
        invariant G.Integers(data, old(State()), element, count) ==
                  Prepend(values, G.Integers(data, State(), element, count - k))
      {
        var n := Integer(element);
        if n.Err? { return Err(n.error); }
        PrependStep(values, n.value, G.Integers(data, State(), element, count - k - 1));
        values := values + [n.value];
      }
      assert values + [] == values;
      r := Ok(values);
    }

    method TextArray(kind: nat) returns (r: Result<seq<string>, G.Fault>)
      modifies this
      ensures Reads(G.TextArray(data, old(State()), kind), r, State())
    {
      if kind != 9 {
        var skipped := SkipValue(kind);
        return if skipped.Err? then Err(skipped.error) else Ok([]);
      }
      var element := UInt(4);
      if element.Err? { return Err(element.error); }
      var count := UInt(8);
      if count.Err? { return Err(count.error); }
      if count.value > G.MAX_ARRAY_LEN { return Err(G.ImplausibleArray); }
      if G.ScalarWidth(element.value).Some? {
        var skipped := Skip(G.ScalarWidth(element.value).value * count.value);
        return if skipped.Err? then Err(skipped.error) else Ok([]);
      }
      if element.value == 9 { return Err(G.NestedArray); }
      r := TextElements(element.value, count.value);
    }

    method TextElements(element: nat, count: nat) returns (r: Result<seq<string>, G.Fault>)
      modifies this
      ensures Reads(G.TextElements(data, old(State()), element, count), r, State())
    {
      var texts: seq<string> := [];
      PrependNothing(G.TextElements(data, State(), element, count));
      for k := 0 to count
        invariant G.TextElements(data, old(State()), element, count) ==
                  Prepend(texts, G.TextElements(data, State(), element, count - k))
      {
        if element == 8 {
          var text := Text();
          if text.Err? { return Err(text.error); }
          PrependStep(texts, text.value, G.TextElements(data, State(), element, count - k - 1));
          texts := texts + [text.value];
        } else {
          var skipped := SkipValue(element);
          if skipped.Err? { return Err(skipped.error); }
        }
      }
      assert texts + [] == texts;
      r := Ok(texts);
    }
  }

  // A list already read, followed by the rest or its fault.
  function Prepend<T>(done: seq<T>, rest: Result<G.Read<seq<T>>, G.Fault>): Result<G.Read<seq<T>>, G.Fault> {
    match rest
    case Err(e) => Err(e)
    case Ok(x) => Ok(x.(value := done + x.value))
  }

  lemma PrependNothing<T>(rest: Result<G.Read<seq<T>>, G.Fault>)
    ensures Prepend([], rest) == rest
  {
    if rest.Ok? {
      assert [] + rest.value.value == rest.value.value;
    }
  }

  lemma PrependStep<T>(done: seq<T>, one: T, rest: Result<G.Read<seq<T>>, G.Fault>)
    ensures Prepend(done + [one], rest) == Prepend(done, G.Before(one, rest))
  {
    if rest.Ok? {
      assert (done + [one]) + rest.value.value == done + ([one] + rest.value.value);
    }
  }
}
