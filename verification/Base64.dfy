/**
 Base64 payloads of conversation images: the length oracle that decides, before
 any decoding, how many bytes a payload stands for, and the canonical encoding
 of RFC 4648 (section 4 alphabet and padding, zero pad bits of section 3.5).
 */
module Base64 {
  import opened Outcomes

  // ---------------------------------------------------------------- alphabet

  function Value(c: char): (r: Option<nat>)
    ensures r.Some? ==> r.value < 64 && Symbol(r.value) == c
  {
    if 'A' <= c <= 'Z' then Some((c - 'A') as nat)
    else if 'a' <= c <= 'z' then Some((c - 'a') as nat + 26)
    else if '0' <= c <= '9' then Some((c - '0') as nat + 52)
    else if c == '+' then Some(62)
    else if c == '/' then Some(63)
    else None
  }

  function Symbol(v: nat): (c: char)
    requires v < 64
    ensures c != '='
  {
    if v < 26 then 'A' + v as char
    else if v < 52 then 'a' + (v - 26) as char
    else if v < 62 then '0' + (v - 52) as char
    else if v == 62 then '+'
    else '/'
  }

  lemma ValueOfSymbol(v: nat)
    requires v < 64
    ensures Value(Symbol(v)) == Some(v)
  {
  }

  // ------------------------------------------------------- the length oracle

  /** Position of the first padding character, or the length without one. */
  function FirstPadding(p: string): (i: nat)
    ensures i <= |p|
    ensures forall k :: 0 <= k < i ==> p[k] != '='
    ensures i < |p| ==> p[i] == '='
  {
    if p == "" || p[0] == '=' then 0 else 1 + FirstPadding(p[1..])
  }

  predicate OnlyPaddingFrom(p: string, first: nat) {
    forall k :: first <= k < |p| ==> p[k] == '='
  }

  predicate SymbolsBefore(p: string, first: nat)
    requires first <= |p|
  {
    forall k :: 0 <= k < first ==> Value(p[k]).Some?
  }

  /** Number of bytes a payload stands for, or None when it is malformed. */
  function EncodedPayloadLen(p: string): Option<nat> {
    if |p| % 4 != 0 then None
    else
      var first := FirstPadding(p);
      if !OnlyPaddingFrom(p, first) then None
      else
        var padding := |p| - first;
        if padding > 2 || !SymbolsBefore(p, first) then None
        else if padding == 2 && (first < 2 || Value(p[first - 1]).value % 16 != 0) then None
        else if padding == 1 && (first < 3 || Value(p[first - 1]).value % 4 != 0) then None
        else Some(|p| / 4 * 3 - padding)
  }

  // --------------------------------------------------------- encode / decode

  function Encode(b: Bytes): string {
    if |b| == 0 then ""
    else if |b| == 1 then Last1(b[0] as nat)
    else if |b| == 2 then Last2(b[0] as nat, b[1] as nat)
    else Full(b[0] as nat, b[1] as nat, b[2] as nat) + Encode(b[3..])
  }

  function Full(x: nat, y: nat, z: nat): (q: string)
    requires x < 256 && y < 256 && z < 256
    ensures |q| == 4
  {
    [Symbol(x / 4), Symbol(x % 4 * 16 + y / 16), Symbol(y % 16 * 4 + z / 64), Symbol(z % 64)]
  }

  function Last2(x: nat, y: nat): (q: string)
    requires x < 256 && y < 256
    ensures |q| == 4
  {
    [Symbol(x / 4), Symbol(x % 4 * 16 + y / 16), Symbol(y % 16 * 4), '=']
  }

  function Last1(x: nat): (q: string)
    requires x < 256
    ensures |q| == 4
  {
    [Symbol(x / 4), Symbol(x % 4 * 16), '=', '=']
  }

  /** The strict decoder: padding is required and unused bits must be zero. */
  function Decode(p: string): Option<Bytes> {
    if p == "" then Some([])
    else if |p| < 4 then None
    else if |p| == 4 then DecodeLast(p)
    else
      match (DecodeFull(p[..4]), Decode(p[4..]))
      case (Some(head), Some(tail)) => Some(head + tail)
      case _ => None
  }

  function DecodeFull(q: string): (r: Option<Bytes>)
    requires |q| == 4
    ensures r.Some? ==> |r.value| == 3
  {
    match (Value(q[0]), Value(q[1]), Value(q[2]), Value(q[3]))
    case (Some(s), Some(t), Some(u), Some(v)) =>
      Some([(s * 4 + t / 16) as byte, (t % 16 * 16 + u / 4) as byte, (u % 4 * 64 + v) as byte])
    case _ => None
  }

  function DecodeLast(q: string): (r: Option<Bytes>)
    requires |q| == 4
    ensures r.Some? ==> 1 <= |r.value| <= 3
  {
    if q[3] != '=' then DecodeFull(q)
    else if q[2] != '=' then
      match (Value(q[0]), Value(q[1]), Value(q[2]))
      case (Some(s), Some(t), Some(u)) =>
        if u % 4 != 0 then None
        else Some([(s * 4 + t / 16) as byte, (t % 16 * 16 + u / 4) as byte])
      case _ => None
    else
      match (Value(q[0]), Value(q[1]))
      case (Some(s), Some(t)) =>
        if t % 16 != 0 then None else Some([(s * 4 + t / 16) as byte])
      case _ => None
  }

  // ------------------------------------------------------------- round trips

  lemma Split3(x: nat, y: nat, z: nat)
    requires x < 256 && y < 256 && z < 256
    ensures var s, t, u, v := x / 4, x % 4 * 16 + y / 16, y % 16 * 4 + z / 64, z % 64;
            s < 64 && t < 64 && u < 64 && v < 64
            && s * 4 + t / 16 == x && t % 16 * 16 + u / 4 == y && u % 4 * 64 + v == z
  {
    var t, u := x % 4 * 16 + y / 16, y % 16 * 4 + z / 64;
    assert t / 16 == x % 4 && t % 16 == y / 16;
    assert u / 4 == y % 16 && u % 4 == z / 64;
  }

  lemma FullRoundTrip(x: nat, y: nat, z: nat)
    requires x < 256 && y < 256 && z < 256
    ensures DecodeFull(Full(x, y, z)) == Some([x as byte, y as byte, z as byte])
  {
    hide Symbol, Value, DecodeFull;
    Split3(x, y, z);
    FullOf(x / 4, x % 4 * 16 + y / 16, y % 16 * 4 + z / 64, z % 64);
  }

  lemma FullOf(s: nat, t: nat, u: nat, v: nat)
    requires s < 64 && t < 64 && u < 64 && v < 64
    ensures DecodeFull([Symbol(s), Symbol(t), Symbol(u), Symbol(v)]) ==
            Some([(s * 4 + t / 16) as byte, (t % 16 * 16 + u / 4) as byte, (u % 4 * 64 + v) as byte])
  {
    hide Symbol, Value;
    ValueOfSymbol(s);
    ValueOfSymbol(t);
    ValueOfSymbol(u);
    ValueOfSymbol(v);
  }

  lemma Last2Of(s: nat, t: nat, u: nat)
    requires s < 64 && t < 64 && u < 64 && u % 4 == 0
    ensures DecodeLast([Symbol(s), Symbol(t), Symbol(u), '=']) ==
            Some([(s * 4 + t / 16) as byte, (t % 16 * 16 + u / 4) as byte])
  {
    hide Symbol, Value;
    ValueOfSymbol(s);
    ValueOfSymbol(t);
    ValueOfSymbol(u);
  }

  lemma Last1Of(s: nat, t: nat)
    requires s < 64 && t < 64 && t % 16 == 0
    ensures DecodeLast([Symbol(s), Symbol(t), '=', '=']) == Some([(s * 4 + t / 16) as byte])
  {
    hide Symbol, Value;
    ValueOfSymbol(s);
    ValueOfSymbol(t);
  }

  lemma Split2(x: nat, y: nat)
    requires x < 256 && y < 256
    ensures var s, t, u := x / 4, x % 4 * 16 + y / 16, y % 16 * 4;
            s < 64 && t < 64 && u < 64 && u % 4 == 0 && s * 4 + t / 16 == x && t % 16 * 16 + u / 4 == y
  {
    Split3(x, y, 0);
  }

  lemma Last2RoundTrip(x: nat, y: nat)
    requires x < 256 && y < 256
    ensures DecodeLast(Last2(x, y)) == Some([x as byte, y as byte])
  {
    hide Symbol, Value, DecodeLast;
    Split2(x, y);
    Last2Of(x / 4, x % 4 * 16 + y / 16, y % 16 * 4);
  }

  lemma Last1RoundTrip(x: nat)
    requires x < 256
    ensures DecodeLast(Last1(x)) == Some([x as byte])
  {
    hide Symbol, Value, DecodeLast;
    Split2(x, 0);
    Last1Of(x / 4, x % 4 * 16);
  }

  lemma {:induction false} DecodeShort(b: Bytes)
    requires 1 <= |b| <= 2
    ensures Decode(Encode(b)) == Some(b)
  {
    if |b| == 1 {
      DecodeShort1(b);
    } else {
      DecodeShort2(b);
    }
  }

  lemma {:induction false} DecodeShort1(b: Bytes)
    requires |b| == 1
    ensures Decode(Encode(b)) == Some(b)
  {
    Last1RoundTrip(b[0] as nat);
    assert b == [b[0]];
  }

  lemma {:induction false} DecodeShort2(b: Bytes)
    requires |b| == 2
    ensures Decode(Encode(b)) == Some(b)
  {
    Last2RoundTrip(b[0] as nat, b[1] as nat);
    assert b == [b[0], b[1]];
  }

  lemma {:induction false} DecodeQuads(q: string, rest: string, head: Bytes, tail: Bytes)
    requires |q| == 4 && DecodeFull(q) == Some(head) && Decode(rest) == Some(tail)
    ensures Decode(q + rest) == Some(head + tail)
  {
    assert (q + rest)[..4] == q && (q + rest)[4..] == rest;
    if rest == "" {
      assert q + rest == q;
      assert head + tail == head;
    }
  }

  /** Decoding what was encoded gives the bytes back, for every byte string. */
  lemma {:induction false} DecodeEncode(b: Bytes)
    ensures Decode(Encode(b)) == Some(b)
  {
    if |b| == 0 {
    } else if |b| <= 2 {
      DecodeShort(b);
    } else {
      FullRoundTrip(b[0] as nat, b[1] as nat, b[2] as nat);
      DecodeEncode(b[3..]);
      assert b[..3] == [b[0], b[1], b[2]];
      DecodeQuads(Full(b[0] as nat, b[1] as nat, b[2] as nat), Encode(b[3..]), b[..3], b[3..]);
      assert b == b[..3] + b[3..];
    }
  }

  lemma Repack(s: nat, t: nat, u: nat, v: nat)
    requires s < 64 && t < 64 && u < 64 && v < 64
    ensures var x, y, z := s * 4 + t / 16, t % 16 * 16 + u / 4, u % 4 * 64 + v;
            x < 256 && y < 256 && z < 256 && x / 4 == s && x % 4 * 16 + y / 16 == t
            && y % 16 * 4 + z / 64 == u && z % 64 == v
  {
    var x, y, z := s * 4 + t / 16, t % 16 * 16 + u / 4, u % 4 * 64 + v;
    assert x % 4 == t / 16 && y / 16 == t % 16;
    assert y % 16 == u / 4 && z / 64 == u % 4;
  }

  lemma DecodeFullIsInverse(q: string)
    requires |q| == 4 && DecodeFull(q).Some?
    ensures var b := DecodeFull(q).value;
            Full(b[0] as nat, b[1] as nat, b[2] as nat) == q
  {
    hide Symbol, Value;
    Repack(Value(q[0]).value, Value(q[1]).value, Value(q[2]).value, Value(q[3]).value);
  }

  lemma Repack2(s: nat, t: nat, u: nat)
    requires s < 64 && t < 64 && u < 64 && u % 4 == 0
    ensures var x, y := s * 4 + t / 16, t % 16 * 16 + u / 4;
            x < 256 && y < 256 && Last2(x, y) == [Symbol(s), Symbol(t), Symbol(u), '=']
  {
    hide Symbol;
    Repack(s, t, u, 0);
  }

  lemma Repack1(s: nat, t: nat)
    requires s < 64 && t < 64 && t % 16 == 0
    ensures var x := s * 4 + t / 16;
            x < 256 && Last1(x) == [Symbol(s), Symbol(t), '=', '=']
  {
    hide Symbol;
    Repack(s, t, 0, 0);
  }

  lemma DecodePaddedIsInverse(q: string)
    requires |q| == 4 && q[3] == '=' && DecodeLast(q).Some?
    ensures Encode(DecodeLast(q).value) == q
  {
    if q[2] != '=' {
      DecodePadded1IsInverse(q);
    } else {
      DecodePadded2IsInverse(q);
    }
  }

  lemma EncodeTwo(x: byte, y: byte)
    ensures Encode([x, y]) == Last2(x as nat, y as nat)
  {
    hide Last2;
  }

  lemma EncodeOne(x: byte)
    ensures Encode([x]) == Last1(x as nat)
  {
    hide Last1;
  }

  lemma DecodePadded1IsInverse(q: string)
    requires |q| == 4 && q[3] == '=' && q[2] != '=' && DecodeLast(q).Some?
    ensures Encode(DecodeLast(q).value) == q
  {
    var s, t, u := Value(q[0]).value, Value(q[1]).value, Value(q[2]).value;
    Repack2(s, t, u);
    EncodeTwo((s * 4 + t / 16) as byte, (t % 16 * 16 + u / 4) as byte);
    hide Symbol, Value, Encode, Last2;
    assert q == [Symbol(s), Symbol(t), Symbol(u), '='];
  }

  lemma DecodePadded2IsInverse(q: string)
    requires |q| == 4 && q[3] == '=' && q[2] == '=' && DecodeLast(q).Some?
    ensures Encode(DecodeLast(q).value) == q
  {
    var s, t := Value(q[0]).value, Value(q[1]).value;
    Repack1(s, t);
    EncodeOne((s * 4 + t / 16) as byte);
    hide Symbol, Value, Encode, Last1;
    assert q == [Symbol(s), Symbol(t), '=', '='];
  }

  lemma {:induction false} EncodeFull(b: Bytes)
    requires |b| == 3
    ensures Encode(b) == Full(b[0] as nat, b[1] as nat, b[2] as nat)
  {
    assert b[3..] == [];
  }

  /** Every payload the strict decoder takes is the encoding of what it returns. */
  lemma {:induction false} EncodeDecode(p: string)
    requires Decode(p).Some?
    ensures Encode(Decode(p).value) == p
  {
    if p == "" {
    } else if |p| == 4 {
      if p[3] == '=' {
        DecodePaddedIsInverse(p);
      } else {
        DecodeFullIsInverse(p);
        EncodeFull(DecodeFull(p).value);
      }
    } else {
      EncodeDecode(p[4..]);
      DecodeFullIsInverse(p[..4]);
      var head, tail := DecodeFull(p[..4]).value, Decode(p[4..]).value;
      assert (head + tail)[3..] == tail;
      assert p == p[..4] + p[4..];
    }
  }

  // ------------------------------------------------------- oracle == decoder

  lemma OracleOnLastQuad(q: string)
    requires |q| == 4
    ensures EncodedPayloadLen(q).Some? <==> DecodeLast(q).Some?
    ensures EncodedPayloadLen(q).Some? ==> EncodedPayloadLen(q).value == |DecodeLast(q).value|
  {
    hide Symbol;
    var first := FirstPadding(q);
    assert forall k :: first <= k < 4 && q[k] != '=' ==> k > first;
    if DecodeLast(q).Some? {
      assert forall k :: 0 <= k < 4 && q[k] != '=' ==> Value(q[k]).Some?;
    }
  }

  // Whole groups of symbols in front change nothing about the padding.
  lemma {:induction false} PaddingBehindQuad(p: string)
    requires |p| > 4 && DecodeFull(p[..4]).Some?
    ensures var rest := p[4..]; var f, g := FirstPadding(p), FirstPadding(rest);
            f == g + 4 && (OnlyPaddingFrom(p, f) <==> OnlyPaddingFrom(rest, g))
            && (SymbolsBefore(p, f) <==> SymbolsBefore(rest, g))
  {
    var rest := p[4..];
    var f, g := FirstPadding(p), FirstPadding(rest);
    QuadIsSymbols(p[..4]);
    assert forall k :: 0 <= k < 4 ==> p[k] == p[..4][k];
    hide Value, DecodeFull, Symbol;
    assert forall k :: 0 <= k < |rest| ==> rest[k] == p[k + 4];
    assert forall k :: 4 <= k < |p| ==> p[k] == rest[k - 4];
    assert f == g + 4;
  }

  lemma QuadIsSymbols(q: string)
    requires |q| == 4
    ensures DecodeFull(q).Some? <==> forall k :: 0 <= k < 4 ==> Value(q[k]).Some?
    ensures DecodeFull(q).Some? ==> forall k :: 0 <= k < 4 ==> q[k] != '='
  {
    hide Symbol;
  }

  // A group that is not four symbols spoils a payload that goes on behind it.
  lemma BadQuadIsRefused(p: string)
    requires |p| > 4 && DecodeFull(p[..4]).None?
    ensures EncodedPayloadLen(p) == None
  {
    QuadIsSymbols(p[..4]);
    hide Value, DecodeFull, Symbol;
    var k :| 0 <= k < 4 && Value(p[..4][k]).None?;
    assert p[..4][k] == p[k];
  }

  lemma OracleStep(p: string)
    requires |p| > 4
    ensures EncodedPayloadLen(p).Some? <==>
            DecodeFull(p[..4]).Some? && EncodedPayloadLen(p[4..]).Some?
    ensures EncodedPayloadLen(p).Some? ==>
            EncodedPayloadLen(p).value == 3 + EncodedPayloadLen(p[4..]).value
  {
    if DecodeFull(p[..4]).None? {
      BadQuadIsRefused(p);
    } else {
      PaddingBehindQuad(p);
      hide Value, DecodeFull, Symbol, OnlyPaddingFrom, SymbolsBefore, FirstPadding;
      LengthBehindQuad(p, p[4..], FirstPadding(p[4..]));
    }
  }

  lemma {:induction false} LengthBehindQuad(p: string, rest: string, g: nat)
    requires rest != "" && |p| == |rest| + 4 && p[4..] == rest
    requires g == FirstPadding(rest) && FirstPadding(p) == g + 4
    requires OnlyPaddingFrom(p, g + 4) <==> OnlyPaddingFrom(rest, g)
    requires SymbolsBefore(p, g + 4) <==> SymbolsBefore(rest, g)
    ensures EncodedPayloadLen(p).Some? <==> EncodedPayloadLen(rest).Some?
    ensures EncodedPayloadLen(p).Some? ==> EncodedPayloadLen(p).value == 3 + EncodedPayloadLen(rest).value
  {
    hide Value, Symbol, OnlyPaddingFrom, SymbolsBefore, FirstPadding;
    assert |p| % 4 == |rest| % 4;
    if |rest| % 4 == 0 && |rest| - g <= 2 {
      assert g >= 2 && p[g + 3] == rest[g - 1];
      assert |p| / 4 == |rest| / 4 + 1;
    }
  }

  /** The oracle answers exactly when the decoder succeeds, with its length. */
  lemma {:induction false} OracleAgreesWithDecoder(p: string)
    ensures EncodedPayloadLen(p).Some? <==> Decode(p).Some?
    ensures EncodedPayloadLen(p).Some? ==> EncodedPayloadLen(p).value == |Decode(p).value|
  {
    if |p| < 4 {
    } else if |p| == 4 {
      OracleOnLastQuad(p);
    } else {
      OracleStep(p);
      OracleAgreesWithDecoder(p[4..]);
    }
  }

  /**
   The length oracle answers n exactly for the canonical encodings of n-byte
   strings, so a size limit is enforced without decoding anything.
   */
  lemma LengthOracle(p: string, n: nat)
    ensures EncodedPayloadLen(p) == Some(n) <==> exists b: Bytes :: |b| == n && Encode(b) == p
  {
    OracleAgreesWithDecoder(p);
    if EncodedPayloadLen(p) == Some(n) {
      EncodeDecode(p);
      assert |Decode(p).value| == n;
    }
    forall b: Bytes | |b| == n && Encode(b) == p
      ensures EncodedPayloadLen(p) == Some(n)
    {
      DecodeEncode(b);
    }
  }
}
