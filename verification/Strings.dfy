/** The string operations of the source's standard library that the models use. */
module Strings {
  import opened Outcomes

  function StripPrefix(s: string, prefix: string): Option<string> {
    if prefix <= s then Some(s[|prefix|..]) else None
  }

  /** The parts around the first occurrence of a nonempty separator. */
  function SplitOnce(s: string, sep: string): (r: Option<(string, string)>)
    requires sep != ""
    ensures r.Some? ==> s == r.value.0 + sep + r.value.1
  {
    if |s| < |sep| then None
    else if sep <= s then Some(("", s[|sep|..]))
    else
      match SplitOnce(s[1..], sep)
      case None => None
      case Some((a, b)) => Some((s[..1] + a, b))
  }

  /** The parts around the last occurrence of a nonempty separator. */
  function RSplitOnce(s: string, sep: string): (r: Option<(string, string)>)
    requires sep != ""
    ensures r.Some? ==> s == r.value.0 + sep + r.value.1
  {
    if |s| < |sep| then None
    else
      match RSplitOnce(s[1..], sep)
      case Some((a, b)) => Some((s[..1] + a, b))
      case None => if sep <= s then Some(("", s[|sep|..])) else None
  }

  /** Splitting finds the separator behind a part that lacks its first character. */
  lemma {:induction false} SplitOnceAt(a: string, sep: string, b: string)
    requires sep != "" && sep[0] !in a
    ensures SplitOnce(a + sep + b, sep) == Some((a, b))
  {
    var s := a + sep + b;
    if a == "" {
      assert s == sep + b && s[|sep|..] == b;
    } else {
      assert s[1..] == a[1..] + sep + b;
      SplitOnceAt(a[1..], sep, b);
      assert s[0] == a[0] != sep[0];
      assert s[..1] + a[1..] == a;
    }
  }

  /** Splitting at the last separator, when it cannot occur in what follows. */
  lemma {:induction false} RSplitOnceAt(a: string, sep: string, b: string)
    requires sep != ""
    requires RSplitOnce((sep + b)[1..], sep) == None
    ensures RSplitOnce(a + sep + b, sep) == Some((a, b))
  {
    var s := a + sep + b;
    if a == "" {
      assert s == sep + b && s[|sep|..] == b;
    } else {
      assert s[1..] == a[1..] + sep + b;
      RSplitOnceAt(a[1..], sep, b);
      assert s[..1] + a[1..] == a;
    }
  }

  lemma {:induction false} RSplitOnceAbsent(s: string, sep: string)
    requires sep != "" && exists c :: c in sep && c !in s
    ensures RSplitOnce(s, sep) == None
  {
    var c :| c in sep && c !in s;
    if |s| >= |sep| {
      assert c !in s[1..];
      RSplitOnceAbsent(s[1..], sep);
    }
  }

  function Lower(s: string): (r: string)
    ensures |r| == |s|
    ensures forall i :: 0 <= i < |s| ==> r[i] == LowerChar(s[i])
  {
    if s == "" then "" else [LowerChar(s[0])] + Lower(s[1..])
  }

  function LowerChar(c: char): char {
    if 'A' <= c <= 'Z' then 'a' + (c - 'A') else c
  }

  predicate IsLowerAlnum(c: char) { 'a' <= c <= 'z' || '0' <= c <= '9' }

  predicate IsDigit(c: char) { '0' <= c <= '9' }

  predicate IsAlnum(c: char) { IsLowerAlnum(c) || 'A' <= c <= 'Z' }

  /** The part of a text before the first occurrence of a character. */
  function Before(s: string, c: char): (r: string)
    ensures r <= s && c !in r
    ensures |r| < |s| ==> s[|r|] == c
  {
    if s == "" || s[0] == c then "" else [s[0]] + Before(s[1..], c)
  }

  lemma {:induction false} BeforeAt(a: string, c: char, b: string)
    requires c !in a
    ensures Before(a + [c] + b, c) == a
  {
    var s := a + [c] + b;
    if a != "" {
      assert s[1..] == a[1..] + [c] + b;
      BeforeAt(a[1..], c, b);
    }
  }

  predicate AllDigits(s: string) {
    forall i :: 0 <= i < |s| ==> IsDigit(s[i])
  }

  function Pow10(k: nat): (p: nat)
    ensures p > 0
  {
    if k == 0 then 1 else 10 * Pow10(k - 1)
  }

  // The number that decimal digits stand for, whatever their count.
  function Digits(s: string): nat
    requires AllDigits(s)
  {
    if s == "" then 0 else 10 * Digits(s[..|s| - 1]) + (s[|s| - 1] - '0') as nat
  }

  /** The integer parser of the source: an optional plus sign, then digits. */
  function ParseUnsigned(s: string): Option<nat> {
    var digits := if s != "" && s[0] == '+' then s[1..] else s;
    if digits != "" && AllDigits(digits) then Some(Digits(digits)) else None
  }

  // The UTF-8 length of a character, and of a text.
  function Width(c: char): nat {
    if c as int < 0x80 then 1
    else if c as int < 0x800 then 2
    else if c as int < 0x10000 then 3
    else 4
  }

  /** Each of three bounds that a character reaches costs it one byte more. */
  lemma WidthCounts(c: char)
    ensures var n := c as int;
            Width(c) == 1 + (if n >= 128 then 1 else 0) + (if n >= 2048 then 1 else 0) + (if n >= 65536 then 1 else 0)
  {
  }

  function ByteLen(text: string): nat {
    if text == [] then 0 else Width(text[0]) + ByteLen(text[1..])
  }

  lemma {:induction false} ByteLenConcat(a: string, b: string)
    ensures ByteLen(a + b) == ByteLen(a) + ByteLen(b)
  {
    if a == [] {
      assert a + b == b;
    } else {
      assert (a + b)[1..] == a[1..] + b;
      ByteLenConcat(a[1..], b);
    }
  }

  // The characters with the Unicode White_Space property.
  predicate White(c: char) {
    var n := c as int;
    9 <= n <= 13 || n == 0x20 || n == 0x85 || n == 0xA0 || n == 0x1680 || 0x2000 <= n <= 0x200A
    || n == 0x2028 || n == 0x2029 || n == 0x202F || n == 0x205F || n == 0x3000
  }

  /** The 25 characters of that property. */
  lemma WhiteIsListed(c: char)
    ensures White(c) <==>
            c as int in {9, 10, 11, 12, 13, 32, 133, 160, 5760, 8192, 8193, 8194, 8195, 8196, 8197, 8198, 8199, 8200,
                         8201, 8202, 8232, 8233, 8239, 8287, 12288}
  {
  }

  function TrimStart(text: string): string {
    if text != [] && White(text[0]) then TrimStart(text[1..]) else text
  }

  function TrimEnd(text: string): string {
    if text != [] && White(text[|text| - 1]) then TrimEnd(text[..|text| - 1]) else text
  }

  function Trim(text: string): string {
    TrimEnd(TrimStart(text))
  }

  predicate AllWhite(text: string) {
    forall i :: 0 <= i < |text| ==> White(text[i])
  }

  lemma {:induction false} EndTrimmed(text: string)
    ensures TrimEnd(text) <= text && AllWhite(text[|TrimEnd(text)|..])
    ensures TrimEnd(text) == [] || !White(TrimEnd(text)[|TrimEnd(text)| - 1])
  {
    if text != [] && White(text[|text| - 1]) {
      var init, last := text[..|text| - 1], text[|text| - 1];
      EndTrimmed(init);
      var n := |TrimEnd(init)|;
      assert TrimEnd(text) == TrimEnd(init);
      assert text == init + [last] && text[n..] == init[n..] + [last];
    }
  }

  lemma {:induction false} TrimEndAppend(a: string, w: string)
    requires AllWhite(w)
    ensures TrimEnd(a + w) == TrimEnd(a)
    decreases |w|
  {
    if w == [] {
      assert a + w == a;
    } else {
      assert (a + w)[..|a + w| - 1] == a + w[..|w| - 1];
      TrimEndAppend(a, w[..|w| - 1]);
    }
  }

  lemma {:induction false} TrimStartAppend(a: string, w: string)
    requires AllWhite(w)
    ensures TrimStart(a + w) == if TrimStart(a) == [] then [] else TrimStart(a) + w
  {
    if a == [] {
      assert a + w == w;
      AllWhiteVanishes(w);
    } else if White(a[0]) {
      assert (a + w)[1..] == a[1..] + w;
      TrimStartAppend(a[1..], w);
    }
  }

  lemma {:induction false} AllWhiteVanishes(w: string)
    requires AllWhite(w)
    ensures TrimStart(w) == []
  {
    if w != [] {
      AllWhiteVanishes(w[1..]);
    }
  }

  lemma TrimAppend(a: string, w: string)
    requires AllWhite(w)
    ensures Trim(a + w) == Trim(a)
  {
    TrimStartAppend(a, w);
    TrimEndAppend(TrimStart(a), w);
  }

  lemma TrimSolid(text: string)
    requires text != "" && !White(text[0]) && !White(text[|text| - 1])
    ensures Trim(text) == text
  {
  }
}
