/**
 The hypotheses about libraries can be met: a printer with an inverse exists for
 every JSON value, whatever the hashes, and hashes without collisions exist.
 */
module LawfulWorlds {
  import opened Outcomes
  import opened Conversation
  import opened Threads
  import opened ConversationMap

  // ------------------------------------------------ a printer that can be undone

  ghost function PrintNat(n: nat): Bytes {
    if n == 0 then [0] else [1] + PrintNat(n - 1)
  }

  ghost function PrintInt(n: int): Bytes {
    if n < 0 then [0] + PrintNat(-n) else [1] + PrintNat(n)
  }

  ghost function PrintText(s: string): Bytes {
    if s == "" then [0] else [1] + PrintNat(s[0] as nat) + PrintText(s[1..])
  }

  ghost function Pick(keys: set<string>): (k: string)
    requires keys != {}
    ensures k in keys
  {
    var k :| k in keys;
    k
  }

  ghost function Print(j: Json): Bytes
    decreases j, 1, 0
  {
    match j
    case Null => [0]
    case Bool(b) => [1, if b then 1 else 0]
    case Number(n) => [2] + PrintInt(n)
    case Float(bits) => [3] + PrintNat(bits)
    case Str(s) => [4] + PrintText(s)
    case Arr(items) => [5] + PrintItems(j, 0)
    case Obj(fields) => [6] + PrintFields(j, fields.Keys)
  }

  ghost function PrintItems(owner: Json, k: nat): Bytes
    requires owner.Arr? && k <= |owner.items|
    decreases owner, 0, |owner.items| - k
  {
    if k == |owner.items| then [0] else [1] + Print(owner.items[k]) + PrintItems(owner, k + 1)
  }

  ghost function PrintFields(owner: Json, keys: set<string>): Bytes
    requires owner.Obj? && keys <= owner.fields.Keys
    decreases owner, 0, |keys|
  {
    if keys == {} then [0]
    else
      var k := Pick(keys);
      [1] + (PrintText(k) + Print(owner.fields[k])) + PrintFields(owner, keys - {k})
  }

  // What follows a printed value tells nothing about it: printing is free of prefixes.

  lemma Cut(a: Bytes, x: Bytes, b: Bytes, y: Bytes)
    requires a + x == b + y && a != [] && b != []
    ensures a[0] == b[0] && a[1..] + x == b[1..] + y
  {
    assert (a + x)[0] == a[0] && (b + y)[0] == b[0];
    assert (a + x)[1..] == a[1..] + x && (b + y)[1..] == b[1..] + y;
  }

  lemma {:induction false} NatIsFree(m: nat, n: nat, x: Bytes, y: Bytes)
    requires PrintNat(m) + x == PrintNat(n) + y
    ensures m == n && x == y
  {
    Cut(PrintNat(m), x, PrintNat(n), y);
    if m > 0 && n > 0 {
      assert PrintNat(m)[1..] == PrintNat(m - 1) && PrintNat(n)[1..] == PrintNat(n - 1);
      NatIsFree(m - 1, n - 1, x, y);
    } else if m == 0 && n == 0 {
      assert PrintNat(0)[1..] + x == x && PrintNat(0)[1..] + y == y;
    }
  }

  lemma {:induction false} TextIsFree(s: string, t: string, x: Bytes, y: Bytes)
    requires PrintText(s) + x == PrintText(t) + y
    ensures s == t && x == y
  {
    Cut(PrintText(s), x, PrintText(t), y);
    if s != "" && t != "" {
      TextSplit(s, x);
      TextSplit(t, y);
      NatIsFree(s[0] as nat, t[0] as nat, PrintText(s[1..]) + x, PrintText(t[1..]) + y);
      TextIsFree(s[1..], t[1..], x, y);
      assert s == [s[0]] + s[1..] && t == [t[0]] + t[1..];
    } else if s == "" && t == "" {
      assert PrintText("")[1..] + x == x && PrintText("")[1..] + y == y;
    }
  }

  lemma {:induction false} TextSplit(s: string, x: Bytes)
    requires s != ""
    ensures PrintText(s)[1..] + x == PrintNat(s[0] as nat) + (PrintText(s[1..]) + x)
  {
    hide PrintNat;
    var head, tail := PrintNat(s[0] as nat), PrintText(s[1..]);
    assert PrintText(s) == [1] + head + tail;
    hide PrintText;
    assert PrintText(s)[1..] == head + tail;
    assert (head + tail) + x == head + (tail + x);
  }

  lemma {:induction false} IntIsFree(m: int, n: int, x: Bytes, y: Bytes)
    requires PrintInt(m) + x == PrintInt(n) + y
    ensures m == n && x == y
  {
    Cut(PrintInt(m), x, PrintInt(n), y);
    var a, b := if m < 0 then -m else m, if n < 0 then -n else n;
    assert PrintInt(m)[1..] == PrintNat(a) && PrintInt(n)[1..] == PrintNat(b);
    NatIsFree(a, b, x, y);
  }

  // What is left of a printed value after its first byte.
  ghost function Body(j: Json): Bytes {
    match j
    case Null => []
    case Bool(b) => [if b then 1 else 0]
    case Number(n) => PrintInt(n)
    case Float(bits) => PrintNat(bits)
    case Str(s) => PrintText(s)
    case Arr(items) => PrintItems(j, 0)
    case Obj(fields) => PrintFields(j, fields.Keys)
  }

  ghost function Tag(j: Json): byte {
    match j
    case Null => 0
    case Bool(_) => 1
    case Number(_) => 2
    case Float(_) => 3
    case Str(_) => 4
    case Arr(_) => 5
    case Obj(_) => 6
  }

  lemma {:induction false} TagAndBody(j: Json)
    ensures Print(j) == [Tag(j)] + Body(j)
  {
    hide PrintInt, PrintNat, PrintText, PrintItems, PrintFields;
  }

  lemma {:induction false} PrintIsFree(a: Json, b: Json, x: Bytes, y: Bytes)
    requires Print(a) + x == Print(b) + y
    ensures a == b && x == y
    decreases a, 1, 0
  {
    TagAndBody(a);
    TagAndBody(b);
    hide Print, PrintInt, PrintNat, PrintText, PrintItems, PrintFields;
    Cut(Print(a), x, Print(b), y);
    assert Print(a)[1..] == Body(a) && Print(b)[1..] == Body(b);
    match a
    case Null => assert [] + x == x && [] + y == y;
    case Bool(_) => Cut(Body(a), x, Body(b), y); assert [] + x == x && [] + y == y;
    case Number(n) => IntIsFree(n, b.n, x, y);
    case Float(bits) => NatIsFree(bits, b.bits, x, y);
    case Str(s) => TextIsFree(s, b.s, x, y);
    case Arr(items) =>
      ItemsAreFree(a, b, 0, 0, x, y);
      assert items[0..] == items && b.items[0..] == b.items;
    case Obj(fields) =>
      FieldsAreFree(a, b, fields.Keys, b.fields.Keys, x, y);
      assert fields == b.fields;
  }

  lemma {:induction false} ItemsAreFree(a: Json, b: Json, i: nat, k: nat, x: Bytes, y: Bytes)
    requires a.Arr? && b.Arr? && i <= |a.items| && k <= |b.items|
    requires PrintItems(a, i) + x == PrintItems(b, k) + y
    ensures a.items[i..] == b.items[k..] && x == y
    decreases a, 0, |a.items| - i
  {
    Cut(PrintItems(a, i), x, PrintItems(b, k), y);
    if i < |a.items| && k < |b.items| {
      ItemsSplit(a, i, x);
      ItemsSplit(b, k, y);
      hide Print, PrintItems;
      PrintIsFree(a.items[i], b.items[k], PrintItems(a, i + 1) + x, PrintItems(b, k + 1) + y);
      ItemsAreFree(a, b, i + 1, k + 1, x, y);
      assert a.items[i..] == [a.items[i]] + a.items[i + 1..];
      assert b.items[k..] == [b.items[k]] + b.items[k + 1..];
    } else if i == |a.items| && k == |b.items| {
      assert PrintItems(a, i)[1..] + x == x && PrintItems(b, k)[1..] + y == y;
    }
  }

  lemma ItemsSplit(owner: Json, k: nat, x: Bytes)
    requires owner.Arr? && k < |owner.items|
    ensures PrintItems(owner, k)[1..] + x == Print(owner.items[k]) + (PrintItems(owner, k + 1) + x)
  {
    hide Print;
    assert PrintItems(owner, k) == [1] + Print(owner.items[k]) + PrintItems(owner, k + 1);
    hide PrintItems;
    assert PrintItems(owner, k)[1..] == Print(owner.items[k]) + PrintItems(owner, k + 1);
  }

  lemma {:induction false} FieldsAreFree(a: Json, b: Json, s: set<string>, t: set<string>, x: Bytes, y: Bytes)
    requires a.Obj? && b.Obj? && s <= a.fields.Keys && t <= b.fields.Keys
    requires PrintFields(a, s) + x == PrintFields(b, t) + y
    ensures s == t && x == y && forall k :: k in s ==> a.fields[k] == b.fields[k]
    decreases a, 0, |s|
  {
    Cut(PrintFields(a, s), x, PrintFields(b, t), y);
    if s != {} && t != {} {
      var k, l := Pick(s), Pick(t);
      FieldsSplit(a, s, x);
      FieldsSplit(b, t, y);
      hide Print, PrintFields, PrintText, Pick;
      TextIsFree(k, l, Print(a.fields[k]) + (PrintFields(a, s - {k}) + x),
                 Print(b.fields[l]) + (PrintFields(b, t - {l}) + y));
      PrintIsFree(a.fields[k], b.fields[l], PrintFields(a, s - {k}) + x, PrintFields(b, t - {l}) + y);
      FieldsAreFree(a, b, s - {k}, t - {l}, x, y);
      assert s == (s - {k}) + {k} && t == (t - {k}) + {k};
    } else if s == {} && t == {} {
      assert PrintFields(a, s)[1..] + x == x && PrintFields(b, t)[1..] + y == y;
    }
  }

  lemma {:induction false} FieldsSplit(owner: Json, keys: set<string>, x: Bytes)
    requires owner.Obj? && keys <= owner.fields.Keys && keys != {}
    ensures var k := Pick(keys);
            PrintFields(owner, keys)[1..] + x
            == PrintText(k) + (Print(owner.fields[k]) + (PrintFields(owner, keys - {k}) + x))
  {
    hide Print, PrintText, Pick;
    var k := Pick(keys);
    var rest := PrintFields(owner, keys - {k});
    assert PrintFields(owner, keys) == [1] + (PrintText(k) + Print(owner.fields[k])) + rest;
    hide PrintFields;
    assert PrintFields(owner, keys)[1..] == PrintText(k) + Print(owner.fields[k]) + rest;
  }

  // ------------------------------------------------------------------ worlds

  ghost function Parse(b: Bytes): Option<Json> {
    if j: Json :| Print(j) == b then Some(j) else None
  }

  lemma {:induction false} ParsesWhatItPrints(j: Json)
    ensures Parse(Print(j)) == Some(j)
  {
    var b := Print(j);
    assert exists k: Json :: Print(k) == b;
    var k := Parse(b).value;
    assert Print(k) + [] == Print(j) + [];
    PrintIsFree(k, j, [], []);
  }

  /** Whatever the hashes, there is a world whose parser reads back every printed value. */
  lemma LawfulWorldExists(imageHash: Bytes -> Digest, textHash: string -> Digest) returns (w: World)
    ensures Lawful(w) && w.imageHash == imageHash && w.textHash == textHash
  {
    w := World(imageHash, textHash, j => Print(j), b => Parse(b));
    forall j ensures w.parseJson(w.printJson(j)) == Some(j) {
      ParsesWhatItPrints(j);
    }
  }

  function Repeated(c: char): Digest
    requires IsHex(c)
  {
    seq(64, _ => c)
  }

  /**
   All the hypotheses of the store can be met at once: with different images, and
   with ids whose folders are hashed.
   */
  lemma HypothesesCanBeMet() returns (w: World, images: iset<Bytes>, ids: iset<string>)
    ensures Lawful(w) && CollisionFree(w, images, ids) && Refines(w, map[], map[]) && Intact(w, images, map[])
    ensures [0] in images && [1] in images && "a" in ids && "A" in ids && "B" in ids
  {
    w := LawfulWorldExists(b => Repeated(if b == [0] then '0' else '1'),
                           s => Repeated(if s == "A" then '0' else '1'));
    images := iset{[0], [1]};
    ids := iset{"a", "A", "B"};
    EmptyStore(w, images);
    hide *;
    NothingCollides(w, images, ids);
  }

  lemma EmptyStore(w: World, images: iset<Bytes>)
    ensures Refines(w, map[], map[]) && Intact(w, images, map[])
  {
  }

  lemma NothingCollides(w: World, images: iset<Bytes>, ids: iset<string>)
    requires w.imageHash([0]) == Repeated('0') && w.imageHash([1]) == Repeated('1')
    requires w.textHash("A") == Repeated('0') && w.textHash("B") == Repeated('1')
    requires images == iset{[0], [1]} && ids == iset{"a", "A", "B"}
    ensures CollisionFree(w, images, ids)
  {
    hide FolderName, Repeated;
    DigitsDiffer();
    FoldersDiffer(w);
  }

  lemma DigitsDiffer()
    ensures Repeated('0') != Repeated('1') && Repeated('0')[..32] != Repeated('1')[..32]
  {
    assert Repeated('0')[0] == '0' && Repeated('1')[0] == '1';
    assert Repeated('0')[..32][0] == '0' && Repeated('1')[..32][0] == '1';
  }

  lemma CapitalIsHashed(id: string)
    requires id == "A" || id == "B"
    ensures !Plain(id)
  {
    assert id[0] in id;
  }

  lemma FoldersDiffer(w: World)
    requires w.textHash("A") == Repeated('0') && w.textHash("B") == Repeated('1')
    ensures FolderName(w, "a") != FolderName(w, "A") && FolderName(w, "a") != FolderName(w, "B")
    ensures FolderName(w, "A") != FolderName(w, "B")
  {
    assert Plain("a");
    CapitalIsHashed("A");
    CapitalIsHashed("B");
    hide Plain, FolderName;
    DigitsDiffer();
    FolderNameCollisions(w, "a", "A");
    FolderNameCollisions(w, "a", "B");
    FolderNameCollisions(w, "A", "B");
  }
}
