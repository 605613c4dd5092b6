/**
 Migrating legacy server arguments: values of app-managed options move into typed
 fields, and the options leave the argument list.
 */
module ServerArgs {
  import opened Outcomes
  import opened Strings
  import opened Decimals

  // ---------------------------------------------------------- managed options

  predicate ManagedServer(name: string) {
    name in {
      "--model", "-m", "--host", "--port", "-p", "--api-key", "--api-key-file", "--no-api-key",
      "-mm", "--mmproj", "--mmproj-url", "-mmu", "--mmproj-auto", "--no-mmproj", "--no-mmproj-auto"
    }
  }

  predicate ManagedSize(name: string) {
    name in {
      "--n-gpu-layers", "--gpu-layers", "-ngl", "--ctx-size", "-c", "--batch-size", "-b",
      "--ubatch-size", "-ub", "--keep", "--cache-type-k", "-ctk", "--cache-type-v", "-ctv"
    }
  }

  predicate ManagedRun(name: string) {
    name in {
      "--flash-attn", "-fa", "--n-cpu-moe", "-ncmoe", "--threads", "-t", "--parallel", "-np",
      "--timeout", "-to", "--sleep-idle-seconds", "--lora", "--lora-scaled", "--spec-type",
      "--spec-draft-n-max", "--spec-draft-n-min"
    }
  }

  predicate ManagedDraft(name: string) {
    name in {
      "--spec-draft-p-min", "--draft-p-min", "--spec-draft-p-split", "--draft-p-split",
      "--spec-draft-ngl", "--gpu-layers-draft", "--n-gpu-layers-draft", "-ngld",
      "--spec-draft-device", "-devd", "--device-draft", "--spec-draft-model", "-md", "--model-draft"
    }
  }

  predicate ManagedDevice(name: string) {
    name in {
      "--reasoning", "-rea", "--reasoning-format", "--reasoning-effort", "--reasoning-budget",
      "--reasoning-budget-message", "--reasoning-preserve", "--no-reasoning-preserve",
      "--device", "-dev", "--main-gpu", "-mg", "--split-mode", "-sm", "--tensor-split", "-ts"
    }
  }

  predicate Managed(name: string) {
    ManagedServer(name) || ManagedSize(name) || ManagedRun(name) || ManagedDraft(name) || ManagedDevice(name)
  }

  // A dash, then characters that no number and no signed infinity or not-a-number starts with.
  predicate IsFlag(name: string) {
    |name| >= 2 && name[0] == '-' && !IsDigit(name[1]) && name[1] != '.' && name[1] != 'i' && name[1] != 'I'
    && name[1] != 'N' && (name[1] == 'n' ==> |name| >= 3 && name[2] != 'a' && name[2] != 'A')
  }

  lemma ManagedServerIsFlag(name: string)
    requires ManagedServer(name)
    ensures IsFlag(name)
  {
  }

  lemma ManagedSizeIsFlag(name: string)
    requires ManagedSize(name)
    ensures IsFlag(name)
  {
  }

  lemma ManagedRunIsFlag(name: string)
    requires ManagedRun(name)
    ensures IsFlag(name)
  {
  }

  lemma ManagedDraftIsFlag(name: string)
    requires ManagedDraft(name)
    ensures IsFlag(name)
  {
  }

  lemma ManagedDeviceIsFlag(name: string)
    requires ManagedDevice(name)
    ensures IsFlag(name)
  {
  }

  lemma ManagedIsFlag(name: string)
    requires Managed(name)
    ensures IsFlag(name)
  {
    hide IsFlag, ManagedServer, ManagedSize, ManagedRun, ManagedDraft, ManagedDevice;
    if ManagedServer(name) { ManagedServerIsFlag(name); }
    if ManagedSize(name) { ManagedSizeIsFlag(name); }
    if ManagedRun(name) { ManagedRunIsFlag(name); }
    if ManagedDraft(name) { ManagedDraftIsFlag(name); }
    if ManagedDevice(name) { ManagedDeviceIsFlag(name); }
  }

  // ------------------------------------------------------------------ numbers

  // The words a floating-point parser takes besides decimals, in any case.
  predicate IsWord(s: string) {
    Lower(s) == "inf" || Lower(s) == "infinity" || Lower(s) == "nan"
  }

  function Unsigned(s: string): string {
    if s != "" && (s[0] == '+' || s[0] == '-') then s[1..] else s
  }

  // The part of a decimal before its exponent.
  function Mantissa(s: string): (m: string)
    ensures m <= s && 'e' !in m && 'E' !in m
    ensures |m| < |s| ==> s[|m|] == 'e' || s[|m|] == 'E'
  {
    if s == "" || s[0] == 'e' || s[0] == 'E' then "" else [s[0]] + Mantissa(s[1..])
  }

  predicate IsMantissa(m: string) {
    var whole := Before(m, '.');
    var fraction := if |whole| < |m| then m[|whole| + 1..] else "";
    AllDigits(whole) && AllDigits(fraction) && |whole| + |fraction| > 0
  }

  predicate IsDecimal(s: string) {
    var m := Mantissa(s);
    IsMantissa(m)
    && (|m| < |s| ==> Unsigned(s[|m| + 1..]) != "" && AllDigits(Unsigned(s[|m| + 1..])))
  }

  /** What the source's floating-point parser accepts. */
  predicate IsFloat(s: string) {
    IsWord(Unsigned(s)) || IsDecimal(Unsigned(s))
  }

  // --------------------------------------------- numbers, by their grammar

  lemma {:induction false} BeforeIsWhole(s: string, c: char)
    ensures |Before(s, c)| < |s| <==> c in s
    ensures c !in s ==> Before(s, c) == s
  {
    if s != "" && s[0] != c {
      BeforeIsWhole(s[1..], c);
    }
  }

  predicate IsSign(s: string) { s == "" || s == "+" || s == "-" }

  predicate IsNumeral(s: string) { s != "" && AllDigits(s) }

  // An exponent: nothing, or the letter, perhaps a sign, and digits.
  ghost predicate IsExponent(s: string) {
    s == ""
    || ((s[0] == 'e' || s[0] == 'E')
        && exists sign, digits :: IsSign(sign) && IsNumeral(digits) && s[1..] == sign + digits)
  }

  // Digits with or without a point, at least one digit in all.
  ghost predicate IsPlainDecimal(s: string) {
    IsNumeral(s)
    || exists whole, fraction :: AllDigits(whole) && AllDigits(fraction) && whole + fraction != ""
                                 && s == whole + "." + fraction
  }

  predicate IsSpecial(s: string) {
    Lower(s) == "inf" || Lower(s) == "infinity" || Lower(s) == "nan"
  }

  ghost predicate IsScientific(s: string) {
    exists plain, exponent :: IsPlainDecimal(plain) && IsExponent(exponent) && s == plain + exponent
  }

  /** A number as text: perhaps a sign, then a decimal with an exponent, an infinity, or not-a-number. */
  ghost predicate IsNumberText(s: string) {
    exists sign, body :: IsSign(sign) && s == sign + body && (IsSpecial(body) || IsScientific(body))
  }

  lemma {:induction false} PlainIsMantissa(m: string)
    ensures IsMantissa(m) <==> IsPlainDecimal(m)
  {
    var whole := Before(m, '.');
    BeforeIsWhole(m, '.');
    if |whole| < |m| {
      var fraction := m[|whole| + 1..];
      assert m == whole + "." + fraction;
      assert !AllDigits(m) by { assert m[|whole|] == '.'; }
    }
    if IsPlainDecimal(m) && !IsNumeral(m) {
      var a, b :| AllDigits(a) && AllDigits(b) && a + b != "" && m == a + "." + b;
      DigitsHaveNoPoint(a);
      BeforeAt(a, '.', b);
      assert a + ['.'] + b == m && m[|a| + 1..] == b;
    }
  }

  lemma DigitsHaveNoPoint(s: string)
    requires AllDigits(s)
    ensures '.' !in s && 'e' !in s && 'E' !in s
  {
  }

  lemma {:induction false} PlainHasNoExponent(s: string)
    requires IsPlainDecimal(s)
    ensures 'e' !in s && 'E' !in s && s != "" && s[0] != '+' && s[0] != '-'
  {
    if IsNumeral(s) {
      DigitsHaveNoPoint(s);
    } else {
      var a, b :| AllDigits(a) && AllDigits(b) && a + b != "" && s == a + "." + b;
      DigitsHaveNoPoint(a);
      DigitsHaveNoPoint(b);
      assert s[0] == if a == "" then '.' else a[0];
    }
  }

  lemma {:induction false} MantissaAt(plain: string, exponent: string)
    requires 'e' !in plain && 'E' !in plain && (exponent == "" || exponent[0] == 'e' || exponent[0] == 'E')
    ensures Mantissa(plain + exponent) == plain
  {
    var s := plain + exponent;
    if plain == "" {
      assert s == exponent;
    } else {
      assert s[1..] == plain[1..] + exponent;
      MantissaAt(plain[1..], exponent);
    }
  }

  lemma {:induction false} UnsignedIs(sign: string, digits: string)
    requires IsSign(sign) && digits != "" && digits[0] != '+' && digits[0] != '-'
    ensures Unsigned(sign + digits) == digits
  {
    if sign != "" {
      assert (sign + digits)[1..] == digits;
    } else {
      assert sign + digits == digits;
    }
  }

  // A text is its sign and what follows it.
  lemma {:induction false} SignedIs(s: string) returns (sign: string)
    ensures IsSign(sign) && s == sign + Unsigned(s)
  {
    sign := if s != "" && (s[0] == '+' || s[0] == '-') then s[..1] else "";
    assert s == sign + Unsigned(s);
  }

  lemma {:induction false} ExponentIs(exponent: string)
    requires exponent == "" || exponent[0] == 'e' || exponent[0] == 'E'
    ensures IsExponent(exponent) <==> (exponent != "" ==> IsNumeral(Unsigned(exponent[1..])))
  {
    if exponent != "" {
      var rest := exponent[1..];
      var sign := SignedIs(rest);
      if IsExponent(exponent) {
        var sign', digits :| IsSign(sign') && IsNumeral(digits) && rest == sign' + digits;
        UnsignedIs(sign', digits);
      }
    }
  }

  lemma {:induction false} DecimalIsScientific(s: string)
    ensures IsDecimal(s) <==> IsScientific(s)
  {
    hide IsMantissa, IsPlainDecimal, IsExponent;
    var m := Mantissa(s);
    PlainIsMantissa(m);
    ExponentIs(s[|m|..]);
    assert s == m + s[|m|..];
    assert |m| < |s| ==> s[|m|..][1..] == s[|m| + 1..];
    if IsScientific(s) {
      var plain, exponent :| IsPlainDecimal(plain) && IsExponent(exponent) && s == plain + exponent;
      PlainHasNoExponent(plain);
      ExponentStarts(exponent);
      MantissaAt(plain, exponent);
      assert s[|plain|..] == exponent;
    }
  }

  lemma ExponentStarts(exponent: string)
    requires IsExponent(exponent)
    ensures exponent == "" || exponent[0] == 'e' || exponent[0] == 'E'
  {
  }

  lemma SpecialStarts(s: string)
    requires IsSpecial(s)
    ensures s != "" && s[0] != '+' && s[0] != '-'
  {
    assert LowerChar(s[0]) == Lower(s)[0];
  }

  lemma {:induction false} ScientificStarts(s: string)
    requires IsScientific(s)
    ensures s != "" && s[0] != '+' && s[0] != '-'
  {
    var plain, exponent :| IsPlainDecimal(plain) && IsExponent(exponent) && s == plain + exponent;
    PlainHasNoExponent(plain);
    assert s[0] == plain[0];
  }

  /** The floating-point parser takes exactly the texts of the grammar. */
  lemma {:induction false} NumberIsRead(s: string)
    ensures IsFloat(s) <==> IsNumberText(s)
  {
    hide IsDecimal, IsScientific, IsSpecial;
    var sign := SignedIs(s);
    DecimalIsScientific(Unsigned(s));
    WordIsSpecial(Unsigned(s));
    if IsNumberText(s) {
      var sign', body :| IsSign(sign') && s == sign' + body && (IsSpecial(body) || IsScientific(body));
      if IsSpecial(body) { SpecialStarts(body); } else { ScientificStarts(body); }
      UnsignedIs(sign', body);
    }
  }

  lemma WordIsSpecial(s: string)
    ensures IsWord(s) <==> IsSpecial(s)
  {
  }

  lemma DecimalStarts(s: string)
    requires IsDecimal(s)
    ensures s != "" && (IsDigit(s[0]) || s[0] == '.')
  {
    var m := Mantissa(s);
    var whole := Before(m, '.');
    assert m != "" && m[0] == s[0];
    if whole != "" {
      assert whole[0] == m[0] && IsDigit(whole[0]);
    }
  }

  lemma WordStarts(s: string)
    requires IsWord(s)
    ensures s != "" && (s[0] == 'i' || s[0] == 'I' || s[0] == 'n' || s[0] == 'N')
    ensures s[0] == 'n' ==> |s| > 1 && (s[1] == 'a' || s[1] == 'A')
  {
    assert LowerChar(s[0]) == Lower(s)[0] && LowerChar(s[1]) == Lower(s)[1];
  }

  // A text that begins with a managed option is no number.
  lemma FlagIsNoNumber(name: string, text: string)
    requires IsFlag(name) && name <= text
    ensures !IsFloat(text)
  {
    hide IsWord, IsDecimal, IsDigit;
    var rest := Unsigned(text);
    assert rest == text[1..] && rest[0] == name[1] && (|name| >= 3 ==> rest[1] == name[2]);
    if IsWord(rest) {
      WordStarts(rest);
    }
    if IsDecimal(rest) {
      DecimalStarts(rest);
    }
  }

  // -------------------------------------------------------------- one option

  // What comes before the first equals sign, or all of it, without surrounding white space.
  function OptionName(argument: string): string {
    Trim(Before(argument, '='))
  }

  // The name the configuration check takes: trimmed first, then cut.
  function CheckedName(argument: string): string {
    var trimmed := Trim(argument);
    if '=' in trimmed then Trim(Before(trimmed, '=')) else trimmed
  }

  function OptionValue(args: seq<string>, index: nat): Option<string> {
    if index >= |args| then None
    else if '=' in args[index] then Some(Trim(args[index][|Before(args[index], '=')| + 1..]))
    else if index + 1 >= |args| then None
    else
      var next := Trim(args[index + 1]);
      if !("-" <= next) || IsFloat(next) then Some(next) else None
  }

  predicate ConsumesNext(args: seq<string>, index: nat) {
    index < |args| && '=' !in args[index]
    && OptionName(args[index]) !in
       {"--no-api-key", "--mmproj-auto", "--no-mmproj", "--no-mmproj-auto", "--no-reasoning-preserve"}
    && OptionValue(args, index).Some?
  }

  lemma {:induction false} TrimStartSplit(a: string, b: string)
    ensures TrimStart(a) != "" ==> TrimStart(a + b) == TrimStart(a) + b
    ensures TrimStart(a) == "" ==> TrimStart(a + b) == TrimStart(b)
  {
    if a == "" {
      assert a + b == b;
    } else if White(a[0]) {
      assert (a + b)[1..] == a[1..] + b;
      TrimStartSplit(a[1..], b);
    }
  }

  lemma {:induction false} TrimStartBlack(c: char, b: string)
    requires !White(c)
    ensures TrimStart([c] + b) == [c] + b
  {
  }

  lemma {:induction false} TrimEndKeeps(a: string, c: char, b: string)
    requires !White(c)
    ensures TrimEnd(a + [c] + b) == a + [c] + TrimEnd(b)
    decreases |b|
  {
    var s := a + [c] + b;
    if b == "" {
      assert s[|s| - 1] == c;
      assert a + [c] + "" == s;
    } else if White(b[|b| - 1]) {
      assert s[..|s| - 1] == a + [c] + b[..|b| - 1];
      TrimEndKeeps(a, c, b[..|b| - 1]);
    }
  }

  // An argument with a value, trimmed: its name's white space goes, the equals sign stays.
  lemma {:induction false} TrimWithValue(before: string, after: string)
    ensures Trim(before + "=" + after) == TrimStart(before) + "=" + TrimEnd(after)
  {
    hide TrimStart, TrimEnd;
    TrimStartSplit(before, "=" + after);
    assert before + "=" + after == before + ("=" + after);
    TrimStartBlack('=', after);
    assert TrimStart(before + "=" + after) == TrimStart(before) + "=" + after;
    TrimEndKeeps(TrimStart(before), '=', after);
  }

  lemma {:induction false} SplitAtEquals(argument: string)
    requires '=' in argument
    ensures var before := Before(argument, '=');
            |before| < |argument| && argument == before + "=" + argument[|before| + 1..]
  {
    BeforeIsWhole(argument, '=');
  }

  lemma {:induction false} TrimStartHolds(s: string, c: char)
    requires c !in s
    ensures c !in TrimStart(s)
  {
    if s != "" && White(s[0]) {
      TrimStartHolds(s[1..], c);
    }
  }

  lemma {:induction false} TrimStartTwice(s: string)
    ensures TrimStart(TrimStart(s)) == TrimStart(s)
  {
    if s != "" && White(s[0]) {
      TrimStartTwice(s[1..]);
    }
  }

  /** Migration and the configuration check read the same name off every argument. */
  lemma NamesAgree(argument: string)
    ensures CheckedName(argument) == OptionName(argument)
  {
    hide TrimStart, TrimEnd, Before;
    BeforeIsWhole(argument, '=');
    if '=' in argument {
      var before := Before(argument, '=');
      SplitAtEquals(argument);
      var after := argument[|before| + 1..];
      TrimWithValue(before, after);
      TrimStartHolds(before, '=');
      BeforeAt(TrimStart(before), '=', TrimEnd(after));
      TrimStartTwice(before);
    } else {
      TrimHoldsNone(argument, '=');
    }
  }

  lemma TrimHoldsNone(s: string, c: char)
    requires c !in s
    ensures c !in Trim(s)
  {
    TrimStartHolds(s, c);
    EndTrimmed(TrimStart(s));
  }

  // A trimmed argument starts with its name.
  lemma NameComesFirst(argument: string)
    ensures OptionName(argument) <= Trim(argument)
  {
    hide TrimStart, TrimEnd, Before;
    BeforeIsWhole(argument, '=');
    if '=' in argument {
      var before := Before(argument, '=');
      SplitAtEquals(argument);
      TrimWithValue(before, argument[|before| + 1..]);
      EndTrimmed(TrimStart(before));
    }
  }

  /** A managed option is never taken for the value of the option before it. */
  lemma ManagedIsNoValue(args: seq<string>, index: nat)
    requires index + 1 < |args| && '=' !in args[index] && Managed(OptionName(args[index + 1]))
    ensures OptionValue(args, index) == None
  {
    var next := args[index + 1];
    var name := OptionName(next);
    hide Trim, OptionName, Before, Managed, IsFlag, IsFloat;
    ManagedIsFlag(name);
    NameComesFirst(next);
    FlagIsNoNumber(name, Trim(next));
    FlagHasDash(name);
    assert Trim(next)[0] == name[0];
  }

  lemma FlagHasDash(name: string)
    requires IsFlag(name)
    ensures name != "" && name[0] == '-'
  {
  }

  // ------------------------------------------------------------ typed fields

  datatype Field =
    | Ngl | CtxSize | BatchSize | UbatchSize | Keep | CacheTypeK | CacheTypeV
    | NCpuMoe | Threads | Parallel | RequestTimeoutSeconds | SleepIdleSeconds

  datatype Setting = Number(n: int) | Kind(name: string)

  // The typed field an option stands for.
  function FieldOf(name: string): Option<Field> {
    if name in {"--n-gpu-layers", "--gpu-layers", "-ngl"} then Some(Ngl)
    else if name in {"--ctx-size", "-c"} then Some(CtxSize)
    else if name in {"--batch-size", "-b"} then Some(BatchSize)
    else if name in {"--ubatch-size", "-ub"} then Some(UbatchSize)
    else if name in {"--keep"} then Some(Keep)
    else if name in {"--cache-type-k", "-ctk"} then Some(CacheTypeK)
    else if name in {"--cache-type-v", "-ctv"} then Some(CacheTypeV)
    else if name in {"--n-cpu-moe", "-ncmoe"} then Some(NCpuMoe)
    else if name in {"--threads", "-t"} then Some(Threads)
    else if name in {"--parallel", "-np"} then Some(Parallel)
    else if name in {"--timeout", "-to"} then Some(RequestTimeoutSeconds)
    else if name in {"--sleep-idle-seconds"} then Some(SleepIdleSeconds)
    else None
  }

  function ParseSigned(s: string): Option<int> {
    var digits := Unsigned(s);
    if digits == "" || !AllDigits(digits) then None
    else
      var n: int := Digits(digits);
      Some(if s[0] == '-' then -n else n)
  }

  function Within(n: Option<int>, low: int, high: int): Option<Setting> {
    if n.Some? && low <= n.value <= high then Some(Number(n.value)) else None
  }

  // The value of a field as its own type parses it.
  function ParseSetting(f: Field, s: string): Option<Setting> {
    match f
    case Keep => Within(ParseSigned(s), -0x8000_0000, 0x7FFF_FFFF)
    case SleepIdleSeconds => Within(ParseSigned(s), -0x8000_0000_0000_0000, 0x7FFF_FFFF_FFFF_FFFF)
    case CacheTypeK => ParseKind(s)
    case CacheTypeV => ParseKind(s)
    case _ => if "-" <= s then None else Within(ParseSigned(s), 0, 0xFFFF_FFFF)
  }

  function ParseKind(s: string): Option<Setting> {
    if s in {"f16", "f32", "bf16", "q8_0", "q5_0", "q5_1", "q4_0", "q4_1", "iq4_nl"} then Some(Kind(s)) else None
  }

  lemma FieldsAreManaged(name: string)
    requires FieldOf(name).Some?
    ensures Managed(name)
  {
    hide ManagedServer, ManagedDraft, ManagedDevice;
    assert ManagedSize(name) || ManagedRun(name);
  }

  // ------------------------------------------------------ what texts mean

  // An integer in decimal, perhaps with a sign and with zeros in front.
  ghost predicate SpellsInteger(s: string, n: int) {
    (n >= 0 && Spells(s, n)) || (n <= 0 && s != "" && s[0] == '-' && Padding(s[1..], -n))
  }

  // The values of a typed field.
  predicate Fits(f: Field, v: Setting) {
    match f
    case CacheTypeK => v.Kind? && CacheType(v.name)
    case CacheTypeV => v.Kind? && CacheType(v.name)
    case Keep => v.Number? && -2147483648 <= v.n <= 2147483647
    case SleepIdleSeconds => v.Number? && -9223372036854775808 <= v.n <= 9223372036854775807
    case _ => v.Number? && 0 <= v.n <= 4294967295
  }

  predicate CacheType(name: string) {
    name == "f16" || name == "f32" || name == "bf16" || name == "q8_0" || name == "q5_0" || name == "q5_1"
    || name == "q4_0" || name == "q4_1" || name == "iq4_nl"
  }

  /** A text gives a field a value: its own name, or a spelling of a number without a needless minus. */
  ghost predicate Says(f: Field, s: string, v: Setting) {
    Fits(f, v)
    && match v
       case Kind(name) => s == name
       case Number(n) => SpellsInteger(s, n) && (f.Keep? || f.SleepIdleSeconds? || !("-" <= s))
  }

  lemma IntegerIsRead(s: string, n: int)
    ensures ParseSigned(s) == Some(n) <==> SpellsInteger(s, n)
  {
    hide Digits, Padding;
    if s != "" && s[0] == '-' {
      DigitsSpell(s[1..], if n <= 0 then -n else 0);
      DashSpellsNothing(s, n);
    } else if n >= 0 {
      ParsesSpellings(s, n);
    }
  }

  lemma DashSpellsNothing(s: string, n: int)
    requires s != "" && s[0] == '-'
    ensures n >= 0 ==> !Spells(s, n)
  {
    if n >= 0 {
      ParsesSpellings(s, n);
    }
  }

  /** A field's parser takes exactly the texts that give it a value. */
  lemma SettingIsRead(f: Field, s: string, v: Setting)
    ensures ParseSetting(f, s) == Some(v) <==> Says(f, s, v)
  {
    hide ParseSigned, SpellsInteger;
    if v.Number? {
      IntegerIsRead(s, v.n);
    }
  }

  lemma {:induction false} MantissaIsWhole(s: string)
    requires 'e' !in s && 'E' !in s
    ensures Mantissa(s) == s
  {
    if s != "" {
      MantissaIsWhole(s[1..]);
    }
  }

  lemma IntegerIsNumber(s: string, n: int)
    requires SpellsInteger(s, n)
    ensures IsFloat(s)
  {
    IntegerIsRead(s, n);
    var digits := Unsigned(s);
    hide Digits;
    MantissaIsWhole(digits);
    BeforeIsWhole(digits, '.');
  }

  // A name as it stands in a list: no white space around it, no equals sign.
  predicate Bare(name: string) {
    '=' !in name && Trim(name) == name
  }

  // The managed options without a typed field.
  predicate IsServerOption(name: string) {
    name == "--model" || name == "-m" || name == "--host" || name == "--port" || name == "-p"
    || name == "--api-key" || name == "--api-key-file" || name == "--no-api-key" || name == "-mm"
    || name == "--mmproj" || name == "--mmproj-url" || name == "-mmu" || name == "--mmproj-auto"
    || name == "--no-mmproj" || name == "--no-mmproj-auto"
  }

  predicate IsModelOption(name: string) {
    name == "--flash-attn" || name == "-fa" || name == "--lora" || name == "--lora-scaled" || name == "--spec-type"
    || name == "--spec-draft-n-max" || name == "--spec-draft-n-min"
  }

  predicate IsDraftOption(name: string) {
    name == "--spec-draft-p-min" || name == "--draft-p-min" || name == "--spec-draft-p-split"
    || name == "--draft-p-split" || name == "--spec-draft-ngl" || name == "--gpu-layers-draft"
    || name == "--n-gpu-layers-draft" || name == "-ngld" || name == "--spec-draft-device" || name == "-devd"
    || name == "--device-draft" || name == "--spec-draft-model" || name == "-md" || name == "--model-draft"
  }

  predicate IsDeviceOption(name: string) {
    name == "--reasoning" || name == "-rea" || name == "--reasoning-format" || name == "--reasoning-effort"
    || name == "--reasoning-budget" || name == "--reasoning-budget-message" || name == "--reasoning-preserve"
    || name == "--no-reasoning-preserve" || name == "--device" || name == "-dev" || name == "--main-gpu"
    || name == "-mg" || name == "--split-mode" || name == "-sm" || name == "--tensor-split" || name == "-ts"
  }

  predicate IsTyped(name: string) {
    exists f: Field :: Spelled(f, name)
  }

  lemma SizesAreTyped(name: string)
    requires ManagedSize(name)
    ensures IsTyped(name)
  {
    assert Spelled(Ngl, name) || Spelled(CtxSize, name) || Spelled(BatchSize, name) || Spelled(UbatchSize, name)
           || Spelled(Keep, name) || Spelled(CacheTypeK, name) || Spelled(CacheTypeV, name);
  }

  lemma RunsAreListed(name: string)
    requires ManagedRun(name)
    ensures IsTyped(name) || IsModelOption(name)
  {
    assert Spelled(NCpuMoe, name) || Spelled(Threads, name) || Spelled(Parallel, name)
           || Spelled(RequestTimeoutSeconds, name) || Spelled(SleepIdleSeconds, name) || IsModelOption(name);
  }

  /** The managed options are the typed ones and four lists of others. */
  lemma ManagedIsListed(name: string)
    ensures Managed(name) <==>
            IsTyped(name) || IsServerOption(name) || IsModelOption(name) || IsDraftOption(name) || IsDeviceOption(name)
  {
    OthersAreManaged(name);
    if IsTyped(name) {
      var f :| Spelled(f, name);
      FieldIsSpelled(name, f);
      FieldsAreManaged(name);
    }
    if ManagedSize(name) { SizesAreTyped(name); }
    if ManagedRun(name) { RunsAreListed(name); }
    hide IsTyped, ManagedSize, ManagedRun, IsModelOption, IsServerOption, IsDraftOption, IsDeviceOption;
  }

  lemma OthersAreManaged(name: string)
    ensures ManagedServer(name) <==> IsServerOption(name)
    ensures ManagedDraft(name) <==> IsDraftOption(name)
    ensures ManagedDevice(name) <==> IsDeviceOption(name)
    ensures IsModelOption(name) ==> ManagedRun(name)
  {
  }

  lemma SolidIsBare(name: string)
    requires Solid(name)
    ensures Bare(name)
  {
    TrimSolid(name);
  }

  // No equals sign, and no white space at either end.
  predicate Solid(name: string) {
    name != "" && '=' !in name && !White(name[0]) && !White(name[|name| - 1])
  }

  lemma ManagedServerIsSolid(name: string)
    requires ManagedServer(name)
    ensures Solid(name)
  {
  }

  lemma ManagedSizeIsSolid(name: string)
    requires ManagedSize(name)
    ensures Solid(name)
  {
  }

  lemma ManagedRunIsSolid(name: string)
    requires ManagedRun(name)
    ensures Solid(name)
  {
  }

  lemma ManagedDraftIsSolid(name: string)
    requires ManagedDraft(name)
    ensures Solid(name)
  {
  }

  lemma ManagedDeviceIsSolid(name: string)
    requires ManagedDevice(name)
    ensures Solid(name)
  {
  }

  lemma ManagedIsBare(name: string)
    requires Managed(name)
    ensures Bare(name)
  {
    hide Solid, Bare, ManagedServer, ManagedSize, ManagedRun, ManagedDraft, ManagedDevice;
    if ManagedServer(name) { ManagedServerIsSolid(name); }
    if ManagedSize(name) { ManagedSizeIsSolid(name); }
    if ManagedRun(name) { ManagedRunIsSolid(name); }
    if ManagedDraft(name) { ManagedDraftIsSolid(name); }
    if ManagedDevice(name) { ManagedDeviceIsSolid(name); }
    SolidIsBare(name);
  }

  // ------------------------------------------------- what written arguments mean

  // The spellings of each typed option.
  predicate Spelled(f: Field, name: string) {
    match f
    case Ngl => name == "--n-gpu-layers" || name == "--gpu-layers" || name == "-ngl"
    case CtxSize => name == "--ctx-size" || name == "-c"
    case BatchSize => name == "--batch-size" || name == "-b"
    case UbatchSize => name == "--ubatch-size" || name == "-ub"
    case Keep => name == "--keep"
    case CacheTypeK => name == "--cache-type-k" || name == "-ctk"
    case CacheTypeV => name == "--cache-type-v" || name == "-ctv"
    case NCpuMoe => name == "--n-cpu-moe" || name == "-ncmoe"
    case Threads => name == "--threads" || name == "-t"
    case Parallel => name == "--parallel" || name == "-np"
    case RequestTimeoutSeconds => name == "--timeout" || name == "-to"
    case SleepIdleSeconds => name == "--sleep-idle-seconds"
  }

  // Managed options that take no value.
  predicate Switch(name: string) {
    name == "--no-api-key" || name == "--mmproj-auto" || name == "--no-mmproj" || name == "--no-mmproj-auto"
    || name == "--no-reasoning-preserve"
  }

  lemma FieldIsSpelled(name: string, f: Field)
    ensures FieldOf(name) == Some(f) <==> Spelled(f, name)
  {
  }

  lemma SwitchesAreManaged(name: string)
    requires Switch(name)
    ensures Managed(name) && FieldOf(name) == None
  {
    hide ManagedSize, ManagedRun, ManagedDraft;
    assert ManagedServer(name) || ManagedDevice(name);
  }

  /** One or two arguments of a list, as somebody wrote them. */
  datatype Item = Plain(argument: string) | Alone(name: string) | Joined(name: string, text: string)
                | Spaced(name: string, text: string)

  function Print(item: Item): (r: seq<string>)
    ensures 1 <= |r| <= 2
  {
    match item
    case Plain(argument) => [argument]
    case Alone(name) => [name]
    case Joined(name, text) => [name + "=" + text]
    case Spaced(name, text) => [name, text]
  }

  function PrintAll(items: seq<Item>): seq<string> {
    if items == [] then [] else PrintAll(items[..|items| - 1]) + Print(items[|items| - 1])
  }

  // A text that does not start with a dash, or is a number.
  ghost predicate IsValue(text: string) {
    text == "" || text[0] != '-' || IsNumberText(text)
  }

  /** A managed option with a value, a managed switch, or an argument that is none of these. */
  ghost predicate WellWritten(item: Item) {
    match item
    case Plain(argument) => !Managed(OptionName(argument))
    case Alone(name) => Switch(name)
    case Joined(name, text) => Managed(name)
    case Spaced(name, text) => Managed(name) && !Switch(name) && IsValue(Trim(text))
  }

  ghost predicate AllWellWritten(items: seq<Item>) {
    forall i :: 0 <= i < |items| ==> WellWritten(items[i])
  }

  // The arguments that are not options of the app, in order.
  function Others(items: seq<Item>): seq<string> {
    if items == [] then []
    else
      var rest, last := Others(items[..|items| - 1]), items[|items| - 1];
      if last.Plain? then rest + [last.argument] else rest
  }

  // An item gives a field a value.
  ghost predicate Gives(item: Item, f: Field, v: Setting) {
    (item.Joined? || item.Spaced?) && Spelled(f, item.name) && Says(f, Trim(item.text), v)
  }

  /** A field after all items: what the last item that gives it a value says, else as it was. */
  ghost predicate EndsAs(items: seq<Item>, f: Field, before: Setting, v: Setting) {
    if items == [] then v == before
    else
      var last := items[|items| - 1];
      if exists u :: Gives(last, f, u) then Gives(last, f, v) else EndsAs(items[..|items| - 1], f, before, v)
  }

  // ------------------------------------------------------------ what is meant

  predicate ManagedAt(args: seq<string>, i: nat) {
    i < |args| && Managed(OptionName(args[i]))
  }

  // An argument that is the value of the managed option right before it.
  predicate TakenAsValue(args: seq<string>, i: nat) {
    i > 0 && ManagedAt(args, i - 1) && ConsumesNext(args, i - 1)
  }

  /** The arguments that stay: neither managed nor a managed option's value, in order. */
  function Kept(args: seq<string>, n: nat): seq<string>
    requires n <= |args|
  {
    if n == 0 then []
    else
      var kept := Kept(args, n - 1);
      if ManagedAt(args, n - 1) || TakenAsValue(args, n - 1) then kept else kept + [args[n - 1]]
  }

  // What the option at a position says about a field.
  function Given(args: seq<string>, i: nat, f: Field): Option<Setting> {
    if i < |args| && FieldOf(OptionName(args[i])) == Some(f) && OptionValue(args, i).Some?
    then ParseSetting(f, OptionValue(args, i).value)
    else None
  }

  /** The last parsable occurrence of a field's options. */
  function LastGiven(args: seq<string>, f: Field, n: nat): Option<Setting> {
    if n == 0 then None
    else if Given(args, n - 1, f).Some? then Given(args, n - 1, f)
    else LastGiven(args, f, n - 1)
  }

  // A field after migration: the last occurrence when the file lacked the field, else as it was.
  function Migrated(before: Setting, args: seq<string>, missing: bool, f: Field, n: nat): Setting {
    if missing && LastGiven(args, f, n).Some? then LastGiven(args, f, n).value else before
  }

  // One field after one more option.
  function Stepped(args: seq<string>, missing: bool, f: Field, n: nat, before: Setting): Setting {
    if missing && Given(args, n, f).Some? then Given(args, n, f).value else before
  }

  lemma MigratedStep(args: seq<string>, missing: Field -> bool, n: nat)
    ensures forall f: Field, before: Setting ::
              Migrated(before, args, missing(f), f, n + 1)
              == Stepped(args, missing(f), f, n, Migrated(before, args, missing(f), f, n))
  {
    hide Given;
    forall f: Field, before: Setting
      ensures Migrated(before, args, missing(f), f, n + 1)
           == Stepped(args, missing(f), f, n, Migrated(before, args, missing(f), f, n))
    {
      assert LastGiven(args, f, n + 1) == if Given(args, n, f).Some? then Given(args, n, f) else LastGiven(args, f, n);
    }
  }

  lemma NothingMigrated(args: seq<string>, missing: Field -> bool)
    ensures forall f: Field, before: Setting :: Migrated(before, args, missing(f), f, 0) == before
  {
  }

  lemma ConsumedIsThere(args: seq<string>, index: nat)
    requires ConsumesNext(args, index)
    ensures index + 1 < |args|
  {
    hide Trim, OptionName, IsFloat;
  }

  lemma ConsumedIsNotManaged(args: seq<string>, index: nat)
    requires ConsumesNext(args, index) && index + 1 < |args|
    ensures !ManagedAt(args, index + 1)
  {
    hide Trim, OptionName, OptionValue, Managed;
    if ManagedAt(args, index + 1) {
      ManagedIsNoValue(args, index);
    }
  }

  lemma NothingGiven(args: seq<string>, index: nat)
    requires index < |args| && !ManagedAt(args, index)
    ensures forall f: Field :: Given(args, index, f) == None
  {
    hide FieldOf, Managed, OptionName, OptionValue, ParseSetting;
    if FieldOf(OptionName(args[index])).Some? {
      FieldsAreManaged(OptionName(args[index]));
    }
  }

  // ------------------------------------------------ migrating what was written

  lemma OneName(name: string)
    requires Bare(name)
    ensures OptionName(name) == name
    ensures forall text :: OptionName(name + "=" + text) == name
  {
    hide Trim;
    BeforeIsWhole(name, '=');
    forall text ensures OptionName(name + "=" + text) == name {
      BeforeAt(name, '=', text);
      assert name + ['='] + text == name + "=" + text;
    }
  }

  // What an option at a position gives a field is what its text says.
  lemma GivenIsSaid(args: seq<string>, n: nat, f: Field, name: string, text: string)
    requires n < |args| && OptionName(args[n]) == name && OptionValue(args, n) == Some(Trim(text))
    ensures forall v :: Given(args, n, f) == Some(v) <==> Spelled(f, name) && Says(f, Trim(text), v)
  {
    hide OptionName, OptionValue, Trim, FieldOf, Spelled, ParseSetting, Says;
    FieldIsSpelled(name, f);
    forall v ensures ParseSetting(f, Trim(text)) == Some(v) <==> Says(f, Trim(text), v) {
      SettingIsRead(f, Trim(text), v);
    }
  }

  lemma JoinedIsRead(args: seq<string>, n: nat, name: string, text: string)
    requires n < |args| && Bare(name) && args[n] == name + "=" + text
    ensures OptionName(args[n]) == name && OptionValue(args, n) == Some(Trim(text)) && !ConsumesNext(args, n)
  {
    hide Trim;
    OneName(name);
    BeforeAt(name, '=', text);
    assert name + ['='] + text == args[n];
    assert args[n][|name|] == '=';
  }

  lemma SpacedIsRead(args: seq<string>, n: nat, name: string, text: string)
    requires n + 1 < |args| && Bare(name) && !Switch(name) && IsValue(Trim(text))
    requires args[n] == name && args[n + 1] == text
    ensures OptionName(args[n]) == name && OptionValue(args, n) == Some(Trim(text)) && ConsumesNext(args, n)
  {
    hide Trim, IsFloat, IsNumberText;
    OneName(name);
    NumberIsRead(Trim(text));
  }

  /**
   When the argument behind a managed option goes with it: the option holds no equals
   sign and is no switch, and the argument has no dash in front or is a number.
   */
  lemma TakenExactly(args: seq<string>, i: nat)
    requires i + 1 < |args| && ManagedAt(args, i)
    ensures TakenAsValue(args, i + 1) <==>
            '=' !in args[i] && !Switch(OptionName(args[i])) && IsValue(Trim(args[i + 1]))
  {
    NumberIsRead(Trim(args[i + 1]));
    hide Trim, IsFloat, IsNumberText, OptionName, Managed;
  }

  lemma SwitchIsRead(args: seq<string>, n: nat)
    requires n < |args| && Switch(args[n])
    ensures OptionName(args[n]) == args[n] && !ConsumesNext(args, n)
  {
    SwitchesAreManaged(args[n]);
    hide Trim, OptionValue, Managed;
    ManagedIsBare(args[n]);
    OneName(args[n]);
  }

  // Every field the file lacked is, after the arguments before a position, as some items end it.
  ghost predicate FieldsEnd(args: seq<string>, n: nat, items: seq<Item>) {
    forall f, before :: EndsAs(items, f, before, Migrated(before, args, true, f, n))
  }

  // The state of a migration before a position.
  ghost predicate MigratedTo(args: seq<string>, n: nat, items: seq<Item>) {
    n <= |args| && Kept(args, n) == Others(items) && !TakenAsValue(args, n) && FieldsEnd(args, n, items)
  }

  // One option leaves the list, and gives its fields what its text says.
  lemma {:induction false} OptionMigrates(args: seq<string>, n: nat, items: seq<Item>, item: Item)
    requires n < |args| && MigratedTo(args, n, items) && ManagedAt(args, n) && !item.Plain?
    requires forall f, v :: Given(args, n, f) == Some(v) <==> Gives(item, f, v)
    ensures Kept(args, n + 1) == Others(items + [item])
    ensures FieldsEnd(args, n + 1, items + [item])
  {
    var more, next := items + [item], n + 1;
    assert more[..|more| - 1] == items;
    hide TakenAsValue, ManagedAt, Given, Gives;
    forall f, before ensures EndsAs(more, f, before, Migrated(before, args, true, f, next)) {
      assert EndsAs(items, f, before, Migrated(before, args, true, f, n));
      if Given(args, n, f).Some? {
        assert Gives(item, f, Given(args, n, f).value);
      }
    }
  }

  // An argument that gives nothing, managed or not.
  lemma NothingMigrates(args: seq<string>, n: nat)
    requires n < |args| && !ManagedAt(args, n)
    ensures forall f, before :: Migrated(before, args, true, f, n + 1) == Migrated(before, args, true, f, n)
    ensures !TakenAsValue(args, n + 1)
  {
    NothingGiven(args, n);
    hide Given, ManagedAt;
  }

  lemma PlainMigrates(args: seq<string>, n: nat, items: seq<Item>, item: Item)
    requires n < |args| && MigratedTo(args, n, items) && item == Plain(args[n]) && WellWritten(item)
    ensures MigratedTo(args, n + 1, items + [item])
  {
    var more, next := items + [item], n + 1;
    assert more[..|more| - 1] == items;
    NothingMigrates(args, n);
    hide TakenAsValue, Migrated;
    forall f, before ensures EndsAs(more, f, before, Migrated(before, args, true, f, next)) {
      assert EndsAs(items, f, before, Migrated(before, args, true, f, n));
    }
  }

  lemma SwitchMigrates(args: seq<string>, n: nat, items: seq<Item>, item: Item)
    requires n < |args| && MigratedTo(args, n, items) && item == Alone(args[n]) && WellWritten(item)
    ensures MigratedTo(args, n + 1, items + [item])
  {
    hide Managed, Switch, OptionName, ConsumesNext, Given, Kept, FieldsEnd, FieldOf;
    SwitchIsRead(args, n);
    SwitchesAreManaged(args[n]);
    NoFieldGiven(args, n);
    OptionMigrates(args, n, items, item);
  }

  lemma JoinedMigrates(args: seq<string>, n: nat, items: seq<Item>, item: Item)
    requires n < |args| && MigratedTo(args, n, items) && item.Joined? && WellWritten(item)
    requires args[n] == item.name + "=" + item.text
    ensures MigratedTo(args, n + 1, items + [item])
  {
    hide Managed, Bare, OptionName, OptionValue, ConsumesNext, Trim, Given, Spelled, Says, Kept, FieldsEnd;
    ManagedIsBare(item.name);
    JoinedIsRead(args, n, item.name, item.text);
    forall f { GivenIsSaid(args, n, f, item.name, item.text); }
    OptionMigrates(args, n, items, item);
  }

  lemma SpacedMigrates(args: seq<string>, n: nat, items: seq<Item>, item: Item)
    requires n + 1 < |args| && MigratedTo(args, n, items) && item.Spaced? && WellWritten(item)
    requires args[n] == item.name && args[n + 1] == item.text
    ensures MigratedTo(args, n + 2, items + [item])
  {
    hide Managed, Switch, Bare, IsValue, OptionName, OptionValue, ConsumesNext, Trim, Given, Spelled, Says, Kept,
         FieldsEnd;
    ManagedIsBare(item.name);
    SpacedIsRead(args, n, item.name, item.text);
    forall f { GivenIsSaid(args, n, f, item.name, item.text); }
    OptionMigrates(args, n, items, item);
    ConsumedIsNotManaged(args, n);
    NothingMigrates(args, n + 1);
    ValueLeaves(args, n);
    FieldsStay(args, n + 1, items + [item]);
  }

  lemma FieldsStay(args: seq<string>, n: nat, items: seq<Item>)
    requires forall f, before :: Migrated(before, args, true, f, n + 1) == Migrated(before, args, true, f, n)
    ensures FieldsEnd(args, n, items) ==> FieldsEnd(args, n + 1, items)
  {
    var next := n + 1;
    hide EndsAs, Migrated;
    if FieldsEnd(args, n, items) {
      forall f, before ensures EndsAs(items, f, before, Migrated(before, args, true, f, next)) {
        assert EndsAs(items, f, before, Migrated(before, args, true, f, n));
      }
    }
  }

  // An item's arguments stand at a position of a list.
  predicate StandsAt(args: seq<string>, n: nat, item: Item) {
    n + |Print(item)| <= |args|
    && match item
       case Plain(argument) => args[n] == argument
       case Alone(name) => args[n] == name
       case Joined(name, text) => args[n] == name + "=" + text
       case Spaced(name, text) => args[n] == name && args[n + 1] == text
  }

  lemma StandsAfter(args: seq<string>, head: seq<string>, item: Item)
    requires head + Print(item) <= args
    ensures StandsAt(args, |head|, item)
  {
    assert (head + Print(item))[|head|] == Print(item)[0];
    if item.Spaced? {
      assert (head + Print(item))[|head| + 1] == Print(item)[1];
    }
  }

  lemma ItemMigrates(args: seq<string>, n: nat, items: seq<Item>, item: Item)
    requires MigratedTo(args, n, items) && WellWritten(item) && StandsAt(args, n, item)
    ensures MigratedTo(args, n + |Print(item)|, items + [item])
  {
    hide MigratedTo, WellWritten;
    if item.Plain? {
      PlainMigrates(args, n, items, item);
    } else if item.Alone? {
      SwitchMigrates(args, n, items, item);
    } else if item.Joined? {
      JoinedMigrates(args, n, items, item);
    } else {
      SpacedMigrates(args, n, items, item);
    }
  }

  lemma NoFieldGiven(args: seq<string>, n: nat)
    requires n < |args| && FieldOf(OptionName(args[n])) == None
    ensures forall f :: Given(args, n, f) == None
  {
    hide OptionName, OptionValue, FieldOf, ParseSetting;
  }

  lemma {:induction false} ValueLeaves(args: seq<string>, n: nat)
    requires n + 1 < |args| && ManagedAt(args, n) && ConsumesNext(args, n)
    ensures Kept(args, n + 2) == Kept(args, n + 1)
  {
    hide ManagedAt, ConsumesNext;
    assert TakenAsValue(args, n + 1);
  }

  lemma {:induction false} PrintedPrefix(items: seq<Item>, k: nat)
    requires k <= |items|
    ensures PrintAll(items[..k]) <= PrintAll(items)
    ensures k < |items| ==> PrintAll(items[..k]) + Print(items[k]) == PrintAll(items[..k + 1]) <= PrintAll(items)
    decreases |items| - k
  {
    hide Print;
    if k < |items| {
      PrintedPrefix(items, k + 1);
      assert items[..k + 1][..k] == items[..k];
    } else {
      assert items[..k] == items;
    }
  }

  lemma NextMigrates(items: seq<Item>, k: nat)
    requires k < |items| && WellWritten(items[k])
    requires MigratedTo(PrintAll(items), |PrintAll(items[..k])|, items[..k])
    ensures MigratedTo(PrintAll(items), |PrintAll(items[..k + 1])|, items[..k + 1])
  {
    hide *;
    var head := PrintAll(items[..k]);
    PrintedPrefix(items, k);
    StandsAfter(PrintAll(items), head, items[k]);
    ItemMigrates(PrintAll(items), |head|, items[..k], items[k]);
    assert items[..k + 1] == items[..k] + [items[k]];
  }

  lemma {:induction false} PrefixMigrates(items: seq<Item>, k: nat)
    requires k <= |items| && AllWellWritten(items)
    ensures MigratedTo(PrintAll(items), |PrintAll(items[..k])|, items[..k])
  {
    hide WellWritten, MigratedTo, PrintAll;
    if k == 0 {
      assert items[..0] == [];
      NoneMigrated(PrintAll(items));
    } else {
      PrefixMigrates(items, k - 1);
      NextMigrates(items, k - 1);
    }
  }

  lemma NoneMigrated(args: seq<string>)
    ensures MigratedTo(args, |PrintAll([])|, [])
  {
  }

  /**
   Whatever list of options and other arguments was written, migration leaves the other
   arguments in order, and sets each field the file lacked to what its last option says.
   */
  lemma {:induction false} WrittenMigrates(items: seq<Item>)
    requires AllWellWritten(items)
    ensures var args := PrintAll(items);
            Kept(args, |args|) == Others(items) && FieldsEnd(args, |args|, items)
  {
    hide AllWellWritten, PrintAll, Kept, FieldsEnd;
    PrefixMigrates(items, |items|);
    assert items[..|items|] == items;
  }

  /**
   What migration makes of a written list: the arguments that are no options stay in
   order, and each field ends as its last option says if the file lacked it.
   */
  ghost predicate MigratesWritten(args: seq<string>, before: map<Field, Setting>, missing: Field -> bool,
                                  kept: seq<string>, after: map<Field, Setting>)
  {
    forall items :: AllWellWritten(items) && PrintAll(items) == args ==>
      kept == Others(items)
      && forall f: Field ::
           f in before && f in after
           && if missing(f) then EndsAs(items, f, before[f], after[f]) else after[f] == before[f]
  }

  lemma {:induction false} MigrationOfWritten(args: seq<string>, before: map<Field, Setting>, missing: Field -> bool,
                           kept: seq<string>, after: map<Field, Setting>)
    requires kept == Kept(args, |args|) && forall f: Field :: f in before && f in after
    requires forall f: Field :: after[f] == Migrated(before[f], args, missing(f), f, |args|)
    ensures MigratesWritten(args, before, missing, kept, after)
  {
    hide Kept, Others, EndsAs, LastGiven, PrintAll, AllWellWritten;
    forall items | AllWellWritten(items) && PrintAll(items) == args
      ensures kept == Others(items) && FieldsEnd(args, |args|, items)
    {
      WrittenMigrates(items);
    }
  }

  // A value as text.
  function Shown(v: Setting): string {
    match v
    case Kind(name) => name
    case Number(n) => if n < 0 then "-" + Decimal(-n) else Decimal(n)
  }

  lemma KindIsSolid(name: string)
    requires CacheType(name)
    ensures name != "" && name[0] != '-' && !White(name[0]) && !White(name[|name| - 1])
  {
  }

  lemma ShownIsSaid(f: Field, v: Setting)
    requires Fits(f, v)
    ensures Says(f, Shown(v), v) && Trim(Shown(v)) == Shown(v) && IsValue(Shown(v))
  {
    hide Decimal, Trim, IsNumberText, SpellsInteger, CacheType;
    match v
    case Kind(name) =>
      KindIsSolid(name);
      TrimSolid(name);
    case Number(n) =>
      ShownNumber(n);
  }

  lemma ShownNumber(n: int)
    ensures var s := if n < 0 then "-" + Decimal(-n) else Decimal(n);
            SpellsInteger(s, n) && Trim(s) == s && (n >= 0 ==> !("-" <= s)) && IsNumberText(s)
  {
    var s := if n < 0 then "-" + Decimal(-n) else Decimal(n);
    ShownSpells(n);
    hide Decimal, SpellsInteger, Trim, IsNumberText, IsFloat;
    TrimSolid(s);
    IntegerIsNumber(s, n);
    NumberIsRead(s);
  }

  lemma {:induction false} DecimalIsSolid(n: nat)
    ensures var digits := Decimal(n);
            Padding(digits, n) && digits != "" && IsDigit(digits[0]) && IsDigit(digits[|digits| - 1])
  {
    DecimalSpells(n);
    hide Decimal, Padding;
  }

  lemma ShownSpells(n: int)
    ensures var s := if n < 0 then "-" + Decimal(-n) else Decimal(n);
            SpellsInteger(s, n) && s != "" && !White(s[0]) && !White(s[|s| - 1]) && (n >= 0 ==> s[0] != '-')
  {
    hide Decimal, Padding;
    if n < 0 {
      var digits := Decimal(-n);
      DecimalIsSolid(-n);
      assert ("-" + digits)[1..] == digits;
    } else {
      DecimalIsSolid(n);
    }
  }

  /**
   One option, in two arguments or joined by an equals sign, sets its field to its
   value, whatever its spelling; it leaves no argument and no other field changes.
   */
  lemma {:induction false} OneOptionMigrates(f: Field, name: string, v: Setting, args: seq<string>, g: Field,
                                             before: Setting)
    requires Spelled(f, name) && Fits(f, v) && args in {[name, Shown(v)], [name + "=" + Shown(v)]}
    ensures Kept(args, |args|) == []
    ensures Migrated(before, args, true, g, |args|) == if g == f then v else before
  {
    var item := if |args| == 2 then Spaced(name, Shown(v)) else Joined(name, Shown(v));
    OneItem(item);
    FieldIsSpelled(name, f);
    FieldIsSpelled(name, g);
    hide Spelled, Fits, Says, Kept, Migrated, Print, PrintAll, Others, EndsAs, Trim, IsValue, Managed, Switch, Shown;
    ShownIsSaid(f, v);
    OptionIsNoSwitch(name, f);
    WrittenMigrates([item]);
    PrintedOne(item, name, Shown(v));
    assert FieldsEnd(args, |args|, [item]);
    var after := Migrated(before, args, true, g, |args|);
    assert EndsAs([item], g, before, after);
    if g == f {
      assert Gives(item, f, v);
      SettingIsRead(f, Shown(v), v);
      SettingIsRead(f, Shown(v), after);
    }
  }

  lemma PrintedOne(item: Item, name: string, text: string)
    ensures item == Spaced(name, text) ==> Print(item) == [name, text]
    ensures item == Joined(name, text) ==> Print(item) == [name + "=" + text]
  {
  }

  lemma OneItem(item: Item)
    ensures PrintAll([item]) == Print(item) && (!item.Plain? ==> Others([item]) == [])
    ensures AllWellWritten([item]) <==> WellWritten(item)
    ensures forall f, before, v ::
              EndsAs([item], f, before, v) <==> if exists u :: Gives(item, f, u) then Gives(item, f, v) else v == before
  {
    hide Gives, WellWritten;
    assert [item][..0] == [];
    assert [item][0] == item;
    forall f, before, v ensures EndsAs([], f, before, v) <==> v == before {
    }
  }

  lemma OptionIsNoSwitch(name: string, f: Field)
    requires FieldOf(name) == Some(f)
    ensures Managed(name) && !Switch(name)
  {
    FieldsAreManaged(name);
    if Switch(name) {
      SwitchesAreManaged(name);
    }
  }

  // ---------------------------------------------------------------- the loop

  class ServerConfig {
    var serverArgs: seq<string>
    var typed: map<Field, Setting>

    constructor (args: seq<string>, fields: map<Field, Setting>)
      ensures serverArgs == args && typed == fields
    {
      serverArgs := args;
      typed := fields;
    }

    // Every typed field has a value.
    ghost predicate Valid()
      reads this
    {
      forall f: Field :: f in typed
    }

    /** `missing` says which fields the saved file lacked. */
    method MigrateServerArgs(missing: Field -> bool)
      requires Valid()
      modifies this
      ensures Valid() && serverArgs == Kept(old(serverArgs), old(|serverArgs|))
      ensures forall f: Field ::
                typed[f] == Migrated(old(typed)[f], old(serverArgs), missing(f), f, old(|serverArgs|))
      ensures MigratesWritten(old(serverArgs), old(typed), missing, serverArgs, typed)
    {
      hide Managed, OptionName, OptionValue, ConsumesNext, FieldOf, ParseSetting, Trim, Migrated, Given,
           MigratesWritten;
      var args := serverArgs;
      NothingMigrated(args, missing);
      var cleaned: seq<string> := [];
      var index := 0;
      while index < |args|
        invariant index <= |args| && cleaned == Kept(args, index) && !TakenAsValue(args, index)
        invariant Valid() && forall f: Field :: typed[f] == Migrated(old(typed)[f], args, missing(f), f, index)
      {
        var name := OptionName(args[index]);
        MigratedStep(args, missing, index);
        if Managed(name) {
          Infer(args, index, name, missing);
          if ConsumesNext(args, index) {
            ConsumedIsThere(args, index);
            ConsumedIsNotManaged(args, index);
            NothingGiven(args, index + 1);
            MigratedStep(args, missing, index + 1);
            index := index + 1;
          }
        } else {
          NothingGiven(args, index);
          cleaned := cleaned + [args[index]];
        }
        index := index + 1;
      }
      MigrationOfWritten(args, old(typed), missing, cleaned, typed);
      serverArgs := cleaned;
    }

    // The typed field of one managed option takes its value, if it was missing and the value parses.
    method Infer(args: seq<string>, index: nat, name: string, missing: Field -> bool)
      requires Valid() && index < |args| && name == OptionName(args[index])
      modifies this`typed
      ensures Valid()
      ensures forall f: Field ::
                typed[f] == Stepped(args, missing(f), f, index, old(typed)[f])
    {
      hide OptionName, OptionValue, FieldOf, ParseSetting;
      var value := OptionValue(args, index);
      match FieldOf(name)
      case Some(f) =>
        if missing(f) && value.Some? {
          var parsed := ParseSetting(f, value.value);
          if parsed.Some? {
            typed := typed[f := parsed.value];
          }
        }
      case None =>
    }
  }

  // --------------------------------------------------------------- what holds

  /** No argument that stays is one the configuration check refuses. */
  lemma {:induction false} NoneKeptIsManaged(args: seq<string>, n: nat, i: nat)
    requires n <= |args| && i < |Kept(args, n)|
    ensures !Managed(CheckedName(Kept(args, n)[i]))
    decreases n
  {
    hide Managed, OptionName, CheckedName, ConsumesNext;
    if i < |Kept(args, n - 1)| {
      NoneKeptIsManaged(args, n - 1, i);
    } else {
      NamesAgree(args[n - 1]);
    }
  }

  lemma {:induction false} KeepsUnmanaged(args: seq<string>, n: nat)
    requires n <= |args| && forall i :: 0 <= i < |args| ==> !ManagedAt(args, i)
    ensures Kept(args, n) == args[..n]
    ensures forall f: Field :: LastGiven(args, f, n) == None
    decreases n
  {
    hide Managed, OptionName, ConsumesNext, FieldOf, Given;
    if n > 0 {
      KeepsUnmanaged(args, n - 1);
      NothingGiven(args, n - 1);
      assert args[..n] == args[..n - 1] + [args[n - 1]];
    }
  }

  /** Migrating again changes nothing: no argument leaves, and no field is set. */
  lemma {:induction false} MigrationIsIdempotent(args: seq<string>, before: Setting, missing: bool, f: Field)
    ensures var kept := Kept(args, |args|);
            Kept(kept, |kept|) == kept && Migrated(before, kept, missing, f, |kept|) == before
  {
    hide Managed, OptionName, CheckedName, Kept;
    var kept := Kept(args, |args|);
    forall i | 0 <= i < |kept| ensures !ManagedAt(kept, i) {
      NoneKeptIsManaged(args, |args|, i);
      NamesAgree(kept[i]);
    }
    KeepsUnmanaged(kept, |kept|);
    assert kept[..|kept|] == kept;
  }

  // How many of the first arguments stay.
  function CountKept(args: seq<string>, n: nat): nat
    requires n <= |args|
  {
    if n == 0 then 0
    else CountKept(args, n - 1) + (if ManagedAt(args, n - 1) || TakenAsValue(args, n - 1) then 0 else 1)
  }

  lemma KeptStep(args: seq<string>, n: nat)
    requires n < |args|
    ensures Kept(args, n) <= Kept(args, n + 1)
    ensures !ManagedAt(args, n) && !TakenAsValue(args, n) ==> Kept(args, n + 1) == Kept(args, n) + [args[n]]
  {
    hide ManagedAt, TakenAsValue;
  }

  /** An argument that is neither managed nor a managed option's value stays, at its place in the order. */
  lemma {:induction false} OthersStayInOrder(args: seq<string>, n: nat, i: nat)
    requires i < n <= |args| && !ManagedAt(args, i) && !TakenAsValue(args, i)
    ensures CountKept(args, i) < |Kept(args, n)| == CountKept(args, n)
    ensures Kept(args, n)[CountKept(args, i)] == args[i]
    decreases n
  {
    hide ManagedAt, TakenAsValue, Kept, CountKept;
    CountsKept(args, n);
    CountsKept(args, n - 1);
    KeptStep(args, n - 1);
    if i < n - 1 {
      OthersStayInOrder(args, n - 1, i);
    }
  }

  lemma {:induction false} CountsKept(args: seq<string>, n: nat)
    requires n <= |args|
    ensures |Kept(args, n)| == CountKept(args, n)
  {
    hide Managed, OptionName, ConsumesNext;
    if n > 0 {
      CountsKept(args, n - 1);
    }
  }
}
