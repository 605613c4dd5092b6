/**
 Carrying a saved GPU selection over to another backend: a device name inside one
 backend's list is matched to the device with the same identity, at the same
 position among identical cards, in the other's.
 */
module GpuRemap {
  import opened Outcomes
  import opened Strings
  import opened Decimals

  datatype RuntimeDevice = RuntimeDevice(name: string, index: nat, identity: string)

  datatype SplitMode = Inherit | Single | Layer | Row | Tensor

  datatype Ratio = Finite(r: real) | NonFinite

  datatype GpuPlacement = GpuPlacement(
    gpuIds: seq<string>,
    mainGpu: Option<string>,
    splitMode: SplitMode,
    tensorSplit: seq<Ratio>,
    draftGpuId: Option<string>
  )

  const MAX_GPU_IDS: nat := 32
  const MAX_USIZE: nat := 0xFFFF_FFFF_FFFF_FFFF

  predicate IsEmpty(p: GpuPlacement) {
    p == GpuPlacement([], None, Inherit, [], None)
  }

  // ------------------------------------------------------------- validation

  predicate ValidGpuId(id: string) {
    id != "" && ByteLen(id) <= 256 && '\0' !in id
  }

  predicate ValidOption(id: Option<string>) {
    id.Some? ==> ValidGpuId(id.value)
  }

  predicate ValidIds(ids: seq<string>) {
    forall i :: 0 <= i < |ids| ==> ValidGpuId(ids[i])
  }

  predicate ValidPlacement(p: GpuPlacement) {
    ValidIds(p.gpuIds) && ValidOption(p.mainGpu) && ValidOption(p.draftGpuId)
    && |p.gpuIds| <= MAX_GPU_IDS && |p.tensorSplit| <= MAX_GPU_IDS
    && (forall i :: 0 <= i < |p.tensorSplit| ==> p.tensorSplit[i].Finite? && p.tensorSplit[i].r >= 0.0)
    && (p.mainGpu.Some? && p.gpuIds != [] ==> p.mainGpu.value in p.gpuIds)
  }

  // ---------------------------------------------------------- device lists

  function DevicePrefix(backend: string): Option<string> {
    if backend == "cuda" then Some("CUDA")
    else if backend == "rocm" then Some("ROCm")
    else if backend == "vulkan" then Some("Vulkan")
    else if backend == "sycl" then Some("SYCL")
    else if backend == "metal" then Some("MTL")
    else None
  }

  // The part of a device name after its prefix; Metal devices have two spellings.
  function Suffix(name: string, prefix: string): Option<string> {
    match StripPrefix(name, prefix)
    case Some(suffix) => Some(suffix)
    case None => if prefix == "MTL" then StripPrefix(name, "Metal") else None
  }

  // One line of the runtime's report; `identify` condenses a description.
  function ParseDevice(line: string, prefix: string, identify: string -> string): Option<RuntimeDevice> {
    match SplitOnce(Trim(line), ":")
    case None => None
    case Some((name, description)) =>
      match Suffix(Trim(name), prefix)
      case None => None
      case Some(suffix) =>
        match ParseUnsigned(suffix)
        case None => None
        case Some(index) =>
          if index > MAX_USIZE then None
          else Some(RuntimeDevice(Trim(name), index, identify(description)))
  }

  function ParseDevices(lines: seq<string>, prefix: string, identify: string -> string): seq<RuntimeDevice> {
    if lines == [] then []
    else
      match ParseDevice(lines[0], prefix, identify)
      case None => ParseDevices(lines[1..], prefix, identify)
      case Some(device) => [device] + ParseDevices(lines[1..], prefix, identify)
  }

  // The backends with device names, and how their names start.
  lemma PrefixIsListed(backend: string, prefix: string)
    ensures DevicePrefix(backend) == Some(prefix) <==>
            (backend == "cuda" && prefix == "CUDA") || (backend == "rocm" && prefix == "ROCm")
            || (backend == "vulkan" && prefix == "Vulkan") || (backend == "sycl" && prefix == "SYCL")
            || (backend == "metal" && prefix == "MTL")
  {
  }

  // A device name: the prefix, or for Metal its long form, and a spelling of the number.
  ghost predicate IsDeviceName(name: string, prefix: string, index: nat) {
    index <= 18446744073709551615
    && exists digits :: Spells(digits, index)
                        && (name == prefix + digits || (prefix == "MTL" && name == "Metal" + digits))
  }

  /** A report line: a name before the first colon, a description behind it, white space around both. */
  ghost predicate IsDeviceLine(line: string, prefix: string, identify: string -> string, d: RuntimeDevice) {
    exists name, description ::
      ':' !in name && Trim(line) == name + ":" + description && d.name == Trim(name)
      && IsDeviceName(d.name, prefix, d.index) && d.identity == identify(description)
  }

  lemma {:induction false} SuffixSpells(name: string, prefix: string, index: nat)
    ensures index <= MAX_USIZE && Suffix(name, prefix).Some? && ParseUnsigned(Suffix(name, prefix).value) == Some(index)
       <==> IsDeviceName(name, prefix, index)
  {
    hide ParseUnsigned, Spells;
    if Suffix(name, prefix).Some? {
      var digits := Suffix(name, prefix).value;
      ParsesSpellings(digits, index);
      assert name == prefix + digits || name == "Metal" + digits;
    }
    if IsDeviceName(name, prefix, index) {
      var digits :| Spells(digits, index)
        && (name == prefix + digits || (prefix == "MTL" && name == "Metal" + digits));
      ParsesSpellings(digits, index);
      SuffixIs(name, prefix, digits);
    }
  }

  lemma SuffixIs(name: string, prefix: string, digits: string)
    requires name == prefix + digits || (prefix == "MTL" && name == "Metal" + digits)
    ensures Suffix(name, prefix) == Some(digits)
  {
    if name == prefix + digits {
      assert name[|prefix|..] == digits;
    } else {
      assert name[1] == 'e' && prefix[1] == 'T';
      assert name[5..] == digits;
    }
  }

  lemma {:induction false} ColonSplit(line: string, name: string, description: string)
    ensures SplitOnce(line, ":") == Some((name, description)) <==> ':' !in name && line == name + ":" + description
  {
    if ':' !in name && line == name + ":" + description {
      SplitOnceAt(name, ":", description);
    }
    NameHasNoColon(line);
  }

  lemma {:induction false} NameHasNoColon(line: string)
    ensures SplitOnce(line, ":").Some? ==> ':' !in SplitOnce(line, ":").value.0
  {
    if line != "" && line[0] != ':' {
      NameHasNoColon(line[1..]);
    }
  }

  /** The report parser takes exactly the device lines, and reads off each what it says. */
  lemma {:induction false} DeviceIsRead(line: string, prefix: string, identify: string -> string, d: RuntimeDevice)
    ensures ParseDevice(line, prefix, identify) == Some(d) <==> IsDeviceLine(line, prefix, identify, d)
  {
    hide Trim, Suffix, ParseUnsigned, SplitOnce, IsDeviceName;
    if SplitOnce(Trim(line), ":").Some? {
      var (name, description) := SplitOnce(Trim(line), ":").value;
      ColonSplit(Trim(line), name, description);
      SuffixSpells(Trim(name), prefix, d.index);
    }
    forall name, description | ':' !in name && Trim(line) == name + ":" + description
      ensures SplitOnce(Trim(line), ":") == Some((name, description))
    {
      ColonSplit(Trim(line), name, description);
    }
  }

  // Device names a runtime reports are not empty and hold no NUL.
  predicate Clean(devices: seq<RuntimeDevice>) {
    forall i :: 0 <= i < |devices| ==> devices[i].name != "" && '\0' !in devices[i].name
  }

  lemma NumbersHoldNoNul(suffix: string)
    requires ParseUnsigned(suffix).Some?
    ensures suffix != "" && '\0' !in suffix
  {
    var digits := if suffix[0] == '+' then suffix[1..] else suffix;
    forall i | 0 <= i < |suffix| ensures suffix[i] != '\0' {
      if suffix[0] == '+' && i > 0 {
        assert suffix[i] == digits[i - 1] && IsDigit(digits[i - 1]);
      }
    }
  }

  lemma SuffixIsRest(name: string, prefix: string)
    requires Suffix(name, prefix).Some? && '\0' !in prefix
    ensures Suffix(name, prefix).value != "" ==> name != ""
    ensures '\0' !in Suffix(name, prefix).value ==> '\0' !in name
  {
    var suffix := Suffix(name, prefix).value;
    assert name == prefix + suffix || name == "Metal" + suffix;
  }

  lemma {:induction false} ParsedAreClean(lines: seq<string>, backend: string, identify: string -> string)
    requires DevicePrefix(backend).Some?
    ensures Clean(ParseDevices(lines, DevicePrefix(backend).value, identify))
  {
    var prefix := DevicePrefix(backend).value;
    if lines != [] {
      ParsedAreClean(lines[1..], backend, identify);
      ParsedIsClean(lines[0], backend, identify);
    }
  }

  lemma ParsedIsClean(line: string, backend: string, identify: string -> string)
    requires DevicePrefix(backend).Some?
    ensures var d := ParseDevice(line, DevicePrefix(backend).value, identify);
            d.Some? ==> d.value.name != "" && '\0' !in d.value.name
  {
    var prefix := DevicePrefix(backend).value;
    assert '\0' !in prefix;
    hide Suffix, ParseUnsigned, DevicePrefix, SplitOnce, Trim;
    if ParseDevice(line, prefix, identify).Some? {
      var name := Trim(SplitOnce(Trim(line), ":").value.0);
      NumbersHoldNoNul(Suffix(name, prefix).value);
      SuffixIsRest(name, prefix);
    }
  }

  // -------------------------------------------------------------- identities

  predicate UniqueNames(devices: seq<RuntimeDevice>) {
    forall i, j :: 0 <= i < j < |devices| ==> devices[i].name != devices[j].name
  }

  function Find(devices: seq<RuntimeDevice>, name: string): Option<RuntimeDevice> {
    if devices == [] then None
    else if devices[0].name == name then Some(devices[0])
    else Find(devices[1..], name)
  }

  function Position(devices: seq<RuntimeDevice>, name: string): (p: Option<nat>)
    ensures p.Some? ==> p.value < |devices| && devices[p.value].name == name
  {
    if devices == [] then None
    else if devices[0].name == name then Some(0)
    else
      match Position(devices[1..], name)
      case None => None
      case Some(p) => Some(p + 1)
  }

  function OfIdentity(devices: seq<RuntimeDevice>, identity: string): seq<RuntimeDevice> {
    if devices == [] then []
    else if devices[0].identity == identity then [devices[0]] + OfIdentity(devices[1..], identity)
    else OfIdentity(devices[1..], identity)
  }

  /** Which card a name stands for: its identity, and its position among identical cards. */
  function DeviceIdentity(devices: seq<RuntimeDevice>, name: string): Option<(string, nat)> {
    match Find(devices, name)
    case None => None
    case Some(device) =>
      match Position(OfIdentity(devices, device.identity), name)
      case None => None
      case Some(position) => Some((device.identity, position))
  }

  function DeviceNamed(devices: seq<RuntimeDevice>, identity: string, position: nat): Option<string> {
    var same := OfIdentity(devices, identity);
    if position < |same| then Some(same[position].name) else None
  }

  lemma {:induction false} OfIdentityNames(devices: seq<RuntimeDevice>, identity: string)
    requires UniqueNames(devices)
    ensures UniqueNames(OfIdentity(devices, identity))
    ensures forall i :: 0 <= i < |OfIdentity(devices, identity)| ==>
              OfIdentity(devices, identity)[i] in devices && OfIdentity(devices, identity)[i].identity == identity
  {
    if devices != [] {
      OfIdentityNames(devices[1..], identity);
      var rest := OfIdentity(devices[1..], identity);
      forall i | 0 <= i < |rest| ensures rest[i] in devices && rest[i].name != devices[0].name {
        var k :| 0 <= k < |devices[1..]| && devices[1..][k] == rest[i];
        assert devices[k + 1] == rest[i];
      }
    }
  }

  lemma {:induction false} FindUnique(devices: seq<RuntimeDevice>, device: RuntimeDevice)
    requires UniqueNames(devices) && device in devices
    ensures Find(devices, device.name) == Some(device)
  {
    if devices[0] != device {
      assert device in devices[1..];
      FindUnique(devices[1..], device);
    }
  }

  lemma {:induction false} PositionUnique(devices: seq<RuntimeDevice>, p: nat)
    requires UniqueNames(devices) && p < |devices|
    ensures Position(devices, devices[p].name) == Some(p)
  {
    if p > 0 {
      PositionUnique(devices[1..], p - 1);
    }
  }

  /** A name comes back from the card it stands for. */
  lemma IdentityGivesName(devices: seq<RuntimeDevice>, name: string)
    requires DeviceIdentity(devices, name).Some?
    ensures var (identity, position) := DeviceIdentity(devices, name).value;
            DeviceNamed(devices, identity, position) == Some(name)
  {
  }

  /** A card comes back from its name, when names are unique. */
  lemma NameGivesIdentity(devices: seq<RuntimeDevice>, identity: string, position: nat)
    requires UniqueNames(devices) && DeviceNamed(devices, identity, position).Some?
    ensures DeviceIdentity(devices, DeviceNamed(devices, identity, position).value) == Some((identity, position))
  {
    var same := OfIdentity(devices, identity);
    OfIdentityNames(devices, identity);
    FindUnique(devices, same[position]);
    PositionUnique(same, position);
  }

  // ------------------------------------------------------------ conversion

  // A switch of backends, with the devices each reports; a backend without device names has no list.
  datatype Switch = Switch(from: string, before: Option<seq<RuntimeDevice>>,
                           to: string, after: Option<seq<RuntimeDevice>>)

  function Back(s: Switch): Switch {
    Switch(s.to, s.after, s.from, s.before)
  }

  function Scope(backend: string): string {
    "runtime:" + backend + ":"
  }

  // The target device that stands for the same card as a source device.
  function Counterpart(s: Switch, name: string): Option<string> {
    if s.before.None? || s.after.None? then None
    else
      match DeviceIdentity(s.before.value, name)
      case None => None
      case Some((identity, position)) => DeviceNamed(s.after.value, identity, position)
  }

  function Convert(s: Switch, id: string): Option<string> {
    match StripPrefix(id, Scope(s.from))
    case None => Some(id)
    case Some(name) =>
      match Counterpart(s, name)
      case None => None
      case Some(mapped) => Some(Scope(s.to) + mapped)
  }

  function Shift(s: Switch, id: Option<string>): Option<string> {
    if id.Some? then Convert(s, id.value) else None
  }

  // The selections that carry over, and those that do not, each in order.
  function Carried(s: Switch, ids: seq<string>): seq<string> {
    if ids == [] then []
    else
      var rest := Carried(s, ids[..|ids| - 1]);
      match Convert(s, ids[|ids| - 1])
      case Some(mapped) => rest + [mapped]
      case None => rest
  }

  function Lost(s: Switch, ids: seq<string>): seq<string> {
    if ids == [] then []
    else
      var rest := Lost(s, ids[..|ids| - 1]);
      if Convert(s, ids[|ids| - 1]).Some? then rest else rest + [ids[|ids| - 1]]
  }

  function LostOption(s: Switch, id: Option<string>): seq<string> {
    if id.Some? && Convert(s, id.value).None? then [id.value] else []
  }

  datatype Remapped = Remapped(placement: GpuPlacement, dropped: seq<string>)

  // What a switch makes of a placement.
  function Remap(p: GpuPlacement, s: Switch): Remapped {
    if s.from == s.to || IsEmpty(p) then Remapped(p, [])
    else
      var ids := Carried(s, p.gpuIds);
      var main := Shift(s, p.mainGpu);
      Remapped(
        GpuPlacement(ids,
                     if main.Some? && ids != [] && main.value !in ids then None else main,
                     p.splitMode,
                     if |ids| != |p.gpuIds| then [] else p.tensorSplit,
                     Shift(s, p.draftGpuId)),
        Lost(s, p.gpuIds) + LostOption(s, p.mainGpu) + LostOption(s, p.draftGpuId))
  }

  // How many of the first selections have a conversion, or have none.
  ghost function Rank(s: Switch, ids: seq<string>, n: nat, kept: bool): nat
    requires n <= |ids|
  {
    |set k | 0 <= k < n && Convert(s, ids[k]).Some? == kept|
  }

  /** A list holds the conversions of the ids that have one, in the order of the ids. */
  ghost predicate ListsConverted(s: Switch, ids: seq<string>, list: seq<string>) {
    |list| == Rank(s, ids, |ids|, true)
    && forall i :: 0 <= i < |ids| && Convert(s, ids[i]).Some? ==>
         Rank(s, ids, i, true) < |list| && list[Rank(s, ids, i, true)] == Convert(s, ids[i]).value
  }

  /** A list holds the ids without a conversion, in their order. */
  ghost predicate ListsUnconverted(s: Switch, ids: seq<string>, list: seq<string>) {
    |list| == Rank(s, ids, |ids|, false)
    && forall i :: 0 <= i < |ids| && Convert(s, ids[i]).None? ==>
         Rank(s, ids, i, false) < |list| && list[Rank(s, ids, i, false)] == ids[i]
  }

  // The id of an optional selection that has no conversion.
  function Unconverted(s: Switch, id: Option<string>): seq<string> {
    match id
    case None => []
    case Some(name) => if Convert(s, name) == None then [name] else []
  }

  // An optional selection, converted.
  function Converted(s: Switch, id: Option<string>): Option<string> {
    match id
    case None => None
    case Some(name) => Convert(s, name)
  }

  /**
   A remapped placement, told from the conversions alone. The ratios count positions
   of the selected devices, so they survive only when every selection does.
   */
  ghost predicate Remaps(p: GpuPlacement, s: Switch, r: Remapped) {
    if s.from == s.to || p == GpuPlacement([], None, Inherit, [], None) then r == Remapped(p, [])
    else
      var q, n := r.placement, Rank(s, p.gpuIds, |p.gpuIds|, false);
      ListsConverted(s, p.gpuIds, q.gpuIds) && q.splitMode == p.splitMode
      && ((exists i :: 0 <= i < |p.gpuIds| && Convert(s, p.gpuIds[i]).None?) ==> q.tensorSplit == [])
      && ((forall i :: 0 <= i < |p.gpuIds| ==> Convert(s, p.gpuIds[i]).Some?) ==> q.tensorSplit == p.tensorSplit)
      && q.draftGpuId == Converted(s, p.draftGpuId)
      && (q.mainGpu.Some? ==> q.mainGpu == Converted(s, p.mainGpu) && (q.gpuIds == [] || q.mainGpu.value in q.gpuIds))
      && (q.mainGpu.None? ==>
            Converted(s, p.mainGpu) == None || (q.gpuIds != [] && Converted(s, p.mainGpu).value !in q.gpuIds))
      && n <= |r.dropped| && ListsUnconverted(s, p.gpuIds, r.dropped[..n])
      && r.dropped[n..] == Unconverted(s, p.mainGpu) + Unconverted(s, p.draftGpuId)
  }

  lemma RankStep(s: Switch, ids: seq<string>, n: nat, kept: bool)
    requires n < |ids|
    ensures Rank(s, ids, 0, kept) == 0
    ensures Rank(s, ids, n + 1, kept) == Rank(s, ids, n, kept) + if Convert(s, ids[n]).Some? == kept then 1 else 0
  {
    hide Convert;
    var before := set k | 0 <= k < n && Convert(s, ids[k]).Some? == kept;
    var after := set k | 0 <= k < n + 1 && Convert(s, ids[k]).Some? == kept;
    assert after == if Convert(s, ids[n]).Some? == kept then before + {n} else before;
  }

  lemma {:induction false} RankOfPrefix(s: Switch, ids: seq<string>, n: nat, kept: bool)
    requires n < |ids|
    ensures Rank(s, ids[..|ids| - 1], n, kept) == Rank(s, ids, n, kept)
  {
    hide Convert;
    var init := ids[..|ids| - 1];
    assert (set k | 0 <= k < n && Convert(s, init[k]).Some? == kept)
        == (set k | 0 <= k < n && Convert(s, ids[k]).Some? == kept);
  }

  lemma {:induction false} CarriedAndLostAreListed(s: Switch, ids: seq<string>)
    ensures ListsConverted(s, ids, Carried(s, ids)) && ListsUnconverted(s, ids, Lost(s, ids))
  {
    hide Convert, Rank;
    if ids == [] {
      NoneIsRanked(s);
    } else {
      var init := ids[..|ids| - 1];
      CarriedAndLostAreListed(s, init);
      forall i, kept | 0 <= i < |ids| ensures Rank(s, init, i, kept) == Rank(s, ids, i, kept) {
        RankOfPrefix(s, ids, i, kept);
      }
      RankStep(s, ids, |init|, true);
      RankStep(s, ids, |init|, false);
    }
  }

  lemma NoneIsRanked(s: Switch)
    ensures Rank(s, [], 0, true) == 0 && Rank(s, [], 0, false) == 0
  {
  }

  /** Positions are kept only if nothing is lost: the ratios go exactly when a selection goes. */
  lemma {:induction false} RemapByConversions(p: GpuPlacement, s: Switch)
    ensures Remaps(p, s, Remap(p, s))
  {
    hide Convert, Rank, Carried, Lost, ListsConverted, ListsUnconverted;
    CarriedAndLostAreListed(s, p.gpuIds);
    NothingLost(s, p.gpuIds);
    var lost := Lost(s, p.gpuIds);
    assert |lost| == Rank(s, p.gpuIds, |p.gpuIds|, false) by { LostCount(s, p.gpuIds, lost); }
    var dropped := lost + (LostOption(s, p.mainGpu) + LostOption(s, p.draftGpuId));
    assert dropped[..|lost|] == lost && dropped[|lost|..] == LostOption(s, p.mainGpu) + LostOption(s, p.draftGpuId);
    assert dropped == lost + LostOption(s, p.mainGpu) + LostOption(s, p.draftGpuId);
  }

  lemma LostCount(s: Switch, ids: seq<string>, list: seq<string>)
    requires ListsUnconverted(s, ids, list)
    ensures |list| == Rank(s, ids, |ids|, false)
  {
  }

  method RemapRuntimeDevices(p: GpuPlacement, s: Switch) returns (r: Remapped)
    ensures r == Remap(p, s) && Remaps(p, s, r)
  {
    hide Remaps;
    RemapByConversions(p, s);
    var next := p;
    var dropped: seq<string> := [];
    if s.from == s.to || IsEmpty(p) { return Remapped(next, dropped); }
    var ids: seq<string> := [];
    for i := 0 to |p.gpuIds|
      invariant ids == Carried(s, p.gpuIds[..i]) && dropped == Lost(s, p.gpuIds[..i])
    {
      assert p.gpuIds[..i + 1][..i] == p.gpuIds[..i];
      var converted := Convert(s, p.gpuIds[i]);
      if converted.Some? {
        ids := ids + [converted.value];
      } else {
        dropped := dropped + [p.gpuIds[i]];
      }
    }
    assert p.gpuIds[..|p.gpuIds|] == p.gpuIds;
    next := next.(mainGpu := Shift(s, p.mainGpu), draftGpuId := Shift(s, p.draftGpuId));
    if p.mainGpu.Some? && next.mainGpu.None? {
      dropped := dropped + [p.mainGpu.value];
    }
    if p.draftGpuId.Some? && next.draftGpuId.None? {
      dropped := dropped + [p.draftGpuId.value];
    }
    if |ids| != |p.gpuIds| {
      next := next.(tensorSplit := []);
    }
    next := next.(gpuIds := ids);
    if next.mainGpu.Some? && next.gpuIds != [] && next.mainGpu.value !in next.gpuIds {
      next := next.(mainGpu := None);
    }
    r := Remapped(next, dropped);
  }

  // ---------------------------------------------------------- what is carried

  predicate InScope(id: string, backend: string) {
    Scope(backend) <= id
  }

  // An id that names a device of the target already, and none of the source.
  predicate Foreign(s: Switch, id: string) {
    InScope(id, s.to) && !InScope(id, s.from)
  }

  lemma ScopedName(backend: string, name: string)
    ensures StripPrefix(Scope(backend) + name, Scope(backend)) == Some(name)
  {
  }

  /** A converted id converts back to what it was, unless it was foreign to begin with. */
  lemma ConvertsBack(s: Switch, id: string)
    requires s.from != s.to && (s.after.Some? ==> UniqueNames(s.after.value))
    requires Convert(s, id).Some?
    ensures Convert(Back(s), Convert(s, id).value) == Some(id) <==> !Foreign(s, id)
  {
    hide DeviceIdentity, DeviceNamed, UniqueNames;
    var converted := Convert(s, id).value;
    match StripPrefix(id, Scope(s.from))
    case None =>
      if InScope(id, s.to) {
        ForeignDoesNotReturn(s, id);
      }
    case Some(name) =>
      var (identity, position) := DeviceIdentity(s.before.value, name).value;
      var mapped := DeviceNamed(s.after.value, identity, position).value;
      NameGivesIdentity(s.after.value, identity, position);
      IdentityGivesName(s.before.value, name);
      ScopedName(s.to, mapped);
      assert id == Scope(s.from) + name;
  }

  lemma ForeignDoesNotReturn(s: Switch, id: string)
    requires Foreign(s, id)
    ensures Convert(Back(s), id) != Some(id)
  {
    hide DeviceIdentity, DeviceNamed;
    var back := Convert(Back(s), id);
    if back.Some? {
      var name := StripPrefix(id, Scope(s.to)).value;
      assert InScope(back.value, s.from);
    }
  }

  /** Distinct selections stay distinct. */
  lemma ConvertIsOneToOne(s: Switch, a: string, b: string)
    requires s.from != s.to && (s.after.Some? ==> UniqueNames(s.after.value))
    requires Convert(s, a).Some? && Convert(s, a) == Convert(s, b) && !Foreign(s, a) && !Foreign(s, b)
    ensures a == b
  {
    ConvertsBack(s, a);
    ConvertsBack(s, b);
  }

  predicate Keeps(s: Switch, ids: seq<string>) {
    forall i :: 0 <= i < |ids| ==> Convert(s, ids[i]).Some?
  }

  lemma {:induction false} NothingLost(s: Switch, ids: seq<string>)
    ensures |Carried(s, ids)| + |Lost(s, ids)| == |ids|
    ensures Lost(s, ids) == [] <==> Keeps(s, ids)
    ensures Keeps(s, ids) ==>
              |Carried(s, ids)| == |ids|
              && forall i :: 0 <= i < |ids| ==> Convert(s, ids[i]) == Some(Carried(s, ids)[i])
  {
    if ids != [] {
      hide Convert;
      NothingLost(s, ids[..|ids| - 1]);
    }
  }

  lemma {:induction false} LostAre(s: Switch, ids: seq<string>, id: string)
    ensures id in Lost(s, ids) <==> id in ids && Convert(s, id).None?
  {
    if ids != [] {
      hide Convert;
      LostAre(s, ids[..|ids| - 1], id);
      assert ids == ids[..|ids| - 1] + [ids[|ids| - 1]];
    }
  }

  lemma {:induction false} CarriedAre(s: Switch, ids: seq<string>, id: string)
    requires id in ids && Convert(s, id).Some?
    ensures Convert(s, id).value in Carried(s, ids)
  {
    hide Convert;
    if ids[|ids| - 1] != id {
      assert ids == ids[..|ids| - 1] + [ids[|ids| - 1]];
      CarriedAre(s, ids[..|ids| - 1], id);
    }
  }

  lemma {:induction false} CarriedFrom(s: Switch, ids: seq<string>, i: nat) returns (id: string)
    requires i < |Carried(s, ids)|
    ensures id in ids && Convert(s, id) == Some(Carried(s, ids)[i])
  {
    hide Convert;
    var last := ids[|ids| - 1];
    assert ids == ids[..|ids| - 1] + [last];
    if i < |Carried(s, ids[..|ids| - 1])| {
      id := CarriedFrom(s, ids[..|ids| - 1], i);
    } else {
      id := last;
    }
  }

  predicate Selected(p: GpuPlacement, id: string) {
    id in p.gpuIds || p.mainGpu == Some(id) || p.draftGpuId == Some(id)
  }

  /**
   Every lost selection is named, and nothing else: an id is dropped exactly when
   it was selected and has no counterpart. A valid placement never loses its main
   device silently.
   */
  lemma EveryLossIsNamed(p: GpuPlacement, s: Switch, id: string)
    requires ValidPlacement(p) && s.from != s.to
    ensures var r := Remap(p, s);
            (id in r.dropped <==> Selected(p, id) && Convert(s, id).None?)
            && r.placement.mainGpu == Shift(s, p.mainGpu) && r.placement.draftGpuId == Shift(s, p.draftGpuId)
  {
    hide Convert, ValidGpuId;
    LostAre(s, p.gpuIds, id);
    if p.mainGpu.Some? && Convert(s, p.mainGpu.value).Some? {
      MainIsCarried(p, s);
    }
  }

  lemma {:induction false} MainIsCarried(p: GpuPlacement, s: Switch)
    requires ValidPlacement(p) && p.mainGpu.Some? && Convert(s, p.mainGpu.value).Some?
    ensures Carried(s, p.gpuIds) != [] ==> Convert(s, p.mainGpu.value).value in Carried(s, p.gpuIds)
  {
    hide Convert, ValidGpuId;
    if p.gpuIds != [] {
      CarriedAre(s, p.gpuIds, p.mainGpu.value);
    }
  }

  // ------------------------------------------------------------- validity

  // If the id names a source device, its counterpart's name leaves room for the target's scope.
  predicate Short(s: Switch, id: string) {
    match StripPrefix(id, Scope(s.from))
    case None => true
    case Some(name) =>
      Counterpart(s, name).Some? ==> ByteLen(Scope(s.to)) + ByteLen(Counterpart(s, name).value) <= 256
  }

  predicate ShortOption(s: Switch, id: Option<string>) {
    id.Some? ==> Short(s, id.value)
  }

  // The target backend has device names, and its list is one a runtime reports.
  predicate Reported(s: Switch) {
    s.after.Some? ==> DevicePrefix(s.to).Some? && Clean(s.after.value)
  }

  lemma ConvertedIsValid(s: Switch, id: string)
    requires Reported(s) && ValidGpuId(id) && Convert(s, id).Some?
    ensures ValidGpuId(Convert(s, id).value) <==> Short(s, id)
  {
    hide DeviceIdentity, ByteLen;
    var name := StripPrefix(id, Scope(s.from));
    if name.Some? {
      ByteLenConcat(Scope(s.to), Counterpart(s, name.value).value);
      var (identity, position) := DeviceIdentity(s.before.value, name.value).value;
      NamedIsClean(s.after.value, identity, position);
      ScopeHoldsNoNul(s.to);
    }
  }

  lemma ScopeHoldsNoNul(backend: string)
    requires DevicePrefix(backend).Some?
    ensures '\0' !in Scope(backend)
  {
  }

  lemma NamedIsClean(devices: seq<RuntimeDevice>, identity: string, position: nat)
    requires Clean(devices) && DeviceNamed(devices, identity, position).Some?
    ensures '\0' !in DeviceNamed(devices, identity, position).value
  {
    var device := SameIsListed(devices, identity, position);
  }

  lemma {:induction false} SameIsListed(devices: seq<RuntimeDevice>, identity: string, i: nat) returns (k: nat)
    requires i < |OfIdentity(devices, identity)|
    ensures k < |devices| && devices[k] == OfIdentity(devices, identity)[i]
  {
    if devices[0].identity == identity && i == 0 {
      k := 0;
    } else {
      k := SameIsListed(devices[1..], identity, if devices[0].identity == identity then i - 1 else i);
      k := k + 1;
    }
  }

  lemma LostIsShort(s: Switch, id: string)
    requires Convert(s, id).None?
    ensures Short(s, id)
  {
  }

  lemma {:induction false} CarriedAreValid(s: Switch, ids: seq<string>)
    requires Reported(s) && ValidIds(ids)
    ensures ValidIds(Carried(s, ids)) <==> forall i :: 0 <= i < |ids| ==> Short(s, ids[i])
  {
    hide Convert, ValidGpuId, Reported;
    if forall i :: 0 <= i < |ids| ==> Short(s, ids[i]) {
      forall i | 0 <= i < |Carried(s, ids)| ensures ValidGpuId(Carried(s, ids)[i]) {
        var id := CarriedFrom(s, ids, i);
        ConvertedIsValid(s, id);
      }
    }
    if ValidIds(Carried(s, ids)) {
      forall i | 0 <= i < |ids| ensures Short(s, ids[i]) {
        if Convert(s, ids[i]).Some? {
          CarriedAre(s, ids, ids[i]);
          ConvertedIsValid(s, ids[i]);
        } else {
          LostIsShort(s, ids[i]);
        }
      }
    }
  }

  /**
   Remapping keeps a placement valid exactly when no selection turns into an id
   over 256 bytes: device names are the runtime's, and nothing bounds them.
   */
  lemma RemapValidExactlyWhenShort(p: GpuPlacement, s: Switch)
    requires ValidPlacement(p) && s.from != s.to && Reported(s)
    ensures ValidPlacement(Remap(p, s).placement)
       <==> (forall i :: 0 <= i < |p.gpuIds| ==> Short(s, p.gpuIds[i]))
            && ShortOption(s, p.mainGpu) && ShortOption(s, p.draftGpuId)
  {
    hide Convert, ValidGpuId, Reported, Carried, Lost;
    if IsEmpty(p) { return; }
    CarriedAreValid(s, p.gpuIds);
    NothingLost(s, p.gpuIds);
    hide Short;
    if p.mainGpu.Some? {
      if Convert(s, p.mainGpu.value).Some? {
        MainIsCarried(p, s);
        ConvertedIsValid(s, p.mainGpu.value);
      } else {
        LostIsShort(s, p.mainGpu.value);
      }
    }
    if p.draftGpuId.Some? {
      if Convert(s, p.draftGpuId.value).Some? {
        ConvertedIsValid(s, p.draftGpuId.value);
      } else {
        LostIsShort(s, p.draftGpuId.value);
      }
    }
  }

  // ------------------------------------------------------------ round trip

  predicate AnyForeign(p: GpuPlacement, s: Switch) {
    (exists i :: 0 <= i < |p.gpuIds| && Foreign(s, p.gpuIds[i]))
    || (p.mainGpu.Some? && Foreign(s, p.mainGpu.value))
    || (p.draftGpuId.Some? && Foreign(s, p.draftGpuId.value))
  }

  lemma {:induction false} NothingDropped(p: GpuPlacement, s: Switch)
    requires ValidPlacement(p) && s.from != s.to && Remap(p, s).dropped == []
    ensures Keeps(s, p.gpuIds) && LostOption(s, p.mainGpu) == [] && LostOption(s, p.draftGpuId) == []
    ensures Remap(p, s).placement
         == GpuPlacement(Carried(s, p.gpuIds), Shift(s, p.mainGpu), p.splitMode, p.tensorSplit, Shift(s, p.draftGpuId))
    ensures |Carried(s, p.gpuIds)| == |p.gpuIds|
  {
    hide Convert, ValidGpuId, Lost;
    NothingLost(s, p.gpuIds);
    if !IsEmpty(p) {
      assert Lost(s, p.gpuIds) == [];
      if p.mainGpu.Some? {
        MainIsCarried(p, s);
      }
    }
  }

  lemma {:induction false} CarriedBack(s: Switch, ids: seq<string>)
    requires s.from != s.to && (s.after.Some? ==> UniqueNames(s.after.value)) && Keeps(s, ids)
    requires forall i :: 0 <= i < |ids| ==> !Foreign(s, ids[i])
    ensures Carried(Back(s), Carried(s, ids)) == ids
  {
    hide Convert, Foreign, UniqueNames;
    if ids != [] {
      var init, last := ids[..|ids| - 1], ids[|ids| - 1];
      CarriedBack(s, init);
      ConvertsBack(s, last);
      var mapped := Convert(s, last).value;
      assert Carried(s, ids) == Carried(s, init) + [mapped];
      assert (Carried(s, init) + [mapped])[..|Carried(s, init)|] == Carried(s, init);
    }
  }

  lemma ShiftBack(s: Switch, id: Option<string>)
    requires s.from != s.to && (s.after.Some? ==> UniqueNames(s.after.value)) && LostOption(s, id) == []
    ensures Shift(Back(s), Shift(s, id)) == id <==> !(id.Some? && Foreign(s, id.value))
  {
    hide Convert, Foreign, UniqueNames;
    if id.Some? {
      ConvertsBack(s, id.value);
    }
  }

  lemma {:induction false} ForeignStays(s: Switch, ids: seq<string>, i: nat)
    requires s.from != s.to && (s.after.Some? ==> UniqueNames(s.after.value)) && Keeps(s, ids)
    requires i < |ids| && Foreign(s, ids[i])
    ensures Carried(Back(s), Carried(s, ids)) != ids
  {
    hide Convert, Foreign, UniqueNames, Carried;
    NothingLost(s, ids);
    var mapped := Carried(s, ids);
    NothingLost(Back(s), mapped);
    ConvertsBack(s, ids[i]);
    assert |Carried(Back(s), mapped)| == |ids| ==> |Lost(Back(s), mapped)| == 0;
  }

  /**
   Switching there and back restores the placement, when nothing was dropped on the
   way: exactly when no selection was a device of the target already.
   */
  lemma RoundTrip(p: GpuPlacement, s: Switch)
    requires ValidPlacement(p) && s.from != s.to && (s.after.Some? ==> UniqueNames(s.after.value))
    requires Remap(p, s).dropped == []
    ensures Remap(Remap(p, s).placement, Back(s)).placement == p <==> !AnyForeign(p, s)
  {
    hide Convert, Foreign, UniqueNames, Carried, ValidGpuId, Lost;
    NothingDropped(p, s);
    ShiftBack(s, p.mainGpu);
    ShiftBack(s, p.draftGpuId);
    if exists i :: 0 <= i < |p.gpuIds| && Foreign(s, p.gpuIds[i]) {
      var i :| 0 <= i < |p.gpuIds| && Foreign(s, p.gpuIds[i]);
      ForeignStays(s, p.gpuIds, i);
    } else {
      CarriedBack(s, p.gpuIds);
    }
  }

  // ------------------------------------------------------- the main device

  function IndexOf(ids: seq<string>, id: string): Option<nat> {
    if ids == [] then None
    else if ids[0] == id then Some(0)
    else
      match IndexOf(ids[1..], id)
      case None => None
      case Some(k) => Some(k + 1)
  }

  // The index handed to the runtime counts within the selected devices, if any are selected.
  function MainDeviceIndex(ids: seq<string>, id: string, runtimeIndex: nat): Option<nat> {
    if ids == [] then Some(runtimeIndex) else IndexOf(ids, id)
  }

  /** The index is that of the first selected device with the id, or the runtime's if none is selected. */
  lemma {:induction false} MainIndexIsFirst(ids: seq<string>, id: string, runtimeIndex: nat, k: nat)
    ensures ids == [] ==> MainDeviceIndex(ids, id, runtimeIndex) == Some(runtimeIndex)
    ensures ids != [] ==>
              (MainDeviceIndex(ids, id, runtimeIndex) == Some(k) <==>
               k < |ids| && ids[k] == id && forall j :: 0 <= j < k ==> ids[j] != id)
    ensures ids != [] ==> (MainDeviceIndex(ids, id, runtimeIndex) == None <==> id !in ids)
  {
    IndexIsFirst(ids, id, k);
  }

  lemma {:induction false} IndexIsFirst(ids: seq<string>, id: string, k: nat)
    ensures IndexOf(ids, id) == Some(k) <==> k < |ids| && ids[k] == id && forall j :: 0 <= j < k ==> ids[j] != id
    ensures IndexOf(ids, id) == None <==> id !in ids
  {
    if ids != [] {
      var rest := ids[1..];
      assert forall j :: 0 <= j < |rest| ==> rest[j] == ids[j + 1];
      IndexIsFirst(rest, id, if k > 0 then k - 1 else 0);
      if k > 0 && k < |ids| {
        assert (forall j :: 0 <= j < k ==> ids[j] != id) <==>
               ids[0] != id && forall j :: 0 <= j < k - 1 ==> rest[j] != id;
      }
    }
  }

  lemma {:induction false} IndexOfMapped(s: Switch, ids: seq<string>, mapped: seq<string>, id: string)
    requires s.from != s.to && (s.after.Some? ==> UniqueNames(s.after.value))
    requires |mapped| == |ids| && forall i :: 0 <= i < |ids| ==> Convert(s, ids[i]) == Some(mapped[i])
    requires Convert(s, id).Some? && !Foreign(s, id) && forall i :: 0 <= i < |ids| ==> !Foreign(s, ids[i])
    ensures IndexOf(mapped, Convert(s, id).value) == IndexOf(ids, id)
  {
    hide Convert, Foreign, UniqueNames;
    if ids != [] {
      if mapped[0] == Convert(s, id).value {
        ConvertIsOneToOne(s, ids[0], id);
      }
      IndexOfMapped(s, ids[1..], mapped[1..], id);
    }
  }

  /** The main device keeps its place among the selected ones. */
  lemma MainIndexSurvives(p: GpuPlacement, s: Switch, runtimeIndex: nat)
    requires ValidPlacement(p) && s.from != s.to && (s.after.Some? ==> UniqueNames(s.after.value))
    requires Remap(p, s).dropped == [] && !AnyForeign(p, s) && p.mainGpu.Some?
    ensures var q := Remap(p, s).placement;
            q.mainGpu.Some?
            && MainDeviceIndex(q.gpuIds, q.mainGpu.value, runtimeIndex)
            == MainDeviceIndex(p.gpuIds, p.mainGpu.value, runtimeIndex)
  {
    hide Convert, Foreign, UniqueNames, Carried, ValidGpuId, Lost;
    NothingDropped(p, s);
    NothingLost(s, p.gpuIds);
    IndexOfMapped(s, p.gpuIds, Carried(s, p.gpuIds), p.mainGpu.value);
  }

  // ------------------------------------------------------- what can go wrong

  function Only(id: string): GpuPlacement {
    GpuPlacement([id], None, Inherit, [], None)
  }

  lemma ZerosParse(n: nat)
    requires n > 0
    ensures ParseUnsigned(Zeros(n)) == Some(0)
  {
    ZerosAreZero(n);
  }

  // A report line for a device whose number is padded with zeros.
  function PaddedLine(prefix: string, n: nat): string {
    prefix + Zeros(n) + ": card"
  }

  /** A padded device name comes out of the report as it is. */
  lemma {:induction false} PaddedLineParses(prefix: string, n: nat, identify: string -> string)
    requires prefix != "" && ':' !in prefix && !White(prefix[0]) && n > 0
    ensures ParseDevices([PaddedLine(prefix, n)], prefix, identify)
         == [RuntimeDevice(prefix + Zeros(n), 0, identify(" card"))]
  {
    var line, name := PaddedLine(prefix, n), prefix + Zeros(n);
    hide Trim, SplitOnce, ParseUnsigned;
    assert line[|line| - 1] == 'd' && line[0] == prefix[0];
    TrimSolid(line);
    assert line == name + ":" + " card";
    SplitOnceAt(name, ":", " card");
    assert name[|name| - 1] == '0' && name[0] == prefix[0];
    TrimSolid(name);
    assert name[|prefix|..] == Zeros(n);
    ZerosParse(n);
    OneDevice(line, prefix, identify);
  }

  lemma {:induction false} OneDevice(line: string, prefix: string, identify: string -> string)
    requires ParseDevice(line, prefix, identify).Some?
    ensures ParseDevices([line], prefix, identify) == [ParseDevice(line, prefix, identify).value]
  {
    hide ParseDevice;
    assert ParseDevices([], prefix, identify) == [];
  }

  // One card, as the reports of two runtimes name it: "ROCm0", and "Vulkan" with `n` zeros.
  function TwoReports(n: nat, identify: string -> string): Switch {
    Switch("rocm", Some(ParseDevices([PaddedLine("ROCm", 1)], "ROCm", identify)),
           "vulkan", Some(ParseDevices([PaddedLine("Vulkan", n)], "Vulkan", identify)))
  }

  lemma OneCard(name: string, other: string, identity: string)
    ensures DeviceIdentity([RuntimeDevice(name, 0, identity)], name) == Some((identity, 0))
    ensures DeviceNamed([RuntimeDevice(other, 0, identity)], identity, 0) == Some(other)
    ensures UniqueNames([RuntimeDevice(other, 0, identity)])
  {
    assert OfIdentity([RuntimeDevice(name, 0, identity)], identity) == [RuntimeDevice(name, 0, identity)];
    assert OfIdentity([RuntimeDevice(other, 0, identity)], identity) == [RuntimeDevice(other, 0, identity)];
  }

  lemma CardConverts(n: nat, identify: string -> string)
    requires n > 0
    ensures var s := TwoReports(n, identify);
            Counterpart(s, "ROCm0") == Some("Vulkan" + Zeros(n)) && UniqueNames(s.after.value)
            && Clean(s.after.value)
  {
    hide ParseDevices, PaddedLine, DeviceIdentity, DeviceNamed, Zeros, UniqueNames;
    PaddedLineParses("ROCm", 1, identify);
    PaddedLineParses("Vulkan", n, identify);
    OneZero();
    OneCard("ROCm0", "Vulkan" + Zeros(n), identify(" card"));
    NoNulInZeros(n);
  }

  lemma OneZero()
    ensures "ROCm" + Zeros(1) == "ROCm0"
  {
  }

  lemma NoNulInZeros(n: nat)
    ensures '\0' !in "Vulkan" + Zeros(n) && "Vulkan" + Zeros(n) != ""
  {
  }

  lemma {:induction false} PlainLength(text: string)
    requires forall i :: 0 <= i < |text| ==> text[i] as int < 0x80
    ensures ByteLen(text) == |text|
  {
    if text != "" {
      PlainLength(text[1..]);
    }
  }

  function Scoped(backend: string, name: string): string {
    Scope(backend) + name
  }

  lemma VulkanScope()
    ensures ByteLen(Scope("vulkan")) == 15
  {
    PlainLength("runtime:");
    PlainLength("vulkan");
    PlainLength(":");
    ByteLenConcat("runtime:", "vulkan");
    ByteLenConcat("runtime:" + "vulkan", ":");
  }

  lemma {:induction false} ByteLenBound(text: string)
    ensures ByteLen(text) <= 4 * |text|
  {
    if text != [] {
      ByteLenBound(text[1..]);
    }
  }

  lemma ScopedIsValid(backend: string, name: string)
    requires DevicePrefix(backend).Some? && |name| <= 32 && '\0' !in name
    ensures ValidGpuId(Scoped(backend, name))
  {
    ScopeHoldsNoNul(backend);
    ByteLenBound(Scoped(backend, name));
    hide ByteLen, DevicePrefix;
    assert |backend| <= 8 by { BackendIsShort(backend); }
    assert '\0' !in Scoped(backend, name);
  }

  lemma BackendIsShort(backend: string)
    requires DevicePrefix(backend).Some?
    ensures |backend| <= 8
  {
  }

  lemma OnlyIsValid(id: string)
    requires ValidGpuId(id)
    ensures ValidPlacement(Only(id)) && !IsEmpty(Only(id))
  {
    hide ValidGpuId;
  }

  /**
   Nothing bounds a reported name: the selection of the card stays valid exactly
   while its name has at most 235 zeros.
   */
  lemma LongNameBreaksValidity(n: nat, identify: string -> string)
    requires n > 0
    ensures var p, s := Only(Scoped("rocm", "ROCm0")), TwoReports(n, identify);
            ValidPlacement(p) && (ValidPlacement(Remap(p, s).placement) <==> n <= 235)
  {
    var s, id := TwoReports(n, identify), Scoped("rocm", "ROCm0");
    Backends();
    ReportsAre(n, identify);
    CardConverts(n, identify);
    hide TwoReports, DevicePrefix, ParseDevices;
    ScopedIsValid("rocm", "ROCm0");
    OnlyIsValid(id);
    VulkanScope();
    PaddedLength(n);
    ScopedName("rocm", "ROCm0");
    ShortIs(s, id, "ROCm0");
    assert Reported(s);
    hide *;
    OnlyShort(Only(id), s, id);
  }

  lemma Backends()
    ensures DevicePrefix("vulkan").Some? && DevicePrefix("rocm").Some? && '\0' !in "ROCm0" && '\0' !in "Vulkan0"
    ensures |"Vulkan0"| == 7
  {
  }

  lemma ReportsAre(n: nat, identify: string -> string)
    ensures TwoReports(n, identify).from == "rocm" && TwoReports(n, identify).to == "vulkan"
    ensures TwoReports(n, identify).before.Some? && TwoReports(n, identify).after.Some?
    ensures "rocm" != "vulkan"
  {
    assert "rocm"[0] != "vulkan"[0];
  }

  lemma PaddedLength(n: nat)
    ensures ByteLen("Vulkan" + Zeros(n)) == 6 + n
  {
    PlainLength("Vulkan");
    PlainLength(Zeros(n));
    hide ByteLen;
    ByteLenConcat("Vulkan", Zeros(n));
  }

  lemma ShortIs(s: Switch, id: string, name: string)
    requires StripPrefix(id, Scope(s.from)) == Some(name) && Counterpart(s, name).Some?
    ensures Short(s, id) <==> ByteLen(Scope(s.to)) + ByteLen(Counterpart(s, name).value) <= 256
  {
  }

  lemma OnlyShort(p: GpuPlacement, s: Switch, id: string)
    requires p == Only(id) && ValidPlacement(p) && s.from != s.to && Reported(s)
    ensures ValidPlacement(Remap(p, s).placement) <==> Short(s, id)
  {
    hide ValidPlacement, Remap, Reported, Short;
    RemapValidExactlyWhenShort(p, s);
    assert p.gpuIds[0] == id;
  }

  /**
   A selection that names a device of the target already does not come back: the
   way back takes it for a converted one.
   */
  lemma TargetSelectionDoesNotReturn(identify: string -> string)
    ensures var p, s := Only(Scoped("vulkan", "Vulkan0")), TwoReports(1, identify);
            ValidPlacement(p) && Remap(p, s).dropped == []
            && Remap(Remap(p, s).placement, Back(s)).placement != p
  {
    var id, s := Scoped("vulkan", "Vulkan0"), TwoReports(1, identify);
    ReportsAre(1, identify);
    CardConverts(1, identify);
    TargetIsForeign(s, "Vulkan0");
    Backends();
    hide *;
    ScopedIsValid("vulkan", "Vulkan0");
    OnlyIsValid(id);
    OnlyForeign(s, id);
  }

  lemma OnlyForeign(s: Switch, id: string)
    requires ValidPlacement(Only(id)) && s.from != s.to && s.after.Some? && UniqueNames(s.after.value)
    requires Foreign(s, id) && Convert(s, id) == Some(id)
    ensures Remap(Only(id), s).dropped == []
    ensures Remap(Remap(Only(id), s).placement, Back(s)).placement != Only(id)
  {
    hide Convert, UniqueNames, ValidGpuId, Foreign, Carried;
    NothingLost(s, [id]);
    assert Keeps(s, [id]);
    assert Only(id).gpuIds[0] == id;
    hide Lost;
    RoundTrip(Only(id), s);
  }

  lemma TargetIsForeign(s: Switch, name: string)
    requires s.from == "rocm" && s.to == "vulkan"
    ensures Foreign(s, Scoped("vulkan", name)) && Convert(s, Scoped("vulkan", name)) == Some(Scoped("vulkan", name))
  {
    hide Counterpart;
    assert Scoped("vulkan", name)[8] == 'v' && Scope("rocm")[8] == 'r';
  }

  // --------------------------------------------------- names without padding

  lemma {:induction false} DigitsAreMany(digits: string)
    requires AllDigits(digits) && digits != "" && digits[0] != '0'
    ensures Digits(digits) >= Pow10(|digits| - 1)
  {
    if |digits| > 1 {
      DigitsAreMany(digits[..|digits| - 1]);
    }
  }

  lemma {:induction false} Pow10Grows(m: nat, n: nat)
    requires m <= n
    ensures Pow10(m) <= Pow10(n)
  {
    if m < n {
      Pow10Grows(m, n - 1);
    }
  }

  lemma TwentyDigits()
    ensures Pow10(20) > MAX_USIZE
  {
    assert Pow10(4) == 10 * (10 * (10 * (10 * Pow10(0))));
    assert Pow10(8) == 10 * (10 * (10 * (10 * Pow10(4))));
    assert Pow10(12) == 10 * (10 * (10 * (10 * Pow10(8))));
    assert Pow10(16) == 10 * (10 * (10 * (10 * Pow10(12))));
    assert Pow10(20) == 10 * (10 * (10 * (10 * Pow10(16))));
  }

  /** Only padding makes a device number long: without it, it has at most twenty digits. */
  lemma {:induction false} UnpaddedNumbersAreShort(digits: string)
    requires AllDigits(digits) && digits != "" && digits[0] != '0' && Digits(digits) <= MAX_USIZE
    ensures |digits| <= 20
  {
    DigitsAreMany(digits);
    TwentyDigits();
    if |digits| > 20 {
      Pow10Grows(20, |digits| - 1);
    }
  }
}
