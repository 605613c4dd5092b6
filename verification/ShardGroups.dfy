/**
 Multi-part GGUF models: recognising a part by its name, listing its whole group,
 reporting missing parts with a memo table, and planning a download.
 */
module ShardGroups {
  import opened Outcomes
  import opened Strings

  // ------------------------------------------------------------- part numbers

  // A number in decimal, padded with zeros to a width.
  function Padded(n: nat, width: nat): (s: string)
    ensures |s| == width && AllDigits(s)
    decreases width
  {
    if width == 0 then "" else Padded(n / 10, width - 1) + ['0' + (n % 10) as char]
  }

  lemma {:induction false} PrintedNumber(n: nat, width: nat)
    requires n < Pow10(width)
    ensures Digits(Padded(n, width)) == n
    decreases width
  {
    if width > 0 {
      PrintedNumber(n / 10, width - 1);
      assert Padded(n, width)[..width - 1] == Padded(n / 10, width - 1);
    }
  }

  lemma {:induction false} ReadNumber(s: string)
    requires AllDigits(s)
    ensures Digits(s) < Pow10(|s|) && Padded(Digits(s), |s|) == s
  {
    if s != "" {
      var init, last := s[..|s| - 1], s[|s| - 1];
      ReadNumber(init);
      assert Digits(s) == 10 * Digits(init) + (last - '0') as nat;
      assert Digits(s) / 10 == Digits(init) && Digits(s) % 10 == (last - '0') as nat;
      assert s == init + [last];
    }
  }

  lemma FiveDigits()
    ensures Pow10(5) == 100000
  {
    assert Pow10(2) == 100;
    assert Pow10(5) == 10 * (10 * (10 * Pow10(2)));
  }

  // ------------------------------------------------------------------- parts

  /** One part of a split model. */
  datatype Part = Part(base: string, index: nat, total: nat, extension: string)
  {
    predicate Valid() {
      base != "" && 1 < total < 100000 && 0 < index <= total && Lower(extension) == "gguf"
    }

    function Name(): string {
      base + "-" + Padded(index, 5) + "-of-" + Padded(total, 5) + "." + extension
    }
  }

  function ParseNumber(s: string): Option<nat> {
    if |s| == 5 && AllDigits(s) then Some(Digits(s)) else None
  }

  function ParsePart(name: string): Option<Part> {
    match RSplitOnce(name, ".")
    case None => None
    case Some((stem, extension)) =>
      if Lower(extension) != "gguf" then None
      else
        match RSplitOnce(stem, "-of-")
        case None => None
        case Some((prefix, total)) =>
          match RSplitOnce(prefix, "-")
          case None => None
          case Some((base, index)) =>
            match (ParseNumber(index), ParseNumber(total))
            case (Some(i), Some(n)) =>
              if base == "" || n <= 1 || i == 0 || i > n then None else Some(Part(base, i, n, extension))
            case _ => None
  }

  lemma {:induction false} LowerKeepsDots(s: string)
    requires Lower(s) == "gguf"
    ensures '.' !in s
  {
    forall i | 0 <= i < |s| ensures s[i] != '.' {
      assert Lower(s)[i] == LowerChar(s[i]);
    }
  }

  lemma DigitsHoldNone(s: string, c: char)
    requires AllDigits(s) && !IsDigit(c)
    ensures c !in s
  {
  }

  // The separator before the total does not occur again after its first character.
  lemma TotalHoldsNoSeparator(total: string)
    requires AllDigits(total)
    ensures RSplitOnce(("-of-" + total)[1..], "-of-") == None
  {
    var sep := "-of-";
    DigitsHoldNone(total, 'o');
    RSplitOnceAbsent(total, sep);
    var a, b, c := "-" + total, "f-" + total, "of-" + total;
    assert (sep + total)[1..] == c && c[1..] == b && b[1..] == a && a[1..] == total;
    assert !(sep <= a) by {
      assert sep[1] == 'o' && forall k :: 0 < k < |a| ==> a[k] == total[k - 1];
    }
    assert RSplitOnce(a, sep) == None;
    assert RSplitOnce(b, sep) == None;
  }

  lemma {:induction false} SplitExtension(stem: string, extension: string)
    requires '.' !in extension
    ensures RSplitOnce(stem + "." + extension, ".") == Some((stem, extension))
  {
    assert ("." + extension)[1..] == extension;
    RSplitOnceAbsent(extension, ".");
    RSplitOnceAt(stem, ".", extension);
  }

  lemma {:induction false} SplitIndex(base: string, index: string)
    requires AllDigits(index)
    ensures RSplitOnce(base + "-" + index, "-") == Some((base, index))
  {
    DigitsHoldNone(index, '-');
    assert ("-" + index)[1..] == index;
    RSplitOnceAbsent(index, "-");
    RSplitOnceAt(base, "-", index);
  }

  /** What is printed for a part parses back to it. */
  lemma PrintedPartParses(p: Part)
    requires p.Valid()
    ensures ParsePart(p.Name()) == Some(p)
  {
    var index, total := Padded(p.index, 5), Padded(p.total, 5);
    var prefix := p.base + "-" + index;
    var stem := prefix + "-of-" + total;
    FiveDigits();
    PrintedNumber(p.index, 5);
    PrintedNumber(p.total, 5);
    hide Padded, Digits, RSplitOnce, Pow10, AllDigits;
    LowerKeepsDots(p.extension);
    SplitExtension(stem, p.extension);
    TotalHoldsNoSeparator(total);
    RSplitOnceAt(prefix, "-of-", total);
    SplitIndex(p.base, index);
    assert p.Name() == stem + "." + p.extension;
  }

  /** A name that parses is the printed name of its part. */
  lemma ParsedPartPrints(name: string)
    requires ParsePart(name).Some?
    ensures ParsePart(name).value.Valid() && ParsePart(name).value.Name() == name
  {
    hide RSplitOnce, Padded, Digits, AllDigits, Pow10;
    var (stem, extension) := RSplitOnce(name, ".").value;
    var (prefix, total) := RSplitOnce(stem, "-of-").value;
    var (base, index) := RSplitOnce(prefix, "-").value;
    FiveDigits();
    ReadNumber(index);
    ReadNumber(total);
  }

  // ------------------------------------------------------------------ groups

  /** The names of all parts of a name's group, in order, if the name is a part. */
  function ShardGroup(name: string): Option<seq<string>> {
    match ParsePart(name)
    case None => None
    case Some(p) => Some(Names(p))
  }

  function Names(p: Part): seq<string> {
    seq(p.total, i requires 0 <= i < p.total => p.(index := i + 1).Name())
  }

  /** Every part lies in its own group, at its own number. */
  lemma PartIsInItsGroup(name: string)
    requires ParsePart(name).Some?
    ensures var p := ParsePart(name).value;
            |Names(p)| == p.total && Names(p)[p.index - 1] == name
  {
    ParsedPartPrints(name);
  }

  lemma MemberParses(p: Part, i: nat)
    requires p.Valid() && i < p.total
    ensures |Names(p)| == p.total && ParsePart(Names(p)[i]) == Some(p.(index := i + 1))
  {
    hide ParsePart;
    PrintedPartParses(p.(index := i + 1));
  }

  lemma NamesIgnoreIndex(p: Part, index: nat)
    ensures Names(p.(index := index)) == Names(p)
  {
    forall i | 0 <= i < p.total ensures Names(p.(index := index))[i] == Names(p)[i] {
      assert p.(index := index).(index := i + 1) == p.(index := i + 1);
    }
  }

  /** All members of a group list the same group, without repetition. */
  lemma MembersAgree(name: string, i: nat)
    requires ShardGroup(name).Some? && i < |ShardGroup(name).value|
    ensures ShardGroup(ShardGroup(name).value[i]) == ShardGroup(name)
    ensures forall j :: 0 <= j < |ShardGroup(name).value| && j != i ==>
              ShardGroup(name).value[j] != ShardGroup(name).value[i]
  {
    var p := ParsePart(name).value;
    ParsedPartPrints(name);
    assert |Names(p)| == p.total;
    hide ParsePart, Names, Part.Name, Part.Valid;
    MemberParses(p, i);
    NamesIgnoreIndex(p, i + 1);
    forall j | 0 <= j < p.total && j != i ensures Names(p)[j] != Names(p)[i] {
      MemberParses(p, j);
    }
  }

  // ------------------------------------------------------------- missing parts

  /**
   What one query sees of the library: which repository paths are safe, the folder
   and file name each is stored under, and the sizes of the files that are there.
   */
  datatype Library = Library(
    safe: string -> bool,
    place: string -> (string, string),
    size: (string, string) -> Option<nat>
  )

  function Absent(lib: Library, folder: string, names: seq<string>): seq<string> {
    if names == [] then []
    else if lib.size(folder, names[0]).None? then [names[0]] + Absent(lib, folder, names[1..])
    else Absent(lib, folder, names[1..])
  }

  // The parts of a file's group that the folder lacks, computed from scratch.
  function Missing(lib: Library, folder: string, name: string): seq<string> {
    match ShardGroup(name)
    case None => []
    case Some(names) => Absent(lib, folder, names)
  }

  ghost predicate IsAbsent(lib: Library, folder: string, name: string) {
    lib.size(folder, name) == None
  }

  // How many of the first names have no file in the folder.
  ghost function Gaps(lib: Library, folder: string, names: seq<string>, n: nat): nat
    requires n <= |names|
  {
    |set k | 0 <= k < n && IsAbsent(lib, folder, names[k])|
  }

  /** A list holds the names without a file, in their order. */
  ghost predicate ListsAbsent(lib: Library, folder: string, names: seq<string>, list: seq<string>) {
    |list| == Gaps(lib, folder, names, |names|)
    && forall i :: 0 <= i < |names| && IsAbsent(lib, folder, names[i]) ==>
         Gaps(lib, folder, names, i) < |list| && list[Gaps(lib, folder, names, i)] == names[i]
  }

  lemma GapsStep(lib: Library, folder: string, names: seq<string>, n: nat)
    requires n < |names|
    ensures Gaps(lib, folder, names, 0) == 0
    ensures Gaps(lib, folder, names, n + 1)
         == Gaps(lib, folder, names, n) + if IsAbsent(lib, folder, names[n]) then 1 else 0
  {
    hide IsAbsent;
    var before := set k | 0 <= k < n && IsAbsent(lib, folder, names[k]);
    var after := set k | 0 <= k < n + 1 && IsAbsent(lib, folder, names[k]);
    assert after == if IsAbsent(lib, folder, names[n]) then before + {n} else before;
  }

  lemma {:induction false} GapsBehind(lib: Library, folder: string, names: seq<string>, n: nat)
    requires n < |names|
    ensures Gaps(lib, folder, names, n + 1)
         == (if IsAbsent(lib, folder, names[0]) then 1 else 0) + Gaps(lib, folder, names[1..], n)
  {
    hide IsAbsent, Gaps;
    GapsStep(lib, folder, names, n);
    if n == 0 {
      NoGaps(lib, folder, names[1..]);
    } else {
      GapsBehind(lib, folder, names, n - 1);
      GapsStep(lib, folder, names[1..], n - 1);
    }
  }

  lemma NoGaps(lib: Library, folder: string, names: seq<string>)
    ensures Gaps(lib, folder, names, 0) == 0
  {
  }

  /** The missing parts are those without a file, in the order of the group. */
  lemma {:induction false} AbsentAreListed(lib: Library, folder: string, names: seq<string>)
    ensures ListsAbsent(lib, folder, names, Absent(lib, folder, names))
  {
    NoGaps(lib, folder, names);
    if names != [] {
      var rest, list := names[1..], Absent(lib, folder, names);
      AbsentAreListed(lib, folder, rest);
      forall n | 0 <= n < |names|
        ensures Gaps(lib, folder, names, n + 1)
             == (if IsAbsent(lib, folder, names[0]) then 1 else 0) + Gaps(lib, folder, rest, n)
      {
        GapsBehind(lib, folder, names, n);
      }
      hide Gaps;
      forall i | 0 <= i < |names| && IsAbsent(lib, folder, names[i])
        ensures Gaps(lib, folder, names, i) < |list| && list[Gaps(lib, folder, names, i)] == names[i]
      {
        if i > 0 {
          assert names[i] == rest[i - 1];
          assert Gaps(lib, folder, names, (i - 1) + 1)
              == (if IsAbsent(lib, folder, names[0]) then 1 else 0) + Gaps(lib, folder, rest, i - 1);
        }
      }
      assert Gaps(lib, folder, names, (|names| - 1) + 1)
          == (if IsAbsent(lib, folder, names[0]) then 1 else 0) + Gaps(lib, folder, rest, |rest|);
    }
  }

  // The memo table: keyed by folder and first member, with the missing parts of that group.
  type Memo = map<(string, string), seq<string>>

  predicate Sound(lib: Library, groups: Memo) {
    forall key :: key in groups ==> groups[key] == Missing(lib, key.0, key.1)
  }

  /** Looks the answer up under the first member, or computes it once. */
  method MissingShards(lib: Library, folder: string, name: string, groups: Memo)
    returns (missing: seq<string>, after: Memo)
    requires Sound(lib, groups)
    ensures missing == Missing(lib, folder, name) && Sound(lib, after)
  {
    hide Sound, ParsePart, Absent, Names;
    after := groups;
    var group := ShardGroup(name);
    if group.None? { return [], after; }
    GroupHasFirst(name);
    var first := group.value[0];
    MembersAgree(name, 0);
    if (folder, first) !in after {
      after := after[(folder, first) := Absent(lib, folder, group.value)];
      MemoGrows(lib, groups, folder, first);
    }
    MemoHolds(lib, after, folder, first);
    missing := after[(folder, first)];
  }

  lemma GroupHasFirst(name: string)
    requires ShardGroup(name).Some?
    ensures |ShardGroup(name).value| > 0
  {
    ParsedPartPrints(name);
  }

  lemma MemoGrows(lib: Library, groups: Memo, folder: string, first: string)
    requires Sound(lib, groups)
    ensures Sound(lib, groups[(folder, first) := Missing(lib, folder, first)])
  {
  }

  lemma MemoHolds(lib: Library, groups: Memo, folder: string, first: string)
    requires Sound(lib, groups) && (folder, first) in groups
    ensures groups[(folder, first)] == Missing(lib, folder, first)
  {
  }

  datatype Row = Row(path: string, size: nat, missing: seq<string>)

  // One row for each listed file that is there, with its missing parts computed from scratch.
  function Rows(lib: Library, files: seq<string>): seq<Row> {
    if files == [] then []
    else
      var file := files[|files| - 1];
      var (folder, name) := lib.place(file);
      var before := Rows(lib, files[..|files| - 1]);
      if !lib.safe(file) || lib.size(folder, name).None? then before
      else before + [Row(file, lib.size(folder, name).value, Missing(lib, folder, name))]
  }

  // A listed file with a safe path that is there.
  ghost predicate IsStored(lib: Library, file: string) {
    lib.safe(file) && lib.size(lib.place(file).0, lib.place(file).1).Some?
  }

  ghost function StoredBefore(lib: Library, files: seq<string>, n: nat): nat
    requires n <= |files|
  {
    |set k | 0 <= k < n && IsStored(lib, files[k])|
  }

  ghost predicate IsRow(lib: Library, file: string, row: Row) {
    var (folder, name) := lib.place(file);
    row.path == file && lib.size(folder, name) == Some(row.size) && row.missing == Missing(lib, folder, name)
  }

  /** A list has one row for each file that is stored, in the order of the files. */
  ghost predicate ListsRows(lib: Library, files: seq<string>, rows: seq<Row>) {
    |rows| == StoredBefore(lib, files, |files|)
    && forall i :: 0 <= i < |files| && IsStored(lib, files[i]) ==>
         StoredBefore(lib, files, i) < |rows| && IsRow(lib, files[i], rows[StoredBefore(lib, files, i)])
  }

  lemma StoredStep(lib: Library, files: seq<string>, n: nat)
    requires n < |files|
    ensures StoredBefore(lib, files, n + 1) == StoredBefore(lib, files, n) + if IsStored(lib, files[n]) then 1 else 0
  {
    hide IsStored;
    var before := set k | 0 <= k < n && IsStored(lib, files[k]);
    var after := set k | 0 <= k < n + 1 && IsStored(lib, files[k]);
    assert after == if IsStored(lib, files[n]) then before + {n} else before;
  }

  lemma {:induction false} StoredOfPrefix(lib: Library, files: seq<string>, n: nat)
    requires n < |files|
    ensures StoredBefore(lib, files[..|files| - 1], n) == StoredBefore(lib, files, n)
  {
    hide IsStored;
    var init := files[..|files| - 1];
    assert (set k | 0 <= k < n && IsStored(lib, init[k])) == (set k | 0 <= k < n && IsStored(lib, files[k]));
  }

  lemma {:induction false} RowsAreListed(lib: Library, files: seq<string>)
    ensures ListsRows(lib, files, Rows(lib, files))
  {
    hide Missing, StoredBefore;
    if files == [] {
      NoneStored(lib);
    } else {
      var init := files[..|files| - 1];
      RowsAreListed(lib, init);
      forall i | 0 <= i < |files| ensures StoredBefore(lib, init, i) == StoredBefore(lib, files, i) {
        StoredOfPrefix(lib, files, i);
      }
      StoredStep(lib, files, |init|);
    }
  }

  lemma NoneStored(lib: Library)
    ensures StoredBefore(lib, [], 0) == 0
  {
  }

  /** The table changes no answer: every row is what direct recomputation gives. */
  method InstalledFiles(lib: Library, files: seq<string>) returns (rows: seq<Row>)
    ensures rows == Rows(lib, files)
  {
    hide Missing;
    rows := [];
    var groups: Memo := map[];
    for i := 0 to |files|
      invariant rows == Rows(lib, files[..i]) && Sound(lib, groups)
    {
      assert files[..i + 1][..i] == files[..i];
      if !lib.safe(files[i]) { continue; }
      var (folder, name) := lib.place(files[i]);
      var size := lib.size(folder, name);
      if size.None? { continue; }
      var missing, after := MissingShards(lib, folder, name, groups);
      groups := after;
      rows := rows + [Row(files[i], size.value, missing)];
    }
    assert files[..|files|] == files;
  }

  // ------------------------------------------------------------ download plan

  datatype HfFile = HfFile(path: string, size: nat, oid: Option<string>)

  function Split(path: string): (string, string) {
    match RSplitOnce(path, "/")
    case Some(parts) => parts
    case None => ("", path)
  }

  function Join(directory: string, name: string): string {
    if directory == "" then name else directory + "/" + name
  }

  // The paths a request for one file stands for.
  function PlanPaths(path: string): seq<string> {
    var (directory, name) := Split(path);
    var names := match ShardGroup(name) case Some(group) => group case None => [name];
    seq(|names|, i requires 0 <= i < |names| => Join(directory, names[i]))
  }

  // The listed file of a path; of several, the last.
  function Lookup(files: seq<HfFile>, path: string): (f: Option<HfFile>)
    ensures f.Some? ==> f.value in files && f.value.path == path
  {
    if files == [] then None
    else if files[|files| - 1].path == path then Some(files[|files| - 1])
    else Lookup(files[..|files| - 1], path)
  }

  // All listed files of some paths, or the first path that is not listed.
  function Resolve(files: seq<HfFile>, paths: seq<string>): (r: Result<seq<HfFile>, string>)
    ensures r.Ok? <==> forall i :: 0 <= i < |paths| ==> Lookup(files, paths[i]).Some?
    ensures r.Ok? ==>
              |r.value| == |paths|
              && forall i :: 0 <= i < |paths| ==> Lookup(files, paths[i]) == Some(r.value[i])
  {
    if paths == [] then Ok([])
    else
      match Lookup(files, paths[0])
      case None => Err(paths[0])
      case Some(file) =>
        match Resolve(files, paths[1..])
        case Ok(rest) => Ok([file] + rest)
        case Err(path) => Err(path)
  }

  // A file is the last one listed under a path.
  ghost predicate IsLast(files: seq<HfFile>, path: string, f: HfFile) {
    exists i :: 0 <= i < |files| && files[i] == f && f.path == path && NoneAfter(files, path, i)
  }

  ghost predicate NoneAfter(files: seq<HfFile>, path: string, i: int) {
    forall j :: i < j < |files| && 0 <= j ==> files[j].path != path
  }

  lemma LastStep(files: seq<HfFile>, path: string, f: HfFile)
    requires files != []
    ensures var init, last := files[..|files| - 1], files[|files| - 1];
            IsLast(files, path, f) <==> if last.path == path then f == last else IsLast(init, path, f)
  {
    var init, last := files[..|files| - 1], files[|files| - 1];
    if last.path == path {
      assert files[|files| - 1] == last && NoneAfter(files, path, |files| - 1);
    } else {
      forall i | 0 <= i < |init| ensures NoneAfter(files, path, i) <==> NoneAfter(init, path, i) {
      }
    }
  }

  /** Of several files listed under a path, the last one counts. */
  lemma {:induction false} LastListed(files: seq<HfFile>, path: string, f: HfFile)
    ensures Lookup(files, path) == Some(f) <==> IsLast(files, path, f)
    ensures Lookup(files, path) == None <==> NoneAfter(files, path, -1)
  {
    if files != [] {
      hide IsLast;
      LastListed(files[..|files| - 1], path, f);
      LastStep(files, path, f);
    } else {
      assert !IsLast(files, path, f);
    }
  }

  /** A plan fails for the first path that is not listed. */
  lemma {:induction false} FirstUnlisted(files: seq<HfFile>, paths: seq<string>, path: string)
    ensures Resolve(files, paths) == Err(path) <==>
            exists i :: 0 <= i < |paths| && paths[i] == path && Lookup(files, path).None?
                        && forall j :: 0 <= j < i ==> Lookup(files, paths[j]).Some?
  {
    hide Lookup;
    if paths != [] {
      var rest := paths[1..];
      FirstUnlisted(files, rest, path);
      assert forall i :: 0 <= i < |rest| ==> rest[i] == paths[i + 1];
      if Lookup(files, paths[0]).Some? {
        if i :| 0 <= i < |rest| && rest[i] == path && Lookup(files, path).None?
                && forall j :: 0 <= j < i ==> Lookup(files, rest[j]).Some? {
          assert paths[i + 1] == path;
          assert forall j :: 0 < j < i + 1 ==> paths[j] == rest[j - 1];
        }
        if i :| 0 <= i < |paths| && paths[i] == path && Lookup(files, path).None?
                && forall j :: 0 <= j < i ==> Lookup(files, paths[j]).Some? {
          assert i > 0 && rest[i - 1] == path;
        }
      }
    }
  }

  function ModelDownloadPlan(files: seq<HfFile>, path: string): Result<seq<HfFile>, string> {
    Resolve(files, PlanPaths(path))
  }

  lemma {:induction false} LastPartHoldsNoSlash(path: string)
    requires RSplitOnce(path, "/").Some?
    ensures '/' !in RSplitOnce(path, "/").value.1
  {
    if RSplitOnce(path[1..], "/").Some? {
      LastPartHoldsNoSlash(path[1..]);
    } else {
      NoSlashFound(path[1..]);
    }
  }

  lemma {:induction false} NoSlashFound(path: string)
    requires RSplitOnce(path, "/").None?
    ensures '/' !in path
  {
    if path != "" {
      NoSlashFound(path[1..]);
      assert "/" <= path <==> path[0] == '/';
    }
  }

  lemma SplitHoldsNoSlash(path: string)
    ensures '/' !in Split(path).1
  {
    if RSplitOnce(path, "/").Some? {
      LastPartHoldsNoSlash(path);
    } else {
      NoSlashFound(path);
    }
  }

  lemma SplitJoin(directory: string, name: string)
    requires '/' !in name
    ensures Split(Join(directory, name)) == (directory, name)
  {
    RSplitOnceAbsent(name, "/");
    if directory != "" {
      assert ("/" + name)[1..] == name;
      RSplitOnceAt(directory, "/", name);
    }
  }

  lemma NameHoldsNoSlash(p: Part)
    ensures '/' !in p.Name() <==> '/' !in p.base && '/' !in p.extension
  {
    var index, total := Padded(p.index, 5), Padded(p.total, 5);
    hide Padded;
    DigitsHoldNone(index, '/');
    DigitsHoldNone(total, '/');
    hide AllDigits;
    assert p.Name() == p.base + ("-" + index + "-of-" + total + ".") + p.extension;
    assert '/' !in "-" + index + "-of-" + total + ".";
    ThreeParts(p.base, "-" + index + "-of-" + total + ".", p.extension);
  }

  lemma ThreeParts(a: string, b: string, c: string)
    ensures '/' in a + b + c <==> '/' in a || '/' in b || '/' in c
  {
  }

  lemma MembersHoldNoSlash(name: string, i: nat)
    requires ShardGroup(name).Some? && i < |ShardGroup(name).value| && '/' !in name
    ensures '/' !in ShardGroup(name).value[i]
  {
    var p := ParsePart(name).value;
    ParsedPartPrints(name);
    NameHoldsNoSlash(p);
    NameHoldsNoSlash(p.(index := i + 1));
    hide ParsePart, Part.Name, Part.Valid;
  }

  lemma JoinIsOneToOne(directory: string, a: string, b: string)
    requires Join(directory, a) == Join(directory, b)
    ensures a == b
  {
    if directory != "" {
      assert Join(directory, a)[|directory| + 1..] == a && Join(directory, b)[|directory| + 1..] == b;
    }
  }

  // A path whose only slash is in front.
  predicate OnlySlashLeads(path: string) {
    path != "" && path[0] == '/' && '/' !in path[1..]
  }

  lemma {:induction false} SplitIsJoined(path: string)
    ensures Join(Split(path).0, Split(path).1) == path <==> !OnlySlashLeads(path)
    ensures OnlySlashLeads(path) ==> Split(path) == ("", path[1..])
  {
    if OnlySlashLeads(path) {
      assert "" + "/" + path[1..] == path && ("/" + path[1..])[1..] == path[1..];
      RSplitOnceAbsent(path[1..], "/");
      RSplitOnceAt("", "/", path[1..]);
    }
    if RSplitOnce(path, "/").Some? {
      LastPartHoldsNoSlash(path);
      var (directory, name) := RSplitOnce(path, "/").value;
      assert directory == "" ==> path[1..] == name;
    }
  }

  /** A file's plan holds the file itself, unless its path has one slash and starts with it. */
  lemma PlanHoldsPath(path: string)
    ensures path in PlanPaths(path) <==> !OnlySlashLeads(path)
  {
    var (directory, name) := Split(path);
    SplitIsJoined(path);
    SplitHoldsNoSlash(path);
    var paths := PlanPaths(path);
    hide Split, ParsePart, Names;
    var k := 0;
    if ParsePart(name).Some? {
      PartIsInItsGroup(name);
      k := ParsePart(name).value.index - 1;
      ParsedPartPrints(name);
    }
    assert k < |paths| && paths[k] == Join(directory, name);
    if OnlySlashLeads(path) {
      forall i | 0 <= i < |paths| ensures paths[i] != path {
        PlainPathsHoldNoSlash(path, i);
      }
    }
  }

  lemma PlainPathsHoldNoSlash(path: string, i: nat)
    requires Split(path).0 == "" && i < |PlanPaths(path)|
    ensures '/' !in PlanPaths(path)[i]
  {
    SplitHoldsNoSlash(path);
    var name := Split(path).1;
    var names := match ShardGroup(name) case Some(group) => group case None => [name];
    hide Split, ParsePart, Names;
    assert |PlanPaths(path)| == |names| && PlanPaths(path)[i] == Join(Split(path).0, names[i]);
    assert PlanPaths(path)[i] == names[i];
    if ShardGroup(name).Some? {
      MembersHoldNoSlash(name, i);
    }
  }

  /**
   A request for any part plans the same complete model in the same order, and no
   path twice.
   */
  lemma PlanIsTheSameFromAnyPart(files: seq<HfFile>, path: string, i: nat)
    requires i < |PlanPaths(path)|
    ensures ModelDownloadPlan(files, PlanPaths(path)[i]) == ModelDownloadPlan(files, path)
    ensures forall j :: 0 <= j < |PlanPaths(path)| && j != i ==> PlanPaths(path)[j] != PlanPaths(path)[i]
  {
    var (directory, name) := Split(path);
    SplitHoldsNoSlash(path);
    hide Split, ShardGroup, Join, Resolve;
    match ShardGroup(name)
    case None =>
      SplitJoin(directory, name);
      assert PlanPaths(PlanPaths(path)[i]) == PlanPaths(path);
    case Some(group) =>
      MembersHoldNoSlash(name, i);
      SplitJoin(directory, group[i]);
      MembersAgree(name, i);
      forall j | 0 <= j < |group| && j != i ensures PlanPaths(path)[j] != PlanPaths(path)[i] {
        if PlanPaths(path)[j] == PlanPaths(path)[i] {
          JoinIsOneToOne(directory, group[j], group[i]);
        }
      }
      assert PlanPaths(PlanPaths(path)[i]) == PlanPaths(path);
  }
}
