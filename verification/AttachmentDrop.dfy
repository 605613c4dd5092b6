/**
 Dropped files offered to the main window: batches of paths, claimed one at a
 time. Every operation runs under one lock, so any interleaving is a sequence of
 these methods; the clock values they are given need not increase.
 */
module AttachmentDrop {
  import opened Outcomes
  import opened Sets

  type Uuid = nat

  // Nanoseconds on the monotonic clock.
  type Instant = int

  // A path, and whether the operating system calls it absolute.
  datatype Path = Path(bytes: Bytes, absolute: bool)

  const MAX_PENDING_BATCHES: nat := 8
  const MAX_PATHS_PER_BATCH: nat := 64
  const MAX_PATH_BYTES: nat := 64 * 1024
  const MAX_BATCH_PATH_BYTES: nat := 256 * 1024
  const BATCH_LIFETIME: int := 120 * 1_000_000_000

  datatype PendingDrop =
    PendingDrop(window: string, created: Instant, paths: seq<Path>, inFlight: Option<Uuid>)

  datatype DropClaim = DropClaim(batch: Uuid, ticket: Uuid, path: Path)

  datatype Failure =
    | WrongWindow | BadCount | UnsafePath | TooManyBatches | NotAnId
    | Unavailable | StillSelecting | AlreadyClaimed | Cancelled | AnotherWindow

  // ------------------------------------------------------------ path limits

  function TotalLength(paths: seq<Path>): nat {
    if paths == [] then 0 else TotalLength(paths[..|paths| - 1]) + |paths[|paths| - 1].bytes|
  }

  predicate Safe(paths: seq<Path>) {
    TotalLength(paths) <= MAX_BATCH_PATH_BYTES
    && forall i :: 0 <= i < |paths| ==> paths[i].absolute && |paths[i].bytes| <= MAX_PATH_BYTES
  }

  // The bytes of all paths, one after the other.
  function Joined(paths: seq<Path>): Bytes {
    if paths == [] then [] else paths[0].bytes + Joined(paths[1..])
  }

  /** Absolute paths of at most 64 KiB each and 256 KiB together. */
  ghost predicate Plain(paths: seq<Path>) {
    |Joined(paths)| <= 262144
    && forall i :: 0 <= i < |paths| ==> paths[i].absolute && |paths[i].bytes| <= 65536
  }

  lemma {:induction false} JoinedSnoc(paths: seq<Path>)
    requires paths != []
    ensures Joined(paths) == Joined(paths[..|paths| - 1]) + paths[|paths| - 1].bytes
  {
    if |paths| > 1 {
      JoinedSnoc(paths[1..]);
      assert paths[1..][..|paths| - 2] == paths[..|paths| - 1][1..];
    }
  }

  lemma {:induction false} TotalIsJoined(paths: seq<Path>)
    ensures TotalLength(paths) == |Joined(paths)|
  {
    if paths != [] {
      TotalIsJoined(paths[..|paths| - 1]);
      JoinedSnoc(paths);
    }
  }

  lemma PlainIsSafe(paths: seq<Path>)
    ensures Safe(paths) <==> Plain(paths)
  {
    TotalIsJoined(paths);
  }

  lemma {:induction false} TotalGrows(paths: seq<Path>, k: nat)
    requires k <= |paths|
    ensures TotalLength(paths[..k]) <= TotalLength(paths)
    decreases |paths| - k
  {
    if k < |paths| {
      TotalGrows(paths, k + 1);
      assert paths[..k + 1][..k] == paths[..k];
    } else {
      assert paths[..k] == paths;
    }
  }

  /** The running check stops at the first path over a limit; it accepts exactly the safe lists. */
  method CheckPaths(paths: seq<Path>) returns (safe: bool)
    ensures safe <==> Safe(paths)
  {
    var bytes := 0;
    for i := 0 to |paths|
      invariant bytes == TotalLength(paths[..i]) <= MAX_BATCH_PATH_BYTES
      invariant forall k :: 0 <= k < i ==> paths[k].absolute && |paths[k].bytes| <= MAX_PATH_BYTES
    {
      assert paths[..i + 1][..i] == paths[..i];
      TotalGrows(paths, i + 1);
      bytes := bytes + |paths[i].bytes|;
      if !paths[i].absolute || |paths[i].bytes| > MAX_PATH_BYTES || bytes > MAX_BATCH_PATH_BYTES {
        return false;
      }
    }
    assert paths[..|paths|] == paths;
    safe := true;
  }

  // ---------------------------------------------------------- what happened

  /** One batch over its whole life: captured at a time; ticket `i` was given out with path `i`. */
  datatype Record = Record(captured: seq<Path>, tickets: seq<Uuid>, completed: nat, at: Instant)
  {
    predicate Settled() {
      0 < |captured| <= MAX_PATHS_PER_BATCH && |tickets| <= |captured|
      && completed <= |tickets| <= completed + 1
    }
  }

  predicate Accounts(record: Record, batch: PendingDrop) {
    record.Settled()
    && batch.window == "main" && batch.created == record.at
    && batch.paths == record.captured[|record.tickets|..]
    && (batch.inFlight.Some? <==> |record.tickets| == record.completed + 1)
    && (batch.inFlight.Some? ==> record.tickets[record.completed] == batch.inFlight.value)
    && (batch.paths != [] || batch.inFlight.Some?)
  }

  // The path a batch has given out and not seen completed.
  function Selecting(record: Record, batch: PendingDrop): seq<Path>
    requires Accounts(record, batch)
  {
    if batch.inFlight.Some? then [record.captured[record.completed]] else []
  }

  /** Nothing is lost, repeated or reordered: completed, in flight and pending make up the capture. */
  lemma Conservation(record: Record, batch: PendingDrop)
    requires Accounts(record, batch)
    ensures record.captured == record.captured[..record.completed] + Selecting(record, batch) + batch.paths
    ensures |Selecting(record, batch)| + |batch.paths| > 0
  {
  }

  // One batch goes on from what it was: claims and completions are only added.
  predicate Extends(before: Record, after: Record) {
    after.captured == before.captured && after.at == before.at && before.tickets <= after.tickets
    && before.completed <= after.completed
  }

  predicate AllExtend(before: map<Uuid, Record>, after: map<Uuid, Record>) {
    forall id :: id in before ==> id in after && Extends(before[id], after[id])
  }

  // The batches still inside their lifetime; a clock behind the capture counts as no time.
  predicate Fresh(batch: PendingDrop, now: Instant) {
    (if now < batch.created then 0 else now - batch.created) < BATCH_LIFETIME
  }

  function Live(batches: map<Uuid, PendingDrop>, now: Instant): (live: map<Uuid, PendingDrop>)
    ensures live.Keys <= batches.Keys && |live| <= |batches|
  {
    var live := map id | id in batches && Fresh(batches[id], now) :: batches[id];
    assert live.Keys <= batches.Keys;
    SubsetIsSmaller(live.Keys, batches.Keys);
    live
  }

  // Less than 120 seconds have passed since a batch was captured.
  ghost predicate Young(history: map<Uuid, Record>, id: Uuid, now: Instant) {
    id in history && now - history[id].at < 120_000_000_000
  }

  /** All batches but one stay, as they are, exactly while they are young. */
  ghost predicate OthersAge(before: map<Uuid, PendingDrop>, after: map<Uuid, PendingDrop>,
                            history: map<Uuid, Record>, now: Instant, one: Option<Uuid>)
  {
    (forall id :: id in after && one != Some(id) ==> id in before && after[id] == before[id])
    && forall id :: id in before && one != Some(id) ==> (id in after <==> Young(history, id, now))
  }

  // Every live batch accounts for its record, and every record is settled.
  ghost predicate Balanced(batches: map<Uuid, PendingDrop>, history: map<Uuid, Record>) {
    (forall id :: id in batches ==> id in history && Accounts(history[id], batches[id]))
    && forall id :: id in history ==> history[id].Settled()
  }

  // A ticket names one claim of one batch.
  ghost predicate Owned(history: map<Uuid, Record>, owner: map<Uuid, (Uuid, nat)>) {
    forall id, i :: id in history && 0 <= i < |history[id].tickets| ==>
      history[id].tickets[i] in owner && owner[history[id].tickets[i]] == (id, i)
  }

  /** The state every operation keeps. */
  ghost predicate Sound(batches: map<Uuid, PendingDrop>, history: map<Uuid, Record>, owner: map<Uuid, (Uuid, nat)>) {
    |batches| <= MAX_PENDING_BATCHES && Balanced(batches, history) && Owned(history, owner)
  }

  lemma LiveIsYoung(batches: map<Uuid, PendingDrop>, history: map<Uuid, Record>, now: Instant)
    requires Balanced(batches, history)
    ensures Live(batches, now).Keys == set id | id in batches && Young(history, id, now)
  {
    assert forall id :: id in batches ==> Accounts(history[id], batches[id]);
  }

  // What a method that keeps the live batches and changes at most one of them does to the others.
  lemma LiveAge(batches: map<Uuid, PendingDrop>, history: map<Uuid, Record>, now: Instant, one: Option<Uuid>)
    requires Balanced(batches, history)
    ensures OthersAge(batches, Live(batches, now), history, now, one)
    ensures one.Some? && one.value in batches ==> (one.value in Live(batches, now) <==> Young(history, one.value, now))
  {
    LiveIsYoung(batches, history, now);
    hide Balanced, Young, Fresh;
    assert forall id :: id in Live(batches, now).Keys <==> id in batches && Young(history, id, now);
  }

  lemma OneIsChanged(before: map<Uuid, PendingDrop>, live: map<Uuid, PendingDrop>,
                     history: map<Uuid, Record>, now: Instant, id: Uuid, batch: PendingDrop)
    requires OthersAge(before, live, history, now, Some(id))
    ensures OthersAge(before, live[id := batch], history, now, Some(id))
    ensures OthersAge(before, live - {id}, history, now, Some(id))
  {
    hide Young;
  }

  lemma StillSound(batches: map<Uuid, PendingDrop>, fewer: map<Uuid, PendingDrop>,
                   history: map<Uuid, Record>, owner: map<Uuid, (Uuid, nat)>)
    requires Sound(batches, history, owner)
    requires fewer.Keys <= batches.Keys && forall id :: id in fewer ==> fewer[id] == batches[id]
    ensures Sound(fewer, history, owner)
  {
    SubsetIsSmaller(fewer.Keys, batches.Keys);
  }

  lemma SameSize(batches: map<Uuid, PendingDrop>, id: Uuid, batch: PendingDrop)
    ensures |batches[id := batch]| == |batches| + (if id in batches then 0 else 1)
  {
    assert batches[id := batch].Keys == batches.Keys + {id};
  }

  lemma OneBatchChanges(batches: map<Uuid, PendingDrop>, history: map<Uuid, Record>,
                        id: Uuid, batch: PendingDrop, record: Record)
    requires Balanced(batches, history) && Accounts(record, batch) && record.Settled()
    ensures Balanced(batches[id := batch], history[id := record])
  {
    hide Accounts;
  }

  lemma SoundAfterCapture(batches: map<Uuid, PendingDrop>, history: map<Uuid, Record>,
                          owner: map<Uuid, (Uuid, nat)>, id: Uuid, paths: seq<Path>, now: Instant)
    requires Sound(batches, history, owner) && |batches| < MAX_PENDING_BATCHES
    requires id !in history && 0 < |paths| <= MAX_PATHS_PER_BATCH
    ensures Sound(batches[id := PendingDrop("main", now, paths, None)],
                  history[id := Record(paths, [], 0, now)], owner)
    ensures AllExtend(history, history[id := Record(paths, [], 0, now)])
  {
    hide Balanced;
    SameSize(batches, id, PendingDrop("main", now, paths, None));
    OneBatchChanges(batches, history, id, PendingDrop("main", now, paths, None), Record(paths, [], 0, now));
  }

  function Claimed(record: Record, ticket: Uuid): Record {
    record.(tickets := record.tickets + [ticket])
  }

  function GivesOut(batch: PendingDrop, ticket: Uuid): PendingDrop
    requires batch.paths != []
  {
    batch.(paths := batch.paths[1..], inFlight := Some(ticket))
  }

  lemma OwnedAfterClaim(history: map<Uuid, Record>, owner: map<Uuid, (Uuid, nat)>, id: Uuid, ticket: Uuid)
    requires Owned(history, owner) && id in history && ticket !in owner
    ensures Owned(history[id := Claimed(history[id], ticket)], owner[ticket := (id, |history[id].tickets|)])
  {
  }

  lemma AccountsAfterClaim(record: Record, batch: PendingDrop, ticket: Uuid)
    requires Accounts(record, batch) && batch.inFlight.None?
    ensures batch.paths != [] && batch.paths[0] == record.captured[|record.tickets|]
    ensures Accounts(Claimed(record, ticket), GivesOut(batch, ticket))
    ensures Extends(record, Claimed(record, ticket))
  {
  }

  lemma OneExtends(history: map<Uuid, Record>, id: Uuid, record: Record)
    requires id in history && Extends(history[id], record)
    ensures AllExtend(history, history[id := record])
  {
  }

  lemma SoundAfterClaim(batches: map<Uuid, PendingDrop>, history: map<Uuid, Record>,
                        owner: map<Uuid, (Uuid, nat)>, id: Uuid, ticket: Uuid)
    requires Sound(batches, history, owner) && id in batches && batches[id].inFlight.None?
    requires ticket !in owner
    ensures id in history && batches[id].paths != [] && |history[id].tickets| < |history[id].captured|
    ensures batches[id].paths[0] == history[id].captured[|history[id].tickets|]
    ensures Sound(batches[id := GivesOut(batches[id], ticket)], history[id := Claimed(history[id], ticket)],
                  owner[ticket := (id, |history[id].tickets|)])
    ensures AllExtend(history, history[id := Claimed(history[id], ticket)])
  {
    assert id in history && Accounts(history[id], batches[id]);
    hide Balanced, Owned, AllExtend, Extends;
    AccountsAfterClaim(history[id], batches[id], ticket);
    SameSize(batches, id, GivesOut(batches[id], ticket));
    OneBatchChanges(batches, history, id, GivesOut(batches[id], ticket), Claimed(history[id], ticket));
    OwnedAfterClaim(history, owner, id, ticket);
    OneExtends(history, id, Claimed(history[id], ticket));
  }

  function Finished(record: Record): Record {
    record.(completed := record.completed + 1)
  }

  // The batches after a claim completes: no ticket in flight, and gone once it has no paths.
  function Without(batches: map<Uuid, PendingDrop>, id: Uuid): map<Uuid, PendingDrop>
    requires id in batches
  {
    if batches[id].paths == [] then batches - {id} else batches[id := batches[id].(inFlight := None)]
  }

  lemma AccountsAfterComplete(record: Record, batch: PendingDrop)
    requires Accounts(record, batch) && batch.inFlight.Some?
    ensures batch.paths != [] ==> Accounts(Finished(record), batch.(inFlight := None))
    ensures Finished(record).Settled() && Extends(record, Finished(record))
  {
  }

  lemma BalancedWithout(batches: map<Uuid, PendingDrop>, history: map<Uuid, Record>, id: Uuid, record: Record)
    requires Balanced(batches, history) && record.Settled()
    ensures Balanced(batches - {id}, history[id := record])
  {
    hide Accounts;
  }

  lemma OwnedAfterComplete(history: map<Uuid, Record>, owner: map<Uuid, (Uuid, nat)>, id: Uuid)
    requires Owned(history, owner) && id in history
    ensures Owned(history[id := Finished(history[id])], owner)
  {
  }

  lemma SoundAfterComplete(batches: map<Uuid, PendingDrop>, history: map<Uuid, Record>,
                           owner: map<Uuid, (Uuid, nat)>, id: Uuid)
    requires Sound(batches, history, owner) && id in batches && batches[id].inFlight.Some?
    ensures id in history
    ensures Sound(Without(batches, id), history[id := Finished(history[id])], owner)
    ensures AllExtend(history, history[id := Finished(history[id])])
  {
    assert id in history && Accounts(history[id], batches[id]);
    hide Balanced, Owned, AllExtend, Extends;
    AccountsAfterComplete(history[id], batches[id]);
    if batches[id].paths == [] {
      SubsetIsSmaller((batches - {id}).Keys, batches.Keys);
      BalancedWithout(batches, history, id, Finished(history[id]));
    } else {
      SameSize(batches, id, batches[id].(inFlight := None));
      OneBatchChanges(batches, history, id, batches[id].(inFlight := None), Finished(history[id]));
    }
    OwnedAfterComplete(history, owner, id);
    OneExtends(history, id, Finished(history[id]));
  }

  class AttachmentDrops {
    var batches: map<Uuid, PendingDrop>
    ghost var history: map<Uuid, Record>
    ghost var owner: map<Uuid, (Uuid, nat)>

    constructor ()
      ensures Valid() && batches == map[] && history == map[] && owner == map[]
    {
      batches := map[];
      history := map[];
      owner := map[];
    }

    ghost predicate Valid()
      reads this
    {
      Sound(batches, history, owner)
    }

    // A ticket that was given out and whose selection finished.
    ghost predicate Completed(ticket: Uuid)
      reads this
    {
      ticket in owner && owner[ticket].0 in history && owner[ticket].1 < history[owner[ticket].0].completed
    }

    method Expire(now: Instant)
      requires Valid()
      modifies this`batches
      ensures Valid() && batches == Live(old(batches), now)
    {
      StillSound(batches, Live(batches, now), history, owner);
      batches := Live(batches, now);
    }

    /** Records a native drop. A full table refuses it and evicts nothing. */
    method Capture(window: string, paths: seq<Path>, now: Instant, id: Uuid) returns (r: Result<Uuid, Failure>)
      requires Valid() && id !in history
      modifies this
      ensures Valid() && owner == old(owner) && AllExtend(old(history), history)
      ensures r.Err? ==> history == old(history)
      ensures window != "main" ==> r == Err(WrongWindow) && batches == old(batches)
      ensures window == "main" && !(0 < |paths| <= MAX_PATHS_PER_BATCH) ==>
                r == Err(BadCount) && batches == old(batches)
      ensures window == "main" && 0 < |paths| <= MAX_PATHS_PER_BATCH && !Safe(paths) ==>
                r == Err(UnsafePath) && batches == old(batches)
      ensures window == "main" && 0 < |paths| <= MAX_PATHS_PER_BATCH && Safe(paths) ==>
                if |Live(old(batches), now)| >= MAX_PENDING_BATCHES
                then r == Err(TooManyBatches) && batches == Live(old(batches), now)
                else r == Ok(id) && history == old(history)[id := Record(paths, [], 0, now)]
                     && batches == Live(old(batches), now)[id := PendingDrop("main", now, paths, None)]
      ensures window == "main" && 0 < |paths| <= 64 && Plain(paths) ==>
                (r.Err? <==> |set b | b in old(batches) && Young(old(history), b, now)| >= 8)
                && OthersAge(old(batches), batches, old(history), now, if r.Ok? then Some(id) else None)
      ensures window == "main" && !(0 < |paths| <= 64 && Plain(paths)) ==> r.Err? && batches == old(batches)
    {
      LiveIsYoung(batches, history, now);
      LiveAge(batches, history, now, None);
      LiveAge(batches, history, now, Some(id));
      OneIsChanged(batches, Live(batches, now), history, now, id, PendingDrop("main", now, paths, None));
      PlainIsSafe(paths);
      hide Sound, Safe, Plain, AllExtend, Live, Young, OthersAge;
      NothingChanged(history);
      if window != "main" { return Err(WrongWindow); }
      if |paths| == 0 || |paths| > MAX_PATHS_PER_BATCH { return Err(BadCount); }
      var safe := CheckPaths(paths);
      if !safe { return Err(UnsafePath); }
      Expire(now);
      if |batches| >= MAX_PENDING_BATCHES { return Err(TooManyBatches); }
      SoundAfterCapture(batches, history, owner, id, paths, now);
      batches := batches[id := PendingDrop(window, now, paths, None)];
      history := history[id := Record(paths, [], 0, now)];
      r := Ok(id);
    }

    /**
     Claims the next path of a batch. It succeeds exactly for a live batch with no
     claim in flight; the batch is never found drained.
     */
    method Claim(window: string, id: Option<Uuid>, now: Instant, ticket: Uuid) returns (r: Result<DropClaim, Failure>)
      requires Valid() && ticket !in owner
      modifies this
      ensures Valid() && AllExtend(old(history), history)
      ensures r != Err(AlreadyClaimed)
      ensures r.Err? ==> history == old(history) && owner == old(owner)
      ensures window != "main" ==> r == Err(WrongWindow) && batches == old(batches)
      ensures window == "main" && id.None? ==> r == Err(NotAnId) && batches == old(batches)
      ensures window == "main" && id.Some? ==>
                ClaimStep(old(batches), batches, old(history), id.value, ticket, now, r)
      ensures r.Ok? ==>
                id.value in old(history)
                && history == old(history)[id.value := Claimed(old(history)[id.value], ticket)]
                && owner == old(owner)[ticket := (id.value, |old(history)[id.value].tickets|)]
      ensures window == "main" && id.Some? ==>
                ClaimedByClock(old(batches), batches, old(history), id.value, ticket, now, r)
    {
      hide Sound, AllExtend, Live, ClaimedByClock;
      NothingChanged(history);
      if window != "main" { return Err(WrongWindow); }
      if id.None? { return Err(NotAnId); }
      Expire(now);
      forall after, r: Result<DropClaim, Failure> | ClaimStep(old(batches), after, history, id.value, ticket, now, r)
        ensures ClaimedByClock(old(batches), after, history, id.value, ticket, now, r)
      {
        ClaimIsByClock(old(batches), after, history, owner, id.value, ticket, now, r);
      }
      if id.value !in batches { return Err(Unavailable); }
      var batch := batches[id.value];
      WindowIsMain(batches, history, owner, id.value);
      if batch.window != window { return Err(Unavailable); }
      if batch.inFlight.Some? { return Err(StillSelecting); }
      SoundAfterClaim(batches, history, owner, id.value, ticket);
      if batch.paths == [] { return Err(AlreadyClaimed); }
      batches := batches[id.value := GivesOut(batch, ticket)];
      owner := owner[ticket := (id.value, |history[id.value].tickets|)];
      history := history[id.value := Claimed(history[id.value], ticket)];
      r := Ok(DropClaim(id.value, ticket, batch.paths[0]));
    }

    /**
     Completes a claim. It succeeds exactly while its batch is live and still waits
     for this ticket, which therefore completes once at most.
     */
    method Complete(window: string, claim: DropClaim, now: Instant) returns (r: Result<(), Failure>)
      requires Valid()
      modifies this
      ensures Valid() && owner == old(owner) && AllExtend(old(history), history)
      ensures r.Err? ==> history == old(history)
      ensures window != "main" ==> r == Err(WrongWindow) && batches == old(batches)
      ensures window == "main" ==> CompleteStep(old(batches), batches, claim, now, r)
      ensures r.Ok? ==> !old(Completed(claim.ticket)) && Completed(claim.ticket)
      ensures r.Ok? ==> claim.batch in old(history)
                        && history == old(history)[claim.batch := Finished(old(history)[claim.batch])]
      ensures window == "main" ==> CompletedByClock(old(batches), batches, old(history), claim, now, r)
    {
      hide Sound, AllExtend, Live, CompletedByClock;
      NothingChanged(history);
      if window != "main" { return Err(WrongWindow); }
      Expire(now);
      forall after, r: Result<(), Failure> | CompleteStep(old(batches), after, claim, now, r)
        ensures CompletedByClock(old(batches), after, history, claim, now, r)
      {
        CompleteIsByClock(old(batches), after, history, owner, claim, now, r);
      }
      if claim.batch !in batches { return Err(Cancelled); }
      var batch := batches[claim.batch];
      WindowIsMain(batches, history, owner, claim.batch);
      if batch.window != window || batch.inFlight != Some(claim.ticket) { return Err(Cancelled); }
      WaitingTicket(batches, history, owner, claim.batch);
      SoundAfterComplete(batches, history, owner, claim.batch);
      ghost var after := Without(batches, claim.batch);
      batches := batches[claim.batch := batch.(inFlight := None)];
      if batch.paths == [] {
        batches := batches - {claim.batch};
      }
      assert batches == after;
      history := history[claim.batch := Finished(history[claim.batch])];
      r := Ok(());
    }

    /** Forgets a batch, whether or not it exists. */
    method Discard(window: string, id: Option<Uuid>, now: Instant) returns (r: Result<(), Failure>)
      requires Valid()
      modifies this`batches
      ensures Valid() && r != Err(AnotherWindow)
      ensures window != "main" ==> r == Err(WrongWindow) && batches == old(batches)
      ensures window == "main" && id.None? ==> r == Err(NotAnId) && batches == old(batches)
      ensures window == "main" && id.Some? ==> r == Ok(()) && batches == Live(old(batches), now) - {id.value}
      ensures window == "main" && id.Some? ==>
                id.value !in batches && OthersAge(old(batches), batches, history, now, id)
    {
      DiscardIsByClock(batches, history, owner, id, now);
      hide Sound, Live, Young, OthersAge;
      if window != "main" { return Err(WrongWindow); }
      if id.None? { return Err(NotAnId); }
      if id.value in batches {
        WindowIsMain(batches, history, owner, id.value);
        if batches[id.value].window != window { return Err(AnotherWindow); }
      }
      Expire(now);
      StillSound(batches, batches - {id.value}, history, owner);
      batches := batches - {id.value};
      r := Ok(());
    }
  }

  // What a completion does to the live batches.
  ghost predicate CompleteStep(before: map<Uuid, PendingDrop>, after: map<Uuid, PendingDrop>, claim: DropClaim,
                               now: Instant, r: Result<(), Failure>)
  {
    var live := Live(before, now);
    if Waits(live, claim) then r == Ok(()) && after == Without(live, claim.batch)
    else r == Err(Cancelled) && after == live
  }

  /**
   A completion by the clock alone: it succeeds exactly when its batch was captured less
   than 120 seconds ago and its ticket is the last one given out; a batch that is older,
   or has given out all its paths, is gone afterwards, and the others age.
   */
  ghost predicate CompletedByClock(before: map<Uuid, PendingDrop>, after: map<Uuid, PendingDrop>,
                                   history: map<Uuid, Record>, claim: DropClaim, now: Instant, r: Result<(), Failure>)
  {
    OthersAge(before, after, history, now, Some(claim.batch))
    && if claim.batch in before && Young(history, claim.batch, now) then
         var record := history[claim.batch];
         if AwaitsTicket(record, claim.ticket)
         then r == Ok(()) && (claim.batch in after <==> |record.tickets| < |record.captured|)
         else r == Err(Cancelled) && claim.batch in after
       else r == Err(Cancelled) && claim.batch !in after
  }

  lemma CompleteIsByClock(before: map<Uuid, PendingDrop>, after: map<Uuid, PendingDrop>,
                          history: map<Uuid, Record>, owner: map<Uuid, (Uuid, nat)>, claim: DropClaim,
                          now: Instant, r: Result<(), Failure>)
    requires Sound(before, history, owner) && CompleteStep(before, after, claim, now, r)
    ensures CompletedByClock(before, after, history, claim, now, r)
  {
    LiveAge(before, history, now, Some(claim.batch));
    if claim.batch in before {
      TicketIsRecorded(before, history, owner, claim.batch, claim.ticket);
    }
    hide Sound, Live, Young, AwaitsTicket;
    if claim.batch in Live(before, now) {
      OneIsChanged(before, Live(before, now), history, now, claim.batch,
                   Live(before, now)[claim.batch].(inFlight := None));
    }
    hide OthersAge;
  }

  lemma DiscardIsByClock(before: map<Uuid, PendingDrop>, history: map<Uuid, Record>,
                         owner: map<Uuid, (Uuid, nat)>, id: Option<Uuid>, now: Instant)
    requires Sound(before, history, owner)
    ensures id.Some? ==> OthersAge(before, Live(before, now) - {id.value}, history, now, id)
  {
    LiveAge(before, history, now, id);
    hide Sound, Live, OthersAge;
    if id.Some? {
      OneIsChanged(before, Live(before, now), history, now, id.value, PendingDrop("", 0, [], None));
    }
  }

  // What a claim does to the live batches.
  ghost predicate ClaimStep(before: map<Uuid, PendingDrop>, after: map<Uuid, PendingDrop>,
                            history: map<Uuid, Record>, id: Uuid, ticket: Uuid, now: Instant,
                            r: Result<DropClaim, Failure>)
  {
    var live := Live(before, now);
    if id !in live then r == Err(Unavailable) && after == live
    else if live[id].inFlight.Some? then r == Err(StillSelecting) && after == live
    else GivenOut(live, history, id, ticket, r) && after == live[id := GivesOut(live[id], ticket)]
  }

  /**
   A claim by the clock alone: a batch captured less than 120 seconds ago gives out its
   next path unless one is in flight, an older one is gone, and the others age.
   */
  ghost predicate ClaimedByClock(before: map<Uuid, PendingDrop>, after: map<Uuid, PendingDrop>,
                                 history: map<Uuid, Record>, id: Uuid, ticket: Uuid, now: Instant,
                                 r: Result<DropClaim, Failure>)
  {
    OthersAge(before, after, history, now, Some(id))
    && if id in before && Young(history, id, now) then
         var record := history[id];
         id in after
         && if |record.tickets| > record.completed then r == Err(StillSelecting)
            else |record.tickets| < |record.captured|
                 && r == Ok(DropClaim(id, ticket, record.captured[|record.tickets|]))
       else r == Err(Unavailable) && id !in after
  }

  lemma ClaimIsByClock(before: map<Uuid, PendingDrop>, after: map<Uuid, PendingDrop>,
                       history: map<Uuid, Record>, owner: map<Uuid, (Uuid, nat)>, id: Uuid, ticket: Uuid,
                       now: Instant, r: Result<DropClaim, Failure>)
    requires Sound(before, history, owner) && ClaimStep(before, after, history, id, ticket, now, r)
    ensures ClaimedByClock(before, after, history, id, ticket, now, r)
  {
    LiveAge(before, history, now, Some(id));
    if id in before {
      InFlightIsRecorded(before, history, owner, id);
    }
    hide Sound, Live, Young;
    if id in Live(before, now) {
      OneIsChanged(before, Live(before, now), history, now, id, after[id]);
    }
    hide OthersAge;
  }

  // The last ticket given out of a batch, while its selection has not finished.
  ghost predicate AwaitsTicket(record: Record, ticket: Uuid) {
    record.completed < |record.tickets| && record.tickets[record.completed] == ticket
  }

  lemma TicketIsRecorded(batches: map<Uuid, PendingDrop>, history: map<Uuid, Record>,
                         owner: map<Uuid, (Uuid, nat)>, id: Uuid, ticket: Uuid)
    requires Sound(batches, history, owner) && id in batches
    ensures id in history && (batches[id].inFlight == Some(ticket) <==> AwaitsTicket(history[id], ticket))
    ensures batches[id].paths == [] <==> |history[id].tickets| == |history[id].captured|
  {
    assert Accounts(history[id], batches[id]);
  }

  lemma InFlightIsRecorded(batches: map<Uuid, PendingDrop>, history: map<Uuid, Record>,
                           owner: map<Uuid, (Uuid, nat)>, id: Uuid)
    requires Sound(batches, history, owner) && id in batches
    ensures id in history && (batches[id].inFlight.Some? <==> |history[id].tickets| > history[id].completed)
  {
    assert Accounts(history[id], batches[id]);
  }

  // What a successful claim hands over: the first path no ticket has named.
  predicate GivenOut(live: map<Uuid, PendingDrop>, history: map<Uuid, Record>, id: Uuid, ticket: Uuid,
                     r: Result<DropClaim, Failure>)
  {
    id in live && live[id].paths != [] && id in history
    && |history[id].tickets| < |history[id].captured|
    && r == Ok(DropClaim(id, ticket, history[id].captured[|history[id].tickets|]))
  }

  // The batch of a claim is live and its ticket is the one in flight.
  predicate Waits(live: map<Uuid, PendingDrop>, claim: DropClaim) {
    claim.batch in live && live[claim.batch].inFlight == Some(claim.ticket)
  }

  // The ticket in flight is the one after the completed ones.
  lemma WaitingTicket(batches: map<Uuid, PendingDrop>, history: map<Uuid, Record>,
                      owner: map<Uuid, (Uuid, nat)>, id: Uuid)
    requires Sound(batches, history, owner) && id in batches && batches[id].inFlight.Some?
    ensures id in history && batches[id].inFlight.value in owner
    ensures owner[batches[id].inFlight.value] == (id, history[id].completed)
  {
    assert Accounts(history[id], batches[id]);
  }

  lemma NothingChanged(history: map<Uuid, Record>)
    ensures AllExtend(history, history)
  {
  }

  lemma WindowIsMain(batches: map<Uuid, PendingDrop>, history: map<Uuid, Record>,
                     owner: map<Uuid, (Uuid, nat)>, id: Uuid)
    requires Sound(batches, history, owner) && id in batches
    ensures batches[id].window == "main"
  {
  }
}
