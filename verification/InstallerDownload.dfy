/**
 Progress reports of an installer download: when bytes are reported, what a report
 counts, and how many reports there can be.
 */
module InstallerDownload {
  import opened Outcomes

  const MAX_U64: nat := 0xFFFF_FFFF_FFFF_FFFF

  // Milliseconds on the monotonic clock.
  type Instant = nat

  datatype Next = Chunk(size: nat, written: bool) | BodyEnd | ReadError

  /**
   One turn of the loop: the timer may fire at `wake` while the read is pending, the
   read then gives `next`, and the clock shows `now` once a chunk is written.
   */
  datatype Turn = Turn(wake: Option<Instant>, next: Next, now: Instant)

  datatype Ending = Done | TooLarge | WriteFailed | ReadFailed | Dropped

  function Saturated(n: nat): nat {
    if n > MAX_U64 then MAX_U64 else n
  }

  // The renderer's whole percentage of a known, positive total.
  function Shown(percent: nat -> nat, total: Option<nat>, bytes: nat): Option<nat> {
    if total.Some? && total.value > 0 then Some(percent(bytes)) else None
  }

  ghost predicate Percentage(percent: nat -> nat) {
    (forall a: nat, b: nat :: a <= b ==> percent(a) <= percent(b)) && forall a: nat :: percent(a) <= 100
  }

  // The bytes of the chunks written in the first turns, while the count fits its type.
  function Confirmed(turns: seq<Turn>, n: nat): nat
    requires n <= |turns|
  {
    if n == 0 then 0
    else Saturated(Confirmed(turns, n - 1) + (if turns[n - 1].next.Chunk? then turns[n - 1].next.size else 0))
  }

  // The bytes of the chunks of the first turns, without a bound.
  function Written(turns: seq<Turn>, n: nat): nat
    requires n <= |turns|
  {
    if n == 0 then 0
    else Written(turns, n - 1) + (match turns[n - 1].next case Chunk(size, _) => size case _ => 0)
  }

  /** The confirmed count is the sum of the chunks, up to the largest 64-bit number. */
  lemma {:induction false} ConfirmedIsWritten(turns: seq<Turn>, n: nat)
    requires n <= |turns|
    ensures Confirmed(turns, n)
         == if Written(turns, n) <= 18446744073709551615 then Written(turns, n) else 18446744073709551615
  {
    if n > 0 {
      ConfirmedIsWritten(turns, n - 1);
    }
  }

  // Each of the first turns writes a chunk within the limit.
  predicate Goes(turns: seq<Turn>, limit: nat, n: nat)
    requires n <= |turns|
  {
    forall k :: 0 <= k < n ==>
      turns[k].next.Chunk? && turns[k].next.written && Confirmed(turns, k + 1) <= limit
  }

  function Before(turns: seq<Turn>, start: Instant, n: nat): Instant
    requires n <= |turns|
  {
    if n == 0 then start else turns[n - 1].now
  }

  // The clock never goes back.
  predicate ClockRuns(turns: seq<Turn>, start: Instant) {
    forall i :: 0 <= i < |turns| ==>
      Before(turns, start, i) <= turns[i].now
      && (turns[i].wake.Some? ==> Before(turns, start, i) <= turns[i].wake.value <= turns[i].now)
  }

  predicate Increasing(reports: seq<nat>) {
    forall i, j :: 0 <= i < j < |reports| ==> reports[i] < reports[j]
  }

  // Each report is the confirmed count after some turn.
  ghost predicate AllConfirmed(reports: seq<nat>, turns: seq<Turn>, n: nat)
    requires n <= |turns|
  {
    forall i :: 0 <= i < |reports| ==> WasConfirmed(reports[i], turns, n)
  }

  ghost predicate WasConfirmed(report: nat, turns: seq<Turn>, n: nat)
    requires n <= |turns|
  {
    exists k :: 0 <= k <= n && Confirmed(turns, k) == report
  }

  function Last(reports: seq<nat>): nat {
    if reports == [] then 0 else reports[|reports| - 1]
  }

  // How the loop ended at a turn, or that it was dropped before one.
  predicate Ends(turns: seq<Turn>, limit: nat, taken: nat, ending: Ending)
    requires taken <= |turns|
  {
    if ending.Dropped? then taken == |turns|
    else
      taken < |turns|
      && match turns[taken].next {
           case BodyEnd => ending.Done?
           case ReadError => ending.ReadFailed?
           case Chunk(size, written) =>
             if Saturated(Confirmed(turns, taken) + size) > limit then ending.TooLarge?
             else !written && ending.WriteFailed?
         }
  }

  // What the loop has reported: increasing counts of confirmed bytes, the last of them `reported`.
  ghost predicate Honest(reports: seq<nat>, turns: seq<Turn>, n: nat, limit: nat, reported: nat)
    requires n <= |turns|
  {
    Increasing(reports) && AllConfirmed(reports, turns, n) && Last(reports) == reported
    && forall i :: 0 <= i < |reports| ==> 0 < reports[i] <= limit
  }

  lemma {:induction false} ReportOne(reports: seq<nat>, turns: seq<Turn>, n: nat, limit: nat,
                                     reported: nat, received: nat)
    requires n <= |turns| && Honest(reports, turns, n, limit, reported)
    requires received == Confirmed(turns, n) && reported < received <= limit
    ensures Honest(reports + [received], turns, n, limit, received)
  {
    assert WasConfirmed(received, turns, n);
    forall i | 0 <= i < |reports| ensures reports[i] < received {
      assert reports[i] <= Last(reports);
    }
  }

  lemma HonestLater(reports: seq<nat>, turns: seq<Turn>, n: nat, limit: nat, reported: nat)
    requires n < |turns| && Honest(reports, turns, n, limit, reported)
    ensures Honest(reports, turns, n + 1, limit, reported)
  {
    forall i | 0 <= i < |reports| ensures WasConfirmed(reports[i], turns, n + 1) {
      assert WasConfirmed(reports[i], turns, n);
      var k :| 0 <= k <= n && Confirmed(turns, k) == reports[i];
    }
  }

  // The percentage counts towards the bound only when there is one.
  function Steps(percent: nat -> nat, total: Option<nat>, reported: nat): nat {
    if reported == 0 then 0
    else 1 + (if Shown(percent, total, reported).Some? then percent(reported) else 0)
  }

  /**
   What the reports so far are charged to: the first bytes, the percentages shown,
   and whole intervals that passed.
   */
  ghost predicate Charged(count: nat, steps: nat, waits: nat, interval: nat, elapsed: int) {
    count <= steps + waits && waits * interval <= elapsed
  }

  // The largest number of reports in a time: 102 with a percentage, 2 without, and one an interval.
  function Bound(total: Option<nat>, elapsed: nat, interval: nat): nat
    requires interval > 0
  {
    (if total.Some? && total.value > 0 then 102 else 2) + elapsed / interval
  }

  lemma QuotientHolds(waits: nat, interval: nat, elapsed: nat)
    requires interval > 0 && waits * interval <= elapsed
    ensures waits <= elapsed / interval
  {
    var q := elapsed / interval;
    assert waits * interval < (q + 1) * interval;
  }

  lemma ChargedBound(percent: nat -> nat, total: Option<nat>, reported: nat, count: nat, waits: nat,
                     interval: nat, elapsed: nat, final: nat)
    requires Percentage(percent) && interval > 0 && elapsed <= final
    requires Charged(count, Steps(percent, total, reported), waits, interval, elapsed)
    ensures count + 1 <= Bound(total, final, interval)
  {
    QuotientHolds(waits, interval, final);
  }

  // A report after an interval is charged to it.
  lemma ChargeInterval(percent: nat -> nat, total: Option<nat>, reported: nat, received: nat, count: nat,
                       waits: nat, interval: nat, elapsed: int, later: int)
    requires Percentage(percent) && reported < received && elapsed + interval <= later
    requires Charged(count, Steps(percent, total, reported), waits, interval, elapsed)
    ensures Charged(count + 1, Steps(percent, total, received), waits + 1, interval, later)
  {
    assert (waits + 1) * interval == waits * interval + interval;
  }

  // A first report, or one that changes the percentage shown, is charged to that.
  lemma ChargeStep(percent: nat -> nat, total: Option<nat>, reported: nat, received: nat, count: nat,
                   waits: nat, interval: nat, elapsed: int, later: int)
    requires Percentage(percent) && reported < received && elapsed <= later
    requires reported == 0 || Shown(percent, total, received) != Shown(percent, total, reported)
    requires Charged(count, Steps(percent, total, reported), waits, interval, elapsed)
    ensures Charged(count + 1, Steps(percent, total, received), waits, interval, later)
  {
  }

  // Bytes still to be reported show nothing new, and are not the first.
  predicate Quiet(percent: nat -> nat, total: Option<nat>, reported: nat, received: nat) {
    reported <= received
    && (received > 0 ==> reported > 0) && Shown(percent, total, received) == Shown(percent, total, reported)
  }

  lemma ConfirmedStep(turns: seq<Turn>, n: nat)
    requires n < |turns| && turns[n].next.Chunk?
    ensures Confirmed(turns, n + 1) == Saturated(Confirmed(turns, n) + turns[n].next.size) >= Confirmed(turns, n)
  {
    ConfirmedFits(turns, n);
  }

  lemma {:induction false} ConfirmedFits(turns: seq<Turn>, n: nat)
    requires n <= |turns|
    ensures Confirmed(turns, n) <= MAX_U64
  {
  }

  lemma ClockStep(turns: seq<Turn>, start: Instant, n: nat)
    requires n < |turns| && ClockRuns(turns, start)
    ensures Before(turns, start, n) <= turns[n].now == Before(turns, start, n + 1)
    ensures turns[n].wake.Some? ==> Before(turns, start, n) <= turns[n].wake.value <= turns[n].now
  {
  }

  /**
   The turn's chunk was written: it is reported when it holds the first bytes,
   changes the percentage shown, or an interval has passed.
   */
  predicate Due(percent: nat -> nat, total: Option<nat>, reported: nat, received: nat,
                reportedAt: Instant, interval: nat, now: Instant)
  {
    received != reported
    && (reported == 0 || Shown(percent, total, received) != Shown(percent, total, reported)
        || now >= reportedAt + interval)
  }

  // After some turns: how many reports there were, and when the last one was made.
  datatype Mark = Mark(count: nat, at: Instant)

  // After a turn, all confirmed bytes are reported, or the last report is less than an interval old.
  ghost predicate Settled(turns: seq<Turn>, mark: Mark, reports: seq<nat>, interval: nat, k: nat) {
    0 < k <= |turns| && mark.count <= |reports|
    && (Confirmed(turns, k) == Last(reports[..mark.count]) || turns[k - 1].now < mark.at + interval)
  }

  // A timer that fires an interval after the last report reports the confirmed bytes, if they are new.
  ghost predicate Woken(turns: seq<Turn>, mark: Mark, reports: seq<nat>, interval: nat, k: nat) {
    k < |turns| && mark.count <= |reports|
    && (turns[k].wake.Some? && turns[k].wake.value >= mark.at + interval
        && Confirmed(turns, k) != Last(reports[..mark.count]) ==>
          mark.count < |reports| && reports[mark.count] == Confirmed(turns, k))
  }

  // A turn moves the time of the last report only by reporting, at its timer or once its chunk is written.
  ghost predicate Marked(turns: seq<Turn>, before: Mark, after: Mark, k: nat) {
    k < |turns| && before.count <= after.count
    && (before.count == after.count ==> after.at == before.at)
    && (before.count < after.count ==> after.at == turns[k].now || turns[k].wake == Some(after.at))
  }

  /** No confirmed bytes wait longer than an interval at any moment the loop looks at the clock. */
  ghost predicate Timely(turns: seq<Turn>, trace: seq<Mark>, reports: seq<nat>, interval: nat, start: Instant,
                         taken: nat, seen: nat)
  {
    |trace| == taken + 1 && trace[0] == Mark(0, start) && seen <= taken + 1
    && (forall k :: 0 <= k < taken ==> Marked(turns, trace[k], trace[k + 1], k))
    && (forall k :: 0 < k <= taken ==> Settled(turns, trace[k], reports, interval, k))
    && (forall k :: 0 <= k < seen ==> Woken(turns, trace[k], reports, interval, k))
  }

  lemma LongerStillTimely(turns: seq<Turn>, trace: seq<Mark>, reports: seq<nat>, more: seq<nat>, interval: nat,
                          start: Instant, taken: nat, seen: nat)
    requires Timely(turns, trace, reports, interval, start, taken, seen) && reports <= more
    ensures Timely(turns, trace, more, interval, start, taken, seen)
  {
    hide Confirmed, Last;
    forall k | 0 < k <= taken ensures Settled(turns, trace[k], more, interval, k) {
      assert Settled(turns, trace[k], reports, interval, k);
      assert more[..trace[k].count] == reports[..trace[k].count];
    }
    forall k | 0 <= k < seen ensures Woken(turns, trace[k], more, interval, k) {
      assert Woken(turns, trace[k], reports, interval, k);
      assert more[..trace[k].count] == reports[..trace[k].count];
    }
  }

  lemma TimelyTurn(turns: seq<Turn>, trace: seq<Mark>, reports: seq<nat>, interval: nat, start: Instant,
                   taken: nat, mark: Mark)
    requires Timely(turns, trace, reports, interval, start, taken, taken + 1) && taken < |turns|
    requires Settled(turns, mark, reports, interval, taken + 1) && Marked(turns, trace[taken], mark, taken)
    ensures Timely(turns, trace + [mark], reports, interval, start, taken + 1, taken + 1)
  {
    hide Settled, Woken, Marked;
  }

  lemma TimelyWake(turns: seq<Turn>, trace: seq<Mark>, reports: seq<nat>, interval: nat, start: Instant, taken: nat)
    requires Timely(turns, trace, reports, interval, start, taken, taken)
    requires Woken(turns, trace[taken], reports, interval, taken)
    ensures Timely(turns, trace, reports, interval, start, taken, taken + 1)
  {
    hide Settled, Woken, Marked;
  }

  /**
   Reports are within the limit, strictly increasing, and each the confirmed count at
   some time; a download that returns has reported its confirmed count last. Their
   number is bounded by the percentages and by the time that passes.
   */
  method WriteInstaller(percent: nat -> nat, turns: seq<Turn>, total: Option<nat>, limit: nat,
                        interval: nat, start: Instant)
    returns (reports: seq<nat>, ending: Ending, taken: nat, ghost seen: nat, ghost trace: seq<Mark>)
    requires Percentage(percent) && limit <= MAX_U64 && ClockRuns(turns, start)
    ensures taken <= seen <= |turns| && Goes(turns, limit, taken)
    ensures Ends(turns, limit, taken, ending) && seen == (if ending.Dropped? then taken else taken + 1)
    ensures Honest(reports, turns, taken, limit, Last(reports))
    ensures !ending.Dropped? ==> Last(reports) == Confirmed(turns, taken)
    ensures Quiet(percent, total, Last(reports), Confirmed(turns, taken))
    ensures Timely(turns, trace, reports, interval, start, taken, seen)
    ensures start <= Before(turns, start, seen)
    ensures interval > 0 ==> |reports| <= Bound(total, Before(turns, start, seen) - start, interval)
  {
    hide Honest, Confirmed, Percentage, ClockRuns, Charged, Steps, Quiet, Shown, Bound, Increasing, Goes, Timely,
         Settled, Woken, Last, Ends;
    var received: nat := 0;
    var reported: nat := 0;
    var reportedAt := start;
    reports := [];
    taken := 0;
    seen := 0;
    ghost var waits := 0;
    ending := Dropped;
    trace := [Mark(0, start)];
    StartsTimely(turns, interval, start);
    DroppedAtTheEnd(turns, limit);
    NothingYet(percent, turns, total, limit, interval);
    while taken < |turns|
      invariant ending.Dropped? && seen == taken <= |turns| && Goes(turns, limit, taken)
      invariant received == Confirmed(turns, taken) <= limit && reported <= received
      invariant Honest(reports, turns, taken, limit, reported)
      invariant Quiet(percent, total, reported, received)
      invariant start <= reportedAt <= Before(turns, start, taken)
      invariant Charged(|reports|, Steps(percent, total, reported), waits, interval, reportedAt - start)
      invariant Timely(turns, trace, reports, interval, start, taken, taken)
      invariant |trace| == taken + 1 && trace[taken] == Mark(|reports|, reportedAt) && Last(reports) == reported
      decreases |turns| - taken
    {
      var turn := turns[taken];
      ClockStep(turns, start, taken);
      ghost var was := reports;
      if received != reported && turn.wake.Some? && turn.wake.value >= reportedAt + interval {
        ReportOne(reports, turns, taken, limit, reported, received);
        ChargeInterval(percent, total, reported, received, |reports|, waits, interval,
                       reportedAt - start, turn.wake.value - start);
        reports, reported, reportedAt := reports + [received], received, turn.wake.value;
        waits := waits + 1;
        QuietNow(percent, total, received);
      }
      AfterWake(turns, trace, was, reports, interval, start, taken);
      seen := taken + 1;
      EndsHere(turns, limit, taken, received);
      if turn.next.BodyEnd? { ending := Done; break; }
      if turn.next.ReadError? { ending := ReadFailed; break; }
      ConfirmedStep(turns, taken);
      var written := Saturated(received + turn.next.size);
      if written > limit { ending := TooLarge; break; }
      if !turn.next.written { ending := WriteFailed; break; }
      HonestLater(reports, turns, taken, limit, reported);
      GoesOn(turns, limit, taken);
      received := written;
      taken := taken + 1;
      was := reports;
      if Due(percent, total, reported, received, reportedAt, interval, turn.now) {
        ReportOne(reports, turns, taken, limit, reported, received);
        if reported == 0 || Shown(percent, total, received) != Shown(percent, total, reported) {
          ChargeStep(percent, total, reported, received, |reports|, waits, interval,
                     reportedAt - start, turn.now - start);
        } else {
          ChargeInterval(percent, total, reported, received, |reports|, waits, interval,
                         reportedAt - start, turn.now - start);
          waits := waits + 1;
        }
        reports, reported, reportedAt := reports + [received], received, turn.now;
        QuietNow(percent, total, received);
      } else {
        QuietStill(percent, total, reported, received, reportedAt, interval, turn.now);
      }
      AfterTurn(turns, trace, was, reports, interval, start, taken - 1, Mark(|reports|, reportedAt));
      trace := trace + [Mark(|reports|, reportedAt)];
    }
    if interval > 0 {
      ChargedBound(percent, total, reported, |reports|, waits, interval, reportedAt - start,
                   Before(turns, start, seen) - start);
    }
    HonestLast(reports, turns, taken, limit, reported);
    if !ending.Dropped? && received != reported {
      ReportOne(reports, turns, taken, limit, reported, received);
      LongerStillTimely(turns, trace, reports, reports + [received], interval, start, taken, seen);
      reports := reports + [received];
      HonestLast(reports, turns, taken, limit, received);
      QuietNow(percent, total, received);
    }
  }

  /** While bytes are quiet, the percentage of a known total, if positive, is the one shown last. */
  lemma QuietPercent(percent: nat -> nat, total: Option<nat>, reported: nat, received: nat)
    requires Quiet(percent, total, reported, received)
    ensures total.Some? && total.value != 0 ==> percent(reported) == percent(received)
  {
  }

  lemma {:induction false} NothingYet(percent: nat -> nat, turns: seq<Turn>, total: Option<nat>, limit: nat,
                                      interval: nat)
    ensures Confirmed(turns, 0) == 0 && Goes(turns, limit, 0) && Honest([], turns, 0, limit, 0)
    ensures Quiet(percent, total, 0, 0)
    ensures Charged(0, Steps(percent, total, 0), 0, interval, 0)
  {
  }

  lemma StartsTimely(turns: seq<Turn>, interval: nat, start: Instant)
    ensures Timely(turns, [Mark(0, start)], [], interval, start, 0, 0) && Last([]) == 0
  {
  }

  lemma {:induction false} WokenNow(turns: seq<Turn>, mark: Mark, was: seq<nat>, reports: seq<nat>, interval: nat,
                                    k: nat)
    requires k < |turns| && mark.count == |was|
    requires if Confirmed(turns, k) != Last(was) && turns[k].wake.Some? && turns[k].wake.value >= mark.at + interval
             then reports == was + [Confirmed(turns, k)] else reports == was
    ensures Woken(turns, mark, reports, interval, k)
  {
    hide Confirmed, Last;
    assert reports[..|was|] == was;
  }

  lemma {:induction false} SettledNow(turns: seq<Turn>, mark: Mark, reports: seq<nat>, interval: nat, k: nat)
    requires 0 < k <= |turns| && mark.count == |reports|
    requires Confirmed(turns, k) == Last(reports) || turns[k - 1].now < mark.at + interval
    ensures Settled(turns, mark, reports, interval, k)
  {
    hide Confirmed, Last;
    assert reports[..|reports|] == reports;
  }

  // A turn's timer has been looked at.
  lemma {:induction false} AfterWake(turns: seq<Turn>, trace: seq<Mark>, was: seq<nat>, reports: seq<nat>,
                                     interval: nat, start: Instant, k: nat)
    requires Timely(turns, trace, was, interval, start, k, k) && k < |turns| && trace[k].count == |was|
    requires if Confirmed(turns, k) != Last(was) && turns[k].wake.Some? && turns[k].wake.value >= trace[k].at + interval
             then reports == was + [Confirmed(turns, k)] else reports == was
    ensures Timely(turns, trace, reports, interval, start, k, k + 1)
  {
    var mark := trace[k];
    hide Timely, Woken, Confirmed, Last;
    WokenNow(turns, mark, was, reports, interval, k);
    LongerStillTimely(turns, trace, was, reports, interval, start, k, k);
    TimelyWake(turns, trace, reports, interval, start, k);
  }

  // A turn's chunk has been written, and reported if it was due.
  lemma {:induction false} AfterTurn(turns: seq<Turn>, trace: seq<Mark>, was: seq<nat>, reports: seq<nat>,
                                     interval: nat, start: Instant, k: nat, mark: Mark)
    requires Timely(turns, trace, was, interval, start, k, k + 1) && k < |turns| && was <= reports
    requires mark.count == |reports| && Marked(turns, trace[k], mark, k)
    requires Confirmed(turns, k + 1) == Last(reports) || turns[k].now < mark.at + interval
    ensures Timely(turns, trace + [mark], reports, interval, start, k + 1, k + 1)
  {
    hide Timely, Marked, Confirmed, Last;
    LongerStillTimely(turns, trace, was, reports, interval, start, k, k + 1);
    SettledNow(turns, mark, reports, interval, k + 1);
    TimelyTurn(turns, trace, reports, interval, start, k, mark);
  }

  lemma DroppedAtTheEnd(turns: seq<Turn>, limit: nat)
    ensures Ends(turns, limit, |turns|, Dropped)
  {
  }

  // How the loop may end at a turn.
  lemma {:induction false} EndsHere(turns: seq<Turn>, limit: nat, k: nat, received: nat)
    requires k < |turns| && received == Confirmed(turns, k)
    ensures match turns[k].next {
              case BodyEnd => Ends(turns, limit, k, Done)
              case ReadError => Ends(turns, limit, k, ReadFailed)
              case Chunk(size, written) =>
                if Saturated(received + size) > limit then Ends(turns, limit, k, TooLarge)
                else !written ==> Ends(turns, limit, k, WriteFailed)
            }
  {
    hide Confirmed;
  }

  lemma GoesOn(turns: seq<Turn>, limit: nat, n: nat)
    requires n < |turns| && Goes(turns, limit, n) && turns[n].next.Chunk? && turns[n].next.written
    requires Confirmed(turns, n + 1) <= limit
    ensures Goes(turns, limit, n + 1)
  {
    hide Confirmed;
    forall k | 0 <= k < n + 1
      ensures turns[k].next.Chunk? && turns[k].next.written && Confirmed(turns, k + 1) <= limit
    {
    }
  }

  lemma QuietNow(percent: nat -> nat, total: Option<nat>, received: nat)
    ensures Quiet(percent, total, received, received)
  {
  }

  lemma QuietStill(percent: nat -> nat, total: Option<nat>, reported: nat, received: nat,
                   reportedAt: Instant, interval: nat, now: Instant)
    requires !Due(percent, total, reported, received, reportedAt, interval, now) && reported <= received
    ensures Quiet(percent, total, reported, received)
  {
  }

  lemma HonestLast(reports: seq<nat>, turns: seq<Turn>, n: nat, limit: nat, reported: nat)
    requires n <= |turns| && Honest(reports, turns, n, limit, reported)
    ensures Last(reports) == reported && Honest(reports, turns, n, limit, Last(reports))
  {
  }
}
