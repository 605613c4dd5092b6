/**
 Launch preflights and their cancellation, which may arrive before the job it is
 meant for. Every operation runs under one lock, so any interleaving of callers
 is a sequence of operations.
 */
module LaunchJobs {
  import opened Outcomes
  import opened Sets
  import opened Strings

  type Id = string

  // A shared cancellation flag, by the order in which it was made.
  type Flag = nat

  datatype Jobs = Jobs(active: map<Id, Flag>, cancelled: set<Id>, order: seq<Id>, flags: seq<bool>)

  const EMPTY: Jobs := Jobs(map[], {}, [], [])

  const MAX_ACTIVE: nat := 64
  const MAX_QUEUED: nat := 256

  predicate ValidId(id: Id) {
    0 < |id| <= 128 && forall i :: 0 <= i < |id| ==> IsAlnum(id[i]) || id[i] == '-' || id[i] == '_'
  }

  /** An id is 1 to 128 letters, digits, dashes and underscores. */
  predicate IsPlainId(id: Id) {
    id != "" && |id| <= 128
    && forall c :: c in id ==> 'a' <= c <= 'z' || 'A' <= c <= 'Z' || '0' <= c <= '9' || c in "-_"
  }

  lemma IdIsRead(id: Id)
    ensures ValidId(id) <==> IsPlainId(id)
  {
    assert forall i :: 0 <= i < |id| ==> id[i] in id;
  }

  // The entries of a queue other than one id, in order.
  function Except(order: seq<Id>, id: Id): (rest: seq<Id>)
    ensures |rest| <= |order|
  {
    if order == [] then []
    else if order[0] == id then Except(order[1..], id)
    else [order[0]] + Except(order[1..], id)
  }

  predicate CanBegin(s: Jobs, id: Id) {
    ValidId(id) && id !in s.active && |s.active| < MAX_ACTIVE
  }

  // A begun job takes a new flag, which is set when its id was queued.
  function Begun(s: Jobs, id: Id): Jobs {
    Jobs(s.active[id := |s.flags|], s.cancelled - {id}, Except(s.order, id), s.flags + [id in s.cancelled])
  }

  // The queue after one more id: the oldest entries give way beyond the limit.
  function Pushed(order: seq<Id>, id: Id): seq<Id> {
    if |order| >= MAX_QUEUED then (order + [id])[|order| + 1 - MAX_QUEUED..] else order + [id]
  }

  function Raised(flags: seq<bool>, flag: Flag): seq<bool> {
    if flag < |flags| then flags[flag := true] else flags
  }

  function Elements(order: seq<Id>): set<Id> {
    set x | x in order
  }

  function CancelOne(s: Jobs, id: Id): Jobs {
    if !ValidId(id) then s
    else if id in s.active then s.(flags := Raised(s.flags, s.active[id]))
    else if id in s.cancelled then s
    else
      var order := Pushed(s.order, id);
      s.(cancelled := Elements(order), order := order)
  }

  function CancelEvery(s: Jobs): Jobs {
    s.(flags := seq(|s.flags|, f requires 0 <= f < |s.flags| => s.flags[f] || f in s.active.Values))
  }

  // What happens to the jobs, one locked operation at a time.
  datatype Op = Begin(id: Id) | Cancel(id: Id) | CancelAll | Signal(flag: Flag) | Remove(id: Id)

  function Step(s: Jobs, op: Op): Jobs {
    match op
    case Begin(id) => if CanBegin(s, id) then Begun(s, id) else s
    case Cancel(id) => CancelOne(s, id)
    case CancelAll => CancelEvery(s)
    case Signal(flag) => s.(flags := Raised(s.flags, flag))
    case Remove(id) => s.(active := s.active - {id})
  }

  function Run(s: Jobs, ops: seq<Op>): Jobs {
    if ops == [] then s else Step(Run(s, ops[..|ops| - 1]), ops[|ops| - 1])
  }

  // ---------------------------------------------------------- the invariant

  predicate Distinct(order: seq<Id>) {
    forall i, j :: 0 <= i < j < |order| ==> order[i] != order[j]
  }

  /** The queue lists each cancelled id once, none of them active, within the limits. */
  ghost predicate Sound(s: Jobs) {
    Distinct(s.order) && s.cancelled == Elements(s.order) && |s.order| <= MAX_QUEUED
    && s.cancelled !! s.active.Keys && |s.active| <= MAX_ACTIVE
    && (forall id :: id in s.active ==> s.active[id] < |s.flags|)
    && forall a, b :: a in s.active && b in s.active && a != b ==> s.active[a] != s.active[b]
  }

  lemma {:induction false} ExceptOf(order: seq<Id>, id: Id)
    ensures Elements(Except(order, id)) == Elements(order) - {id}
    ensures Distinct(order) ==> Distinct(Except(order, id))
  {
    if order != [] {
      ExceptOf(order[1..], id);
      assert Elements(order) == {order[0]} + Elements(order[1..]);
      var rest := Except(order[1..], id);
      if order[0] != id {
        assert Elements([order[0]] + rest) == {order[0]} + Elements(rest);
        if Distinct(order) {
          assert order[0] !in Elements(order[1..]);
          assert forall j :: 0 <= j < |rest| ==> rest[j] in Elements(rest);
        }
      }
    }
  }

  lemma PushedOf(order: seq<Id>, id: Id)
    requires Distinct(order) && id !in order && |order| <= MAX_QUEUED
    ensures Distinct(Pushed(order, id)) && |Pushed(order, id)| <= MAX_QUEUED
    ensures Elements(Pushed(order, id)) <= Elements(order) + {id}
    ensures Pushed(order, id) == if |order| == MAX_QUEUED then order[1..] + [id] else order + [id]
  {
  }

  lemma BeginKeepsSound(s: Jobs, id: Id)
    requires Sound(s) && CanBegin(s, id)
    ensures Sound(Begun(s, id))
  {
    ExceptOf(s.order, id);
    assert Begun(s, id).active.Keys == s.active.Keys + {id};
  }

  lemma CancelKeepsSound(s: Jobs, id: Id)
    requires Sound(s)
    ensures Sound(CancelOne(s, id))
  {
    if ValidId(id) && id !in s.active && id !in s.cancelled {
      assert id !in s.order;
      PushedOf(s.order, id);
    }
  }

  lemma RemoveKeepsSound(s: Jobs, id: Id)
    requires Sound(s)
    ensures Sound(s.(active := s.active - {id}))
  {
    var after := s.active - {id};
    assert after.Keys == s.active.Keys - {id};
    assert |after| == |after.Keys|;
  }

  lemma StepKeepsSound(s: Jobs, op: Op)
    requires Sound(s)
    ensures Sound(Step(s, op))
  {
    match op
    case Begin(id) => if CanBegin(s, id) { BeginKeepsSound(s, id); }
    case Cancel(id) => CancelKeepsSound(s, id);
    case CancelAll =>
    case Signal(flag) =>
    case Remove(id) => RemoveKeepsSound(s, id);
  }

  /** Whatever the callers do, in whatever order, the invariant holds. */
  lemma {:induction false} RunKeepsSound(s: Jobs, ops: seq<Op>)
    requires Sound(s)
    ensures Sound(Run(s, ops))
  {
    if ops != [] {
      RunKeepsSound(s, ops[..|ops| - 1]);
      StepKeepsSound(Run(s, ops[..|ops| - 1]), ops[|ops| - 1]);
    }
  }

  /**
   An active job's flag goes up by its own cancellation, by cancelling everything or
   by its owner, and by nothing else.
   */
  lemma OnlyOwnFlag(s: Jobs, op: Op, id: Id)
    requires Sound(s) && id in s.active
    ensures s.active[id] < |s.flags| <= |Step(s, op).flags|
    ensures Step(s, op).flags[s.active[id]]
       <==> s.flags[s.active[id]] || (op == Cancel(id) && ValidId(id)) || op == CancelAll || op == Signal(s.active[id])
  {
    hide Except, Pushed, Distinct, Elements, ValidId;
    assert s.active[id] in s.active.Values;
  }

  // ----------------------------------------------------- cancel before begin

  // The queue behind an id.
  function Behind(order: seq<Id>, id: Id): seq<Id> {
    if order == [] then []
    else if order[0] == id then order[1..]
    else Behind(order[1..], id)
  }

  lemma {:induction false} BehindSplit(front: seq<Id>, id: Id, back: seq<Id>)
    requires id !in front
    ensures Behind(front + [id] + back, id) == back
  {
    var order := front + [id] + back;
    if front == [] {
      assert order[1..] == back;
    } else {
      assert order[0] == front[0] != id;
      assert order[1..] == front[1..] + [id] + back;
      BehindSplit(front[1..], id, back);
    }
  }

  lemma {:induction false} SplitAt(order: seq<Id>, id: Id) returns (front: seq<Id>)
    requires id in order && Distinct(order)
    ensures order == front + [id] + Behind(order, id) && id !in front && id !in Behind(order, id)
  {
    if order[0] == id {
      front := [];
    } else {
      var rest := SplitAt(order[1..], id);
      front := [order[0]] + rest;
    }
  }

  // The ids other than `id` that an operation, or a run, cancels.
  function Other(op: Op, id: Id): set<Id> {
    if op.Cancel? && op.id != id then {op.id} else {}
  }

  function Others(ops: seq<Op>, id: Id): set<Id> {
    set i | 0 <= i < |ops| && ops[i].Cancel? && ops[i].id != id :: ops[i].id
  }

  // No job begins under the id during the run.
  predicate NotBegun(s: Jobs, ops: seq<Op>, id: Id) {
    forall i :: 0 <= i < |ops| && ops[i] == Begin(id) ==> !CanBegin(Run(s, ops[..i]), id)
  }

  // What is behind a queued id after one operation, while its job does not begin.
  lemma {:induction false} BehindStep(s: Jobs, op: Op, id: Id)
    requires Sound(s) && id in s.order && (op == Begin(id) ==> !CanBegin(s, id))
    requires |Elements(Behind(s.order, id)) + Other(op, id)| < MAX_QUEUED
    ensures id in Step(s, op).order
    ensures Elements(Behind(Step(s, op).order, id)) <= Elements(Behind(s.order, id)) + Other(op, id)
  {
    match op
    case Begin(x) => if CanBegin(s, x) { BehindExcept(s.order, x, id); }
    case Cancel(x) =>
      if ValidId(x) && x !in s.active && x !in s.cancelled {
        assert x !in s.order;
        BehindPushed(s.order, x, id);
      }
    case CancelAll =>
    case Signal(flag) =>
    case Remove(x) =>
  }

  lemma {:induction false} BehindExcept(order: seq<Id>, x: Id, id: Id)
    requires id in order && x != id
    ensures id in Except(order, x)
    ensures Elements(Behind(Except(order, x), id)) <= Elements(Behind(order, id))
  {
    if order[0] == id {
      ExceptOf(order[1..], x);
      assert Except(order, x) == [id] + Except(order[1..], x);
    } else {
      BehindExcept(order[1..], x, id);
    }
  }

  lemma {:induction false} BehindPushed(order: seq<Id>, x: Id, id: Id)
    requires Distinct(order) && id in order && x !in order && |order| <= MAX_QUEUED
    requires |Elements(Behind(order, id)) + {x}| < MAX_QUEUED
    ensures id in Pushed(order, x)
    ensures Elements(Behind(Pushed(order, x), id)) == Elements(Behind(order, id)) + {x}
  {
    var front := SplitAt(order, id);
    var back := Behind(order, id);
    hide Behind, Distinct, Pushed;
    BehindIsShort(order, x, id, front);
    PushedSplit(front, id, back, x);
    BehindSplit(front, id, back + [x]);
    assert Elements(back + [x]) == Elements(back) + {x};
    if |order| == MAX_QUEUED {
      BehindSplit(front[1..], id, back + [x]);
    }
  }

  lemma PushedSplit(front: seq<Id>, id: Id, back: seq<Id>, x: Id)
    requires var n := |front + [id] + back|; n <= MAX_QUEUED && (n == MAX_QUEUED ==> front != [])
    ensures var order := front + [id] + back;
            Pushed(order, x) == (if |order| == MAX_QUEUED then front[1..] else front) + [id] + (back + [x])
  {
  }

  lemma {:induction false} BehindIsShort(order: seq<Id>, x: Id, id: Id, front: seq<Id>)
    requires Distinct(order) && x !in order && order == front + [id] + Behind(order, id)
    requires |Elements(Behind(order, id)) + {x}| < MAX_QUEUED
    ensures |order| == MAX_QUEUED ==> front != []
  {
    hide Behind;
    var back := Behind(order, id);
    assert Distinct(back + [x]) by {
      assert back + [x] == (order + [x])[|front| + 1..];
    }
    DistinctSize(back + [x]);
    assert Elements(back + [x]) == Elements(back) + {x};
  }

  lemma {:induction false} DistinctSize(order: seq<Id>)
    requires Distinct(order)
    ensures |Elements(order)| == |order|
  {
    if order != [] {
      DistinctSize(order[1..]);
      assert Elements(order) == {order[0]} + Elements(order[1..]);
    }
  }

  /**
   A queued id stays queued until its job begins, as long as the ids already
   behind it and those cancelled since number fewer than the queue holds.
   */
  lemma {:induction false} StaysQueued(s: Jobs, ops: seq<Op>, id: Id)
    requires Sound(s) && id in s.order && NotBegun(s, ops, id)
    requires |Elements(Behind(s.order, id)) + Others(ops, id)| < 256
    ensures id in Run(s, ops).order
    ensures Elements(Behind(Run(s, ops).order, id)) <= Elements(Behind(s.order, id)) + Others(ops, id)
  {
    if ops != [] {
      var init, op := ops[..|ops| - 1], ops[|ops| - 1];
      var before := Elements(Behind(s.order, id));
      OthersSnoc(ops, id);
      SubsetIsSmaller(before + Others(init, id), before + Others(ops, id));
      assert forall i :: 0 <= i < |init| ==> init[..i] == ops[..i];
      StaysQueued(s, init, id);
      RunKeepsSound(s, init);
      var now := Run(s, init);
      SubsetIsSmaller(Elements(Behind(now.order, id)) + Other(op, id), before + Others(ops, id));
      BehindStep(now, op, id);
    }
  }

  lemma OthersSnoc(ops: seq<Op>, id: Id)
    requires ops != []
    ensures Others(ops, id) == Others(ops[..|ops| - 1], id) + Other(ops[|ops| - 1], id)
  {
  }

  lemma {:induction false} RunConcat(s: Jobs, a: seq<Op>, b: seq<Op>)
    ensures Run(s, a + b) == Run(Run(s, a), b)
    decreases |b|
  {
    if b == [] {
      assert a + b == a;
    } else {
      assert (a + b)[..|a + b| - 1] == a + b[..|b| - 1];
      RunConcat(s, a, b[..|b| - 1]);
    }
  }

  lemma {:induction false} NotBegunAfter(s: Jobs, a: seq<Op>, b: seq<Op>, id: Id)
    requires forall j :: |a| <= j < |a + b| && (a + b)[j] == Begin(id) ==> !CanBegin(Run(s, (a + b)[..j]), id)
    ensures NotBegun(Run(s, a), b, id)
  {
    hide CanBegin, Run;
    forall i | 0 <= i < |b| && b[i] == Begin(id)
      ensures !CanBegin(Run(Run(s, a), b[..i]), id)
    {
      assert (a + b)[|a| + i] == b[i];
      assert (a + b)[..|a| + i] == a + b[..i];
      RunConcat(s, a, b[..i]);
    }
  }

  /**
   A cancellation that arrives before its job: the id goes into the queue at step
   `i`, no job begins under it afterwards, and fewer than 256 other ids are
   cancelled. The job then begins cancelled.
   */
  lemma {:induction false} CancelBeforeBegin(ops: seq<Op>, i: nat, id: Id)
    requires i < |ops| && ops[i] == Cancel(id) && ValidId(id)
    requires id !in Run(EMPTY, ops[..i]).active && id !in Run(EMPTY, ops[..i]).cancelled
    requires forall j :: i < j < |ops| && ops[j] == Begin(id) ==> !CanBegin(Run(EMPTY, ops[..j]), id)
    requires |Others(ops[i + 1..], id)| < 256
    requires CanBegin(Run(EMPTY, ops), id)
    ensures var after := Step(Run(EMPTY, ops), Begin(id));
            id in after.active && after.active[id] < |after.flags| && after.flags[after.active[id]]
  {
    hide *;
    var s := Run(EMPTY, ops[..i]);
    EmptyIsSound();
    RunKeepsSound(EMPTY, ops[..i]);
    RunsSince(ops, i, id);
    StaysSince(s, ops[i + 1..], id);
    RunKeepsSound(EMPTY, ops);
    BeginsCancelled(Run(EMPTY, ops), id);
  }

  lemma EmptyIsSound()
    ensures Sound(EMPTY)
  {
  }

  // The run after step `i` starts from the state that step left.
  lemma {:induction false} RunsSince(ops: seq<Op>, i: nat, id: Id)
    requires i < |ops| && ops[i] == Cancel(id)
    requires forall j :: i < j < |ops| && ops[j] == Begin(id) ==> !CanBegin(Run(EMPTY, ops[..j]), id)
    ensures var queued := Step(Run(EMPTY, ops[..i]), Cancel(id));
            Run(EMPTY, ops) == Run(queued, ops[i + 1..]) && NotBegun(queued, ops[i + 1..], id)
  {
    hide *;
    var first, rest := ops[..i + 1], ops[i + 1..];
    assert first + rest == ops;
    RunSnoc(EMPTY, ops, i);
    RunConcat(EMPTY, first, rest);
    NotBegunAfter(EMPTY, first, rest, id);
  }

  // An id queued afresh stays queued while its job does not begin and fewer than 256 others are cancelled.
  lemma {:induction false} StaysSince(s: Jobs, rest: seq<Op>, id: Id)
    requires Sound(s) && ValidId(id) && id !in s.active && id !in s.cancelled
    requires NotBegun(Step(s, Cancel(id)), rest, id) && |Others(rest, id)| < 256
    ensures id in Run(Step(s, Cancel(id)), rest).order
  {
    hide *;
    FreshIsLast(s, id);
    StepKeepsSound(s, Cancel(id));
    assert {} + Others(rest, id) == Others(rest, id);
    StaysQueued(Step(s, Cancel(id)), rest, id);
  }

  lemma {:induction false} RunSnoc(s: Jobs, ops: seq<Op>, i: nat)
    requires i < |ops|
    ensures Run(s, ops[..i + 1]) == Step(Run(s, ops[..i]), ops[i])
  {
    assert ops[..i + 1][..i] == ops[..i];
  }

  lemma BeginsCancelled(s: Jobs, id: Id)
    requires Sound(s) && CanBegin(s, id)
    ensures var after := Step(s, Begin(id));
            id in after.active && after.active[id] < |after.flags|
            && (after.flags[after.active[id]] <==> id in s.order)
  {
  }

  lemma {:induction false} FreshIsLast(s: Jobs, id: Id)
    requires Sound(s) && ValidId(id) && id !in s.active && id !in s.cancelled
    ensures id in Step(s, Cancel(id)).order
    ensures Behind(Step(s, Cancel(id)).order, id) == [] && Elements(Behind(Step(s, Cancel(id)).order, id)) == {}
  {
    assert id !in s.order;
    PushedOf(s.order, id);
    var front := if |s.order| == MAX_QUEUED then s.order[1..] else s.order;
    assert front + [id] + [] == Pushed(s.order, id);
    BehindSplit(front, id, []);
  }

  // Step `i` cancels an inactive id, and no job begins under the id afterwards.
  predicate WaitsSince(ops: seq<Op>, i: nat, id: Id) {
    i < |ops| && ops[i] == Cancel(id) && id !in Run(EMPTY, ops[..i]).active
    && forall j :: i < j < |ops| && ops[j] == Begin(id) ==> !CanBegin(Run(EMPTY, ops[..j]), id)
  }

  lemma {:induction false} WaitsLonger(ops: seq<Op>, i: nat, id: Id)
    requires ops != [] && WaitsSince(ops[..|ops| - 1], i, id)
    requires ops[|ops| - 1] == Begin(id) ==> !CanBegin(Run(EMPTY, ops[..|ops| - 1]), id)
    ensures WaitsSince(ops, i, id)
  {
    hide Run, CanBegin;
    var init := ops[..|ops| - 1];
    assert init[..i] == ops[..i];
    forall j | i < j < |ops| && ops[j] == Begin(id) ensures !CanBegin(Run(EMPTY, ops[..j]), id) {
      if j < |init| {
        assert init[..j] == ops[..j] && init[j] == ops[j];
      }
    }
  }

  /** Only a cancellation with no begin after it leaves an id queued. */
  lemma {:induction false} QueuedWasCancelled(ops: seq<Op>, id: Id) returns (i: nat)
    requires id in Run(EMPTY, ops).order
    ensures WaitsSince(ops, i, id)
  {
    assert ops != [];
    var n := |ops| - 1;
    var init := ops[..n];
    var s := Run(EMPTY, init);
    assert Run(EMPTY, ops) == Step(s, ops[n]);
    if id in s.order {
      hide *;
      i := QueuedWasCancelled(init, id);
      BeginUnqueues(s, ops[n], id);
      WaitsLonger(ops, i, id);
    } else {
      hide Run, Step, CanBegin;
      QueuedByCancel(s, ops[n], id);
      i := n;
    }
  }

  lemma BeginUnqueues(s: Jobs, op: Op, id: Id)
    requires id in Step(s, op).order
    ensures op == Begin(id) ==> !CanBegin(s, id)
  {
    if op == Begin(id) {
      ExceptOf(s.order, id);
      assert id in Except(s.order, id) ==> id in Elements(Except(s.order, id));
    }
  }

  lemma {:induction false} ExceptIsPart(order: seq<Id>, x: Id, id: Id)
    requires id !in order
    ensures id !in Except(order, x)
  {
    if order != [] {
      ExceptIsPart(order[1..], x, id);
    }
  }

  lemma QueuedByCancel(s: Jobs, op: Op, id: Id)
    requires id !in s.order && id in Step(s, op).order
    ensures op == Cancel(id) && id !in s.active
  {
    if op.Begin? {
      ExceptIsPart(s.order, op.id, id);
    }
  }

  // ---------------------------------------------- how long a place in the queue lasts

  function Cancels(ids: seq<Id>): seq<Op> {
    seq(|ids|, i requires 0 <= i < |ids| => Cancel(ids[i]))
  }

  // Ids that can be queued one after another.
  predicate Newcomers(s: Jobs, ids: seq<Id>) {
    Distinct(ids) && forall i :: 0 <= i < |ids| ==> ValidId(ids[i]) && ids[i] !in s.active && ids[i] !in s.order
  }

  function Excess(n: int): nat {
    if n > MAX_QUEUED then n - MAX_QUEUED else 0
  }

  // The queue once the first `k` newcomers are cancelled.
  function QueueWith(order: seq<Id>, ids: seq<Id>, k: nat): seq<Id>
    requires k <= |ids|
  {
    (order + ids[..k])[Excess(|order| + k)..]
  }

  lemma {:induction false} QueueAfter(s: Jobs, ids: seq<Id>, k: nat)
    requires Sound(s) && Newcomers(s, ids) && k <= |ids|
    ensures Run(s, Cancels(ids[..k])).active == s.active
    ensures Run(s, Cancels(ids[..k])).order == QueueWith(s.order, ids, k)
    decreases k
  {
    if k == 0 {
      assert Cancels(ids[..0]) == [];
    } else {
      var before := Run(s, Cancels(ids[..k - 1]));
      QueueAfter(s, ids, k - 1);
      CancelsSnoc(s, ids, k);
      RunKeepsSound(s, Cancels(ids[..k - 1]));
      QueueNames(s.order, ids, k - 1, ids[k - 1]);
      QueueGrows(s.order, ids, k);
      hide *;
      CancelQueues(before, ids[k - 1]);
    }
  }

  lemma {:induction false} CancelsSnoc(s: Jobs, ids: seq<Id>, k: nat)
    requires 0 < k <= |ids|
    ensures Run(s, Cancels(ids[..k])) == Step(Run(s, Cancels(ids[..k - 1])), Cancel(ids[k - 1]))
  {
    hide Step;
    assert Cancels(ids[..k])[..k - 1] == Cancels(ids[..k - 1]);
  }

  lemma QueueNames(order: seq<Id>, ids: seq<Id>, k: nat, x: Id)
    requires k <= |ids| && x !in order && forall i :: 0 <= i < k ==> ids[i] != x
    ensures x !in QueueWith(order, ids, k)
  {
  }

  lemma CancelQueues(s: Jobs, id: Id)
    requires Sound(s) && ValidId(id) && id !in s.active && id !in s.order
    ensures Step(s, Cancel(id)).order == Pushed(s.order, id) && Step(s, Cancel(id)).active == s.active
  {
  }

  lemma QueueGrows(order: seq<Id>, ids: seq<Id>, k: nat)
    requires 0 < k <= |ids| && |order| <= MAX_QUEUED
    ensures Pushed(QueueWith(order, ids, k - 1), ids[k - 1]) == QueueWith(order, ids, k)
  {
    assert order + ids[..k] == order + ids[..k - 1] + [ids[k - 1]];
  }

  /** As many newcomers as there is room behind it push an id out. */
  lemma {:induction false} NewcomersEvict(s: Jobs, id: Id, ids: seq<Id>)
    requires Sound(s) && id in s.order && Newcomers(s, ids)
    requires |ids| + |Behind(s.order, id)| == 256
    ensures id !in Run(s, Cancels(ids)).order
  {
    assert ids[..|ids|] == ids && id !in ids;
    QueueAfter(s, ids, |ids|);
    var front := SplitAt(s.order, id);
    hide *;
    PushedOut(front, id, Behind(s.order, id), ids);
    assert id !in Behind(s.order, id) + ids;
  }

  lemma PushedOut(front: seq<Id>, id: Id, back: seq<Id>, ids: seq<Id>)
    requires |ids| + |back| == MAX_QUEUED
    ensures QueueWith(front + [id] + back, ids, |ids|) == back + ids
  {
    var order := front + [id] + back;
    assert ids[..|ids|] == ids && Excess(|order| + |ids|) == |front| + 1;
    assert (order + ids)[|front| + 1..] == back + ids;
  }

  /** However the run goes on, the id stays queued: at most `k` other ids are cancelled. */
  ghost predicate Guaranteed(s: Jobs, id: Id, k: nat) {
    forall ops :: NotBegun(s, ops, id) && |Others(ops, id)| <= k ==> id in Run(s, ops).order
  }

  // Plenty of ids: the two-letter names.
  function Name(n: nat): Id
    requires n < 676
  {
    ['a' + (n / 26) as char, 'a' + (n % 26) as char]
  }

  lemma NameIsOneToOne(m: nat, n: nat)
    requires m < n < 676
    ensures Name(m) != Name(n)
  {
    assert m / 26 != n / 26 || m % 26 != n % 26;
  }

  lemma NameIsValid(n: nat)
    requires n < 676
    ensures ValidId(Name(n))
  {
  }

  function Names(n: nat): set<Id>
    requires n <= 676
  {
    set i | 0 <= i < n :: Name(i)
  }

  lemma {:induction false} NamesAreMany(n: nat)
    requires n <= 676
    ensures |Names(n)| == n
    ensures forall x :: x in Names(n) ==> ValidId(x)
  {
    if n > 0 {
      NamesAreMany(n - 1);
      hide ValidId;
      forall i | 0 <= i < n - 1 ensures Name(i) != Name(n - 1) {
        NameIsOneToOne(i, n - 1);
      }
      hide Name;
      assert Names(n) == Names(n - 1) + {Name(n - 1)};
      NameIsValid(n - 1);
    }
  }

  lemma {:induction false} Pick(pool: set<Id>, n: nat) returns (ids: seq<Id>)
    requires n <= |pool|
    ensures |ids| == n && Distinct(ids) && forall i :: 0 <= i < n ==> ids[i] in pool
  {
    if n == 0 {
      ids := [];
    } else {
      var x :| x in pool;
      var rest := Pick(pool - {x}, n - 1);
      ids := [x] + rest;
    }
  }

  lemma NewcomersExist(s: Jobs, n: nat) returns (ids: seq<Id>)
    requires Sound(s) && n <= MAX_QUEUED
    ensures |ids| == n && Newcomers(s, ids)
  {
    NamesAreMany(676);
    DistinctSize(s.order);
    var used := s.active.Keys + Elements(s.order);
    assert |used| <= |s.active.Keys| + |Elements(s.order)|;
    var pool := Names(676) - used;
    PoolSize(Names(676), used);
    hide Names;
    ids := Pick(pool, n);
  }

  lemma PoolSize(all: set<Id>, used: set<Id>)
    ensures |all - used| >= |all| - |used|
  {
    SubsetIsSmaller(all, (all - used) + used);
  }

  lemma CancelsOthers(s: Jobs, ids: seq<Id>, id: Id)
    requires id !in ids
    ensures Others(Cancels(ids), id) == Elements(ids) && NotBegun(s, Cancels(ids), id)
  {
    var ops := Cancels(ids);
    forall x | x in ids ensures x in Others(ops, id) {
      var i :| 0 <= i < |ids| && ids[i] == x;
      assert ops[i] == Cancel(x);
    }
  }

  /** The place of a queued id lasts exactly for the cancellations there is room for behind it. */
  lemma {:induction false} GuaranteeIsExact(s: Jobs, id: Id, k: nat)
    requires Sound(s) && id in s.order
    ensures Guaranteed(s, id, k) <==> |Behind(s.order, id)| + k < 256
  {
    if |Behind(s.order, id)| + k < MAX_QUEUED {
      forall ops | NotBegun(s, ops, id) && |Others(ops, id)| <= k
        ensures id in Run(s, ops).order
      {
        RoomBehind(s, ops, id, k);
        StaysQueued(s, ops, id);
      }
    } else {
      var front := SplitAt(s.order, id);
      var ids := NewcomersExist(s, MAX_QUEUED - |Behind(s.order, id)|);
      NewcomersEvict(s, id, ids);
      CancelsOthers(s, ids, id);
      DistinctSize(ids);
    }
  }

  lemma {:induction false} RoomBehind(s: Jobs, ops: seq<Op>, id: Id, k: nat)
    requires Sound(s) && id in s.order && |Behind(s.order, id)| + k < MAX_QUEUED && |Others(ops, id)| <= k
    ensures |Elements(Behind(s.order, id)) + Others(ops, id)| < MAX_QUEUED
  {
    var front := SplitAt(s.order, id);
    assert Behind(s.order, id) == s.order[|front| + 1..];
    assert Distinct(Behind(s.order, id));
    DistinctSize(Behind(s.order, id));
  }

  /**
   Counting from the latest cancellation of an id is one thing, counting from the
   one that queued it another: a repeated cancellation refreshes nothing. The
   latest one covers 255 other cancellations exactly when it queued the id or
   found it last in the queue.
   */
  lemma LatestCancel(s: Jobs, id: Id)
    requires Sound(s) && ValidId(id) && id !in s.active
    ensures Guaranteed(Step(s, Cancel(id)), id, 255)
       <==> (id !in s.order || s.order[|s.order| - 1] == id)
  {
    var after := Step(s, Cancel(id));
    StepKeepsSound(s, Cancel(id));
    if id in s.order {
      assert after == s;
      var front := SplitAt(s.order, id);
      assert Behind(s.order, id) == [] <==> s.order[|s.order| - 1] == id;
    } else {
      FreshIsLast(s, id);
    }
    GuaranteeIsExact(after, id, MAX_QUEUED - 1);
  }

  lemma TwoQueued()
    ensures var s := Run(EMPTY, [Cancel("a"), Cancel("b")]); s.order == ["a", "b"] && s.active == map[]
  {
    var one := [Cancel("a")];
    assert one[..0] == [] && [Cancel("a"), Cancel("b")][..1] == one;
    assert ValidId("a") && ValidId("b") && "a"[0] != "b"[0];
    assert Run(EMPTY, one) == Step(EMPTY, Cancel("a"));
    assert Step(EMPTY, Cancel("a")).order == ["a"] && Elements(["a"]) == {"a"};
  }

  /** A second cancellation of an id with another one behind it does not cover 255 others. */
  lemma RepeatedCancelIsNotEnough()
    ensures var s := Run(EMPTY, [Cancel("a"), Cancel("b")]);
            Sound(s) && "a" !in s.active && !Guaranteed(Step(s, Cancel("a")), "a", 255)
  {
    var s := Run(EMPTY, [Cancel("a"), Cancel("b")]);
    TwoQueued();
    EmptyIsSound();
    assert ValidId("a") && "a"[0] != "b"[0];
    hide Run, Step, Guaranteed, Sound, ValidId;
    RunKeepsSound(EMPTY, [Cancel("a"), Cancel("b")]);
    LatestCancel(s, "a");
  }

  // --------------------------------------------------------------- the jobs

  datatype Failure = InvalidId | Busy

  datatype PreflightJob = PreflightJob(id: Id, cancel: Flag)

  lemma BeginKeepsSoundIfAny(s: Jobs, id: Id)
    requires Sound(s)
    ensures CanBegin(s, id) ==> Sound(Begun(s, id))
  {
    if CanBegin(s, id) {
      BeginKeepsSound(s, id);
    }
  }

  lemma CancelledAre(s: Jobs)
    requires Sound(s)
    ensures s.cancelled == Elements(s.order) && Distinct(s.order) && |s.order| <= MAX_QUEUED
    ensures forall id :: id in s.cancelled <==> id in s.order
    ensures s.cancelled !! s.active.Keys && forall id :: id in s.active ==> s.active[id] < |s.flags|
  {
  }

  // Pushing an id and popping the oldest while there are too many.
  lemma PushAndPop(order: seq<Id>, cancelled: set<Id>, id: Id)
    requires Distinct(order) && |order| <= MAX_QUEUED && cancelled == Elements(order) && id !in cancelled
    ensures Elements(order + [id]) == cancelled + {id}
    ensures |order| == MAX_QUEUED ==>
              (order + [id])[1..] == Pushed(order, id)
              && Elements(Pushed(order, id)) == cancelled + {id} - {(order + [id])[0]}
    ensures |order| < MAX_QUEUED ==> order + [id] == Pushed(order, id)
    ensures |Pushed(order, id)| <= MAX_QUEUED
  {
    PushedOf(order, id);
    if |order| == MAX_QUEUED {
      assert Elements(order) == {order[0]} + Elements(order[1..]);
      assert Elements(order[1..] + [id]) == Elements(order[1..]) + {id};
    }
  }

  // The flags once those of some active ids are raised.
  function RaisedFor(s: Jobs, seen: set<Id>): seq<bool> {
    seq(|s.flags|, f requires 0 <= f < |s.flags| =>
      s.flags[f] || exists id :: id in seen && id in s.active && s.active[id] == f)
  }

  lemma FlagsInRange(s: Jobs)
    requires Sound(s)
    ensures forall id :: id in s.active ==> s.active[id] < |s.flags|
  {
  }

  lemma RaisedNone(s: Jobs)
    ensures RaisedFor(s, {}) == s.flags
  {
  }

  lemma RaisedOne(s: Jobs, seen: set<Id>, id: Id)
    requires id in s.active && s.active[id] < |s.flags|
    ensures |RaisedFor(s, seen)| == |s.flags|
    ensures RaisedFor(s, seen)[s.active[id] := true] == RaisedFor(s, seen + {id})
  {
  }

  lemma MoveOne(all: set<Id>, left: set<Id>, id: Id)
    requires left <= all && id in left
    ensures left - {id} <= all && (all - left) + {id} == all - (left - {id})
  {
  }

  lemma AllMoved(all: set<Id>)
    ensures all - {} == all
  {
  }

  lemma RaisedEvery(s: Jobs)
    ensures Step(s, CancelAll) == s.(flags := RaisedFor(s, s.active.Keys))
  {
    assert CancelEvery(s).flags == RaisedFor(s, s.active.Keys);
  }

  class PreflightJobs {
    var active: map<Id, Flag>
    var cancelled: set<Id>
    var order: seq<Id>
    var flags: seq<bool>
    // The jobs that were begun and not yet dropped.
    ghost var owners: set<PreflightJob>

    constructor ()
      ensures Valid() && State() == EMPTY && owners == {}
    {
      active := map[];
      cancelled := {};
      order := [];
      flags := [];
      owners := {};
    }

    function State(): Jobs
      reads this
    {
      Jobs(active, cancelled, order, flags)
    }

    /** The active ids are those of the live jobs, one job each, with the job's own flag. */
    ghost predicate Valid()
      reads this
    {
      Sound(State())
      && (forall id :: id in active ==> PreflightJob(id, active[id]) in owners)
      && forall job :: job in owners ==> job.id in active && active[job.id] == job.cancel
    }

    method Begin(id: Id) returns (r: Result<PreflightJob, Failure>)
      requires Valid()
      modifies this
      ensures Valid() && State() == Step(old(State()), Op.Begin(id))
      ensures r.Ok? <==> IsPlainId(id) && id !in old(active) && old(|active|) < 64
      ensures r.Err? ==> r.error == (if IsPlainId(id) then Busy else InvalidId) && owners == old(owners)
      ensures r.Ok? ==> r.value.id == id && r.value !in old(owners) && owners == old(owners) + {r.value}
                        && r.value.cancel == old(|flags|) && flags[r.value.cancel] == (id in old(order))
    {
      IdIsRead(id);
      BeginKeepsSoundIfAny(State(), id);
      CancelledAre(State());
      hide Except, Distinct, Sound, Elements, ValidId, IsPlainId;
      if !ValidId(id) { return Err(InvalidId); }
      if id in active || |active| >= MAX_ACTIVE { return Err(Busy); }
      var cancel := |flags|;
      flags := flags + [id in cancelled];
      cancelled := cancelled - {id};
      order := Except(order, id);
      active := active[id := cancel];
      var job := PreflightJob(id, cancel);
      owners := owners + {job};
      r := Ok(job);
    }

    method Cancel(id: Id) returns (r: Result<(), Failure>)
      requires Valid()
      modifies this`cancelled, this`order, this`flags
      ensures Valid() && State() == Step(old(State()), Op.Cancel(id))
      ensures r == if IsPlainId(id) then Ok(()) else Err(InvalidId)
    {
      IdIsRead(id);
      if !ValidId(id) { return Err(InvalidId); }
      StepKeepsSound(State(), Op.Cancel(id));
      CancelledAre(State());
      hide Sound, Distinct, Elements, Pushed;
      if id in active {
        flags := flags[active[id] := true];
      } else if id !in cancelled {
        ghost var queue := order;
        PushAndPop(queue, cancelled, id);
        cancelled := cancelled + {id};
        order := order + [id];
        while |order| > MAX_QUEUED
          invariant order == queue + [id] || order == Pushed(queue, id)
          invariant cancelled == Elements(order) && flags == old(flags)
          decreases |order|
        {
          var oldest := order[0];
          order := order[1..];
          cancelled := cancelled - {oldest};
        }
      }
      r := Ok(());
    }

    /** Raises the flag of every active job. */
    method CancelAll()
      requires Valid()
      modifies this`flags
      ensures Valid() && State() == Step(old(State()), Op.CancelAll)
    {
      StepKeepsSound(State(), Op.CancelAll);
      ghost var before := State();
      FlagsInRange(before);
      RaisedNone(before);
      RaisedEvery(before);
      hide Sound, RaisedFor, Step;
      var left := active.Keys;
      ghost var seen: set<Id> := {};
      while left != {}
        invariant left <= active.Keys && seen == active.Keys - left
        invariant flags == RaisedFor(before, seen)
        decreases left
      {
        var id :| id in left;
        RaisedOne(before, seen, id);
        MoveOne(active.Keys, left, id);
        left := left - {id};
        seen := seen + {id};
        flags := flags[active[id] := true];
      }
      AllMoved(active.Keys);
    }

    /** The first half of dropping a job: its own flag goes up, outside the lock. */
    method Signal(job: PreflightJob)
      requires Valid() && job in owners
      modifies this`flags
      ensures Valid() && State() == Step(old(State()), Op.Signal(job.cancel))
    {
      flags := flags[job.cancel := true];
    }

    /** The second half: the entry removed is the job's own, and no other job is touched. */
    method Remove(job: PreflightJob)
      requires Valid() && job in owners
      modifies this`active, this`owners
      ensures Valid() && State() == Step(old(State()), Op.Remove(job.id))
      ensures owners == old(owners) - {job} && old(active)[job.id] == job.cancel
    {
      RemoveKeepsSound(State(), job.id);
      active := active - {job.id};
      owners := owners - {job};
    }
  }
}
