/** The worker itself: its statements and its pass over the queue, as steps of the queue model. */
module PushWorker {
  import opened Common
  import opened Text
  import opened Backoff
  import opened Deliveries
  import opened PushQueue

  // --- Runs -------------------------------------------------------------------------

  lemma RunOneMore(s: State, actions: seq<Action>, a: Action)
    ensures Run(s, actions + [a]) == Step(Run(s, actions), a)
  {
    assert Init(actions + [a]) == actions;
  }

  lemma {:induction false} RunAppend(s: State, a: seq<Action>, b: seq<Action>)
    ensures Run(s, a + b) == Run(Run(s, a), b)
  {
    if b == [] {
      assert a + b == a;
    } else {
      assert Init(a + b) == a + Init(b);
      RunAppend(s, a, Init(b));
    }
  }

  lemma RunTwo(s: State, a: Action, b: Action)
    ensures Run(s, [a, b]) == Step(Step(s, a), b)
  {
    RunOneMore(s, [], a);
    assert [] + [a] == [a] && [a] + [b] == [a, b];
    RunOneMore(s, [a], b);
  }

  lemma {:induction false} StepsKeepInv(s: State, actions: seq<Action>)
    requires Inv(s)
    ensures Inv(Run(s, actions))
  {
    if actions != [] {
      StepsKeepInv(s, Init(actions));
      StepKeepsInv(Run(s, Init(actions)), Last(actions));
    }
  }

  // --- One item ----------------------------------------------------------------------

  /** How the delivery to each subscription of an item ends, and the seconds they take together. */
  datatype Attempt = Attempt(report: Subscription -> Delivery, seconds: nat)

  function ResultsOf(tried: seq<Subscription>, attempt: Attempt): seq<Completion> {
    Completions(tried, seq(|tried|, i requires 0 <= i < |tried| => attempt.report(tried[i])))
  }

  function StepsOf(tried: seq<Subscription>, attempt: Attempt): seq<Action> {
    var results := ResultsOf(tried, attempt);
    [Claim(tried), Tick(attempt.seconds), DropDead(results), Settle(results)]
  }

  lemma ResultsReport(tried: seq<Subscription>, attempt: Attempt)
    ensures ReportOn(tried, ResultsOf(tried, attempt))
  {
    var d: seq<Delivery> := seq(|tried|, i requires 0 <= i < |tried| => attempt.report(tried[i]));
    assert multiset(ResultsOf(tried, attempt)) == multiset(Completions(tried, d));
  }

  ghost predicate NextIs(s: State, id: int64) {
    s.worker.Running? && s.worker.todo != [] && s.worker.todo[0] == id
  }

  /** The next selected item is there to be claimed, and `tried` lists whom it is for. */
  ghost predicate Ready(s: State, id: int64, tried: seq<Subscription>) {
    && NextIs(s, id) && Claimable(s, id) && id in s.passes && 0 <= s.queue[id].retryCount <= 2
    && Lists(tried, Targets(s.subscriptions, s.queue[id]))
  }

  lemma PendingCount(s: State, id: int64)
    requires Inv(s) && Claimable(s, id)
    ensures id in s.passes && 0 <= s.queue[id].retryCount <= 2
  {
    assert ItemOk(s.queue[id], s.passes[id]);
  }

  lemma SettleForgetsClaim(item: Item, id: int64, results: seq<Completion>, at: int, now: int)
    requires 0 <= item.retryCount < LAST_ID
    ensures SettleItem(PushQueue.ClaimItem(item, at), id, item.retryCount, results, now) ==
            SettleItem(item, id, item.retryCount, results, now)
  {
  }

  /** The state while the deliveries of a claimed item run, `seconds` after the claim. */
  ghost function Waiting(s: State, id: int64, tried: seq<Subscription>, seconds: nat): State
    requires NextIs(s, id) && Claimable(s, id)
  {
    s.(now := s.now + seconds,
       queue := s.queue[id := PushQueue.ClaimItem(s.queue[id], s.now)],
       worker := Delivering(s.worker.todo[1..], id, s.queue[id].retryCount, tried))
  }

  lemma ClaimEffect(s: State, id: int64, tried: seq<Subscription>)
    requires NextIs(s, id) && Claimable(s, id) && Lists(tried, Targets(s.subscriptions, s.queue[id]))
    ensures Step(s, Claim(tried)) == Waiting(s, id, tried, 0)
  {
  }

  lemma TickEffect(s: State, seconds: nat)
    ensures Step(s, Tick(seconds)) == s.(now := s.now + seconds)
  {
  }

  lemma ClaimAndWait(s: State, id: int64, tried: seq<Subscription>, seconds: nat)
    requires Ready(s, id, tried)
    ensures Run(s, [Claim(tried), Tick(seconds)]) == Waiting(s, id, tried, seconds)
  {
    RunTwo(s, Claim(tried), Tick(seconds));
    ClaimEffect(s, id, tried);
    TickEffect(Waiting(s, id, tried, 0), seconds);
  }

  /** What each verdict makes of an item. */
  function Marked(item: Item, id: int64, verdict: Verdict, failures: nat, now: int): Item
    requires 0 <= item.retryCount < LAST_ID
  {
    match verdict
    case SomeDelivered => MarkSent(item, failures, now)
    case NothingLeftToTry => MarkTerminalFailure(item, now)
    case WorthRetrying => MarkFailed(item, id, item.retryCount, failures, now)
  }

  lemma MarkedIsSettled(item: Item, id: int64, results: seq<Completion>, failures: nat, now: int)
    requires 0 <= item.retryCount < LAST_ID && failures + Count(results, Succeeded) == |results|
    ensures Marked(item, id, VerdictOf(results), failures, now) == SettleItem(item, id, item.retryCount, results, now)
  {
    VerdictCases(results);
  }

  ghost function SettledState(s: State, id: int64, results: seq<Completion>): State
    requires s.worker.Delivering? && 0 <= s.worker.retryCount < LAST_ID && id in s.queue && id in s.passes
  {
    s.(queue := s.queue[id := SettleItem(s.queue[id], id, s.worker.retryCount, results, s.now)],
       passes := s.passes[id := s.passes[id] + 1], worker := Running(s.worker.todo))
  }

  lemma SettleEffect(s: State, id: int64, results: seq<Completion>)
    requires Reported(s, results) && s.worker.id == id && id in s.queue && id in s.passes
    ensures Step(s, Settle(results)) == SettledState(s, id, results)
  {
  }

  /** The state after the next selected item has been claimed, delivered and marked. */
  ghost function AfterItem(s: State, id: int64, tried: seq<Subscription>, attempt: Attempt): State
    requires Ready(s, id, tried)
  {
    var t, results := s.now + attempt.seconds, ResultsOf(tried, attempt);
    s.(now := t,
       queue := s.queue[id := SettleItem(s.queue[id], id, s.queue[id].retryCount, results, t)],
       subscriptions := s.subscriptions - Deleted(s.subscriptions, tried, DeadEndpoints(results)),
       passes := s.passes[id := s.passes[id] + 1],
       worker := Running(s.worker.todo[1..]))
  }

  lemma WaitingReported(s: State, id: int64, tried: seq<Subscription>, attempt: Attempt)
    requires Ready(s, id, tried)
    ensures Reported(Waiting(s, id, tried, attempt.seconds), ResultsOf(tried, attempt))
  {
    ResultsReport(tried, attempt);
  }

  /** The same state after the dead subscriptions have been dropped. */
  ghost function Dropped(s: State, id: int64, tried: seq<Subscription>, attempt: Attempt): State
    requires Ready(s, id, tried)
  {
    Waiting(s, id, tried, attempt.seconds).(
      subscriptions := s.subscriptions - Deleted(s.subscriptions, tried, DeadEndpoints(ResultsOf(tried, attempt))))
  }

  lemma DropEffect(s: State, id: int64, tried: seq<Subscription>, attempt: Attempt)
    requires Ready(s, id, tried)
    ensures
      Step(Waiting(s, id, tried, attempt.seconds), DropDead(ResultsOf(tried, attempt))) ==
      Dropped(s, id, tried, attempt)
  {
    WaitingReported(s, id, tried, attempt);
    DropDeadEffect(Waiting(s, id, tried, attempt.seconds), ResultsOf(tried, attempt));
  }

  lemma DroppedReported(s: State, id: int64, tried: seq<Subscription>, attempt: Attempt)
    requires Ready(s, id, tried)
    ensures Reported(Dropped(s, id, tried, attempt), ResultsOf(tried, attempt))
  {
    ResultsReport(tried, attempt);
  }

  lemma SameSettledQueue(queue: map<int64, Item>, id: int64, results: seq<Completion>, at: int, now: int)
    requires id in queue && 0 <= queue[id].retryCount < LAST_ID
    ensures
      var claimed := PushQueue.ClaimItem(queue[id], at);
      queue[id := claimed][id := SettleItem(claimed, id, queue[id].retryCount, results, now)] ==
      queue[id := SettleItem(queue[id], id, queue[id].retryCount, results, now)]
  {
    SettleForgetsClaim(queue[id], id, results, at, now);
  }

  lemma DroppedThenSettled(s: State, id: int64, tried: seq<Subscription>, attempt: Attempt)
    requires Ready(s, id, tried)
    ensures
      var dropped, results := Dropped(s, id, tried, attempt), ResultsOf(tried, attempt);
      SettledState(dropped, id, results) == AfterItem(s, id, tried, attempt)
  {
    SameSettledQueue(s.queue, id, ResultsOf(tried, attempt), s.now, s.now + attempt.seconds);
  }

  lemma SettleAfterDrop(s: State, id: int64, tried: seq<Subscription>, attempt: Attempt)
    requires Ready(s, id, tried)
    ensures Step(Dropped(s, id, tried, attempt), Settle(ResultsOf(tried, attempt))) == AfterItem(s, id, tried, attempt)
  {
    DroppedReported(s, id, tried, attempt);
    DroppedThenSettled(s, id, tried, attempt);
    SettleEffect(Dropped(s, id, tried, attempt), id, ResultsOf(tried, attempt));
  }

  /** The last two statements settle the item. */
  lemma DropAndSettle(s: State, id: int64, tried: seq<Subscription>, attempt: Attempt)
    requires Ready(s, id, tried)
    ensures
      var results := ResultsOf(tried, attempt);
      Step(Step(Waiting(s, id, tried, attempt.seconds), DropDead(results)), Settle(results)) ==
      AfterItem(s, id, tried, attempt)
  {
    DropEffect(s, id, tried, attempt);
    SettleAfterDrop(s, id, tried, attempt);
  }

  lemma StepsSettle(s: State, id: int64, tried: seq<Subscription>, attempt: Attempt)
    requires Ready(s, id, tried)
    ensures Run(s, StepsOf(tried, attempt)) == AfterItem(s, id, tried, attempt)
  {
    var results := ResultsOf(tried, attempt);
    var first, second := [Claim(tried), Tick(attempt.seconds)], [DropDead(results), Settle(results)];
    assert first + second == StepsOf(tried, attempt);
    RunAppend(s, first, second);
    ClaimAndWait(s, id, tried, attempt.seconds);
    RunTwo(Waiting(s, id, tried, attempt.seconds), DropDead(results), Settle(results));
    DropAndSettle(s, id, tried, attempt);
  }

  // --- A whole pass --------------------------------------------------------------------

  /** The statements and waits for the selected items, one item after another. */
  function ItemSteps(batch: seq<int64>, tries: seq<seq<Subscription>>, attempts: int64 -> Attempt): seq<Action>
    requires |tries| == |batch|
  {
    if batch == [] then []
    else ItemSteps(Init(batch), Init(tries), attempts) + StepsOf(Last(tries), attempts(Last(batch)))
  }

  /** An undisturbed pass from the first statement to the last. */
  function PassSteps(
    ready: set<int64>, batch: seq<int64>, tries: seq<seq<Subscription>>, attempts: int64 -> Attempt): seq<Action>
    requires |tries| == |batch|
  {
    [Reclaim, Select(ready, batch)] + ItemSteps(batch, tries, attempts) + [EndPass]
  }

  /** The item as some moment of the pass settles it, by what its own deliveries reported. */
  ghost predicate SettledWithin(before: Item, after: Item, id: int64, results: seq<Completion>, from: int, to: int) {
    0 <= before.retryCount <= 2 &&
    exists t :: from <= t <= to && after == SettleItem(before, id, before.retryCount, results, t)
  }

  lemma SettledLater(before: Item, after: Item, id: int64, results: seq<Completion>, from: int, to: int, later: int)
    requires SettledWithin(before, after, id, results, from, to) && to <= later
    ensures SettledWithin(before, after, id, results, from, later)
  {
  }

  /** The selected items tried so far are settled, the others are as they were reclaimed. */
  ghost predicate Settled(
    s: State, t: State, batch: seq<int64>, tries: seq<seq<Subscription>>, attempts: int64 -> Attempt)
  {
    && |tries| <= |batch| && s.now <= t.now && t.queue.Keys == s.queue.Keys
    && (forall k :: 0 <= k < |tries| ==> SettledAt(s, t, batch, tries, k, attempts))
    && forall id :: id in t.queue && id !in batch[..|tries|] ==> t.queue[id] == ReclaimItem(s.queue[id], s.now)
  }

  ghost predicate SettledAt(
    s: State, t: State, batch: seq<int64>, tries: seq<seq<Subscription>>, k: int, attempts: int64 -> Attempt)
  {
    && 0 <= k < |tries| && k < |batch| && batch[k] in s.queue && batch[k] in t.queue
    && SettledWithin(ReclaimItem(s.queue[batch[k]], s.now), t.queue[batch[k]], batch[k],
                     ResultsOf(tries[k], attempts(batch[k])), s.now, t.now)
  }

  lemma SettledAtLater(
    s: State, t: State, after: State, batch: seq<int64>, tries: seq<seq<Subscription>>, tried: seq<Subscription>,
    k: int, attempts: int64 -> Attempt)
    requires SettledAt(s, t, batch, tries, k, attempts) && t.now <= after.now
    requires batch[k] in after.queue && after.queue[batch[k]] == t.queue[batch[k]]
    ensures SettledAt(s, after, batch, tries + [tried], k, attempts)
  {
    var id := batch[k];
    var results := ResultsOf(tries[k], attempts(id));
    SettledLater(ReclaimItem(s.queue[id], s.now), t.queue[id], id, results, s.now, t.now, after.now);
    assert (tries + [tried])[k] == tries[k];
  }

  lemma NewlySettled(
    s: State, t: State, after: State, batch: seq<int64>, tries: seq<seq<Subscription>>, tried: seq<Subscription>,
    attempts: int64 -> Attempt)
    requires |tries| < |batch|
    requires batch[|tries|] in s.queue && batch[|tries|] in t.queue && batch[|tries|] in after.queue
    requires s.now <= after.now && 0 <= t.queue[batch[|tries|]].retryCount <= 2
    requires
      var id := batch[|tries|];
      && t.queue[id] == ReclaimItem(s.queue[id], s.now)
      && after.queue[id] ==
         SettleItem(t.queue[id], id, t.queue[id].retryCount, ResultsOf(tried, attempts(id)), after.now)
    ensures SettledAt(s, after, batch, tries + [tried], |tries|, attempts)
  {
    assert (tries + [tried])[|tries|] == tried;
  }

  /** The queues agree except at one item. */
  ghost predicate DiffersAt(t: State, after: State, id: int64) {
    && t.now <= after.now && after.queue.Keys == t.queue.Keys
    && forall x :: x in t.queue && x != id ==> after.queue[x] == t.queue[x]
  }

  lemma OthersStaySettled(
    s: State, t: State, after: State, batch: seq<int64>, tries: seq<seq<Subscription>>, tried: seq<Subscription>,
    attempts: int64 -> Attempt)
    requires Settled(s, t, batch, tries, attempts) && |tries| < |batch| && Distinct(batch)
    requires DiffersAt(t, after, batch[|tries|])
    ensures forall k :: 0 <= k < |tries| ==> SettledAt(s, after, batch, tries + [tried], k, attempts)
    ensures
      forall x :: x in after.queue && x !in batch[..|tries| + 1] ==> after.queue[x] == ReclaimItem(s.queue[x], s.now)
  {
    var i := |tries|;
    forall k | 0 <= k < i ensures SettledAt(s, after, batch, tries + [tried], k, attempts) {
      assert SettledAt(s, t, batch, tries, k, attempts) && batch[k] != batch[i];
      SettledAtLater(s, t, after, batch, tries, tried, k, attempts);
    }
    assert batch[..i + 1] == batch[..i] + [batch[i]];
  }

  lemma SettledOneMore(
    s: State, t: State, after: State, batch: seq<int64>, tries: seq<seq<Subscription>>, tried: seq<Subscription>,
    attempts: int64 -> Attempt)
    requires Settled(s, t, batch, tries, attempts) && |tries| < |batch| && Distinct(batch)
    requires DiffersAt(t, after, batch[|tries|]) && batch[|tries|] in t.queue
    requires 0 <= t.queue[batch[|tries|]].retryCount <= 2
    requires
      var id := batch[|tries|];
      after.queue[id] == SettleItem(t.queue[id], id, t.queue[id].retryCount, ResultsOf(tried, attempts(id)), after.now)
    ensures Settled(s, after, batch, tries + [tried], attempts)
  {
    assert batch[|tries|] !in batch[..|tries|];
    OthersStaySettled(s, t, after, batch, tries, tried, attempts);
    NewlySettled(s, t, after, batch, tries, tried, attempts);
  }

  /** Where the worker is in an undisturbed pass that began in state `s`. */
  ghost predicate PassAt(
    s: State, t: State, ready: set<int64>, batch: seq<int64>, tries: seq<seq<Subscription>>, attempts: int64 -> Attempt)
  {
    && |tries| <= |batch| && Inv(t) && t.worker == Running(batch[|tries|..])
    && t == Run(s, [Reclaim, Select(ready, batch)] + ItemSteps(batch[..|tries|], tries, attempts))
    && Settled(s, t, batch, tries, attempts)
  }

  lemma Regrouped(a: seq<Action>, b: seq<Action>, c: seq<Action>)
    ensures (a + b) + c == a + (b + c)
  {
  }

  lemma ItemStepsOneMore(
    batch: seq<int64>, tries: seq<seq<Subscription>>, tried: seq<Subscription>, attempts: int64 -> Attempt)
    requires |tries| < |batch|
    ensures
      ItemSteps(batch[..|tries| + 1], tries + [tried], attempts) ==
      ItemSteps(batch[..|tries|], tries, attempts) + StepsOf(tried, attempts(batch[|tries|]))
  {
    var i := |tries|;
    assert Init(batch[..i + 1]) == batch[..i] && Last(batch[..i + 1]) == batch[i];
    assert Init(tries + [tried]) == tries && Last(tries + [tried]) == tried;
  }

  lemma PassRunsOn(
    s: State, t: State, ready: set<int64>, batch: seq<int64>, tries: seq<seq<Subscription>>, tried: seq<Subscription>,
    attempts: int64 -> Attempt)
    requires |tries| < |batch|
    requires t == Run(s, [Reclaim, Select(ready, batch)] + ItemSteps(batch[..|tries|], tries, attempts))
    ensures
      Run(t, StepsOf(tried, attempts(batch[|tries|]))) ==
      Run(s, [Reclaim, Select(ready, batch)] + ItemSteps(batch[..|tries| + 1], tries + [tried], attempts))
  {
    var steps, done := [Reclaim, Select(ready, batch)], ItemSteps(batch[..|tries|], tries, attempts);
    var more := StepsOf(tried, attempts(batch[|tries|]));
    ItemStepsOneMore(batch, tries, tried, attempts);
    Regrouped(steps, done, more);
    RunAppend(s, steps + done, more);
  }

  /** A selected item that has not had its turn is still there to be claimed. */
  lemma NextIsPending(
    s: State, t: State, ready: set<int64>, batch: seq<int64>, tries: seq<seq<Subscription>>, attempts: int64 -> Attempt)
    requires s.worker.Idle? && IsBatch(batch, Eligible(Step(s, Reclaim), ready))
    requires |tries| < |batch| && Settled(s, t, batch, tries, attempts)
    ensures Claimable(t, batch[|tries|]) && Distinct(batch)
  {
    var i := |tries|;
    BatchDistinct(batch, Eligible(Step(s, Reclaim), ready));
    assert batch[i] in Eligible(Step(s, Reclaim), ready);
    assert batch[i] !in batch[..i];
  }

  lemma AfterItemDiffers(t: State, id: int64, tried: seq<Subscription>, attempt: Attempt)
    requires Ready(t, id, tried)
    ensures
      var after := AfterItem(t, id, tried, attempt);
      && DiffersAt(t, after, id) && after.worker == Running(t.worker.todo[1..])
      && after.queue[id] == SettleItem(t.queue[id], id, t.queue[id].retryCount, ResultsOf(tried, attempt), after.now)
  {
  }

  lemma PassNext(
    s: State, t: State, after: State, ready: set<int64>, batch: seq<int64>, tries: seq<seq<Subscription>>,
    tried: seq<Subscription>, attempts: int64 -> Attempt)
    requires |tries| < |batch| && Distinct(batch)
    requires PassAt(s, t, ready, batch, tries, attempts) && Ready(t, batch[|tries|], tried)
    requires after == Run(t, StepsOf(tried, attempts(batch[|tries|])))
    ensures PassAt(s, after, ready, batch, tries + [tried], attempts)
  {
    var id := batch[|tries|];
    StepsSettle(t, id, tried, attempts(id));
    AfterItemDiffers(t, id, tried, attempts(id));
    SettledOneMore(s, t, after, batch, tries, tried, attempts);
    StepsKeepInv(t, StepsOf(tried, attempts(id)));
    PassRunsOn(s, t, ready, batch, tries, tried, attempts);
  }

  lemma PassBegins(s: State, t: State, ready: set<int64>, batch: seq<int64>, attempts: int64 -> Attempt)
    requires s.worker.Idle? && Inv(t) && t == Step(s, Reclaim).(worker := Running(batch))
    requires t == Run(s, [Reclaim, Select(ready, batch)])
    ensures PassAt(s, t, ready, batch, [], attempts)
  {
    assert [Reclaim, Select(ready, batch)] + ItemSteps(batch[..0], [], attempts) == [Reclaim, Select(ready, batch)];
  }

  lemma PassEnds(
    s: State, t: State, ready: set<int64>, batch: seq<int64>, tries: seq<seq<Subscription>>, attempts: int64 -> Attempt)
    requires PassAt(s, t, ready, batch, tries, attempts) && |tries| == |batch|
    ensures
      var after := t.(worker := Idle);
      && after == Run(s, PassSteps(ready, batch, tries, attempts)) && Inv(after)
      && Settled(s, after, batch, tries, attempts)
  {
    assert batch[..|batch|] == batch;
    RunOneMore(s, [Reclaim, Select(ready, batch)] + ItemSteps(batch, tries, attempts), EndPass);
    var after := t.(worker := Idle);
    forall k | 0 <= k < |tries| ensures SettledAt(s, after, batch, tries, k, attempts) {
      assert SettledAt(s, t, batch, tries, k, attempts);
    }
  }

  // --- The statements -----------------------------------------------------------------

  method Smallest(ids: set<int64>) returns (least: int64)
    requires ids != {}
    ensures least in ids && forall x :: x in ids ==> least <= x
  {
    least :| least in ids;
    var rest := ids - {least};
    while rest != {}
      invariant rest <= ids && least in ids
      invariant forall x :: x in ids && x !in rest ==> least <= x
      decreases rest
    {
      var x :| x in rest;
      if x < least {
        least := x;
      }
      rest := rest - {x};
    }
  }

  /** The ten smallest of the given ids, in order. */
  method FirstIds(eligible: set<int64>) returns (batch: seq<int64>)
    ensures IsBatch(batch, eligible)
  {
    batch := [];
    var rest := eligible;
    while rest != {} && |batch| < BATCH_LIMIT
      invariant rest <= eligible && |batch| <= BATCH_LIMIT && |batch| + |rest| == |eligible|
      invariant forall i, j :: 0 <= i < j < |batch| ==> batch[i] < batch[j]
      invariant forall x :: x in eligible <==> x in rest || x in batch
      invariant forall x, i :: x in rest && 0 <= i < |batch| ==> batch[i] < x
      decreases rest
    {
      var least := Smallest(rest);
      rest := rest - {least};
      batch := batch + [least];
    }
  }

  class PushWorker {
    var now: int
    var nextId: int64
    var queue: map<int64, Item>
    var subscriptions: set<Subscription>
    var users: set<string>
    ghost var worker: Worker
    ghost var passes: map<int64, nat>

    ghost function Model(): State
      reads this
    {
      State(now, nextId, queue, subscriptions, users, worker, passes)
    }

    constructor (start: int)
      ensures Model() == Start(start)
    {
      now, nextId, queue, subscriptions, users := start, 1, map[], {}, {};
      worker, passes := Idle, map[];
    }

    /** The insert fails unless the user it names exists; a broadcast names the empty user id. */
    method EnqueuePush(app: string, user: string, tag: Option<string>) returns (ok: bool)
      modifies this
      ensures ok == (old(nextId) < LAST_ID && QueuedFor(user, tag) in users)
      ensures Model() == Step(old(Model()), Enqueue(app, user, tag))
    {
      var targetUser := "";
      if tag.None? {
        targetUser := user;
      }
      ok := nextId < LAST_ID && targetUser in users;
      if ok {
        queue := queue[nextId := Item(app, targetUser, tag, Pending, 0, None, None, None, 0)];
        passes := passes[nextId := 0];
        nextId := nextId + 1;
      }
    }

    /** Insert, or update the keys of the subscription already stored under the same key. */
    method SaveSubscription(given: Subscription) returns (ok: bool, created: bool)
      modifies `subscriptions
      ensures ok == (given.user in users)
      ensures Model() == Step(old(Model()), Subscribe(given))
      ensures created <==> !exists s :: s in old(subscriptions) && s.app == given.app && SameUserAndEndpoint(s, given)
    {
      created := !exists s :: s in subscriptions && s.app == given.app && SameUserAndEndpoint(s, given);
      ok := given.user in users;
      if ok {
        subscriptions := WithSubscription(subscriptions, given);
      }
    }

    method CleanupOldItems()
      requires worker.Idle?
      modifies this
      ensures Model() == Step(old(Model()), Cleanup)
    {
      queue := map id | id in queue && !IsOld(queue[id], now) :: queue[id];
    }

    method ReclaimStaleProcessingItems()
      requires worker.Idle?
      modifies this
      ensures Model() == Step(old(Model()), Reclaim)
    {
      queue := map id | id in queue :: ReclaimItem(queue[id], now);
      worker := Selecting;
    }

    method SelectPending(ready: set<int64>) returns (batch: seq<int64>)
      requires worker.Selecting?
      modifies `worker
      ensures Model() == Step(old(Model()), Select(ready, batch)) && worker == Running(batch)
    {
      batch := FirstIds(set id | id in queue && queue[id].status == Pending && id in ready && Due(queue[id], now));
      worker := Running(batch);
    }

    /** Claim an item and load the subscriptions it is for. */
    method ClaimItem(id: int64) returns (claimed: bool, tried: seq<Subscription>)
      requires NextIs(Model(), id)
      modifies this
      ensures Model() == Step(old(Model()), Claim(tried))
      ensures claimed == Claimable(old(Model()), id)
      ensures
        claimed ==>
          Lists(tried, Targets(old(subscriptions), old(queue)[id])) && Model() == Waiting(old(Model()), id, tried, 0)
    {
      ghost var s := Model();
      claimed, tried := id in queue && queue[id].status == Pending, [];
      if claimed {
        tried := Enumerate(Targets(subscriptions, queue[id]));
        ClaimEffect(s, id, tried);
        queue := queue[id := queue[id].(status := Processing, claimedAt := Some(now))];
        worker := Delivering(worker.todo[1..], id, queue[id].retryCount, tried);
      } else {
        worker := Running(worker.todo[1..]);
      }
    }

    /** Delete the subscriptions that were reported gone. */
    method DropDeadSubscriptions(tried: seq<Subscription>, results: seq<Completion>, dead: seq<string>)
      requires Reported(Model(), results) && worker.tried == tried && Elements(dead) == DeadEndpoints(results)
      modifies `subscriptions
      ensures Model() == Step(old(Model()), DropDead(results))
    {
      DropDeadEffect(Model(), results);
      subscriptions := DeleteDeadSubscriptions(subscriptions, tried, dead);
    }

    /** The marking statement that ends a delivery pass. */
    method MarkItem(id: int64, results: seq<Completion>, verdict: Verdict, failures: nat)
      requires Reported(Model(), results) && worker.id == id && id in queue && id in passes
      requires queue[id].retryCount == worker.retryCount && 0 <= worker.retryCount <= 2
      requires verdict == VerdictOf(results) && failures + Count(results, Succeeded) == |results|
      modifies `queue, `passes, `worker
      ensures Model() == Step(old(Model()), Settle(results))
    {
      SettleEffect(Model(), id, results);
      MarkedIsSettled(queue[id], id, results, failures, now);
      queue := queue[id := Marked(queue[id], id, verdict, failures, now)];
      passes := passes[id := passes[id] + 1];
      worker := Running(worker.todo);
    }

    /** What follows the deliveries of a claimed item: join them, drop dead subscriptions, mark the item. */
    method FinishItem(id: int64, tried: seq<Subscription>, results: seq<Completion>)
      requires Reported(Model(), results) && worker.tried == tried && worker.id == id && id in queue && id in passes
      requires queue[id].retryCount == worker.retryCount && 0 <= worker.retryCount <= 2
      modifies this
      ensures Model() == Step(Step(old(Model()), DropDead(results)), Settle(results))
    {
      DropDeadEffect(Model(), results);
      if results == [] {
        VerdictCases(results);
        MarkItem(id, results, NothingLeftToTry, 0);
        return;
      }
      var verdict, successes, failures, dead := CollectDeliveries(results);
      DropDeadSubscriptions(tried, results, dead);
      MarkItem(id, results, verdict, failures);
    }

    /** Reclaim, then select: the start of a pass. */
    method BeginPass(ready: set<int64>) returns (batch: seq<int64>)
      requires Inv(Model()) && worker.Idle?
      modifies this
      ensures Model() == Run(old(Model()), [Reclaim, Select(ready, batch)]) && Inv(Model()) && worker == Running(batch)
      ensures Model() == Step(old(Model()), Reclaim).(worker := Running(batch))
      ensures IsBatch(batch, Eligible(Step(old(Model()), Reclaim), ready))
    {
      ghost var s := Model();
      StepKeepsInv(s, Reclaim);
      ReclaimStaleProcessingItems();
      batch := SelectPending(ready);
      StepKeepsInv(Step(s, Reclaim), Select(ready, batch));
      RunTwo(s, Reclaim, Select(ready, batch));
    }

    /** Claim the next selected item and, unless it is gone or taken, deliver it and finish it. */
    method ProcessItem(id: int64, attempt: Attempt) returns (claimed: bool, tried: seq<Subscription>)
      requires Inv(Model()) && NextIs(Model(), id)
      modifies this
      ensures claimed == Claimable(old(Model()), id)
      ensures !claimed ==> Model() == Step(old(Model()), Claim(tried))
      ensures claimed ==> Ready(old(Model()), id, tried) && Model() == Run(old(Model()), StepsOf(tried, attempt))
    {
      ghost var s := Model();
      claimed, tried := ClaimItem(id);
      if claimed {
        var results := ResultsOf(tried, attempt);
        PendingCount(s, id);
        WaitingReported(s, id, tried, attempt);
        StepsSettle(s, id, tried, attempt);
        DropAndSettle(s, id, tried, attempt);
        now := now + attempt.seconds;
        assert Model() == Waiting(s, id, tried, attempt.seconds);
        FinishItem(id, tried, results);
      }
    }

    /** The loop over the selected items; `s` is the state in which the pass began. */
    method ProcessBatch(ghost s: State, ready: set<int64>, batch: seq<int64>, attempts: int64 -> Attempt)
      returns (ghost tries: seq<seq<Subscription>>)
      requires s.worker.Idle? && IsBatch(batch, Eligible(Step(s, Reclaim), ready))
      requires PassAt(s, Model(), ready, batch, [], attempts)
      modifies this
      ensures |tries| == |batch| && PassAt(s, Model(), ready, batch, tries, attempts)
    {
      tries := [];
      for i := 0 to |batch|
        invariant |tries| == i && PassAt(s, Model(), ready, batch, tries, attempts)
      {
        ghost var t := Model();
        NextIsPending(s, t, ready, batch, tries, attempts);
        var claimed, tried := ProcessItem(batch[i], attempts(batch[i]));
        PassNext(s, t, Model(), ready, batch, tries, tried, attempts);
        tries := tries + [tried];
      }
    }

    /**
     One pass that is not cut short.  It is a run of the queue model; every item
     it selected is settled by the deliveries to its own subscriptions, and
     nothing but the reclaiming of stale claims happens to the others.
     */
    method ProcessQueue(ready: set<int64>, attempts: int64 -> Attempt)
      returns (batch: seq<int64>, ghost tries: seq<seq<Subscription>>)
      requires Inv(Model()) && worker.Idle?
      modifies this
      ensures |tries| == |batch| && Model() == Run(old(Model()), PassSteps(ready, batch, tries, attempts))
      ensures Inv(Model()) && worker.Idle?
      ensures IsBatch(batch, Eligible(Step(old(Model()), Reclaim), ready))
      ensures Settled(old(Model()), Model(), batch, tries, attempts)
    {
      ghost var s := Model();
      batch := BeginPass(ready);
      PassBegins(s, Model(), ready, batch, attempts);
      tries := ProcessBatch(s, ready, batch, attempts);
      PassEnds(s, Model(), ready, batch, tries, attempts);
      worker := Idle;
    }
  }
}
