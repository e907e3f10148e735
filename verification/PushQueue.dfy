/**
 The push queue under its single worker.  Every database statement is one step,
 and the worker may crash between any two of them; the clock and the clients
 run on independently.  Times are whole seconds, as the database keeps them.
 */
module PushQueue {
  import opened Common
  import opened Text
  import opened Backoff
  import opened Deliveries

  const MAX_RETRIES: int64 := 3
  const CLAIM_TIMEOUT_SECONDS := 120
  const BATCH_LIMIT := 10
  const RETENTION_SECONDS := 30 * 24 * 60 * 60
  const LAST_ID: int64 := 0x7fff_ffff_ffff_ffff

  datatype Status = Pending | Processing | Sent | Failed

  datatype Item = Item(
    app: string,
    user: string,
    tag: Option<string>,
    status: Status,
    retryCount: int64,
    claimedAt: Option<int>,
    nextRetryAt: Option<int>,
    processedAt: Option<int>,
    partialFailures: nat)

  /** What the worker holds in memory; a crash loses it. */
  datatype Worker =
    | Idle
    | Selecting
    | Running(todo: seq<int64>)
    | Delivering(todo: seq<int64>, id: int64, retryCount: int64, tried: seq<Subscription>)

  /** The store, the worker, and for every item ever enqueued the delivery passes it completed. */
  datatype State = State(
    now: int,
    nextId: int64,
    queue: map<int64, Item>,
    subscriptions: set<Subscription>,
    users: set<string>,
    worker: Worker,
    passes: map<int64, nat>)

  datatype Action =
    | Tick(seconds: nat)
    | Enqueue(app: string, user: string, tag: Option<string>)
    | AddUser(user: string)
    | DeleteUser(user: string)
    | Subscribe(subscription: Subscription)
    | Unsubscribe(subscription: Subscription)
    | Reclaim
    | Select(ready: set<int64>, batch: seq<int64>)
    | Claim(tried: seq<Subscription>)
    | DropDead(results: seq<Completion>)
    | Settle(results: seq<Completion>)
    | EndPass
    | Crash
    | Cleanup

  // --- Effects of the statements on one item ---------------------------------

  function ReclaimItem(item: Item, now: int): Item {
    if item.status == Processing && item.claimedAt.Some? && item.claimedAt.value <= now - CLAIM_TIMEOUT_SECONDS
    then item.(status := Pending, claimedAt := None)
    else item
  }

  function ClaimItem(item: Item, now: int): Item {
    item.(status := Processing, claimedAt := Some(now))
  }

  function MarkSent(item: Item, failures: nat, now: int): Item {
    item.(status := Sent, partialFailures := failures, nextRetryAt := None, claimedAt := None, processedAt := Some(now))
  }

  function MarkTerminalFailure(item: Item, now: int): Item {
    item.(status := Failed, retryCount := MAX_RETRIES, partialFailures := 0,
          nextRetryAt := None, claimedAt := None, processedAt := Some(now))
  }

  function MarkFailed(item: Item, id: int64, retryCount: int64, failures: nat, now: int): Item
    requires 0 <= retryCount < LAST_ID
  {
    var next := retryCount + 1;
    item.(status := if next >= MAX_RETRIES then Failed else Pending,
          retryCount := next, partialFailures := failures,
          nextRetryAt := if next >= MAX_RETRIES then None else Some(now + RetryBackoffSeconds(next, id) as int),
          claimedAt := None, processedAt := Some(now))
  }

  /** The update that ends a delivery pass; a message without subscriptions fails at once. */
  ghost function SettleItem(item: Item, id: int64, retryCount: int64, results: seq<Completion>, now: int): Item
    requires 0 <= retryCount < LAST_ID
  {
    var failures := |results| - CountWithin(results);
    if results == [] then MarkTerminalFailure(item, now)
    else match VerdictOf(results)
         case SomeDelivered => MarkSent(item, failures, now)
         case NothingLeftToTry => MarkTerminalFailure(item, now)
         case WorthRetrying => MarkFailed(item, id, retryCount, failures, now)
  }

  ghost function CountWithin(results: seq<Completion>): (n: nat)
    ensures n <= |results|
  {
    CountAtMost(results);
    Count(results, Succeeded)
  }

  lemma {:induction false} CountAtMost(cs: seq<Completion>)
    ensures Count(cs, Succeeded) <= |cs|
  {
    if cs != [] {
      CountAtMost(Init(cs));
    }
  }

  /**
   What becomes of a claimed item: sent if and only if some delivery succeeded;
   otherwise failed if nothing is worth retrying or the attempts are used up,
   and queued again, one count and one delay later, in the remaining case.
   */
  lemma PassOutcome(item: Item, id: int64, results: seq<Completion>, now: int)
    requires 0 <= item.retryCount <= 2
    ensures
      var after := SettleItem(item, id, item.retryCount, results, now);
      var delivered := exists c :: c in results && Succeeded(c);
      var retryable := exists c :: c in results && Retryable(c);
      && (after.status == Sent <==> delivered)
      && (after.status == Failed <==> !delivered && (!retryable || item.retryCount == 2))
      && (after.status == Failed ==> after.retryCount == MAX_RETRIES && after.nextRetryAt == None)
      && (after.status != Sent && after.status != Failed ==>
            && after.status == Pending && after.retryCount == item.retryCount + 1
            && after.nextRetryAt.Some? && InBand(after.retryCount as int, after.nextRetryAt.value - now))
      && (after.status == Sent || after.status == Pending ==>
            after.partialFailures + Count(results, Succeeded) == |results|)
      && after.claimedAt == None && after.processedAt == Some(now)
  {
    VerdictCases(results);
    match VerdictOf(results)
    case SomeDelivered =>
    case NothingLeftToTry =>
    case WorthRetrying =>
      assert InBand(item.retryCount as int + 1, RetryBackoffSeconds(item.retryCount + 1, id) as int);
  }

  lemma VerdictCases(results: seq<Completion>)
    ensures VerdictOf(results) == SomeDelivered <==> exists c :: c in results && Succeeded(c)
    ensures
      VerdictOf(results) == WorthRetrying <==>
      !(exists c :: c in results && Succeeded(c)) && exists c :: c in results && Retryable(c)
    ensures results == [] ==> VerdictOf(results) == NothingLeftToTry
  {
  }

  predicate IsOld(item: Item, now: int) {
    && (item.status == Sent || item.status == Failed)
    && item.processedAt.Some?
    && item.processedAt.value <= now - RETENTION_SECONDS
  }

  // --- Steps -----------------------------------------------------------------

  predicate Due(item: Item, now: int) {
    item.nextRetryAt.Some? ==> item.nextRetryAt.value <= now
  }

  /** `ready` are the items whose free-text schedule lets them go. */
  function Eligible(s: State, ready: set<int64>): set<int64> {
    set id | id in s.queue && s.queue[id].status == Pending && id in ready && Due(s.queue[id], s.now)
  }

  /** The first items in id order, at most ten. */
  ghost predicate IsBatch(batch: seq<int64>, eligible: set<int64>) {
    && (forall i, j :: 0 <= i < j < |batch| ==> batch[i] < batch[j])
    && (forall i :: 0 <= i < |batch| ==> batch[i] in eligible)
    && |batch| == (if |eligible| < BATCH_LIMIT then |eligible| else BATCH_LIMIT)
    && forall x, i :: x in eligible && 0 <= i < |batch| && x <= batch[i] ==> x in batch
  }

  /** A broadcast goes to everybody who stored its tag, any other message to the subscriptions of its user. */
  function Targets(subscriptions: set<Subscription>, item: Item): set<Subscription> {
    if item.tag.Some? then BroadcastTargets(subscriptions, item.app, item.tag.value)
    else UserTargets(subscriptions, item.app, item.user)
  }

  predicate Claimable(s: State, id: int64) {
    id in s.queue && s.queue[id].status == Pending
  }

  /** The results are those of one delivery to each tried subscription, in any order. */
  ghost predicate ReportOn(tried: seq<Subscription>, results: seq<Completion>) {
    exists d: seq<Delivery> :: |d| == |tried| && multiset(results) == multiset(Completions(tried, d))
  }

  ghost predicate Reported(s: State, results: seq<Completion>) {
    s.worker.Delivering? && 0 <= s.worker.retryCount < LAST_ID && ReportOn(s.worker.tried, results)
  }

  /** One subscription per application, user and endpoint: storing it again replaces its keys. */
  function WithSubscription(stored: set<Subscription>, given: Subscription): set<Subscription> {
    (set s | s in stored && !(s.app == given.app && SameUserAndEndpoint(s, given))) + {given}
  }

  /** The user an insert into the queue names: a broadcast names none. */
  function QueuedFor(user: string, tag: Option<string>): string {
    if tag.Some? then "" else user
  }

  /** Queue items and subscriptions can only be stored for existing users, whose ids are never empty. */
  ghost predicate Enabled(s: State, a: Action) {
    match a
    case Tick(_) | DeleteUser(_) | Unsubscribe(_) | Crash => true
    case AddUser(user) => user != ""
    case Subscribe(x) => x.user in s.users
    case Enqueue(_, user, tag) => s.nextId < LAST_ID && QueuedFor(user, tag) in s.users
    case Reclaim | Cleanup => s.worker.Idle?
    case Select(ready, batch) => s.worker.Selecting? && IsBatch(batch, Eligible(s, ready))
    case Claim(tried) =>
      && s.worker.Running? && s.worker.todo != []
      && (Claimable(s, s.worker.todo[0]) ==> Lists(tried, Targets(s.subscriptions, s.queue[s.worker.todo[0]])))
    case DropDead(results) => Reported(s, results)
    case Settle(results) => Reported(s, results)
    case EndPass => s.worker.Running? && s.worker.todo == []
  }

  ghost function Effect(s: State, a: Action): State
    requires Enabled(s, a)
  {
    match a
    case Tick(seconds) => s.(now := s.now + seconds)
    case Enqueue(app, user, tag) =>
      s.(queue := s.queue[s.nextId := Item(app, QueuedFor(user, tag), tag, Pending, 0, None, None, None, 0)],
         passes := s.passes[s.nextId := 0], nextId := s.nextId + 1)
    case AddUser(user) => s.(users := s.users + {user})
    case DeleteUser(user) =>
      s.(users := s.users - {user},
         queue := map id | id in s.queue && s.queue[id].user != user :: s.queue[id],
         subscriptions := set x | x in s.subscriptions && x.user != user)
    case Subscribe(x) => s.(subscriptions := WithSubscription(s.subscriptions, x))
    case Unsubscribe(x) => s.(subscriptions := s.subscriptions - {x})
    case Reclaim =>
      s.(queue := map id | id in s.queue :: ReclaimItem(s.queue[id], s.now), worker := Selecting)
    case Select(_, batch) => s.(worker := Running(batch))
    case Claim(tried) =>
      var id, rest := s.worker.todo[0], s.worker.todo[1..];
      if Claimable(s, id) then
        s.(queue := s.queue[id := ClaimItem(s.queue[id], s.now)],
           worker := Delivering(rest, id, s.queue[id].retryCount, tried))
      else
        s.(worker := Running(rest))
    case DropDead(results) =>
      s.(subscriptions := s.subscriptions - Deleted(s.subscriptions, s.worker.tried, DeadEndpoints(results)))
    case Settle(results) =>
      var id := s.worker.id;
      var next := Running(s.worker.todo);
      if id in s.queue && id in s.passes then
        s.(queue := s.queue[id := SettleItem(s.queue[id], id, s.worker.retryCount, results, s.now)],
           passes := s.passes[id := s.passes[id] + 1], worker := next)
      else
        s.(worker := next)
    case EndPass | Crash => s.(worker := Idle)
    case Cleanup => s.(queue := map id | id in s.queue && !IsOld(s.queue[id], s.now) :: s.queue[id])
  }

  /** An action that is not possible now has no effect, so every list of actions is a run. */
  ghost function Step(s: State, a: Action): State {
    if Enabled(s, a) then Effect(s, a) else s
  }

  ghost function Run(s: State, actions: seq<Action>): State {
    if actions == [] then s else Step(Run(s, Init(actions)), Last(actions))
  }

  function Start(now: int): State {
    State(now, 1, map[], {}, {}, Idle, map[])
  }

  // --- Invariants --------------------------------------------------------------

  /** What every stored item satisfies after `passes` completed delivery passes. */
  ghost predicate ItemOk(item: Item, passes: nat) {
    && (item.claimedAt.Some? <==> item.status == Processing)
    && match item.status
       case Pending | Processing =>
         && 0 <= item.retryCount <= 2
         && passes == item.retryCount as int
         && (item.retryCount == 0 ==> item.nextRetryAt == None)
         && (item.retryCount >= 1 ==>
               && item.processedAt.Some? && item.nextRetryAt.Some?
               && InBand(item.retryCount as int, item.nextRetryAt.value - item.processedAt.value))
       case Sent => 0 <= item.retryCount <= 2 && passes == item.retryCount as int + 1 && item.nextRetryAt == None
       case Failed => item.retryCount == MAX_RETRIES && 1 <= passes <= 3 && item.nextRetryAt == None
  }

  /** The selected items are distinct and, while they wait, none is picked before its time. */
  ghost predicate TodoOk(s: State, todo: seq<int64>) {
    && Distinct(todo)
    && forall i :: 0 <= i < |todo| ==>
         todo[i] < s.nextId && (todo[i] in s.queue ==> Due(s.queue[todo[i]], s.now))
  }

  ghost predicate WorkerOk(s: State) {
    match s.worker
    case Idle | Selecting => true
    case Running(todo) => TodoOk(s, todo)
    case Delivering(todo, id, retryCount, _) =>
      && TodoOk(s, todo)
      && id !in todo && id < s.nextId && 0 <= retryCount <= 2
      && (id in s.queue ==> s.queue[id].status == Processing && s.queue[id].retryCount == retryCount)
  }

  /** Every item belongs to an existing user, so none is a broadcast. */
  ghost predicate UsersOk(s: State) {
    && "" !in s.users
    && forall id :: id in s.queue ==> s.queue[id].user in s.users && s.queue[id].tag.None?
  }

  ghost predicate Inv(s: State) {
    && (forall id :: id in s.passes ==> id < s.nextId && s.passes[id] <= 3)
    && (forall id :: id in s.queue ==> id in s.passes && ItemOk(s.queue[id], s.passes[id]))
    && UniqueKeys(s.subscriptions)
    && UsersOk(s)
    && WorkerOk(s)
  }

  lemma SettleKeepsItem(item: Item, id: int64, passes: nat, results: seq<Completion>, now: int)
    requires ItemOk(item, passes) && item.status == Processing
    ensures ItemOk(SettleItem(item, id, item.retryCount, results, now), passes + 1)
    ensures
      var after := SettleItem(item, id, item.retryCount, results, now);
      after.user == item.user && after.tag == item.tag
    ensures passes + 1 <= 3
  {
  }

  lemma BatchDistinct(batch: seq<int64>, eligible: set<int64>)
    requires IsBatch(batch, eligible)
    ensures Distinct(batch)
  {
  }

  lemma ClaimKeepsInv(s: State, tried: seq<Subscription>)
    requires Inv(s) && Enabled(s, Claim(tried))
    ensures Inv(Effect(s, Claim(tried)))
  {
    var id := s.worker.todo[0];
    assert id in s.queue ==> ItemOk(s.queue[id], s.passes[id]);
  }

  /** The item being delivered may be replaced by one that is in order after one more pass. */
  lemma PutItemKeepsInv(s: State, item: Item)
    requires Inv(s) && s.worker.Delivering? && s.worker.id in s.queue
    requires ItemOk(item, s.passes[s.worker.id] + 1) && s.passes[s.worker.id] < 3
    requires item.user == s.queue[s.worker.id].user && item.tag == s.queue[s.worker.id].tag
    ensures
      var id := s.worker.id;
      Inv(s.(queue := s.queue[id := item], passes := s.passes[id := s.passes[id] + 1],
             worker := Running(s.worker.todo)))
  {
  }

  lemma SettleKeepsInv(s: State, results: seq<Completion>)
    requires Inv(s) && Enabled(s, Settle(results))
    ensures Inv(Effect(s, Settle(results)))
  {
    var id := s.worker.id;
    if id in s.queue {
      SettleKeepsItem(s.queue[id], id, s.passes[id], results, s.now);
      PutItemKeepsInv(s, SettleItem(s.queue[id], id, s.worker.retryCount, results, s.now));
    }
  }

  lemma EnqueueKeepsInv(s: State, app: string, user: string, tag: Option<string>)
    requires Inv(s) && Enabled(s, Enqueue(app, user, tag))
    ensures Inv(Effect(s, Enqueue(app, user, tag)))
  {
  }

  lemma ReclaimKeepsInv(s: State)
    requires Inv(s) && s.worker.Idle?
    ensures Inv(Effect(s, Reclaim))
  {
  }

  /** Removing items, other than by the worker, keeps the invariant. */
  lemma RemovalKeepsInv(s: State, a: Action)
    requires Inv(s) && Enabled(s, a) && (a.DeleteUser? || a.Cleanup?)
    ensures Inv(Effect(s, a))
  {
  }

  lemma SubscriptionsKeepInv(s: State, after: set<Subscription>)
    requires Inv(s) && UniqueKeys(after)
    ensures Inv(s.(subscriptions := after))
  {
  }

  lemma SubscriptionStepKeepsInv(s: State, a: Action)
    requires Inv(s) && Enabled(s, a) && (a.Subscribe? || a.Unsubscribe? || a.DropDead?)
    ensures Inv(Effect(s, a))
  {
    SubscriptionsKeepInv(s, Effect(s, a).subscriptions);
  }

  lemma StepKeepsInv(s: State, a: Action)
    requires Inv(s)
    ensures Inv(Step(s, a))
  {
    if Enabled(s, a) {
      match a {
        case Claim(tried) => ClaimKeepsInv(s, tried);
        case Settle(results) => SettleKeepsInv(s, results);
        case Enqueue(app, user, tag) => EnqueueKeepsInv(s, app, user, tag);
        case DeleteUser(_) | Cleanup => RemovalKeepsInv(s, a);
        case Reclaim => ReclaimKeepsInv(s);
        case Subscribe(_) | Unsubscribe(_) | DropDead(_) => SubscriptionStepKeepsInv(s, a);
        case Select(ready, batch) => BatchDistinct(batch, Eligible(s, ready));
        case Tick(_) | AddUser(_) | EndPass | Crash =>
      }
    }
  }

  /** Every state of every run, crashes included. */
  lemma {:induction false} RunKeepsInv(now: int, actions: seq<Action>)
    ensures Inv(Run(Start(now), actions))
  {
    if actions != [] {
      RunKeepsInv(now, Init(actions));
      StepKeepsInv(Run(Start(now), Init(actions)), Last(actions));
    }
  }

  /** Read off the invariant: the bounds on retries and claims in every reachable state. */
  lemma ReachableItems(now: int, actions: seq<Action>, id: int64)
    requires id in Run(Start(now), actions).queue
    ensures
      var item := Run(Start(now), actions).queue[id];
      && (item.status == Pending || item.status == Processing ==> 0 <= item.retryCount <= 2)
      && (item.status == Failed ==> item.retryCount == 3)
      && (item.claimedAt.Some? <==> item.status == Processing)
    ensures id in Run(Start(now), actions).passes && Run(Start(now), actions).passes[id] <= 3
  {
    RunKeepsInv(now, actions);
  }

  /**
   A broadcast names no user, and the queue only takes items of existing users:
   in every run, no broadcast is ever stored, nor can one be enqueued.
   */
  lemma NoBroadcastStored(now: int, actions: seq<Action>, app: string, user: string, tag: string)
    ensures !Enabled(Run(Start(now), actions), Enqueue(app, user, Some(tag)))
    ensures
      forall id :: id in Run(Start(now), actions).queue ==>
        && Run(Start(now), actions).queue[id].tag.None?
        && Run(Start(now), actions).queue[id].user in Run(Start(now), actions).users
  {
    RunKeepsInv(now, actions);
  }

  /** A retry is never claimed before the delay after its last pass is over. */
  lemma RetryWaits(now: int, actions: seq<Action>, tried: seq<Subscription>)
    requires Enabled(Run(Start(now), actions), Claim(tried))
    ensures
      var s := Run(Start(now), actions);
      var id := s.worker.todo[0];
      id in s.queue && s.queue[id].status == Pending && s.queue[id].retryCount >= 1 ==>
        && s.queue[id].nextRetryAt.Some? && s.queue[id].nextRetryAt.value <= s.now
        && s.queue[id].processedAt.Some?
        && s.queue[id].processedAt.value + (if s.queue[id].retryCount == 1 then 24 else 48) <= s.now
  {
    RunKeepsInv(now, actions);
  }

  predicate Finished(item: Item) {
    item.status == Sent || item.status == Failed
  }

  /** One step leaves a finished item alone or removes it for good. */
  lemma FinishedStep(s: State, a: Action, id: int64)
    requires Inv(s) && id < s.nextId
    requires id in s.queue ==> Finished(s.queue[id])
    ensures id < Step(s, a).nextId
    ensures id in Step(s, a).queue ==> id in s.queue && Step(s, a).queue[id] == s.queue[id]
    ensures
      id in s.queue && id !in Step(s, a).queue ==>
        (a == Cleanup && IsOld(s.queue[id], s.now)) || a == DeleteUser(s.queue[id].user)
  {
  }

  /** The item is absent or, if `item` is given, as given. */
  ghost predicate StaysAs(s: State, id: int64, item: Option<Item>) {
    id < s.nextId && (id in s.queue ==> item == Some(s.queue[id]) && Finished(s.queue[id]))
  }

  lemma StaysAsStep(s: State, a: Action, id: int64, item: Option<Item>)
    requires Inv(s) && StaysAs(s, id, item)
    ensures StaysAs(Step(s, a), id, item)
  {
    FinishedStep(s, a, id);
  }

  lemma {:induction false} StaysAsForever(
    now: int, before: seq<Action>, after: seq<Action>, id: int64, item: Option<Item>)
    requires StaysAs(Run(Start(now), before), id, item)
    ensures StaysAs(Run(Start(now), before + after), id, item)
    decreases |after|
  {
    if after == [] {
      assert before + after == before;
    } else {
      StaysAsForever(now, before, Init(after), id, item);
      assert Init(before + after) == before + Init(after) && Last(before + after) == Last(after);
      RunKeepsInv(now, before + Init(after));
      StaysAsStep(Run(Start(now), before + Init(after)), Last(after), id, item);
    }
  }

  /** Once sent or failed, an item never changes again in any continuation of any run. */
  lemma FinishedForever(now: int, before: seq<Action>, after: seq<Action>, id: int64)
    requires id in Run(Start(now), before).queue && Finished(Run(Start(now), before).queue[id])
    ensures
      var s, t := Run(Start(now), before), Run(Start(now), before + after);
      id in t.queue ==> t.queue[id] == s.queue[id]
  {
    RunKeepsInv(now, before);
    StaysAsForever(now, before, after, id, Some(Run(Start(now), before).queue[id]));
  }

  /** An item that was enqueued and is no longer stored never comes back, nor does its id. */
  lemma RemovedForever(now: int, before: seq<Action>, after: seq<Action>, id: int64)
    requires id in Run(Start(now), before).passes && id !in Run(Start(now), before).queue
    ensures id !in Run(Start(now), before + after).queue
  {
    RunKeepsInv(now, before);
    StaysAsForever(now, before, after, id, None);
  }

  // --- Deliveries -----------------------------------------------------------------

  lemma ReportedPermuted(s: State, a: seq<Completion>, b: seq<Completion>)
    requires multiset(a) == multiset(b)
    ensures Reported(s, a) <==> Reported(s, b)
  {
    if s.worker.Delivering? {
      var tried := s.worker.tried;
      forall d: seq<Delivery> | |d| == |tried|
        ensures multiset(a) == multiset(Completions(tried, d)) <==> multiset(b) == multiset(Completions(tried, d))
      {
      }
    }
  }

  lemma SettleItemPermuted(item: Item, id: int64, retryCount: int64, a: seq<Completion>, b: seq<Completion>, now: int)
    requires multiset(a) == multiset(b) && 0 <= retryCount < LAST_ID
    ensures SettleItem(item, id, retryCount, a, now) == SettleItem(item, id, retryCount, b, now)
  {
    CompletionOrderIrrelevant(a, b);
  }

  lemma SettleEffectPermuted(s: State, a: seq<Completion>, b: seq<Completion>)
    requires multiset(a) == multiset(b) && Reported(s, a) && Reported(s, b)
    ensures Effect(s, Settle(a)) == Effect(s, Settle(b))
  {
    if s.worker.id in s.queue {
      SettleItemPermuted(s.queue[s.worker.id], s.worker.id, s.worker.retryCount, a, b, s.now);
    }
  }

  /** The state a pass leaves behind does not depend on the order in which deliveries finished. */
  lemma SettleOrderIrrelevant(s: State, a: seq<Completion>, b: seq<Completion>)
    requires multiset(a) == multiset(b)
    ensures Step(s, Settle(a)) == Step(s, Settle(b))
  {
    ReportedPermuted(s, a, b);
    if Reported(s, a) {
      SettleEffectPermuted(s, a, b);
    }
  }

  lemma DropOrderIrrelevant(s: State, a: seq<Completion>, b: seq<Completion>)
    requires multiset(a) == multiset(b)
    ensures Step(s, DropDead(a)) == Step(s, DropDead(b))
  {
    ReportedPermuted(s, a, b);
    if Reported(s, a) {
      CompletionOrderIrrelevant(a, b);
      DropDeadEffect(s, a);
      DropDeadEffect(s, b);
    }
  }

  /**
   The worker is delivering a user-targeted message to subscriptions that are
   still the user's own in its application.
   */
  ghost predicate OnTarget(s: State) {
    && s.worker.Delivering? && s.worker.id in s.queue
    && var item := s.queue[s.worker.id];
    && Lists(s.worker.tried, UserTargets(s.subscriptions, item.app, item.user))
    && OwnEndpoints(s.subscriptions, item.app, item.user)
  }

  lemma OnTargetDropsExactly(s: State, d: seq<Delivery>, results: seq<Completion>)
    requires OnTarget(s) && UniqueKeys(s.subscriptions)
    requires |d| == |s.worker.tried| && multiset(results) == multiset(Completions(s.worker.tried, d))
    ensures Deleted(s.subscriptions, s.worker.tried, DeadEndpoints(results)) == GoneOf(s.worker.tried, d)
  {
    var item := s.queue[s.worker.id];
    UserTargetedExactIff(s.subscriptions, s.worker.tried, item.app, item.user);
    assert DeletesExactly(s.subscriptions, s.worker.tried, d);
    CompletionOrderIrrelevant(results, Completions(s.worker.tried, d));
  }

  lemma DropDeadEffect(s: State, results: seq<Completion>)
    requires Reported(s, results)
    ensures
      Step(s, DropDead(results)) ==
      s.(subscriptions := s.subscriptions - Deleted(s.subscriptions, s.worker.tried, DeadEndpoints(results)))
  {
  }

  /** In every run, a delivery on target drops exactly the subscriptions that reported gone, in any order of reports. */
  lemma DropDeadExact(now: int, actions: seq<Action>, d: seq<Delivery>, results: seq<Completion>)
    requires OnTarget(Run(Start(now), actions)) && |d| == |Run(Start(now), actions).worker.tried|
    requires multiset(results) == multiset(Completions(Run(Start(now), actions).worker.tried, d))
    ensures
      var s := Run(Start(now), actions);
      Step(s, DropDead(results)) == s.(subscriptions := s.subscriptions - GoneOf(s.worker.tried, d))
  {
    var s := Run(Start(now), actions);
    RunKeepsInv(now, actions);
    OnTargetDropsExactly(s, d, results);
    assert Reported(s, results);
    DropDeadEffect(s, results);
  }
}
