/**
 What the statements of the push worker and of its clients do to the queue, in
 terms of the state before and after, with the times and limits written out.
 */
module QueueEffects {
  import opened Common
  import opened Backoff
  import opened Deliveries
  import opened PushQueue

  /** Only the queue, if anything, and where the worker stands are different. */
  ghost predicate SameElsewhere(s: State, after: State) {
    after.now == s.now && after.nextId == s.nextId && after.subscriptions == s.subscriptions
    && after.users == s.users && after.passes == s.passes
  }

  // --- Reclaiming ------------------------------------------------------------------------

  /** A claim that is two minutes old or older. */
  ghost predicate Stale(s: State, id: int64) {
    && id in s.queue && s.queue[id].status == Processing
    && s.queue[id].claimedAt.Some? && s.now - s.queue[id].claimedAt.value >= 120
  }

  /** Reclaiming sets exactly the stale items back to pending, without claim time, and leaves all else alone. */
  lemma ReclaimEffect(s: State)
    requires s.worker.Idle?
    ensures
      var after := Step(s, Reclaim);
      && SameElsewhere(s, after) && after.worker == Selecting && after.queue.Keys == s.queue.Keys
      && (forall id :: Stale(s, id) ==>
            && after.queue[id].status == Pending && after.queue[id].claimedAt == None
            && after.queue[id] == s.queue[id].(status := Pending, claimedAt := None))
      && (forall id :: id in s.queue && !Stale(s, id) ==> after.queue[id] == s.queue[id])
  {
  }

  /** The items a selection considers: pending, let go by their schedule, and due. */
  lemma CandidateIff(s: State, ready: set<int64>, id: int64)
    ensures
      id in Eligible(s, ready) <==>
      && id in s.queue && s.queue[id].status == Pending && id in ready
      && (s.queue[id].nextRetryAt.Some? ==> s.queue[id].nextRetryAt.value <= s.now)
  {
  }

  /**
   In every run: when an idle worker begins a pass, an item whose claim is stale is
   among the candidates of that pass, if its schedule lets it go and it is due;
   and it is selected, unless ten smaller ids are.
   */
  lemma StaleIsSelected(now: int, actions: seq<Action>, id: int64, ready: set<int64>, batch: seq<int64>)
    requires Run(Start(now), actions).worker.Idle? && Stale(Run(Start(now), actions), id) && id in ready
    requires
      var item := Run(Start(now), actions).queue[id];
      item.nextRetryAt.Some? ==> item.nextRetryAt.value <= Run(Start(now), actions).now
    requires Enabled(Step(Run(Start(now), actions), Reclaim), Select(ready, batch))
    ensures id in Eligible(Step(Run(Start(now), actions), Reclaim), ready)
    ensures id in batch || (|batch| == 10 && forall i :: 0 <= i < |batch| ==> batch[i] < id)
  {
    var s := Run(Start(now), actions);
    ReclaimEffect(s);
    var after := Step(s, Reclaim);
    CandidateIff(after, ready, id);
    if id !in batch {
      SelectedUnlessTen(Eligible(after, ready), batch, id);
    }
  }

  lemma SelectedUnlessTen(eligible: set<int64>, batch: seq<int64>, id: int64)
    requires IsBatch(batch, eligible) && id in eligible && id !in batch
    ensures |batch| == 10 && forall i :: 0 <= i < |batch| ==> batch[i] < id
  {
    BatchDistinct(batch, eligible);
    DistinctSize(batch);
    if |batch| == |eligible| {
      assert Elements(batch) <= eligible - {id};
      SubsetSize(Elements(batch), eligible - {id});
      assert false;
    }
  }

  /** A due retry is a candidate as soon as its delay is over, in the same way. */
  lemma DueIsCandidate(s: State, ready: set<int64>, id: int64)
    requires s.worker.Idle? && id in s.queue && s.queue[id].status == Pending && id in ready
    requires s.queue[id].nextRetryAt.Some? ==> s.queue[id].nextRetryAt.value <= s.now
    ensures id in Eligible(Step(s, Reclaim), ready)
  {
    ReclaimEffect(s);
    CandidateIff(Step(s, Reclaim), ready, id);
  }

  // --- Clients ----------------------------------------------------------------------------

  /** A message to an existing user is queued under the next id, pending and never tried. */
  lemma EnqueueEffect(s: State, app: string, user: string)
    requires s.nextId < LAST_ID && user in s.users && s.nextId !in s.queue
    ensures
      var after := Step(s, Enqueue(app, user, None));
      && after.queue.Keys == s.queue.Keys + {s.nextId} && after.nextId == s.nextId + 1
      && (forall id :: id in s.queue ==> after.queue[id] == s.queue[id])
      && after.queue[s.nextId].app == app && after.queue[s.nextId].user == user
      && after.queue[s.nextId].status == Pending && after.queue[s.nextId].retryCount == 0
      && after.queue[s.nextId].claimedAt == None && after.queue[s.nextId].nextRetryAt == None
      && after.subscriptions == s.subscriptions && after.users == s.users
      && after.worker == s.worker && after.now == s.now
  {
  }

  /** A subscription replaces the one with the same application, user and endpoint, and no other. */
  lemma SubscribeEffect(s: State, x: Subscription)
    requires x.user in s.users
    ensures
      var after := Step(s, Subscribe(x));
      && x in after.subscriptions && after.queue == s.queue && after.worker == s.worker
      && (forall y :: y in after.subscriptions && y != x ==> y in s.subscriptions)
      && (forall y :: y in s.subscriptions && !(y.app == x.app && y.user == x.user && y.endpoint == x.endpoint) ==>
            y in after.subscriptions)
      && (forall y :: y in after.subscriptions && y.app == x.app && y.user == x.user && y.endpoint == x.endpoint ==>
            y == x)
  {
  }

  /** A deleted user's items and subscriptions go, and nothing else. */
  lemma DeleteUserEffect(s: State, user: string)
    ensures
      var after := Step(s, DeleteUser(user));
      && (forall id :: id in after.queue <==> id in s.queue && s.queue[id].user != user)
      && (forall id :: id in after.queue ==> after.queue[id] == s.queue[id])
      && (forall x :: x in after.subscriptions <==> x in s.subscriptions && x.user != user)
      && after.users == s.users - {user} && after.worker == s.worker && after.now == s.now && after.nextId == s.nextId
  {
  }

  // --- The worker -----------------------------------------------------------------------------

  /** Clean-up removes exactly the sent and failed items settled thirty days ago or longer. */
  lemma CleanupEffect(s: State)
    requires s.worker.Idle?
    ensures
      var after := Step(s, Cleanup);
      && SameElsewhere(s, after) && after.worker == s.worker
      && (forall id :: id in after.queue <==>
            && id in s.queue
            && !((s.queue[id].status == Sent || s.queue[id].status == Failed)
                 && s.queue[id].processedAt.Some? && s.now - s.queue[id].processedAt.value >= 2_592_000))
      && (forall id :: id in after.queue ==> after.queue[id] == s.queue[id])
  {
  }

  /** A claim marks the next selected item, if it is still pending, with the time; else it is passed over. */
  lemma ClaimEffect(s: State, tried: seq<Subscription>)
    requires s.worker.Running? && s.worker.todo != []
    requires
      var id := s.worker.todo[0];
      id in s.queue && s.queue[id].status == Pending ==> Lists(tried, Targets(s.subscriptions, s.queue[id]))
    ensures
      var after, id := Step(s, Claim(tried)), s.worker.todo[0];
      && SameElsewhere(s, after) && after.queue.Keys == s.queue.Keys
      && (forall x :: x in s.queue && x != id ==> after.queue[x] == s.queue[x])
      && (id in s.queue && s.queue[id].status == Pending ==>
            && after.queue[id] == s.queue[id].(status := Processing, claimedAt := Some(s.now))
            && after.worker == Delivering(s.worker.todo[1..], id, s.queue[id].retryCount, tried))
      && (id in s.queue && s.queue[id].status != Pending ==> after.queue[id] == s.queue[id])
      && (!(id in s.queue && s.queue[id].status == Pending) ==> after.worker == Running(s.worker.todo[1..]))
  {
  }

  /** The targets of a message to a user: what that user has stored in the message's application. */
  lemma TargetsOfUser(subscriptions: set<Subscription>, item: Item, x: Subscription)
    requires item.tag.None?
    ensures x in Targets(subscriptions, item) <==> x in subscriptions && x.app == item.app && x.user == item.user
  {
  }

  /** Settling changes the delivered item only, and keeps its addressee and what it counted if it was sent. */
  lemma SettleFrame(s: State, results: seq<Completion>)
    requires Reported(s, results) && s.worker.id in s.queue && s.worker.id in s.passes
    ensures
      var after, id := Step(s, Settle(results)), s.worker.id;
      && after.queue.Keys == s.queue.Keys && after.subscriptions == s.subscriptions && after.users == s.users
      && (forall x :: x in s.queue && x != id ==> after.queue[x] == s.queue[x])
      && after.queue[id].app == s.queue[id].app && after.queue[id].user == s.queue[id].user
      && (after.queue[id].status == Sent ==> after.queue[id].retryCount == s.queue[id].retryCount)
      && after.worker == Running(s.worker.todo) && after.passes == s.passes[id := s.passes[id] + 1]
  {
  }

  /** What the worker makes of each way a delivery can fail. */
  lemma FailuresByKind(endpoint: string, status: int)
    ensures Gone(Completion(endpoint, Errored(EndpointNotValid)))
    ensures Gone(Completion(endpoint, Errored(EndpointNotFound)))
    ensures Gone(Completion(endpoint, Errored(NtfyTerminal(status)))) <==> status == 404 || status == 410
    ensures
      forall error: DeliveryError ::
        Retryable(Completion(endpoint, Errored(error))) <==>
        error.NtfyRetryable? || error.OtherWebPush? || error.Panicked? || error.Unclassified?
    ensures
      forall error: DeliveryError ::
        Gone(Completion(endpoint, Errored(error))) ==>
          error.EndpointNotValid? || error.EndpointNotFound? || error.NtfyTerminal?
    ensures !Gone(Completion(endpoint, Delivered)) && !Retryable(Completion(endpoint, Delivered))
    ensures Succeeded(Completion(endpoint, Delivered))
    ensures forall error: DeliveryError :: !Succeeded(Completion(endpoint, Errored(error)))
  {
  }
}
