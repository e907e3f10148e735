/**
 One delivery pass over a claimed push message: what the concurrent deliveries
 report, in whatever order they finish, and what the worker makes of it.
 */
module Deliveries {
  import opened Common
  import opened Text

  datatype Subscription = Subscription(app: string, user: string, endpoint: string, p256dh: string, auth: string)

  /** The errors a delivery can end with, as far as the worker tells them apart. */
  datatype DeliveryError =
    | EndpointNotValid
    | EndpointNotFound
    | OtherWebPush
    | TerminalConfig
    | NtfyTerminal(status: int)
    | NtfyRetryable(status: int)
    | Panicked
    | Unclassified

  datatype Delivery = Delivered | Errored(error: DeliveryError)

  datatype Outcome = SubscriptionGone | TerminalFailure | Failure

  /** A finished delivery task; a panicked task no longer knows its endpoint. */
  datatype Completion = Completion(endpoint: string, delivery: Delivery)

  function ClassifyDeliveryError(error: DeliveryError): Outcome {
    match error
    case EndpointNotValid | EndpointNotFound => SubscriptionGone
    case TerminalConfig => TerminalFailure
    case NtfyTerminal(status) => if status == 404 || status == 410 then SubscriptionGone else TerminalFailure
    case _ => Failure
  }

  predicate Succeeded(c: Completion) {
    c.delivery.Delivered?
  }

  predicate Gone(c: Completion) {
    c.delivery.Errored? && ClassifyDeliveryError(c.delivery.error) == SubscriptionGone
  }

  predicate Retryable(c: Completion) {
    c.delivery.Errored? && ClassifyDeliveryError(c.delivery.error) == Failure
  }

  // --- What a pass amounts to ----------------------------------------------

  function Count(cs: seq<Completion>, p: Completion -> bool): nat {
    if cs == [] then 0 else Count(Init(cs), p) + if p(Last(cs)) then 1 else 0
  }

  function DeadEndpoints(cs: seq<Completion>): set<string> {
    set c | c in cs && Gone(c) :: c.endpoint
  }

  lemma DeadEndpointsOneMore(cs: seq<Completion>, c: Completion, dead: seq<string>)
    requires Elements(dead) == DeadEndpoints(cs)
    ensures Elements(if Gone(c) then dead + [c.endpoint] else dead) == DeadEndpoints(cs + [c])
  {
    assert forall x :: x in cs + [c] <==> x in cs || x == c;
    assert DeadEndpoints(cs + [c]) == DeadEndpoints(cs) + if Gone(c) then {c.endpoint} else {};
    assert Elements(dead + [c.endpoint]) == Elements(dead) + {c.endpoint};
  }

  lemma {:induction false} CountPositive(cs: seq<Completion>, p: Completion -> bool)
    ensures Count(cs, p) > 0 <==> exists c :: c in cs && p(c)
  {
    if cs != [] {
      CountPositive(Init(cs), p);
      assert cs == Init(cs) + [Last(cs)];
    }
  }

  datatype Verdict = SomeDelivered | NothingLeftToTry | WorthRetrying

  ghost function VerdictOf(cs: seq<Completion>): Verdict {
    if exists c :: c in cs && Succeeded(c) then SomeDelivered
    else if forall c :: c in cs ==> !Retryable(c) then NothingLeftToTry
    else WorthRetrying
  }

  /** The loop that joins the delivery tasks. */
  method JoinDeliveries(cs: seq<Completion>)
    returns (successCount: nat, failureCount: nat, failureOutcomes: seq<Outcome>, dead: seq<string>)
    ensures successCount == Count(cs, Succeeded) && successCount + failureCount == |cs|
    ensures Failure in failureOutcomes <==> Count(cs, Retryable) > 0
    ensures Elements(dead) == DeadEndpoints(cs)
  {
    successCount, failureCount, failureOutcomes, dead := 0, 0, [], [];
    for i := 0 to |cs|
      invariant successCount == Count(cs[..i], Succeeded) && successCount + failureCount == i
      invariant Failure in failureOutcomes <==> Count(cs[..i], Retryable) > 0
      invariant Elements(dead) == DeadEndpoints(cs[..i])
    {
      assert Init(cs[..i + 1]) == cs[..i];
      DeadEndpointsOneMore(cs[..i], cs[i], dead);
      assert cs[..i] + [cs[i]] == cs[..i + 1];
      match cs[i].delivery {
        case Delivered =>
          successCount := successCount + 1;
        case Errored(error) =>
          var outcome := ClassifyDeliveryError(error);
          failureCount := failureCount + 1;
          if outcome == SubscriptionGone {
            dead := dead + [cs[i].endpoint];
          }
          failureOutcomes := failureOutcomes + [outcome];
      }
    }
    assert cs[..|cs|] == cs;
  }

  /** Joining the tasks and branching on the result. */
  method CollectDeliveries(cs: seq<Completion>)
    returns (verdict: Verdict, successCount: nat, failureCount: nat, dead: seq<string>)
    ensures verdict == VerdictOf(cs)
    ensures successCount == Count(cs, Succeeded) && successCount + failureCount == |cs|
    ensures Elements(dead) == DeadEndpoints(cs)
  {
    var failureOutcomes;
    successCount, failureCount, failureOutcomes, dead := JoinDeliveries(cs);
    CountPositive(cs, Succeeded);
    CountPositive(cs, Retryable);
    if successCount > 0 {
      verdict := SomeDelivered;
    } else if forall o :: o in failureOutcomes ==> o == SubscriptionGone || o == TerminalFailure {
      verdict := NothingLeftToTry;
    } else {
      verdict := WorthRetrying;
    }
  }

  // --- The order of completion does not matter -------------------------------

  lemma {:induction false} CountWithout(cs: seq<Completion>, k: nat, p: Completion -> bool)
    requires k < |cs|
    ensures Count(cs, p) == Count(cs[..k] + cs[k + 1..], p) + if p(cs[k]) then 1 else 0
    decreases |cs|
  {
    var rest := cs[..k] + cs[k + 1..];
    if k == |cs| - 1 {
      assert rest == Init(cs);
    } else {
      CountWithout(Init(cs), k, p);
      assert Init(rest) == Init(cs)[..k] + Init(cs)[k + 1..];
      assert Last(rest) == Last(cs);
    }
  }

  lemma {:induction false} CountPermutation(a: seq<Completion>, b: seq<Completion>, p: Completion -> bool)
    requires multiset(a) == multiset(b)
    ensures Count(a, p) == Count(b, p)
    decreases |a|
  {
    assert |a| == |multiset(a)| == |multiset(b)| == |b|;
    if a != [] {
      assert Last(a) in multiset(a);
      var k :| 0 <= k < |b| && b[k] == Last(a);
      var rest := b[..k] + b[k + 1..];
      assert a == Init(a) + [Last(a)];
      assert b == b[..k] + [b[k]] + b[k + 1..];
      assert multiset(rest) == multiset(b) - multiset{b[k]};
      CountPermutation(Init(a), rest, p);
      CountWithout(b, k, p);
    }
  }

  lemma CompletionOrderIrrelevant(a: seq<Completion>, b: seq<Completion>)
    requires multiset(a) == multiset(b)
    ensures VerdictOf(a) == VerdictOf(b)
    ensures Count(a, Succeeded) == Count(b, Succeeded) && |a| == |b|
    ensures DeadEndpoints(a) == DeadEndpoints(b)
  {
    CountPermutation(a, b, Succeeded);
    assert |a| == |multiset(a)| == |multiset(b)| == |b|;
    assert forall c :: c in a <==> c in multiset(a);
    assert forall c :: c in b <==> c in multiset(b);
  }

  // --- Deleting dead subscriptions ------------------------------------------

  /** Delivery `d[i]` was the one tried on `tried[i]`. */
  function Completions(tried: seq<Subscription>, d: seq<Delivery>): (cs: seq<Completion>)
    requires |tried| == |d|
    ensures |cs| == |tried|
    ensures
      forall i :: 0 <= i < |tried| ==>
                    cs[i] == Completion(if d[i] == Errored(Panicked) then "unknown" else tried[i].endpoint, d[i])
  {
    seq(|tried|, i requires 0 <= i < |tried| =>
      Completion(if d[i] == Errored(Panicked) then "unknown" else tried[i].endpoint, d[i]))
  }

  /** The owner remembered for each endpoint: a later subscription overwrites an earlier one. */
  function EndpointOwners(tried: seq<Subscription>): map<string, string> {
    if tried == [] then map[] else EndpointOwners(Init(tried))[Last(tried).endpoint := Last(tried).user]
  }

  /** The subscriptions removed because their endpoint was reported gone. */
  ghost function Deleted(stored: set<Subscription>, tried: seq<Subscription>, dead: set<string>): set<Subscription> {
    var owners := EndpointOwners(tried);
    set s | s in stored && s.endpoint in dead && s.endpoint in owners && s.user == owners[s.endpoint]
  }

  method DeleteDeadSubscriptions(stored: set<Subscription>, tried: seq<Subscription>, dead: seq<string>)
    returns (left: set<Subscription>)
    ensures left == stored - Deleted(stored, tried, Elements(dead))
  {
    var owners: map<string, string> := map[];
    for i := 0 to |tried|
      invariant owners == EndpointOwners(tried[..i])
    {
      assert Init(tried[..i + 1]) == tried[..i];
      owners := owners[tried[i].endpoint := tried[i].user];
    }
    assert tried[..|tried|] == tried;
    left := stored;
    for i := 0 to |dead|
      invariant left == stored - Deleted(stored, tried, Elements(dead[..i]))
    {
      assert Elements(dead[..i + 1]) == Elements(dead[..i]) + {dead[i]};
      if dead[i] in owners {
        var user := owners[dead[i]];
        left := set s | s in left && !(s.user == user && s.endpoint == dead[i]);
      }
    }
    assert dead[..|dead|] == dead;
  }

  // --- When the deletion is exact ------------------------------------------------

  predicate SameUserAndEndpoint(s: Subscription, t: Subscription) {
    s.user == t.user && s.endpoint == t.endpoint
  }

  /** The uniqueness constraint on stored subscriptions. */
  ghost predicate UniqueKeys(stored: set<Subscription>) {
    forall s, t :: s in stored && t in stored && s.app == t.app && SameUserAndEndpoint(s, t) ==> s == t
  }

  /** The tried subscriptions are some of the stored ones, each once, all of one application. */
  ghost predicate TriedFrom(stored: set<Subscription>, tried: seq<Subscription>) {
    && UniqueKeys(stored) && Distinct(tried)
    && (forall i :: 0 <= i < |tried| ==> tried[i] in stored)
    && (forall i, j :: 0 <= i < j < |tried| ==> tried[i].app == tried[j].app)
  }

  /** The subscriptions whose own delivery reported that they are gone. */
  ghost function GoneOf(tried: seq<Subscription>, d: seq<Delivery>): set<Subscription>
    requires |tried| == |d|
  {
    set i | 0 <= i < |tried| && Gone(Completions(tried, d)[i]) :: tried[i]
  }

  ghost function DeletedBy(stored: set<Subscription>, tried: seq<Subscription>, d: seq<Delivery>): set<Subscription>
    requires |tried| == |d|
  {
    Deleted(stored, tried, DeadEndpoints(Completions(tried, d)))
  }

  /** Of everything stored, exactly the subscriptions that reported gone are deleted. */
  ghost predicate DeletesExactly(stored: set<Subscription>, tried: seq<Subscription>, d: seq<Delivery>)
    requires |tried| == |d|
  {
    DeletedBy(stored, tried, d) == GoneOf(tried, d)
  }

  ghost predicate AlwaysExact(stored: set<Subscription>, tried: seq<Subscription>) {
    forall d: seq<Delivery> | |d| == |tried| :: DeletesExactly(stored, tried, d)
  }

  ghost predicate DistinctEndpoints(tried: seq<Subscription>) {
    forall i, j :: 0 <= i < j < |tried| ==> tried[i].endpoint != tried[j].endpoint
  }

  /** No subscription that was not tried has the user and the endpoint of one that was. */
  ghost predicate NoDouble(stored: set<Subscription>, tried: seq<Subscription>) {
    forall s, i :: s in stored && s !in tried && 0 <= i < |tried| ==> !SameUserAndEndpoint(s, tried[i])
  }

  lemma {:induction false} OwnersOfTried(tried: seq<Subscription>)
    ensures forall e :: e in EndpointOwners(tried) <==> exists i :: 0 <= i < |tried| && tried[i].endpoint == e
    ensures
      DistinctEndpoints(tried) ==>
        forall i :: 0 <= i < |tried| ==> EndpointOwners(tried)[tried[i].endpoint] == tried[i].user
  {
    if tried != [] {
      OwnersOfTried(Init(tried));
      assert forall i :: 0 <= i < |Init(tried)| ==> Init(tried)[i] == tried[i];
    }
  }

  lemma DeadIffGone(tried: seq<Subscription>, d: seq<Delivery>, i: nat)
    requires |tried| == |d| && DistinctEndpoints(tried) && i < |tried|
    ensures tried[i].endpoint in DeadEndpoints(Completions(tried, d)) <==> Gone(Completions(tried, d)[i])
  {
    var cs := Completions(tried, d);
    if Gone(cs[i]) {
      assert cs[i] in cs;
    }
    if c :| c in cs && Gone(c) && c.endpoint == tried[i].endpoint {
      var k :| 0 <= k < |cs| && cs[k] == c;
      assert tried[k].endpoint == tried[i].endpoint;
    }
  }

  /**
   With distinct endpoints, what is deleted are the stored subscriptions, tried or
   not, that have the user and the endpoint of one that reported gone.
   */
  lemma DeletedWithDistinctEndpoints(
    stored: set<Subscription>, tried: seq<Subscription>, d: seq<Delivery>, s: Subscription)
    requires |tried| == |d| && DistinctEndpoints(tried) && s in stored
    ensures
      s in DeletedBy(stored, tried, d) <==>
      exists i :: 0 <= i < |tried| && Gone(Completions(tried, d)[i]) && SameUserAndEndpoint(s, tried[i])
  {
    OwnersOfTried(tried);
    forall i | 0 <= i < |tried|
      ensures tried[i].endpoint in DeadEndpoints(Completions(tried, d)) <==> Gone(Completions(tried, d)[i])
    {
      DeadIffGone(tried, d, i);
    }
  }

  lemma ExclusiveDeletesExactly(stored: set<Subscription>, tried: seq<Subscription>, d: seq<Delivery>)
    requires |tried| == |d| && TriedFrom(stored, tried) && DistinctEndpoints(tried) && NoDouble(stored, tried)
    ensures DeletesExactly(stored, tried, d)
  {
    forall s | s in stored ensures s in DeletedBy(stored, tried, d) <==> s in GoneOf(tried, d) {
      DeletedWithDistinctEndpoints(stored, tried, d, s);
      if s in tried {
        var k :| 0 <= k < |tried| && tried[k] == s;
      }
    }
  }

  function AllGone(n: nat): seq<Delivery> {
    seq(n, _ => Errored(EndpointNotFound))
  }

  lemma AllGoneAreGone(tried: seq<Subscription>)
    ensures forall i :: 0 <= i < |tried| ==> Gone(Completions(tried, AllGone(|tried|))[i])
    ensures forall i :: 0 <= i < |tried| ==> tried[i] in GoneOf(tried, AllGone(|tried|))
    ensures GoneOf(tried, AllGone(|tried|)) == Elements(tried)
  {
    var d := AllGone(|tried|);
    assert forall i :: 0 <= i < |tried| ==> Completions(tried, d)[i].delivery == Errored(EndpointNotFound);
  }

  /** Two owners behind one endpoint: if both are gone, one of them stays. */
  lemma SharedEndpointSurvives(stored: set<Subscription>, tried: seq<Subscription>, i: nat, j: nat)
    requires TriedFrom(stored, tried) && i < j < |tried| && tried[i].endpoint == tried[j].endpoint
    ensures !DeletesExactly(stored, tried, AllGone(|tried|))
  {
    AllGoneAreGone(tried);
    assert tried[i] in stored && tried[j] in stored && tried[i] != tried[j] && tried[i].app == tried[j].app;
    assert tried[i].user != tried[j].user;
    var deleted := DeletedBy(stored, tried, AllGone(|tried|));
    assert tried[i] !in deleted || tried[j] !in deleted;
  }

  /** A double that was not tried goes with the subscription that reported gone. */
  lemma DoubleIsDeleted(stored: set<Subscription>, tried: seq<Subscription>, s: Subscription, i: nat)
    requires DistinctEndpoints(tried) && i < |tried|
    requires s in stored && s !in tried && SameUserAndEndpoint(s, tried[i])
    ensures s in DeletedBy(stored, tried, AllGone(|tried|)) && !DeletesExactly(stored, tried, AllGone(|tried|))
  {
    AllGoneAreGone(tried);
    DeletedWithDistinctEndpoints(stored, tried, AllGone(|tried|), s);
    assert s !in GoneOf(tried, AllGone(|tried|));
  }

  /**
   Deletion is exact for every report if and only if no two tried subscriptions
   share an endpoint and no other stored one doubles the user and endpoint of a
   tried one.
   */
  lemma ExactDeletionCondition(stored: set<Subscription>, tried: seq<Subscription>)
    requires TriedFrom(stored, tried)
    ensures AlwaysExact(stored, tried) <==> DistinctEndpoints(tried) && NoDouble(stored, tried)
  {
    assert |AllGone(|tried|)| == |tried|;
    if !DistinctEndpoints(tried) {
      var i, j :| 0 <= i < j < |tried| && tried[i].endpoint == tried[j].endpoint;
      SharedEndpointSurvives(stored, tried, i, j);
    } else if !NoDouble(stored, tried) {
      var s, i :| s in stored && s !in tried && 0 <= i < |tried| && SameUserAndEndpoint(s, tried[i]);
      DoubleIsDeleted(stored, tried, s, i);
    } else {
      forall d: seq<Delivery> | |d| == |tried| ensures DeletesExactly(stored, tried, d) {
        ExclusiveDeletesExactly(stored, tried, d);
      }
    }
  }

  // --- The two ways of choosing subscriptions --------------------------------------

  function UserTargets(stored: set<Subscription>, app: string, user: string): set<Subscription> {
    set s | s in stored && s.app == app && s.user == user
  }

  function BroadcastTargets(stored: set<Subscription>, app: string, tag: string): set<Subscription> {
    set s | s in stored && s.app == app && s.endpoint == tag && s.p256dh == "" && s.auth == ""
  }

  /** `tried` lists the targets in some order. */
  ghost predicate Lists(tried: seq<Subscription>, targets: set<Subscription>) {
    Distinct(tried) && Elements(tried) == targets
  }

  lemma ListedAreTried(stored: set<Subscription>, tried: seq<Subscription>, app: string, targets: set<Subscription>)
    requires UniqueKeys(stored) && Lists(tried, targets) && targets <= stored
    requires forall s :: s in targets ==> s.app == app
    ensures TriedFrom(stored, tried)
    ensures forall s :: s in tried <==> s in targets
  {
    assert forall i :: 0 <= i < |tried| ==> tried[i] in Elements(tried);
    assert forall s :: s in tried <==> s in Elements(tried);
  }

  lemma UserEndpointsDistinct(stored: set<Subscription>, tried: seq<Subscription>, app: string, user: string)
    requires UniqueKeys(stored) && Lists(tried, UserTargets(stored, app, user))
    ensures DistinctEndpoints(tried) && forall i :: 0 <= i < |tried| ==> tried[i] in stored && tried[i].user == user
  {
    ListedAreTried(stored, tried, app, UserTargets(stored, app, user));
    assert forall i :: 0 <= i < |tried| ==> tried[i] in tried;
  }

  /** Some subscription with that endpoint reported gone. */
  ghost predicate EndpointGone(tried: seq<Subscription>, d: seq<Delivery>, endpoint: string)
    requires |tried| == |d|
  {
    exists g :: g in GoneOf(tried, d) && g.endpoint == endpoint
  }

  lemma UserTargetedDeletesOne(
    stored: set<Subscription>, tried: seq<Subscription>, user: string, d: seq<Delivery>, s: Subscription)
    requires |d| == |tried| && DistinctEndpoints(tried) && s in stored
    requires forall i :: 0 <= i < |tried| ==> tried[i].user == user
    ensures s in DeletedBy(stored, tried, d) <==> s.user == user && EndpointGone(tried, d, s.endpoint)
  {
    DeletedWithDistinctEndpoints(stored, tried, d, s);
    if i :| 0 <= i < |tried| && Gone(Completions(tried, d)[i]) && SameUserAndEndpoint(s, tried[i]) {
      assert tried[i] in GoneOf(tried, d);
    }
  }

  /**
   What a user-targeted message deletes: all that the user has, in any
   application, under an endpoint reported gone.
   */
  lemma UserTargetedDeletes(
    stored: set<Subscription>, tried: seq<Subscription>, app: string, user: string, d: seq<Delivery>)
    requires UniqueKeys(stored) && Lists(tried, UserTargets(stored, app, user)) && |d| == |tried|
    ensures DeletedBy(stored, tried, d) == set s | s in stored && s.user == user && EndpointGone(tried, d, s.endpoint)
  {
    UserEndpointsDistinct(stored, tried, app, user);
    forall s | s in stored
      ensures s in DeletedBy(stored, tried, d) <==> s.user == user && EndpointGone(tried, d, s.endpoint)
    {
      UserTargetedDeletesOne(stored, tried, user, d, s);
    }
  }

  /** The user has no subscription of another application at an endpoint used in this one. */
  ghost predicate OwnEndpoints(stored: set<Subscription>, app: string, user: string) {
    forall s, t :: s in stored && t in stored && s.user == t.user == user && s.app != app && t.app == app ==>
      s.endpoint != t.endpoint
  }

  /**
   A user-targeted message deletes exactly what reported gone if and only if
   endpoints are not shared across applications.
   */
  lemma UserTargetedExactIff(stored: set<Subscription>, tried: seq<Subscription>, app: string, user: string)
    requires UniqueKeys(stored) && Lists(tried, UserTargets(stored, app, user))
    ensures AlwaysExact(stored, tried) <==> OwnEndpoints(stored, app, user)
  {
    UserEndpointsDistinct(stored, tried, app, user);
    ListedAreTried(stored, tried, app, UserTargets(stored, app, user));
    ExactDeletionCondition(stored, tried);
    assert forall i :: 0 <= i < |tried| ==> tried[i] in tried;
    if NoDouble(stored, tried) {
      forall s, t | s in stored && t in stored && s.user == t.user == user && s.app != app && t.app == app
        ensures s.endpoint != t.endpoint
      {
        assert t in tried && s !in tried;
        var i :| 0 <= i < |tried| && tried[i] == t;
        assert !SameUserAndEndpoint(s, tried[i]);
      }
    }
  }

  /** For instance: one topic stored for one user in two applications. */
  lemma CrossAppDeleted()
    ensures
      var here, there := Subscription("a", "u", "e", "", ""), Subscription("b", "u", "e", "", "");
      && UniqueKeys({here, there}) && Lists([here], UserTargets({here, there}, "a", "u"))
      && there in DeletedBy({here, there}, [here], AllGone(1)) && there !in GoneOf([here], AllGone(1))
  {
    var here, there := Subscription("a", "u", "e", "", ""), Subscription("b", "u", "e", "", "");
    assert Elements([here]) == {here};
    DoubleIsDeleted({here, there}, [here], there, 0);
    AllGoneAreGone([here]);
  }

  /**
   A broadcast deletes exactly what reported gone if and only if it has at most
   one target, without a double elsewhere.
   */
  lemma BroadcastExactIff(stored: set<Subscription>, tried: seq<Subscription>, app: string, tag: string)
    requires UniqueKeys(stored) && Lists(tried, BroadcastTargets(stored, app, tag))
    ensures
      AlwaysExact(stored, tried) <==>
      |tried| <= 1 && forall s, t :: s in stored && t in tried && SameUserAndEndpoint(s, t) ==> s == t
  {
    ListedAreTried(stored, tried, app, BroadcastTargets(stored, app, tag));
    ExactDeletionCondition(stored, tried);
    forall i | 0 <= i < |tried| ensures tried[i].endpoint == tag {
      assert tried[i] in tried;
    }
    if |tried| <= 1 && NoDouble(stored, tried) {
      forall s, t | s in stored && t in tried && SameUserAndEndpoint(s, t) ensures s == t {
        assert t == tried[0];
      }
    }
    if |tried| > 1 {
      assert tried[0].endpoint == tried[1].endpoint;
    }
  }
}
