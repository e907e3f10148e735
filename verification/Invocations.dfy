/**
 Function invocations and their retries.  A retry records the invocation it
 repeats as its parent, so invocations form trees; the console walks up to the
 root with a loop and lists a tree with a recursive query.
 */
module Invocations {
  import opened Common
  import opened Text

  datatype Invocation = Invocation(functionId: string, retryCount: int, parent: Option<string>)

  type Log = map<string, Invocation>

  datatype Request =
    | Invoke(functionId: string, id: string)
    | Retry(functionId: string, target: string, id: string)

  /** The row is addressed by function and id, so a foreign id is not found. */
  predicate Found(log: Log, functionId: string, id: string) {
    id in log && log[id].functionId == functionId
  }

  /** One handler call; `id` is the new row's id, and a taken id makes the insert fail. */
  function Handle(log: Log, r: Request): Log {
    match r
    case Invoke(functionId, id) =>
      if id in log then log else log[id := Invocation(functionId, 0, None)]
    case Retry(functionId, target, id) =>
      if !Found(log, functionId, target) || id in log then log
      else log[id := Invocation(functionId, log[target].retryCount + 1, Some(target))]
  }

  function Run(requests: seq<Request>): Log {
    if requests == [] then map[] else Handle(Run(Init(requests)), Last(requests))
  }

  // --- Shape -----------------------------------------------------------------

  /** Roots have retry count 0; a retry belongs to its parent's function and counts one more. */
  ghost predicate WellFormed(log: Log) {
    forall id :: id in log ==> Linked(log, id)
  }

  ghost predicate Linked(log: Log, id: string)
    requires id in log
  {
    match log[id].parent
    case None => log[id].retryCount == 0
    case Some(p) => Found(log, log[id].functionId, p) && log[id].retryCount == log[p].retryCount + 1 >= 1
  }

  lemma HandleKeepsShape(log: Log, r: Request)
    requires WellFormed(log)
    ensures WellFormed(Handle(log, r))
  {
    assert r.Retry? && r.target in log ==> log[r.target].retryCount >= 0;
  }

  lemma {:induction false} RunShape(requests: seq<Request>)
    ensures WellFormed(Run(requests))
  {
    if requests != [] {
      RunShape(Init(requests));
      HandleKeepsShape(Run(Init(requests)), Last(requests));
    }
  }

  // --- Trees -------------------------------------------------------------------

  /** `a` is reached from `b` by following parents, in zero or more steps. */
  ghost predicate Descends(log: Log, b: string, a: string, steps: nat)
    decreases steps
  {
    b in log && if steps == 0 then b == a else log[b].parent.Some? && Descends(log, log[b].parent.value, a, steps - 1)
  }

  ghost predicate IsRoot(log: Log, r: string) {
    r in log && log[r].parent == None
  }

  ghost function Root(log: Log, id: string): (r: string)
    requires WellFormed(log) && id in log
    ensures IsRoot(log, r) && log[r].functionId == log[id].functionId
    decreases log[id].retryCount
  {
    match log[id].parent
    case None => id
    case Some(p) => Root(log, p)
  }

  /** The root lies exactly `retryCount` parents up. */
  lemma {:induction false} RootDistance(log: Log, id: string)
    requires WellFormed(log) && id in log
    ensures log[id].retryCount >= 0 && Descends(log, id, Root(log, id), log[id].retryCount)
    decreases log[id].retryCount
  {
    match log[id].parent
    case None =>
    case Some(p) => RootDistance(log, p);
  }

  /** Whoever is an ancestor has the same root, as many counts up as there are steps. */
  lemma {:induction false} AncestorSharesRoot(log: Log, id: string, a: string, steps: nat)
    requires WellFormed(log) && Descends(log, id, a, steps)
    ensures a in log && Root(log, a) == Root(log, id)
    ensures log[a].retryCount + steps == log[id].retryCount
    decreases steps
  {
    if steps > 0 {
      var p := log[id].parent.value;
      AncestorSharesRoot(log, p, a, steps - 1);
      assert Root(log, id) == Root(log, p);
    }
  }

  /** Members of one tree find one root: two invocations with a common ancestor agree. */
  lemma CommonAncestorCommonRoot(log: Log, x: string, y: string, a: string, i: nat, j: nat)
    requires WellFormed(log) && Descends(log, x, a, i) && Descends(log, y, a, j)
    ensures Root(log, x) == Root(log, y)
    ensures IsRoot(log, a) ==> a == Root(log, x)
  {
    AncestorSharesRoot(log, x, a, i);
    AncestorSharesRoot(log, y, a, j);
  }

  ghost function Tree(log: Log, r: string): set<string>
    requires WellFormed(log)
  {
    set id | id in log && Root(log, id) == r
  }

  function Children(log: Log, functionId: string, id: string): set<string> {
    set c | c in log && log[c].functionId == functionId && log[c].parent == Some(id)
  }

  /** A set that has the root and with every member its retries has the whole tree. */
  lemma {:induction false} ClosedHoldsTree(log: Log, r: string, got: set<string>, id: string)
    requires WellFormed(log) && IsRoot(log, r) && r in got
    requires forall x :: x in got && x in log ==> Children(log, log[r].functionId, x) <= got
    requires id in Tree(log, r)
    ensures id in got
    decreases log[id].retryCount
  {
    if log[id].parent.Some? {
      var p := log[id].parent.value;
      ClosedHoldsTree(log, r, got, p);
      assert id in Children(log, log[r].functionId, p);
    }
  }

  // --- What the handlers store ---------------------------------------------------

  /** Everything that was stored is as it was. */
  ghost predicate Keeps(log: Log, after: Log) {
    forall x :: x in log ==> x in after && after[x] == log[x]
  }

  lemma {:induction false} RootKept(log: Log, after: Log, id: string)
    requires WellFormed(log) && WellFormed(after) && Keeps(log, after) && id in log
    ensures Root(after, id) == Root(log, id)
    decreases log[id].retryCount
  {
    assert Linked(log, id);
    match log[id].parent
    case None =>
    case Some(p) => RootKept(log, after, p);
  }

  /** An invocation under a free id starts a tree of its own; everything else stays. */
  lemma InvokeEffect(log: Log, functionId: string, id: string)
    requires WellFormed(log)
    ensures
      var after := Handle(log, Invoke(functionId, id));
      && Keeps(log, after)
      && (id in log ==> after == log)
      && (id !in log ==> after.Keys == log.Keys + {id} && after[id] == Invocation(functionId, 0, None))
      && WellFormed(after) && (id !in log ==> Tree(after, id) == {id})
  {
    var after := Handle(log, Invoke(functionId, id));
    HandleKeepsShape(log, Invoke(functionId, id));
    forall x | x in log ensures Root(after, x) == Root(log, x) {
      RootKept(log, after, x);
    }
  }

  /** A retry of a stored invocation joins its tree, one count further from the root; everything else stays. */
  lemma RetryEffect(log: Log, functionId: string, target: string, id: string)
    requires WellFormed(log)
    ensures
      var after := Handle(log, Retry(functionId, target, id));
      && Keeps(log, after) && WellFormed(after)
      && (!(target in log && log[target].functionId == functionId) || id in log ==> after == log)
      && (target in log && log[target].functionId == functionId && id !in log ==>
            && after.Keys == log.Keys + {id}
            && after[id].functionId == functionId && after[id].parent == Some(target)
            && after[id].retryCount == log[target].retryCount + 1
            && Root(after, id) == Root(log, target)
            && Tree(after, Root(log, target)) == Tree(log, Root(log, target)) + {id})
  {
    var after := Handle(log, Retry(functionId, target, id));
    HandleKeepsShape(log, Retry(functionId, target, id));
    forall x | x in log ensures Root(after, x) == Root(log, x) {
      RootKept(log, after, x);
    }
  }

  // --- The handlers' loops -----------------------------------------------------

  /** Walking up to the root; `hops` counts the loads after the first. */
  method FindRootInvocationId(log: Log, functionId: string, id: string) returns (root: Option<string>, hops: nat)
    requires WellFormed(log)
    ensures root.None? <==> !Found(log, functionId, id)
    ensures root.Some? ==> root.value == Root(log, id) && hops == log[id].retryCount
  {
    hops := 0;
    if !Found(log, functionId, id) {
      return None, 0;
    }
    var current := id;
    while log[current].parent.Some?
      invariant Found(log, functionId, current) && Root(log, current) == Root(log, id)
      invariant hops + log[current].retryCount == log[id].retryCount
      decreases log[current].retryCount
    {
      var parent := log[current].parent.value;
      if !Found(log, functionId, parent) {
        assert false;
      }
      current, hops := parent, hops + 1;
    }
    root := Some(current);
  }

  /** Progress of the recursive query: `got` are the rows returned, `q` the rows still to expand. */
  ghost predicate Expanding(log: Log, r: string, got: seq<string>, q: seq<string>)
    requires WellFormed(log) && IsRoot(log, r)
  {
    var all := got + q;
    && Distinct(all) && r in all
    && (forall x :: x in all ==> x in Tree(log, r))
    && (forall x :: x in all && x != r ==> log[x].parent.Some? && log[x].parent.value in got)
    && (forall x :: x in got ==> forall c :: c in Children(log, log[r].functionId, x) ==> c in all)
  }

  lemma KidIsNew(log: Log, r: string, got: seq<string>, q: seq<string>, k: string)
    requires WellFormed(log) && IsRoot(log, r) && Expanding(log, r, got, q) && q != []
    requires k in Children(log, log[r].functionId, q[0])
    ensures k !in got + q && k in Tree(log, r)
  {
    assert q[0] == (got + q)[|got|];
    assert Root(log, k) == Root(log, q[0]);
    assert q[0] !in got by {
      assert forall i :: 0 <= i < |got| ==> got[i] == (got + q)[i];
    }
  }

  lemma ExpandOne(log: Log, r: string, got: seq<string>, q: seq<string>, kids: seq<string>)
    requires WellFormed(log) && IsRoot(log, r) && Expanding(log, r, got, q) && q != []
    requires Distinct(kids) && Elements(kids) == Children(log, log[r].functionId, q[0])
    ensures Expanding(log, r, got + [q[0]], q[1..] + kids)
  {
    var all := got + q;
    forall k | k in kids ensures k !in all && k in Tree(log, r) && log[k].parent == Some(q[0]) {
      assert k in Elements(kids);
      KidIsNew(log, r, got, q, k);
    }
    DistinctAppend(all, kids);
    assert (got + [q[0]]) + (q[1..] + kids) == all + kids;
    assert forall c :: c in Elements(kids) ==> c in kids;
  }

  /** The recursive query: start at the root, and add the retries of every row taken from the queue. */
  method ListAttempts(log: Log, functionId: string, id: string) returns (attempts: Option<seq<string>>)
    requires WellFormed(log)
    ensures attempts.None? <==> !Found(log, functionId, id)
    ensures attempts.Some? ==> Distinct(attempts.value) && Elements(attempts.value) == Tree(log, Root(log, id))
  {
    var root, _ := FindRootInvocationId(log, functionId, id);
    if root.None? {
      return None;
    }
    var r := root.value;
    var got: seq<string>, q := [], [r];
    while q != []
      invariant Expanding(log, r, got, q)
      decreases |Tree(log, r)| - |got|
    {
      var kids := Enumerate(Children(log, functionId, q[0]));
      ExpandOne(log, r, got, q, kids);
      GotWithinTree(log, r, got, q);
      got, q := got + [q[0]], q[1..] + kids;
    }
    assert got + q == got;
    forall x | x in Tree(log, r) ensures x in Elements(got) {
      ClosedHoldsTree(log, r, Elements(got), x);
    }
    attempts := Some(got);
  }

  lemma GotWithinTree(log: Log, r: string, got: seq<string>, q: seq<string>)
    requires WellFormed(log) && IsRoot(log, r) && Expanding(log, r, got, q)
    ensures |got| <= |Tree(log, r)|
    ensures q != [] ==> |got| < |Tree(log, r)|
  {
    var all := got + q;
    DistinctSize(all);
    SubsetSize(Elements(all), Tree(log, r));
  }

  /** The store of invocations as the handlers update it. */
  class InvocationStore {
    var log: Log

    constructor ()
      ensures log == Run([])
    {
      log := map[];
    }

    /** Insert one row, as every invocation does. */
    method RunFunctionInvocation(
      functionId: string, id: string, retryCount: int, parent: Option<string>)
      returns (ok: bool)
      modifies this
      ensures ok == (id !in old(log))
      ensures log == if ok then old(log)[id := Invocation(functionId, retryCount, parent)] else old(log)
    {
      ok := id !in log;
      if ok {
        log := log[id := Invocation(functionId, retryCount, parent)];
      }
    }

    method InvokeFunction(functionId: string, id: string) returns (ok: bool)
      modifies this
      ensures log == Handle(old(log), Invoke(functionId, id)) && ok == (id !in old(log))
    {
      ok := RunFunctionInvocation(functionId, id, 0, None);
    }

    method RetryFunctionInvocation(functionId: string, target: string, id: string) returns (ok: bool)
      modifies this
      ensures log == Handle(old(log), Retry(functionId, target, id))
      ensures ok == (Found(old(log), functionId, target) && id !in old(log))
    {
      if !Found(log, functionId, target) {
        return false;
      }
      ok := RunFunctionInvocation(functionId, id, log[target].retryCount + 1, Some(target));
    }
  }
}
