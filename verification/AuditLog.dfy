/**
 The audit log of an application and its keyset pagination.  A page ends with a
 cursor naming its last entry; the next request returns what sorts below it.
 */
module AuditLog {
  import opened Common
  import opened Text
  import opened Ordering

  datatype Entry = Entry(app: Option<string>, actor: string, action: string, targetType: string, createdAt: string)

  /** Entries by id, the primary key. */
  type Log = map<string, Entry>

  datatype Query = Query(app: string, action: Option<string>, targetType: Option<string>, actor: Option<string>)

  predicate Passes(filter: Option<string>, value: string) {
    filter.None? || filter.value == value
  }

  predicate Matches(q: Query, e: Entry) {
    e.app == Some(q.app) && Passes(q.action, e.action) && Passes(q.targetType, e.targetType) && Passes(q.actor, e.actor)
  }

  // --- Cursors -----------------------------------------------------------------

  function FormatCursor(k: Key): string {
    k.at + "|" + k.id
  }

  function ParseCursor(cursor: Option<string>): Option<Key> {
    if cursor.None? then None
    else
      var i := Find(cursor.value, "|");
      if i < 0 then None else Some(Key(cursor.value[..i], cursor.value[i + 1..]))
  }

  /** A cursor comes back as it was written if and only if its time has no separator in it. */
  lemma CursorRoundTrip(k: Key)
    ensures ParseCursor(Some(FormatCursor(k))) == Some(k) <==> '|' !in k.at
  {
    var text, n := FormatCursor(k), |k.at|;
    assert OccursAt(text, "|", n) by {
      assert text[n..n + 1] == "|";
    }
    var i := Find(text, "|");
    assert text[i..i + 1] == "|" && text[i] == '|';
    if '|' in k.at {
      var j :| 0 <= j < n && k.at[j] == '|';
      assert text[j..j + 1] == "|" && OccursAt(text, "|", j);
      assert |text[..i]| < n;
    } else {
      assert forall j :: 0 <= j < n ==> text[j] == k.at[j];
      assert i == n;
      assert text[..n] == k.at && text[n + 1..] == k.id;
    }
  }

  /** A cursor without a separator is ignored, as is a missing one. */
  lemma MalformedCursorIgnored(text: string)
    requires '|' !in text
    ensures ParseCursor(Some(text)) == None && ParseCursor(None) == None
  {
    HeadOccurs(text, "|");
  }

  // --- One page ----------------------------------------------------------------

  /** The entries a request may return: those of the query that sort below the cursor. */
  function Candidates(log: Log, q: Query, cursor: Option<Key>): set<Key> {
    set id | id in log && Matches(q, log[id])
             && (cursor.Some? ==> Before(Key(log[id].createdAt, id), cursor.value)) :: Key(log[id].createdAt, id)
  }

  function Limit(limit: Option<int>): nat {
    var l := limit.GetOr(50);
    if l < 1 then 1 else if l > 100 then 100 else l
  }

  /** What a request may return, in terms of the stored entries alone. */
  lemma CandidateIff(log: Log, q: Query, cursor: Option<Key>, id: string, at: string)
    ensures
      Key(at, id) in Candidates(log, q, cursor) <==>
      && id in log && log[id].createdAt == at && log[id].app == Some(q.app)
      && (q.action.Some? ==> log[id].action == q.action.value)
      && (q.targetType.Some? ==> log[id].targetType == q.targetType.value)
      && (q.actor.Some? ==> log[id].actor == q.actor.value)
      && (cursor.Some? ==> Less(at, cursor.value.at) || (at == cursor.value.at && Less(id, cursor.value.id)))
  {
  }

  /** Page sizes run from 1 to 100, and 50 is the default. */
  lemma LimitBounds(limit: Option<int>)
    ensures 1 <= Limit(limit) <= 100
    ensures limit.Some? && 1 <= limit.value <= 100 ==> Limit(limit) == limit.value
    ensures limit.None? ==> Limit(limit) == 50
  {
  }

  ghost function ListActivity(
    log: Log, q: Query, cursor: Option<string>, limit: Option<int>): (seq<Key>, Option<string>)
  {
    var sorted := SortDescending(Candidates(log, q, ParseCursor(cursor)));
    var page := if |sorted| <= Limit(limit) then sorted else sorted[..Limit(limit)];
    (page, if page == [] then None else Some(FormatCursor(Last(page))))
  }

  /** What a page leaves out sorts below everything on it, and it is empty only if nothing is left. */
  lemma PageIsTop(log: Log, q: Query, cursor: Option<string>, limit: Option<int>)
    ensures
      var (page, _) := ListActivity(log, q, cursor, limit);
      var all := Candidates(log, q, ParseCursor(cursor));
      && Descending(page)
      && (forall k :: k in page ==> k in all)
      && (page == [] <==> all == {})
      && (page != [] ==> forall k :: k in all && k !in page ==> Before(k, Last(page)))
  {
    var (page, _) := ListActivity(log, q, cursor, limit);
    var all := Candidates(log, q, ParseCursor(cursor));
    var sorted := SortDescending(all);
    SortDescendingSorts(all);
    assert forall k :: k in sorted <==> k in Elements(sorted);
    assert page == sorted[..|page|];
    assert forall i :: 0 <= i < |page| ==> sorted[i] == page[i];
    if page != [] {
      forall k | k in all && k !in page ensures Before(k, Last(page)) {
        var i :| 0 <= i < |sorted| && sorted[i] == k;
        assert i >= |page|;
        assert Last(page) == sorted[|page| - 1];
      }
    }
  }

  // --- Following the cursor ------------------------------------------------------

  /** A page has as many entries as asked for or as there are, newest first, ties by id downwards. */
  lemma PageNewestFirst(log: Log, q: Query, cursor: Option<string>, limit: Option<int>)
    ensures
      var page, all := ListActivity(log, q, cursor, limit).0, Candidates(log, q, ParseCursor(cursor));
      && |page| == (if |all| <= Limit(limit) then |all| else Limit(limit))
      && (forall k :: k in page ==> k in all)
      && forall i, j :: 0 <= i < j < |page| ==>
           Less(page[j].at, page[i].at) || (page[j].at == page[i].at && Less(page[j].id, page[i].id))
  {
    SortDescendingSorts(Candidates(log, q, ParseCursor(cursor)));
    PageIsTop(log, q, cursor, limit);
    var page := ListActivity(log, q, cursor, limit).0;
    forall i, j | 0 <= i < j < |page|
      ensures Less(page[j].at, page[i].at) || (page[j].at == page[i].at && Less(page[j].id, page[i].id))
    {
      assert Before(page[j], page[i]);
    }
  }

  /** One request of a client that pages through the log as it stands at that moment. */
  datatype Request = Request(log: Log, limit: Option<int>)

  /** The pages the client sees; it stops at the first empty one. */
  ghost function Pages(q: Query, cursor: Option<string>, requests: seq<Request>): seq<seq<Key>>
    decreases |requests|
  {
    if requests == [] then []
    else
      var (page, next) := ListActivity(requests[0].log, q, cursor, requests[0].limit);
      if page == [] then [page] else [page] + Pages(q, next, requests[1..])
  }

  function Flatten(pages: seq<seq<Key>>): seq<Key> {
    if pages == [] then [] else pages[0] + Flatten(pages[1..])
  }

  /** The log only grows between requests, and creation times are free of the separator. */
  ghost predicate Growing(requests: seq<Request>) {
    && (forall i, id :: 0 <= i < |requests| && id in requests[i].log ==> '|' !in requests[i].log[id].createdAt)
    && (forall i, j, id :: 0 <= i < j < |requests| && id in requests[i].log ==>
          id in requests[j].log && requests[j].log[id] == requests[i].log[id])
  }

  lemma NextCursorParses(log: Log, q: Query, cursor: Option<string>, limit: Option<int>)
    requires forall id :: id in log ==> '|' !in log[id].createdAt
    ensures
      var (page, next) := ListActivity(log, q, cursor, limit);
      page != [] ==> ParseCursor(next) == Some(Last(page))
  {
    var (page, next) := ListActivity(log, q, cursor, limit);
    if page != [] {
      PageIsTop(log, q, cursor, limit);
      assert Last(page) in page;
      CursorRoundTrip(Last(page));
    }
  }

  lemma CandidatesGrow(log: Log, later: Log, q: Query, cursor: Option<Key>)
    requires forall id :: id in log ==> id in later && later[id] == log[id]
    ensures Candidates(log, q, cursor) <= Candidates(later, q, cursor)
  {
  }

  /** Candidates below a lower cursor are candidates below a higher one. */
  lemma CandidatesBelow(log: Log, q: Query, cursor: Option<Key>, lower: Key, k: Key)
    requires cursor.Some? ==> Before(lower, cursor.value)
    requires k in Candidates(log, q, Some(lower))
    ensures k in Candidates(log, q, cursor) && Before(k, lower)
  {
    if cursor.Some? {
      BeforeTransitive(k, lower, cursor.value);
    }
  }

  lemma DescendingAppend(a: seq<Key>, b: seq<Key>)
    requires a != [] && Descending(a) && Descending(b) && forall k :: k in b ==> Before(k, Last(a))
    ensures Descending(a + b)
  {
    forall i, j | 0 <= i < j < |a + b| ensures Before((a + b)[j], (a + b)[i]) {
      if i < |a| <= j {
        assert b[j - |a|] in b;
        if i < |a| - 1 {
          BeforeTransitive((a + b)[j], Last(a), a[i]);
        }
      }
    }
  }

  /** The pages seen from a cursor on descend strictly, below the cursor, through existing entries only. */
  lemma {:induction false} PagesDescend(q: Query, cursor: Option<string>, requests: seq<Request>)
    requires Growing(requests) && requests != []
    ensures Descending(Flatten(Pages(q, cursor, requests)))
    ensures
      forall k :: k in Flatten(Pages(q, cursor, requests)) ==>
                    k in Candidates(Last(requests).log, q, ParseCursor(cursor))
    decreases |requests|
  {
    var (page, next) := ListActivity(requests[0].log, q, cursor, requests[0].limit);
    PageIsTop(requests[0].log, q, cursor, requests[0].limit);
    CandidatesGrow(requests[0].log, Last(requests).log, q, ParseCursor(cursor));
    if page == [] || |requests| == 1 {
      FlattenOne(page, Pages(q, next, requests[1..]));
    } else {
      var later := requests[1..];
      assert Last(later) == Last(requests);
      PagesDescend(q, next, later);
      NextCursorParses(requests[0].log, q, cursor, requests[0].limit);
      assert Last(page) in page;
      var rest := Flatten(Pages(q, next, later));
      forall k | k in rest
        ensures Before(k, Last(page)) && k in Candidates(Last(requests).log, q, ParseCursor(cursor))
      {
        CandidatesBelow(Last(requests).log, q, ParseCursor(cursor), Last(page), k);
      }
      DescendingAppend(page, rest);
      FlattenOne(page, Pages(q, next, later));
    }
  }

  lemma FlattenOne(page: seq<Key>, more: seq<seq<Key>>)
    ensures Flatten([page] + more) == page + Flatten(more)
    ensures Flatten([page]) == page
  {
    assert ([page] + more)[1..] == more;
    assert [page][1..] == [];
  }

  /** Once an empty page is reached, nothing that was there at the first request has been missed. */
  lemma {:induction false} PagesComplete(q: Query, cursor: Option<string>, requests: seq<Request>, k: Key)
    requires Growing(requests) && requests != []
    requires Last(Pages(q, cursor, requests)) == []
    requires k in Candidates(requests[0].log, q, ParseCursor(cursor))
    ensures k in Flatten(Pages(q, cursor, requests))
    decreases |requests|
  {
    var (page, next) := ListActivity(requests[0].log, q, cursor, requests[0].limit);
    PageIsTop(requests[0].log, q, cursor, requests[0].limit);
    var later := requests[1..];
    FlattenOne(page, Pages(q, next, later));
    if k !in page {
      NextCursorParses(requests[0].log, q, cursor, requests[0].limit);
      assert Pages(q, cursor, requests) == [page] + Pages(q, next, later);
      assert later != [];
      assert Last(Pages(q, cursor, requests)) == Last(Pages(q, next, later));
      CandidatesGrow(requests[0].log, later[0].log, q, Some(Last(page)));
      PagesComplete(q, next, later, k);
    }
  }

  /** Each page but the empty one brings something new, so enough requests reach the empty page. */
  lemma {:induction false} PagesEnd(q: Query, cursor: Option<string>, requests: seq<Request>)
    requires requests != []
    ensures
      var pages := Pages(q, cursor, requests);
      pages != [] && (Last(pages) == [] || |pages| == |requests| <= |Flatten(pages)|)
    decreases |requests|
  {
    var (page, next) := ListActivity(requests[0].log, q, cursor, requests[0].limit);
    var more := Pages(q, next, requests[1..]);
    FlattenOne(page, more);
    if page != [] {
      if |requests| == 1 {
        assert more == [] && [page] + more == [page];
      } else {
        PagesEnd(q, next, requests[1..]);
        assert Last([page] + more) == Last(more);
      }
    }
  }

  /**
   Paging from the start: the client sees the entries in strictly descending
   order, so none twice; with more requests than entries it reaches an empty
   page; and then it has seen every entry present at the first request.
   */
  lemma PagingIsExact(q: Query, requests: seq<Request>)
    requires Growing(requests) && requests != []
    ensures Descending(Flatten(Pages(q, None, requests))) && Distinct(Flatten(Pages(q, None, requests)))
    ensures
      |requests| > |Candidates(Last(requests).log, q, None)| ==> Last(Pages(q, None, requests)) == []
    ensures
      Last(Pages(q, None, requests)) == [] ==>
        Candidates(requests[0].log, q, None) <= Elements(Flatten(Pages(q, None, requests)))
        <= Candidates(Last(requests).log, q, None)
  {
    var seen := Flatten(Pages(q, None, requests));
    PagesDescend(q, None, requests);
    DescendingDistinct(seen);
    PagesEnd(q, None, requests);
    DistinctSize(seen);
    SubsetSize(Elements(seen), Candidates(Last(requests).log, q, None));
    if Last(Pages(q, None, requests)) == [] {
      forall k | k in Candidates(requests[0].log, q, None) ensures k in Elements(seen) {
        PagesComplete(q, None, requests, k);
      }
    }
  }

  /** The log as handlers append to it. */
  class AuditStore {
    var log: Log

    constructor ()
      ensures log == map[]
    {
      log := map[];
    }

    /** An insert under a taken id fails; either way, recorded entries stay as they are. */
    method RecordAuditLog(id: string, entry: Entry) returns (ok: bool)
      modifies this
      ensures ok == (id !in old(log))
      ensures log == if ok then old(log)[id := entry] else old(log)
      ensures forall k :: k in old(log) ==> k in log && log[k] == old(log)[k]
    {
      ok := id !in log;
      if ok {
        log := log[id := entry];
      }
    }
  }
}
