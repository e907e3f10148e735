/** Listing the rows of a table: the compiled query run against the whole store. */
module ListRows {
  import opened Common
  import opened Ordering
  import opened Schema
  import opened DataStore
  import opened RowQuery
  import opened QueryBuilder

  predicate CanReadTable(claims: Claims, policy: Policy) {
    if policy.rules.Some? && policy.rules.value.read.Some? then
      EvaluateRule(policy.rules.value.read.value, claims, None)
    else if policy.mode == ADMIN_ONLY then claims.isAdmin
    else policy.mode == OWNER_PRIVATE || policy.mode == SHARED_RW
  }

  /** Private tables show everybody but administrators their own rows only. */
  function OwnerFilter(claims: Claims, policy: Policy): Option<string> {
    if policy.mode == OWNER_PRIVATE && !claims.isAdmin then Some(claims.sub) else None
  }

  /** Who may list a table: by the read rule, which asks owners nothing here, or else by the mode. */
  lemma ReadTableByRule(claims: Claims, mode: string, rules: Rules)
    ensures
      rules.read == Some("public") || rules.read == Some("authenticated") || rules.read == Some("owner") ==>
        CanReadTable(claims, Policy(mode, Some(rules)))
    ensures rules.read == Some("admin") ==> (CanReadTable(claims, Policy(mode, Some(rules))) <==> claims.isAdmin)
    ensures
      rules.read == None ==>
        (CanReadTable(claims, Policy(mode, Some(rules))) <==> CanReadTable(claims, Policy(mode, None)))
    ensures CanReadTable(claims, Policy("admin_only", None)) <==> claims.isAdmin
    ensures CanReadTable(claims, Policy("owner_private", None))
    ensures CanReadTable(claims, Policy("authenticated_shared_rw", None))
    ensures !CanReadTable(claims, Policy("custom", None))
  {
    assert "custom"[0] == 'c' && OWNER_PRIVATE[0] == 'o' && SHARED_RW[0] == 'a' && ADMIN_ONLY[0] == 'a';
    assert SHARED_RW[1] == 'u' && ADMIN_ONLY[1] == 'd';
  }

  /** A row outside the table, application or owner is never selected, whatever its data is. */
  lemma OutOfScopeNotSelected(
    env: Env, p: ListParams, schema: Schema, app: string, tableId: string, owner: Option<string>,
    fields: seq<string>, row: StoredRow)
    requires !InScope(app, tableId, owner, row)
    ensures
      var part := WherePart(env, p, schema, app, tableId, owner, fields);
      !Selects(env, part.conditions, part.binds, row)
  {
    var scope := ScopePart(app, tableId, owner);
    var part := WherePart(env, p, schema, app, tableId, owner, fields);
    var rest := Joined(Joined(Joined(SearchPart(p, fields), TitlePart(p)), DonePart(p)), FilterPart(env, schema, p));
    ScopeMeans(env, app, tableId, owner, row);
    JoinedAssociates(scope, SearchPart(p, fields), TitlePart(p), DonePart(p), FilterPart(env, schema, p));
    FalseScopeDecides(env, scope, rest, row);
  }

  lemma JoinedAssociates(a: Part, b: Part, c: Part, d: Part, e: Part)
    ensures Joined(Joined(Joined(Joined(a, b), c), d), e) == Joined(a, Joined(Joined(Joined(b, c), d), e))
  {
  }

  lemma FalseScopeDecides(env: Env, scope: Part, rest: Part, row: StoredRow)
    requires Means(env, scope, row, false)
    ensures !Selects(env, Joined(scope, rest).conditions, Joined(scope, rest).binds, row)
  {
    PlaceholdersAppend(scope.conditions, rest.conditions);
    if |rest.binds| == PlaceholdersOf(rest.conditions) {
      SelectsAppend(env, scope.conditions, rest.conditions, scope.binds, rest.binds, row);
    }
  }

  /** The rows of the table that the request asks for. */
  ghost function Requested(env: Env, s: Store, key: TableKey, p: ListParams, owner: Option<string>): set<string>
    requires key in s.tables
  {
    var t := s.tables[key];
    set r | r in s.rows && Wanted(env, t.schema, p, key.app, t.id, owner, s.rows[r])
  }

  lemma SelectedIffWanted(
    env: Env, rfc3339: string -> bool, s: Store, key: TableKey, p: ListParams, owner: Option<string>,
    fields: seq<string>, row: StoredRow)
    requires key in s.tables && RowOk(rfc3339, s, row) && ValidListParams(env, s.tables[key].schema, p)
    requires Elements(fields) == StringFields(s.tables[key].schema)
    ensures
      var t := s.tables[key];
      var part := WherePart(env, p, t.schema, key.app, t.id, owner, fields);
      Selects(env, part.conditions, part.binds, row) <==> Wanted(env, t.schema, p, key.app, t.id, owner, row)
  {
    var t := s.tables[key];
    if InScope(key.app, t.id, owner, row) {
      WhereSelectsWanted(env, rfc3339, p, t.schema, key.app, t.id, owner, fields, row);
    } else {
      OutOfScopeNotSelected(env, p, t.schema, key.app, t.id, owner, fields, row);
    }
  }

  /** Run over the whole store, the query selects exactly the requested rows. */
  lemma QuerySelectsRequested(
    env: Env, rfc3339: string -> bool, s: Store, key: TableKey, p: ListParams, owner: Option<string>,
    fields: seq<string>)
    requires Inv(rfc3339, s) && key in s.tables
    requires ValidListParams(env, s.tables[key].schema, p)
    requires Elements(fields) == StringFields(s.tables[key].schema)
    ensures
      var t := s.tables[key];
      var part := WherePart(env, p, t.schema, key.app, t.id, owner, fields);
      (set r | r in s.rows && Selects(env, part.conditions, part.binds, s.rows[r])) == Requested(env, s, key, p, owner)
  {
    var t := s.tables[key];
    var part := WherePart(env, p, t.schema, key.app, t.id, owner, fields);
    forall r | r in s.rows
      ensures
        Selects(env, part.conditions, part.binds, s.rows[r]) <==>
        Wanted(env, t.schema, p, key.app, t.id, owner, s.rows[r])
    {
      SelectedIffWanted(env, rfc3339, s, key, p, owner, fields, s.rows[r]);
    }
  }

  // --- Sorting and paging ------------------------------------------------------------------

  /** One row may stand before another. */
  predicate MayPrecede(env: Env, q: RowQuery, a: StoredRow, b: StoredRow) {
    var x, y := OperandValue(env, a, q.orderBy), OperandValue(env, b, q.orderBy);
    if q.descending then AtMost(y, x) else AtMost(x, y)
  }

  lemma MayPrecedeTotal(env: Env, q: RowQuery, a: StoredRow, b: StoredRow)
    ensures MayPrecede(env, q, a, b) || MayPrecede(env, q, b, a)
  {
    AtMostTotal(OperandValue(env, a, q.orderBy), OperandValue(env, b, q.orderBy));
  }

  lemma MayPrecedeTransitive(env: Env, q: RowQuery, a: StoredRow, b: StoredRow, c: StoredRow)
    requires MayPrecede(env, q, a, b) && MayPrecede(env, q, b, c)
    ensures MayPrecede(env, q, a, c)
  {
    var x, y, z := OperandValue(env, a, q.orderBy), OperandValue(env, b, q.orderBy), OperandValue(env, c, q.orderBy);
    if q.descending {
      AtMostTransitive(z, y, x);
    } else {
      AtMostTransitive(x, y, z);
    }
  }

  ghost predicate InOrder(env: Env, q: RowQuery, rows: map<string, StoredRow>, listing: seq<string>) {
    && (forall i :: 0 <= i < |listing| ==> listing[i] in rows)
    && forall i, j :: 0 <= i < j < |listing| ==> MayPrecede(env, q, rows[listing[i]], rows[listing[j]])
  }

  /** The selected rows, each once, in the order of the query; rows that tie may come either way. */
  ghost predicate IsListing(
    env: Env, q: RowQuery, rows: map<string, StoredRow>, selected: set<string>, listing: seq<string>)
  {
    Distinct(listing) && Elements(listing) == selected && InOrder(env, q, rows, listing)
  }

  lemma InsertKeepsOrder(env: Env, q: RowQuery, rows: map<string, StoredRow>, listing: seq<string>, k: nat, id: string)
    requires InOrder(env, q, rows, listing) && k <= |listing| && id in rows
    requires forall i :: 0 <= i < k ==> MayPrecede(env, q, rows[listing[i]], rows[id])
    requires k < |listing| ==> MayPrecede(env, q, rows[id], rows[listing[k]])
    ensures InOrder(env, q, rows, listing[..k] + [id] + listing[k..])
  {
    forall j | k < j < |listing| ensures MayPrecede(env, q, rows[id], rows[listing[j]]) {
      MayPrecedeTransitive(env, q, rows[id], rows[listing[k]], rows[listing[j]]);
    }
  }

  lemma InsertKeepsElements(listing: seq<string>, k: nat, id: string)
    requires Distinct(listing) && k <= |listing| && id !in listing
    ensures Distinct(listing[..k] + [id] + listing[k..])
    ensures Elements(listing[..k] + [id] + listing[k..]) == Elements(listing) + {id}
  {
    assert listing == listing[..k] + listing[k..];
    DistinctAppend(listing[..k], [id]);
    DistinctAppend(listing[..k] + [id], listing[k..]);
  }

  /** The database's sort, as an insertion sort. */
  method SortRows(
    env: Env, q: RowQuery, rows: map<string, StoredRow>, selected: set<string>)
    returns (listing: seq<string>)
    requires selected <= rows.Keys
    ensures IsListing(env, q, rows, selected, listing)
  {
    var ids := Enumerate(selected);
    assert forall i :: 0 <= i < |ids| ==> ids[i] in Elements(ids);
    listing := [];
    for n := 0 to |ids|
      invariant IsListing(env, q, rows, Elements(ids[..n]), listing)
    {
      var id, k := ids[n], |listing|;
      while k > 0 && !MayPrecede(env, q, rows[listing[k - 1]], rows[id])
        invariant 0 <= k <= |listing|
        invariant k < |listing| ==> MayPrecede(env, q, rows[id], rows[listing[k]])
      {
        MayPrecedeTotal(env, q, rows[listing[k - 1]], rows[id]);
        k := k - 1;
      }
      PrefixPrecedes(env, q, rows, listing, k, id);
      InsertKeepsOrder(env, q, rows, listing, k, id);
      assert Elements(ids[..n + 1]) == Elements(ids[..n]) + {id} && id !in Elements(ids[..n]);
      InsertKeepsElements(listing, k, id);
      listing := listing[..k] + [id] + listing[k..];
    }
    assert ids[..|ids|] == ids;
  }

  lemma PrefixPrecedes(env: Env, q: RowQuery, rows: map<string, StoredRow>, listing: seq<string>, k: nat, id: string)
    requires InOrder(env, q, rows, listing) && k <= |listing| && id in rows
    requires k > 0 ==> MayPrecede(env, q, rows[listing[k - 1]], rows[id])
    ensures forall i :: 0 <= i < k ==> MayPrecede(env, q, rows[listing[i]], rows[id])
  {
    forall i | 0 <= i < k - 1 ensures MayPrecede(env, q, rows[listing[i]], rows[id]) {
      MayPrecedeTransitive(env, q, rows[listing[i]], rows[listing[k - 1]], rows[id]);
    }
  }

  function Clip(n: nat, bound: nat): nat {
    if n < bound then n else bound
  }

  /** `LIMIT` and `OFFSET`. */
  function PageAt(listing: seq<string>, offset: nat, limit: nat): seq<string> {
    listing[Clip(offset, |listing|)..Clip(offset + limit, |listing|)]
  }

  /** The database reads a negative offset as none. */
  function Skipped(offset: int): nat {
    if offset < 0 then 0 else offset
  }

  predicate HasMore(offset: int, limit: nat, total: nat) {
    AddI64(offset, limit) < total
  }

  /** What a list request answers when it is accepted. */
  ghost predicate IsAnswer(
    env: Env, s: Store, q: RowQuery, requested: set<string>, page: seq<string>, total: nat, hasMore: bool)
  {
    && total == |requested|
    && (hasMore <==> HasMore(q.offset, q.limit, total))
    && exists listing ::
         IsListing(env, q, s.rows, requested, listing) && page == PageAt(listing, Skipped(q.offset), q.limit)
  }

  /** The page asked for is the page returned, whatever is listed, if and only if the offset survives its cast. */
  lemma OffsetHonouredIff(offset: usize, limit: nat)
    requires 1 <= limit <= MAX_LIST_ROWS
    ensures
      (forall listing: seq<string> :: PageAt(listing, Skipped(AsI64(offset)), limit) == PageAt(listing, offset, limit))
      <==> offset < TWO_63
  {
    if offset >= TWO_63 {
      assert PageAt(["r"], Skipped(AsI64(offset)), limit) == ["r"] && PageAt(["r"], offset, limit) == [];
    }
  }

  /** And `has_more` tells the truth, whatever the total is, if and only if the end of the page survives it too. */
  lemma HasMoreHonestIff(offset: usize, limit: nat)
    requires 1 <= limit <= MAX_LIST_ROWS
    ensures
      (forall total: nat :: HasMore(AsI64(offset), limit, total) <==> offset + limit < total)
      <==> offset + limit < TWO_63
  {
    if offset + limit >= TWO_63 {
      assert HasMore(AsI64(offset), limit, limit) && !(offset + limit < limit);
    }
  }

  /** Pages taken from one listing are disjoint, and with those before them they make it up. */
  lemma PagesPartition(listing: seq<string>, offset: nat, limit: nat)
    ensures PageAt(listing, 0, offset) + PageAt(listing, offset, limit) == PageAt(listing, 0, offset + limit)
    ensures offset + limit >= |listing| ==> PageAt(listing, 0, offset + limit) == listing
  {
  }

  /** The rows a client sees who goes on from page to page as long as there are more. */
  function Followed(listing: seq<string>, offset: nat, limit: nat): seq<string>
    requires limit >= 1
    decreases |listing| - offset
  {
    PageAt(listing, offset, limit) +
    if offset + limit < |listing| then Followed(listing, offset + limit, limit) else []
  }

  lemma {:induction false} FollowedRest(listing: seq<string>, offset: nat, limit: nat)
    requires limit >= 1 && offset <= |listing|
    ensures PageAt(listing, 0, offset) + Followed(listing, offset, limit) == listing
    decreases |listing| - offset
  {
    PagesPartition(listing, offset, limit);
    var before, page := PageAt(listing, 0, offset), PageAt(listing, offset, limit);
    if offset + limit < |listing| {
      FollowedRest(listing, offset + limit, limit);
      assert before + (page + Followed(listing, offset + limit, limit)) ==
             (before + page) + Followed(listing, offset + limit, limit);
    }
  }

  /** While the rows and the order of ties do not change, the pages show every row exactly once, in order. */
  lemma PagesShowListing(listing: seq<string>, limit: nat)
    requires limit >= 1
    ensures Followed(listing, 0, limit) == listing
  {
    FollowedRest(listing, 0, limit);
  }

  // --- The order of a page, in terms of the rows -------------------------------------------------

  /** The rows' values of a field, when the first may come before the second in ascending order. */
  ghost predicate FieldAscends(env: Env, x: Row, y: Row, f: string) {
    && (HasValue(x, f) ==> HasValue(y, f))
    && (HasValue(x, f) && x[f].Str? && y[f].Str? ==> !Less(y[f].s, x[f].s))
    && (HasValue(x, f) && (x[f].Int? || x[f].Float?) && (y[f].Int? || y[f].Float?) ==>
          Number(env, x[f]) <= Number(env, y[f]))
    && (HasValue(x, f) && x[f].Bool? && y[f].Bool? ==> x[f].b ==> y[f].b)
    && (HasValue(x, f) && x[f].Str? ==> !(y[f].Int? || y[f].Float? || y[f].Bool?))
  }

  /** One row of the answer stands in front of another as the request asks for it; the default is newest first. */
  ghost predicate OrderedAsAsked(env: Env, p: ListParams, x: StoredRow, y: StoredRow) {
    var up := p.order == Some("asc");
    if p.orderBy == None || p.orderBy == Some("created_at") then
      if up then !Less(y.createdAt, x.createdAt) else !Less(x.createdAt, y.createdAt)
    else if p.orderBy == Some("updated_at") then
      if up then !Less(y.updatedAt, x.updatedAt) else !Less(x.updatedAt, y.updatedAt)
    else
      if up then FieldAscends(env, x.data, y.data, p.orderBy.value)
      else FieldAscends(env, y.data, x.data, p.orderBy.value)
  }

  lemma TextAscends(a: string, b: string)
    requires AtMost(SqlText(a), SqlText(b))
    ensures !Less(b, a)
  {
    LessIrreflexive(a);
    if Less(a, b) && Less(b, a) {
      LessTransitive(a, b, a);
    }
  }

  lemma ValueAscends(env: Env, x: Row, y: Row, f: string)
    requires AtMost(Extracted(env, x, f), Extracted(env, y, f))
    ensures FieldAscends(env, x, y, f)
  {
    if HasValue(x, f) && HasValue(y, f) && x[f].Str? && y[f].Str? {
      TextAscends(x[f].s, y[f].s);
    }
  }

  lemma PrecedesAsAsked(env: Env, schema: Schema, p: ListParams, q: RowQuery, x: StoredRow, y: StoredRow)
    requires AsAsked(schema, p, q) && MayPrecede(env, q, x, y)
    ensures OrderedAsAsked(env, p, x, y)
  {
    if q.orderBy.Field? {
      if q.descending {
        ValueAscends(env, y.data, x.data, q.orderBy.name);
      } else {
        ValueAscends(env, x.data, y.data, q.orderBy.name);
      }
    } else {
      var a, b := OperandValue(env, x, q.orderBy), OperandValue(env, y, q.orderBy);
      if q.descending {
        TextAscends(b.s, a.s);
      } else {
        TextAscends(a.s, b.s);
      }
    }
  }

  ghost predicate PageInOrder(env: Env, s: Store, p: ListParams, page: seq<string>) {
    && (forall i :: 0 <= i < |page| ==> page[i] in s.rows)
    && forall i, j :: 0 <= i < j < |page| ==> OrderedAsAsked(env, p, s.rows[page[i]], s.rows[page[j]])
  }

  lemma SliceInOrder(
    env: Env, s: Store, schema: Schema, p: ListParams, q: RowQuery, listing: seq<string>, offset: nat, limit: nat)
    requires AsAsked(schema, p, q) && InOrder(env, q, s.rows, listing)
    ensures PageInOrder(env, s, p, PageAt(listing, offset, limit))
  {
    var lo, page := Clip(offset, |listing|), PageAt(listing, offset, limit);
    assert forall i :: 0 <= i < |page| ==> page[i] == listing[lo + i];
    forall i, j | 0 <= i < j < |page| ensures OrderedAsAsked(env, p, s.rows[page[i]], s.rows[page[j]]) {
      PrecedesAsAsked(env, schema, p, q, s.rows[listing[lo + i]], s.rows[listing[lo + j]]);
    }
  }

  method ExecuteListRows(env: Env, s: Store, claims: Claims, name: string, p: ListParams, ghost rfc3339: string -> bool)
    returns (response: Response, page: seq<string>, total: nat, hasMore: bool, q: Option<RowQuery>)
    requires Inv(rfc3339, s)
    ensures response == NotFound <==> KeyOf(claims, name) !in s.tables
    ensures
      KeyOf(claims, name) in s.tables ==>
        var t := s.tables[KeyOf(claims, name)];
        && (response == Forbidden <==> !CanReadTable(claims, t.policy))
        && (response == BadRequest <==> CanReadTable(claims, t.policy) && !ValidListParams(env, t.schema, p))
        && (response == Okay <==> CanReadTable(claims, t.policy) && ValidListParams(env, t.schema, p))
    ensures response != Okay ==> page == []
    ensures PageInOrder(env, s, p, page)
    ensures
      response == Okay ==>
        var t := s.tables[KeyOf(claims, name)];
        var requested := Requested(env, s, KeyOf(claims, name), p, OwnerFilter(claims, t.policy));
        q.Some? && AsAsked(t.schema, p, q.value) && IsAnswer(env, s, q.value, requested, page, total, hasMore)
  {
    page, total, hasMore, q := [], 0, false, None;
    var key := KeyOf(claims, name);
    if key !in s.tables {
      response := NotFound;
      return;
    }
    var t := s.tables[key];
    if !CanReadTable(claims, t.policy) {
      response := Forbidden;
      return;
    }
    if !ValidListParams(env, t.schema, p) {
      response := BadRequest;
      return;
    }
    var owner := OwnerFilter(claims, t.policy);
    var query, fields := BuildRowQuery(env, p, t.schema, key.app, t.id, owner, rfc3339);
    var selected := set r | r in s.rows && Selects(env, query.conditions, query.binds, s.rows[r]);
    QuerySelectsRequested(env, rfc3339, s, key, p, owner, fields);
    var listing := SortRows(env, query, s.rows, selected);
    page := PageAt(listing, Skipped(query.offset), query.limit);
    SliceInOrder(env, s, t.schema, p, query, listing, Skipped(query.offset), query.limit);
    total := |selected|;
    hasMore := HasMore(query.offset, query.limit, total);
    response, q := Okay, Some(query);
  }

  // --- Listing and reading single rows ----------------------------------------------------------

  function ReadRule(policy: Policy): Option<string> {
    if policy.rules.Some? then policy.rules.value.read else None
  }

  /** The owner filter of a listing lets a row of this owner through. */
  predicate Listed(claims: Claims, policy: Policy, owner: Option<string>) {
    OwnerFilter(claims, policy).Some? ==> owner == OwnerFilter(claims, policy)
  }

  /** Whatever is listed may also be read row by row. */
  ghost predicate ListedAreReadable(claims: Claims, policy: Policy) {
    forall owner :: Listed(claims, policy, owner) ==> CanAccessRow(claims, policy, owner, Read)
  }

  /** Whatever may be read row by row is also listed. */
  ghost predicate ReadableAreListed(claims: Claims, policy: Policy) {
    forall owner :: CanAccessRow(claims, policy, owner, Read) ==> Listed(claims, policy, owner)
  }

  /**
   A listing shows only rows that the caller may read singly if and only if the
   caller is an administrator, the read rule is not `owner`, or the table is
   private in mode as well.
   */
  lemma ListedAreReadableIff(claims: Claims, policy: Policy)
    requires ValidPolicy(policy) && CanReadTable(claims, policy)
    ensures
      ListedAreReadable(claims, policy) <==>
      claims.isAdmin || ReadRule(policy) != Some("owner") || policy.mode == OWNER_PRIVATE
  {
    if !claims.isAdmin && ReadRule(policy) == Some("owner") && policy.mode != OWNER_PRIVATE {
      var other := Some(claims.sub + "x");
      assert other.value != claims.sub;
      assert Listed(claims, policy, other) && !CanAccessRow(claims, policy, other, Read);
    }
  }

  /**
   It shows all of them if and only if the caller is an administrator, the table
   is not private in mode, or it is private and has no read rule.
   */
  lemma ReadableAreListedIff(claims: Claims, policy: Policy)
    requires ValidPolicy(policy) && CanReadTable(claims, policy)
    ensures
      ReadableAreListed(claims, policy) <==>
      claims.isAdmin || policy.mode != OWNER_PRIVATE || ReadRule(policy).None?
  {
    if !claims.isAdmin && policy.mode == OWNER_PRIVATE && ReadRule(policy).Some? {
      assert CanAccessRow(claims, policy, None, Read) && !Listed(claims, policy, None);
    }
  }

  /** For instance: under a custom policy whose read rule is `owner`, everybody lists what only its owner may read. */
  lemma CustomOwnerRuleLists(claims: Claims, owner: string)
    requires !claims.isAdmin && owner != claims.sub
    ensures
      var policy := Policy(CUSTOM, Some(Rules(None, Some("owner"), None, None)));
      && ValidPolicy(policy) && CanReadTable(claims, policy)
      && Listed(claims, policy, Some(owner)) && !CanAccessRow(claims, policy, Some(owner), Read)
  {
  }

  /** In a consistent store, every row a request may select is then one its caller may read. */
  lemma RequestedAreReadable(env: Env, s: Store, key: TableKey, claims: Claims, p: ListParams)
    requires key in s.tables && ValidPolicy(s.tables[key].policy) && CanReadTable(claims, s.tables[key].policy)
    requires
      claims.isAdmin || ReadRule(s.tables[key].policy) != Some("owner") || s.tables[key].policy.mode == OWNER_PRIVATE
    ensures
      var policy := s.tables[key].policy;
      forall r :: r in Requested(env, s, key, p, OwnerFilter(claims, policy)) ==>
        CanAccessRow(claims, policy, s.rows[r].owner, Read)
  {
    var policy := s.tables[key].policy;
    ListedAreReadableIff(claims, policy);
    forall r | r in Requested(env, s, key, p, OwnerFilter(claims, policy))
      ensures CanAccessRow(claims, policy, s.rows[r].owner, Read)
    {
      assert Listed(claims, policy, s.rows[r].owner);
    }
  }
}
