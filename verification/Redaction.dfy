/**
 Secret redaction of function output: text first, then strings at any depth of
 a JSON value.  `secrets` lists the secret values in the order of their keys.
 */
module Redaction {
  import opened Common
  import opened JsonValue
  import opened Text

  const MASK := "***"

  function RedactText(text: string, secrets: seq<string>): string {
    if secrets == [] then
      text
    else
      var before := RedactText(text, Init(secrets));
      if Last(secrets) == "" then before else Replace(before, Last(secrets), MASK)
  }

  function RedactJson(value: Json, secrets: seq<string>): Json {
    match value
    case Str(text) => Str(RedactText(text, secrets))
    case Arr(items) => Arr(seq(|items|, i requires 0 <= i < |items| => RedactJson(items[i], secrets)))
    case Obj(fields) => Obj(map k | k in fields :: RedactJson(fields[k], secrets))
    case _ => value
  }

  // --- What redaction promises --------------------------------------------

  /** Text that can grow together with a mask: it begins or ends with a star, or has a whole mask inside. */
  ghost predicate MeetsMask(p: string) {
    p != "" && (p[0] == '*' || Last(p) == '*' || Contains(p, MASK))
  }

  ghost predicate Maskable(secrets: seq<string>) {
    forall i :: 0 <= i < |secrets| ==> !MeetsMask(secrets[i])
  }

  /** In particular secrets without any star are maskable. */
  lemma StarFreeIsMaskable(secrets: seq<string>)
    requires forall i :: 0 <= i < |secrets| ==> '*' !in secrets[i]
    ensures Maskable(secrets)
  {
    forall i, k | 0 <= i < |secrets| && OccursAt(secrets[i], MASK, k) ensures false {
      MaskAt(secrets[i], k);
    }
  }

  lemma MaskAt(p: string, k: int)
    ensures OccursAt(p, MASK, k) <==> 0 <= k && k + 3 <= |p| && p[k] == p[k + 1] == p[k + 2] == '*'
  {
    if 0 <= k && k + 3 <= |p| {
      var w := p[k..k + 3];
      assert w[0] == p[k] && w[1] == p[k + 1] && w[2] == p[k + 2];
    }
  }

  lemma OccurrenceChars(s: string, p: string, k: int)
    requires OccursAt(s, p, k)
    ensures forall x :: 0 <= x < |p| ==> p[x] == s[k + x]
  {
    assert forall x :: 0 <= x < |p| ==> p[x] == s[k..k + |p|][x];
  }

  ghost predicate Clean(text: string, secrets: seq<string>) {
    forall i :: 0 <= i < |secrets| && secrets[i] != "" ==> !Contains(text, secrets[i])
  }

  /** Every string value in the tree is clean; object keys are not values. */
  ghost predicate CleanJson(value: Json, secrets: seq<string>) {
    match value
    case Str(text) => Clean(text, secrets)
    case Arr(items) => forall i :: 0 <= i < |items| ==> CleanJson(items[i], secrets)
    case Obj(fields) => forall k :: k in fields ==> CleanJson(fields[k], secrets)
    case _ => true
  }

  /** Same constructors, same keys, same lengths, same leaves other than strings. */
  ghost predicate SameShape(v: Json, w: Json) {
    match v
    case Str(_) => w.Str?
    case Arr(items) =>
      w.Arr? && |w.items| == |items| && forall i :: 0 <= i < |items| ==> SameShape(items[i], w.items[i])
    case Obj(fields) =>
      w.Obj? && w.fields.Keys == fields.Keys && forall k :: k in fields ==> SameShape(fields[k], w.fields[k])
    case _ => w == v
  }

  // --- One replacement ----------------------------------------------------

  /** Text that overlaps an inserted mask begins in it, ends in it, or contains it. */
  lemma OverlapMeetsMask(head: string, tail: string, q: string, k: int)
    requires q != "" && OccursAt(head + MASK + tail, q, k) && k < |head| + 3 && |head| < k + |q|
    ensures MeetsMask(q)
  {
    var out, n := head + MASK + tail, |head|;
    assert out[n] == out[n + 1] == out[n + 2] == '*';
    OccurrenceChars(out, q, k);
    MaskAt(q, n - k);
    if k > n {
      assert q[0] == out[k + 0];
    } else if k + |q| < n + 3 {
      assert Last(q) == out[k + (|q| - 1)];
    } else {
      assert q[n - k] == out[n] && q[n - k + 1] == out[n + 1] && q[n - k + 2] == out[n + 2];
    }
  }

  /** An occurrence of other text lies wholly before or wholly behind an inserted mask. */
  lemma OccurrenceAvoidsMask(head: string, tail: string, q: string, k: int)
    requires q != "" && !MeetsMask(q)
    requires OccursAt(head + MASK + tail, q, k)
    ensures OccursAt(head, q, k) || OccursAt(tail, q, k - |head| - |MASK|)
  {
    var out := head + MASK + tail;
    var n := |head|;
    if k + |q| <= n {
      assert out[k..k + |q|] == head[k..k + |q|];
    } else if k >= n + 3 {
      assert out[k..k + |q|] == tail[k - n - 3..k - n - 3 + |q|];
    } else {
      OverlapMeetsMask(head, tail, q, k);
      assert false;
    }
  }

  /** Replacing one secret never creates an occurrence of another. */
  lemma {:induction false} ReplaceCreatesNothing(s: string, p: string, q: string, k: int)
    requires p != "" && q != "" && !MeetsMask(q)
    requires OccursAt(Replace(s, p, MASK), q, k)
    ensures Contains(s, q)
    decreases |s|
  {
    var i := Find(s, p);
    if i < 0 {
      assert OccursAt(s, q, k);
    } else {
      var rest := s[i + |p|..];
      OccurrenceAvoidsMask(s[..i], Replace(rest, p, MASK), q, k);
      if OccursAt(s[..i], q, k) {
        ContainsInPrefix(s, i, q);
      } else {
        ReplaceCreatesNothing(rest, p, q, k - i - 3);
        ContainsInSuffix(s, i + |p|, q);
      }
    }
  }

  /** Replacing one secret removes it completely. */
  lemma {:induction false} ReplaceRemoves(s: string, p: string)
    requires p != "" && !MeetsMask(p)
    ensures !Contains(Replace(s, p, MASK), p)
    decreases |s|
  {
    var i := Find(s, p);
    if i >= 0 {
      var tail := Replace(s[i + |p|..], p, MASK);
      assert forall k :: OccursAt(s[..i], p, k) ==> OccursAt(s, p, k);
      ReplaceRemoves(s[i + |p|..], p);
      if Contains(Replace(s, p, MASK), p) {
        var k :| OccursAt(Replace(s, p, MASK), p, k);
        OccurrenceAvoidsMask(s[..i], tail, p, k);
        assert false;
      }
    }
  }

  // --- All replacements, one after another --------------------------------

  /** Whatever else is on the list, a secret that cannot grow together with the mask is gone in the end. */
  lemma {:induction false} MaskableSecretRemoved(text: string, secrets: seq<string>, q: string)
    requires q in secrets && q != "" && !MeetsMask(q)
    ensures !Contains(RedactText(text, secrets), q)
  {
    var earlier, last := Init(secrets), Last(secrets);
    var before := RedactText(text, earlier);
    assert secrets == earlier + [last];
    if last == q {
      ReplaceRemoves(before, q);
    } else {
      MaskableSecretRemoved(text, earlier, q);
      if last != "" && Contains(Replace(before, last, MASK), q) {
        var k :| OccursAt(Replace(before, last, MASK), q, k);
        ReplaceCreatesNothing(before, last, q, k);
        assert false;
      }
    }
  }

  /** The text is such a secret of the list itself or has one inside it. */
  ghost predicate HasCore(secrets: seq<string>, p: string) {
    exists q :: q in secrets && q != "" && !MeetsMask(q) && Contains(p, q)
  }

  ghost predicate Covered(secrets: seq<string>) {
    forall p {:trigger HasCore(secrets, p)} :: p in secrets && p != "" ==> HasCore(secrets, p)
  }

  lemma MaskableIsCovered(secrets: seq<string>)
    requires Maskable(secrets)
    ensures Covered(secrets)
  {
    forall p | p in secrets && p != "" ensures HasCore(secrets, p) {
      assert OccursAt(p, p, 0);
    }
  }

  lemma ContainsTransitive(a: string, b: string, c: string)
    requires Contains(a, b) && Contains(b, c)
    ensures Contains(a, c)
  {
    var i :| OccursAt(a, b, i);
    var j :| OccursAt(b, c, j);
    OccursInSlice(a, i, i + |b|, c, j);
  }

  lemma CoreRemoved(text: string, secrets: seq<string>, p: string)
    requires HasCore(secrets, p)
    ensures !Contains(RedactText(text, secrets), p)
  {
    var q :| q in secrets && q != "" && !MeetsMask(q) && Contains(p, q);
    var out := RedactText(text, secrets);
    MaskableSecretRemoved(text, secrets, q);
    if Contains(out, p) {
      ContainsTransitive(out, p, q);
    }
  }

  lemma RedactedTextIsClean(text: string, secrets: seq<string>)
    requires Covered(secrets)
    ensures Clean(RedactText(text, secrets), secrets)
  {
    forall i | 0 <= i < |secrets| && secrets[i] != "" ensures !Contains(RedactText(text, secrets), secrets[i]) {
      assert HasCore(secrets, secrets[i]);
      CoreRemoved(text, secrets, secrets[i]);
    }
  }

  /** A list can be covered although one of its secrets could leak alone. */
  lemma CoveredNotMaskable()
    ensures Covered(["x*", "x"]) && !Maskable(["x*", "x"])
  {
    var secrets := ["x*", "x"];
    assert Last(secrets[0]) == '*' && secrets[0][0..1] == "x";
    assert OccursAt(secrets[0], "x", 0) && OccursAt("x", "x", 0);
    StarFreeIsMaskable(["x"]);
    assert !MeetsMask(["x"][0]) && secrets[1] == "x";
  }

  lemma TwoChars(s: string, p: string, k: int)
    requires |p| == 2
    ensures OccursAt(s, p, k) <==> 0 <= k && k + 2 <= |s| && s[k] == p[0] && s[k + 1] == p[1]
  {
    if 0 <= k && k + 2 <= |s| {
      var w := s[k..k + 2];
      assert w[0] == s[k] && w[1] == s[k + 1];
    }
  }

  /** In front of an occurrence of `x*` there is no `x`, if `xx` does not occur. */
  lemma {:induction false} NoDoubleNoLeak(s: string, k: int)
    requires !Contains(s, "xx")
    ensures !OccursAt(Replace(s, "x*", MASK), "x*", k)
    decreases |s|
  {
    var i, out := Find(s, "x*"), Replace(s, "x*", MASK);
    TwoChars(out, "x*", k);
    if i >= 0 {
      TwoChars(s, "x*", i);
      TwoChars(s, "x*", k);
      TwoChars(s, "xx", i - 1);
      var rest := s[i + 2..];
      var tail := Replace(rest, "x*", MASK);
      ContainsInSuffix(s, i + 2, "xx");
      NoDoubleNoLeak(rest, k - i - 3);
      TwoChars(tail, "x*", k - i - 3);
      assert out == s[..i] + MASK + tail;
    }
  }

  /** Being covered is not necessary: this list is not, yet no text leaks from it. */
  lemma CleanNotCovered(text: string)
    ensures !Covered(["xx", "x*"]) && Clean(RedactText(text, ["xx", "x*"]), ["xx", "x*"])
  {
    var secrets := ["xx", "x*"];
    assert Init(secrets) == ["xx"] && Init(["xx"]) == [] && Last(secrets) == "x*";
    StarFreeIsMaskable(["xx"]);
    assert !MeetsMask(["xx"][0]);
    var once := RedactText(text, ["xx"]);
    MaskableSecretRemoved(text, ["xx"], "xx");
    assert secrets[0] == "xx";
    MaskableSecretRemoved(text, secrets, "xx");
    forall k ensures !OccursAt(Replace(once, "x*", MASK), "x*", k) {
      NoDoubleNoLeak(once, k);
    }
    NotCovered();
  }

  lemma NotCovered()
    ensures !Covered(["xx", "x*"])
  {
    var secrets := ["xx", "x*"];
    assert secrets[1] == "x*" && Last("x*") == '*';
    forall k ensures !OccursAt("x*", "xx", k) {
      TwoChars("x*", "xx", k);
    }
    assert !HasCore(secrets, "x*");
  }

  /** Text that holds no secret passes through untouched. */
  lemma {:induction false} CleanTextUnchanged(text: string, secrets: seq<string>)
    requires Clean(text, secrets)
    ensures RedactText(text, secrets) == text
  {
    if secrets != [] {
      assert forall i :: 0 <= i < |Init(secrets)| ==> Init(secrets)[i] == secrets[i];
      CleanTextUnchanged(text, Init(secrets));
      if Last(secrets) != "" {
        assert !Contains(text, secrets[|secrets| - 1]);
        assert Find(text, Last(secrets)) < 0;
      }
    }
  }

  lemma RedactTextIdempotent(text: string, secrets: seq<string>)
    requires Covered(secrets)
    ensures RedactText(RedactText(text, secrets), secrets) == RedactText(text, secrets)
  {
    RedactedTextIsClean(text, secrets);
    CleanTextUnchanged(RedactText(text, secrets), secrets);
  }

  /** The next secret of a list masks what separates the pieces of the text so far, and keeps the pieces. */
  lemma RedactOneMore(text: string, secrets: seq<string>, p: string)
    ensures p != "" ==> RedactText(text, secrets + [p]) == Join(Split(RedactText(text, secrets), p), "***")
    ensures p == "" ==> RedactText(text, secrets + [p]) == RedactText(text, secrets)
    ensures RedactText(text, []) == text
  {
    assert Init(secrets + [p]) == secrets;
    if p != "" {
      ReplaceIsSplitJoin(RedactText(text, secrets), p, MASK);
    }
  }

  /** Text put together from pieces and one secret comes back with masks for the secret and the pieces untouched. */
  lemma PiecesKept(parts: seq<string>, p: string)
    requires parts != [] && p != "" && forall i :: 0 <= i < |parts| ==> p[0] !in parts[i]
    ensures RedactText(Join(parts, p), [p]) == Join(parts, "***")
  {
    SplitOfJoin(parts, p);
    RedactOneMore(Join(parts, p), [], p);
    assert [] + [p] == [p];
  }

  // --- Which secrets can leak ------------------------------------------------

  /** What redaction makes of a secret `p` between a beginning and a short end. */
  lemma ReplaceBetween(u: string, p: string, v: string)
    requires |v| < |p| && Find(u + p + v, p) == |u|
    ensures Replace(u + p + v, p, MASK) == u + MASK + v
  {
    var s := u + p + v;
    assert s[..|u|] == u && s[|u| + |p|..] == v;
    assert Find(v, p) < 0;
  }

  /** An occurrence of `p` that begins inside a copied beginning `u` of `p` makes `p` repeat itself. */
  lemma EarlierOccurrence(p: string, u: string, v: string, j: nat)
    requires u <= p && u != p && j < |u| && OccursAt(u + p + v, p, j)
    ensures forall x :: |u| - j <= x < |p| ==> p[x] == p[x - (|u| - j)]
    ensures p[j] == p[0]
  {
    var s := u + p + v;
    OccurrenceChars(s, p, j);
    assert forall y :: 0 <= y < |p| ==> s[|u| + y] == p[y];
    forall x | |u| - j <= x < |p| ensures p[x] == p[x - (|u| - j)] {
      assert s[j + x] == p[j + x - |u|];
    }
    assert s[j] == u[j] == p[j];
  }

  /** If the copied beginning stops where the first mask of `p` begins, `p` is found behind it. */
  lemma FirstBehindMask(p: string, i: nat)
    requires Contains(p, MASK) && i == Find(p, MASK)
    ensures Find(p[..i] + p + p[i + 3..], p) == i
  {
    var u, v := p[..i], p[i + 3..];
    var s := u + p + v;
    assert s[i..i + |p|] == p;
    assert OccursAt(s, p, i);
    var j := Find(s, p);
    if j < i {
      EarlierOccurrence(p, u, v, j);
      MaskAt(p, i);
      MaskAt(p, j);
      assert false;
    }
  }

  /** If `p` does not begin with a star, `p` is found behind a copy of all that precedes one of its stars. */
  lemma FirstBehindStar(p: string, i: nat)
    requires i < |p| && p[i] == '*' && p[0] != '*'
    ensures Find(p[..i] + p, p) == i
  {
    var u := p[..i];
    var s := u + p + "";
    assert s == u + p;
    assert s[i..i + |p|] == p;
    assert OccursAt(s, p, i);
    var j := Find(s, p);
    if j < i {
      EarlierOccurrence(p, u, "", j);
      assert false;
    }
  }

  /** A text whose redaction contains the secret that was to be removed. */
  ghost function LeakingText(p: string): string
    requires MeetsMask(p)
  {
    if Contains(p, MASK) then p[..Find(p, MASK)] + p + p[Find(p, MASK) + 3..]
    else if p[0] == '*' then p + p[if |p| > 1 && p[1] == '*' then 2 else 1..]
    else if p[|p| - 2] == '*' then p[..|p| - 2] + p
    else p[..|p| - 1] + p
  }

  lemma MaskInsideLeaks(p: string)
    requires Contains(p, MASK)
    ensures Contains(Replace(LeakingText(p), p, MASK), p)
  {
    var i := Find(p, MASK);
    FirstBehindMask(p, i);
    ReplaceBetween(p[..i], p, p[i + 3..]);
    assert p[..i] + MASK + p[i + 3..] == p;
    assert OccursAt(p, p, 0);
  }

  lemma EndsWithTail(s: string, k: nat, p: string)
    requires k + |p| == |s| && forall x :: 0 <= x < |p| ==> p[x] == s[k + x]
    ensures Contains(s, p)
  {
    assert s[k..k + |p|] == p;
    assert OccursAt(s, p, k);
  }

  lemma StarInFrontLeaks(p: string)
    requires p != "" && p[0] == '*' && !Contains(p, MASK)
    ensures Contains(Replace(LeakingText(p), p, MASK), p)
  {
    var k := if |p| > 1 && p[1] == '*' then 2 else 1;
    var v := p[k..];
    var s, out := "" + p + v, "" + MASK + v;
    assert s == p + v;
    assert s[0..|p|] == p;
    assert OccursAt(s, p, 0);
    ReplaceBetween("", p, v);
    EndsWithTail(out, 3 - k, p);
  }

  lemma StarAtEndLeaks(p: string)
    requires p != "" && Last(p) == '*' && p[0] != '*' && !Contains(p, MASK)
    ensures Contains(Replace(LeakingText(p), p, MASK), p)
  {
    var k := if p[|p| - 2] == '*' then 2 else 1;
    var u := p[..|p| - k];
    FirstBehindStar(p, |p| - k);
    assert u + p + "" == u + p;
    ReplaceBetween(u, p, "");
    var out := u + MASK;
    assert u + MASK + "" == out;
    assert out[..|p|] == p;
    assert OccursAt(out, p, 0);
  }

  /** A secret that meets the mask leaks from some text even when it is the only secret. */
  lemma MeetingMaskLeaks(p: string)
    requires MeetsMask(p)
    ensures !Clean(RedactText(LeakingText(p), [p]), [p])
  {
    if Contains(p, MASK) {
      MaskInsideLeaks(p);
    } else if p[0] == '*' {
      StarInFrontLeaks(p);
    } else {
      StarAtEndLeaks(p);
    }
    assert Init([p]) == [];
    assert RedactText(LeakingText(p), [p]) == Replace(LeakingText(p), p, MASK);
    assert [p][0] == p;
  }

  /** For instance: masking `x*` behind an `x` leaves `x***`, which shows the secret again. */
  lemma StarInSecretCanLeak()
    ensures RedactText("xx*", ["x*"]) == "x***"
    ensures !Clean(RedactText("xx*", ["x*"]), ["x*"])
  {
    var p := "x*";
    assert p[..1] == "x" && "x" + p == "xx*" && !Contains(p, MASK);
    MeetingMaskLeaks(p);
    FirstBehindStar(p, 1);
    assert "x" + p + "" == "xx*";
    ReplaceBetween("x", p, "");
    assert Init([p]) == [];
  }

  /**
   Redaction is complete for every text and every selection of the secrets if
   and only if no secret begins or ends with a star or contains a whole mask.
   */
  lemma CompleteIffMaskable(secrets: seq<string>)
    ensures
      (forall chosen: seq<string>, text: string | Elements(chosen) <= Elements(secrets) ::
         Clean(RedactText(text, chosen), chosen))
      <==> Maskable(secrets)
  {
    if Maskable(secrets) {
      forall chosen: seq<string>, text: string | Elements(chosen) <= Elements(secrets)
        ensures Clean(RedactText(text, chosen), chosen)
      {
        forall i | 0 <= i < |chosen| ensures !MeetsMask(chosen[i]) {
          assert chosen[i] in Elements(chosen);
        }
        MaskableIsCovered(chosen);
        RedactedTextIsClean(text, chosen);
      }
    } else {
      var i :| 0 <= i < |secrets| && MeetsMask(secrets[i]);
      MeetingMaskLeaks(secrets[i]);
      assert Elements([secrets[i]]) <= Elements(secrets);
    }
  }

  // --- JSON ---------------------------------------------------------------

  lemma {:induction false} RedactedJsonIsClean(value: Json, secrets: seq<string>)
    requires Covered(secrets)
    ensures CleanJson(RedactJson(value, secrets), secrets)
    ensures SameShape(value, RedactJson(value, secrets))
  {
    match value
    case Str(text) => RedactedTextIsClean(text, secrets);
    case Arr(items) =>
      forall i | 0 <= i < |items|
        ensures CleanJson(RedactJson(items[i], secrets), secrets)
        ensures SameShape(items[i], RedactJson(items[i], secrets))
      {
        RedactedJsonIsClean(items[i], secrets);
      }
    case Obj(fields) =>
      forall k | k in fields
        ensures CleanJson(RedactJson(fields[k], secrets), secrets)
        ensures SameShape(fields[k], RedactJson(fields[k], secrets))
      {
        RedactedJsonIsClean(fields[k], secrets);
      }
    case _ =>
  }

  lemma {:induction false} CleanJsonUnchanged(value: Json, secrets: seq<string>)
    requires CleanJson(value, secrets)
    ensures RedactJson(value, secrets) == value
  {
    match value
    case Str(text) => CleanTextUnchanged(text, secrets);
    case Arr(items) =>
      forall i | 0 <= i < |items| ensures RedactJson(items[i], secrets) == items[i] {
        CleanJsonUnchanged(items[i], secrets);
      }
      assert RedactJson(value, secrets).items == items;
    case Obj(fields) =>
      forall k | k in fields ensures RedactJson(fields[k], secrets) == fields[k] {
        CleanJsonUnchanged(fields[k], secrets);
      }
      assert RedactJson(value, secrets).fields == fields;
    case _ =>
  }

  lemma RedactJsonIdempotent(value: Json, secrets: seq<string>)
    requires Covered(secrets)
    ensures RedactJson(RedactJson(value, secrets), secrets) == RedactJson(value, secrets)
  {
    RedactedJsonIsClean(value, secrets);
    CleanJsonUnchanged(RedactJson(value, secrets), secrets);
  }

  /** Steps into a JSON value. */
  datatype Move = Item(i: nat) | Key(k: string)

  /** The value found by following a path, if there is one. */
  function At(value: Json, path: seq<Move>): Option<Json>
    decreases |path|
  {
    if path == [] then Some(value)
    else
      match path[0]
      case Item(i) => if value.Arr? && i < |value.items| then At(value.items[i], path[1..]) else None
      case Key(k) => if value.Obj? && k in value.fields then At(value.fields[k], path[1..]) else None
  }

  /** At every path the redacted value has the redaction of what was there, and nothing elsewhere. */
  lemma {:induction false} RedactedAt(value: Json, secrets: seq<string>, path: seq<Move>)
    ensures
      var was, shown := At(value, path), At(RedactJson(value, secrets), path);
      match was {
        case None => shown == None
        case Some(Str(text)) => shown == Some(Str(RedactText(text, secrets)))
        case Some(Arr(_)) => shown.Some? && shown.value.Arr?
        case Some(Obj(_)) => shown.Some? && shown.value.Obj?
        case Some(leaf) => shown == Some(leaf)
      }
    decreases |path|
  {
    if path != [] {
      match path[0]
      case Item(i) =>
        if value.Arr? && i < |value.items| {
          RedactedAt(value.items[i], secrets, path[1..]);
        }
      case Key(k) =>
        if value.Obj? && k in value.fields {
          RedactedAt(value.fields[k], secrets, path[1..]);
        }
    }
  }

  // --- The loop -----------------------------------------------------------

  method RedactSecretText(text: string, secrets: seq<string>) returns (redacted: string)
    ensures redacted == RedactText(text, secrets)
    ensures Covered(secrets) ==> Clean(redacted, secrets)
    ensures Clean(text, secrets) ==> redacted == text
  {
    redacted := text;
    for i := 0 to |secrets|
      invariant redacted == RedactText(text, secrets[..i])
    {
      assert Init(secrets[..i + 1]) == secrets[..i];
      if secrets[i] != "" {
        redacted := Replace(redacted, secrets[i], MASK);
      }
    }
    assert secrets[..|secrets|] == secrets;
    if Covered(secrets) {
      RedactedTextIsClean(text, secrets);
    }
    if Clean(text, secrets) {
      CleanTextUnchanged(text, secrets);
    }
  }
}
