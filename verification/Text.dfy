/**
 Searching, splitting and replacing in text, scanning from the left and never
 letting two matches overlap.  Both the redaction code and the two stream
 readers are built on these operations.
 */
module Text {

  predicate OccursAt(s: string, p: string, i: int) {
    0 <= i && i + |p| <= |s| && s[i..i + |p|] == p
  }

  ghost predicate Contains(s: string, p: string) {
    exists i :: OccursAt(s, p, i)
  }

  /** An occurrence inside a slice is an occurrence in the whole. */
  lemma OccursInSlice(s: string, lo: nat, hi: nat, p: string, i: int)
    requires lo <= hi <= |s| && OccursAt(s[lo..hi], p, i)
    ensures OccursAt(s, p, lo + i)
  {
    forall k | 0 <= k < |p| ensures s[lo + i + k] == p[k] {
      assert s[lo..hi][i..i + |p|][k] == p[k];
    }
  }

  lemma ContainsInPrefix(s: string, hi: nat, p: string)
    requires hi <= |s|
    ensures Contains(s[..hi], p) ==> exists j :: OccursAt(s, p, j) && j + |p| <= hi
  {
    if j :| OccursAt(s[..hi], p, j) {
      assert s[0..hi] == s[..hi];
      OccursInSlice(s, 0, hi, p, j);
    }
  }

  lemma ContainsInSuffix(s: string, lo: nat, p: string)
    requires lo <= |s|
    ensures Contains(s[lo..], p) ==> Contains(s, p)
  {
    if j :| OccursAt(s[lo..], p, j) {
      assert s[lo..|s|] == s[lo..];
      OccursInSlice(s, lo, |s|, p, j);
    }
  }

  predicate StartsWith(s: string, p: string) {
    |p| <= |s| && s[..|p|] == p
  }

  /** The leftmost occurrence of `p` at or after `k`, or -1. */
  function FindFrom(s: string, p: string, k: nat): (i: int)
    requires p != "" && k <= |s|
    ensures i == -1 || k <= i
    ensures i >= 0 ==> OccursAt(s, p, i)
    ensures forall j :: k <= j && OccursAt(s, p, j) ==> 0 <= i <= j
    decreases |s| - k
  {
    if OccursAt(s, p, k) then k else if k == |s| then -1 else FindFrom(s, p, k + 1)
  }

  /** The leftmost occurrence of `p`, or -1. */
  function Find(s: string, p: string): (i: int)
    requires p != ""
    ensures i >= -1
    ensures i >= 0 ==> OccursAt(s, p, i)
    ensures forall j :: OccursAt(s, p, j) ==> 0 <= i <= j
  {
    FindFrom(s, p, 0)
  }

  /** The pieces between successive occurrences of `sep`. */
  function Split(s: string, sep: string): (parts: seq<string>)
    requires sep != ""
    ensures parts != []
    decreases |s|
  {
    var i := Find(s, sep);
    if i < 0 then [s] else [s[..i]] + Split(s[i + |sep|..], sep)
  }

  function Join(parts: seq<string>, glue: string): string
    requires parts != []
  {
    if |parts| == 1 then parts[0] else parts[0] + glue + Join(parts[1..], glue)
  }

  /** Every occurrence of `p`, leftmost first, becomes `mask`. */
  function Replace(s: string, p: string, mask: string): string
    requires p != ""
    decreases |s|
  {
    var i := Find(s, p);
    if i < 0 then s else s[..i] + mask + Replace(s[i + |p|..], p, mask)
  }

  function Init<T>(s: seq<T>): seq<T>
    requires s != []
  {
    s[..|s| - 1]
  }

  function Last<T>(s: seq<T>): T
    requires s != []
  {
    s[|s| - 1]
  }

  /** The `White_Space` property of Unicode. */
  predicate IsSpace(c: char) {
    || '\U{9}' <= c <= '\U{D}' || c == ' ' || c == '\U{85}' || c == '\U{A0}' || c == '\U{1680}'
    || '\U{2000}' <= c <= '\U{200A}' || c == '\U{2028}' || c == '\U{2029}'
    || c == '\U{202F}' || c == '\U{205F}' || c == '\U{3000}'
  }

  function TrimStart(s: string): string {
    if s != "" && IsSpace(s[0]) then TrimStart(s[1..]) else s
  }

  function TrimEnd(s: string): string {
    if s != "" && IsSpace(Last(s)) then TrimEnd(Init(s)) else s
  }

  function Trim(s: string): string {
    TrimEnd(TrimStart(s))
  }

  /** Trimmed text has no white space at either end, so trimming it again changes nothing. */
  lemma TrimIdempotent(s: string)
    ensures Trim(Trim(s)) == Trim(s)
  {
    TrimEnds(TrimStart(s));
    TrimStartEnds(s);
  }

  lemma {:induction false} TrimStartEnds(s: string)
    ensures TrimStart(s) != "" ==> !IsSpace(TrimStart(s)[0])
  {
    if s != "" && IsSpace(s[0]) {
      TrimStartEnds(s[1..]);
    }
  }

  lemma {:induction false} TrimEnds(s: string)
    ensures TrimEnd(s) != "" ==> !IsSpace(Last(TrimEnd(s))) && s != "" && TrimEnd(s)[0] == s[0]
  {
    if s != "" && IsSpace(Last(s)) {
      TrimEnds(Init(s));
    }
  }

  /** Text without white space is its own trimmed form. */
  lemma TrimNoSpace(s: string)
    requires forall i :: 0 <= i < |s| ==> !IsSpace(s[i])
    ensures Trim(s) == s
  {
  }

  /** `t` is `s` without the white space at its two ends. */
  ghost predicate TrimmedOf(s: string, t: string) {
    && (t != "" ==> !IsSpace(t[0]) && !IsSpace(Last(t)))
    && exists i, j ::
         && 0 <= i <= j <= |s| && t == s[i..j]
         && (forall k :: 0 <= k < i ==> IsSpace(s[k])) && (forall k :: j <= k < |s| ==> IsSpace(s[k]))
  }

  lemma {:induction false} TrimStartCut(s: string) returns (i: nat)
    ensures i <= |s| && TrimStart(s) == s[i..] && forall k :: 0 <= k < i ==> IsSpace(s[k])
  {
    if s != "" && IsSpace(s[0]) {
      var n := TrimStartCut(s[1..]);
      i := n + 1;
    } else {
      i := 0;
    }
  }

  lemma {:induction false} TrimEndCut(s: string) returns (j: nat)
    ensures j <= |s| && TrimEnd(s) == s[..j] && forall k :: j <= k < |s| ==> IsSpace(s[k])
  {
    if s != "" && IsSpace(Last(s)) {
      j := TrimEndCut(Init(s));
    } else {
      j := |s|;
    }
  }

  /** Trimming removes white space at the ends, all of it and nothing else. */
  lemma TrimExact(s: string)
    ensures TrimmedOf(s, Trim(s))
  {
    var i := TrimStartCut(s);
    var j := TrimEndCut(s[i..]);
    TrimStartEnds(s);
    TrimEnds(TrimStart(s));
    assert s[i..][..j] == s[i..i + j];
    assert forall k :: i + j <= k < |s| ==> s[k] == s[i..][k - i];
  }

  /** Splitting loses nothing. */
  lemma {:induction false} SplitJoin(s: string, sep: string)
    requires sep != ""
    ensures Join(Split(s, sep), sep) == s
    decreases |s|
  {
    var i := Find(s, sep);
    if i >= 0 {
      var tail := s[i + |sep|..];
      SplitJoin(tail, sep);
      assert s == s[..i] + sep + tail;
      JoinCons(s[..i], Split(tail, sep), sep);
    }
  }

  lemma JoinCons(head: string, parts: seq<string>, glue: string)
    requires parts != []
    ensures Join([head] + parts, glue) == head + glue + Join(parts, glue)
  {
    assert ([head] + parts)[1..] == parts;
  }

  /** No piece still holds the separator. */
  lemma {:induction false} SplitPiecesAreFree(s: string, sep: string, k: nat)
    requires sep != "" && k < |Split(s, sep)|
    ensures !Contains(Split(s, sep)[k], sep)
    decreases |s|
  {
    var i := Find(s, sep);
    if i >= 0 {
      if k == 0 {
        ContainsInPrefix(s, i, sep);
      } else {
        SplitPiecesAreFree(s[i + |sep|..], sep, k - 1);
      }
    }
  }

  /** What is replaced is what separates the pieces; the pieces themselves are kept. */
  lemma {:induction false} ReplaceIsSplitJoin(s: string, p: string, mask: string)
    requires p != ""
    ensures Replace(s, p, mask) == Join(Split(s, p), mask)
    decreases |s|
  {
    var i := Find(s, p);
    if i >= 0 {
      ReplaceIsSplitJoin(s[i + |p|..], p, mask);
      JoinCons(s[..i], Split(s[i + |p|..], p), mask);
    }
  }

  lemma FindBehind(a: string, sep: string, b: string)
    requires sep != "" && sep[0] !in a
    ensures Find(a + sep + b, sep) == |a|
  {
    var s := a + sep + b;
    assert s[|a|..|a| + |sep|] == sep;
    assert OccursAt(s, sep, |a|);
    var i := Find(s, sep);
    assert s[i] == s[i..i + |sep|][0];
  }

  /** Where text contains another, it has the character the other begins with. */
  lemma HeadOccurs(s: string, sep: string)
    requires sep != ""
    ensures Find(s, sep) >= 0 ==> sep[0] in s
  {
    var i := Find(s, sep);
    if i >= 0 {
      assert s[i] == s[i..i + |sep|][0];
    }
  }

  /** Joined pieces come apart again, if none of them holds the character the separator begins with. */
  lemma {:induction false} SplitOfJoin(parts: seq<string>, sep: string)
    requires parts != [] && sep != "" && forall i :: 0 <= i < |parts| ==> sep[0] !in parts[i]
    ensures Split(Join(parts, sep), sep) == parts
  {
    if |parts| == 1 {
      var s := Join(parts, sep);
      var i := Find(s, sep);
      HeadOccurs(s, sep);
    } else {
      var rest := parts[1..];
      SplitOfJoin(rest, sep);
      JoinCons(parts[0], rest, sep);
      assert parts == [parts[0]] + rest;
      var s := Join(parts, sep);
      FindBehind(parts[0], sep, Join(rest, sep));
      assert s[..|parts[0]|] == parts[0] && s[|parts[0]| + |sep|..] == Join(rest, sep);
    }
  }

  /** A match found in a prefix is the match found in the whole. */
  lemma FindPrefix(a: string, b: string, p: string)
    requires p != "" && Find(a, p) >= 0
    ensures Find(a + b, p) == Find(a, p)
  {
    var i := Find(a, p);
    assert (a + b)[i..i + |p|] == a[i..i + |p|];
    assert OccursAt(a + b, p, i);
    var k := Find(a + b, p);
    assert k <= i;
    assert (a + b)[k..k + |p|] == a[k..k + |p|];
    assert OccursAt(a, p, k);
  }

  /** Splitting can be resumed: all pieces but the last are final whatever text follows. */
  lemma {:induction false} SplitAppend(a: string, b: string, sep: string)
    requires sep != ""
    ensures Split(a + b, sep) == Init(Split(a, sep)) + Split(Last(Split(a, sep)) + b, sep)
    decreases |a|
  {
    var i := Find(a, sep);
    if i >= 0 {
      var head, tail := a[..i], a[i + |sep|..];
      var pieces := Split(tail, sep);
      SplitFound(a, b, sep);
      SplitAppend(tail, b, sep);
      ResumeCons(head, pieces, Split(Last(pieces) + b, sep));
    } else {
      assert Init(Split(a, sep)) == [] && Last(Split(a, sep)) == a;
    }
  }

  lemma SplitFound(a: string, b: string, sep: string)
    requires sep != "" && Find(a, sep) >= 0
    ensures Split(a + b, sep) == [a[..Find(a, sep)]] + Split(a[Find(a, sep) + |sep|..] + b, sep)
  {
    FindPrefix(a, b, sep);
    SliceAppend(a, b, Find(a, sep));
    SliceAppend(a, b, Find(a, sep) + |sep|);
  }

  lemma SliceAppend(a: string, b: string, n: nat)
    requires n <= |a|
    ensures (a + b)[..n] == a[..n] && (a + b)[n..] == a[n..] + b
  {
  }

  lemma ResumeCons<T>(x: T, s: seq<T>, more: seq<T>)
    requires s != []
    ensures Last([x] + s) == Last(s)
    ensures Init([x] + s) + more == [x] + (Init(s) + more)
  {
    assert Init([x] + s) == [x] + Init(s);
  }
}
