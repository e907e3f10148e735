/** The order of text in the database, and rows ordered by creation time and id. */
module Ordering {
  import opened Common

  /** Lexicographic order by code point. */
  predicate Less(a: string, b: string) {
    b != "" && (a == "" || a[0] < b[0] || (a[0] == b[0] && Less(a[1..], b[1..])))
  }

  lemma {:induction false} LessIrreflexive(a: string)
    ensures !Less(a, a)
  {
    if a != "" {
      LessIrreflexive(a[1..]);
    }
  }

  lemma {:induction false} LessTransitive(a: string, b: string, c: string)
    requires Less(a, b) && Less(b, c)
    ensures Less(a, c)
  {
    if a != "" && a[0] == b[0] == c[0] {
      LessTransitive(a[1..], b[1..], c[1..]);
    }
  }

  lemma {:induction false} LessTotal(a: string, b: string)
    ensures a == b || Less(a, b) || Less(b, a)
  {
    if a != "" && b != "" && a[0] == b[0] {
      LessTotal(a[1..], b[1..]);
      assert a == [a[0]] + a[1..] && b == [b[0]] + b[1..];
    }
  }

  /** One text is less than another where they first differ, or as a proper beginning of it. */
  ghost predicate FirstDifference(a: string, b: string, k: int) {
    && 0 <= k <= |a| && k < |b| && a[..k] == b[..k]
    && (k < |a| ==> a[k] < b[k])
  }

  lemma {:induction false} LessMeans(a: string, b: string)
    ensures Less(a, b) <==> exists k :: FirstDifference(a, b, k)
  {
    if b == "" {
    } else if a == "" || a[0] < b[0] {
      assert FirstDifference(a, b, 0);
    } else if a[0] == b[0] {
      LessMeans(a[1..], b[1..]);
      if k :| FirstDifference(a[1..], b[1..], k) {
        assert a[..k + 1] == [a[0]] + a[1..][..k] && b[..k + 1] == [b[0]] + b[1..][..k];
        assert FirstDifference(a, b, k + 1);
      }
      if k :| FirstDifference(a, b, k) {
        assert a[1..][..k - 1] == a[..k][1..] && b[1..][..k - 1] == b[..k][1..];
        assert FirstDifference(a[1..], b[1..], k - 1);
      }
    }
  }

  /** The sort key of a stored row. */
  datatype Key = Key(at: string, id: string)

  predicate Before(a: Key, b: Key) {
    Less(a.at, b.at) || (a.at == b.at && Less(a.id, b.id))
  }

  lemma BeforeIrreflexive(a: Key)
    ensures !Before(a, a)
  {
    LessIrreflexive(a.at);
    LessIrreflexive(a.id);
  }

  lemma BeforeTransitive(a: Key, b: Key, c: Key)
    requires Before(a, b) && Before(b, c)
    ensures Before(a, c)
  {
    if Less(a.at, b.at) && Less(b.at, c.at) {
      LessTransitive(a.at, b.at, c.at);
    } else if a.at == b.at == c.at {
      LessTransitive(a.id, b.id, c.id);
    }
  }

  lemma BeforeTotal(a: Key, b: Key)
    ensures a == b || Before(a, b) || Before(b, a)
  {
    LessTotal(a.at, b.at);
    LessTotal(a.id, b.id);
  }

  ghost predicate IsGreatest(m: Key, ks: set<Key>) {
    m in ks && forall x :: x in ks && x != m ==> Before(x, m)
  }

  lemma {:induction false} GreatestExists(ks: set<Key>)
    requires ks != {}
    ensures exists m :: IsGreatest(m, ks)
  {
    var k :| k in ks;
    if ks == {k} {
      assert IsGreatest(k, ks);
    } else {
      GreatestExists(ks - {k});
      var m :| IsGreatest(m, ks - {k});
      BeforeTotal(k, m);
      if Before(m, k) {
        forall x | x in ks && x != k ensures Before(x, k) {
          if x != m {
            BeforeTransitive(x, m, k);
          }
        }
        assert IsGreatest(k, ks);
      } else {
        assert IsGreatest(m, ks);
      }
    }
  }

  ghost predicate Descending(s: seq<Key>) {
    forall i, j :: 0 <= i < j < |s| ==> Before(s[j], s[i])
  }

  ghost function Greatest(ks: set<Key>): (m: Key)
    requires ks != {}
    ensures IsGreatest(m, ks)
  {
    GreatestExists(ks);
    var m :| IsGreatest(m, ks);
    m
  }

  /** A set of keys, latest first. */
  ghost function SortDescending(ks: set<Key>): seq<Key> {
    if ks == {} then [] else [Greatest(ks)] + SortDescending(ks - {Greatest(ks)})
  }

  lemma {:induction false} SortDescendingElements(ks: set<Key>)
    ensures Elements(SortDescending(ks)) == ks && |SortDescending(ks)| == |ks|
  {
    if ks == {} {
      assert Elements(SortDescending(ks)) == {};
    } else {
      var m := Greatest(ks);
      var rest := SortDescending(ks - {m});
      SortDescendingElements(ks - {m});
      assert Elements([m] + rest) == {m} + Elements(rest);
    }
  }

  lemma DescendingCons(m: Key, rest: seq<Key>)
    requires Descending(rest) && forall i :: 0 <= i < |rest| ==> Before(rest[i], m)
    ensures Descending([m] + rest)
  {
  }

  lemma {:induction false} SortDescendingSorts(ks: set<Key>)
    ensures Elements(SortDescending(ks)) == ks && |SortDescending(ks)| == |ks|
    ensures Descending(SortDescending(ks))
  {
    SortDescendingElements(ks);
    if ks != {} {
      var m := Greatest(ks);
      var rest := SortDescending(ks - {m});
      SortDescendingSorts(ks - {m});
      forall i | 0 <= i < |rest| ensures Before(rest[i], m) {
        assert rest[i] in Elements(rest);
      }
      DescendingCons(m, rest);
    }
  }

  lemma DescendingDistinct(s: seq<Key>)
    requires Descending(s)
    ensures Distinct(s)
  {
    forall i, j | 0 <= i < j < |s| ensures s[i] != s[j] {
      BeforeIrreflexive(s[i]);
    }
  }

  ghost predicate Ascending(s: seq<Key>) {
    forall i, j :: 0 <= i < j < |s| ==> Before(s[i], s[j])
  }

  /** A set of keys, earliest first. */
  ghost function SortAscending(ks: set<Key>): (s: seq<Key>)
  {
    var d := SortDescending(ks);
    seq(|d|, i requires 0 <= i < |d| => d[|d| - 1 - i])
  }

  lemma SortAscendingSorts(ks: set<Key>)
    ensures Elements(SortAscending(ks)) == ks && |SortAscending(ks)| == |ks|
    ensures Ascending(SortAscending(ks))
  {
    SortDescendingSorts(ks);
    var a, d := SortAscending(ks), SortDescending(ks);
    forall k ensures k in a <==> k in d {
      if k in d {
        var i :| 0 <= i < |d| && d[i] == k;
        assert a[|d| - 1 - i] == k;
      }
    }
    assert Elements(a) == Elements(d);
  }
}
