/** The `LIKE` operator of the database: `%`, `_`, and ASCII letters without regard to case. */
module Like {
  import opened Text
  import opened Schema

  predicate LikeMatch(p: string, t: string)
    decreases |p| + |t|
  {
    if p == "" then t == ""
    else if p[0] == '%' then LikeMatch(p[1..], t) || (t != "" && LikeMatch(p, t[1..]))
    else t != "" && (p[0] == '_' || LowerChar(p[0]) == LowerChar(t[0])) && LikeMatch(p[1..], t[1..])
  }

  /** An underscore stands for any one character. */
  lemma Underscore(p: string, t: string)
    ensures LikeMatch("_" + p, t) <==> t != "" && LikeMatch(p, t[1..])
  {
    assert ("_" + p)[1..] == p;
  }

  // --- What the patterns of the query builder mean -----------------------------------

  ghost predicate MatchesSuffix(p: string, t: string) {
    exists i :: 0 <= i <= |t| && LikeMatch(p, t[i..])
  }

  ghost predicate MatchesPrefix(p: string, t: string) {
    exists j :: 0 <= j <= |t| && LikeMatch(p, t[..j])
  }

  ghost predicate MatchesInside(p: string, t: string) {
    exists i :: 0 <= i <= |t| && MatchesPrefix(p, t[i..])
  }

  lemma {:induction false} LikeLeadingPercent(p: string, t: string)
    ensures LikeMatch("%" + p, t) <==> MatchesSuffix(p, t)
    decreases |t|
  {
    var q := "%" + p;
    assert q[1..] == p;
    if LikeMatch(p, t) {
      assert t[0..] == t;
    } else if t != "" {
      LikeLeadingPercent(p, t[1..]);
      if MatchesSuffix(p, t[1..]) {
        var i :| 0 <= i <= |t[1..]| && LikeMatch(p, t[1..][i..]);
        assert t[1..][i..] == t[i + 1..];
      }
      if MatchesSuffix(p, t) {
        var i :| 0 <= i <= |t| && LikeMatch(p, t[i..]);
        assert i > 0 by {
          assert t[0..] == t;
        }
        assert t[1..][i - 1..] == t[i..];
      }
    } else {
      assert forall i :: 0 <= i <= |t| ==> t[i..] == t;
    }
  }

  lemma {:induction false} LikePercentAlone(t: string)
    ensures LikeMatch("%", t)
  {
    if t != "" {
      LikePercentAlone(t[1..]);
    }
  }

  lemma {:induction false} LikeTrailingPercent(p: string, t: string)
    ensures LikeMatch(p + "%", t) <==> MatchesPrefix(p, t)
    decreases |p| + |t|
  {
    var q := p + "%";
    if p == "" {
      assert q == "%";
      LikePercentAlone(t);
      assert LikeMatch(p, t[..0]);
    } else {
      assert q[1..] == p[1..] + "%";
      if p[0] == '%' {
        LikeTrailingPercent(p[1..], t);
        if t != "" {
          LikeTrailingPercent(p, t[1..]);
        }
        PrefixAfterPercent(p, t);
      } else if t != "" {
        LikeTrailingPercent(p[1..], t[1..]);
        PrefixAfterChar(p, t);
      } else {
        assert forall j :: 0 <= j <= |t| ==> t[..j] == "";
      }
    }
  }

  lemma PrefixAfterPercent(p: string, t: string)
    requires p != "" && p[0] == '%'
    ensures MatchesPrefix(p, t) <==> MatchesPrefix(p[1..], t) || (t != "" && MatchesPrefix(p, t[1..]))
  {
    if j :| 0 <= j <= |t| && LikeMatch(p, t[..j]) {
      if !LikeMatch(p[1..], t[..j]) {
        assert t[..j][1..] == t[1..][..j - 1];
      }
    }
    if t != "" && MatchesPrefix(p, t[1..]) {
      var j :| 0 <= j <= |t[1..]| && LikeMatch(p, t[1..][..j]);
      assert t[..j + 1][1..] == t[1..][..j];
      assert LikeMatch(p, t[..j + 1]);
    }
    if MatchesPrefix(p[1..], t) {
      var j :| 0 <= j <= |t| && LikeMatch(p[1..], t[..j]);
      assert LikeMatch(p, t[..j]);
    }
  }

  lemma PrefixAfterChar(p: string, t: string)
    requires p != "" && p[0] != '%' && t != ""
    ensures
      MatchesPrefix(p, t) <==>
      (p[0] == '_' || LowerChar(p[0]) == LowerChar(t[0])) && MatchesPrefix(p[1..], t[1..])
  {
    if j :| 0 <= j <= |t| && LikeMatch(p, t[..j]) {
      assert j > 0;
      assert t[..j][1..] == t[1..][..j - 1];
    }
    if MatchesPrefix(p[1..], t[1..]) {
      var j :| 0 <= j <= |t[1..]| && LikeMatch(p[1..], t[1..][..j]);
      assert t[..j + 1][1..] == t[1..][..j];
      assert t[..j + 1][0] == t[0];
      assert (p[0] == '_' || LowerChar(p[0]) == LowerChar(t[0])) ==> LikeMatch(p, t[..j + 1]);
    }
  }

  lemma LikeBothPercents(p: string, t: string)
    ensures LikeMatch("%" + p + "%", t) <==> MatchesInside(p, t)
  {
    assert "%" + p + "%" == "%" + (p + "%");
    LikeLeadingPercent(p + "%", t);
    forall i | 0 <= i <= |t| ensures LikeMatch(p + "%", t[i..]) <==> MatchesPrefix(p, t[i..]) {
      LikeTrailingPercent(p, t[i..]);
    }
  }

  // --- Patterns without wildcards ------------------------------------------------------

  predicate Plain(p: string) {
    '%' !in p && '_' !in p
  }

  /** A plain pattern matches exactly the texts that differ from it in case only. */
  lemma {:induction false} PlainIsEquality(p: string, t: string)
    requires Plain(p)
    ensures LikeMatch(p, t) <==> Lower(p) == Lower(t)
    decreases |p|
  {
    if p != "" && t != "" {
      assert p[0] in p;
      PlainIsEquality(p[1..], t[1..]);
      LowerCons(p);
      LowerCons(t);
      assert Lower(p)[1..] == Lower(p[1..]) && Lower(t)[1..] == Lower(t[1..]);
    }
  }

  lemma LowerCons(s: string)
    requires s != ""
    ensures Lower(s) == [LowerChar(s[0])] + Lower(s[1..])
  {
  }

  lemma LowerSlice(s: string, lo: nat, hi: nat)
    requires lo <= hi <= |s|
    ensures Lower(s[lo..hi]) == Lower(s)[lo..hi]
  {
  }

  lemma PlainPrefix(p: string, t: string)
    requires Plain(p)
    ensures MatchesPrefix(p, t) <==> StartsWith(Lower(t), Lower(p))
  {
    forall j | 0 <= j <= |t| ensures LikeMatch(p, t[..j]) <==> Lower(p) == Lower(t)[..j] {
      PlainIsEquality(p, t[..j]);
      LowerSlice(t, 0, j);
      assert t[0..j] == t[..j] && Lower(t)[0..j] == Lower(t)[..j];
    }
    if StartsWith(Lower(t), Lower(p)) {
      assert LikeMatch(p, t[..|p|]);
    }
  }

  lemma PlainSuffix(p: string, t: string)
    requires Plain(p)
    ensures MatchesSuffix(p, t) <==> |p| <= |t| && Lower(t)[|t| - |p|..] == Lower(p)
  {
    forall i | 0 <= i <= |t| ensures LikeMatch(p, t[i..]) <==> Lower(p) == Lower(t)[i..] {
      PlainIsEquality(p, t[i..]);
      LowerSlice(t, i, |t|);
      assert t[i..|t|] == t[i..] && Lower(t)[i..|t|] == Lower(t)[i..];
    }
    if |p| <= |t| && Lower(t)[|t| - |p|..] == Lower(p) {
      assert LikeMatch(p, t[|t| - |p|..]);
    }
  }

  lemma PlainInside(p: string, t: string)
    requires Plain(p)
    ensures MatchesInside(p, t) <==> Contains(Lower(t), Lower(p))
  {
    forall i | 0 <= i <= |t| ensures MatchesPrefix(p, t[i..]) <==> OccursAt(Lower(t), Lower(p), i) {
      PlainPrefix(p, t[i..]);
      LowerSlice(t, i, |t|);
      assert t[i..|t|] == t[i..] && Lower(t)[i..|t|] == Lower(t)[i..];
      assert i + |p| <= |t| ==> Lower(t)[i..][..|p|] == Lower(t)[i..i + |p|];
    }
  }

  /** A value without wildcards is found regardless of case: inside, at the start, at the end. */
  lemma PlainValues(v: string, t: string)
    requires Plain(v)
    ensures LikeMatch("%" + v + "%", t) <==> Contains(Lower(t), Lower(v))
    ensures LikeMatch(v + "%", t) <==> StartsWith(Lower(t), Lower(v))
    ensures LikeMatch("%" + v, t) <==> |v| <= |t| && Lower(t)[|t| - |v|..] == Lower(v)
  {
    LikeBothPercents(v, t);
    PlainInside(v, t);
    LikeTrailingPercent(v, t);
    PlainPrefix(v, t);
    LikeLeadingPercent(v, t);
    PlainSuffix(v, t);
  }
}
