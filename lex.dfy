/**
 * Lexicographic order on strings, comparing characters by code point (the
 * order numpy's sort uses for unicode string arrays), and the sorted,
 * duplicate-free enumeration of the names a sequence mentions, which is what
 * `np.sort(list(set(...)))` produces.
 */
module Lex {

  /** `a` sorts strictly before `b`, comparing one character at a time. */
  predicate Less(a: string, b: string)
    decreases |a|
  {
    if |a| == 0 then |b| > 0
    else if |b| == 0 then false
    else a[0] < b[0] || (a[0] == b[0] && Less(a[1..], b[1..]))
  }

  /** The recursive comparison is exactly lexicographic order by positions. */
  lemma {:induction false} LessIsLexBefore(a: string, b: string)
    ensures Less(a, b) <==> LexBefore(a, b)
    decreases |a|
  {
    if |a| == 0 {
      if |b| > 0 { assert a == b[..0]; }
    } else if |b| > 0 {
      LexStep(a, b);
      if a[0] == b[0] {
        LessIsLexBefore(a[1..], b[1..]);
      }
    }
  }

  /**
   * Lexicographic order stated by positions: `a` is a proper prefix of `b`,
   * or at the first position where they differ `a` has the smaller code point.
   */
  predicate LexBefore(a: string, b: string)
  {
    || (|a| < |b| && a == b[..|a|])
    || exists k :: 0 <= k < |a| && k < |b| && a[..k] == b[..k] && a[k] < b[k]
  }

  /** Comparing from the first character on decides `LexBefore` as the recursion does. */
  lemma LexStep(a: string, b: string)
    requires |a| > 0 && |b| > 0
    ensures a[0] < b[0] ==> LexBefore(a, b)
    ensures a[0] > b[0] ==> !LexBefore(a, b)
    ensures a[0] == b[0] ==> (LexBefore(a, b) <==> LexBefore(a[1..], b[1..]))
  {
    if a[0] < b[0] {
      assert a[..0] == b[..0];
    } else if a[0] > b[0] {
      FirstGreaterNotBefore(a, b);
    } else {
      SameHeadBefore(a, b);
      SameHeadTailBefore(a, b);
    }
  }

  /** A larger first character rules out both a prefix and an earlier smaller character. */
  lemma FirstGreaterNotBefore(a: string, b: string)
    requires |a| > 0 && |b| > 0 && a[0] > b[0]
    ensures !LexBefore(a, b)
  {
    if |a| < |b| { assert a[0] != b[..|a|][0]; }
    forall k | 0 <= k < |a| && k < |b| ensures a[..k] != b[..k] || a[k] > b[k] {
      if k > 0 { assert a[..k][0] != b[..k][0]; }
    }
  }

  /** With equal first characters, `a` before `b` makes the tail of `a` come before the tail of `b`. */
  lemma SameHeadBefore(a: string, b: string)
    requires |a| > 0 && |b| > 0 && a[0] == b[0]
    ensures LexBefore(a, b) ==> LexBefore(a[1..], b[1..])
  {
    var ta, tb := a[1..], b[1..];
    if LexBefore(a, b) {
      if |a| < |b| && a == b[..|a|] {
        assert ta == tb[..|ta|];
      } else {
        var k :| 0 <= k < |a| && k < |b| && a[..k] == b[..k] && a[k] < b[k];
        assert k > 0;
        assert ta[..k - 1] == a[..k][1..] == b[..k][1..] == tb[..k - 1];
        assert ta[k - 1] < tb[k - 1];
      }
    }
  }

  /** With equal first characters, the tail of `a` before the tail of `b` puts `a` before `b`. */
  lemma SameHeadTailBefore(a: string, b: string)
    requires |a| > 0 && |b| > 0 && a[0] == b[0]
    ensures LexBefore(a[1..], b[1..]) ==> LexBefore(a, b)
  {
    var ta, tb := a[1..], b[1..];
    if LexBefore(ta, tb) {
      if |ta| < |tb| && ta == tb[..|ta|] {
        assert a == [a[0]] + ta && b[..|a|] == [b[0]] + tb[..|ta|];
      } else {
        var k :| 0 <= k < |ta| && k < |tb| && ta[..k] == tb[..k] && ta[k] < tb[k];
        assert a[..k + 1] == [a[0]] + ta[..k] && b[..k + 1] == [b[0]] + tb[..k];
        assert a[k + 1] < b[k + 1];
      }
    }
  }

  lemma {:induction false} LessIrreflexive(a: string)
    ensures !Less(a, a)
    decreases |a|
  {
    if |a| > 0 {
      LessIrreflexive(a[1..]);
    }
  }

  lemma {:induction false} LessTransitive(a: string, b: string, c: string)
    requires Less(a, b) && Less(b, c)
    ensures Less(a, c)
    decreases |a|
  {
    if |a| > 0 && a[0] == b[0] && b[0] == c[0] {
      LessTransitive(a[1..], b[1..], c[1..]);
    }
  }

  lemma {:induction false} LessTotal(a: string, b: string)
    ensures a == b || Less(a, b) || Less(b, a)
    decreases |a|
  {
    if |a| > 0 && |b| > 0 && a[0] == b[0] {
      LessTotal(a[1..], b[1..]);
      assert a == [a[0]] + a[1..];
      assert b == [b[0]] + b[1..];
    }
  }

  /** Strictly increasing, hence free of duplicates. */
  predicate StrictlySorted(s: seq<string>)
  {
    forall i, j :: 0 <= i < j < |s| ==> Less(s[i], s[j])
  }

  lemma SortedCons(h: string, t: seq<string>)
    requires StrictlySorted(t)
    requires forall y :: y in t ==> Less(h, y)
    ensures StrictlySorted([h] + t)
  {
    forall i, j | 0 <= i < j < |[h] + t|
      ensures Less(([h] + t)[i], ([h] + t)[j])
    {
      if i == 0 {
        assert t[j - 1] in t;
      }
    }
  }

  /** In a strictly sorted sequence the tail holds every element but the head. */
  lemma TailMembers(s: seq<string>, y: string)
    requires StrictlySorted(s) && |s| > 0
    ensures y in s[1..] <==> y in s && y != s[0]
  {
    if y in s[1..] {
      var k :| 0 <= k < |s[1..]| && s[1..][k] == y;
      assert Less(s[0], s[k + 1]);
      LessIrreflexive(y);
    }
    if y in s && y != s[0] {
      var k :| 0 <= k < |s| && s[k] == y;
      assert s[1..][k - 1] == y;
    }
  }

  /** Adds `x` to a strictly sorted sequence unless it is already there. */
  function Insert(x: string, s: seq<string>): (r: seq<string>)
    requires StrictlySorted(s)
    ensures StrictlySorted(r)
    ensures forall y :: y in r <==> y == x || y in s
  {
    if |s| == 0 then [x]
    else if x == s[0] then s
    else if Less(x, s[0]) then
      (forall y | y in s ensures Less(x, y) {
         var k :| 0 <= k < |s| && s[k] == y;
         if k > 0 { LessTransitive(x, s[0], s[k]); }
       }
       SortedCons(x, s);
       [x] + s)
    else
      LessTotal(x, s[0]);
      var rest := Insert(x, s[1..]);
      (forall y | y in rest ensures Less(s[0], y) {
         if y != x {
           var k :| 0 <= k < |s[1..]| && s[1..][k] == y;
           assert s[k + 1] == y;
         }
       }
       SortedCons(s[0], rest);
       (forall y ensures y in [s[0]] + rest <==> y == x || y in s {
          TailMembers(s, y);
        }
        [s[0]] + rest))
  }

  /** The names in `xs`, each once, in increasing order. */
  function SortedSet(xs: seq<string>): (r: seq<string>)
    ensures StrictlySorted(r)
    ensures forall y :: y in r <==> y in xs
  {
    if |xs| == 0 then []
    else
      assert xs == xs[..|xs| - 1] + [xs[|xs| - 1]];
      Insert(xs[|xs| - 1], SortedSet(xs[..|xs| - 1]))
  }

  lemma SameMembersSameEmptiness(r1: seq<string>, r2: seq<string>)
    requires forall y :: y in r1 <==> y in r2
    ensures |r1| == 0 <==> |r2| == 0
  {
    if |r1| > 0 { assert r1[0] in r2; }
    if |r2| > 0 { assert r2[0] in r1; }
  }

  /**
   * A strictly sorted sequence is determined by its elements: the sorted
   * enumeration of a set does not depend on how the set was listed.
   */
  lemma {:induction false} SortedSetsEqual(r1: seq<string>, r2: seq<string>)
    requires StrictlySorted(r1) && StrictlySorted(r2)
    requires forall y :: y in r1 <==> y in r2
    ensures r1 == r2
    decreases |r1|
  {
    if |r1| > 0 && |r2| > 0 {
      var h1, h2 := r1[0], r2[0];
      assert h1 in r2 && h2 in r1;
      if h1 != h2 {
        var j :| 0 <= j < |r2| && r2[j] == h1;
        var i :| 0 <= i < |r1| && r1[i] == h2;
        assert Less(h2, h1) && Less(h1, h2);
        LessTransitive(h1, h2, h1);
        LessIrreflexive(h1);
        assert false;
      }
      forall y ensures y in r1[1..] <==> y in r2[1..] {
        TailMembers(r1, y);
        TailMembers(r2, y);
      }
      SortedSetsEqual(r1[1..], r2[1..]);
      assert r1 == [h1] + r1[1..] && r2 == [h2] + r2[1..];
    } else {
      SameMembersSameEmptiness(r1, r2);
    }
  }

  /** The names at the first `n` positions of a strictly sorted sequence are `n` distinct keys. */
  lemma {:induction false} DistinctKeysCount(u: seq<string>, n: nat)
    requires StrictlySorted(u) && n <= |u|
    ensures |set i | 0 <= i < n :: u[i]| == n
  {
    if n > 0 {
      DistinctKeysCount(u, n - 1);
      var front := set i | 0 <= i < n - 1 :: u[i];
      assert u[n - 1] !in front by {
        forall i | 0 <= i < n - 1 ensures u[i] != u[n - 1] {
          LessIrreflexive(u[i]);
          assert Less(u[i], u[n - 1]);
        }
      }
      assert (set i | 0 <= i < n :: u[i]) == front + {u[n - 1]};
      assert |front + {u[n - 1]}| == |front| + 1;
    }
  }

  /** A strictly sorted sequence has as many distinct elements as entries. */
  lemma DistinctCount(u: seq<string>)
    requires StrictlySorted(u)
    ensures |set x | x in u| == |u|
  {
    DistinctKeysCount(u, |u|);
    assert (set x | x in u) == set i | 0 <= i < |u| :: u[i];
  }
}
