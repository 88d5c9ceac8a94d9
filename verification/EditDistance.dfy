/** Levenshtein distance, and how it behaves when words grow at the front. */
module EditDistance {

  function Min3(a: nat, b: nat, c: nat): nat {
    if a <= b && a <= c then a else if b <= c then b else c
  }

  function Differs(x: int, y: int): nat {
    if x == y then 0 else 1
  }

  function Front(s: seq<int>): seq<int>
    requires s != []
  {
    s[..|s| - 1]
  }

  function Last(s: seq<int>): int
    requires s != []
  {
    s[|s| - 1]
  }

  /** The least number of substitutions, insertions and deletions that turn s into p. */
  function Distance(s: seq<int>, p: seq<int>): nat
    decreases |s| + |p|
  {
    if p == [] then |s|
    else if s == [] then |p|
    else
      Min3(Distance(Front(s), Front(p)) + Differs(Last(s), Last(p)),
           Distance(Front(s), p) + 1,
           Distance(s, Front(p)) + 1)
  }

  lemma FrontOfPrepended(x: int, s: seq<int>)
    requires s != []
    ensures Front([x] + s) == [x] + Front(s) && Last([x] + s) == Last(s)
  {}

  /** An extra character at the front of s costs at most one edit. */
  lemma {:induction false} PrependLeft(d: int, s: seq<int>, p: seq<int>)
    ensures Distance([d] + s, p) <= Distance(s, p) + 1
    decreases |s| + |p|
  {
    if p != [] {
      if s == [] {
        assert Front([d]) == [];
        PrependLeft(d, s, Front(p));
      } else {
        FrontOfPrepended(d, s);
        PrependLeft(d, Front(s), Front(p));
        PrependLeft(d, Front(s), p);
        PrependLeft(d, s, Front(p));
      }
    }
  }

  /** A pattern character that is skipped at the front costs at most one edit. */
  lemma {:induction false} PrependRight(s: seq<int>, c: int, p: seq<int>)
    ensures Distance(s, [c] + p) <= Distance(s, p) + 1
    decreases |s| + |p|
  {
    if s != [] {
      if p == [] {
        assert Front([c]) == [];
        PrependRight(Front(s), c, p);
      } else {
        FrontOfPrepended(c, p);
        PrependRight(Front(s), c, Front(p));
        PrependRight(Front(s), c, p);
        PrependRight(s, c, Front(p));
      }
    }
  }

  /** Aligning the two front characters costs nothing if they agree and one edit if not. */
  lemma {:induction false} PrependBoth(d: int, s: seq<int>, c: int, p: seq<int>)
    ensures Distance([d] + s, [c] + p) <= Distance(s, p) + Differs(d, c)
    decreases |s| + |p|
  {
    if s == [] && p == [] {
      assert Front([d]) == [] && Front([c]) == [];
    } else if s == [] {
      FrontOfPrepended(c, p);
      PrependBoth(d, s, c, Front(p));
    } else if p == [] {
      FrontOfPrepended(d, s);
      PrependBoth(d, Front(s), c, p);
    } else {
      FrontOfPrepended(d, s);
      FrontOfPrepended(c, p);
      PrependBoth(d, Front(s), c, Front(p));
      PrependBoth(d, Front(s), c, p);
      PrependBoth(d, s, c, Front(p));
    }
  }

  /** Only which characters agree with which matters. */
  lemma {:induction false} DistanceRenamed(s: seq<int>, p: seq<int>, s': seq<int>, p': seq<int>)
    requires |s| == |s'| && |p| == |p'|
    requires forall i, j :: 0 <= i < |s| && 0 <= j < |p| ==> (s[i] == p[j] <==> s'[i] == p'[j])
    ensures Distance(s, p) == Distance(s', p')
    decreases |s| + |p|
  {
    if s != [] && p != [] {
      DistanceRenamed(Front(s), Front(p), Front(s'), Front(p'));
      DistanceRenamed(Front(s), p, Front(s'), p');
      DistanceRenamed(s, Front(p), s', Front(p'));
      assert Last(s) == s[|s| - 1] && Last(p) == p[|p| - 1];
    }
  }

  lemma {:induction false} DistanceZero(s: seq<int>, p: seq<int>)
    ensures Distance(s, p) == 0 <==> s == p
    decreases |s| + |p|
  {
    if s != [] && p != [] {
      DistanceZero(Front(s), Front(p));
      assert s == Front(s) + [Last(s)] && p == Front(p) + [Last(p)];
    }
  }
}
