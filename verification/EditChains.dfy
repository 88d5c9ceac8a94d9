/** Levenshtein distance is what it is meant to be: the least number of single edits that lead from one word to
    another. The edits here are defined on the words alone. */
module EditChains {
  import opened EditDistance

  /** t is s with one element replaced, one inserted or one deleted. */
  predicate OneEdit(s: seq<int>, t: seq<int>) {
    Replaced(s, t) || Inserted(s, t) || Inserted(t, s)
  }

  predicate Replaced(s: seq<int>, t: seq<int>) {
    |t| == |s| && exists i :: 0 <= i < |s| && t == s[..i] + [t[i]] + s[i + 1..]
  }

  predicate Inserted(s: seq<int>, t: seq<int>) {
    |t| == |s| + 1 && exists i :: 0 <= i < |t| && t == s[..i] + [t[i]] + s[i..]
  }

  /** Every word of the path is one edit away from the word before it. */
  predicate Chain(path: seq<seq<int>>) {
    forall i :: 0 < i < |path| ==> OneEdit(path[i - 1], path[i])
  }

  /** A chain of at most k edits leads from s to p. */
  ghost predicate WithinEdits(s: seq<int>, p: seq<int>, k: nat) {
    exists path: seq<seq<int>> :: 0 < |path| <= k + 1 && path[0] == s && path[|path| - 1] == p && Chain(path)
  }

  // ----- an edit changes the distance by at most one -----

  lemma FrontOf(s: seq<int>, c: int)
    ensures Front(s + [c]) == s && Last(s + [c]) == c
  {}

  /** The cost of the last characters, for each way to align them. */
  lemma DistanceSteps(s: seq<int>, p: seq<int>)
    ensures s != [] ==> Distance(s, p) <= Distance(Front(s), p) + 1
    ensures p != [] ==> Distance(s, p) <= Distance(s, Front(p)) + 1
    ensures s != [] && p != [] ==> Distance(s, p) <= Distance(Front(s), Front(p)) + Differs(Last(s), Last(p))
    ensures s != [] && p != [] ==> Distance(s, p) <= Distance(Front(s), Front(p)) + 1
    ensures s != [] && p != [] ==>
              || Distance(s, p) == Distance(Front(s), p) + 1 || Distance(s, p) == Distance(s, Front(p)) + 1
              || Distance(s, p) == Distance(Front(s), Front(p)) + Differs(Last(s), Last(p))
    ensures s == [] ==> Distance(s, p) == |p|
    ensures p == [] ==> Distance(s, p) == |s|
  {}

  /** Words that differ in one stretch of at most one character on each side, followed by the same rest. */
  lemma {:induction false} SpliceCost(a: seq<int>, x: seq<int>, y: seq<int>, rest: seq<int>, p: seq<int>)
    requires |x| <= 1 && |y| <= 1
    ensures Distance(a + x + rest, p) <= Distance(a + y + rest, p) + 1
    decreases |rest| + |p|
  {
    hide Distance, Differs;
    var s, t := a + x + rest, a + y + rest;
    DistanceSteps(s, p);
    DistanceSteps(t, p);
    if p != [] {
      SpliceCost(a, x, y, rest, Front(p));
      if rest != [] {
        var b, c := Front(rest), Last(rest);
        assert s == (a + x + b) + [c] && t == (a + y + b) + [c];
        FrontOf(a + x + b, c);
        FrontOf(a + y + b, c);
        SpliceCost(a, x, y, b, Front(p));
        SpliceCost(a, x, y, b, p);
      } else {
        assert s == a + x && t == a + y && a + x + [] == a + x && a + y + [] == a + y;
        SpliceAtEnd(a, x, y, p);
      }
    }
  }

  lemma GrowAtEnd(a: seq<int>, c: int, p: seq<int>)
    ensures Distance(a + [c], p) <= Distance(a, p) + 1
  {
    FrontOf(a, c);
  }

  lemma ShrinkAtEnd(a: seq<int>, c: int, p: seq<int>)
    requires p != [] && Distance(a, Front(p)) <= Distance(a + [c], Front(p)) + 1
    ensures Distance(a, p) <= Distance(a + [c], p) + 1
  {
    hide Distance, Differs;
    FrontOf(a, c);
    DistanceSteps(a, p);
    DistanceSteps(a + [c], p);
  }

  lemma ChangeAtEnd(a: seq<int>, c: int, d: int, p: seq<int>)
    requires p != [] && Distance(a + [c], Front(p)) <= Distance(a + [d], Front(p)) + 1
    ensures Distance(a + [c], p) <= Distance(a + [d], p) + 1
  {
    hide Distance, Differs;
    FrontOf(a, c);
    FrontOf(a, d);
    DistanceSteps(a + [c], p);
    DistanceSteps(a + [d], p);
  }

  lemma SpliceAtEnd(a: seq<int>, x: seq<int>, y: seq<int>, p: seq<int>)
    requires |x| <= 1 && |y| <= 1 && p != []
    requires Distance(a + x, Front(p)) <= Distance(a + y, Front(p)) + 1
    ensures Distance(a + x, p) <= Distance(a + y, p) + 1
  {
    hide Distance, Front;
    assert (x == [] ==> a + x == a) && (y == [] ==> a + y == a);
    if x != [] && y != [] {
      assert x == [x[0]] && y == [y[0]];
      ChangeAtEnd(a, x[0], y[0], p);
    } else if x != [] {
      assert x == [x[0]];
      GrowAtEnd(a, x[0], p);
    } else if y != [] {
      assert y == [y[0]];
      ShrinkAtEnd(a, y[0], p);
    }
  }

  /** One edit changes the distance to any word by at most one. */
  lemma EditCost(s: seq<int>, t: seq<int>, p: seq<int>)
    requires OneEdit(s, t)
    ensures Distance(s, p) <= Distance(t, p) + 1
  {
    hide Distance;
    if Replaced(s, t) {
      var i :| 0 <= i < |s| && t == s[..i] + [t[i]] + s[i + 1..];
      assert s == s[..i] + [s[i]] + s[i + 1..];
      SpliceCost(s[..i], [s[i]], [t[i]], s[i + 1..], p);
    } else if Inserted(s, t) {
      var i :| 0 <= i < |t| && t == s[..i] + [t[i]] + s[i..];
      assert s == s[..i] + [] + s[i..];
      SpliceCost(s[..i], [], [t[i]], s[i..], p);
    } else {
      var i :| 0 <= i < |s| && s == t[..i] + [s[i]] + t[i..];
      assert t == t[..i] + [] + t[i..];
      SpliceCost(t[..i], [s[i]], [], t[i..], p);
    }
  }

  lemma {:induction false} ChainCost(path: seq<seq<int>>, p: seq<int>)
    requires path != [] && Chain(path)
    ensures Distance(path[0], p) <= |path| - 1 + Distance(path[|path| - 1], p)
  {
    hide Distance, OneEdit;
    if |path| > 1 {
      var rest := path[1..];
      assert forall i :: 0 <= i < |rest| ==> rest[i] == path[i + 1];
      ChainCost(rest, p);
      assert OneEdit(path[1 - 1], path[1]);
      EditCost(path[0], path[1], p);
    }
  }

  // ----- a chain as short as the distance -----

  lemma EditBeforeLast(s: seq<int>, t: seq<int>, c: int)
    requires OneEdit(s, t)
    ensures OneEdit(s + [c], t + [c])
  {
    var u, v := s + [c], t + [c];
    if Replaced(s, t) {
      var i :| 0 <= i < |s| && t == s[..i] + [t[i]] + s[i + 1..];
      assert v == u[..i] + [v[i]] + u[i + 1..];
    } else if Inserted(s, t) {
      var i :| 0 <= i < |t| && t == s[..i] + [t[i]] + s[i..];
      assert v == u[..i] + [v[i]] + u[i..];
    } else {
      var i :| 0 <= i < |s| && s == t[..i] + [s[i]] + t[i..];
      assert u == v[..i] + [u[i]] + v[i..];
    }
  }

  lemma LastEdits(s: seq<int>, c: int, d: int)
    ensures OneEdit(s, s + [c]) && OneEdit(s + [c], s) && OneEdit(s + [c], s + [d])
  {
    var u, v := s + [c], s + [d];
    assert u == s[..|s|] + [u[|s|]] + s[|s|..];
    assert v == u[..|s|] + [v[|s|]] + u[|s| + 1..];
  }

  function EachWith(path: seq<seq<int>>, c: int): (r: seq<seq<int>>)
    ensures |r| == |path| && forall i :: 0 <= i < |path| ==> r[i] == path[i] + [c]
  {
    seq(|path|, i requires 0 <= i < |path| => path[i] + [c])
  }

  lemma ChainWith(path: seq<seq<int>>, c: int)
    requires Chain(path)
    ensures Chain(EachWith(path, c))
  {
    forall i | 0 < i < |path|
      ensures OneEdit(EachWith(path, c)[i - 1], EachWith(path, c)[i])
    {
      EditBeforeLast(path[i - 1], path[i], c);
    }
  }

  lemma ChainThen(path: seq<seq<int>>, p: seq<int>)
    requires path != [] && Chain(path) && OneEdit(path[|path| - 1], p)
    ensures Chain(path + [p])
  {
    hide OneEdit;
  }

  lemma ChainFrom(s: seq<int>, path: seq<seq<int>>)
    requires path != [] && Chain(path) && OneEdit(s, path[0])
    ensures Chain([s] + path)
  {
    hide OneEdit;
    var r := [s] + path;
    forall i | 0 < i < |r|
      ensures OneEdit(r[i - 1], r[i])
    {
      if i > 1 {
        assert OneEdit(path[i - 2], path[i - 1]);
      }
    }
  }

  /** Reads the edits off the alignment that attains the distance. */
  lemma {:induction false} ShortestChain(s: seq<int>, p: seq<int>) returns (path: seq<seq<int>>)
    ensures |path| == Distance(s, p) + 1 && path[0] == s && path[|path| - 1] == p && Chain(path)
    decreases |s| + |p|
  {
    hide Distance, OneEdit, Min3;
    DistanceSteps(s, p);
    if s == [] && p == [] {
      path := [s];
    } else if s != [] && (p == [] || Distance(s, p) == Distance(Front(s), p) + 1) {
      DistanceSteps(Front(s), p);
      path := ShortestChain(Front(s), p);
      assert s == Front(s) + [Last(s)];
      LastEdits(Front(s), Last(s), 0);
      ChainFrom(s, path);
      path := [s] + path;
    } else if s == [] || Distance(s, p) == Distance(s, Front(p)) + 1 {
      DistanceSteps(s, Front(p));
      path := ShortestChain(s, Front(p));
      assert p == Front(p) + [Last(p)];
      LastEdits(Front(p), Last(p), 0);
      ChainThen(path, p);
      path := path + [p];
    } else {
      path := ShortestChain(Front(s), Front(p));
      assert s == Front(s) + [Last(s)] && p == Front(p) + [Last(p)];
      ChainWith(path, Last(s));
      path := EachWith(path, Last(s));
      if Last(s) != Last(p) {
        LastEdits(Front(p), Last(s), Last(p));
        ChainThen(path, p);
        path := path + [p];
      }
    }
  }

  /** The distance is at most k exactly when a chain of at most k single edits leads from s to p. */
  lemma DistanceIsEdits(s: seq<int>, p: seq<int>, k: nat)
    ensures Distance(s, p) <= k <==> WithinEdits(s, p, k)
  {
    hide Distance, Chain;
    if Distance(s, p) <= k {
      var path := ShortestChain(s, p);
    }
    if WithinEdits(s, p, k) {
      var path: seq<seq<int>> :|
        0 < |path| <= k + 1 && path[0] == s && path[|path| - 1] == p && Chain(path);
      ChainCost(path, p);
      DistanceZero(p, p);
    }
  }

  /** Replacing, inserting or deleting one element is distance 1. */
  lemma SingleEdits(a: seq<int>, x: seq<int>, y: seq<int>, rest: seq<int>)
    requires |x| <= 1 && |y| <= 1 && x != y
    ensures Distance(a + x + rest, a + y + rest) == 1
  {
    hide Distance;
    var s, t := a + x + rest, a + y + rest;
    SpliceCost(a, x, y, rest, t);
    DistanceZero(t, t);
    DistanceZero(s, t);
    assert |s| - |t| == |x| - |y|;
    assert |x| == |y| == 1 ==> s[|a|] == x[0] && t[|a|] == y[0];
  }

  /** Going through another word is never shorter. */
  lemma Triangle(s: seq<int>, t: seq<int>, p: seq<int>)
    ensures Distance(s, p) <= Distance(s, t) + Distance(t, p)
  {
    hide Distance, Chain;
    var path := ShortestChain(s, t);
    ChainCost(path, p);
  }
}
