/**
 * Kickers: `addHighestUnusedCard` in src/HandEvaluator.java draws the
 * first card not yet marked in `used`. Over a rank-descending hand, n such
 * draws add up the n highest ranks outside the made hand.
 */
module Kickers {
  import opened CardLists
  import opened Categories

  /** The ranks at positions i and later that are not marked, in order. */
  function UnusedFrom(rs: seq<int>, used: seq<bool>, i: nat): (r: seq<int>)
    requires |used| == |rs|
    decreases |rs| - i
    ensures InRange(rs) ==> InRange(r)
  {
    if i >= |rs| then [] else (if used[i] then [] else [rs[i]]) + UnusedFrom(rs, used, i + 1)
  }

  /** The ranks of `rs` outside `drop`, in order. */
  function Without(rs: seq<int>, drop: set<int>): (r: seq<int>)
    ensures InRange(rs) ==> InRange(r)
    ensures Descending(rs) ==> Descending(r)
    ensures forall x :: x in r <==> x in rs && x !in drop
  {
    if |rs| == 0 then []
    else
      var rest := Without(rs[1..], drop);
      WithoutStep(rs, drop, rest);
      if rs[0] in drop then rest else [rs[0]] + rest
  }

  /** One step of `Without`: dropping or keeping the first rank keeps order, range and membership. */
  lemma WithoutStep(rs: seq<int>, drop: set<int>, rest: seq<int>)
    requires |rs| > 0
    requires InRange(rs[1..]) ==> InRange(rest)
    requires Descending(rs[1..]) ==> Descending(rest)
    requires forall x :: x in rest <==> x in rs[1..] && x !in drop
    ensures var r := if rs[0] in drop then rest else [rs[0]] + rest;
            && (InRange(rs) ==> InRange(r))
            && (Descending(rs) ==> Descending(r))
            && (forall x :: x in r <==> x in rs && x !in drop)
  {
    assert rs == [rs[0]] + rs[1..];
    if Descending(rs) && rs[0] !in drop {
      forall j | 0 <= j < |rest| ensures rs[0] >= rest[j] {
        var t := rs[1..];
        assert rest[j] in rest && rest[j] in t;
        var k :| 0 <= k < |t| && t[k] == rest[j];
        assert rs[k + 1] == rest[j];
      }
      var r := [rs[0]] + rest;
      forall i, j | 0 <= i < j < |r| ensures r[i] >= r[j] {
        if i > 0 {
          assert r[i] == rest[i - 1] && r[j] == rest[j - 1];
        } else {
          assert r[j] == rest[j - 1];
        }
      }
    }
  }

  /** Marks on positions i and later agree, so the unused ranks from i agree. */
  lemma {:induction false} UnusedFromTail(rs: seq<int>, used: seq<bool>, used': seq<bool>, i: nat)
    requires |used| == |rs| && |used'| == |rs|
    requires forall j :: i <= j < |rs| ==> used[j] == used'[j]
    decreases |rs| - i
    ensures UnusedFrom(rs, used, i) == UnusedFrom(rs, used', i)
  {
    if i < |rs| {
      UnusedFromTail(rs, used, used', i + 1);
    }
  }

  /** Skipping a stretch of marked positions changes nothing. */
  lemma {:induction false} UnusedFromSkip(rs: seq<int>, used: seq<bool>, i: nat, k: nat)
    requires |used| == |rs| && i <= k <= |rs|
    requires forall j :: i <= j < k ==> used[j]
    decreases k - i
    ensures UnusedFrom(rs, used, i) == UnusedFrom(rs, used, k)
  {
    if i < k {
      UnusedFromSkip(rs, used, i + 1, k);
    }
  }

  /**
   * One draw takes the head of the unused ranks and leaves the rest: the
   * unused ranks after the draw are the tail of those before it.
   */
  lemma DrawTakesHead(rs: seq<int>, used: seq<bool>)
    requires |used| == |rs| && InRange(rs)
    ensures var (r, u) := AddHighestUnusedCard(rs, used);
            var before := UnusedFrom(rs, used, 0);
            |u| == |rs| &&
            (if |before| == 0 then r == 0 else r == before[0] && UnusedFrom(rs, u, 0) == before[1..])
  {
    var k := FirstUnused(used, 0);
    if k == -1 {
      UnusedFromSkip(rs, used, 0, |rs|);
    } else {
      var u := used[k := true];
      UnusedFromSkip(rs, used, 0, k);
      UnusedFromSkip(rs, u, 0, k + 1);
      UnusedFromTail(rs, used, u, k + 1);
    }
  }

  /** n successive draws: the sum of the ranks drawn and the marks afterwards. */
  function Draw(rs: seq<int>, used: seq<bool>, n: nat): (r: (int, seq<bool>))
    requires |used| == |rs| && InRange(rs)
    ensures |r.1| == |rs|
    ensures r.0 == SumFirst(UnusedFrom(rs, used, 0), n)
    decreases n
  {
    DrawTakesHead(rs, used);
    if n == 0 then (0, used)
    else
      var (k, u) := AddHighestUnusedCard(rs, used);
      var (rest, u') := Draw(rs, u, n - 1);
      (k + rest, u')
  }

  /** The unused ranks from position i on, when exactly the ranks of `marked` are marked. */
  lemma {:induction false} UnusedIsWithout(rs: seq<int>, used: seq<bool>, marked: set<int>, i: nat)
    requires |used| == |rs| && i <= |rs|
    requires forall k :: 0 <= k < |rs| ==> (used[k] <==> rs[k] in marked)
    decreases |rs| - i
    ensures UnusedFrom(rs, used, i) == Without(rs[i..], marked)
  {
    if i < |rs| {
      UnusedIsWithout(rs, used, marked, i + 1);
      assert rs[i..][1..] == rs[i + 1..];
    }
  }

  /** The counting loop of the marking helpers agrees with the multiset count. */
  lemma {:induction false} CountFromIsCount(rs: seq<int>, x: int, i: nat)
    requires i <= |rs|
    decreases |rs| - i
    ensures CountFrom(rs, x, i) == Count(rs[i..], x)
  {
    if i < |rs| {
      CountFromIsCount(rs, x, i + 1);
      assert rs[i..] == [rs[i]] + rs[i + 1..];
    }
  }

  /** Marking a rank held no more than the limit marks exactly that rank's positions. */
  lemma MarkRankExact(rs: seq<int>, used: seq<bool>, rank: int, left: nat, marked: set<int>)
    requires |used| == |rs| && Count(rs, rank) <= left
    requires forall k :: 0 <= k < |rs| ==> (used[k] <==> rs[k] in marked)
    ensures var u := MarkRank(rs, used, rank, left, 0);
            forall k :: 0 <= k < |rs| ==> (u[k] <==> rs[k] in marked + {rank})
  {
    CountFromIsCount(rs, rank, 0);
    assert rs[0..] == rs;
  }
}
