/** How RCCE_init gives the cores their ranks (`RCCE_admin.c`): it sorts their identifiers with id_compare, and each core
    looks for its own. */
module Ranks {
  import opened Quicksort

  /** What sorting with id_compare means in numbers: the identifiers rise. */
  lemma IdsRise(s: seq<int>)
    ensures SortedIn(s, 0, |s|, IdCompare) <==> forall i, j | 0 <= i < j < |s| :: s[i] <= s[j]
    ensures Order(IdCompare)
  {
    if SortedIn(s, 0, |s|, IdCompare) {
      forall i, j | 0 <= i < j < |s|
        ensures s[i] <= s[j]
      {
        assert IdCompare(s[i], s[j]) <= 0;
      }
    }
  }

  /** The places of the identifiers that are at most `id`. */
  ghost function AtMost(s: seq<int>, id: int): set<int> {
    set i | 0 <= i < |s| && s[i] <= id
  }

  lemma LastCounts(s: seq<int>, x: int, id: int)
    ensures |AtMost(s + [x], id)| == |AtMost(s, id)| + if x <= id then 1 else 0
  {
    assert AtMost(s + [x], id) == AtMost(s, id) + if x <= id then {|s|} else {};
  }

  lemma {:induction false} WithoutOne(s: seq<int>, k: nat, id: int)
    requires k < |s|
    ensures |AtMost(s, id)| == |AtMost(s[..k] + s[k + 1..], id)| + if s[k] <= id then 1 else 0
    decreases |s|
  {
    var n := |s| - 1;
    LastCounts(s[..n], s[n], id);
    assert s[..n] + [s[n]] == s;
    if k < n {
      WithoutOne(s[..n], k, id);
      var rest := s[..n][..k] + s[..n][k + 1..];
      LastCounts(rest, s[n], id);
      assert rest + [s[n]] == s[..k] + s[k + 1..];
    } else {
      assert s[..k] + s[k + 1..] == s[..n];
    }
  }

  lemma {:induction false} PermutedCounts(s: seq<int>, t: seq<int>, id: int)
    requires multiset(s) == multiset(t)
    ensures |AtMost(s, id)| == |AtMost(t, id)|
    decreases |s|
  {
    assert |multiset(s)| == |s| && |multiset(t)| == |t|;
    if s == [] {
      assert s == t;
    } else {
      assert s[0] in multiset(t);
      var k :| 0 <= k < |t| && t[k] == s[0];
      Without(s, 0);
      Without(t, k);
      PermutedCounts(s[1..], t[..k] + t[k + 1..], id);
      WithoutOne(s, 0, id);
      WithoutOne(t, k, id);
    }
  }

  lemma Without(s: seq<int>, k: nat)
    requires k < |s|
    ensures multiset(s[..k] + s[k + 1..]) == multiset(s) - multiset{s[k]}
    ensures k == 0 ==> s[..k] + s[k + 1..] == s[1..]
  {
    assert s == s[..k] + [s[k]] + s[k + 1..];
  }

  lemma {:induction false} AllCount(s: seq<int>, id: int)
    requires forall i | 0 <= i < |s| :: s[i] <= id
    ensures |AtMost(s, id)| == |s|
  {
    if s != [] {
      var n := |s| - 1;
      AllCount(s[..n], id);
      LastCounts(s[..n], s[n], id);
      assert s[..n] + [s[n]] == s;
    }
  }

  /** In a rising list the last place of an identifier tells how many are at most as large. */
  lemma PlaceCounts(s: seq<int>, r: nat)
    requires r < |s| && (forall i, j | 0 <= i < j < |s| :: s[i] <= s[j]) && forall i | r < i < |s| :: s[i] != s[r]
    ensures |AtMost(s, s[r])| == r + 1
  {
    AllCount(s[..r + 1], s[r]);
    assert AtMost(s, s[r]) == AtMost(s[..r + 1], s[r]);
  }

  lemma Rising(s: seq<int>, n: nat)
    requires n <= |s| && SortedIn(s, 0, n, IdCompare)
    ensures forall i, j | 0 <= i < j < n :: s[i] <= s[j]
  {
    assert SortedIn(s[..n], 0, n, IdCompare);
    IdsRise(s[..n]);
    forall i, j | 0 <= i < j < n
      ensures s[i] <= s[j]
    {
      assert s[..n][i] <= s[..n][j];
    }
  }

  /** The call of RCCE_qsort: the identifiers of the `np` participants rise afterwards. */
  method SortIds(ids: array<int>, np: nat)
    requires np <= ids.Length
    modifies ids
    ensures forall i, j | 0 <= i < j < np :: ids[i] <= ids[j]
    ensures multiset(ids[..np]) == multiset(old(ids[..np])) && ids[np..] == old(ids[np..])
  {
    ghost var was := ids[..];
    IdsRise([]);
    QSort(ids, 0, np, true, IdCompare);
    Rising(ids[..], np);
    assert ids[..np] == ids[..][0..np] && was[..np] == was[0..np];
  }

  /** The loop that looks for the calling core: the last place of its identifier. */
  method FindRank(ids: array<int>, np: nat, me: int) returns (iam: int)
    requires np <= ids.Length
    ensures -1 <= iam < np && forall i | iam < i < np :: ids[i] != me
    ensures iam >= 0 ==> ids[iam] == me
  {
    iam := -1;
    var ue := 0;
    while ue < np
      invariant -1 <= iam < ue <= np && forall i | iam < i < ue :: ids[i] != me
      invariant iam >= 0 ==> ids[iam] == me
    {
      if ids[ue] == me {
        iam := ue;
      }
      ue := ue + 1;
    }
  }

  /** The rank of the calling core is the number of participants with a smaller identifier, and of any others with its
      own; a core that does not take part gets -1. */
  method GiveRank(ids: array<int>, np: nat, me: int) returns (iam: int)
    requires np <= ids.Length
    modifies ids
    ensures forall i, j | 0 <= i < j < np :: ids[i] <= ids[j]
    ensures multiset(ids[..np]) == multiset(old(ids[..np])) && ids[np..] == old(ids[np..])
    ensures if me in old(ids[..np]) then iam + 1 == |set i | 0 <= i < np && old(ids[i]) <= me| else iam == -1
  {
    ghost var was := ids[..np];
    SortIds(ids, np);
    iam := FindRank(ids, np, me);
    ghost var now := ids[..np];
    RankCounts(was, now, me, iam);
    assert AtMost(was, me) == set i | 0 <= i < np && old(ids[i]) <= me;
  }

  lemma RankCounts(was: seq<int>, now: seq<int>, me: int, iam: int)
    requires multiset(was) == multiset(now) && (forall i, j | 0 <= i < j < |now| :: now[i] <= now[j])
    requires -1 <= iam < |now| && (forall i | iam < i < |now| :: now[i] != me) && (iam >= 0 ==> now[iam] == me)
    ensures if me in was then iam + 1 == |AtMost(was, me)| else iam == -1
  {
    assert me in was <==> me in multiset(now);
    if iam >= 0 {
      PlaceCounts(now, iam);
      PermutedCounts(was, now, me);
    }
  }
}
