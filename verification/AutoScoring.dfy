/**
  Automatic scoring: points are handed out to the groups without a score by repeated integer division,
  in Conver (next to explicit scores) and in Simfile (when no scoring is given).
 */
module AutoScoring {
  import opened Unsigned
  import opened Wrappers

  // ----- dividing points

  function Quot(p: nat, m: nat): nat requires m > 0 { p / m }

  function Rem(p: nat, m: nat): (r: nat) requires m > 0 ensures r < m { p % m }

  lemma QuotRem(p: nat, m: nat)
    requires m > 0
    ensures p == m * Quot(p, m) + Rem(p, m)
  {
  }

  /** What the j-th of m takers of p points gets: the early ones the rounded-down part, the last p % m one
      point more. */
  function Share(p: nat, m: nat, j: nat): nat
    requires j < m
  {
    Quot(p, m) + (if j >= m - Rem(p, m) then 1 else 0)
  }

  /** The points of the first k takers together. */
  function Shares(p: nat, m: nat, k: nat): nat
    requires k <= m
  {
    if k == 0 then 0 else Shares(p, m, k - 1) + Share(p, m, k - 1)
  }

  lemma {:induction false} SharesClosed(p: nat, m: nat, k: nat)
    requires 0 < m && k <= m
    ensures Shares(p, m, k) == k * Quot(p, m) + (if k > m - Rem(p, m) then k - (m - Rem(p, m)) else 0)
  {
    hide Quot, Rem;
    if k > 0 {
      SharesClosed(p, m, k - 1);
      assert (k - 1) * Quot(p, m) + Quot(p, m) == k * Quot(p, m);
    }
  }

  /** Nothing is lost: m takers get all p points. */
  lemma SharesAreAll(p: nat, m: nat)
    requires 0 < m
    ensures Shares(p, m, m) == p
  {
    hide Quot, Rem;
    SharesClosed(p, m, m);
    QuotRem(p, m);
  }

  /** Dividing what is left by the number of takers left gives the next share. */
  lemma NextShare(p: nat, m: nat, j: nat)
    requires j < m
    ensures Shares(p, m, j) <= p
    ensures Quot(p - Shares(p, m, j), m - j) == Share(p, m, j)
  {
    hide Quot, Rem, Shares;
    SharesClosed(p, m, j);
    QuotRem(p, m);
    RemainderDivides(p, m, j, Quot(p, m), Rem(p, m));
  }

  lemma RemainderDivides(p: nat, m: nat, j: nat, q: nat, r: nat)
    requires j < m && r < m && p == m * q + r
    ensures var given := j * q + (if j > m - r then j - (m - r) else 0);
            given <= p && Quot(p - given, m - j) == q + (if j >= m - r then 1 else 0)
  {
    var left := m - j;
    assert m * q == j * q + left * q;
    if left > r {
      assert p - j * q == left * q + r;
      DivIs(p - j * q, left, q, r);
    } else {
      assert p - (j * q + (j - (m - r))) == left * (q + 1);
      DivIs(left * (q + 1), left, q + 1, 0);
    }
  }

  lemma DivIs(x: int, d: int, q: int, r: int)
    requires d > 0 && 0 <= r < d && x == d * q + r
    ensures x / d == q
  {
    var e := x / d - q;
    assert d * e == r - x % d;
    assert -d < d * e < d;
  }

  /** No two shares differ by more than one point. */
  lemma SharesAreEven(p: nat, m: nat, i: nat, j: nat)
    requires i < m && j < m
    ensures -1 <= Share(p, m, i) - Share(p, m, j) <= 1 && (i <= j ==> Share(p, m, i) <= Share(p, m, j))
  {
  }

  // ----- Conver

  datatype Group = Group(gid: string, score: Option<int>)

  predicate IsZeroGid(gid: string) { forall i :: 0 <= i < |gid| ==> gid[i] == '0' }

  /** The group that never takes part: the first one, if it is group zero. */
  predicate IsZeroGroup(groups: seq<Group>, i: nat)
    requires i < |groups|
  {
    i == 0 && IsZeroGid(groups[0].gid)
  }

  predicate Takes(groups: seq<Group>, i: nat)
    requires i < |groups|
  {
    groups[i].score == None && !IsZeroGroup(groups, i)
  }

  /** How many of the first k groups take part in the distribution. */
  function Takers(groups: seq<Group>, k: nat): (n: nat)
    requires k <= |groups|
    ensures n <= k
  {
    if k == 0 then 0 else Takers(groups, k - 1) + (if Takes(groups, k - 1) then 1 else 0)
  }

  lemma TakersGrow(groups: seq<Group>, k: nat, l: nat)
    requires k <= l <= |groups|
    ensures Takers(groups, k) <= Takers(groups, l)
    decreases l - k
  {
  }

  function Positive(x: int): nat { if x > 0 then x else 0 }

  /** The explicit positive scores of the first k groups. */
  function Explicit(groups: seq<Group>, k: nat): nat
    requires k <= |groups|
  {
    if k == 0 then 0
    else Explicit(groups, k - 1) + (match groups[k - 1].score case Some(s) => Positive(s) case None => 0)
  }

  function Unscored(groups: seq<Group>, k: nat): nat
    requires k <= |groups|
  {
    if k == 0 then 0 else Unscored(groups, k - 1) + (if groups[k - 1].score == None then 1 else 0)
  }

  /** Points left to distribute; the sum of the explicit scores wraps around. */
  function Pool(groups: seq<Group>): nat {
    var e := Unsigned64(Explicit(groups, |groups|));
    if e > 100 then 0 else 100 - e
  }

  /** The score group i ends up with. */
  function FinalScore(groups: seq<Group>, i: nat): int
    requires i < |groups|
  {
    match groups[i].score
    case Some(s) => s
    case None =>
      if IsZeroGroup(groups, i) then 0
      else
        TakersGrow(groups, i + 1, |groups|);
        Share(Pool(groups), Takers(groups, |groups|), Takers(groups, i))
  }

  lemma {:induction false} UnscoredTakers(groups: seq<Group>, k: nat)
    requires k <= |groups|
    ensures Unscored(groups, k) ==
            Takers(groups, k) + (if k > 0 && groups[0].score == None && IsZeroGid(groups[0].gid) then 1 else 0)
  {
    if k > 0 {
      UnscoredTakers(groups, k - 1);
    }
  }

  lemma {:induction false} AllHaveScores(groups: seq<Group>, k: nat)
    requires k <= |groups| && Unscored(groups, k) == 0
    ensures forall i :: 0 <= i < k ==> groups[i].score == Some(FinalScore(groups, i))
  {
    if k > 0 {
      AllHaveScores(groups, k - 1);
    }
  }

  /** The scores after the distribution; no division is by zero. */
  method DistributeScores(groups: seq<Group>) returns (scores: seq<int>)
    ensures |scores| == |groups| && forall i :: 0 <= i < |groups| ==> scores[i] == FinalScore(groups, i)
    ensures forall i :: 0 <= i < |groups| && groups[i].score.Some? ==> scores[i] == groups[i].score.value
    ensures groups != [] && groups[0].score == None && IsZeroGid(groups[0].gid) ==> scores[0] == 0
  {
    hide Unsigned64;
    var maxScore, unscored := 0, 0;
    UnsignedSmall(0);
    for k := 0 to |groups|
      invariant maxScore == Unsigned64(Explicit(groups, k)) && unscored == Unscored(groups, k)
    {
      ghost var more := match groups[k].score case Some(s) => Positive(s) case None => 0;
      UnsignedAdd(Explicit(groups, k), more);
      maxScore := Unsigned64(maxScore + (match groups[k].score case Some(s) => Positive(s) case None => 0));
      unscored := unscored + (if groups[k].score == None then 1 else 0);
    }
    UnscoredTakers(groups, |groups|);
    if unscored == 0 {
      AllHaveScores(groups, |groups|);
      scores := Collect(groups, groups);
      return;
    }
    maxScore := if maxScore > 100 then 0 else 100 - maxScore;
    var gs := groups;
    if IsZeroGid(groups[0].gid) && groups[0].score == None {
      gs := gs[0 := groups[0].(score := Some(0))];
      unscored := unscored - 1;
    }
    gs := Distribute(groups, gs, maxScore, unscored);
    scores := Collect(groups, gs);
  }

  /** The score of group i when the distribution begins. */
  function StartScore(groups: seq<Group>, i: nat): Option<int>
    requires i < |groups|
  {
    if IsZeroGroup(groups, i) && groups[i].score == None then Some(0) else groups[i].score
  }

  method Distribute(ghost groups: seq<Group>, start: seq<Group>, pool: nat, takers: nat) returns (gs: seq<Group>)
    requires |start| == |groups| && pool == Pool(groups) && takers == Takers(groups, |groups|)
    requires forall i :: 0 <= i < |groups| ==> start[i].score == StartScore(groups, i)
    ensures |gs| == |groups| && forall i :: 0 <= i < |groups| ==> gs[i].score == Some(FinalScore(groups, i))
  {
    hide Pool, Share, Shares, IsZeroGroup;
    gs := start;
    var maxScore, unscored := pool, takers;
    NoShares(pool, takers);
    for k := 0 to |gs|
      invariant |gs| == |groups|
      invariant Takers(groups, k) <= takers && unscored == takers - Takers(groups, k)
      invariant Shares(pool, takers, Takers(groups, k)) <= pool && maxScore == pool - Shares(pool, takers, Takers(groups, k))
      invariant forall i :: 0 <= i < k ==> gs[i].score == Some(FinalScore(groups, i))
      invariant forall i :: k <= i < |gs| ==> gs[i].score == StartScore(groups, i)
    {
      TakersGrow(groups, k + 1, |groups|);
      if gs[k].score == None {
        NextShare(pool, takers, Takers(groups, k));
        SharesStep(pool, takers, Takers(groups, k));
        var s := maxScore / unscored;
        unscored := unscored - 1;
        gs := gs[k := gs[k].(score := Some(s))];
        maxScore := maxScore - s;
      }
    }
  }

  lemma NoShares(p: nat, m: nat)
    ensures Shares(p, m, 0) == 0
  {
  }

  lemma SharesStep(p: nat, m: nat, j: nat)
    requires j < m
    ensures Shares(p, m, j + 1) == Shares(p, m, j) + Share(p, m, j) <= p
  {
    if j + 1 < m {
      NextShare(p, m, j + 1);
    } else {
      SharesAreAll(p, m);
    }
  }

  method Collect(ghost groups: seq<Group>, gs: seq<Group>) returns (scores: seq<int>)
    requires |gs| == |groups| && forall i :: 0 <= i < |gs| ==> gs[i].score == Some(FinalScore(groups, i))
    ensures |scores| == |groups| && forall i :: 0 <= i < |groups| ==> scores[i] == FinalScore(groups, i)
  {
    scores := [];
    for k := 0 to |gs|
      invariant |scores| == k && forall i :: 0 <= i < k ==> scores[i] == FinalScore(groups, i)
    {
      scores := scores + [gs[k].score.value];
    }
  }

  /** The positive final scores of the first k groups. */
  function Total(groups: seq<Group>, k: nat): nat
    requires k <= |groups|
  {
    if k == 0 then 0 else Total(groups, k - 1) + Positive(FinalScore(groups, k - 1))
  }

  lemma {:induction false} TotalSplits(groups: seq<Group>, k: nat)
    requires k <= |groups|
    ensures Takers(groups, k) <= Takers(groups, |groups|)
    ensures Total(groups, k) == Explicit(groups, k) + Shares(Pool(groups), Takers(groups, |groups|), Takers(groups, k))
  {
    TakersGrow(groups, k, |groups|);
    if k > 0 {
      TotalSplits(groups, k - 1);
    }
  }

  /** What the positive scores should sum to: as soon as one group takes part, to 100, or to the explicit ones
      if those exceed 100 already; otherwise to the explicit ones. */
  function ExpectedTotal(groups: seq<Group>): nat {
    var e := Explicit(groups, |groups|);
    if Takers(groups, |groups|) > 0 && e <= 100 then 100 else e
  }

  /** Conservation: it fails exactly when a group takes part and the explicit scores, summed in 64 bits, wrap
      around to less than 100. */
  lemma ConverConserves(groups: seq<Group>)
    ensures var e := Explicit(groups, |groups|);
            Total(groups, |groups|) == ExpectedTotal(groups) <==>
            Takers(groups, |groups|) == 0 || e < TWO_TO_THE_64 || Unsigned64(e) >= 100
  {
    hide Unsigned64;
    var e := Explicit(groups, |groups|);
    TotalSplits(groups, |groups|);
    if e < TWO_TO_THE_64 {
      UnsignedSmall(e);
    }
    if Takers(groups, |groups|) > 0 {
      SharesAreAll(Pool(groups), Takers(groups, |groups|));
    } else {
      NoShares(Pool(groups), 0);
    }
  }

  /** An input on which it fails: the explicit scores sum to 2 to the 64, and 100 points more are given. */
  lemma ConverOverflows()
    ensures var groups := [Group("1", Some(0x7fff_ffff_ffff_ffff)), Group("2", Some(0x7fff_ffff_ffff_ffff)),
                           Group("3", Some(2)), Group("4", None)];
            Total(groups, |groups|) != ExpectedTotal(groups)
  {
    var groups := [Group("1", Some(0x7fff_ffff_ffff_ffff)), Group("2", Some(0x7fff_ffff_ffff_ffff)),
                   Group("3", Some(2)), Group("4", None)];
    assert Explicit(groups, 0) == 0;
    assert Explicit(groups, 1) == 0x7fff_ffff_ffff_ffff;
    assert Explicit(groups, 2) == 2 * 0x7fff_ffff_ffff_ffff;
    assert Explicit(groups, 3) == TWO_TO_THE_64;
    assert Explicit(groups, 4) == TWO_TO_THE_64;
    assert Takes(groups, 3);
    assert Takers(groups, 4) == Takers(groups, 3) + 1;
    ConverConserves(groups);
  }

  /** Automatic scores are never negative and differ by at most one point. */
  lemma ConverIsEven(groups: seq<Group>, i: nat, j: nat)
    requires i < |groups| && j < |groups| && Takes(groups, i) && Takes(groups, j)
    ensures FinalScore(groups, i) >= 0 && -1 <= FinalScore(groups, i) - FinalScore(groups, j) <= 1
    ensures i <= j ==> FinalScore(groups, i) <= FinalScore(groups, j)
  {
    if i <= j {
      TakersGrow(groups, i, j);
    }
    TakersGrow(groups, i + 1, |groups|);
    TakersGrow(groups, j + 1, |groups|);
    SharesAreEven(Pool(groups), Takers(groups, |groups|), Takers(groups, i), Takers(groups, j));
  }

  // ----- Simfile

  /** Group ids in the order of the map: compared as numbers, so at most one is zero. */
  predicate GidsOk(gids: seq<string>) {
    forall i, j :: 0 <= i < j < |gids| ==> gids[i] != gids[j] && !(IsZeroGid(gids[i]) && IsZeroGid(gids[j]))
  }

  /** How many of the first k groups get a share: all but the one spelled "0". */
  function NonZero(gids: seq<string>, k: nat): (n: nat)
    requires k <= |gids|
    ensures n <= k
  {
    if k == 0 then 0 else NonZero(gids, k - 1) + (if gids[k - 1] != "0" then 1 else 0)
  }

  lemma NonZeroGrow(gids: seq<string>, k: nat, l: nat)
    requires k <= l <= |gids|
    ensures NonZero(gids, k) <= NonZero(gids, l)
    decreases l - k
  {
  }

  /** Some group is zero but spelled differently, as in "00". */
  ghost predicate OddZero(gids: seq<string>) {
    exists i :: 0 <= i < |gids| && IsZeroGid(gids[i]) && gids[i] != "0"
  }

  ghost function ZeroCount(gids: seq<string>): nat {
    if exists i :: 0 <= i < |gids| && IsZeroGid(gids[i]) then 1 else 0
  }

  /** The number of groups not equivalent to "0" is one short exactly when zero is spelled oddly. */
  lemma {:induction false} CountMismatch(gids: seq<string>)
    requires GidsOk(gids)
    ensures |gids| - ZeroCount(gids) == NonZero(gids, |gids|) - (if OddZero(gids) then 1 else 0)
  {
    if i :| 0 <= i < |gids| && IsZeroGid(gids[i]) {
      OneZero(gids, |gids|, i);
    } else {
      NoZero(gids, |gids|);
    }
  }

  lemma {:induction false} NoZero(gids: seq<string>, k: nat)
    requires k <= |gids| && forall i :: 0 <= i < k ==> gids[i] != "0"
    ensures NonZero(gids, k) == k
  {
    if k > 0 {
      NoZero(gids, k - 1);
    }
  }

  lemma {:induction false} OneZero(gids: seq<string>, k: nat, z: nat)
    requires GidsOk(gids) && k <= |gids| && z < |gids| && IsZeroGid(gids[z])
    ensures NonZero(gids, k) == if z < k && gids[z] == "0" then k - 1 else k
  {
    if k > 0 {
      OneZero(gids, k - 1, z);
      assert gids[k - 1] == "0" ==> IsZeroGid(gids[k - 1]);
    }
  }

  /** Groups on which automatic scoring fails. */
  lemma OddZeroHappens()
    ensures GidsOk(["00", "1"]) && OddZero(["00", "1"])
  {
    var gids := ["00", "1"];
    assert IsZeroGid(gids[0]) && gids[0] != "0";
    assert gids[1][0] == '1' && !IsZeroGid(gids[1]);
  }

  /** Counts keys equivalent to "0" in the map. */
  method CountZero(gids: seq<string>) returns (n: nat)
    requires GidsOk(gids)
    ensures n == ZeroCount(gids)
  {
    n := 0;
    for k := 0 to |gids|
      invariant n == if exists i :: 0 <= i < k && IsZeroGid(gids[i]) then 1 else 0
    {
      if IsZeroGid(gids[k]) {
        n := 1;
      }
    }
  }

  /** 100 points over the groups, None standing for a turn of the loop in which no group is left to divide
      by: the assertion before the division fails there, or without assertions the division itself. That
      happens exactly when group zero is there under another spelling than "0". */
  method AutoScore(gids: seq<string>) returns (r: Option<seq<int>>)
    requires GidsOk(gids)
    ensures r == None <==> OddZero(gids)
    ensures r.Some? ==> |r.value| == |gids|
    ensures r.Some? ==> forall i :: 0 <= i < |gids| ==> r.value[i] == SimfileScore(gids, i)
  {
    var zero := CountZero(gids);
    CountMismatch(gids);
    ghost var m := NonZero(gids, |gids|);
    ghost var odd := if OddZero(gids) then 1 else 0;
    var groupsNo := |gids| - zero;
    var totalScore := 100;
    var scores := seq(|gids|, _ => 0);
    for k := 0 to |gids|
      invariant groupsNo == m - odd - NonZero(gids, k) >= 0
      invariant |scores| == |gids|
      invariant odd == 0 ==> totalScore == 100 - Shares(100, m, NonZero(gids, k))
      invariant odd == 0 ==> forall i :: 0 <= i < k ==> scores[i] == SimfileScore(gids, i)
      invariant forall i :: k <= i < |scores| ==> scores[i] == 0
    {
      NonZeroGrow(gids, k + 1, |gids|);
      if gids[k] != "0" {
        if groupsNo == 0 {
          return None;
        }
        if odd == 0 {
          NextShare(100, m, NonZero(gids, k));
        }
        var s := totalScore / groupsNo;
        groupsNo := groupsNo - 1;
        scores := scores[k := s];
        totalScore := totalScore - s;
      }
    }
    r := Some(scores);
  }

  function SimfileScore(gids: seq<string>, i: nat): int
    requires i < |gids|
  {
    if gids[i] == "0" then 0
    else
      NonZeroGrow(gids, i + 1, |gids|);
      Share(100, NonZero(gids, |gids|), NonZero(gids, i))
  }

  function SimfileTotal(gids: seq<string>, k: nat): int
    requires k <= |gids|
  {
    if k == 0 then 0 else SimfileTotal(gids, k - 1) + SimfileScore(gids, k - 1)
  }

  lemma {:induction false} SimfileTotalIs(gids: seq<string>, k: nat)
    requires k <= |gids|
    ensures NonZero(gids, k) <= NonZero(gids, |gids|)
    ensures SimfileTotal(gids, k) == Shares(100, NonZero(gids, |gids|), NonZero(gids, k))
  {
    NonZeroGrow(gids, k, |gids|);
    if k > 0 {
      SimfileTotalIs(gids, k - 1);
    }
  }

  /** The scores sum to exactly 100 whenever there is a group besides group zero. */
  lemma SimfileConserves(gids: seq<string>)
    ensures SimfileTotal(gids, |gids|) == if NonZero(gids, |gids|) > 0 then 100 else 0
  {
    SimfileTotalIs(gids, |gids|);
    if NonZero(gids, |gids|) > 0 {
      SharesAreAll(100, NonZero(gids, |gids|));
    }
  }

  lemma SimfileIsEven(gids: seq<string>, i: nat, j: nat)
    requires i < |gids| && j < |gids| && gids[i] != "0" && gids[j] != "0"
    ensures SimfileScore(gids, i) >= 0 && -1 <= SimfileScore(gids, i) - SimfileScore(gids, j) <= 1
    ensures i <= j ==> SimfileScore(gids, i) <= SimfileScore(gids, j)
  {
    if i <= j {
      NonZeroGrow(gids, i, j);
    }
    NonZeroGrow(gids, i + 1, |gids|);
    NonZeroGrow(gids, j + 1, |gids|);
    SharesAreEven(100, NonZero(gids, |gids|), NonZero(gids, i), NonZero(gids, j));
  }
}
