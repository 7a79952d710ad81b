/**
  Judging a solution on test groups. With a partial-report callback the first round skips the rest of a
  group as soon as its score is settled at zero; a second round judges what was skipped. Doubles are
  modelled as reals.
 */
module ProcessTests {
  import opened Unsigned
  import opened Wrappers

  datatype Status = OK | WA | TLE | MLE | RTE | CHECKER_ERROR | SKIPPED

  /** A test and what judging it gives: a status, the runtime and the checker's ratio, which is never
      negative. */
  datatype Test = Test(name: string, timeLimit: real, status: Status, runtime: real, ratio: real)

  /** Statuses with which the solution itself fails, whatever the checker says. */
  predicate Fatal(s: Status) { s == TLE || s == MLE || s == RTE }

  predicate TestOk(t: Test) { t.timeLimit > 0.0 && t.ratio >= 0.0 && t.status != SKIPPED }

  /** gid is the group id in the name of the first test. */
  datatype Group = Group(gid: string, score: int, tests: seq<Test>)

  predicate TestsOk(tests: seq<Test>) { forall i :: 0 <= i < |tests| ==> TestOk(tests[i]) }

  predicate GroupOk(g: Group) { g.tests != [] && TestsOk(g.tests) }

  datatype TestReport = TestReport(name: string, status: Status, runtime: real, timeLimit: real)

  datatype GroupReport = GroupReport(tests: seq<TestReport>, score: int, maxScore: int)

  function Min(a: real, b: real): real { if a <= b then a else b }

  /** round(): half away from zero. */
  function Round(x: real): int {
    if x >= 0.0 then (x + 0.5).Floor else -((0.5 - x).Floor)
  }

  function Judged(t: Test): TestReport { TestReport(t.name, t.status, t.runtime, t.timeLimit) }

  function Skipped(t: Test): TestReport { TestReport(t.name, SKIPPED, 0.0, t.timeLimit) }

  /** What judging t does to the ratio of its group, cut being score_cut_lambda. */
  function NextRatio(ratio: real, t: Test, cut: real): real
    requires t.timeLimit > 0.0
  {
    var r := if Fatal(t.status) then 0.0 else Min(ratio, t.ratio);
    if cut < 1.0 then
      var s := Min(r, (t.runtime / t.timeLimit - 1.0) / (cut - 1.0));
      if s < 0.0 then 0.0 else s
    else r
  }

  /** The ratio of a group of which all of tests were judged. */
  function RatioOf(tests: seq<Test>, cut: real): real
    requires TestsOk(tests)
  {
    if tests == [] then 1.0
    else
      assert TestOk(tests[|tests| - 1]);
      NextRatio(RatioOf(tests[..|tests| - 1], cut), tests[|tests| - 1], cut)
  }

  /** The points a ratio is worth. */
  function Points(score: int, ratio: real): int { Round(Scaled(score, ratio)) }

  function Scaled(score: int, ratio: real): real { score as real * ratio }

  /** The report of judging everything. */
  function FullGroup(g: Group, cut: real): GroupReport
    requires GroupOk(g)
  {
    GroupReport(seq(|g.tests|, i requires 0 <= i < |g.tests| => Judged(g.tests[i])),
                Points(g.score, RatioOf(g.tests, cut)), g.score)
  }

  predicate Selected(g: Group, final: bool) { (g.gid != "0") == final }

  // ----- ratios and scores

  lemma NextRatioShrinks(ratio: real, t: Test, cut: real)
    requires TestOk(t) && 0.0 <= ratio && 0.0 <= cut <= 1.0
    ensures 0.0 <= NextRatio(ratio, t, cut) <= ratio
  {
  }

  lemma {:induction false} RatioInRange(tests: seq<Test>, cut: real)
    requires TestsOk(tests) && 0.0 <= cut <= 1.0
    ensures 0.0 <= RatioOf(tests, cut) <= 1.0
  {
    if tests != [] {
      assert TestOk(tests[|tests| - 1]);
      RatioInRange(tests[..|tests| - 1], cut);
      NextRatioShrinks(RatioOf(tests[..|tests| - 1], cut), tests[|tests| - 1], cut);
    }
  }

  /** The part of its group's score that a test leaves: nothing after a fatal status, otherwise the checker's
      ratio, and with a score cut no more than the unused share of the time limit over that of the cut. */
  function Worth(t: Test, cut: real): (w: real)
    requires TestOk(t) && cut <= 1.0
    ensures w >= 0.0
  {
    if Fatal(t.status) then 0.0
    else if cut == 1.0 then t.ratio
    else
      var slack := (1.0 - t.runtime / t.timeLimit) / (1.0 - cut);
      if slack < 0.0 then 0.0 else Min(t.ratio, slack)
  }

  lemma NextIsLeast(ratio: real, t: Test, cut: real)
    requires TestOk(t) && 0.0 <= ratio && 0.0 <= cut <= 1.0
    ensures NextRatio(ratio, t, cut) == Min(ratio, Worth(t, cut))
  {
    if cut < 1.0 {
      SlackIs(t.runtime / t.timeLimit, cut);
    }
  }

  lemma SlackIs(x: real, cut: real)
    requires cut < 1.0
    ensures (x - 1.0) / (cut - 1.0) == (1.0 - x) / (1.0 - cut)
  {
    var q := (1.0 - x) / (1.0 - cut);
    assert q * (1.0 - cut) == 1.0 - x;
    QuotientIs(x - 1.0, cut - 1.0, q);
  }

  lemma QuotientIs(a: real, d: real, q: real)
    requires d != 0.0 && q * d == a
    ensures a / d == q
  {
    assert (a / d) * d == a;
    assert (a / d - q) * d == 0.0;
  }

  /** The ratio of a group is the least of what its tests leave, and 1 for a group whose tests leave all. */
  lemma {:induction false} RatioIsLeast(tests: seq<Test>, cut: real)
    requires TestsOk(tests) && 0.0 <= cut <= 1.0
    ensures 0.0 <= RatioOf(tests, cut) <= 1.0
    ensures forall i :: 0 <= i < |tests| ==> TestOk(tests[i]) && RatioOf(tests, cut) <= Worth(tests[i], cut)
    ensures RatioOf(tests, cut) == 1.0 || exists i :: 0 <= i < |tests| && RatioOf(tests, cut) == Worth(tests[i], cut)
  {
    if tests != [] {
      hide NextRatio, Worth;
      var n := |tests| - 1;
      var before, t := tests[..n], tests[n];
      assert TestOk(t);
      RatioIsLeast(before, cut);
      RatioInRange(tests, cut);
      NextIsLeast(RatioOf(before, cut), t, cut);
      forall i | 0 <= i < |tests| ensures TestOk(tests[i]) && RatioOf(tests, cut) <= Worth(tests[i], cut) {
        assert i < n ==> before[i] == tests[i];
      }
      if RatioOf(tests, cut) == Worth(t, cut) {
        assert RatioOf(tests, cut) == Worth(tests[n], cut);
      } else if RatioOf(before, cut) != 1.0 {
        var i :| 0 <= i < n && RatioOf(before, cut) == Worth(before[i], cut);
        assert RatioOf(tests, cut) == Worth(tests[i], cut);
      }
    }
  }

  /** One fatal status costs the group its whole score. */
  lemma FatalVoidsGroup(g: Group, cut: real, i: nat)
    requires GroupOk(g) && 0.0 <= cut <= 1.0 && i < |g.tests| && Fatal(g.tests[i].status)
    ensures RatioOf(g.tests, cut) == 0.0 && FullGroup(g, cut).score == 0
  {
    hide RatioOf;
    RatioIsLeast(g.tests, cut);
    assert Worth(g.tests[i], cut) == 0.0;
    assert g.score as real * 0.0 == 0.0;
    RoundOfInt(0);
  }

  lemma ScaledShrinks(score: int, r: real, s: real)
    requires 0.0 <= r <= s
    ensures score >= 0 ==> 0.0 <= Scaled(score, r) <= Scaled(score, s)
    ensures score < 0 ==> Scaled(score, s) <= Scaled(score, r) <= 0.0
  {
    var a := score as real;
    if score >= 0 {
      assert a * (s - r) >= 0.0 && a * r >= 0.0;
    } else {
      assert (-a) * (s - r) >= 0.0 && (-a) * r >= 0.0;
    }
  }

  lemma RoundMonotone(x: real, y: real)
    requires x <= y
    ensures Round(x) <= Round(y)
  {
    if x >= 0.0 {
      assert (x + 0.5).Floor <= (y + 0.5).Floor;
    } else if y < 0.0 {
      assert (0.5 - y).Floor <= (0.5 - x).Floor;
    } else {
      assert (0.5 - x).Floor >= 0 && (y + 0.5).Floor >= 0;
    }
  }

  /** Rounding goes to the nearest integer, halves away from zero. */
  lemma RoundIsNearest(x: real, n: int)
    ensures -0.5 <= Round(x) as real - x <= 0.5
    ensures Round(-x) == -Round(x)
    ensures n >= 0 ==> Round(n as real + 0.5) == n + 1
  {
  }

  lemma RoundOfInt(n: int)
    ensures Round(n as real) == n && Round(0.0) == 0
  {
  }

  /** A smaller ratio is worth no more, and no ratio from 0 to 1 is worth more than the full score. */
  lemma PointsShrink(score: int, r: real, s: real)
    requires 0.0 <= r <= s
    ensures score >= 0 ==> 0 <= Points(score, r) <= Points(score, s)
    ensures score < 0 ==> Points(score, s) <= Points(score, r) <= 0
  {
    hide Scaled, Round;
    var x, y := Scaled(score, r), Scaled(score, s);
    ScaledShrinks(score, r, s);
    RoundOfInt(0);
    if score >= 0 {
      RoundMonotone(0.0, x);
      RoundMonotone(x, y);
    } else {
      RoundMonotone(y, x);
      RoundMonotone(x, 0.0);
    }
  }

  lemma FullPoints(score: int)
    ensures Points(score, 1.0) == score
  {
    assert score as real * 1.0 == score as real;
    RoundOfInt(score);
  }

  /** A group score lies between 0 and the group's maximum, which may be negative. */
  lemma ScoreInRange(g: Group, cut: real)
    requires GroupOk(g) && 0.0 <= cut <= 1.0
    ensures var s := FullGroup(g, cut).score; if g.score >= 0 then 0 <= s <= g.score else g.score <= s <= 0
  {
    hide Points;
    RatioInRange(g.tests, cut);
    PointsShrink(g.score, RatioOf(g.tests, cut), 1.0);
    FullPoints(g.score);
  }

  // ----- the two rounds

  /** rg reports on every test of g in order, judged or skipped. */
  predicate Reports(g: Group, rg: GroupReport) {
    && |rg.tests| == |g.tests|
    && forall i :: 0 <= i < |g.tests| ==> rg.tests[i] == Judged(g.tests[i]) || rg.tests[i] == Skipped(g.tests[i])
  }

  predicate NothingSkipped(g: Group, rg: GroupReport) {
    |rg.tests| == |g.tests| && forall i :: 0 <= i < |g.tests| ==> rg.tests[i] == Judged(g.tests[i])
  }

  /** Once test i is judged, the group is as good as worthless and scores no points. */
  predicate Settled(g: Group, cut: real, i: nat)
    requires GroupOk(g) && i < |g.tests|
  {
    var r := RatioOf(g.tests[..i + 1], cut);
    r < 0.000001 && Points(g.score, r) == 0
  }

  /** The first test from i on at which the group is settled, or the number of tests. */
  function FirstSettled(g: Group, cut: real, i: nat): (r: nat)
    requires GroupOk(g) && i <= |g.tests|
    ensures i <= r <= |g.tests|
    decreases |g.tests| - i
  {
    if i == |g.tests| || Settled(g, cut, i) then i else FirstSettled(g, cut, i + 1)
  }

  /** Some test comes after the one that settles the group. */
  predicate LeavesOut(g: Group, cut: real)
    requires GroupOk(g)
  {
    FirstSettled(g, cut, 0) + 1 < |g.tests|
  }

  /** The report of the first round when tests may be skipped: those after the settling one are. */
  function SkippingGroup(g: Group, cut: real): GroupReport
    requires GroupOk(g)
  {
    var last := FirstSettled(g, cut, 0);
    FullGroup(g, cut).(tests := seq(|g.tests|, i requires 0 <= i < |g.tests| =>
                                      if i > last then Skipped(g.tests[i]) else Judged(g.tests[i])))
  }

  function FirstReport(g: Group, cut: real, canSkip: bool): GroupReport
    requires GroupOk(g)
  {
    if canSkip then SkippingGroup(g, cut) else FullGroup(g, cut)
  }

  lemma FirstReportIs(g: Group, cut: real, canSkip: bool, rg: GroupReport)
    requires GroupOk(g) && |rg.tests| == |g.tests| && rg.score == FullGroup(g, cut).score && rg.maxScore == g.score
    requires forall k :: 0 <= k < |g.tests| ==>
               rg.tests[k] == if canSkip && k > FirstSettled(g, cut, 0) then Skipped(g.tests[k]) else Judged(g.tests[k])
    ensures rg == FirstReport(g, cut, canSkip)
  {
    hide RatioOf, Points, FirstSettled;
    assert rg.tests == FirstReport(g, cut, canSkip).tests;
  }

  lemma SettledStep(g: Group, cut: real, i: nat)
    requires GroupOk(g) && i < |g.tests|
    ensures FirstSettled(g, cut, i) == if Settled(g, cut, i) then i else FirstSettled(g, cut, i + 1)
  {
    hide Settled;
  }

  /** First round on one group: judges as little as the score needs. judged counts the judged tests. */
  method JudgeGroup(g: Group, cut: real, canSkip: bool) returns (rg: GroupReport, skipped: bool, ghost judged: nat)
    requires GroupOk(g) && 0.0 <= cut <= 1.0
    ensures Reports(g, rg) && rg.score == FullGroup(g, cut).score && rg.maxScore == g.score
    ensures rg == FirstReport(g, cut, canSkip)
    ensures skipped <==> canSkip && LeavesOut(g, cut)
    ensures !skipped ==> NothingSkipped(g, rg)
    ensures judged + Unjudged(rg.tests) == |g.tests|
  {
    hide Points, NextRatio, Unjudged, RatioOf, FirstSettled, FirstReport;
    ghost var last := FirstSettled(g, cut, 0);
    RatioOfNothing(cut);
    UnjudgedNothing();
    var ratio := 1.0;
    var skip := false;
    var tests: seq<TestReport> := [];
    skipped := false;
    judged := 0;
    for i := 0 to |g.tests|
      invariant |tests| == i
      invariant forall k :: 0 <= k < i ==> tests[k] == if canSkip && k > last then Skipped(g.tests[k]) else Judged(g.tests[k])
      invariant if skip then canSkip && last < i else canSkip ==> last == FirstSettled(g, cut, i)
      invariant skipped <==> canSkip && last + 1 < i
      invariant !skip ==> ratio == RatioOf(g.tests[..i], cut)
      invariant skip ==> ratio >= RatioOf(g.tests[..i], cut) && Points(g.score, ratio) == 0
      invariant judged + Unjudged(tests) == i
    {
      var t := g.tests[i];
      assert TestOk(t);
      RatioOfSnoc(g.tests, i, cut);
      SettledStep(g, cut, i);
      RatioInRange(g.tests[..i], cut);
      NextRatioShrinks(RatioOf(g.tests[..i], cut), t, cut);
      if skip {
        skipped := true;
        UnjudgedSnoc(tests, Skipped(t));
        tests := tests + [Skipped(t)];
      } else {
        UnjudgedSnoc(tests, Judged(t));
        tests := tests + [Judged(t)];
        judged := judged + 1;
        ratio := NextRatio(ratio, t, cut);
        if ratio < 0.000001 && Points(g.score, ratio) == 0 {
          skip := canSkip;
        }
      }
    }
    assert g.tests[..|g.tests|] == g.tests;
    RatioInRange(g.tests, cut);
    PointsShrink(g.score, RatioOf(g.tests, cut), ratio);
    rg := GroupReport(tests, Points(g.score, ratio), g.score);
    FirstReportIs(g, cut, canSkip, rg);
  }

  lemma RatioOfNothing(cut: real)
    ensures RatioOf([], cut) == 1.0
  {
  }

  lemma RatioOfSnoc(tests: seq<Test>, i: nat, cut: real)
    requires TestsOk(tests) && i < |tests|
    ensures RatioOf(tests[..i + 1], cut) == NextRatio(RatioOf(tests[..i], cut), tests[i], cut)
  {
    assert TestOk(tests[i]);
    assert tests[..i + 1][..i] == tests[..i];
  }

  lemma UnjudgedNothing()
    ensures Unjudged([]) == 0
  {
  }

  function Unjudged(tests: seq<TestReport>): nat {
    if tests == [] then 0
    else Unjudged(tests[..|tests| - 1]) + (if tests[|tests| - 1].status == SKIPPED then 1 else 0)
  }

  lemma UnjudgedSnoc(tests: seq<TestReport>, t: TestReport)
    ensures Unjudged(tests + [t]) == Unjudged(tests) + (if t.status == SKIPPED then 1 else 0)
  {
    assert (tests + [t])[..|tests|] == tests;
  }

  lemma NeverJudgedSkipped(g: Group, i: nat)
    requires GroupOk(g) && i < |g.tests|
    ensures Judged(g.tests[i]).status != SKIPPED
  {
    assert TestOk(g.tests[i]);
  }

  /** Second round on one group: judges the tests that were skipped, and only those. */
  method JudgeSkipped(g: Group, rg: GroupReport) returns (full: GroupReport, ghost judged: nat)
    requires GroupOk(g) && Reports(g, rg)
    ensures NothingSkipped(g, full) && full.score == rg.score && full.maxScore == rg.maxScore
    ensures judged == Unjudged(rg.tests)
  {
    hide Unjudged, GroupOk;
    UnjudgedNothing();
    var tests := rg.tests;
    judged := 0;
    for i := 0 to |g.tests|
      invariant |tests| == |g.tests|
      invariant forall k :: 0 <= k < i ==> tests[k] == Judged(g.tests[k])
      invariant forall k :: i <= k < |tests| ==> tests[k] == rg.tests[k]
      invariant judged == Unjudged(rg.tests[..i])
    {
      assert rg.tests[..i + 1] == rg.tests[..i] + [rg.tests[i]];
      UnjudgedSnoc(rg.tests[..i], rg.tests[i]);
      NeverJudgedSkipped(g, i);
      if tests[i].status == SKIPPED {
        tests := tests[i := Judged(g.tests[i])];
        judged := judged + 1;
      }
    }
    assert rg.tests[..|g.tests|] == rg.tests;
    full := rg.(tests := tests);
  }

  // ----- all groups

  predicate GroupsOk(groups: seq<Group>) { forall i :: 0 <= i < |groups| ==> GroupOk(groups[i]) }

  /** The groups that are selected, in order. */
  function Chosen(groups: seq<Group>, final: bool): (c: seq<Group>)
    ensures GroupsOk(groups) ==> GroupsOk(c)
  {
    if groups == [] then []
    else
      var c := Chosen(groups[..|groups| - 1], final);
      if Selected(groups[|groups| - 1], final) then c + [groups[|groups| - 1]] else c
  }

  lemma ChosenSnoc(groups: seq<Group>, i: nat, final: bool)
    requires i < |groups|
    ensures var c := Chosen(groups[..i], final);
            Chosen(groups[..i + 1], final) == if Selected(groups[i], final) then c + [groups[i]] else c
  {
    assert groups[..i + 1][..i] == groups[..i];
  }

  /** The initial report and the final one share the groups between them: group "0" goes to the initial one. */
  lemma {:induction false} ChosenShare(groups: seq<Group>)
    ensures multiset(Chosen(groups, true)) + multiset(Chosen(groups, false)) == multiset(groups)
    ensures forall g :: g in Chosen(groups, true) ==> g.gid != "0"
    ensures forall g :: g in Chosen(groups, false) ==> g.gid == "0"
  {
    if groups != [] {
      var n := |groups| - 1;
      ChosenShare(groups[..n]);
      assert groups == groups[..n] + [groups[n]];
    }
  }

  lemma ChosenPrefix(groups: seq<Group>, i: nat, final: bool)
    requires i <= |groups|
    ensures Chosen(groups[..i], final) <= Chosen(groups, final)
    decreases |groups| - i
  {
    if i < |groups| {
      ChosenSnoc(groups, i, final);
      ChosenPrefix(groups, i + 1, final);
    } else {
      assert groups[..i] == groups;
    }
  }

  function TestCount(groups: seq<Group>): nat {
    if groups == [] then 0 else TestCount(groups[..|groups| - 1]) + |groups[|groups| - 1].tests|
  }

  function TotalScore(report: seq<GroupReport>): int {
    if report == [] then 0 else TotalScore(report[..|report| - 1]) + report[|report| - 1].score
  }

  function TotalMax(report: seq<GroupReport>): int {
    if report == [] then 0
    else TotalMax(report[..|report| - 1]) + (if report[|report| - 1].maxScore > 0 then report[|report| - 1].maxScore else 0)
  }

  function AllUnjudged(report: seq<GroupReport>): nat {
    if report == [] then 0 else AllUnjudged(report[..|report| - 1]) + Unjudged(report[|report| - 1].tests)
  }

  lemma SumsSnoc(report: seq<GroupReport>, r: GroupReport, groups: seq<Group>, g: Group)
    ensures TotalScore(report + [r]) == TotalScore(report) + r.score
    ensures TotalMax(report + [r]) == TotalMax(report) + (if r.maxScore > 0 then r.maxScore else 0)
    ensures AllUnjudged(report + [r]) == AllUnjudged(report) + Unjudged(r.tests)
    ensures TestCount(groups + [g]) == TestCount(groups) + |g.tests|
  {
    assert (report + [r])[..|report|] == report;
    assert (groups + [g])[..|groups|] == groups;
  }

  lemma SumsOfNothing()
    ensures TotalScore([]) == TotalMax([]) == AllUnjudged([]) == TestCount([]) == 0
  {
  }

  lemma ChosenNothing(final: bool)
    ensures Chosen([], final) == []
  {
  }

  /** rg has the final scores of g, with some tests possibly still skipped. */
  predicate Scored(g: Group, rg: GroupReport, cut: real)
    requires GroupOk(g)
  {
    Reports(g, rg) && rg.score == FullGroup(g, cut).score && rg.maxScore == g.score
  }

  lemma FullGroupIs(g: Group, rg: GroupReport, cut: real)
    requires GroupOk(g) && NothingSkipped(g, rg)
    requires rg.score == FullGroup(g, cut).score && rg.maxScore == g.score
    ensures rg == FullGroup(g, cut)
  {
    assert rg.tests == FullGroup(g, cut).tests;
  }

  ghost predicate AllScored(groups: seq<Group>, report: seq<GroupReport>, cut: real) {
    GroupsOk(groups) && |report| == |groups| && forall i :: 0 <= i < |groups| ==> Scored(groups[i], report[i], cut)
  }

  /** A full report shows every test under its own name, with its own status, runtime and limit. */
  lemma ReportShows(g: Group, cut: real, i: nat)
    requires GroupOk(g) && i < |g.tests|
    ensures var t, shown := g.tests[i], FullGroup(g, cut).tests[i];
            shown.name == t.name && shown.status == t.status && shown.runtime == t.runtime && shown.timeLimit == t.timeLimit
  {
  }

  /** The whole score is at most the maximum, to which groups with a negative one do not count. */
  lemma {:induction false} TotalsInRange(groups: seq<Group>, report: seq<GroupReport>, cut: real)
    requires AllScored(groups, report, cut) && 0.0 <= cut <= 1.0
    ensures TotalScore(report) <= TotalMax(report) && 0 <= TotalMax(report)
    decreases |report|
  {
    if report != [] {
      var n := |report| - 1;
      assert AllScored(groups[..n], report[..n], cut);
      TotalsInRange(groups[..n], report[..n], cut);
      ScoreInRange(groups[n], cut);
    }
  }

  ghost predicate AllFirst(groups: seq<Group>, report: seq<GroupReport>, cut: real, canSkip: bool) {
    && GroupsOk(groups) && |report| == |groups|
    && forall i :: 0 <= i < |groups| ==> report[i] == FirstReport(groups[i], cut, canSkip)
  }

  ghost predicate SomeLeftOut(groups: seq<Group>, cut: real)
    requires GroupsOk(groups)
  {
    exists i :: 0 <= i < |groups| && LeavesOut(groups[i], cut)
  }

  lemma NoneLeftOut(cut: real)
    ensures !SomeLeftOut([], cut)
  {
  }

  lemma LeftOutSnoc(groups: seq<Group>, g: Group, cut: real)
    requires GroupsOk(groups) && GroupOk(g)
    ensures GroupsOk(groups + [g]) && (SomeLeftOut(groups + [g], cut) <==> SomeLeftOut(groups, cut) || LeavesOut(g, cut))
  {
    hide LeavesOut, GroupOk;
    var all := groups + [g];
    assert all[|groups|] == g && forall i :: 0 <= i < |groups| ==> all[i] == groups[i];
  }

  /** First round: scores every selected group; skipped tells whether some test was left out. */
  method FirstRound(groups: seq<Group>, final: bool, cut: real, canSkip: bool)
    returns (report: seq<GroupReport>, skipped: bool, total: int, maxScore: int, ghost judged: nat)
    requires GroupsOk(groups) && 0.0 <= cut <= 1.0
    ensures AllScored(Chosen(groups, final), report, cut)
    ensures !skipped ==> forall i :: 0 <= i < |report| ==> NothingSkipped(Chosen(groups, final)[i], report[i])
    ensures AllFirst(Chosen(groups, final), report, cut, canSkip)
    ensures skipped <==> canSkip && SomeLeftOut(Chosen(groups, final), cut)
    ensures total == Unsigned64(TotalScore(report)) && maxScore == Unsigned64(TotalMax(report))
    ensures judged + AllUnjudged(report) == TestCount(Chosen(groups, final))
  {
    hide FullGroup, GroupOk, Reports, NothingSkipped, Unsigned64, TestCount, AllUnjudged, TotalScore, TotalMax, Unjudged, Chosen,
         FirstReport, LeavesOut, SomeLeftOut;
    SumsOfNothing();
    ChosenNothing(final);
    NoneLeftOut(cut);
    report, skipped, total, maxScore, judged := [], false, 0, 0, 0;
    UnsignedSmall(0);
    for gi := 0 to |groups|
      invariant AllScored(Chosen(groups[..gi], final), report, cut)
      invariant !skipped ==> forall i :: 0 <= i < |report| ==> NothingSkipped(Chosen(groups[..gi], final)[i], report[i])
      invariant AllFirst(Chosen(groups[..gi], final), report, cut, canSkip)
      invariant skipped <==> canSkip && SomeLeftOut(Chosen(groups[..gi], final), cut)
      invariant total == Unsigned64(TotalScore(report)) && maxScore == Unsigned64(TotalMax(report))
      invariant judged + AllUnjudged(report) == TestCount(Chosen(groups[..gi], final))
    {
      var group := groups[gi];
      ChosenSnoc(groups, gi, final);
      if Selected(group, final) {
        var rg, left;
        ghost var n: nat;
        rg, left, n := JudgeGroup(group, cut, canSkip);
        LeftOutSnoc(Chosen(groups[..gi], final), group, cut);
        SumsSnoc(report, rg, Chosen(groups[..gi], final), group);
        UnsignedAdd(TotalScore(report), rg.score);
        UnsignedAdd(TotalMax(report), rg.maxScore);
        report := report + [rg];
        skipped := skipped || left;
        judged := judged + n;
        total := Unsigned64(total + rg.score);
        if rg.maxScore > 0 {
          maxScore := Unsigned64(maxScore + rg.maxScore);
        }
      }
    }
    assert groups[..|groups|] == groups;
  }

  /** Second round: judges exactly the tests that were left out. */
  method SecondRound(groups: seq<Group>, final: bool, cut: real, first: seq<GroupReport>)
    returns (report: seq<GroupReport>, ghost judged: nat)
    requires GroupsOk(groups) && AllScored(Chosen(groups, final), first, cut)
    ensures |report| == |first| && forall i :: 0 <= i < |report| ==> report[i] == FullGroup(Chosen(groups, final)[i], cut)
    ensures judged == AllUnjudged(first)
  {
    hide FullGroup, GroupOk, NothingSkipped, Reports, TestCount, AllUnjudged, Chosen;
    SumsOfNothing();
    ChosenNothing(final);
    report := first;
    judged := 0;
    var rgi := 0;
    ghost var chosen := Chosen(groups, final);
    for gi := 0 to |groups|
      invariant rgi == |Chosen(groups[..gi], final)| <= |report| == |first|
      invariant forall i :: 0 <= i < rgi ==> report[i] == FullGroup(chosen[i], cut)
      invariant forall i :: rgi <= i < |report| ==> report[i] == first[i]
      invariant judged == AllUnjudged(first[..rgi])
    {
      var group := groups[gi];
      ChosenSnoc(groups, gi, final);
      ChosenPrefix(groups, gi + 1, final);
      if Selected(group, final) {
        assert chosen[rgi] == group;
        var rg;
        ghost var n: nat;
        rg, n := JudgeSkipped(group, report[rgi]);
        FullGroupIs(group, rg, cut);
        assert first[..rgi + 1] == first[..rgi] + [first[rgi]];
        SumsSnoc(first[..rgi], first[rgi], [], group);
        report := report[rgi := rg];
        judged := judged + n;
        rgi := rgi + 1;
      }
    }
    assert groups[..|groups|] == groups;
    assert first[..rgi] == first;
  }

  /** Whether or not tests may be skipped, the final report is that of judging everything, in order and
      with nothing skipped, and each test of a selected group is judged exactly once. There is a partial report
      exactly when there is a callback and some selected group has a test after the one that settles it; it
      shows exactly those tests as skipped, and already the final scores. */
  method ProcessTests(groups: seq<Group>, final: bool, cut: real, hasCallback: bool)
    returns (report: seq<GroupReport>, partial: Option<seq<GroupReport>>, total: int, maxScore: int, ghost judged: nat)
    requires GroupsOk(groups) && 0.0 <= cut <= 1.0
    ensures |report| == |Chosen(groups, final)|
    ensures forall i :: 0 <= i < |report| ==> report[i] == FullGroup(Chosen(groups, final)[i], cut)
    ensures partial.Some? <==> hasCallback && SomeLeftOut(Chosen(groups, final), cut)
    ensures partial.Some? ==> AllFirst(Chosen(groups, final), partial.value, cut, true)
    ensures partial.Some? ==> forall i :: 0 <= i < |report| ==> partial.value[i].score == report[i].score
    ensures total == Unsigned64(TotalScore(report)) && maxScore == Unsigned64(TotalMax(report))
    ensures judged == TestCount(Chosen(groups, final))
  {
    hide FullGroup, GroupOk, NothingSkipped, Unsigned64, FirstReport, SomeLeftOut;
    ghost var chosen := Chosen(groups, final);
    var skipped;
    report, skipped, total, maxScore, judged := FirstRound(groups, final, cut, hasCallback);
    partial := None;
    if skipped {
      partial := Some(report);
      ghost var more: nat;
      ghost var first := report;
      report, more := SecondRound(groups, final, cut, report);
      judged := judged + more;
      SameTotals(chosen, first, report, cut);
    } else {
      forall i | 0 <= i < |report| ensures report[i] == FullGroup(chosen[i], cut) {
        FullGroupIs(chosen[i], report[i], cut);
      }
      NoneUnjudged(chosen, report, cut);
    }
  }

  lemma {:induction false} SameTotals(groups: seq<Group>, first: seq<GroupReport>, report: seq<GroupReport>, cut: real)
    requires AllScored(groups, first, cut) && |report| == |first|
    requires forall i :: 0 <= i < |report| ==> report[i] == FullGroup(groups[i], cut)
    ensures TotalScore(report) == TotalScore(first) && TotalMax(report) == TotalMax(first)
    decreases groups
  {
    if groups != [] {
      var n := |groups| - 1;
      assert Scored(groups[n], first[n], cut);
      SameTotals(groups[..n], first[..n], report[..n], cut);
    }
  }

  lemma {:induction false} NoneUnjudged(groups: seq<Group>, report: seq<GroupReport>, cut: real)
    requires GroupsOk(groups) && |report| == |groups|
    requires forall i :: 0 <= i < |report| ==> report[i] == FullGroup(groups[i], cut)
    ensures AllUnjudged(report) == 0
    decreases groups
  {
    if groups != [] {
      var n := |groups| - 1;
      NoneUnjudged(groups[..n], report[..n], cut);
      assert forall k :: 0 <= k < |groups[n].tests| ==> TestOk(groups[n].tests[k]);
      UnjudgedZero(report[n].tests);
    }
  }

  lemma {:induction false} UnjudgedZero(tests: seq<TestReport>)
    requires forall k :: 0 <= k < |tests| ==> tests[k].status != SKIPPED
    ensures Unjudged(tests) == 0
  {
    if tests != [] {
      UnjudgedZero(tests[..|tests| - 1]);
    }
  }
}
