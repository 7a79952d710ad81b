/** Substring search in StringView: the Knuth-Morris-Pratt algorithm, forwards and backwards. */
module Kmp {
  import opened Ctype

  const NPOS := -1

  predicate Occurs(t: string, s: string, r: int) {
    0 <= r && r + |s| <= |t| && t[r..r + |s|] == s
  }

  /** The first k characters of s end t[..i]. */
  predicate Ends(t: string, i: nat, s: string, k: nat)
    requires i <= |t|
  {
    k <= |s| && k <= i && t[i - k..i] == s[..k]
  }

  /** k is the greatest number below limit with that property. */
  ghost predicate Longest(t: string, i: nat, s: string, k: nat, limit: nat)
    requires i <= |t|
  {
    k < limit && Ends(t, i, s, k) && forall m :: k < m < limit ==> !Ends(t, i, s, m)
  }

  /** k is the length of the longest proper border of s[..n]. */
  ghost predicate Border(s: string, n: nat, k: nat)
    requires n <= |s|
  {
    Longest(s, n, s, k, n)
  }

  lemma EndsSnoc(t: string, i: nat, s: string, k: nat)
    requires i < |t| && k < |s|
    ensures Ends(t, i + 1, s, k + 1) <==> Ends(t, i, s, k) && t[i] == s[k]
  {
    if k <= i {
      assert t[i + 1 - (k + 1)..i + 1] == t[i - k..i] + [t[i]];
      assert s[..k + 1] == s[..k] + [s[k]];
      var x, y := t[i - k..i], s[..k];
      assert (x + [t[i]])[..k] == x && (y + [s[k]])[..k] == y;
      assert (x + [t[i]])[k] == t[i] && (y + [s[k]])[k] == s[k];
    }
  }

  /** Shorter matches inside a match are its borders. */
  lemma EndsInside(t: string, i: nat, s: string, k: nat, m: nat)
    requires i <= |t| && Ends(t, i, s, k) && m <= k
    ensures Ends(t, i, s, m) <==> Ends(s, k, s, m)
  {
    var x := t[i - k..i];
    assert t[i - m..i] == x[k - m..];
    assert s[k - m..k] == s[..k][k - m..];
  }

  /** No match longer than k and below limit can be continued by c. */
  ghost predicate NoneLonger(t: string, i: nat, s: string, c: char, k: nat, limit: nat)
    requires i <= |t|
  {
    forall m :: k < m < limit && m < |s| && Ends(t, i, s, m) ==> s[m] != c
  }

  lemma Fall(t: string, i: nat, s: string, c: char, k: nat, b: nat, limit: nat)
    requires i <= |t| && Ends(t, i, s, k) && 0 < k < |s| && k < limit && NoneLonger(t, i, s, c, k, limit) && s[k] != c
    requires Border(s, k, b)
    ensures Ends(t, i, s, b) && NoneLonger(t, i, s, c, b, limit)
  {
    EndsInside(t, i, s, k, b);
    forall m | b < m < limit && m < |s| && Ends(t, i, s, m) ensures s[m] != c {
      if m < k {
        EndsInside(t, i, s, k, m);
      }
    }
  }

  lemma Advance(t: string, i: nat, s: string, k: nat, limit: nat)
    requires i < |t| && k < |s| && limit <= |s| && k < limit
    requires Ends(t, i, s, k) && NoneLonger(t, i, s, t[i], k, limit) && (k == 0 || s[k] == t[i])
    ensures Longest(t, i + 1, s, if s[k] == t[i] then k + 1 else 0, limit + 1)
  {
    var r := if s[k] == t[i] then k + 1 else 0;
    EndsSnoc(t, i, s, k);
    var next := i + 1;
    forall m: nat | r < m < limit + 1 ensures !Ends(t, next, s, m) {
      EndsSnoc(t, i, s, m - 1);
    }
  }

  lemma OccursEnds(t: string, s: string, e: nat)
    requires e <= |t|
    ensures Ends(t, e, s, |s|) <==> Occurs(t, s, e - |s|)
  {
    assert s[..|s|] == s;
  }

  /** The first n entries of the table: entry j is the border of s[..j + 1]. */
  ghost predicate Table(s: string, p: array<nat>, n: nat)
    requires n <= |s| == p.Length
    reads p
  {
    forall j {:trigger p[j]} :: 0 <= j < n ==> Border(s, j + 1, p[j])
  }

  /** The inner loop: shortens the match until c continues it or nothing is left. */
  method FallBack(ghost t: string, ghost i: nat, s: string, c: char, k0: nat, ghost limit: nat, p: array<nat>)
    returns (k: nat)
    requires i <= |t| && limit <= |s| == p.Length && Longest(t, i, s, k0, limit) && Table(s, p, k0)
    ensures k <= k0 && Ends(t, i, s, k) && NoneLonger(t, i, s, c, k, limit) && (k == 0 || s[k] == c)
  {
    hide Ends;
    k := k0;
    while k > 0 && c != s[k]
      invariant k <= k0 && Ends(t, i, s, k) && NoneLonger(t, i, s, c, k, limit)
      decreases k
    {
      assert Border(s, k, p[k - 1]);
      Fall(t, i, s, c, k, p[k - 1], limit);
      k := p[k - 1];
    }
  }

  method FillTable(s: string, p: array<nat>)
    requires s != [] && p.Length == |s|
    modifies p
    ensures Table(s, p, |s|)
  {
    hide Ends, Longest, NoneLonger;
    var k: nat := 0;
    p[0] := 0;
    NoBorder(s);
    var i := 1;
    while i < |s|
      invariant 1 <= i <= |s| && Border(s, i, k) && Table(s, p, i)
    {
      LongestBelow(s, i, s, k, i);
      k := FallBack(s, i, s, s[i], k, i, p);
      Advance(s, i, s, k, i);
      if s[i] == s[k] {
        k := k + 1;
      }
      p[i] := k;
      i := i + 1;
    }
  }

  lemma NoBorder(s: string)
    requires s != []
    ensures Border(s, 1, 0)
  {
    assert s[1..1] == s[..0];
  }

  lemma LongestBelow(t: string, i: nat, s: string, k: nat, limit: nat)
    requires i <= |t| && Longest(t, i, s, k, limit)
    ensures k < limit
  {
  }

  /** find(): the first position at which s occurs, or NPOS. */
  method Find(t: string, s: string) returns (r: int)
    ensures r != NPOS ==> Occurs(t, s, r) && forall j :: 0 <= j < r ==> !Occurs(t, s, j)
    ensures r == NPOS ==> forall j :: !Occurs(t, s, j)
  {
    if s == [] {
      assert Occurs(t, s, 0);
      return 0;
    }
    hide Ends, Longest, NoneLonger, Border, Unmatched;
    var p := new nat[|s|];
    FillTable(s, p);
    var k: nat := 0;
    NothingYet(t, s);
    for i := 0 to |t|
      invariant Longest(t, i, s, k, |s|) && Table(s, p, |s|)
      invariant Unmatched(t, s, i)
    {
      LongestBelow(t, i, s, k, |s|);
      k := FallBack(t, i, s, t[i], k, |s|, p);
      Advance(t, i, s, k, |s|);
      if t[i] == s[k] {
        k := k + 1;
        if k == |s| {
          r := i - |s| + 1;
          FoundHere(t, s, i);
          return;
        }
      }
      NotWhole(t, i + 1, s, k);
    }
    NoneBefore(t, s, |t|);
    r := NPOS;
  }

  /** No occurrence of s ends among the first n characters of t. */
  ghost predicate Unmatched(t: string, s: string, n: nat) {
    n <= |t| && forall e :: 0 <= e <= n ==> !Ends(t, e, s, |s|)
  }

  lemma FoundHere(t: string, s: string, i: nat)
    requires i < |t| && s != [] && Longest(t, i + 1, s, |s|, |s| + 1) && Unmatched(t, s, i)
    ensures Occurs(t, s, i + 1 - |s|) && forall j :: 0 <= j < i + 1 - |s| ==> !Occurs(t, s, j)
    ensures forall j :: j + |s| <= i ==> !Occurs(t, s, j)
  {
    NoneBefore(t, s, i);
    OccursEnds(t, s, i + 1);
  }

  /** A longest match that is not all of s. */
  lemma NotWhole(t: string, i: nat, s: string, k: nat)
    requires 0 < i <= |t| && k < |s| && Longest(t, i, s, k, |s| + 1) && Unmatched(t, s, i - 1)
    ensures Unmatched(t, s, i) && Longest(t, i, s, k, |s|)
  {
  }

  lemma NothingYet(t: string, s: string)
    requires s != []
    ensures Longest(t, 0, s, 0, |s|) && Unmatched(t, s, 0)
  {
  }

  lemma NoneBefore(t: string, s: string, n: nat)
    requires Unmatched(t, s, n)
    ensures forall j :: j + |s| <= n ==> !Occurs(t, s, j)
  {
    forall j | 0 <= j && j + |s| <= n ensures !Occurs(t, s, j) {
      OccursEnds(t, s, j + |s|);
    }
  }

  // ----- backwards

  lemma ReversedAt(s: string, i: nat)
    requires i < |s|
    ensures Reversed(s)[|s| - 1 - i] == s[i]
  {
  }

  lemma OccursReversed(t: string, s: string, r: nat)
    requires r + |s| <= |t|
    ensures Occurs(t, s, r) <==> Occurs(Reversed(t), Reversed(s), |t| - |s| - r)
  {
    var q, n := |t| - |s| - r, |s|;
    var x, y := t[r..r + n], Reversed(t)[q..q + n];
    forall i | 0 <= i < n ensures x[i] == y[n - 1 - i] && Reversed(s)[n - 1 - i] == s[i] {
      ReversedAt(t, r + i);
      ReversedAt(s, i);
      assert y[n - 1 - i] == Reversed(t)[q + (n - 1 - i)];
    }
    if x == s {
      forall i | 0 <= i < n ensures y[i] == Reversed(s)[i] {
        assert y[n - 1 - (n - 1 - i)] == x[n - 1 - i] == s[n - 1 - i];
      }
      assert y == Reversed(s);
    }
    if y == Reversed(s) {
      assert forall i :: 0 <= i < n ==> x[i] == s[i];
      assert x == s;
    }
  }

  /** The mirrored table from entry n on: entry j leads to the longest border of s[j..]. */
  ghost predicate MirroredTable(s: string, p: array<nat>, n: nat)
    requires n <= |s| == p.Length
    reads p
  {
    forall j {:trigger p[j]} :: n <= j < |s| ==> p[j] <= |s| - 1 && Border(Reversed(s), |s| - j, |s| - 1 - p[j])
  }

  method FallForward(ghost rt: string, ghost n: nat, s: string, c: char, k0: nat, ghost limit: nat, p: array<nat>)
    returns (k: nat)
    requires n <= |rt| && limit <= |s| == p.Length && k0 < |s| && Longest(rt, n, Reversed(s), |s| - 1 - k0, limit)
    requires MirroredTable(s, p, k0 + 1)
    ensures k0 <= k < |s| && Ends(rt, n, Reversed(s), |s| - 1 - k) && (k == |s| - 1 || s[k] == c)
    ensures NoneLonger(rt, n, Reversed(s), c, |s| - 1 - k, limit)
  {
    hide Ends;
    var last := |s| - 1;
    ghost var rs := Reversed(s);
    k := k0;
    while k < last && c != s[k]
      invariant k0 <= k <= last && Ends(rt, n, rs, last - k) && NoneLonger(rt, n, rs, c, last - k, limit)
      decreases last - k
    {
      assert Border(rs, last - k, last - p[k + 1]);
      ReversedAt(s, k);
      Fall(rt, n, rs, c, last - k, last - p[k + 1], limit);
      k := p[k + 1];
    }
  }

  method FillTableBackwards(s: string, p: array<nat>)
    requires s != [] && p.Length == |s|
    modifies p
    ensures MirroredTable(s, p, 0)
  {
    hide Ends, Longest, NoneLonger, Reversed;
    var last := |s| - 1;
    ghost var rs := Reversed(s);
    var k: nat := last;
    p[last] := last;
    NoBorder(rs);
    var i := last - 1;
    while i != NPOS
      invariant -1 <= i < last && k <= last && Border(rs, last - i, last - k) && MirroredTable(s, p, i + 1)
      decreases i + 1
    {
      LongestBelow(rs, last - i, rs, last - k, last - i);
      k := FallForward(rs, last - i, s, s[i], k, last - i, p);
      ReversedAt(s, i);
      ReversedAt(s, k);
      Advance(rs, last - i, rs, last - k, last - i);
      if s[i] == s[k] {
        k := k - 1;
      }
      p[i] := k;
      i := i - 1;
    }
  }

  /** r is the last position at which s occurs in t, or NPOS when there is none. */
  ghost predicate IsLast(t: string, s: string, r: int) {
    if r == NPOS then forall j :: !Occurs(t, s, j) else Occurs(t, s, r) && forall j :: j > r ==> !Occurs(t, s, j)
  }

  /** rfind(): the last position exactly when s or t leaves no choice: the empty string is found at 0, but
      its last occurrence is at the end of t. */
  method Rfind(t: string, s: string) returns (r: int)
    ensures IsLast(t, s, r) <==> s != [] || t == []
    ensures s == [] ==> r == 0
  {
    if s == [] {
      assert Occurs(t, s, |t|) && Occurs(t, s, 0);
      return 0;
    }
    hide Ends, Longest, NoneLonger, Border, Occurs, Reversed, MirroredTable, Unmatched;
    var p := new nat[|s|];
    FillTableBackwards(s, p);
    var last := |s| - 1;
    ghost var rt, rs, n: nat := Reversed(t), Reversed(s), 0;
    var k: nat := last;
    NothingYet(rt, rs);
    var i := |t| - 1;
    while i != NPOS
      invariant -1 <= i < |t| && n == |t| - 1 - i && k <= last
      invariant Longest(rt, n, rs, last - k, |s|) && MirroredTable(s, p, 0)
      invariant Unmatched(rt, rs, n)
      decreases i + 1
    {
      var found;
      found, k := StepBack(t, i, s, k, p);
      if found {
        FoundHere(rt, rs, n);
        BackToFront(t, s, i);
        return i;
      }
      NotWhole(rt, n + 1, rs, last - k);
      i := i - 1;
      n := n + 1;
    }
    NoneBefore(rt, rs, |t|);
    BackToFront(t, s, -1);
    r := NPOS;
  }

  /** One turn of the search: reads t[i]; found is k becoming npos. */
  method StepBack(t: string, i: nat, s: string, k0: nat, p: array<nat>) returns (found: bool, k: nat)
    requires i < |t| && k0 < |s| == p.Length && MirroredTable(s, p, 0)
    requires Longest(Reversed(t), |t| - 1 - i, Reversed(s), |s| - 1 - k0, |s|)
    ensures k < |s|
    ensures Longest(Reversed(t), |t| - i, Reversed(s), if found then |s| else |s| - 1 - k, |s| + 1)
  {
    hide Ends, Longest, NoneLonger, Border, Reversed;
    ghost var n, last := |t| - 1 - i, |s| - 1;
    LongestBelow(Reversed(t), n, Reversed(s), last - k0, |s|);
    k := FallForward(Reversed(t), n, s, t[i], k0, |s|, p);
    ReversedAt(t, i);
    ReversedAt(s, k);
    Advance(Reversed(t), n, Reversed(s), last - k, |s|);
    found := false;
    if t[i] == s[k] {
      if k == 0 {
        found := true;
      } else {
        k := k - 1;
      }
    } else {
      assert k == |s| - 1;
    }
  }

  /** What holds of the reversed strings up to a point, said of the strings themselves. */
  lemma BackToFront(t: string, s: string, i: int)
    requires -1 <= i < |t| && s != []
    requires forall j :: j + |s| <= |t| - 1 - i ==> !Occurs(Reversed(t), Reversed(s), j)
    requires i >= 0 ==> Occurs(Reversed(t), Reversed(s), |t| - i - |s|)
    ensures forall j :: j > i ==> !Occurs(t, s, j)
    ensures i == -1 ==> forall j :: !Occurs(t, s, j)
    ensures i >= 0 ==> Occurs(t, s, i)
  {
    forall j | j > i ensures !Occurs(t, s, j) {
      if 0 <= j && j + |s| <= |t| {
        OccursReversed(t, s, j);
      }
    }
    if i >= 0 {
      OccursReversed(t, s, i);
    }
  }
}
