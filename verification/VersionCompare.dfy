/**
  StrVersionCompare: an order on strings in which runs of digits compare as numbers. It is shown to be
  the lexicographic order on token sequences, a token being a maximal run of digits or any other single
  character, and hence a strict total order.
 */
module VersionCompare {
  import opened Ctype
  import Lex = Lexicographic
  import Num = NumberText

  // ----- the comparison as computed

  function CommonPrefix(a: string, b: string): (n: nat)
    ensures n <= |a| && n <= |b|
  {
    if a != [] && b != [] && a[0] == b[0] then 1 + CommonPrefix(a[1..], b[1..]) else 0
  }

  /** The start of the digits that end at position n. */
  function RunStart(a: string, n: nat): (i: nat)
    requires n <= |a|
    ensures i <= n
  {
    if n > 0 && IsDigit(a[n - 1]) then RunStart(a, n - 1) else n
  }

  /** The leading digits of a. */
  function Run(a: string): (r: string)
    ensures r <= a
  {
    if a != [] && IsDigit(a[0]) then [a[0]] + Run(a[1..]) else []
  }

  /** How many leading zeros can be dropped so that something is left. */
  function Zeros(r: string): (n: nat)
    ensures n <= |r|
  {
    if r != [] && r[0] == '0' && r != "0" then 1 + Zeros(r[1..]) else 0
  }

  /** The order of two runs of digits: leading zeros come first, more of them earlier. */
  predicate RunLess(x: string, y: string) {
    var zx, zy := Zeros(x), Zeros(y);
    if zx == 0 && zy == 0 then (if |x| == |y| then Lex.Less(x, y) else |x| < |y|)
    else if zx == 0 then false
    else if zy == 0 then true
    else if zx == zy then Lex.Less(x[zx..], y[zy..])
    else zx > zy
  }

  predicate DigitAt(a: string, i: nat) { i < |a| && IsDigit(a[i]) }

  predicate Less(a: string, b: string) {
    var pf := CommonPrefix(a, b);
    if !DigitAt(a, pf) && !DigitAt(b, pf) then Lex.Less(a[pf..], b[pf..])
    else
      var beg := RunStart(a, pf);
      var x, y := Run(a[beg..]), Run(b[beg..]);
      if x == [] || y == [] then Lex.Less(a[pf..], b[pf..]) else RunLess(x, y)
  }

  /** StrVersionCompare::operator() */
  method VersionLess(a: string, b: string) returns (r: bool)
    ensures r == Less(a, b)
  {
    var pf := 0;
    while pf < |a| && pf < |b| && a[pf] == b[pf]
      invariant pf <= |a| && pf <= |b| && CommonPrefix(a, b) == pf + CommonPrefix(a[pf..], b[pf..])
    {
      assert a[pf..][1..] == a[pf + 1..] && b[pf..][1..] == b[pf + 1..];
      pf := pf + 1;
    }
    if !DigitAt(a, pf) && !DigitAt(b, pf) {
      var less := LexLess(a[pf..], b[pf..]);
      return less;
    }
    var beg := pf;
    while beg > 0 && IsDigit(a[beg - 1])
      invariant beg <= pf && RunStart(a, pf) == RunStart(a, beg)
    {
      beg := beg - 1;
    }
    var numa := ExtractDigits(a[beg..]);
    var numb := ExtractDigits(b[beg..]);
    if numa == [] || numb == [] {
      var less := LexLess(a[pf..], b[pf..]);
      return less;
    }
    var za := CountZeros(numa);
    var zb := CountZeros(numb);
    numa, numb := numa[za..], numb[zb..];
    if za == 0 && zb == 0 {
      if |numa| != |numb| {
        return |numa| < |numb|;
      }
      r := LexLess(numa, numb);
    } else if za == 0 {
      r := false;
    } else if zb == 0 {
      r := true;
    } else if za == zb {
      r := LexLess(numa, numb);
    } else {
      r := za > zb;
    }
  }

  method LexLess(a: string, b: string) returns (r: bool)
    ensures r == Lex.Less(a, b)
  {
    var i := 0;
    while i < |a| && i < |b| && a[i] == b[i]
      invariant i <= |a| && i <= |b| && Lex.Less(a, b) == Lex.Less(a[i..], b[i..])
    {
      assert a[i..][1..] == a[i + 1..] && b[i..][1..] == b[i + 1..];
      i := i + 1;
    }
    r := i < |b| && (i == |a| || a[i] < b[i]);
  }

  method ExtractDigits(a: string) returns (r: string)
    ensures r == Run(a)
  {
    var i := 0;
    while i < |a| && IsDigit(a[i])
      invariant i <= |a| && forall k :: 0 <= k < i ==> IsDigit(a[k])
    {
      i := i + 1;
    }
    RunIs(a, i);
    r := a[..i];
  }

  /** remove_leading_zeros(): how many zeros it removes. */
  method CountZeros(s: string) returns (n: nat)
    ensures n == Zeros(s)
  {
    n := 0;
    while n < |s| && s[n] == '0' && s[n..] != "0"
      invariant n <= |s| && Zeros(s) == n + Zeros(s[n..])
    {
      assert s[n..][1..] == s[n + 1..];
      n := n + 1;
    }
  }

  // ----- tokens

  /** A maximal run of digits or a single other character. */
  function Token(a: string): (t: string)
    requires a != []
    ensures t != [] && t <= a
  {
    if IsDigit(a[0]) then Run(a) else [a[0]]
  }

  function Tokens(a: string): seq<string> {
    if a == [] then [] else [Token(a)] + Tokens(a[|Token(a)|..])
  }

  predicate IsToken(t: string) {
    t != [] && (if IsDigit(t[0]) then forall i :: 0 <= i < |t| ==> IsDigit(t[i]) else |t| == 1)
  }

  /** Digits compare with other characters, and those among themselves, as characters. */
  predicate TokenLess(x: string, y: string)
    requires x != [] && y != []
  {
    if IsDigit(x[0]) && IsDigit(y[0]) then RunLess(x, y) else x[0] < y[0]
  }

  predicate AllTokens(t: seq<string>) { forall i :: 0 <= i < |t| ==> IsToken(t[i]) }

  predicate TokensLess(t: seq<string>, u: seq<string>)
    requires AllTokens(t) && AllTokens(u)
  {
    u != [] && (t == [] || (assert IsToken(t[0]) && IsToken(u[0]);
                            TokenLess(t[0], u[0]) || (t[0] == u[0] && TokensLess(t[1..], u[1..]))))
  }

  lemma {:induction false} RunIsDigits(a: string)
    ensures forall i :: 0 <= i < |Run(a)| ==> IsDigit(a[i])
    ensures !DigitAt(a, |Run(a)|)
  {
    if a != [] && IsDigit(a[0]) {
      RunIsDigits(a[1..]);
    }
  }

  lemma {:induction false} TokensAreTokens(a: string)
    ensures AllTokens(Tokens(a))
  {
    if a != [] {
      RunIsDigits(a);
      assert IsToken(Token(a));
      TokensAreTokens(a[|Token(a)|..]);
    }
  }

  /** Concatenating the tokens gives back the string. */
  function Concat(t: seq<string>): string { if t == [] then [] else t[0] + Concat(t[1..]) }

  lemma TokensStep(a: string)
    requires a != []
    ensures Tokens(a) == [Token(a)] + Tokens(a[|Token(a)|..])
  {
    hide Token;
  }

  lemma ConcatStep(t: string, rest: seq<string>)
    ensures Concat([t] + rest) == t + Concat(rest)
  {
    assert ([t] + rest)[1..] == rest;
  }

  lemma {:induction false} TokensDetermine(a: string)
    ensures Concat(Tokens(a)) == a
  {
    if a != [] {
      hide Token, Tokens, Concat;
      var n := |Token(a)|;
      TokensDetermine(a[n..]);
      TokensStep(a);
      ConcatStep(Token(a), Tokens(a[n..]));
      assert a == Token(a) + a[n..];
    } else {
      assert Tokens(a) == [];
    }
  }

  // ----- the order on tokens is strict and total

  lemma ZerosAre(x: string, i: nat)
    requires i < Zeros(x)
    ensures x[i] == '0'
  {
    if i > 0 {
      ZerosAre(x[1..], i - 1);
    }
  }

  lemma RunTrichotomous(x: string, y: string)
    ensures RunLess(x, y) || x == y || RunLess(y, x)
  {
    var zx, zy := Zeros(x), Zeros(y);
    if zx == zy {
      Lex.Trichotomous(x[zx..], y[zy..]);
      assert x[0..] == x && y[0..] == y;
      if x[zx..] == y[zy..] {
        assert |x| == |y|;
        forall i | 0 <= i < |x| ensures x[i] == y[i] {
          if i < zx {
            ZerosAre(x, i);
            ZerosAre(y, i);
          } else {
            assert x[zx..][i - zx] == y[zy..][i - zx];
          }
        }
      }
    }
  }

  lemma RunStrict(x: string, y: string, z: string)
    ensures !RunLess(x, x)
    ensures RunLess(x, y) && RunLess(y, z) ==> RunLess(x, z)
  {
    var zx, zy, zz := Zeros(x), Zeros(y), Zeros(z);
    Lex.Irreflexive(x);
    Lex.Irreflexive(x[zx..]);
    if RunLess(x, y) && RunLess(y, z) && zx == zy == zz {
      if zx > 0 {
        Lex.Transitive(x[zx..], y[zy..], z[zz..]);
      } else if |x| == |y| == |z| {
        Lex.Transitive(x, y, z);
      }
    }
  }

  lemma {:induction false} TokensIrreflexive(t: seq<string>)
    requires AllTokens(t)
    ensures !TokensLess(t, t)
  {
    if t != [] {
      assert IsToken(t[0]);
      RunStrict(t[0], t[0], t[0]);
      TokensIrreflexive(t[1..]);
    }
  }

  lemma {:induction false} TokensTransitive(t: seq<string>, u: seq<string>, v: seq<string>)
    requires AllTokens(t) && AllTokens(u) && AllTokens(v)
    requires TokensLess(t, u) && TokensLess(u, v)
    ensures TokensLess(t, v)
  {
    if t != [] {
      assert IsToken(t[0]) && IsToken(u[0]) && IsToken(v[0]);
      RunStrict(t[0], u[0], v[0]);
      if t[0] == u[0] && u[0] == v[0] && TokensLess(t[1..], u[1..]) && TokensLess(u[1..], v[1..]) {
        TokensTransitive(t[1..], u[1..], v[1..]);
      }
      RunStrict(t[0], t[0], t[0]);
    }
  }

  lemma TokenTrichotomous(x: string, y: string)
    requires IsToken(x) && IsToken(y)
    ensures TokenLess(x, y) || x == y || TokenLess(y, x)
  {
    if IsDigit(x[0]) && IsDigit(y[0]) {
      RunTrichotomous(x, y);
    }
  }

  lemma {:induction false} TokensTrichotomous(t: seq<string>, u: seq<string>)
    requires AllTokens(t) && AllTokens(u)
    ensures TokensLess(t, u) || t == u || TokensLess(u, t)
  {
    if t != [] && u != [] {
      TokenTrichotomous(t[0], u[0]);
      TokensTrichotomous(t[1..], u[1..]);
      assert t == [t[0]] + t[1..] && u == [u[0]] + u[1..];
    }
  }

  // ----- the comparison is the order on tokens

  lemma {:induction false} CommonPrefixIs(a: string, b: string)
    ensures var n := CommonPrefix(a, b);
            && (forall i :: 0 <= i < n ==> a[i] == b[i])
            && (n < |a| && n < |b| ==> a[n] != b[n])
  {
    if a != [] && b != [] && a[0] == b[0] {
      CommonPrefixIs(a[1..], b[1..]);
    }
  }

  lemma {:induction false} CommonPrefixDrop(p: string, a: string, b: string)
    ensures CommonPrefix(p + a, p + b) == |p| + CommonPrefix(a, b)
  {
    if p == [] {
      assert p + a == a && p + b == b;
    } else {
      assert (p + a)[1..] == p[1..] + a && (p + b)[1..] == p[1..] + b;
      CommonPrefixDrop(p[1..], a, b);
    }
  }

  /** p + a has a token boundary after p. */
  predicate Boundary(p: string, a: string) {
    p == [] || !IsDigit(p[|p| - 1]) || !DigitAt(a, 0)
  }

  lemma {:induction false} RunStartDrop(p: string, a: string, n: nat)
    requires Boundary(p, a) && 0 < n <= |a|
    ensures RunStart(p + a, |p| + n) == |p| + RunStart(a, n)
  {
    assert (p + a)[|p| + n - 1] == a[n - 1];
    if IsDigit(a[n - 1]) {
      if n > 1 {
        RunStartDrop(p, a, n - 1);
      } else {
        assert |p| > 0 ==> (p + a)[|p| - 1] == p[|p| - 1];
      }
    }
  }

  /** A common first token does not matter. */
  lemma DropToken(p: string, a: string, b: string)
    requires Boundary(p, a) && Boundary(p, b)
    ensures Less(p + a, p + b) == Less(a, b)
  {
    hide Lex.Less, RunLess, Run, CommonPrefix;
    var pf := CommonPrefix(a, b);
    CommonPrefixDrop(p, a, b);
    assert (p + a)[|p| + pf..] == a[pf..] && (p + b)[|p| + pf..] == b[pf..];
    assert DigitAt(p + a, |p| + pf) == DigitAt(a, pf) && DigitAt(p + b, |p| + pf) == DigitAt(b, pf);
    if DigitAt(a, pf) || DigitAt(b, pf) {
      var beg := RunStart(a, pf);
      assert RunStart(p + a, |p| + pf) == |p| + beg by {
        if pf > 0 {
          RunStartDrop(p, a, pf);
        } else {
          assert |p| > 0 ==> (p + a)[|p| - 1] == p[|p| - 1];
        }
      }
      assert (p + a)[|p| + beg..] == a[beg..] && (p + b)[|p| + beg..] == b[beg..];
    }
  }

  lemma {:induction false} RunStartZero(a: string, n: nat)
    requires n <= |a| && forall i :: 0 <= i < n ==> IsDigit(a[i])
    ensures RunStart(a, n) == 0
  {
    if n > 0 {
      RunStartZero(a, n - 1);
    }
  }

  lemma {:induction false} RunIs(a: string, n: nat)
    requires n <= |a| && (forall i :: 0 <= i < n ==> IsDigit(a[i])) && !DigitAt(a, n)
    ensures Run(a) == a[..n]
  {
    if n > 0 {
      RunIs(a[1..], n - 1);
      assert a[..n] == [a[0]] + a[1..][..n - 1];
    }
  }

  lemma SameRun(a: string, b: string)
    requires |Run(a)| <= CommonPrefix(a, b) && !DigitAt(b, |Run(a)|)
    ensures Run(b) == Run(a)
  {
    CommonPrefixIs(a, b);
    RunIsDigits(a);
    RunIs(b, |Run(a)|);
    assert a[..|Run(a)|] == b[..|Run(a)|];
  }

  /** Different runs part inside them, so the comparison compares these runs. */
  lemma DifferentRuns(a: string, b: string)
    requires DigitAt(a, 0) && DigitAt(b, 0) && Run(a) != Run(b)
    ensures Less(a, b) == RunLess(Run(a), Run(b))
  {
    var pf, x, y := CommonPrefix(a, b), Run(a), Run(b);
    CommonPrefixIs(a, b);
    RunIsDigits(a);
    RunIsDigits(b);
    if pf >= |x| && !DigitAt(b, |x|) {
      SameRun(a, b);
      assert false;
    }
    RunStartZero(a, pf);
    assert a[0..] == a && b[0..] == b;
  }

  lemma DifferentTokens(a: string, b: string)
    requires a != [] && b != [] && Token(a) != Token(b)
    ensures Less(a, b) == TokenLess(Token(a), Token(b))
  {
    if DigitAt(a, 0) && DigitAt(b, 0) {
      DifferentRuns(a, b);
    } else {
      assert a[0] != b[0];
      assert CommonPrefix(a, b) == 0 && a[0..] == a && b[0..] == b;
    }
  }

  lemma NoCommonPrefix(a: string, b: string)
    requires a == [] || b == []
    ensures CommonPrefix(a, b) == 0 && RunStart(a, 0) == 0
    ensures a == [] ==> Run(a) == []
    ensures b == [] ==> Run(b) == []
  {
  }

  lemma TokenBoundary(a: string)
    requires a != []
    ensures Boundary(Token(a), a[|Token(a)|..])
  {
    RunIsDigits(a);
  }

  /** StrVersionCompare is the lexicographic order on tokens. */
  lemma {:induction false} LessIsTokensLess(a: string, b: string)
    ensures AllTokens(Tokens(a)) && AllTokens(Tokens(b))
    ensures Less(a, b) == TokensLess(Tokens(a), Tokens(b))
  {
    hide RunLess, Run, CommonPrefix;
    TokensAreTokens(a);
    TokensAreTokens(b);
    if a == [] || b == [] {
      NoCommonPrefix(a, b);
      assert a[0..] == a && b[0..] == b;
    } else {
      hide Less, Token;
      var x, y := Token(a), Token(b);
      assert Tokens(a)[1..] == Tokens(a[|x|..]) && Tokens(b)[1..] == Tokens(b[|y|..]);
      if x == y {
        TokenBoundary(a);
        TokenBoundary(b);
        DropToken(x, a[|x|..], b[|x|..]);
        assert a == x + a[|x|..] && b == x + b[|x|..];
        RunStrict(x, x, x);
        LessIsTokensLess(a[|x|..], b[|x|..]);
      } else {
        DifferentTokens(a, b);
      }
    }
  }

  // ----- numbers and text

  /** Zeros counts the zeros in front of a number, not counting the last digit of a number that is all zeros. */
  lemma {:induction false} ZerosMean(x: string)
    requires x != []
    ensures Zeros(x) < |x| && (forall i :: 0 <= i < Zeros(x) ==> x[i] == '0')
    ensures Zeros(x) == |x| - 1 || x[Zeros(x)] != '0'
  {
    if x[0] == '0' && |x| > 1 {
      ZerosMean(x[1..]);
    }
  }

  /** Numbers without leading zeros compare by value. */
  lemma RunLessByValue(x: string, y: string)
    requires x != [] && y != [] && Num.IsDigits(x) && Num.IsDigits(y) && Zeros(x) == Zeros(y) == 0
    ensures RunLess(x, y) <==> Num.Value(x) < Num.Value(y)
  {
    hide Num.Value;
    ZerosMean(x);
    ZerosMean(y);
    if |x| == |y| {
      Num.SameLength(x, y);
    } else if |x| < |y| {
      Num.Shorter(x, y);
    } else {
      Num.Shorter(y, x);
    }
  }

  /** Among numbers with leading zeros the one with more of them comes first; with equally many, text decides. */
  lemma RunLessByZeros(x: string, y: string)
    requires x != [] && y != [] && (Zeros(x) != 0 || Zeros(y) != 0)
    ensures RunLess(x, y) <==> if Zeros(x) == Zeros(y) then Lex.Less(x, y) else Zeros(x) > Zeros(y)
  {
    var z := Zeros(x);
    ZerosMean(x);
    ZerosMean(y);
    if z == Zeros(y) {
      assert x[..z] == y[..z];
      assert x == x[..z] + x[z..] && y == x[..z] + y[z..];
      Lex.DropPrefix(x[..z], x[z..], y[z..]);
    }
  }

  /** The order of two numbers: more leading zeros first, then without any by value, and otherwise as text. */
  predicate NumberLess(x: string, y: string)
    requires Num.IsDigits(x) && Num.IsDigits(y)
  {
    if Zeros(x) != Zeros(y) then Zeros(x) > Zeros(y)
    else if Zeros(x) == 0 then Num.Value(x) < Num.Value(y)
    else Lex.Less(x, y)
  }

  /** Strings that part in two different numbers are ordered as these numbers. */
  lemma NumbersDecide(p: string, x: string, y: string, a: string, b: string)
    requires x != [] && y != [] && x != y && Num.IsDigits(x) && Num.IsDigits(y)
    requires (p == [] || !IsDigit(p[|p| - 1])) && !DigitAt(a, 0) && !DigitAt(b, 0)
    ensures Less(p + (x + a), p + (y + b)) <==> NumberLess(x, y)
  {
    hide Less, RunLess, Run, Zeros, Num.Value;
    var u, v := x + a, y + b;
    DropToken(p, u, v);
    assert DigitAt(u, |x|) == DigitAt(a, 0) && DigitAt(v, |y|) == DigitAt(b, 0);
    RunIs(u, |x|);
    RunIs(v, |y|);
    assert u[..|x|] == x && v[..|y|] == y;
    DifferentRuns(u, v);
    if Zeros(x) == 0 && Zeros(y) == 0 {
      RunLessByValue(x, y);
    } else {
      RunLessByZeros(x, y);
    }
  }

  /** Strings that part where neither goes on with a digit, or where only one does and no digit stands before,
      are ordered as text. */
  lemma TextDecides(a: string, b: string)
    requires var pf := CommonPrefix(a, b);
             || (!DigitAt(a, pf) && !DigitAt(b, pf))
             || (DigitAt(a, pf) != DigitAt(b, pf) && (pf == 0 || !IsDigit(a[pf - 1])))
    ensures Less(a, b) <==> Lex.Less(a, b)
  {
    hide CommonPrefix, RunLess, Lex.Less;
    var pf := CommonPrefix(a, b);
    CommonPrefixIs(a, b);
    assert a[..pf] == b[..pf];
    assert a == a[..pf] + a[pf..] && b == a[..pf] + b[pf..];
    Lex.DropPrefix(a[..pf], a[pf..], b[pf..]);
    if DigitAt(a, pf) {
      RunIs(b[pf..], 0);
    } else if DigitAt(b, pf) {
      RunIs(a[pf..], 0);
    }
  }

  // ----- a digit against a character that is not one, or against the end

  /** The strings part where a has a digit and b has none. */
  predicate DigitAgainstOther(a: string, b: string) {
    var pf := CommonPrefix(a, b);
    DigitAt(a, pf) && !DigitAt(b, pf)
  }

  /** Where no digits stand before it, the digit is the lower one exactly when b goes on with a character
      above the digits; the end of b and all characters below '0' are lower than the digit. */
  lemma DigitIsLowerIff(a: string, b: string)
    requires DigitAgainstOther(a, b) && (CommonPrefix(a, b) == 0 || !IsDigit(a[CommonPrefix(a, b) - 1]))
    ensures var pf := CommonPrefix(a, b);
            Less(a, b) <==> pf < |b| && b[pf] > '9'
  {
    var pf := CommonPrefix(a, b);
    CommonPrefixIs(a, b);
    RunIsDigits(b[pf..]);
    assert Run(b[pf..]) == [];
    assert pf < |b| ==> b[pf..][0] == b[pf];
    assert a[pf..][0] == a[pf];
  }

  /** Where digits stand before it, the digit makes a longer number, and the string with it is the lower one
      exactly when these digits are all zeros. */
  lemma DigitLengthensRun(a: string, b: string)
    requires DigitAgainstOther(a, b) && CommonPrefix(a, b) > 0 && IsDigit(a[CommonPrefix(a, b) - 1])
    ensures var pf := CommonPrefix(a, b);
            Less(a, b) <==> forall i :: RunStart(a, pf) <= i < pf ==> a[i] == '0'
  {
    hide CommonPrefix, RunLess, RunStart, Run;
    var pf := CommonPrefix(a, b);
    var beg := RunStart(a, pf);
    CommonPrefixIs(a, b);
    assert a[..pf] == b[..pf];
    RunsAtDigit(a, b, pf);
    LongerRun(b[beg..pf], Run(a[beg..]));
    assert forall i :: beg <= i < pf ==> a[i] == b[beg..pf][i - beg];
    assert (forall i :: beg <= i < pf ==> a[i] == '0') <==> forall k :: 0 <= k < pf - beg ==> b[beg..pf][k] == '0' by {
      assert forall k :: 0 <= k < pf - beg ==> b[beg..pf][k] == a[beg + k];
    }
  }

  lemma RunsAtDigit(a: string, b: string, pf: nat)
    requires 0 < pf < |a| && pf <= |b| && a[..pf] == b[..pf] && IsDigit(a[pf - 1]) && DigitAt(a, pf) && !DigitAt(b, pf)
    ensures var beg := RunStart(a, pf);
            beg < pf && Run(b[beg..]) == b[beg..pf] && b[beg..pf] < Run(a[beg..])
  {
    hide RunStart, Run;
    var beg := RunStart(a, pf);
    RunStartDigits(a, pf);
    var x, y, n := a[beg..], b[beg..], pf - beg;
    assert x[..n] == a[..pf][beg..] && y[..n] == b[..pf][beg..];
    assert y[..n] == b[beg..pf];
    assert forall i :: 0 <= i < n ==> x[i] == a[beg + i];
    assert x[n] == a[pf] && (DigitAt(y, n) <==> DigitAt(b, pf));
    LongerRunRead(x, y, n);
  }

  /** Two strings with n digits in common, of which x has one more. */
  lemma LongerRunRead(x: string, y: string, n: nat)
    requires n < |x| && n <= |y| && x[..n] == y[..n] && (forall i :: 0 <= i <= n ==> IsDigit(x[i])) && !DigitAt(y, n)
    ensures Run(y) == y[..n] && y[..n] < Run(x)
  {
    hide Run;
    assert forall i :: 0 <= i < n ==> x[..n][i] == x[i] && y[..n][i] == y[i];
    RunIs(y, n);
    RunCovers(x, n + 1);
    assert x[..n + 1] == y[..n] + [x[n]];
  }

  lemma {:induction false} RunStartDigits(a: string, n: nat)
    requires n <= |a|
    ensures forall i :: RunStart(a, n) <= i < n ==> IsDigit(a[i])
    ensures n > 0 && IsDigit(a[n - 1]) ==> RunStart(a, n) < n
  {
    if n > 0 && IsDigit(a[n - 1]) {
      RunStartDigits(a, n - 1);
    }
  }

  lemma {:induction false} RunCovers(a: string, n: nat)
    requires n <= |a| && forall i :: 0 <= i < n ==> IsDigit(a[i])
    ensures a[..n] <= Run(a)
  {
    if n > 0 {
      RunCovers(a[1..], n - 1);
      assert a[..n] == [a[0]] + a[1..][..n - 1];
    }
  }

  /** More digits after y make a lower number just when y is zeros only. */
  lemma LongerRun(y: string, x: string)
    requires y != [] && y < x
    ensures RunLess(x, y) <==> forall i :: 0 <= i < |y| ==> y[i] == '0'
  {
    var z := Zeros(y);
    ZerosOfLonger(y, x);
    if exists i :: 0 <= i < |y| && y[i] != '0' {
      var tail := x[|y|..];
      assert x[z..] == y[z..] + tail && y[z..] == y[z..] + [];
      Lex.DropPrefix(y[z..], tail, []);
    }
  }

  lemma {:induction false} ZerosOfLonger(y: string, x: string)
    requires y != [] && y < x
    ensures if forall i :: 0 <= i < |y| ==> y[i] == '0' then Zeros(x) > Zeros(y) else Zeros(x) == Zeros(y)
  {
    if y[0] == '0' && |y| > 1 {
      ZerosOfLonger(y[1..], x[1..]);
      assert (forall i :: 0 <= i < |y| ==> y[i] == '0') <==> forall i :: 0 <= i < |y[1..]| ==> y[1..][i] == '0' by {
        assert forall i :: 1 <= i < |y| ==> y[i] == y[1..][i - 1];
      }
    }
  }

  /** Two inputs on which a digit is not the lower one. */
  lemma DigitIsNotAlwaysLower()
    ensures Less("", "1") && Less(".", "1")
  {
    assert Less("", "1");
    assert CommonPrefix(".", "1") == 0;
  }

  /** StrVersionCompare is a strict total order on all strings. */
  lemma StrictTotalOrder(a: string, b: string, c: string)
    ensures !Less(a, a)
    ensures Less(a, b) && Less(b, c) ==> Less(a, c)
    ensures Less(a, b) || a == b || Less(b, a)
  {
    LessIsTokensLess(a, a);
    LessIsTokensLess(a, b);
    LessIsTokensLess(b, c);
    LessIsTokensLess(a, c);
    LessIsTokensLess(b, a);
    TokensIrreflexive(Tokens(a));
    if Less(a, b) && Less(b, c) {
      TokensTransitive(Tokens(a), Tokens(b), Tokens(c));
    }
    TokensTrichotomous(Tokens(a), Tokens(b));
    TokensDetermine(a);
    TokensDetermine(b);
  }
}
