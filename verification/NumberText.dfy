/**
  Integers as decimal text: str2num() and to_string() for every width and signedness, and comparing digit
  strings as numbers.
 */
module NumberText {
  import opened Ctype
  import Lex = Lexicographic
  import opened Wrappers

  // ----- integer types

  function Pow2(k: nat): (p: nat)
    ensures p > 0
  {
    if k == 0 then 1 else 2 * Pow2(k - 1)
  }

  /** An integer type with so many bits besides the sign. */
  datatype IntType = IntType(signed: bool, bits: nat) {
    function Max(): int { Pow2(bits) - 1 }

    function Min(): int { if signed then 0 - Pow2(bits) else 0 }

    predicate Fits(x: int) { Min() <= x <= Max() }
  }

  // ----- the meaning of digits

  predicate IsDigits(s: string) { forall i :: 0 <= i < |s| ==> IsDigit(s[i]) }

  function DigitValue(c: char): (d: int)
    requires IsDigit(c)
    ensures 0 <= d <= 9
  {
    c as int - '0' as int
  }

  function Value(s: string): (v: nat)
    requires IsDigits(s)
  {
    if s == [] then 0 else 10 * Value(s[..|s| - 1]) + DigitValue(s[|s| - 1])
  }

  lemma ValueSnoc(s: string, c: char)
    requires IsDigits(s) && IsDigit(c)
    ensures IsDigits(s + [c]) && Value(s + [c]) == 10 * Value(s) + DigitValue(c)
  {
    assert (s + [c])[..|s|] == s;
  }

  /** More digits mean no less; the digits read so far are scaled by at least ten. */
  lemma {:induction false} ValueGrows(s: string, n: nat)
    requires IsDigits(s) && n <= |s|
    ensures Value(s[..n]) <= Value(s)
    ensures n < |s| ==> 10 * Value(s[..n]) <= Value(s)
  {
    if n == |s| {
      assert s[..n] == s;
    } else {
      var t := s[..|s| - 1];
      assert t[..n] == s[..n];
      ValueGrows(t, n);
    }
  }

  predicate Negative(t: IntType, s: string) { t.signed && s != [] && s[0] == '-' }

  /** The digits of a number: all of the text but the minus sign. */
  function Magnitude(t: IntType, s: string): string { if Negative(t, s) then s[1..] else s }

  predicate IsNumeral(t: IntType, s: string) { Magnitude(t, s) != [] && IsDigits(Magnitude(t, s)) }

  function Meaning(t: IntType, s: string): int
    requires IsNumeral(t, s)
  {
    if Negative(t, s) then 0 - Value(s[1..]) else Value(s)
  }

  // ----- reading

  function Signed(minus: bool, v: int): int { if minus then -v else v }

  lemma SmallFits(t: IntType, v: int)
    requires t.bits >= 7 && 0 <= v <= 9
    ensures t.Fits(v) && (t.signed ==> t.Fits(-v))
  {
    Pow2Grows(7, t.bits);
    assert Pow2(7) == 2 * (2 * (2 * Pow2(4)));
  }

  lemma {:induction false} Pow2Grows(j: nat, k: nat)
    requires j <= k
    ensures Pow2(j) <= Pow2(k)
    decreases k
  {
    if j < k {
      Pow2Grows(j, k - 1);
    }
  }

  /** str2num() for integral types: exactly the numerals whose value the type has, with that value. */
  method Str2Num(t: IntType, str: string) returns (r: Option<int>)
    requires t.bits >= 7
    ensures r == if IsNumeral(t, str) && t.Fits(Meaning(t, str)) then Some(Meaning(t, str)) else None
  {
    hide Pow2, Value;
    if str == [] {
      return None;
    }
    var minus, s := false, str;
    if t.signed && s[0] == '-' {
      minus := true;
      s := s[1..];
      if s == [] {
        return None;
      }
    }
    assert s == Magnitude(t, str) && minus == Negative(t, str);
    if !IsDigit(s[0]) {
      return None;
    }
    var res := Signed(minus, DigitValue(s[0]));
    FirstDigit(s);
    SmallFits(t, DigitValue(s[0]));
    var i := 1;
    while i < |s|
      invariant 1 <= i <= |s| && IsDigits(s[..i])
      invariant res == Signed(minus, Value(s[..i])) && t.Fits(res)
    {
      if !IsDigit(s[i]) {
        return None;
      }
      Refused(t, str, i);
      ValueSnoc(s[..i], s[i]);
      assert s[..i + 1] == s[..i] + [s[i]];
      if !t.Fits(res * 10) {
        return None;
      }
      res := res * 10;
      if !t.Fits(res + Signed(minus, DigitValue(s[i]))) {
        return None;
      }
      res := res + Signed(minus, DigitValue(s[i]));
      i := i + 1;
    }
    assert s[..i] == s;
    r := Some(res);
  }

  lemma FirstDigit(s: string)
    requires s != [] && IsDigit(s[0])
    ensures IsDigits(s[..1]) && Value(s[..1]) == DigitValue(s[0])
  {
    ValueSnoc([], s[0]);
    assert [] + [s[0]] == s[..1];
  }

  /** An overflow at the i-th digit is an overflow of the whole. */
  lemma Refused(t: IntType, str: string, i: nat)
    requires i < |Magnitude(t, str)| && IsDigits(Magnitude(t, str)[..i + 1])
    ensures var s, minus := Magnitude(t, str), Negative(t, str);
            IsNumeral(t, str) && t.Fits(Meaning(t, str)) ==>
              && IsDigits(s[..i]) && t.Fits(Signed(minus, 10 * Value(s[..i])))
              && t.Fits(Signed(minus, Value(s[..i + 1])))
  {
    hide Pow2, Value;
    if IsNumeral(t, str) && t.Fits(Meaning(t, str)) {
      var s := Magnitude(t, str);
      ValueGrows(s, i);
      ValueGrows(s, i + 1);
    }
  }

  /** The range-checking overload. */
  method Str2NumIn(t: IntType, str: string, min: int, max: int) returns (r: Option<int>)
    requires t.bits >= 7 && t.Fits(min) && t.Fits(max)
    ensures r == if IsNumeral(t, str) && min <= Meaning(t, str) <= max then Some(Meaning(t, str)) else None
  {
    r := Str2Num(t, str);
    if r == None || r.value < min || r.value > max {
      return None;
    }
  }

  // ----- writing

  function DigitChar(d: int): (c: char)
    requires 0 <= d <= 9
    ensures IsDigit(c) && DigitValue(c) == d
  {
    (d + '0' as int) as char
  }

  /** The digits of n without leading zeros. */
  function Digits(n: nat): (s: string)
    ensures s != []
  {
    if n < 10 then [DigitChar(n)] else Digits(n / 10) + [DigitChar(n % 10)]
  }

  function Text(x: int): string { if x < 0 then "-" + Digits(-x) else Digits(x) }

  lemma {:induction false} DigitsMean(n: nat)
    ensures IsDigits(Digits(n)) && Value(Digits(n)) == n
    ensures n > 0 ==> Digits(n)[0] != '0'
  {
    if n < 10 {
      ValueSnoc([], DigitChar(n));
      assert [] + [DigitChar(n)] == Digits(n);
    } else {
      DigitsMean(n / 10);
      ValueSnoc(Digits(n / 10), DigitChar(n % 10));
    }
  }

  /** The text of every value of a type, the least one included, is a numeral of that type and means it. */
  lemma TextMeans(t: IntType, x: int)
    requires t.Fits(x)
    ensures IsNumeral(t, Text(x)) && Meaning(t, Text(x)) == x
  {
    hide Digits, Value;
    if x < 0 {
      DigitsMean(-x);
      assert Text(x)[1..] == Digits(-x);
    } else {
      DigitsMean(x);
      assert IsDigit(Digits(x)[0]);
    }
  }

  /** The other way round: a numeral is the text of what it means just when it has no needless zero. */
  lemma MeaningText(t: IntType, s: string)
    requires IsNumeral(t, s)
    ensures Text(Meaning(t, s)) == s <==>
            var m := Magnitude(t, s);
            (|m| > 1 ==> m[0] != '0') && (Negative(t, s) ==> m != "0")
  {
    hide Digits, Value;
    var m := Magnitude(t, s);
    DigitsOf(m);
    DigitsMean(Value(m));
    if Value(m) == 0 {
      ZeroText();
    }
    if Negative(t, s) {
      assert s == "-" + m;
    }
  }

  lemma ZeroText()
    ensures Digits(0) == "0" && IsDigits("0") && Value("0") == 0
  {
    DigitsMean(0);
  }

  lemma {:induction false} DigitsOf(m: string)
    requires m != [] && IsDigits(m)
    ensures Digits(Value(m)) == m <==> |m| == 1 || m[0] != '0'
    ensures m[0] != '0' ==> Value(m) > 0
  {
    var n := |m| - 1;
    var t := m[..n];
    assert m == t + [m[n]];
    ValueSnoc(t, m[n]);
    if n > 0 {
      DigitsOf(t);
      DigitsMean(Value(m));
      if m[0] != '0' {
        assert Value(m) / 10 == Value(t) && Value(m) % 10 == DigitValue(m[n]);
      }
    } else {
      FirstDigit(m);
      assert m[..1] == m;
    }
  }

  // ----- the buffer is long enough

  lemma NoFiveNoTen(x: nat)
    requires x % 5 != 0
    ensures x % 10 != 0
  {
  }

  lemma {:induction false} Pow2ModFive(k: nat)
    ensures Pow2(k) % 5 != 0
  {
    if k > 0 {
      Pow2ModFive(k - 1);
    }
  }

  lemma {:induction false} DigitsGrow(m: nat, n: nat)
    requires m <= n
    ensures |Digits(m)| <= |Digits(n)|
  {
    if m >= 10 {
      DigitsGrow(m / 10, n / 10);
    }
  }

  lemma NextDigits(n: nat)
    requires (n + 1) % 10 != 0
    ensures |Digits(n + 1)| == |Digits(n)|
  {
    assert (n + 1) / 10 == n / 10;
  }

  /** The text of the least value is at most one character longer than that of the greatest. */
  lemma Capacity(t: IntType, x: int)
    requires t.Fits(x)
    ensures |Text(x)| <= |Digits(t.Max())| + 1
    ensures x >= 0 ==> |Text(x)| <= |Digits(t.Max())|
  {
    hide Digits, Pow2;
    if x < 0 {
      Pow2ModFive(t.bits);
      NoFiveNoTen(Pow2(t.bits));
      NextDigits(t.Max());
      DigitsGrow(-x, t.Max() + 1);
    } else {
      DigitsGrow(x, t.Max());
    }
  }

  // ----- to_string()

  lemma ReversedSnoc(s: string, c: char)
    ensures Reversed(s + [c]) == [c] + Reversed(s)
  {
  }

  /** Division of integers in C++, towards zero. */
  function Quotient(x: int): int { if x < 0 then 0 - (0 - x) / 10 else x / 10 }

  /** The digits still to come before those already written backwards. */
  ghost predicate Written(n: nat, rest: nat, back: string) {
    Digits(n) == (if rest == 0 then [] else Digits(rest)) + Reversed(back)
  }

  lemma WriteOne(n: nat, rest: nat, back: string)
    requires Written(n, rest, back) && rest > 0
    ensures Written(n, rest / 10, back + [DigitChar(rest % 10)])
    ensures |back| < |Digits(n)|
  {
    var c := DigitChar(rest % 10);
    ReversedSnoc(back, c);
    if rest >= 10 {
      assert Digits(rest / 10) + [c] + Reversed(back) == Digits(rest / 10) + ([c] + Reversed(back));
    } else {
      assert Digits(rest) == [c];
    }
  }

  method WriteDigits(t: IntType, x: int, buff: array<char>) returns (len: nat)
    requires t.Fits(x) && x != 0 && buff.Length == |Digits(t.Max())| + 2
    modifies buff
    ensures len <= |Digits(t.Max())| && Reversed(buff[..len]) == Digits(if x < 0 then 0 - x else x)
  {
    hide Digits, Pow2, Written;
    var y := x;
    ghost var n: nat := if x < 0 then 0 - x else x;
    ghost var rest := n;
    len := 0;
    CapacityDigits(t, x);
    WrittenStart(n);
    assert buff[..0] == [];
    while y != 0
      invariant 0 <= len <= |Digits(t.Max())| && y == Signed(x < 0, rest)
      invariant Written(n, rest, buff[..len])
      decreases rest
    {
      var y2 := Quotient(y);
      WriteOne(n, rest, buff[..len]);
      ghost var back := buff[..len];
      buff[len] := DigitChar(if x < 0 then y2 * 10 - y else y - y2 * 10);
      len := len + 1;
      rest := rest / 10;
      assert buff[..len] == back + [buff[len - 1]];
      y := y2;
    }
    WrittenEnd(n, buff[..len]);
  }

  lemma CapacityDigits(t: IntType, x: int)
    requires t.Fits(x)
    ensures |Digits(if x < 0 then 0 - x else x)| <= |Digits(t.Max())|
  {
    hide Digits, Pow2;
    Capacity(t, x);
  }

  lemma WrittenStart(n: nat)
    requires n > 0
    ensures Written(n, n, [])
  {
    assert Digits(n) + Reversed([]) == Digits(n);
  }

  lemma WrittenEnd(n: nat, back: string)
    requires Written(n, 0, back)
    ensures Reversed(back) == Digits(n)
  {
    assert [] + Reversed(back) == Reversed(back);
  }

  /** Reverses the first len characters in place. */
  method ReverseFront(buff: array<char>, len: nat)
    requires len <= buff.Length
    modifies buff
    ensures buff[..len] == Reversed(old(buff[..len]))
    ensures forall k :: len <= k < buff.Length ==> buff[k] == old(buff[k])
  {
    var i, j := 0, len - 1;
    while i < j
      invariant 0 <= i <= len && j == len - 1 - i
      invariant forall k :: 0 <= k < i ==> buff[k] == old(buff[len - 1 - k]) && buff[len - 1 - k] == old(buff[k])
      invariant forall k :: i <= k <= j ==> buff[k] == old(buff[k])
      invariant forall k :: len <= k < buff.Length ==> buff[k] == old(buff[k])
    {
      var c := buff[i];
      buff[i] := buff[j];
      buff[j] := c;
      i, j := i + 1, j - 1;
    }
  }

  /** to_string() for integral types: the decimal text, ended by a NUL, all inside the buffer. */
  method ToString(t: IntType, x: int) returns (buff: array<char>, len: nat)
    requires t.Fits(x)
    ensures fresh(buff) && buff.Length == |Digits(t.Max())| + 2
    ensures len < buff.Length && buff[..len] == Text(x) && buff[len] == NUL
  {
    hide Digits, Pow2;
    buff := new char[|Digits(t.Max())| + 2](_ => NUL);
    if x == 0 {
      ZeroText();
      buff[0], buff[1] := '0', NUL;
      return buff, 1;
    }
    len := WriteDigits(t, x, buff);
    if x < 0 {
      ghost var back := buff[..len];
      buff[len] := '-';
      len := len + 1;
      assert buff[..len] == back + ['-'];
      ReversedSnoc(back, '-');
    }
    buff[len] := NUL;
    assert Reversed(buff[..len]) == Text(x);
    ReverseFront(buff, len);
  }

  // ----- comparing digits as numbers

  predicate IsZero(c: char) { c == '0' }

  function StripZeros(s: string): string { s[SkipWhile(s, 0, IsZero)..] }

  predicate NumLess(a: string, b: string) {
    var x, y := StripZeros(a), StripZeros(b);
    if |x| == |y| then Lex.Less(x, y) else |x| < |y|
  }

  function Pow10(n: nat): (p: nat)
    ensures p > 0
  {
    if n == 0 then 1 else 10 * Pow10(n - 1)
  }

  function Scaled(v: nat, n: nat): nat { v * Pow10(n) }

  lemma ScaledTen(v: nat, n: nat)
    ensures Scaled(v, n + 1) == 10 * Scaled(v, n) && Scaled(v, 0) == v
  {
    var p := Pow10(n);
    assert v * (10 * p) == 10 * (v * p);
  }

  lemma {:induction false} ValueConcat(a: string, b: string)
    requires IsDigits(a) && IsDigits(b)
    ensures IsDigits(a + b) && Value(a + b) == Scaled(Value(a), |b|) + Value(b)
  {
    hide Scaled;
    if b == [] {
      assert a + b == a;
      ScaledTen(Value(a), 0);
    } else {
      var n := |b| - 1;
      ValueConcat(a, b[..n]);
      assert a + b == a + b[..n] + [b[n]];
      ValueSnoc(a + b[..n], b[n]);
      ScaledTen(Value(a), n);
    }
  }

  lemma {:induction false} ValueBound(s: string)
    requires IsDigits(s)
    ensures Value(s) < Pow10(|s|)
  {
    if s != [] {
      ValueBound(s[..|s| - 1]);
    }
  }

  lemma {:induction false} ZerosMeanNothing(s: string)
    requires forall i :: 0 <= i < |s| ==> IsZero(s[i])
    ensures IsDigits(s) && Value(s) == 0
  {
    if s != [] {
      ZerosMeanNothing(s[..|s| - 1]);
    }
  }

  lemma StripKeepsValue(s: string)
    requires IsDigits(s)
    ensures IsDigits(StripZeros(s)) && Value(StripZeros(s)) == Value(s)
    ensures StripZeros(s) != [] ==> StripZeros(s)[0] != '0'
  {
    var k := SkipWhile(s, 0, IsZero);
    SkipWhileAll(s, 0, IsZero);
    ZerosMeanNothing(s[..k]);
    ValueConcat(s[..k], s[k..]);
    assert s[..k] + s[k..] == s;
  }

  lemma LeadingDigit(s: string)
    requires IsDigits(s) && s != []
    ensures Value(s) == DigitValue(s[0]) * Pow10(|s| - 1) + Value(s[1..])
    ensures Value(s[1..]) < Pow10(|s| - 1)
  {
    ValueBound(s[1..]);
    FirstDigit(s);
    ValueConcat(s[..1], s[1..]);
    assert s[..1] + s[1..] == s;
  }

  lemma ScaleApart(p: nat, q: nat, scale: nat, u: nat, v: nat)
    requires p < q && u < scale
    ensures p * scale + u < q * scale + v
  {
    var e: nat := q - p - 1;
    assert e * scale >= 0;
    assert (p + 1 + e) * scale == p * scale + scale + e * scale;
  }

  /** Digit strings of one length compare as numbers by their first difference. */
  lemma {:induction false} SameLength(a: string, b: string)
    requires IsDigits(a) && IsDigits(b) && |a| == |b|
    ensures Lex.Less(a, b) <==> Value(a) < Value(b)
  {
    hide Value, Pow10;
    if a == [] {
      assert b == [];
    } else {
      LeadingDigit(a);
      LeadingDigit(b);
      var p, q, scale := DigitValue(a[0]), DigitValue(b[0]), Pow10(|a| - 1);
      if p < q {
        ScaleApart(p, q, scale, Value(a[1..]), Value(b[1..]));
      } else if q < p {
        ScaleApart(q, p, scale, Value(b[1..]), Value(a[1..]));
      } else {
        SameLength(a[1..], b[1..]);
      }
    }
  }

  lemma {:induction false} Pow10Grows(m: nat, n: nat)
    requires m <= n
    ensures Pow10(m) <= Pow10(n)
    decreases n
  {
    if m < n {
      Pow10Grows(m, n - 1);
    }
  }

  lemma Shorter(a: string, b: string)
    requires IsDigits(a) && IsDigits(b) && |a| < |b| && b[0] != '0'
    ensures Value(a) < Value(b)
  {
    hide Value, Pow10;
    ValueBound(a);
    LeadingDigit(b);
    Pow10Grows(|a|, |b| - 1);
    var d, scale := DigitValue(b[0]), Pow10(|b| - 1);
    assert d * scale >= scale by {
      assert (d - 1) * scale >= 0;
    }
  }

  /** On digits, StrNumCompare is the order of the numbers. */
  lemma NumLessIsLess(a: string, b: string)
    requires IsDigits(a) && IsDigits(b)
    ensures NumLess(a, b) <==> Value(a) < Value(b)
  {
    hide Value, StripZeros;
    var x, y := StripZeros(a), StripZeros(b);
    StripKeepsValue(a);
    StripKeepsValue(b);
    if |x| == |y| {
      SameLength(x, y);
    } else if |x| < |y| {
      Shorter(x, y);
    } else {
      Shorter(y, x);
    }
  }

  /** StrNumCompare::operator() */
  method StrNumCompare(a: string, b: string) returns (r: bool)
    ensures r == NumLess(a, b)
    ensures IsDigits(a) && IsDigits(b) ==> r == (Value(a) < Value(b))
  {
    var i := RemoveLeading(a, 0, IsZero);
    var j := RemoveLeading(b, 0, IsZero);
    var x, y := a[i..], b[j..];
    r := if |x| == |y| then Lex.Less(x, y) else |x| < |y|;
    if IsDigits(a) && IsDigits(b) {
      NumLessIsLess(a, b);
    }
  }

  /** is_digit_not_greater_than() */
  method IsDigitNotGreaterThan(s: string, max: nat) returns (r: bool)
    ensures r <==> s != [] && IsDigits(s) && Value(s) <= max
  {
    hide Value, Digits;
    var greater := StrNumCompare(Digits(max), s);
    DigitsMean(max);
    r := s != [] && IsDigits(s) && !greater;
  }

  /** is_digit_not_less_than() */
  method IsDigitNotLessThan(s: string, min: nat) returns (r: bool)
    ensures r <==> s != [] && IsDigits(s) && Value(s) >= min
  {
    hide Value, Digits;
    var less := StrNumCompare(s, Digits(min));
    DigitsMean(min);
    r := s != [] && IsDigits(s) && !less;
  }
}
