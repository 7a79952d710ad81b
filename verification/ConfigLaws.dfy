/**
  Laws of configuration files: a value depends on nothing but the text in its span, and printed scalars
  and arrays load as what was printed.
 */
module ConfigLaws {
  import opened Ctype
  import opened ConfigValue
  import opened ConfigFile

  // ----- the same text elsewhere

  /** b from i on and c from j on agree on n characters. */
  predicate Same(b: string, i: nat, c: string, j: nat, n: nat) {
    i + n <= |b| && j + n <= |c| && forall k {:trigger b[k]} :: i <= k < i + n ==> b[k] == c[j + (k - i)]
  }

  lemma SameIndex(b: string, i: nat, c: string, j: nat, n: nat, k: nat)
    requires Same(b, i, c, j, n) && k < n
    ensures b[i + k] == c[j + k]
  {
    assert b[i + k] == c[j + (i + k - i)];
  }

  lemma SamePart(b: string, i: nat, c: string, j: nat, n: nat, from: nat, to: nat)
    requires Same(b, i, c, j, n) && from <= to <= n
    ensures Same(b, i + from, c, j + from, to - from)
  {
  }

  lemma SameSlice(b: string, i: nat, c: string, j: nat, n: nat)
    requires Same(b, i, c, j, n)
    ensures b[i..i + n] == c[j..j + n]
  {
    var x, y := b[i..i + n], c[j..j + n];
    forall k | 0 <= k < n ensures x[k] == y[k] {
      SameIndex(b, i, c, j, n, k);
    }
  }

  lemma {:induction false} SkipShift(b: string, i: nat, c: string, j: nat, n: nat, f: char -> bool)
    requires Same(b, i, c, j, n) && SkipWhile(b, i, f) < i + n
    ensures SkipWhile(c, j, f) == j + (SkipWhile(b, i, f) - i)
  {
    var r := SkipWhile(b, i, f);
    SkipWhileAll(b, i, f);
    forall k | j <= k < j + (r - i) ensures f(c[k]) {
      SameIndex(b, i, c, j, n, k - j);
      assert f(b[i + (k - j)]);
    }
    SameIndex(b, i, c, j, n, r - i);
    SkipWhileIs(c, j, j + (r - i), f);
  }

  lemma {:induction false} SingleShift(b: string, i: nat, c: string, j: nat)
    requires Guarded(b) && Guarded(c) && i < |b| && Single(b, i).Ok?
    requires var n := Single(b, i).next - i; Same(b, i, c, j, n) && j + n < |c| && c[j + n] != '\''
    ensures Single(c, j) == Ok(Single(b, i).value, j + (Single(b, i).next - i))
    decreases |b| - i
  {
    var n := Single(b, i).next - i;
    SameIndex(b, i, c, j, n, 0);
    if b[i] != '\'' {
      SamePart(b, i, c, j, n, 1, n);
      SingleShift(b, i + 1, c, j + 1);
    } else if b[i + 1] == '\'' {
      SameIndex(b, i, c, j, n, 1);
      SamePart(b, i, c, j, n, 2, n);
      SingleShift(b, i + 2, c, j + 2);
    }
  }

  lemma PieceShift(b: string, i: nat, c: string, j: nat)
    requires Guarded(b) && Guarded(c) && i < |b| && b[i] != '\n' && Piece(b, i).Ok?
    requires var n := Piece(b, i).next - i; Same(b, i, c, j, n) && j + n < |c|
    ensures c[j] == b[i] && Piece(c, j) == Ok(Piece(b, i).value, j + (Piece(b, i).next - i))
  {
    var n := Piece(b, i).next - i;
    SameIndex(b, i, c, j, n, 0);
    if n > 1 {
      SameIndex(b, i, c, j, n, 1);
    }
    if n == 4 {
      SameIndex(b, i, c, j, n, 2);
      SameIndex(b, i, c, j, n, 3);
    }
  }

  lemma {:induction false} DoubleShift(b: string, i: nat, c: string, j: nat)
    requires Guarded(b) && Guarded(c) && i < |b| && Double(b, i).Ok?
    requires var n := Double(b, i).next - i; Same(b, i, c, j, n) && j + n < |c|
    ensures Double(c, j) == Ok(Double(b, i).value, j + (Double(b, i).next - i))
    decreases |b| - i
  {
    hide Piece, Same;
    var n := Double(b, i).next - i;
    SameIndex(b, i, c, j, n, 0);
    if b[i] != '\"' {
      var m := Piece(b, i).next - i;
      SamePart(b, i, c, j, n, 0, m);
      PieceShift(b, i, c, j);
      SamePart(b, i, c, j, n, m, n);
      DoubleShift(b, i + m, c, j + m);
    }
  }

  lemma LiteralShift(b: string, i: nat, c: string, j: nat, inArray: bool)
    requires Guarded(b) && Guarded(c) && i < |b| && !IsSpace(b[i]) && Literal(b, i, inArray).Ok?
    requires var n := Literal(b, i, inArray).next - i; Same(b, i, c, j, n) && j + n < |c| && Delimited(c, j + n, inArray)
    ensures b[i] == c[j] && Literal(c, j, inArray) == Ok(Literal(b, i, inArray).value, j + (Literal(b, i, inArray).next - i))
  {
    hide SkipWhile, LiteralEnd, Trimmed, Same;
    var n := Literal(b, i, inArray).next - i;
    var e := SkipWhile(c, j + n, IsWs);
    SkipWhileAll(c, j + n, IsWs);
    SameIndex(b, i, c, j, n, 0);
    SameIndex(b, i, c, j, n, n - 1);
    forall k | j + 1 <= k < e ensures !Stops(c[k], inArray) {
      if k < j + n {
        SameIndex(b, i, c, j, n, k - j);
      }
    }
    LiteralEndIs(c, j + 1, e, inArray);
    TrimmedIs(c, j, j + n, e);
    SameSlice(b, i, c, j, n);
  }

  lemma ExtractShift(b: string, i: nat, c: string, j: nat, inArray: bool)
    requires Guarded(b) && Guarded(c) && i < |b| && !IsSpace(b[i]) && Extract(b, i, inArray).Ok?
    requires var n := Extract(b, i, inArray).next - i; Same(b, i, c, j, n) && j + n < |c| && Delimited(c, j + n, inArray)
    ensures b[i] == c[j] && Extract(c, j, inArray) == Ok(Extract(b, i, inArray).value, j + (Extract(b, i, inArray).next - i))
  {
    hide Single, Double, Literal, Same;
    var n := Extract(b, i, inArray).next - i;
    SameIndex(b, i, c, j, n, 0);
    if b[i] == '\'' {
      SamePart(b, i, c, j, n, 1, n);
      SingleShift(b, i + 1, c, j + 1);
    } else if b[i] == '\"' {
      SamePart(b, i, c, j, n, 1, n);
      DoubleShift(b, i + 1, c, j + 1);
    } else {
      LiteralShift(b, i, c, j, inArray);
    }
  }

  /** t moved from position i to position j. */
  function Shifted(t: Turn, i: nat, j: nat): Turn
    requires !t.Wrong? && t.next >= i
  {
    match t
    case Close(next) => Close(j + (next - i))
    case Pass(next) => Pass(j + (next - i))
    case Item(s, next) => Item(s, j + (next - i))
    case LastItem(s, next) => LastItem(s, j + (next - i))
  }

  /** One turn of the array loop looks at no more than n characters, if it ends within them. */
  lemma ItemTurnShift(b: string, i: nat, c: string, j: nat, n: nat)
    requires Guarded(b) && Guarded(c) && i <= |b| && Same(b, i, c, j, n) && j + n < |c|
    requires var t := ItemTurn(b, i);
             !t.Wrong? && t.next <= i + n && (t.Close? || t.LastItem? || t.next < i + n || t.next == |b| || b[t.next] != '\n')
    ensures ItemTurn(c, j) == Shifted(ItemTurn(b, i), i, j)
  {
    hide Extract, SkipWhile, Same;
    var k := SkipWhile(b, i, IsSpace) - i;
    SkipShift(b, i, c, j, n, IsSpace);
    SameIndex(b, i, c, j, n, k);
    if b[i + k] == '#' {
      SamePart(b, i, c, j, n, k, n);
      SkipShift(b, i + k, c, j + k, n - k, NotNewline);
    } else if b[i + k] != ']' && b[i + k] != ',' {
      ItemShift(b, i + k, c, j + k, i, j, n);
    }
  }

  /** The part of a turn that reads an item at i. */
  lemma ItemShift(b: string, i: nat, c: string, j: nat, start: nat, start': nat, n: nat)
    requires Guarded(b) && Guarded(c) && start <= i < |b| && start' <= j && i - start == j - start'
    requires Same(b, start, c, start', n) && start' + n < |c| && !IsSpace(b[i])
    requires Extract(b, i, true).Ok?
    requires var m := Skip(b, Extract(b, i, true).next, IsWs); m < start + n && Stops(b[m], true)
    requires var m := Skip(b, Extract(b, i, true).next, IsWs); b[m] == '#' ==> Skip(b, m, NotNewline) < start + n
    ensures b[i] == c[j]
    ensures var m := Skip(b, Extract(b, i, true).next, IsWs);
            && Extract(c, j, true) == Ok(Extract(b, i, true).value, start' + (Extract(b, i, true).next - start))
            && Skip(c, start' + (Extract(b, i, true).next - start), IsWs) == start' + (m - start)
            && c[start' + (m - start)] == b[m]
            && (b[m] == '#' ==> Skip(c, start' + (m - start), NotNewline) == start' + (Skip(b, m, NotNewline) - start))
  {
    hide Extract, SkipWhile, Same;
    var v := Extract(b, i, true).next - start;
    var m := Skip(b, start + v, IsWs) - start;
    SamePart(b, start, c, start', n, v, n);
    SkipShift(b, start + v, c, start' + v, n - v, IsWs);
    SameIndex(b, start, c, start', n, m);
    SamePart(b, start, c, start', n, i - start, v);
    ExtractShift(b, i, c, j, true);
    if b[start + m] == '#' {
      SamePart(b, start, c, start', n, m, n);
      SkipShift(b, start + m, c, start' + m, n - m, NotNewline);
    }
  }

  lemma {:induction false} ItemsShift(b: string, i: nat, c: string, j: nat)
    requires Guarded(b) && Guarded(c) && i <= |b| && Items(b, i).Ok?
    requires var n := Items(b, i).next - i; Same(b, i, c, j, n) && j + n < |c|
    ensures Items(c, j) == Ok(Items(b, i).value, j + (Items(b, i).next - i))
    decreases |b| - i
  {
    hide ItemTurn, Same;
    var n, t := Items(b, i).next - i, ItemTurn(b, i);
    ItemTurnShift(b, i, c, j, n);
    if t.Pass? || t.Item? {
      SamePart(b, i, c, j, n, t.next - i, n);
      ItemsShift(b, t.next, c, j + (t.next - i));
    }
  }

  // ----- spans

  /** The text of a value, alone on its line. */
  function Alone(b: string, beg: nat, end: nat): string
    requires beg <= end <= |b|
  {
    b[beg..end] + "\n"
  }

  /** Reading the text of a value alone gives the same value. */
  lemma ValueAlone(b: string, i: nat)
    requires Guarded(b) && i < |b| && !IsWs(b[i]) && Value(b, i).Ok?
    ensures var c := Alone(b, i, Value(b, i).next);
            !IsWs(c[0]) && Value(c, 0) == Ok(Value(b, i).value, Value(b, i).next - i)
  {
    hide Items, Extract;
    var n := Value(b, i).next - i;
    var c := Alone(b, i, i + n);
    assert Same(b, i, c, 0, n);
    if n > 0 {
      SameIndex(b, i, c, 0, n, 0);
    }
    if b[i] == '[' {
      SamePart(b, i, c, 0, n, 1, n);
      ItemsShift(b, i + 1, c, 1);
    } else if b[i] != '\n' && b[i] != '#' {
      assert c[n] == '\n';
      assert SkipWhile(c, n, IsWs) == n;
      ExtractShift(b, i, c, 0, false);
    }
  }

  ghost predicate SpanOk(b: string, e: Entry) {
    && e.beg <= e.end < |b|
    && var c := Alone(b, e.beg, e.end);
       !IsWs(c[0]) && Value(c, 0) == Ok(e.value, e.end - e.beg)
  }

  lemma DirectiveSpan(b: string, i: nat)
    requires Guarded(b) && i < |b| && Directive(b, i).Assign?
    ensures SpanOk(b, Directive(b, i).entry)
  {
    hide Value;
    ValueAlone(b, Directive(b, i).entry.beg);
  }

  /** For every file and every assignment loaded from it, the text in the variable's span, read alone as
      a value, gives the scalar or array that was loaded. */
  lemma {:induction false} SpansReparse(b: string, i: nat)
    requires i <= |b| && (i < |b| ==> Guarded(b))
    ensures forall k :: 0 <= k < |Load(b, i).entries| ==> SpanOk(b, Load(b, i).entries[k])
    decreases |b| - i
  {
    hide Directive, SpanOk;
    if i < |b| {
      var d := Directive(b, i);
      if !d.Fail? {
        SpansReparse(b, d.next);
      }
      if d.Assign? {
        DirectiveSpan(b, i);
      }
    }
  }

  // ----- an array that is broken off

  /** Where the broken array from i on could have been closed: before the value that cannot be read, or after
      the last item. */
  function CutAt(b: string, i: nat): nat
    requires Guarded(b) && i <= |b| && Items(b, i).Bad?
    decreases |b| - i
  {
    match ItemTurn(b, i)
    case Wrong(read, at) => if read == [] then SkipWhile(b, i, IsSpace) else at
    case Pass(next) => CutAt(b, next)
    case Item(_, next) => CutAt(b, next)
  }

  function Closed(b: string, e: nat): string
    requires e <= |b|
  {
    b[..e] + "]\n"
  }

  lemma BrokenTurn(b: string, i: nat)
    requires Guarded(b) && i <= |b| && ItemTurn(b, i).Wrong?
    ensures var t := ItemTurn(b, i);
            var e := if t.read == [] then SkipWhile(b, i, IsSpace) else t.at;
            && i <= e <= |b| && (e < |b| ==> !IsWs(b[e]) && b[e] != '\n')
            && ItemTurn(Closed(b, e), i) == (if t.read == [] then Close(e + 1) else LastItem(t.read[0], e + 1))
            && (t.read != [] ==> t.read == [t.read[0]])
  {
    hide Extract, SkipWhile;
    var t := ItemTurn(b, i);
    var j := SkipWhile(b, i, IsSpace);
    SkipWhileAll(b, i, IsSpace);
    if t.read == [] {
      var c := Closed(b, j);
      SkipWhileIs(c, i, j, IsSpace);
    } else {
      BrokenItem(b, i, j);
    }
  }

  lemma BrokenItem(b: string, i: nat, j: nat)
    requires Guarded(b) && i <= j < |b| && j == SkipWhile(b, i, IsSpace) && Extract(b, j, true).Ok?
    requires b[j] != ']' && b[j] != '#' && b[j] != ','
    requires !Stops(b[Skip(b, Extract(b, j, true).next, IsWs)], true)
    ensures var e := Skip(b, Extract(b, j, true).next, IsWs);
            !IsWs(b[e]) && ItemTurn(Closed(b, e), i) == LastItem(Extract(b, j, true).value, e + 1)
  {
    hide Extract, SkipWhile;
    var n := Extract(b, j, true).next;
    var e := Skip(b, n, IsWs);
    var c := Closed(b, e);
    SkipWhileAll(b, i, IsSpace);
    SkipWhileAll(b, n, IsWs);
    SkipWhileIs(c, i, j, IsSpace);
    SkipWhileIs(c, n, e, IsWs);
    assert Same(b, j, c, j, n - j);
    ExtractShift(b, j, c, j, true);
  }

  /** The items read before an error are those of the array closed at that point. */
  lemma {:induction false} BrokenItems(b: string, i: nat)
    requires Guarded(b) && i <= |b| && Items(b, i).Bad?
    ensures i <= CutAt(b, i) <= |b| && (CutAt(b, i) < |b| ==> b[CutAt(b, i)] != '\n')
    ensures Items(Closed(b, CutAt(b, i)), i) == Ok(ItemsRead(b, i), CutAt(b, i) + 1)
    decreases |b| - i
  {
    hide ItemTurn, SkipWhile;
    var t, e := ItemTurn(b, i), CutAt(b, i);
    if t.Wrong? {
      BrokenTurn(b, i);
    } else {
      BrokenItems(b, t.next);
      var c := Closed(b, e);
      assert Same(b, i, c, i, e - i);
      ItemTurnShift(b, i, c, i, e - i);
    }
  }

  /** After an error in an array the variable holds the array that closing the bracket at that point gives. */
  lemma HalfArray(b: string, i: nat)
    requires Guarded(b) && i < |b| && b[i] == '[' && Value(b, i).Bad?
    ensures i < CutAt(b, i + 1) <= |b|
    ensures var c := Closed(b, CutAt(b, i + 1));
            i < |c| && c[i] == '[' && Value(c, i) == Ok(HalfValue(b, i), CutAt(b, i + 1) + 1)
  {
    hide Items, ItemsRead, CutAt;
    BrokenItems(b, i + 1);
  }

  const UNKNOWN_SEQUENCE := "a: ['x' y]\n"

  lemma UnknownSequenceTurn()
    ensures ItemTurn(UNKNOWN_SEQUENCE, 4) == Wrong(["x"], 8)
  {
    hide SkipWhile, Double, Literal;
    var b := UNKNOWN_SEQUENCE;
    SkipWhileIs(b, 4, 4, IsSpace);
    SkipWhileIs(b, 7, 8, IsWs);
    assert Single(b, 6) == Ok([], 7);
    PrependNothing("x", Ok([], 7), 7);
    assert b[5] == 'x' && Single(b, 5) == Ok("x", 7);
  }

  lemma UnknownSequenceName()
    ensures Directive(UNKNOWN_SEQUENCE, 0) == Assignment(UNKNOWN_SEQUENCE, "a", 3)
  {
    hide SkipWhile, Value, HalfValue;
    var b := UNKNOWN_SEQUENCE;
    SkipWhileIs(b, 0, 0, IsWs);
    SkipWhileIs(b, 0, 1, IsName);
    SkipWhileIs(b, 1, 1, IsWs);
    SkipWhileIs(b, 2, 3, IsWs);
    assert b[0..1] == "a";
  }

  /** An unknown sequence after an item: the item stays in the array. */
  lemma UnknownSequenceKeepsItem()
    ensures Load(UNKNOWN_SEQUENCE, 0) == Loaded([], Fail(8, Half("a", Array(["x"]), 3)))
  {
    hide ItemTurn, SkipWhile, Extract, Directive;
    UnknownSequenceName();
    UnknownSequenceTurn();
  }

  // ----- look-up

  lemma AppliedLast(vars: map<string, Variable>, entries: seq<Entry>, loadAll: bool)
    requires entries != []
    ensures var n := |entries| - 1;
            var before, e := Applied(vars, entries[..n], loadAll), entries[n];
            Applied(vars, entries, loadAll) == if loadAll || e.name in before then before[e.name := VariableOf(e)] else before
  {
    hide Applied;
    var n := |entries| - 1;
    assert entries == entries[..n] + [entries[n]];
    AppliedSnoc(vars, entries[..n], entries[n], loadAll);
  }

  /** A name that is not assigned, or is unknown and not loaded, is as before. */
  lemma {:induction false} OthersKept(vars: map<string, Variable>, entries: seq<Entry>, loadAll: bool, name: string)
    requires (!loadAll && name !in vars) || forall j :: 0 <= j < |entries| ==> entries[j].name != name
    ensures var after := Applied(vars, entries, loadAll);
            (name in after <==> name in vars) && (name in vars ==> after[name] == vars[name])
    decreases |entries|
  {
    hide Applied, VariableOf;
    if entries == [] {
      AppliedNothing(vars, loadAll);
    } else {
      OthersKept(vars, entries[..|entries| - 1], loadAll, name);
      AppliedLast(vars, entries, loadAll);
    }
  }

  /** After loading, a variable is set to the last value assigned to its name, and it is a string or an array
      as that value is. */
  lemma {:induction false} LastWins(vars: map<string, Variable>, entries: seq<Entry>, loadAll: bool, k: nat)
    requires k < |entries| && (loadAll || entries[k].name in vars)
    requires forall j :: k < j < |entries| ==> entries[j].name != entries[k].name
    ensures entries[k].name in Applied(vars, entries, loadAll)
    ensures var e := entries[k];
            var v := Applied(vars, entries, loadAll)[e.name];
            && v.isSet && v.beg == e.beg && v.end == e.end
            && (e.value.Scalar? ==> !v.isArray && v.str == e.value.s)
            && (e.value.Array? ==> v.isArray && v.arr == e.value.items)
    decreases |entries|
  {
    hide Applied;
    var n := |entries| - 1;
    AppliedLast(vars, entries, loadAll);
    if k < n {
      LastWins(vars, entries[..n], loadAll, k);
    } else if !loadAll {
      KnownStays(vars, entries[..n], loadAll, entries[n].name);
    }
  }

  lemma {:induction false} KnownStays(vars: map<string, Variable>, entries: seq<Entry>, loadAll: bool, name: string)
    requires name in vars
    ensures name in Applied(vars, entries, loadAll)
    decreases |entries|
  {
    hide Applied, VariableOf;
    if entries == [] {
      AppliedNothing(vars, loadAll);
    } else {
      KnownStays(vars, entries[..|entries| - 1], loadAll, name);
      AppliedLast(vars, entries, loadAll);
    }
  }
}
