/**
  Printing configuration files: any sequence of printed lines, whose values are strings, arrays on one line or
  arrays with a line for each item, loads as exactly these assignments, unless a NUL byte is printed.
 */
module ConfigPrint {
  import opened Ctype
  import opened ConfigValue
  import opened ConfigFile

  // ----- arrays on one line

  predicate AllBytes(items: seq<string>) { forall k :: 0 <= k < |items| ==> IsBytes(items[k]) }

  /** Items that come back when they are printed and read. */
  predicate NulFree(items: seq<string>) { forall k :: 0 <= k < |items| ==> NUL !in items[k] }

  /** Items as Simfile::dump() writes them between brackets. */
  function Joined(items: seq<string>, f: char -> bool): string
    requires AllBytes(items)
  {
    if items == [] then []
    else if |items| == 1 then Escaped(items[0], f)
    else Escaped(items[0], f) + ", " + Joined(items[1..], f)
  }

  lemma EscapedStart(s: string, f: char -> bool)
    requires IsBytes(s)
    ensures var t := Escaped(s, f);
            t != [] && !IsSpace(t[0]) && t[0] != '[' && t[0] != ']' && t[0] != ',' && t[0] != '#'
  {
  }

  /** One printed item, followed by a comma, a newline or the closing bracket. */
  lemma PrintedItemTurn(b: string, i: nat, s: string, f: char -> bool)
    requires Guarded(b) && IsBytes(s) && f('\n') && f(NUL)
    requires var n := i + |Escaped(s, f)|; At(b, i, Escaped(s, f)) && n < |b| && (b[n] == ',' || b[n] == '\n' || b[n] == ']')
    ensures var n := i + |Escaped(s, f)|;
            if NUL in s then ItemTurn(b, i).Wrong?
            else ItemTurn(b, i) == if b[n] == ']' then LastItem(s, n + 1) else Item(s, n + 1)
  {
    hide Extract, Escaped;
    EscapedStart(s, f);
    AtIndex(b, i, Escaped(s, f), 0);
    RoundTrip(b, i, s, f, true);
  }

  lemma SpaceTurn(b: string, i: nat)
    requires Guarded(b) && i < |b| && IsSpace(b[i])
    ensures ItemTurn(b, i) == ItemTurn(b, i + 1) && Items(b, i) == Items(b, i + 1)
  {
    hide Extract;
  }

  lemma NulFreeSplit(items: seq<string>)
    ensures items == [] ==> NulFree(items)
    ensures items != [] ==> (NulFree(items) <==> NUL !in items[0] && NulFree(items[1..]))
  {
    if items != [] {
      assert items == [items[0]] + items[1..];
    }
  }

  lemma ItemsStep(b: string, i: nat)
    requires Guarded(b) && i <= |b|
    ensures var t := ItemTurn(b, i);
            && (t.Wrong? ==> Items(b, i).Bad?)
            && (t.Item? ==> Items(b, i) == Cons(t.s, Items(b, t.next)))
            && (t.LastItem? ==> Items(b, i) == Ok([t.s], t.next))
  {
    hide ItemTurn;
  }

  lemma ItemThenMore(b: string, i: nat, s: string, f: char -> bool)
    requires Guarded(b) && IsBytes(s) && f('\n') && f(NUL)
    requires At(b, i, Escaped(s, f) + ", ") && i + |Escaped(s, f)| + 2 < |b|
    ensures if NUL in s then Items(b, i).Bad? else Items(b, i) == Cons(s, Items(b, i + |Escaped(s, f)| + 2))
  {
    hide ItemTurn, Items, Escaped, At;
    var n := i + |Escaped(s, f)|;
    AtSplit(b, i, Escaped(s, f), ", ");
    AtIndex(b, n, ", ", 0);
    AtIndex(b, n, ", ", 1);
    PrintedItemTurn(b, i, s, f);
    ItemsStep(b, i);
    SpaceTurn(b, n + 1);
  }

  lemma ItemThenEnd(b: string, i: nat, s: string, f: char -> bool)
    requires Guarded(b) && IsBytes(s) && f('\n') && f(NUL)
    requires At(b, i, Escaped(s, f) + "]") && i + |Escaped(s, f)| + 1 < |b|
    ensures if NUL in s then Items(b, i).Bad? else Items(b, i) == Ok([s], i + |Escaped(s, f)| + 1)
  {
    hide ItemTurn, Items, Escaped, At;
    AtSplit(b, i, Escaped(s, f), "]");
    AtIndex(b, i + |Escaped(s, f)|, "]", 0);
    PrintedItemTurn(b, i, s, f);
    ItemsStep(b, i);
  }

  lemma {:induction false} ItemsPrinted(b: string, i: nat, items: seq<string>, f: char -> bool)
    requires Guarded(b) && AllBytes(items) && f('\n') && f(NUL)
    requires At(b, i, Joined(items, f) + "]") && i + |Joined(items, f)| + 1 < |b|
    ensures if NulFree(items) then Items(b, i) == Ok(items, i + |Joined(items, f)| + 1) else Items(b, i).Bad?
    decreases items
  {
    hide Items, Escaped, At, NulFree;
    NulFreeSplit(items);
    if items == [] {
      assert Joined(items, f) + "]" == "]";
      AtIndex(b, i, "]", 0);
      EmptyArrayTurn(b, i);
    } else if |items| == 1 {
      ItemThenEnd(b, i, items[0], f);
      NulFreeSplit(items[1..]);
      assert items == [items[0]];
    } else {
      var first, rest := Escaped(items[0], f) + ", ", Joined(items[1..], f) + "]";
      assert Joined(items, f) + "]" == first + rest;
      AtSplit(b, i, first, rest);
      ItemThenMore(b, i, items[0], f);
      ItemsPrinted(b, i + |first|, items[1..], f);
      assert items == [items[0]] + items[1..];
    }
  }

  lemma EmptyArrayTurn(b: string, i: nat)
    requires Guarded(b) && i < |b| - 1 && b[i] == ']'
    ensures ItemTurn(b, i) == Close(i + 1) && Items(b, i) == Ok([], i + 1)
  {
  }

  // ----- arrays with a line for each item

  /** A line of an array: an empty one or an item. */
  datatype Row = Gap | Line(item: string)

  function RowItems(rows: seq<Row>): seq<string> {
    if rows == [] then [] else (if rows[0].Gap? then [] else [rows[0].item]) + RowItems(rows[1..])
  }

  predicate RowsOfBytes(rows: seq<Row>) { forall k :: 0 <= k < |rows| && rows[k].Line? ==> IsBytes(rows[k].item) }

  function RowText(r: Row, f: char -> bool): string
    requires r.Line? ==> IsBytes(r.item)
  {
    if r.Gap? then "\n" else "\t" + Escaped(r.item, f) + "\n"
  }

  function RowsText(rows: seq<Row>, f: char -> bool): string
    requires RowsOfBytes(rows)
  {
    if rows == [] then [] else RowText(rows[0], f) + RowsText(rows[1..], f)
  }

  lemma {:induction false} RowsPrinted(b: string, i: nat, rows: seq<Row>, f: char -> bool)
    requires Guarded(b) && RowsOfBytes(rows) && f('\n') && f(NUL)
    requires At(b, i, RowsText(rows, f) + "]") && i + |RowsText(rows, f)| + 1 < |b|
    ensures if NulFree(RowItems(rows)) then Items(b, i) == Ok(RowItems(rows), i + |RowsText(rows, f)| + 1)
            else Items(b, i).Bad?
    decreases rows
  {
    hide Items, Escaped, At, NulFree, RowText;
    if rows == [] {
      NulFreeSplit([]);
      assert RowsText(rows, f) + "]" == "]";
      AtIndex(b, i, "]", 0);
      EmptyArrayTurn(b, i);
    } else {
      var first, rest := RowText(rows[0], f), RowsText(rows[1..], f) + "]";
      assert RowsText(rows, f) + "]" == first + rest;
      AtSplit(b, i, first, rest);
      RowsPrinted(b, i + |first|, rows[1..], f);
      RowPrinted(b, i, rows[0], f);
      var items := RowItems(rows[1..]);
      if rows[0].Gap? {
        assert [] + items == items;
      } else {
        NulFreeSplit(RowItems(rows));
        assert RowItems(rows)[1..] == items;
      }
    }
  }

  lemma ItemLinePrinted(b: string, i: nat, s: string, f: char -> bool)
    requires Guarded(b) && IsBytes(s) && f('\n') && f(NUL)
    requires At(b, i, "\t" + Escaped(s, f) + "\n") && i + |Escaped(s, f)| + 2 < |b|
    ensures if NUL in s then Items(b, i).Bad? else Items(b, i) == Cons(s, Items(b, i + |Escaped(s, f)| + 2))
  {
    hide ItemTurn, Items, Escaped, At;
    var text := Escaped(s, f);
    AtSplit(b, i, "\t" + text, "\n");
    AtSplit(b, i, "\t", text);
    AtIndex(b, i, "\t", 0);
    AtIndex(b, i + 1 + |text|, "\n", 0);
    SpaceTurn(b, i);
    PrintedItemTurn(b, i + 1, s, f);
    ItemsStep(b, i + 1);
  }

  lemma RowPrinted(b: string, i: nat, r: Row, f: char -> bool)
    requires Guarded(b) && (r.Line? ==> IsBytes(r.item)) && f('\n') && f(NUL)
    requires At(b, i, RowText(r, f)) && i + |RowText(r, f)| < |b|
    ensures var next := i + |RowText(r, f)|;
            if r.Gap? then Items(b, i) == Items(b, next)
            else if NUL in r.item then Items(b, i).Bad?
            else Items(b, i) == Cons(r.item, Items(b, next))
  {
    hide Items, Escaped, At;
    if r.Gap? {
      AtIndex(b, i, "\n", 0);
      SpaceTurn(b, i);
    } else {
      ItemLinePrinted(b, i, r.item, f);
    }
  }

  // ----- values

  datatype Printed = Plain(s: string) | Inline(items: seq<string>) | Listed(rows: seq<Row>)

  predicate OfBytes(p: Printed) {
    match p
    case Plain(s) => IsBytes(s)
    case Inline(items) => AllBytes(items)
    case Listed(rows) => RowsOfBytes(rows)
  }

  function ValueOf(p: Printed): Val {
    match p
    case Plain(s) => Scalar(s)
    case Inline(items) => Array(items)
    case Listed(rows) => Array(RowItems(rows))
  }

  predicate ValueNulFree(v: Val) {
    match v
    case Scalar(s) => NUL !in s
    case Array(items) => NulFree(items)
  }

  function Text(p: Printed, f: char -> bool): string
    requires OfBytes(p)
  {
    match p
    case Plain(s) => Escaped(s, f)
    case Inline(items) => "[" + Joined(items, f) + "]"
    case Listed(rows) => "[" + RowsText(rows, f) + "]"
  }

  lemma TextStart(p: Printed, f: char -> bool)
    requires OfBytes(p)
    ensures Text(p, f) != [] && !IsWs(Text(p, f)[0])
  {
    hide Escaped, Joined, RowsText;
    if p.Plain? {
      EscapedStart(p.s, f);
    }
  }

  lemma PlainPrinted(b: string, n: nat, s: string, f: char -> bool)
    requires Guarded(b) && IsBytes(s) && f('\n') && f(NUL)
    requires At(b, n, Escaped(s, f)) && n + |Escaped(s, f)| < |b| && b[n + |Escaped(s, f)|] == '\n'
    ensures n < |b| && !IsWs(b[n])
    ensures if NUL in s then Value(b, n).Bad? else Value(b, n) == Ok(Scalar(s), n + |Escaped(s, f)|)
  {
    hide Extract, Escaped, Items, At, SkipWhile;
    var text := Escaped(s, f);
    EscapedStart(s, f);
    SkipWhileIs(b, n + |text|, n + |text|, IsWs);
    AtIndex(b, n, text, 0);
    RoundTrip(b, n, s, f, false);
  }

  lemma BracketValue(b: string, n: nat)
    requires Guarded(b) && n < |b| && b[n] == '['
    ensures !IsWs(b[n]) && Value(b, n).Ok? == Items(b, n + 1).Ok?
    ensures Items(b, n + 1).Ok? ==> Value(b, n) == Ok(Array(Items(b, n + 1).value), Items(b, n + 1).next)
  {
    hide Items;
  }

  lemma Opened(b: string, n: nat, inner: string)
    requires At(b, n, "[" + inner + "]")
    ensures n < |b| && b[n] == '[' && At(b, n + 1, inner + "]")
  {
    hide At;
    assert "[" + inner + "]" == "[" + (inner + "]");
    AtSplit(b, n, "[", inner + "]");
    AtSlice(b, n, "[");
  }

  lemma ValuePrinted(b: string, n: nat, p: Printed, f: char -> bool)
    requires Guarded(b) && OfBytes(p) && f('\n') && f(NUL)
    requires At(b, n, Text(p, f)) && n + |Text(p, f)| < |b| && b[n + |Text(p, f)|] == '\n'
    ensures n < |b| && !IsWs(b[n])
    ensures if ValueNulFree(ValueOf(p)) then Value(b, n) == Ok(ValueOf(p), n + |Text(p, f)|) else Value(b, n).Bad?
  {
    hide Value, Items, Escaped, At, Joined, RowsText, NulFree, RowItems;
    match p
    case Plain(s) => PlainPrinted(b, n, s, f);
    case Inline(items) =>
      Opened(b, n, Joined(items, f));
      BracketValue(b, n);
      ItemsPrinted(b, n + 1, items, f);
    case Listed(rows) =>
      Opened(b, n, RowsText(rows, f));
      BracketValue(b, n);
      RowsPrinted(b, n + 1, rows, f);
  }

  // ----- lines

  datatype Field = Field(name: string, value: Printed)

  predicate NameOk(name: string) { name != [] && forall k :: 0 <= k < |name| ==> IsName(name[k]) }

  predicate FieldOk(d: Field) { NameOk(d.name) && OfBytes(d.value) }

  predicate FieldsOk(fields: seq<Field>) { forall k :: 0 <= k < |fields| ==> FieldOk(fields[k]) }

  /** The line that assigns text to name. */
  function AssignmentLine(name: string, text: string): string { name + ": " + text + "\n" }

  function FieldLine(d: Field, f: char -> bool): string
    requires FieldOk(d)
  {
    AssignmentLine(d.name, Text(d.value, f))
  }

  lemma AtSlice(b: string, i: nat, s: string)
    requires At(b, i, s)
    ensures i + |s| <= |b| && b[i..i + |s|] == s
    ensures forall k :: i <= k < i + |s| ==> b[k] == s[k - i]
  {
    forall k | i <= k < i + |s| ensures b[k] == s[k - i] {
      AtIndex(b, i, s, k - i);
    }
  }

  lemma LineSplits(b: string, i: nat, name: string, text: string)
    requires At(b, i, AssignmentLine(name, text))
    ensures var n := i + |name|;
            At(b, i, name) && At(b, n, ": ") && At(b, n + 2, text) && At(b, n + 2 + |text|, "\n")
  {
    hide At;
    var n := i + |name|;
    assert AssignmentLine(name, text) == name + (": " + (text + "\n"));
    AtSplit(b, i, name, ": " + (text + "\n"));
    AtSplit(b, n, ": ", text + "\n");
    AtSplit(b, n + 2, text, "\n");
  }

  lemma LineStarts(b: string, i: nat, name: string, text: string)
    requires name != [] && text != [] && At(b, i, AssignmentLine(name, text))
    ensures var n := i + |name|;
            && n + 2 + |text| < |b| && b[i..n] == name && b[n] == ':' && b[n + 1] == ' '
            && b[n + 2] == text[0] && b[n + 2 + |text|] == '\n' && At(b, n + 2, text)
            && forall k :: i <= k < n ==> b[k] == name[k - i]
  {
    hide At, AssignmentLine;
    var n := i + |name|;
    LineSplits(b, i, name, text);
    AtSlice(b, i, name);
    AtSlice(b, n, ": ");
    AtSlice(b, n + 2, text);
    AtSlice(b, n + 2 + |text|, "\n");
  }

  /** A line name: text is read as an assignment of what the text is read as. */
  lemma LineReads(b: string, i: nat, name: string, text: string)
    requires Guarded(b) && NameOk(name) && text != [] && !IsWs(text[0]) && At(b, i, AssignmentLine(name, text))
    ensures var n := i + |name| + 2;
            && i < |b| && n < |b| && !IsWs(b[n]) && (Value(b, n).Bad? ==> Directive(b, i).Fail?)
            && (Value(b, n).Ok? && Value(b, n).next == n + |text| ==>
                  Directive(b, i) == Assign(Entry(name, Value(b, n).value, n, n + |text|), n + |text| + 1))
  {
    hide Value, SkipWhile, At;
    LineStarts(b, i, name, text);
    var n := i + |name|;
    assert b[i] == name[0];
    SkipWhileIs(b, i, i, IsWs);
    SkipWhileIs(b, i, n, IsName);
    SkipWhileIs(b, n, n, IsWs);
    SkipWhileIs(b, n + 1, n + 2, IsWs);
    SkipWhileIs(b, n + 2 + |text|, n + 2 + |text|, IsWs);
  }

  function FieldsText(fields: seq<Field>, f: char -> bool): string
    requires FieldsOk(fields)
  {
    if fields == [] then [] else FieldLine(fields[0], f) + FieldsText(fields[1..], f)
  }

  /** The assignments of the printed lines, the first one beginning at position i. */
  function EntriesOf(fields: seq<Field>, f: char -> bool, i: nat): seq<Entry>
    requires FieldsOk(fields)
  {
    if fields == [] then []
    else
      var d := fields[0];
      var n := i + |d.name| + 2;
      [Entry(d.name, ValueOf(d.value), n, n + |Text(d.value, f)|)]
      + EntriesOf(fields[1..], f, i + |FieldLine(d, f)|)
  }

  predicate FieldsNulFree(fields: seq<Field>) {
    forall k :: 0 <= k < |fields| ==> ValueNulFree(ValueOf(fields[k].value))
  }

  lemma FieldsNulFreeSplit(fields: seq<Field>)
    ensures fields == [] ==> FieldsNulFree(fields)
    ensures fields != [] ==>
              (FieldsNulFree(fields) <==> ValueNulFree(ValueOf(fields[0].value)) && FieldsNulFree(fields[1..]))
  {
    hide ValueOf, ValueNulFree;
    if fields != [] {
      assert fields == [fields[0]] + fields[1..];
    }
  }

  lemma {:induction false} FieldsAt(b: string, i: nat, fields: seq<Field>, f: char -> bool)
    requires Guarded(b) && FieldsOk(fields) && f('\n') && f(NUL)
    requires At(b, i, FieldsText(fields, f)) && i + |FieldsText(fields, f)| + 1 == |b|
    ensures if FieldsNulFree(fields) then Load(b, i) == Loaded(EntriesOf(fields, f, i), Blank(|b|))
            else Load(b, i).error.Fail?
    decreases fields
  {
    hide At, Directive, Load, ValueOf, ValueNulFree, FieldsNulFree, FieldLine, Text;
    FieldsNulFreeSplit(fields);
    if fields == [] {
      LastNewline(b);
    } else {
      var first, rest := FieldLine(fields[0], f), FieldsText(fields[1..], f);
      AtSplit(b, i, first, rest);
      FieldAt(b, i, fields[0], f);
      LoadStep(b, i);
      FieldsAt(b, i + |first|, fields[1..], f);
    }
  }

  lemma LoadStep(b: string, i: nat)
    requires Guarded(b) && i < |b|
    ensures var d := Directive(b, i);
            && (d.Fail? ==> Load(b, i).error.Fail?)
            && (d.Assign? ==> Load(b, i) == Loaded([d.entry] + Load(b, d.next).entries, Load(b, d.next).error))
  {
    hide Directive;
  }

  lemma LastNewline(b: string)
    requires Guarded(b)
    ensures Load(b, |b| - 1) == Loaded([], Blank(|b|))
  {
    SkipWhileIs(b, |b| - 1, |b| - 1, IsWs);
    assert Directive(b, |b| - 1) == Blank(|b|);
  }

  lemma FieldAt(b: string, i: nat, d: Field, f: char -> bool)
    requires Guarded(b) && FieldOk(d) && f('\n') && f(NUL) && At(b, i, FieldLine(d, f))
    ensures i < |b|
    ensures var n := i + |d.name| + 2;
            if ValueNulFree(ValueOf(d.value))
            then Directive(b, i) == Assign(Entry(d.name, ValueOf(d.value), n, n + |Text(d.value, f)|), i + |FieldLine(d, f)|)
            else Directive(b, i).Fail?
  {
    hide At, Directive, Value, ValueOf, ValueNulFree, Text;
    var text := Text(d.value, f);
    TextStart(d.value, f);
    LineStarts(b, i, d.name, text);
    LineReads(b, i, d.name, text);
    ValuePrinted(b, i + |d.name| + 2, d.value, f);
  }

  /** Printed lines load as exactly these assignments in order, if and only if no NUL byte is printed; the text
      is the one load_config_from_string() reads, with the newline it appends. */
  lemma FieldsLoad(fields: seq<Field>, f: char -> bool)
    requires FieldsOk(fields) && f('\n') && f(NUL)
    ensures var b := FieldsText(fields, f) + "\n";
            && (Load(b, 0) == Loaded(EntriesOf(fields, f, 0), Blank(|b|)) <==> FieldsNulFree(fields))
            && (Load(b, 0).error.Fail? <==> !FieldsNulFree(fields))
  {
    hide Load, EntriesOf, FieldsText, FieldsNulFree;
    var text := FieldsText(fields, f);
    assert (text + "\n")[0..|text|] == text;
    FieldsAt(text + "\n", 0, fields, f);
  }

  /** The k-th assignment is the k-th line's. */
  lemma {:induction false} EntryAt(fields: seq<Field>, f: char -> bool, i: nat, k: nat)
    requires FieldsOk(fields) && k < |fields|
    ensures |EntriesOf(fields, f, i)| == |fields|
    ensures EntriesOf(fields, f, i)[k].name == fields[k].name && EntriesOf(fields, f, i)[k].value == ValueOf(fields[k].value)
    decreases fields
  {
    hide ValueOf, Text, FieldLine;
    if |fields| > 1 {
      EntryAt(fields[1..], f, i + |FieldLine(fields[0], f)|, if k == 0 then 0 else k - 1);
    }
  }
}
