/**
  The configuration file parser: lines of comments and assignments whose value is a scalar or an array,
  each variable keeping the span of text its value came from.
 */
module ConfigFile {
  import opened Ctype
  import opened ConfigValue

  datatype Val = Scalar(s: string) | Array(items: seq<string>)

  predicate NotNewline(c: char) { c != '\n' }

  predicate IsName(c: char) { IsAlnum(c) || c == '-' || c == '_' || c == '.' }

  // ----- specification

  function Cons(s: string, p: Parsed<seq<string>>): (r: Parsed<seq<string>>)
    ensures r.Ok? == p.Ok? && (p.Ok? ==> r.next == p.next)
  {
    if p.Ok? then Ok([s] + p.value, p.next) else p
  }

  /** In a guarded buffer, white space other than newlines, names and comments always end somewhere. */
  lemma {:induction false} SkipStops(b: string, i: nat, f: char -> bool)
    requires Guarded(b) && i < |b| && !f('\n')
    ensures SkipWhile(b, i, f) < |b|
    decreases |b| - i
  {
    if f(b[i]) {
      SkipStops(b, i + 1, f);
    }
  }

  function Skip(b: string, i: nat, f: char -> bool): (r: nat)
    requires Guarded(b) && i < |b| && !f('\n')
    ensures i <= r < |b| && r == SkipWhile(b, i, f) && !f(b[r])
  {
    SkipStops(b, i, f);
    SkipWhile(b, i, f)
  }

  /** One turn of the loop over the items of an array; read holds the item stored before the error, if any. */
  datatype Turn = Close(next: nat) | Pass(next: nat) | Item(s: string, next: nat) | LastItem(s: string, next: nat) | Wrong(read: seq<string>, at: nat)

  function ItemTurn(b: string, i: nat): (t: Turn)
    requires Guarded(b) && i <= |b|
    ensures !t.Wrong? ==> i < t.next <= |b|
    ensures t.Close? || t.LastItem? ==> t.next < |b|
  {
    var j := SkipWhile(b, i, IsSpace);
    if j == |b| then Wrong([], j)
    else if b[j] == ']' then Close(j + 1)
    else if b[j] == '#' then Pass(Skip(b, j, NotNewline))
    else if b[j] == ',' then Pass(j + 1)
    else
      var v := Extract(b, j, true);
      if v.Bad? then Wrong([], v.at)
      else
        var m := Skip(b, v.next, IsWs);
        if b[m] == ',' || b[m] == '\n' then Item(v.value, m + 1)
        else if b[m] == '#' then Item(v.value, Skip(b, m, NotNewline))
        else if b[m] == ']' then LastItem(v.value, m + 1)
        else Wrong([v.value], m)
  }

  /** The items of an array from after its opening bracket; next is the position after the closing one. */
  function Items(b: string, i: nat): (r: Parsed<seq<string>>)
    requires Guarded(b) && i <= |b|
    ensures r.Ok? ==> i < r.next < |b|
    decreases |b| - i
  {
    match ItemTurn(b, i)
    case Wrong(_, at) => Bad(at)
    case Close(next) => Ok([], next)
    case Pass(next) => Items(b, next)
    case Item(s, next) => Cons(s, Items(b, next))
    case LastItem(s, next) => Ok([s], next)
  }

  /** The items that are read before the closing bracket or the error. */
  function ItemsRead(b: string, i: nat): seq<string>
    requires Guarded(b) && i <= |b|
    decreases |b| - i
  {
    match ItemTurn(b, i)
    case Wrong(read, _) => read
    case Close(_) => []
    case Pass(next) => ItemsRead(b, next)
    case Item(s, next) => [s] + ItemsRead(b, next)
    case LastItem(s, _) => [s]
  }

  lemma {:induction false} ItemsAreRead(b: string, i: nat)
    requires Guarded(b) && i <= |b|
    ensures Items(b, i).Ok? ==> Items(b, i).value == ItemsRead(b, i)
    decreases |b| - i
  {
    hide ItemTurn;
    match ItemTurn(b, i)
    case Pass(next) => ItemsAreRead(b, next);
    case Item(_, next) => ItemsAreRead(b, next);
    case _ =>
  }

  function Value(b: string, i: nat): (r: Parsed<Val>)
    requires Guarded(b) && i < |b| && !IsWs(b[i])
    ensures r.Ok? ==> i <= r.next < |b|
  {
    if b[i] == '[' then
      var r := Items(b, i + 1);
      if r.Ok? then Ok(Array(r.value), r.next) else Bad(r.at)
    else if b[i] == '\n' || b[i] == '#' then Ok(Scalar([]), i)
    else
      var r := Extract(b, i, false);
      if r.Ok? then Ok(Scalar(r.value), r.next) else Bad(r.at)
  }

  /** An assignment and the span of its value. */
  datatype Entry = Entry(name: string, value: Val, beg: nat, end: nat)

  /** How much of an assignment took place before an error. */
  datatype Left = Nothing | Half(name: string, value: Val, beg: nat) | Full(entry: Entry)

  /** What one turn of the main loop finds. */
  datatype Line = Blank(next: nat) | Assign(entry: Entry, next: nat) | Fail(at: nat, left: Left)

  function Directive(b: string, i: nat): (r: Line)
    requires Guarded(b) && i < |b|
    ensures !r.Fail? ==> i < r.next <= |b|
  {
    var j := Skip(b, i, IsWs);
    if b[j] == '\n' then Blank(j + 1)
    else if b[j] == '#' then Blank(Skip(b, j, NotNewline) + 1)
    else
      var k := Skip(b, j, IsName);
      if k == j then Fail(j, Nothing)
      else
        var m := Skip(b, k, IsWs);
        if b[m] != '=' && b[m] != ':' then Fail(m, Nothing)
        else Assignment(b, b[j..k], Skip(b, m + 1, IsWs))
  }

  /** An assignment whose value begins at i. */
  function Assignment(b: string, name: string, i: nat): (r: Line)
    requires Guarded(b) && i < |b| && !IsWs(b[i])
    ensures !r.Fail? ==> i <= r.next <= |b|
  {
    var v := Value(b, i);
    if v.Bad? then Fail(v.at, Half(name, HalfValue(b, i), i))
    else
      var w := Skip(b, v.next, IsWs);
      if b[w] == '#' then Assign(Entry(name, v.value, i, v.next), Skip(b, w, NotNewline))
      else if b[w] == '\n' then Assign(Entry(name, v.value, i, v.next), w + 1)
      else Fail(w, Full(Entry(name, v.value, i, v.next)))
  }

  /** What a variable holds when reading its value fails. */
  function HalfValue(b: string, i: nat): Val
    requires Guarded(b) && i < |b|
  {
    if b[i] == '[' then Array(ItemsRead(b, i + 1)) else Scalar([])
  }

  /** The assignments of a whole file in order, up to the first error. */
  datatype Loaded = Loaded(entries: seq<Entry>, error: Line)

  function Load(b: string, i: nat): (r: Loaded)
    requires i <= |b| && (i < |b| ==> Guarded(b))
    ensures r.error.Fail? || r.error == Blank(|b|)
    decreases |b| - i
  {
    if i == |b| then Loaded([], Blank(|b|))
    else
      var d := Directive(b, i);
      match d
      case Fail(_, _) => Loaded([], d)
      case Blank(next) => Load(b, next)
      case Assign(entry, next) =>
        var rest := Load(b, next);
        Loaded([entry] + rest.entries, rest.error)
  }

  // ----- the loops

  method ReadItem(b: string, pos: nat) returns (t: Turn)
    requires Guarded(b) && pos <= |b|
    ensures t == ItemTurn(b, pos)
  {
    hide Extract, SkipWhile;
    var i := RemoveLeading(b, pos, IsSpace);
    if i == |b| {
      return Wrong([], i);
    }
    if b[i] == ']' {
      return Close(i + 1);
    }
    if b[i] == '#' {
      i := RemoveLeading(b, i, NotNewline);
      return Pass(i);
    }
    if b[i] == ',' {
      return Pass(i + 1);
    }
    var v := ExtractValue(b, i, true);
    if v.Bad? {
      return Wrong([], v.at);
    }
    SkipStops(b, v.next, IsWs);
    i := RemoveLeading(b, v.next, IsWs);
    if b[i] == ',' || b[i] == '\n' {
      return Item(v.value, i + 1);
    }
    if b[i] == '#' {
      i := RemoveLeading(b, i, NotNewline);
      return Item(v.value, i);
    }
    if b[i] == ']' {
      return LastItem(v.value, i + 1);
    }
    return Wrong([v.value], i);
  }

  method ReadArray(b: string, pos: nat) returns (r: Parsed<seq<string>>, items: seq<string>)
    requires Guarded(b) && pos <= |b|
    ensures r == Items(b, pos) && items == ItemsRead(b, pos)
  {
    hide ItemTurn;
    items := [];
    var i := pos;
    ConcatNothing(Items(b, pos));
    assert [] + ItemsRead(b, pos) == ItemsRead(b, pos);
    while true
      invariant pos <= i <= |b| && Items(b, pos) == Concat(items, Items(b, i))
      invariant ItemsRead(b, pos) == items + ItemsRead(b, i)
      decreases |b| - i
    {
      var t := ReadItem(b, i);
      match t {
        case Wrong(read, at) =>
          return Bad(at), items + read;
        case Close(next) =>
          ConcatOk(items, [], next);
          return Ok(items, next), items;
        case Pass(next) =>
          i := next;
        case Item(s, next) =>
          ConcatCons(items, s, Items(b, next));
          assert items + ([s] + ItemsRead(b, next)) == (items + [s]) + ItemsRead(b, next);
          items := items + [s];
          i := next;
        case LastItem(s, next) =>
          ConcatOk(items, [s], next);
          return Ok(items + [s], next), items + [s];
      }
    }
  }

  ghost function Concat(items: seq<string>, p: Parsed<seq<string>>): Parsed<seq<string>> {
    if p.Ok? then Ok(items + p.value, p.next) else p
  }

  lemma ConcatNothing(p: Parsed<seq<string>>)
    ensures Concat([], p) == p
  {
    if p.Ok? {
      assert [] + p.value == p.value;
    }
  }

  lemma ConcatCons(items: seq<string>, s: string, p: Parsed<seq<string>>)
    ensures Concat(items, Cons(s, p)) == Concat(items + [s], p)
  {
    if p.Ok? {
      assert items + ([s] + p.value) == (items + [s]) + p.value;
    }
  }

  lemma ConcatOk(items: seq<string>, more: seq<string>, next: nat)
    ensures Concat(items, Ok(more, next)) == Ok(items + more, next)
    ensures items + [] == items
  {
  }

  /** Reads a value; held is what the variable holds when that fails. */
  method ReadValue(b: string, i: nat) returns (r: Parsed<Val>, held: Val)
    requires Guarded(b) && i < |b| && !IsWs(b[i])
    ensures r == Value(b, i) && held == HalfValue(b, i)
  {
    hide Extract, Items, ItemsRead;
    if b[i] != '[' {
      held := Scalar([]);
      if b[i] == '\n' || b[i] == '#' {
        return Ok(Scalar([]), i), held;
      }
      var v := ExtractValue(b, i, false);
      r := if v.Ok? then Ok(Scalar(v.value), v.next) else Bad(v.at);
    } else {
      var v, items := ReadArray(b, i + 1);
      held := Array(items);
      r := if v.Ok? then Ok(Array(v.value), v.next) else Bad(v.at);
    }
  }

  method ReadAssignment(b: string, name: string, i: nat) returns (d: Line)
    requires Guarded(b) && i < |b| && !IsWs(b[i])
    ensures d == Assignment(b, name, i)
  {
    hide Value, HalfValue, SkipWhile;
    var v, held := ReadValue(b, i);
    if v.Bad? {
      return Fail(v.at, Half(name, held, i));
    }
    var entry := Entry(name, v.value, i, v.next);
    SkipStops(b, v.next, IsWs);
    var w := RemoveLeading(b, v.next, IsWs);
    if b[w] == '#' {
      w := RemoveLeading(b, w, NotNewline);
      return Assign(entry, w);
    }
    if b[w] != '\n' {
      return Fail(w, Full(entry));
    }
    return Assign(entry, w + 1);
  }

  /** One turn of the main loop. */
  method ReadDirective(b: string, pos: nat) returns (d: Line)
    requires Guarded(b) && pos < |b|
    ensures d == Directive(b, pos)
  {
    hide Assignment, SkipWhile;
    SkipStops(b, pos, IsWs);
    var i := RemoveLeading(b, pos, IsWs);
    if b[i] == '\n' {
      return Blank(i + 1);
    }
    if b[i] == '#' {
      i := RemoveLeading(b, i, NotNewline);
      return Blank(i + 1);
    }
    SkipStops(b, i, IsName);
    var k := RemoveLeading(b, i, IsName);
    if k == i {
      return Fail(i, Nothing);
    }
    SkipStops(b, k, IsWs);
    var m := RemoveLeading(b, k, IsWs);
    if b[m] != '=' && b[m] != ':' {
      return Fail(m, Nothing);
    }
    SkipStops(b, m + 1, IsWs);
    var v := RemoveLeading(b, m + 1, IsWs);
    d := ReadAssignment(b, b[i..k], v);
  }

  datatype Variable = Variable(isSet: bool, isArray: bool, str: string, arr: seq<string>, beg: nat, end: nat)

  function VariableOf(e: Entry): Variable {
    match e.value
    case Scalar(s) => Variable(true, false, s, [], e.beg, e.end)
    case Array(items) => Variable(true, true, [], items, e.beg, e.end)
  }

  /** Variables after the assignments in entries; without loadAll only known ones are assigned. */
  function Applied(vars: map<string, Variable>, entries: seq<Entry>, loadAll: bool): map<string, Variable>
    decreases entries
  {
    if entries == [] then vars
    else Applied(if loadAll || entries[0].name in vars then vars[entries[0].name := VariableOf(entries[0])] else vars,
                 entries[1..], loadAll)
  }

  lemma AppliedNothing(vars: map<string, Variable>, loadAll: bool)
    ensures Applied(vars, [], loadAll) == vars
  {
  }

  lemma {:induction false} AppliedSnoc(vars: map<string, Variable>, entries: seq<Entry>, e: Entry, loadAll: bool)
    ensures Applied(vars, entries + [e], loadAll) ==
            var before := Applied(vars, entries, loadAll);
            if loadAll || e.name in before then before[e.name := VariableOf(e)] else before
    decreases entries
  {
    if entries == [] {
      assert entries + [e] == [e] && [e][1..] == [];
    } else {
      var vars' := if loadAll || entries[0].name in vars then vars[entries[0].name := VariableOf(entries[0])] else vars;
      assert (entries + [e])[1..] == entries[1..] + [e];
      AppliedSnoc(vars', entries[1..], e, loadAll);
    }
  }

  /** The variable of an assignment that failed in its value: the span keeps the end of the old value. */
  function HalfVariable(vars: map<string, Variable>, name: string, value: Val, beg: nat): Variable {
    VariableOf(Entry(name, value, beg, if name in vars then vars[name].end else 0))
  }

  /** What the faulty line itself leaves behind. */
  function AfterError(vars: map<string, Variable>, left: Left, loadAll: bool): map<string, Variable> {
    match left
    case Nothing => vars
    case Half(name, value, beg) =>
      if loadAll || name in vars then vars[name := HalfVariable(vars, name, value, beg)] else vars
    case Full(e) => if loadAll || e.name in vars then vars[e.name := VariableOf(e)] else vars
  }

  /** Up to position i the file b consists of the assignments in done. */
  ghost predicate ReadTo(b: string, done: seq<Entry>, i: nat) {
    && i <= |b| && Guarded(b)
    && Load(b, 0) == Loaded(done + Load(b, i).entries, Load(b, i).error)
  }

  lemma StartReading(b: string)
    requires Guarded(b)
    ensures ReadTo(b, [], 0)
  {
    assert [] + Load(b, 0).entries == Load(b, 0).entries;
  }

  lemma ReadOn(b: string, done: seq<Entry>, i: nat)
    requires ReadTo(b, done, i) && i < |b|
    ensures var d := Directive(b, i);
            && (d.Fail? ==> Load(b, 0) == Loaded(done, d))
            && (d.Blank? ==> ReadTo(b, done, d.next))
            && (d.Assign? ==> ReadTo(b, done + [d.entry], d.next))
  {
    hide Directive;
    var d := Directive(b, i);
    assert done + [] == done;
    if d.Assign? {
      assert done + ([d.entry] + Load(b, d.next).entries) == (done + [d.entry]) + Load(b, d.next).entries;
    }
  }

  lemma EndReading(b: string, done: seq<Entry>)
    requires ReadTo(b, done, |b|)
    ensures Load(b, 0) == Loaded(done, Blank(|b|))
  {
    assert done + [] == done;
  }

  class ConfigFile {
    var vars: map<string, Variable>

    constructor ()
      ensures vars == map[]
    {
      vars := map[];
    }

    /** Loads the assignments of config. After a parse error the variables are those before the faulty
        line, except for the variable that this line assigns, which holds what had been read of it. */
    method LoadConfigFromString(config: string, loadAll: bool) returns (ok: bool)
      modifies this
      ensures var l := Load(config + "\n", 0);
              && (ok <==> !l.error.Fail?)
              && vars == (if ok then Applied(old(vars), l.entries, loadAll)
                          else AfterError(Applied(old(vars), l.entries, loadAll), l.error.left, loadAll))
    {
      hide Directive, Applied, VariableOf, AfterError, Load, ReadTo;
      AppliedNothing(vars, loadAll);
      var b := config + "\n";
      ghost var done: seq<Entry> := [];
      var i := 0;
      StartReading(b);
      while i < |b|
        invariant 0 <= i <= |b| && vars == Applied(old(vars), done, loadAll) && ReadTo(b, done, i)
        decreases |b| - i
      {
        var d := ReadDirective(b, i);
        ReadOn(b, done, i);
        match d {
          case Fail(_, left) =>
            KeepLeft(left, loadAll);
            return false;
          case Blank(next) =>
            i := next;
          case Assign(entry, next) =>
            AppliedSnoc(old(vars), done, entry, loadAll);
            if loadAll || entry.name in vars {
              vars := vars[entry.name := VariableOf(entry)];
            }
            done := done + [entry];
            i := next;
        }
      }
      EndReading(b, done);
      ok := true;
    }

    /** The assignments to the variable that took place before the error. */
    method KeepLeft(left: Left, loadAll: bool)
      modifies this
      ensures vars == AfterError(old(vars), left, loadAll)
    {
      match left {
        case Nothing =>
        case Half(name, value, beg) =>
          if loadAll || name in vars {
            vars := vars[name := HalfVariable(vars, name, value, beg)];
          }
        case Full(entry) =>
          if loadAll || entry.name in vars {
            vars := vars[entry.name := VariableOf(entry)];
          }
      }
    }
  }
}
