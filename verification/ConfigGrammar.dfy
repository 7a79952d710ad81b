/**
  The grammar of configuration files. Its trees carry everything a file can contain, white space and comments
  included, so that a text loads if and only if it is the text of a tree, and what is loaded is the meaning
  of the tree.
 */
module ConfigGrammar {
  import opened Wrappers
  import opened Ctype
  import opened ConfigValue
  import opened ConfigFile
  import P = ConfigPrint

  predicate AllWs(s: string) { forall k :: 0 <= k < |s| ==> IsWs(s[k]) }

  // ----- characters between double quotes

  /** A character c as itself, as a backslash sequence or by its number, with digits in either case. */
  datatype Ch = Raw(c: char) | Escape(c: char) | Hex(c: char, highUpper: bool, lowUpper: bool)

  /** The letters for the characters with numbers 7 to 13. */
  const C_ESCAPES := "abtnvfr"

  function Digit(n: nat, upper: bool): char
    requires n < 16
  {
    if upper then "0123456789ABCDEF"[n] else "0123456789abcdef"[n]
  }

  predicate ChOk(h: Ch) {
    match h
    case Raw(c) => c != '\n' && c != '\"' && c != '\\'
    case Escape(c) => 7 <= c as int <= 13 || c == '\'' || c == '\"' || c == '?' || c == '\\'
    case Hex(c, _, _) => IsByte(c)
  }

  function ChText(h: Ch): string
    requires ChOk(h)
  {
    match h
    case Raw(c) => [c]
    case Escape(c) => ['\\', if 7 <= c as int <= 13 then C_ESCAPES[c as int - 7] else c]
    case Hex(c, highUpper, lowUpper) => ['\\', 'x', Digit(c as int / 16, highUpper), Digit(c as int % 16, lowUpper)]
  }

  lemma DigitReads(n: nat, upper: bool)
    requires n < 16
    ensures IsXdigit(Digit(n, upper)) && Hex2dec(Digit(n, upper)) == n
  {
  }

  lemma DigitOf(c: char) returns (upper: bool)
    requires IsXdigit(c)
    ensures Digit(Hex2dec(c), upper) == c
  {
    upper := 'A' <= c <= 'F';
    var n := Hex2dec(c);
    if n < 10 {
      assert "0123456789abcdef"[n] == ('0' as int + n) as char;
    } else {
      assert "0123456789ABCDEF"[n] == ('A' as int + (n - 10)) as char;
      assert "0123456789abcdef"[n] == ('a' as int + (n - 10)) as char;
    }
  }

  lemma ChReads(b: string, i: nat, h: Ch)
    requires Guarded(b) && ChOk(h) && At(b, i, ChText(h)) && i + |ChText(h)| < |b|
    ensures b[i] != '\n' && b[i] != '\"' && Piece(b, i) == Ok([h.c], i + |ChText(h)|)
  {
    var t := ChText(h);
    AtIndex(b, i, t, 0);
    if |t| > 1 {
      AtIndex(b, i, t, 1);
    }
    if h.Hex? {
      AtIndex(b, i, t, 2);
      AtIndex(b, i, t, 3);
      DigitReads(h.c as int / 16, h.highUpper);
      DigitReads(h.c as int % 16, h.lowUpper);
    }
  }

  lemma ChOf(b: string, i: nat) returns (h: Ch)
    requires Guarded(b) && i < |b| && b[i] != '\n' && b[i] != '\"' && Piece(b, i).Ok?
    ensures ChOk(h) && [h.c] == Piece(b, i).value && b[i..Piece(b, i).next] == ChText(h)
  {
    if b[i] != '\\' {
      h := Raw(b[i]);
    } else if b[i + 1] == 'x' {
      h := HexOf(b, i);
    } else {
      h := Escape(Unescaped(b[i + 1])[0]);
    }
  }

  lemma HexOf(b: string, i: nat) returns (h: Ch)
    requires Guarded(b) && i < |b| && b[i] == '\\' && i + 1 < |b| && b[i + 1] == 'x' && Piece(b, i).Ok?
    ensures ChOk(h) && [h.c] == Piece(b, i).value && b[i..Piece(b, i).next] == ChText(h)
  {
    var high := DigitOf(b[i + 2]);
    var low := DigitOf(b[i + 3]);
    var x, y := Hex2dec(b[i + 2]), Hex2dec(b[i + 3]);
    h := Hex((16 * x + y) as char, high, low);
    assert (16 * x + y) / 16 == x && (16 * x + y) % 16 == y;
  }

  predicate ChsOk(chs: seq<Ch>) { forall k :: 0 <= k < |chs| ==> ChOk(chs[k]) }

  function ChsText(chs: seq<Ch>): string
    requires ChsOk(chs)
  {
    if chs == [] then [] else ChText(chs[0]) + ChsText(chs[1..])
  }

  function Meant(chs: seq<Ch>): string { seq(|chs|, k requires 0 <= k < |chs| => chs[k].c) }

  lemma {:induction false} DoubleReadsText(b: string, i: nat, chs: seq<Ch>)
    requires Guarded(b) && ChsOk(chs) && At(b, i, ChsText(chs) + "\"") && i + |ChsText(chs)| + 1 < |b|
    ensures Double(b, i) == Ok(Meant(chs), i + |ChsText(chs)| + 1)
    decreases chs
  {
    hide Piece, ChText, ChOk;
    if chs == [] {
      assert ChsText(chs) + "\"" == "\"";
      AtIndex(b, i, "\"", 0);
    } else {
      var first, rest := ChText(chs[0]), ChsText(chs[1..]);
      assert ChsText(chs) + "\"" == first + (rest + "\"");
      AtSplit(b, i, first, rest + "\"");
      ChReads(b, i, chs[0]);
      DoubleReadsText(b, i + |first|, chs[1..]);
      assert Meant(chs) == [chs[0].c] + Meant(chs[1..]);
    }
  }

  lemma {:induction false} DoubleOf(b: string, i: nat) returns (chs: seq<Ch>)
    requires Guarded(b) && i < |b| && Double(b, i).Ok?
    ensures ChsOk(chs) && Meant(chs) == Double(b, i).value && b[i..Double(b, i).next] == ChsText(chs) + "\""
    decreases |b| - i
  {
    hide Piece, ChText, ChOk;
    if b[i] == '\"' {
      chs := [];
    } else {
      var n := Piece(b, i).next;
      var h := ChOf(b, i);
      var rest := DoubleOf(b, n);
      chs := [h] + rest;
      assert chs[1..] == rest;
      assert Meant(chs) == [h.c] + Meant(rest);
      assert b[i..Double(b, i).next] == b[i..n] + b[n..Double(b, i).next];
      assert ChsText(chs) + "\"" == ChText(h) + (ChsText(rest) + "\"");
    }
  }

  // ----- values

  datatype Word = Bare(s: string) | InSingle(s: string) | InDouble(chs: seq<Ch>)

  predicate WordOk(w: Word, inArray: bool) {
    match w
    case Bare(s) => BareOk(s, inArray)
    case InSingle(s) => '\n' !in s
    case InDouble(chs) => ChsOk(chs)
  }

  function WordText(w: Word, inArray: bool): string
    requires WordOk(w, inArray)
  {
    match w
    case Bare(s) => s
    case InSingle(s) => SingleQuoted(s)
    case InDouble(chs) => "\"" + ChsText(chs) + "\""
  }

  function WordValue(w: Word): string {
    match w
    case Bare(s) => s
    case InSingle(s) => s
    case InDouble(chs) => Meant(chs)
  }

  lemma BareOf(b: string, i: nat, inArray: bool) returns (w: Word)
    requires Guarded(b) && i < |b| && !IsSpace(b[i]) && b[i] != '#' && b[i] != '\'' && b[i] != '\"' && Literal(b, i, inArray).Ok?
    ensures WordOk(w, inArray) && WordText(w, inArray) == b[i..Literal(b, i, inArray).next] && WordValue(w) == Literal(b, i, inArray).value
  {
    var s := Literal(b, i, inArray).value;
    var n := i + |s|;
    assert s[0] == b[i] && s[|s| - 1] == b[n - 1];
    forall k | 0 < k < |s| ensures !Stops(s[k], inArray) {
      assert s[k] == b[i + k];
    }
    w := Bare(s);
  }

  lemma {:induction false} SingleOf(b: string, i: nat) returns (s: string)
    requires Guarded(b) && i < |b| && Single(b, i).Ok?
    ensures '\n' !in s && s == Single(b, i).value && b[i..Single(b, i).next] == SingleBody(s) + "'"
    decreases |b| - i
  {
    var n := Single(b, i).next;
    if b[i] == '\'' && b[i + 1] != '\'' {
      s := [];
    } else {
      var m := if b[i] == '\'' then i + 2 else i + 1;
      var rest := SingleOf(b, m);
      s := [b[i]] + rest;
      assert s[1..] == rest;
      assert b[i..n] == b[i..m] + b[m..n];
      assert b[i..m] == if b[i] == '\'' then "''" else [b[i]];
    }
  }

  /** What the text of a value starts with. */
  lemma WordStart(w: Word, inArray: bool)
    requires WordOk(w, inArray)
    ensures var t := WordText(w, inArray);
            t != [] && !IsSpace(t[0]) && t[0] != '[' && t[0] != '#' && (inArray ==> t[0] != ']' && t[0] != ',')
  {
  }

  lemma QuotedReads(b: string, i: nat, chs: seq<Ch>, inArray: bool)
    requires Guarded(b) && ChsOk(chs) && At(b, i, "\"" + ChsText(chs) + "\"") && i + |ChsText(chs)| + 2 < |b|
    ensures !IsSpace(b[i]) && Extract(b, i, inArray) == Ok(Meant(chs), i + |ChsText(chs)| + 2)
  {
    hide Single, Double, Literal, At, ChsText, ChsOk, Meant;
    assert "\"" + ChsText(chs) + "\"" == "\"" + (ChsText(chs) + "\"");
    AtSplit(b, i, "\"", ChsText(chs) + "\"");
    AtIndex(b, i, "\"", 0);
    DoubleReadsText(b, i + 1, chs);
  }

  lemma DelimitedNext(b: string, n: nat, inArray: bool)
    requires n < |b| && Delimited(b, n, inArray)
    ensures b[n] != '\''
  {
  }

  lemma WordReads(b: string, i: nat, w: Word, inArray: bool)
    requires Guarded(b) && WordOk(w, inArray) && At(b, i, WordText(w, inArray))
    requires i + |WordText(w, inArray)| < |b| && Delimited(b, i + |WordText(w, inArray)|, inArray)
    ensures i < |b| && !IsSpace(b[i]) && Extract(b, i, inArray) == Ok(WordValue(w), i + |WordText(w, inArray)|)
  {
    hide Extract, At, ChsText, ChsOk, Meant, BareOk, SingleQuoted, Delimited;
    match w
    case Bare(s) => BareReads(b, i, s, inArray);
    case InSingle(s) =>
      DelimitedNext(b, i + |SingleQuoted(s)|, inArray);
      SingleQuotedReads(b, i, s, inArray);
    case InDouble(chs) => QuotedReads(b, i, chs, inArray);
  }

  lemma WordOf(b: string, i: nat, inArray: bool) returns (w: Word)
    requires Guarded(b) && i < |b| && !IsSpace(b[i]) && b[i] != '#' && Extract(b, i, inArray).Ok?
    ensures WordOk(w, inArray) && WordText(w, inArray) == b[i..Extract(b, i, inArray).next] && WordValue(w) == Extract(b, i, inArray).value
  {
    hide Single, Double, Literal, ChsText;
    var n := Extract(b, i, inArray).next;
    if b[i] == '\'' {
      var s := SingleOf(b, i + 1);
      w := InSingle(s);
      assert b[i..n] == "'" + b[i + 1..n];
      assert SingleQuoted(s) == "'" + (SingleBody(s) + "'");
    } else if b[i] == '\"' {
      var chs := DoubleOf(b, i + 1);
      w := InDouble(chs);
      assert b[i..n] == "\"" + b[i + 1..n];
      assert WordText(w, inArray) == "\"" + (ChsText(chs) + "\"");
    } else {
      w := BareOf(b, i, inArray);
    }
  }

  // ----- comments

  function NoteText(t: string): string { "#" + t + "\n" }

  lemma NoteReads(b: string, i: nat, t: string)
    requires Guarded(b) && '\n' !in t && At(b, i, NoteText(t))
    ensures i + 1 + |t| < |b| && b[i] == '#' && b[i + 1 + |t|] == '\n' && Skip(b, i, NotNewline) == i + 1 + |t|
  {
    hide SkipWhile;
    P.AtSlice(b, i, NoteText(t));
    SkipWhileIs(b, i, i + 1 + |t|, NotNewline);
  }

  lemma NoteOf(b: string, i: nat) returns (t: string)
    requires Guarded(b) && i < |b| && b[i] == '#'
    ensures '\n' !in t && NoteText(t) == b[i..Skip(b, i, NotNewline) + 1]
  {
    hide SkipWhile;
    var e := Skip(b, i, NotNewline);
    SkipWhileAll(b, i, NotNewline);
    t := b[i + 1..e];
    assert b[i..e + 1] == [b[i]] + t + [b[e]];
  }

  // ----- arrays

  /** What ends an item that is not the last. */
  datatype Sep = ByChar(c: char) | ByNote(t: string)

  predicate SepOk(p: Sep) {
    match p
    case ByChar(c) => c == ',' || c == '\n'
    case ByNote(t) => '\n' !in t
  }

  function SepText(p: Sep): string {
    match p
    case ByChar(c) => [c]
    case ByNote(t) => NoteText(t)
  }

  datatype Elem = White(c: char) | Extra | Note(t: string) | Each(w: Word, ws: string, sep: Sep)

  predicate ElemOk(e: Elem) {
    match e
    case White(c) => IsSpace(c)
    case Extra => true
    case Note(t) => '\n' !in t
    case Each(w, ws, sep) => WordOk(w, true) && AllWs(ws) && SepOk(sep)
  }

  function ElemText(e: Elem): string
    requires ElemOk(e)
  {
    match e
    case White(c) => [c]
    case Extra => ","
    case Note(t) => NoteText(t)
    case Each(w, ws, sep) => WordText(w, true) + ws + SepText(sep)
  }

  predicate ElemsOk(es: seq<Elem>) { forall k :: 0 <= k < |es| ==> ElemOk(es[k]) }

  function ElemsText(es: seq<Elem>): string
    requires ElemsOk(es)
  {
    if es == [] then [] else ElemText(es[0]) + ElemsText(es[1..])
  }

  function ElemsValue(es: seq<Elem>): seq<string> {
    if es == [] then [] else (if es[0].Each? then [WordValue(es[0].w)] else []) + ElemsValue(es[1..])
  }

  /** The item before the closing bracket, which nothing but white space separates from it. */
  datatype Last = Last(w: Word, ws: string)

  predicate LastOk(l: Last) { WordOk(l.w, true) && AllWs(l.ws) }

  /** From after the opening bracket. */
  datatype Inside = Inside(es: seq<Elem>, last: Option<Last>)

  predicate InsideOk(a: Inside) { ElemsOk(a.es) && (a.last.Some? ==> LastOk(a.last.value)) }

  function EndText(a: Inside): string
    requires InsideOk(a)
  {
    (if a.last.Some? then WordText(a.last.value.w, true) + a.last.value.ws else []) + "]"
  }

  function InsideText(a: Inside): string
    requires InsideOk(a)
  {
    ElemsText(a.es) + EndText(a)
  }

  function InsideValue(a: Inside): seq<string> {
    ElemsValue(a.es) + if a.last.Some? then [WordValue(a.last.value.w)] else []
  }

  /** A word, white space, and then what ends an item. */
  lemma ItemReads(b: string, i: nat, w: Word, ws: string)
    requires Guarded(b) && WordOk(w, true) && AllWs(ws) && At(b, i, WordText(w, true) + ws)
    requires var m := i + |WordText(w, true) + ws|; m < |b| && Stops(b[m], true)
    ensures var m := i + |WordText(w, true) + ws|;
            ItemTurn(b, i) ==
            if b[m] == '#' then Item(WordValue(w), Skip(b, m, NotNewline))
            else if b[m] == ']' then LastItem(WordValue(w), m + 1)
            else Item(WordValue(w), m + 1)
  {
    hide Extract, SkipWhile, At, WordText, WordValue, WordOk;
    var n := i + |WordText(w, true)|;
    var m := n + |ws|;
    AtSplit(b, i, WordText(w, true), ws);
    P.AtSlice(b, n, ws);
    SkipWhileIs(b, n, m, IsWs);
    WordStart(w, true);
    AtIndex(b, i, WordText(w, true), 0);
    SkipWhileIs(b, i, i, IsSpace);
    WordReads(b, i, w, true);
  }

  lemma TurnStep(b: string, i: nat)
    requires Guarded(b) && i <= |b|
    ensures var t := ItemTurn(b, i);
            && (t.Wrong? ==> Items(b, i).Bad?)
            && (t.Close? ==> Items(b, i) == Ok([], t.next))
            && (t.Pass? ==> Items(b, i) == Items(b, t.next))
            && (t.Item? ==> Items(b, i) == Cons(t.s, Items(b, t.next)))
            && (t.LastItem? ==> Items(b, i) == Ok([t.s], t.next))
  {
    hide ItemTurn;
  }

  lemma NoteTurn(b: string, i: nat)
    requires Guarded(b) && i < |b| && b[i] == '#'
    ensures Items(b, i) == Items(b, Skip(b, i, NotNewline) + 1)
  {
    hide Extract, Items, SkipWhile;
    SkipWhileIs(b, i, i, IsSpace);
    TurnStep(b, i);
    P.SpaceTurn(b, Skip(b, i, NotNewline));
  }

  lemma SepReads(b: string, m: nat, p: Sep)
    requires Guarded(b) && SepOk(p) && At(b, m, SepText(p))
    ensures m + |SepText(p)| <= |b| && m < |b| && Stops(b[m], true) && b[m] != ']'
    ensures if b[m] == '#' then p.ByNote? && Skip(b, m, NotNewline) + 1 == m + |SepText(p)| && b[Skip(b, m, NotNewline)] == '\n'
            else |SepText(p)| == 1
  {
    hide At, SkipWhile;
    P.AtSlice(b, m, SepText(p));
    if p.ByNote? {
      NoteReads(b, m, p.t);
    }
  }

  lemma EachReads(b: string, i: nat, e: Elem)
    requires Guarded(b) && ElemOk(e) && e.Each? && At(b, i, ElemText(e))
    ensures i + |ElemText(e)| <= |b| && Items(b, i) == Cons(WordValue(e.w), Items(b, i + |ElemText(e)|))
  {
    hide ItemTurn, Items, At, WordText, WordValue, WordOk, SepText, SepOk, AllWs, Cons, SkipWhile;
    var t := WordText(e.w, true) + e.ws;
    var m := i + |t|;
    AtSplit(b, i, t, SepText(e.sep));
    SepReads(b, m, e.sep);
    ItemReads(b, i, e.w, e.ws);
    TurnStep(b, i);
    if b[m] == '#' {
      P.SpaceTurn(b, Skip(b, m, NotNewline));
    }
  }

  lemma ExtraTurn(b: string, i: nat)
    requires Guarded(b) && i < |b| && b[i] == ','
    ensures Items(b, i) == Items(b, i + 1)
  {
    hide Items, Extract, SkipWhile;
    SkipWhileIs(b, i, i, IsSpace);
    TurnStep(b, i);
  }

  lemma ElemReads(b: string, i: nat, e: Elem)
    requires Guarded(b) && ElemOk(e) && At(b, i, ElemText(e))
    ensures i + |ElemText(e)| <= |b|
    ensures var rest := Items(b, i + |ElemText(e)|);
            Items(b, i) == if e.Each? then Cons(WordValue(e.w), rest) else rest
  {
    hide Items, At, WordText, WordValue, WordOk, NoteText, AllWs, SepOk, SepText, Cons, SkipWhile;
    match e
    case Each(_, _, _) => EachReads(b, i, e);
    case White(c) =>
      P.AtSlice(b, i, [c]);
      P.SpaceTurn(b, i);
    case Extra =>
      P.AtSlice(b, i, ",");
      ExtraTurn(b, i);
    case Note(t) =>
      NoteReads(b, i, t);
      NoteLength(t);
      NoteTurn(b, i);
  }

  lemma NoteLength(t: string)
    ensures |NoteText(t)| == |t| + 2
  {
  }

  lemma EndReads(b: string, i: nat, a: Inside)
    requires Guarded(b) && InsideOk(a) && At(b, i, EndText(a)) && i + |EndText(a)| < |b|
    ensures Items(b, i) == Ok(if a.last.Some? then [WordValue(a.last.value.w)] else [], i + |EndText(a)|)
  {
    hide Items, ItemTurn, At, WordText, WordValue, WordOk;
    TurnStep(b, i);
    if a.last.None? {
      assert EndText(a) == "]";
      AtIndex(b, i, "]", 0);
      P.EmptyArrayTurn(b, i);
    } else {
      var t := WordText(a.last.value.w, true) + a.last.value.ws;
      AtSplit(b, i, t, "]");
      AtIndex(b, i + |t|, "]", 0);
      ItemReads(b, i, a.last.value.w, a.last.value.ws);
    }
  }

  /** The text of an array is read as its items. */
  lemma {:induction false} InsideReads(b: string, i: nat, a: Inside)
    requires Guarded(b) && InsideOk(a) && At(b, i, InsideText(a)) && i + |InsideText(a)| < |b|
    ensures Items(b, i) == Ok(InsideValue(a), i + |InsideText(a)|)
    decreases |a.es|
  {
    hide Items, At, ElemText, WordValue, LastOk, EndText;
    if a.es == [] {
      assert InsideText(a) == EndText(a);
      EndReads(b, i, a);
      assert InsideValue(a) == Items(b, i).value;
    } else {
      var first, rest := ElemText(a.es[0]), Inside(a.es[1..], a.last);
      EndSame(a, rest);
      assert InsideText(a) == first + InsideText(rest);
      AtSplit(b, i, first, InsideText(rest));
      ElemReads(b, i, a.es[0]);
      InsideReads(b, i + |first|, rest);
      assert InsideValue(a) == (if a.es[0].Each? then [WordValue(a.es[0].w)] else []) + InsideValue(rest);
      assert [] + InsideValue(rest) == InsideValue(rest);
    }
  }

  lemma EndSame(a: Inside, b: Inside)
    requires InsideOk(a) && InsideOk(b) && a.last == b.last
    ensures EndText(a) == EndText(b)
  {
  }

  // ----- every accepted array is the text of a tree

  lemma ItemOf(b: string, i: nat) returns (w: Word, ws: string, m: nat)
    requires Guarded(b) && i < |b| && !IsSpace(b[i]) && b[i] != ']' && b[i] != '#' && b[i] != ',' && !ItemTurn(b, i).Wrong?
    ensures i < m < |b| && Stops(b[m], true)
    ensures WordOk(w, true) && AllWs(ws) && WordText(w, true) + ws == b[i..m]
    ensures ItemTurn(b, i) ==
            if b[m] == '#' then Item(WordValue(w), Skip(b, m, NotNewline))
            else if b[m] == ']' then LastItem(WordValue(w), m + 1)
            else Item(WordValue(w), m + 1)
  {
    hide Extract, SkipWhile, WordText, WordValue, WordOk;
    SkipWhileIs(b, i, i, IsSpace);
    w := WordOf(b, i, true);
    var n := Extract(b, i, true).next;
    m := Skip(b, n, IsWs);
    SkipWhileAll(b, n, IsWs);
    ws := b[n..m];
    assert b[i..m] == b[i..n] + ws;
  }

  lemma EachOf(b: string, i: nat) returns (e: Elem)
    requires Guarded(b) && i < |b| && !IsSpace(b[i]) && b[i] != '#' && b[i] != ',' && ItemTurn(b, i).Item?
    ensures ElemOk(e) && At(b, i, ElemText(e)) && ElemText(e) != []
  {
    hide ItemTurn, At, WordText, WordOk, WordValue, SkipWhile, AllWs, NoteText;
    BracketTurn(b, i);
    var w, ws, m := ItemOf(b, i);
    var sep;
    if b[m] == '#' {
      var t := NoteOf(b, m);
      sep := ByNote(t);
    } else {
      sep := ByChar(b[m]);
    }
    e := Each(w, ws, sep);
    IsAt(b, i, m);
    IsAt(b, m, m + |SepText(sep)|);
    AtJoin(b, i, b[i..m], SepText(sep));
  }

  lemma BracketTurn(b: string, i: nat)
    requires Guarded(b) && i < |b| && !IsSpace(b[i])
    ensures b[i] == ']' ==> ItemTurn(b, i).Close?
  {
    hide SkipWhile, Extract;
    SkipWhileIs(b, i, i, IsSpace);
  }

  lemma IsAt(b: string, i: nat, j: nat)
    requires i <= j <= |b|
    ensures At(b, i, b[i..j])
  {
  }

  /** The first part of an array that is not at its end. */
  lemma ElemOf(b: string, i: nat) returns (e: Elem)
    requires Guarded(b) && i < |b| && (IsSpace(b[i]) || ItemTurn(b, i).Pass? || ItemTurn(b, i).Item?)
    ensures ElemOk(e) && At(b, i, ElemText(e)) && ElemText(e) != []
  {
    if IsSpace(b[i]) {
      e := White(b[i]);
    } else if b[i] == '#' {
      var t := NoteOf(b, i);
      e := Note(t);
    } else if b[i] == ',' {
      e := Extra;
    } else {
      hide SkipWhile, Extract, WordText, WordOk;
      SkipWhileIs(b, i, i, IsSpace);
      e := EachOf(b, i);
    }
  }

  lemma EndOf(b: string, i: nat) returns (last: Option<Last>)
    requires Guarded(b) && i < |b| && !IsSpace(b[i]) && (ItemTurn(b, i).Close? || ItemTurn(b, i).LastItem?)
    ensures InsideOk(Inside([], last)) && EndText(Inside([], last)) == b[i..ItemTurn(b, i).next]
  {
    hide WordText, WordOk, WordValue, SkipWhile, Extract;
    SkipWhileIs(b, i, i, IsSpace);
    if b[i] == ']' {
      last := None;
      assert EndText(Inside([], last)) == "]";
    } else {
      var w, ws, m := ItemOf(b, i);
      last := Some(Last(w, ws));
      assert b[i..m + 1] == b[i..m] + [b[m]];
    }
  }

  lemma {:induction false} InsideOf(b: string, i: nat) returns (a: Inside)
    requires Guarded(b) && i <= |b| && Items(b, i).Ok?
    ensures InsideOk(a) && InsideText(a) == b[i..Items(b, i).next]
    decreases |b| - i
  {
    hide ItemTurn, Items, ElemText, WordText, WordOk, LastOk, EndText, SkipWhile;
    TurnStep(b, i);
    EmptyIsWrong(b, i);
    if IsSpace(b[i]) || ItemTurn(b, i).Pass? || ItemTurn(b, i).Item? {
      var e := ElemOf(b, i);
      var n := i + |ElemText(e)|;
      ElemGoesOn(b, i, e);
      var rest := InsideOf(b, n);
      a := Inside([e] + rest.es, rest.last);
      assert a.es[1..] == rest.es;
      EndSame(a, rest);
      var end := Items(b, i).next;
      assert b[i..end] == b[i..n] + b[n..end];
      assert InsideText(a) == ElemText(e) + InsideText(rest);
    } else {
      var last := EndOf(b, i);
      a := Inside([], last);
      assert InsideText(a) == EndText(a);
    }
  }

  lemma EmptyIsWrong(b: string, i: nat)
    requires Guarded(b) && i <= |b|
    ensures i == |b| ==> ItemTurn(b, i).Wrong?
  {
  }

  /** Reading goes on after a part of an array that was accepted. */
  lemma ElemGoesOn(b: string, i: nat, e: Elem)
    requires Guarded(b) && i <= |b| && Items(b, i).Ok? && ElemOk(e) && At(b, i, ElemText(e))
    ensures Items(b, i + |ElemText(e)|).Ok? && Items(b, i + |ElemText(e)|).next == Items(b, i).next
  {
    hide Items, At, ElemText, WordValue;
    ElemReads(b, i, e);
  }

  // ----- what is assigned

  datatype Right = Empty | One(w: Word) | Many(a: Inside)

  predicate RightOk(r: Right) {
    match r
    case Empty => true
    case One(w) => WordOk(w, false)
    case Many(a) => InsideOk(a)
  }

  function RightText(r: Right): string
    requires RightOk(r)
  {
    match r
    case Empty => []
    case One(w) => WordText(w, false)
    case Many(a) => "[" + InsideText(a)
  }

  function RightValue(r: Right): Val {
    match r
    case Empty => Scalar([])
    case One(w) => Scalar(WordValue(w))
    case Many(a) => Array(InsideValue(a))
  }

  lemma RightReads(b: string, n: nat, r: Right)
    requires Guarded(b) && RightOk(r) && At(b, n, RightText(r))
    requires var m := n + |RightText(r)|; m < |b| && Delimited(b, m, false) && (r.Empty? ==> Stops(b[m], false))
    ensures !IsWs(b[n]) && Value(b, n) == Ok(RightValue(r), n + |RightText(r)|)
  {
    hide Items, Extract, At, WordText, WordValue, WordOk, InsideText, InsideValue, InsideOk, Delimited;
    match r
    case Empty =>
    case One(w) =>
      WordStart(w, false);
      AtIndex(b, n, WordText(w, false), 0);
      WordReads(b, n, w, false);
    case Many(a) =>
      AtSplit(b, n, "[", InsideText(a));
      AtIndex(b, n, "[", 0);
      InsideReads(b, n + 1, a);
  }

  lemma RightOf(b: string, n: nat) returns (r: Right)
    requires Guarded(b) && n < |b| && !IsWs(b[n]) && Value(b, n).Ok?
    ensures RightOk(r) && RightText(r) == b[n..Value(b, n).next] && (r.Empty? ==> Stops(b[n], false))
  {
    hide Items, Extract, WordText, WordValue, WordOk, InsideText, InsideOk;
    var m := Value(b, n).next;
    if b[n] == '[' {
      var a := InsideOf(b, n + 1);
      r := Many(a);
      assert b[n..m] == "[" + b[n + 1..m];
    } else if b[n] == '\n' || b[n] == '#' {
      r := Empty;
    } else {
      var w := WordOf(b, n, false);
      r := One(w);
    }
  }

  // ----- lines

  datatype Ending = Newline | Comment(t: string)

  predicate EndingOk(e: Ending) { e.Comment? ==> '\n' !in e.t }

  function EndingText(e: Ending): string { if e.Newline? then "\n" else NoteText(e.t) }

  /** name op right, with white space anywhere between them. */
  datatype Row =
    | Idle(ws: string, end: Ending)
    | Assigns(ws: string, name: string, ws1: string, op: char, ws2: string, right: Right, ws3: string, end: Ending)

  predicate RowOk(r: Row) {
    && AllWs(r.ws) && EndingOk(r.end)
    && (r.Assigns? ==>
          && P.NameOk(r.name) && AllWs(r.ws1) && (r.op == '=' || r.op == ':') && AllWs(r.ws2) && AllWs(r.ws3)
          && RightOk(r.right) && (r.right.Empty? ==> r.ws3 == []))
  }

  /** What stands before the value, and after it. */
  function Head(r: Row): string
    requires r.Assigns?
  {
    r.ws + (r.name + (r.ws1 + ([r.op] + r.ws2)))
  }

  function Tail(r: Row): string
    requires r.Assigns?
  {
    r.ws3 + EndingText(r.end)
  }

  function RowText(r: Row): string
    requires RowOk(r)
  {
    if r.Idle? then r.ws + EndingText(r.end) else Head(r) + (RightText(r.right) + Tail(r))
  }

  /** The assignment of a line that begins at i. */
  function RowEntry(r: Row, i: nat): Entry
    requires RowOk(r) && r.Assigns?
  {
    var n := i + |Head(r)|;
    Entry(r.name, RightValue(r.right), n, n + |RightText(r.right)|)
  }

  lemma WsSkips(b: string, i: nat, ws: string)
    requires Guarded(b) && AllWs(ws) && At(b, i, ws) && i + |ws| < |b| && !IsWs(b[i + |ws|])
    ensures Skip(b, i, IsWs) == i + |ws|
  {
    hide SkipWhile;
    P.AtSlice(b, i, ws);
    SkipWhileIs(b, i, i + |ws|, IsWs);
  }

  lemma WsOf(b: string, i: nat)
    requires Guarded(b) && i < |b|
    ensures AllWs(b[i..Skip(b, i, IsWs)])
  {
    hide SkipWhile;
    SkipWhileAll(b, i, IsWs);
  }

  lemma NameReads(b: string, j: nat, name: string)
    requires Guarded(b) && P.NameOk(name) && At(b, j, name) && j + |name| < |b| && !IsName(b[j + |name|])
    ensures !IsWs(b[j]) && b[j] != '\n' && b[j] != '#'
    ensures name != [] && b[j..j + |name|] == name && Skip(b, j, IsName) == j + |name|
  {
    hide SkipWhile;
    P.AtSlice(b, j, name);
    assert IsName(b[j]);
    SkipWhileIs(b, j, j + |name|, IsName);
  }

  /** The name ends where white space or the operator begins. */
  lemma NameEnds(b: string, k: nat, ws1: string, op: char)
    requires AllWs(ws1) && (op == '=' || op == ':') && At(b, k, ws1) && At(b, k + |ws1|, [op])
    ensures k + |ws1| < |b| && b[k + |ws1|] == op && !IsWs(op) && !IsName(b[k])
  {
    P.AtSlice(b, k, ws1);
    AtIndex(b, k + |ws1|, [op], 0);
  }

  lemma HeadSplits(b: string, i: nat, r: Row)
    requires r.Assigns? && At(b, i, Head(r))
    ensures var j := i + |r.ws|; var k := j + |r.name|; var m := k + |r.ws1|;
            && At(b, i, r.ws) && At(b, j, r.name) && At(b, k, r.ws1) && At(b, m, [r.op]) && At(b, m + 1, r.ws2)
            && |Head(r)| == m + 1 + |r.ws2| - i
  {
    hide At;
    var j := i + |r.ws|;
    var k := j + |r.name|;
    AtSplit(b, i, r.ws, r.name + (r.ws1 + ([r.op] + r.ws2)));
    AtSplit(b, j, r.name, r.ws1 + ([r.op] + r.ws2));
    AtSplit(b, k, r.ws1, [r.op] + r.ws2);
    AtSplit(b, k + |r.ws1|, [r.op], r.ws2);
  }

  lemma HeadReads(b: string, i: nat, r: Row)
    requires Guarded(b) && RowOk(r) && r.Assigns? && At(b, i, Head(r)) && i + |Head(r)| < |b| && !IsWs(b[i + |Head(r)|])
    ensures i < |b| && Directive(b, i) == Assignment(b, r.name, i + |Head(r)|)
  {
    hide SkipWhile, At, AllWs, Assignment, P.NameOk, RightOk, EndingOk, Head;
    var j := i + |r.ws|;
    var k := j + |r.name|;
    var m := k + |r.ws1|;
    HeadSplits(b, i, r);
    NameEnds(b, k, r.ws1, r.op);
    NameReads(b, j, r.name);
    WsSkips(b, i, r.ws);
    WsSkips(b, k, r.ws1);
    WsSkips(b, m + 1, r.ws2);
  }

  /** The rest of a line ends at its newline. */
  lemma TailReads(b: string, v: nat, ws: string, e: Ending)
    requires Guarded(b) && AllWs(ws) && EndingOk(e) && At(b, v, ws + EndingText(e))
    ensures var w := v + |ws|;
            && w < |b| && Skip(b, v, IsWs) == w && Delimited(b, v, false)
            && 0 < |EndingText(e)| && (e.Newline? ==> |EndingText(e)| == 1) && w + |EndingText(e)| <= |b| && b[w + |EndingText(e)| - 1] == '\n'
            && if e.Newline? then b[w] == '\n' else b[w] == '#' && Skip(b, w, NotNewline) == w + |EndingText(e)| - 1
  {
    hide SkipWhile, At, AllWs;
    var w := v + |ws|;
    AtSplit(b, v, ws, EndingText(e));
    P.AtSlice(b, w, EndingText(e));
    if e.Comment? {
      NoteReads(b, w, e.t);
    }
    WsSkips(b, v, ws);
  }

  lemma AssignmentReads(b: string, name: string, n: nat, r: Right, ws: string, e: Ending)
    requires Guarded(b) && RightOk(r) && AllWs(ws) && EndingOk(e) && (r.Empty? ==> ws == [])
    requires At(b, n, RightText(r) + (ws + EndingText(e)))
    ensures var v := n + |RightText(r)|;
            var end := v + |ws| + |EndingText(e)|;
            && n < end <= |b| && b[end - 1] == '\n' && !IsWs(b[n])
            && Assignment(b, name, n) == Assign(Entry(name, RightValue(r), n, v), if e.Newline? then end else end - 1)
  {
    hide SkipWhile, At, AllWs, Value, RightText, RightValue, Delimited, EndingText, EndingOk, HalfValue;
    var v := n + |RightText(r)|;
    AtSplit(b, n, RightText(r), ws + EndingText(e));
    TailReads(b, v, ws, e);
    RightReads(b, n, r);
  }

  lemma AssignsReads(b: string, i: nat, r: Row)
    requires Guarded(b) && RowOk(r) && r.Assigns? && At(b, i, RowText(r))
    ensures i < i + |RowText(r)| <= |b| && b[i + |RowText(r)| - 1] == '\n'
    ensures var end := i + |RowText(r)|;
            Directive(b, i) == Assign(RowEntry(r, i), if r.end.Newline? then end else end - 1)
  {
    hide SkipWhile, At, AllWs, Directive, Assignment, RightText, RightValue, Head, P.NameOk, EndingText, EndingOk;
    var n := i + |Head(r)|;
    AtSplit(b, i, Head(r), RightText(r.right) + Tail(r));
    AssignmentReads(b, r.name, n, r.right, r.ws3, r.end);
    HeadReads(b, i, r);
  }

  lemma IdleReads(b: string, i: nat, r: Row)
    requires Guarded(b) && RowOk(r) && r.Idle? && At(b, i, RowText(r))
    ensures i < i + |RowText(r)| <= |b| && Directive(b, i) == Blank(i + |RowText(r)|)
  {
    hide SkipWhile, At, AllWs, Delimited;
    TailReads(b, i, r.ws, r.end);
  }

  lemma LineStep(b: string, i: nat)
    requires Guarded(b) && i < |b|
    ensures var d := Directive(b, i);
            && (d.Fail? ==> Load(b, i) == Loaded([], d))
            && (d.Blank? ==> Load(b, i) == Load(b, d.next))
            && (d.Assign? ==> Load(b, i) == Loaded([d.entry] + Load(b, d.next).entries, Load(b, d.next).error))
  {
    hide Directive;
  }

  lemma NewlineIsBlank(b: string, i: nat)
    requires Guarded(b) && i < |b| && b[i] == '\n'
    ensures Load(b, i) == Load(b, i + 1)
  {
    SkipWhileIs(b, i, i, IsWs);
    assert Directive(b, i) == Blank(i + 1);
  }

  /** A line is read as its assignment, or as nothing. */
  lemma RowReads(b: string, i: nat, r: Row)
    requires Guarded(b) && RowOk(r) && At(b, i, RowText(r))
    ensures i < i + |RowText(r)| <= |b|
    ensures var rest := Load(b, i + |RowText(r)|);
            Load(b, i) == Loaded((if r.Assigns? then [RowEntry(r, i)] else []) + rest.entries, rest.error)
  {
    hide At, RowText, RowEntry, RowOk, Directive, Load;
    var end := i + |RowText(r)|;
    if r.Idle? {
      IdleReads(b, i, r);
      assert [] + Load(b, end).entries == Load(b, end).entries;
    } else {
      AssignsReads(b, i, r);
      NewlineIsBlank(b, end - 1);
    }
    LineStep(b, i);
  }

  // ----- files

  predicate RowsOk(rows: seq<Row>) { forall k :: 0 <= k < |rows| ==> RowOk(rows[k]) }

  function RowsText(rows: seq<Row>): string
    requires RowsOk(rows)
  {
    if rows == [] then [] else RowText(rows[0]) + RowsText(rows[1..])
  }

  /** The assignments of lines that begin at i. */
  function RowsEntries(rows: seq<Row>, i: nat): seq<Entry>
    requires RowsOk(rows)
  {
    if rows == [] then []
    else (if rows[0].Assigns? then [RowEntry(rows[0], i)] else []) + RowsEntries(rows[1..], i + |RowText(rows[0])|)
  }

  lemma {:induction false} RowsRead(b: string, i: nat, rows: seq<Row>)
    requires Guarded(b) && RowsOk(rows) && At(b, i, RowsText(rows)) && i + |RowsText(rows)| == |b|
    ensures Load(b, i) == Loaded(RowsEntries(rows, i), Blank(|b|))
    decreases rows
  {
    hide At, RowText, RowEntry, RowOk, Directive;
    if rows != [] {
      hide Load;
      AtSplit(b, i, RowText(rows[0]), RowsText(rows[1..]));
      RowReads(b, i, rows[0]);
      RowsRead(b, i + |RowText(rows[0])|, rows[1..]);
    }
  }

  /** The text of a tree loads as its assignments, in order and with their spans. */
  lemma FileLoads(rows: seq<Row>)
    requires RowsOk(rows) && rows != []
    ensures Guarded(RowsText(rows))
    ensures Load(RowsText(rows), 0) == Loaded(RowsEntries(rows, 0), Blank(|RowsText(rows)|))
  {
    hide RowText, RowOk, RowEntry, Load;
    RowsGuarded(rows);
    var b := RowsText(rows);
    assert b[0..|b|] == b;
    RowsRead(b, 0, rows);
  }

  lemma {:induction false} RowsGuarded(rows: seq<Row>)
    requires RowsOk(rows) && rows != []
    ensures Guarded(RowsText(rows))
  {
    if |rows| == 1 {
      assert RowsText(rows[1..]) == [];
    } else {
      RowsGuarded(rows[1..]);
    }
  }

  // ----- every file that loads is the text of a tree

  lemma EndingOf(b: string, w: nat) returns (e: Ending)
    requires Guarded(b) && w < |b| && (b[w] == '\n' || b[w] == '#')
    ensures EndingOk(e) && At(b, w, EndingText(e))
    ensures EndingText(e) == if b[w] == '\n' then "\n" else b[w..Skip(b, w, NotNewline) + 1]
  {
    if b[w] == '\n' {
      e := Newline;
    } else {
      var t := NoteOf(b, w);
      e := Comment(t);
    }
  }

  lemma AtJoin(b: string, i: nat, s: string, t: string)
    requires At(b, i, s) && At(b, i + |s|, t)
    ensures At(b, i, s + t)
  {
    var u := b[i..i + |s + t|];
    assert u[..|s|] == b[i..i + |s|] && u[|s|..] == b[i + |s|..i + |s| + |t|];
  }

  lemma HeadJoins(b: string, i: nat, r: Row)
    requires r.Assigns?
    requires var j := i + |r.ws|; var k := j + |r.name|; var m := k + |r.ws1|;
             At(b, i, r.ws) && At(b, j, r.name) && At(b, k, r.ws1) && At(b, m, [r.op]) && At(b, m + 1, r.ws2)
    ensures At(b, i, Head(r)) && |Head(r)| == |r.ws| + |r.name| + |r.ws1| + 1 + |r.ws2|
  {
    hide At;
    var j := i + |r.ws|;
    var k := j + |r.name|;
    var m := k + |r.ws1|;
    AtJoin(b, m, [r.op], r.ws2);
    AtJoin(b, k, r.ws1, [r.op] + r.ws2);
    AtJoin(b, j, r.name, r.ws1 + ([r.op] + r.ws2));
    AtJoin(b, i, r.ws, r.name + (r.ws1 + ([r.op] + r.ws2)));
  }

  /** What follows an accepted value up to the end of the line. */
  lemma TailOf(b: string, n: nat) returns (right: Right, ws3: string, end: Ending)
    requires Guarded(b) && n < |b| && !IsWs(b[n]) && Value(b, n).Ok?
    requires var w := Skip(b, Value(b, n).next, IsWs); b[w] == '\n' || b[w] == '#'
    ensures RightOk(right) && AllWs(ws3) && EndingOk(end) && (right.Empty? ==> ws3 == [])
    ensures At(b, n, RightText(right) + (ws3 + EndingText(end)))
  {
    hide Value, RightText, RightOk, EndingText, AllWs, EndingOk, SkipWhile;
    var v := Value(b, n).next;
    var w := Skip(b, v, IsWs);
    right := RightOf(b, n);
    WsOf(b, v);
    ws3 := b[v..w];
    end := EndingOf(b, w);
    AtJoin(b, v, ws3, EndingText(end));
    AtJoin(b, n, RightText(right), ws3 + EndingText(end));
    if right.Empty? {
      EmptyText(right);
      SkipWhileIs(b, v, v, IsWs);
    }
  }

  lemma EmptyText(r: Right)
    requires r.Empty?
    ensures RightOk(r) && RightText(r) == []
  {
  }

  lemma NameOf(b: string, j: nat)
    requires Guarded(b) && j < |b| && Skip(b, j, IsName) > j
    ensures P.NameOk(b[j..Skip(b, j, IsName)])
  {
    hide SkipWhile;
    SkipWhileAll(b, j, IsName);
  }

  /** The line up to its value, as the line of an empty value. */
  lemma HeadOf(b: string, i: nat) returns (r: Row)
    requires Guarded(b) && i < |b| && Directive(b, i).Assign?
    ensures RowOk(r) && r.Assigns? && At(b, i, Head(r))
    ensures var n := i + |Head(r)|; n < |b| && !IsWs(b[n]) && Directive(b, i) == Assignment(b, b[i + |r.ws|..i + |r.ws| + |r.name|], n)
  {
    hide Assignment, AllWs, SkipWhile, Head, P.NameOk;
    var j := Skip(b, i, IsWs);
    var k := Skip(b, j, IsName);
    var m := Skip(b, k, IsWs);
    var n := Skip(b, m + 1, IsWs);
    WsOf(b, i);
    NameOf(b, j);
    WsOf(b, k);
    WsOf(b, m + 1);
    NoWs();
    r := Assigns(b[i..j], b[j..k], b[k..m], b[m], b[m + 1..n], Empty, [], Newline);
    HeadJoins(b, i, r);
  }

  lemma NoWs()
    ensures AllWs([])
  {
  }

  lemma AssignsOf(b: string, i: nat) returns (r: Row)
    requires Guarded(b) && i < |b| && Directive(b, i).Assign?
    ensures RowOk(r) && At(b, i, RowText(r))
  {
    hide Directive, Value, RightText, RightOk, EndingText, AllWs, EndingOk, SkipWhile, HalfValue, P.NameOk, At;
    var h := HeadOf(b, i);
    var n := i + |Head(h)|;
    var right, ws3, end := TailOf(b, n);
    r := h.(right := right, ws3 := ws3, end := end);
    AtJoin(b, i, Head(h), RightText(right) + (ws3 + EndingText(end)));
  }

  lemma RowOf(b: string, i: nat) returns (r: Row)
    requires Guarded(b) && i < |b| && !Directive(b, i).Fail?
    ensures RowOk(r) && At(b, i, RowText(r))
  {
    hide SkipWhile, Assignment, EndingText, EndingOk, AllWs;
    if Directive(b, i).Assign? {
      r := AssignsOf(b, i);
    } else {
      var j := Skip(b, i, IsWs);
      WsOf(b, i);
      IdleLine(b, i);
      var end := EndingOf(b, j);
      r := Idle(b[i..j], end);
      AtJoin(b, i, b[i..j], EndingText(end));
    }
  }

  lemma IdleLine(b: string, i: nat)
    requires Guarded(b) && i < |b| && Directive(b, i).Blank?
    ensures var j := Skip(b, i, IsWs); b[j] == '\n' || b[j] == '#'
  {
    hide SkipWhile, Value, HalfValue;
  }

  lemma {:induction false} FileOf(b: string, i: nat) returns (rows: seq<Row>)
    requires Guarded(b) && i <= |b| && !Load(b, i).error.Fail?
    ensures RowsOk(rows) && At(b, i, RowsText(rows)) && i + |RowsText(rows)| == |b|
    decreases |b| - i
  {
    hide At, RowText, RowOk, RowEntry, Directive, Load;
    if i == |b| {
      rows := [];
      AtEnd(b);
    } else {
      LineStep(b, i);
      var r := RowOf(b, i);
      RowReads(b, i, r);
      var rest := FileOf(b, i + |RowText(r)|);
      rows := [r] + rest;
      assert rows[1..] == rest;
      AtJoin(b, i, RowText(r), RowsText(rest));
    }
  }

  lemma AtEnd(b: string)
    ensures At(b, |b|, [])
  {
  }

  ghost predicate IsFile(b: string) { exists rows :: RowsOk(rows) && RowsText(rows) == b }

  /** A file loads without an error if and only if it is the text of a tree. */
  lemma LoadsIff(b: string)
    requires Guarded(b)
    ensures !Load(b, 0).error.Fail? <==> IsFile(b)
  {
    hide RowText, RowOk, RowEntry, Load;
    if rows: seq<Row> :| RowsOk(rows) && RowsText(rows) == b {
      FileLoads(rows);
    }
    if !Load(b, 0).error.Fail? {
      var rows := FileOf(b, 0);
      assert b[0..|b|] == b;
      assert RowsText(rows) == b;
    }
  }

  const EQUALS := "a = 1\n"

  /** For example, a = 1 assigns 1 to a. */
  lemma EqualsAssigns()
    ensures Load(EQUALS, 0) == Loaded([Entry("a", Scalar("1"), 4, 5)], Blank(6))
  {
    hide Load;
    var row := Assigns("", "a", " ", '=', " ", One(Bare("1")), "", Newline);
    assert Head(row) == "a = ";
    assert RowText(row) == EQUALS;
    assert [row][1..] == [] && RowsText([row]) == EQUALS;
    assert RowsEntries([row], 0) == [Entry("a", Scalar("1"), 4, 5)];
    FileLoads([row]);
  }
}
