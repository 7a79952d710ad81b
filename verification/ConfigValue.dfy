/**
  Values of configuration files: the escapers that print a string as a literal, single-quoted or
  double-quoted value, and the reader that extracts one value from a newline-terminated buffer.
 */
module ConfigValue {
  import opened Ctype

  /** Every buffer handed to the reader ends in a newline, so that looking one character ahead is safe. */
  predicate Guarded(b: string) { b != [] && b[|b| - 1] == '\n' }

  /** A value and the position after it, or the position of a parse error. */
  datatype Parsed<+T> = Ok(value: T, next: nat) | Bad(at: nat)

  function Prepend(s: string, p: Parsed<string>): (r: Parsed<string>)
    ensures r.Ok? == p.Ok? && (p.Ok? ==> r.next == p.next)
  {
    if p.Ok? then Ok(s + p.value, p.next) else p
  }

  lemma PrependTwice(s: string, t: string, p: Parsed<string>)
    ensures Prepend(s, Prepend(t, p)) == Prepend(s + t, p)
  {
    if p.Ok? {
      assert s + (t + p.value) == (s + t) + p.value;
    }
  }

  lemma PrependNothing(s: string, p: Parsed<string>, next: nat)
    ensures Prepend([], p) == p
    ensures Prepend(s, Ok([], next)) == Ok(s, next)
  {
    if p.Ok? {
      assert [] + p.value == p.value;
    }
    assert s + [] == s;
  }

  // ----- reading: specification

  /** From after an opening single quote. */
  function Single(b: string, i: nat): (r: Parsed<string>)
    requires Guarded(b) && i < |b|
    ensures r.Ok? ==> i < r.next < |b|
    decreases |b| - i
  {
    if b[i] == '\n' then Bad(i)
    else if b[i] != '\'' then Prepend([b[i]], Single(b, i + 1))
    else if b[i + 1] != '\'' then Ok([], i + 1)
    else Prepend("'", Single(b, i + 2))
  }

  function Hex2dec(c: char): (d: int)
    requires IsXdigit(c)
    ensures 0 <= d < 16
  {
    if c < 'A' then c as int - '0' as int
    else 10 + c as int - (if c >= 'a' then 'a' as int else 'A' as int)
  }

  /** What a backslash and c stand for; empty for an unknown escape sequence. */
  function Unescaped(c: char): string {
    match c
    case '\'' => "'" case '\"' => "\"" case '?' => "?" case '\\' => "\\" case 't' => "\t"
    case 'a' => ['\U{07}'] case 'b' => ['\U{08}'] case 'f' => ['\U{0c}'] case 'n' => "\n"
    case 'r' => "\r" case 'v' => ['\U{0b}']
    case _ => ""
  }

  function HexByte(a: char, b: char): char
    requires IsXdigit(a) && IsXdigit(b)
  {
    (16 * Hex2dec(a) + Hex2dec(b)) as char
  }

  /** One character or escape sequence between double quotes. */
  function Piece(b: string, i: nat): (r: Parsed<string>)
    requires Guarded(b) && i < |b| && b[i] != '\n'
    ensures r.Ok? ==> i < r.next < |b|
  {
    if b[i] != '\\' then Ok([b[i]], i + 1)
    else if b[i + 1] == 'x' then
      if !IsXdigit(b[i + 2]) then Bad(i + 2)
      else if !IsXdigit(b[i + 3]) then Bad(i + 3)
      else Ok([HexByte(b[i + 2], b[i + 3])], i + 4)
    else if Unescaped(b[i + 1]) == "" then Bad(i + 1)
    else Ok(Unescaped(b[i + 1]), i + 2)
  }

  /** From after an opening double quote. */
  function Double(b: string, i: nat): (r: Parsed<string>)
    requires Guarded(b) && i < |b|
    ensures r.Ok? ==> i < r.next < |b|
    decreases |b| - i
  {
    if b[i] == '\n' then Bad(i)
    else if b[i] == '\"' then Ok([], i + 1)
    else
      var p := Piece(b, i);
      if p.Bad? then p else Prepend(p.value, Double(b, p.next))
  }

  /** Ends a literal. */
  predicate Stops(c: char, inArray: bool) {
    c == '\n' || c == '#' || (inArray && (c == ']' || c == ','))
  }

  /** The first position from i on that stops a literal. */
  function LiteralEnd(b: string, i: nat, inArray: bool): (e: nat)
    requires Guarded(b) && i < |b|
    ensures i <= e < |b| && Stops(b[e], inArray)
    ensures forall k :: i <= k < e ==> !Stops(b[k], inArray)
    decreases |b| - i
  {
    if Stops(b[i], inArray) then i else LiteralEnd(b, i + 1, inArray)
  }

  /** The end of b[i..e] without trailing white space. */
  function Trimmed(b: string, i: nat, e: nat): (n: nat)
    requires i < e <= |b| && !IsSpace(b[i])
    ensures i < n <= e && !IsSpace(b[n - 1])
    ensures forall k :: n <= k < e ==> IsSpace(b[k])
  {
    if IsSpace(b[e - 1]) then Trimmed(b, i, e - 1) else e
  }

  /** A literal: up to what stops it, without trailing white space. The first character is always taken. */
  function Literal(b: string, i: nat, inArray: bool): (r: Parsed<string>)
    requires Guarded(b) && i < |b| && !IsSpace(b[i])
    ensures r.Ok? ==> i < r.next < |b|
  {
    if b[i] == '[' || (inArray && (b[i] == ',' || b[i] == ']')) then Bad(i)
    else
      var n := Trimmed(b, i, LiteralEnd(b, i + 1, inArray));
      Ok(b[i..n], n)
  }

  /** extract_value() at position i. */
  function Extract(b: string, i: nat, inArray: bool): (r: Parsed<string>)
    requires Guarded(b) && i < |b| && !IsSpace(b[i])
    ensures r.Ok? ==> i < r.next < |b|
  {
    if b[i] == '\'' then Single(b, i + 1)
    else if b[i] == '\"' then Double(b, i + 1)
    else Literal(b, i, inArray)
  }

  // ----- reading: the loops

  method ReadSingle(b: string, pos: nat) returns (r: Parsed<string>)
    requires Guarded(b) && pos < |b| && b[pos] == '\''
    ensures r == Single(b, pos + 1)
  {
    var res: string := [];
    var i := pos + 1;
    PrependNothing(res, Single(b, i), i);
    while b[i] != '\n'
      invariant pos < i < |b| && Single(b, pos + 1) == Prepend(res, Single(b, i))
      decreases |b| - i
    {
      if b[i] == '\'' {
        if b[i + 1] != '\'' {
          PrependNothing(res, Single(b, i), i + 1);
          return Ok(res, i + 1);
        }
        i := i + 1;
      }
      PrependTwice(res, [b[i]], Single(b, i + 1));
      res := res + [b[i]];
      i := i + 1;
    }
    return Bad(i);
  }

  method ReadDouble(b: string, pos: nat) returns (r: Parsed<string>)
    requires Guarded(b) && pos < |b| && b[pos] == '\"'
    ensures r == Double(b, pos + 1)
  {
    hide Piece;
    var res: string := [];
    var i := pos + 1;
    PrependNothing(res, Double(b, i), i);
    while b[i] != '\n'
      invariant pos < i < |b| && Double(b, pos + 1) == Prepend(res, Double(b, i))
      decreases |b| - i
    {
      if b[i] == '\"' {
        PrependNothing(res, Double(b, i), i + 1);
        return Ok(res, i + 1);
      }
      var p := ReadPiece(b, i);
      if p.Bad? {
        return p;
      }
      PrependTwice(res, p.value, Double(b, p.next));
      res := res + p.value;
      i := p.next;
    }
    return Bad(i);
  }

  method ReadPiece(b: string, pos: nat) returns (r: Parsed<string>)
    requires Guarded(b) && pos < |b| && b[pos] != '\n'
    ensures r == Piece(b, pos)
  {
    var i := pos;
    if b[i] != '\\' {
      return Ok([b[i]], i + 1);
    }
    i := i + 1;
    if b[i] == 'x' {
      i := i + 1;
      if !IsXdigit(b[i]) {
        return Bad(i);
      }
      i := i + 1;
      if !IsXdigit(b[i]) {
        return Bad(i);
      }
      return Ok([HexByte(b[i - 1], b[i])], i + 1);
    }
    var c := Unescaped(b[i]);
    return if c == "" then Bad(i) else Ok(c, i + 1);
  }

  method ReadLiteral(b: string, pos: nat, inArray: bool) returns (r: Parsed<string>)
    requires Guarded(b) && pos < |b| && !IsSpace(b[pos])
    ensures r == Literal(b, pos, inArray)
  {
    if b[pos] == '[' || (inArray && (b[pos] == ',' || b[pos] == ']')) {
      return Bad(pos);
    }
    var i := pos;
    while !Stops(b[i + 1], inArray)
      invariant pos <= i < |b| - 1 && LiteralEnd(b, pos + 1, inArray) == LiteralEnd(b, i + 1, inArray)
      decreases |b| - i
    {
      i := i + 1;
    }
    ghost var e := i + 1;
    while IsSpace(b[i])
      invariant pos <= i < e && Trimmed(b, pos, e) == Trimmed(b, pos, i + 1)
      decreases i
    {
      i := i - 1;
    }
    i := i + 1;
    r := Ok(b[pos..i], i);
  }

  /** extract_value(): never looks beyond the newline that guards the buffer. */
  method ExtractValue(b: string, pos: nat, inArray: bool) returns (r: Parsed<string>)
    requires Guarded(b) && pos < |b| && !IsSpace(b[pos])
    ensures r == Extract(b, pos, inArray)
  {
    if b[pos] == '\'' {
      r := ReadSingle(b, pos);
    } else if b[pos] == '\"' {
      r := ReadDouble(b, pos);
    } else {
      r := ReadLiteral(b, pos, inArray);
    }
  }

  // ----- printing

  function SingleBody(s: string): string {
    if s == [] then [] else (if s[0] == '\'' then "''" else [s[0]]) + SingleBody(s[1..])
  }

  function SingleQuoted(s: string): string { "'" + SingleBody(s) + "'" }

  function Dec2hex(x: int): (c: char)
    requires 0 <= x < 16
    ensures IsXdigit(c) && Hex2dec(c) == x
  {
    if x > 9 then ('a' as int - 10 + x) as char else (x + '0' as int) as char
  }

  function HexEscape(c: char): string
    requires IsByte(c)
  {
    ['\\', 'x', Dec2hex(c as int / 16), Dec2hex(c as int % 16)]
  }

  /** How a byte is printed between double quotes; f says which other bytes are printed in hexadecimal. */
  function Chunk(c: char, f: char -> bool): string
    requires IsByte(c)
  {
    match c
    case '\\' => "\\\\" case '\U{00}' => "\\0" case '\"' => "\\\"" case '?' => "\\?"
    case '\U{07}' => "\\a" case '\U{08}' => "\\b" case '\U{0c}' => "\\f" case '\n' => "\\n"
    case '\r' => "\\r" case '\t' => "\\t" case '\U{0b}' => "\\v"
    case _ => if f(c) then HexEscape(c) else [c]
  }

  function DoubleBody(s: string, f: char -> bool): string
    requires IsBytes(s)
  {
    if s == [] then [] else Chunk(s[0], f) + DoubleBody(s[1..], f)
  }

  function DoubleQuoted(s: string, f: char -> bool): string
    requires IsBytes(s)
  {
    "\"" + DoubleBody(s, f) + "\""
  }

  predicate IsStringLiteral(s: string) {
    && s != []
    && s[0] != '[' && s[0] != '\'' && s[0] != '\"' && s[0] != '#' && !IsSpace(s[0]) && !IsSpace(s[|s| - 1])
    && forall i :: 0 <= i < |s| ==> s[i] != '\n' && s[i] != ']' && s[i] != ',' && s[i] != '#'
  }

  predicate NotPrint(c: char) { !IsPrint(c) }

  /** escape_string() with f = IsCntrl, full_escape_string() with f = NotPrint. */
  function Escaped(s: string, f: char -> bool): string
    requires IsBytes(s)
  {
    if exists i :: 0 <= i < |s| && (s[i] == '\'' || f(s[i])) then DoubleQuoted(s, f)
    else if IsStringLiteral(s) then s
    else SingleQuoted(s)
  }

  method EscapeToSingleQuoted(s: string) returns (r: string)
    ensures r == SingleQuoted(s)
  {
    r := "'";
    for i := 0 to |s|
      invariant r + SingleBody(s[i..]) == "'" + SingleBody(s)
    {
      assert s[i..][1..] == s[i + 1..];
      r := r + [s[i]];
      if s[i] == '\'' {
        r := r + "'";
      }
    }
    assert s[|s|..] == [];
    r := r + "'";
  }

  method EscapeToDoubleQuoted(s: string, f: char -> bool) returns (r: string)
    requires IsBytes(s)
    ensures r == DoubleQuoted(s, f)
  {
    r := "\"";
    for i := 0 to |s|
      invariant IsBytes(s[i..]) && r + DoubleBody(s[i..], f) == "\"" + DoubleBody(s, f)
    {
      assert s[i..][1..] == s[i + 1..];
      r := r + Chunk(s[i], f);
    }
    assert s[|s|..] == [];
    r := r + "\"";
  }

  method EscapeString(s: string, f: char -> bool) returns (r: string)
    requires IsBytes(s)
    ensures r == Escaped(s, f)
  {
    for i := 0 to |s|
      invariant forall k :: 0 <= k < i ==> s[k] != '\'' && !f(s[k])
    {
      if s[i] == '\'' || f(s[i]) {
        r := EscapeToDoubleQuoted(s, f);
        return;
      }
    }
    if IsStringLiteral(s) {
      return s;
    }
    r := EscapeToSingleQuoted(s);
  }

  // ----- round trips

  predicate IsWs(c: char) { c != '\n' && IsSpace(c) }

  /** b has the characters of s from position i on. */
  predicate At(b: string, i: nat, s: string) {
    i + |s| <= |b| && b[i..i + |s|] == s
  }

  lemma AtIndex(b: string, i: nat, s: string, k: nat)
    requires At(b, i, s) && k < |s|
    ensures b[i + k] == s[k]
  {
    assert b[i..i + |s|][k] == b[i + k];
  }

  lemma AtSplit(b: string, i: nat, s: string, t: string)
    requires At(b, i, s + t)
    ensures At(b, i, s) && At(b, i + |s|, t)
  {
    var u := s + t;
    forall k | 0 <= k < |s| ensures b[i + k] == s[k] {
      AtIndex(b, i, u, k);
    }
    forall k | 0 <= k < |t| ensures b[i + |s| + k] == t[k] {
      AtIndex(b, i, u, |s| + k);
    }
  }

  /** Reading a single-quoted body gives back the string, exactly when it has no newline. */
  lemma {:induction false} SingleReads(b: string, i: nat, s: string)
    requires Guarded(b) && At(b, i, SingleBody(s) + "'") && i + |SingleBody(s)| + 1 < |b|
    requires b[i + |SingleBody(s)| + 1] != '\''
    ensures if '\n' in s then Single(b, i).Bad? else Single(b, i) == Ok(s, i + |SingleBody(s)| + 1)
    decreases s
  {
    if s == [] {
      assert SingleBody(s) + "'" == "'";
      AtIndex(b, i, "'", 0);
    } else {
      var first, rest := if s[0] == '\'' then "''" else [s[0]], SingleBody(s[1..]);
      assert SingleBody(s) + "'" == first + (rest + "'");
      AtSplit(b, i, first, rest + "'");
      AtIndex(b, i, first, 0);
      AtIndex(b, i, first, |first| - 1);
      SingleReads(b, i + |first|, s[1..]);
      assert s == [s[0]] + s[1..];
    }
  }

  /** A printed byte is read back, exactly when it is not NUL. */
  lemma ChunkReads(b: string, i: nat, c: char, f: char -> bool)
    requires Guarded(b) && IsByte(c) && At(b, i, Chunk(c, f)) && i + |Chunk(c, f)| < |b|
    ensures b[i] != '\n' && b[i] != '\"'
    ensures Piece(b, i) == if c == NUL then Bad(i + 1) else Ok([c], i + |Chunk(c, f)|)
  {
    var t := Chunk(c, f);
    AtIndex(b, i, t, 0);
    if |t| > 1 {
      AtIndex(b, i, t, 1);
    }
    if |t| == 4 {
      AtIndex(b, i, t, 2);
      AtIndex(b, i, t, 3);
      assert 16 * (c as int / 16) + c as int % 16 == c as int;
    }
  }

  /** Reading a double-quoted body gives back the string, exactly when it has no NUL. */
  lemma {:induction false} DoubleReads(b: string, i: nat, s: string, f: char -> bool)
    requires Guarded(b) && IsBytes(s) && At(b, i, DoubleBody(s, f) + "\"") && i + |DoubleBody(s, f)| + 1 < |b|
    ensures if NUL in s then Double(b, i).Bad? else Double(b, i) == Ok(s, i + |DoubleBody(s, f)| + 1)
    decreases s
  {
    hide Piece, Chunk;
    if s == [] {
      assert DoubleBody(s, f) + "\"" == "\"";
      AtIndex(b, i, "\"", 0);
    } else {
      var first, rest := Chunk(s[0], f), DoubleBody(s[1..], f);
      assert DoubleBody(s, f) + "\"" == first + (rest + "\"");
      AtSplit(b, i, first, rest + "\"");
      DoubleReads(b, i + |first|, s[1..], f);
      ChunkReads(b, i, s[0], f);
      assert s == [s[0]] + s[1..];
    }
  }

  /** What may follow a value: white space, then something that ends it. */
  predicate Delimited(b: string, j: nat, inArray: bool)
    requires j <= |b|
  {
    var e := SkipWhile(b, j, IsWs);
    e < |b| && Stops(b[e], inArray)
  }

  lemma LiteralEndIs(b: string, i: nat, e: nat, inArray: bool)
    requires Guarded(b) && i <= e < |b| && Stops(b[e], inArray) && forall k :: i <= k < e ==> !Stops(b[k], inArray)
    ensures LiteralEnd(b, i, inArray) == e
    decreases e - i
  {
  }

  lemma TrimmedIs(b: string, i: nat, n: nat, e: nat)
    requires i < n <= e <= |b| && !IsSpace(b[i]) && !IsSpace(b[n - 1]) && forall k :: n <= k < e ==> IsSpace(b[k])
    ensures Trimmed(b, i, e) == n
    decreases e - n
  {
  }

  /** A value that needs no quotes. */
  predicate BareOk(s: string, inArray: bool) {
    && s != [] && !IsSpace(s[0]) && !IsSpace(s[|s| - 1])
    && s[0] != '[' && s[0] != '\'' && s[0] != '\"' && !Stops(s[0], inArray)
    && forall k :: 0 < k < |s| ==> !Stops(s[k], inArray)
  }

  lemma BareReads(b: string, i: nat, s: string, inArray: bool)
    requires Guarded(b) && BareOk(s, inArray) && At(b, i, s) && Delimited(b, i + |s|, inArray)
    ensures i < |b| && !IsSpace(b[i]) && Extract(b, i, inArray) == Ok(s, i + |s|)
  {
    var n := i + |s|;
    var e := SkipWhile(b, n, IsWs);
    SkipWhileAll(b, n, IsWs);
    AtIndex(b, i, s, 0);
    AtIndex(b, i, s, |s| - 1);
    forall k | i + 1 <= k < e ensures !Stops(b[k], inArray) {
      if k < n {
        AtIndex(b, i, s, k - i);
      }
    }
    LiteralEndIs(b, i + 1, e, inArray);
    TrimmedIs(b, i, n, e);
    assert b[i..n] == s;
  }

  lemma LiteralReads(b: string, i: nat, s: string, inArray: bool)
    requires Guarded(b) && IsStringLiteral(s) && At(b, i, s) && Delimited(b, i + |s|, inArray)
    ensures i < |b| && !IsSpace(b[i]) && Extract(b, i, inArray) == Ok(s, i + |s|)
  {
    hide Extract, At, Delimited;
    BareReads(b, i, s, inArray);
  }

  lemma DoubleQuotedReads(b: string, i: nat, s: string, f: char -> bool, inArray: bool)
    requires Guarded(b) && IsBytes(s) && At(b, i, DoubleQuoted(s, f)) && i + |DoubleQuoted(s, f)| < |b|
    ensures b[i] == '\"'
    ensures if NUL in s then Extract(b, i, inArray).Bad? else Extract(b, i, inArray) == Ok(s, i + |DoubleQuoted(s, f)|)
  {
    assert DoubleQuoted(s, f) == "\"" + (DoubleBody(s, f) + "\"");
    AtSplit(b, i, "\"", DoubleBody(s, f) + "\"");
    AtIndex(b, i, "\"", 0);
    DoubleReads(b, i + 1, s, f);
  }

  lemma SingleQuotedReads(b: string, i: nat, s: string, inArray: bool)
    requires Guarded(b) && At(b, i, SingleQuoted(s)) && i + |SingleQuoted(s)| < |b| && b[i + |SingleQuoted(s)|] != '\''
    ensures b[i] == '\''
    ensures if '\n' in s then Extract(b, i, inArray).Bad? else Extract(b, i, inArray) == Ok(s, i + |SingleQuoted(s)|)
  {
    assert SingleQuoted(s) == "'" + (SingleBody(s) + "'");
    AtSplit(b, i, "'", SingleBody(s) + "'");
    AtIndex(b, i, "'", 0);
    SingleReads(b, i + 1, s);
  }

  /** The printers and the reader are inverse: what escape_string or full_escape_string prints, in front
      of anything that may follow a value, is read back as the string, leaving what follows, for exactly
      the strings without a NUL byte. */
  lemma RoundTrip(b: string, i: nat, s: string, f: char -> bool, inArray: bool)
    requires IsBytes(s) && f('\n') && f(NUL)
    requires Guarded(b) && At(b, i, Escaped(s, f)) && i + |Escaped(s, f)| < |b| && Delimited(b, i + |Escaped(s, f)|, inArray)
    ensures i < |b| && !IsSpace(b[i])
    ensures Extract(b, i, inArray) == Ok(s, i + |Escaped(s, f)|) <==> NUL !in s
    ensures NUL in s ==> Extract(b, i, inArray).Bad?
  {
    hide Extract, DoubleQuoted, SingleQuoted;
    if exists k :: 0 <= k < |s| && (s[k] == '\'' || f(s[k])) {
      DoubleQuotedReads(b, i, s, f, inArray);
    } else if IsStringLiteral(s) {
      LiteralReads(b, i, s, inArray);
    } else {
      SingleQuotedReads(b, i, s, inArray);
    }
  }

  /** escape_string() and the reader. */
  lemma EscapeRoundTrip(b: string, i: nat, s: string, inArray: bool)
    requires IsBytes(s) && Guarded(b) && At(b, i, Escaped(s, IsCntrl))
    requires i + |Escaped(s, IsCntrl)| < |b| && Delimited(b, i + |Escaped(s, IsCntrl)|, inArray)
    ensures i < |b| && !IsSpace(b[i])
    ensures Extract(b, i, inArray) == Ok(s, i + |Escaped(s, IsCntrl)|) <==> NUL !in s
  {
    hide Extract, Escaped;
    RoundTrip(b, i, s, IsCntrl, inArray);
  }

  /** full_escape_string() and the reader. */
  lemma FullEscapeRoundTrip(b: string, i: nat, s: string, inArray: bool)
    requires IsBytes(s) && Guarded(b) && At(b, i, Escaped(s, NotPrint))
    requires i + |Escaped(s, NotPrint)| < |b| && Delimited(b, i + |Escaped(s, NotPrint)|, inArray)
    ensures i < |b| && !IsSpace(b[i])
    ensures Extract(b, i, inArray) == Ok(s, i + |Escaped(s, NotPrint)|) <==> NUL !in s
  {
    hide Extract, Escaped;
    RoundTrip(b, i, s, NotPrint, inArray);
  }

  /** An input that does not come back: a single NUL byte at the end of a line. */
  lemma NulDoesNotComeBack()
    ensures Escaped([NUL], IsCntrl) == "\"\\0\""
    ensures Extract("\"\\0\"\n", 0, false).Bad?
  {
    var s, b := [NUL], "\"\\0\"\n";
    assert s[0] == NUL && IsCntrl(s[0]);
    assert Chunk(NUL, IsCntrl) == "\\0" && s[1..] == [];
    assert DoubleBody(s, IsCntrl) == "\\0";
    assert At(b, 0, DoubleQuoted(s, IsCntrl));
    DoubleQuotedReads(b, 0, s, IsCntrl, false);
  }
}
