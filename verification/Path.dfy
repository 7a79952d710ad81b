/**
  path_absolute(): resolving a path against a directory by editing a string, proved equal to walking the
  components of the path on a stack of names.
 */
module Path {

  // ----- paths as text

  predicate EndsWithSlash(s: string) { s != [] && s[|s| - 1] == '/' }

  predicate SlashFree(s: string) { forall i :: 0 <= i < |s| ==> s[i] != '/' }

  /** rfind('/'), -1 standing for npos. */
  function LastSlash(s: string): (k: int)
    ensures -1 <= k < |s| && (k >= 0 ==> s[k] == '/')
    ensures forall i :: k < i < |s| ==> s[i] != '/'
  {
    if s == [] then -1 else if s[|s| - 1] == '/' then |s| - 1 else LastSlash(s[..|s| - 1])
  }

  /** path_filename() */
  function Filename(s: string): string { s[LastSlash(s) + 1..] }

  lemma LastSlashIs(s: string, k: int)
    requires -1 <= k < |s| && (k >= 0 ==> s[k] == '/') && forall i :: k < i < |s| ==> s[i] != '/'
    ensures LastSlash(s) == k
  {
    hide LastSlash;
  }

  lemma FilenameIs(pre: string, name: string)
    requires (pre == [] || EndsWithSlash(pre)) && SlashFree(name)
    ensures Filename(pre + name) == name
  {
    hide LastSlash;
    LastSlashIs(pre + name, |pre| - 1);
    assert (pre + name)[|pre|..] == name;
  }

  /** The position of the first '/' from i on, or the end. */
  method NextSlash(s: string, i: nat) returns (k: nat)
    requires i <= |s|
    ensures i <= k <= |s| && (k < |s| ==> s[k] == '/')
    ensures forall j :: i <= j < k ==> s[j] != '/'
  {
    k := i;
    while k < |s| && s[k] != '/'
      invariant i <= k <= |s| && forall j :: i <= j < k ==> s[j] != '/'
    {
      k := k + 1;
    }
  }

  // ----- directories as names

  /** The names on the way to a place, and whether its text ends in a slash. */
  datatype Place = Place(parts: seq<string>, dir: bool)

  function Join(parts: seq<string>): string {
    if |parts| == 0 then []
    else if |parts| == 1 then parts[0]
    else Join(parts[..|parts| - 1]) + "/" + parts[|parts| - 1]
  }

  function Slash(b: bool): string { if b then "/" else [] }

  function Spell(root: bool, p: Place): string {
    Slash(root) + Join(p.parts) + Slash(p.parts != [] && p.dir)
  }

  predicate WellFormed(root: bool, p: Place) {
    && AllSlashFree(p.parts)
    && (p.parts != [] && p.parts[|p.parts| - 1] == [] ==> p.dir)
    && (!root && p.parts != [] ==> p.parts[0] != [])
  }

  function Split(s: string): (parts: seq<string>)
    ensures parts != []
  {
    var k := LastSlash(s);
    if k < 0 then [s] else Split(s[..k]) + [s[k + 1..]]
  }

  predicate Root(s: string) { s != [] && s[0] == '/' }

  function Parse(s: string): Place {
    ParseRest(if Root(s) then s[1..] else s)
  }

  lemma SplitFree(name: string)
    requires SlashFree(name)
    ensures Split(name) == [name]
  {
    LastSlashIs(name, -1);
  }

  lemma SplitSnoc(t: string, name: string)
    requires SlashFree(name)
    ensures Split(t + "/" + name) == Split(t) + [name]
  {
    hide LastSlash;
    var s := t + "/" + name;
    LastSlashIs(s, |t|);
    assert s[..|t|] == t && s[|t| + 1..] == name;
  }

  /** A text is slash-free, or what stands before its last slash and a slash-free name. */
  lemma Unsnoc(s: string) returns (t: string, name: string)
    ensures SlashFree(name)
    ensures if LastSlash(s) < 0 then s == name && t == [] else s == t + "/" + name && |t| < |s|
  {
    hide LastSlash;
    var k := LastSlash(s);
    name := s[k + 1..];
    if k < 0 {
      t := [];
      assert name == s;
    } else {
      t := s[..k];
      assert s == t + "/" + name;
    }
  }

  predicate AllSlashFree(parts: seq<string>) { forall i :: 0 <= i < |parts| ==> SlashFree(parts[i]) }

  lemma {:induction false} JoinSplit(s: string)
    ensures Join(Split(s)) == s && AllSlashFree(Split(s))
    decreases |s|
  {
    hide Split, Join, LastSlash, SlashFree;
    var t, name := Unsnoc(s);
    if LastSlash(s) < 0 {
      SplitFree(name);
      JoinSnoc([], name);
      JoinNothing();
      assert [] + [name] == [name];
    } else {
      JoinSplit(t);
      SplitSnoc(t, name);
      JoinSnoc(Split(t), name);
    }
  }

  lemma {:induction false} SplitEnds(s: string)
    ensures Split(s)[0] == [] <==> s == [] || s[0] == '/'
    ensures Split(s)[|Split(s)| - 1] == [] <==> s == [] || EndsWithSlash(s)
    decreases |s|
  {
    hide Split, LastSlash;
    var t, name := Unsnoc(s);
    if LastSlash(s) < 0 {
      SplitFree(name);
    } else {
      SplitEnds(t);
      SplitSnoc(t, name);
    }
  }

  /** The names of a text without its leading slash. */
  function ParseRest(rest: string): Place {
    if rest == [] then Place([], true)
    else if EndsWithSlash(rest) then Place(Split(rest[..|rest| - 1]), true)
    else Place(Split(rest), false)
  }

  lemma RestSpells(rest: string)
    ensures var p := ParseRest(rest);
            && Join(p.parts) + Slash(p.parts != [] && p.dir) == rest && AllSlashFree(p.parts)
            && (p.parts != [] && p.parts[|p.parts| - 1] == [] ==> p.dir)
            && (p.parts != [] ==> rest != [] && (p.parts[0] == [] <==> rest[0] == '/'))
  {
    hide Split, Join, SlashFree;
    if rest == [] {
      JoinNothing();
    } else if EndsWithSlash(rest) {
      var t := rest[..|rest| - 1];
      JoinSplit(t);
      SplitEnds(t);
      assert rest == t + "/";
    } else {
      JoinSplit(rest);
      SplitEnds(rest);
    }
  }

  /** Every text is the spelling of a place. */
  lemma ParseSpells(s: string)
    ensures WellFormed(Root(s), Parse(s)) && Spell(Root(s), Parse(s)) == s
  {
    hide ParseRest, Join, AllSlashFree;
    var rest := if Root(s) then s[1..] else s;
    var p := ParseRest(rest);
    RestSpells(rest);
    assert s == Slash(Root(s)) + rest;
    assert Slash(Root(s)) + Join(p.parts) + Slash(p.parts != [] && p.dir) ==
           Slash(Root(s)) + (Join(p.parts) + Slash(p.parts != [] && p.dir));
  }

  lemma JoinNothing()
    ensures Join([]) == []
  {
  }

  lemma JoinSnoc(parts: seq<string>, name: string)
    ensures Join(parts + [name]) == Join(parts) + Slash(parts != []) + name
  {
    assert (parts + [name])[..|parts|] == parts;
  }

  lemma SpellSnoc(root: bool, parts: seq<string>, name: string, dir: bool)
    ensures Spell(root, Place(parts + [name], dir)) == Spell(root, Place(parts, true)) + name + Slash(dir)
  {
    hide Join;
    JoinSnoc(parts, name);
    var p := Place(parts, true);
    assert Slash(root) + (Join(parts) + Slash(parts != []) + name) + Slash(dir) ==
           (Slash(root) + Join(parts) + Slash(parts != [])) + name + Slash(dir);
  }

  lemma {:induction false} SplitJoin(parts: seq<string>)
    requires parts != [] && AllSlashFree(parts)
    ensures Split(Join(parts)) == parts
  {
    hide Split, LastSlash, SlashFree;
    var n := |parts| - 1;
    assert parts == parts[..n] + [parts[n]];
    if n == 0 {
      SplitFree(parts[0]);
    } else {
      SplitJoin(parts[..n]);
      SplitSnoc(Join(parts[..n]), parts[n]);
    }
  }

  lemma RestParses(p: Place, j: string, rest: string)
    requires p.parts != [] && Split(j) == p.parts && rest == j + Slash(p.dir)
    requires !p.dir ==> j != [] && !EndsWithSlash(j)
    ensures rest != [] && ParseRest(rest) == p
  {
    hide Split;
    if p.dir {
      assert rest[..|rest| - 1] == j;
    } else {
      assert rest == j;
    }
  }

  lemma ParseNothing()
    ensures ParseRest([]) == Place([], true)
  {
  }

  lemma JoinEnds(root: bool, p: Place)
    requires WellFormed(root, p) && p.parts != []
    ensures Split(Join(p.parts)) == p.parts
    ensures !p.dir ==> Join(p.parts) != [] && !EndsWithSlash(Join(p.parts))
    ensures !root ==> Join(p.parts) != [] && Join(p.parts)[0] != '/'
  {
    hide Split, Join, SlashFree;
    SplitJoin(p.parts);
    SplitEnds(Join(p.parts));
  }

  lemma ParseSpell(root: bool, p: Place)
    requires WellFormed(root, p) && (p.parts == [] ==> p.dir)
    ensures Root(Spell(root, p)) == root && Parse(Spell(root, p)) == p
  {
    hide Join, SlashFree, ParseRest;
    var s := Spell(root, p);
    if p.parts == [] {
      JoinNothing();
      ParseNothing();
    } else {
      var j := Join(p.parts);
      var rest := j + Slash(p.dir);
      JoinEnds(root, p);
      assert s == Slash(root) + rest;
      assert (if root then s[1..] else s) == rest;
      RestParses(p, j, rest);
    }
  }

  // ----- walking

  /** The length of the first name of a path that does not begin with a slash. */
  function NameEnd(path: string): (k: nat)
    requires path != [] && path[0] != '/'
    ensures 0 < k <= |path| && (k < |path| ==> path[k] == '/')
    ensures forall i :: 0 <= i < k ==> path[i] != '/'
  {
    if |path| == 1 || path[1] == '/' then 1 else 1 + NameEnd(path[1..])
  }

  /** The non-empty names of a path. */
  function Components(path: string): seq<string>
    decreases |path|
  {
    if path == [] then []
    else if path[0] == '/' then Components(path[1..])
    else [path[..NameEnd(path)]] + Components(path[NameEnd(path)..])
  }

  function Step(p: Place, name: string): Place {
    if name == ".." then Place(if p.parts == [] then [] else p.parts[..|p.parts| - 1], true)
    else if name == "." then Place(p.parts, true)
    else Place(p.parts + [name], false)
  }

  function Walk(p: Place, names: seq<string>): Place
    decreases |names|
  {
    if names == [] then p else Walk(Step(p, names[0]), names[1..])
  }

  /** What path_absolute() returns. */
  function Absolute(path: string, dir: string): string {
    if path == [] then dir
    else
      var end := Walk(Start(path, dir), Components(path));
      if !Rooted(path, dir) && end.parts == [] && EndsWithSlash(path) then "/"
      else Spell(Rooted(path, dir), end.(dir := end.dir || EndsWithSlash(path)))
  }

  predicate Rooted(path: string, dir: string) { Root(path) || Root(dir) || dir == [] }

  function Start(path: string, dir: string): Place {
    if Root(path) then Place([], true) else Place(Parse(dir).parts, true)
  }

  // ----- the string is edited as the walk goes

  predicate IsName(name: string) { name != [] && SlashFree(name) }

  lemma StepKeepsForm(root: bool, p: Place, name: string)
    requires WellFormed(root, p) && IsName(name)
    ensures WellFormed(root, Step(p, name))
  {
    hide SlashFree;
  }

  /** A text ends in a slash where its place says so. */
  lemma SpellEnds(root: bool, p: Place)
    requires WellFormed(root, p)
    ensures EndsWithSlash(Spell(root, p)) <==> (if p.parts == [] then root else p.dir)
    ensures Spell(root, p) == [] <==> !root && p.parts == []
    ensures Spell(root, p) == "/" <==> root && p.parts == []
  {
    hide Join;
    JoinNothing();
    if p.parts != [] {
      var n := |p.parts| - 1;
      assert p.parts == p.parts[..n] + [p.parts[n]];
      SpellSnoc(root, p.parts[..n], p.parts[n], p.dir);
      if !root && n > 0 {
        FirstName(p.parts[..n]);
      }
    }
  }

  lemma {:induction false} FirstName(parts: seq<string>)
    requires parts != [] && parts[0] != []
    ensures Join(parts) != [] && Join(parts)[0] == parts[0][0]
  {
    if |parts| > 1 {
      FirstName(parts[..|parts| - 1]);
    }
  }

  /** Erases the last component of the text, leaving what stands before it. */
  method EraseLastComponent(curr: string, ghost root: bool, ghost p: Place) returns (r: string)
    requires WellFormed(root, p) && curr == Spell(root, p)
    ensures r == Spell(root, Step(p, ".."))
  {
    hide Spell, Step, LastSlash, WellFormed;
    r := curr;
    if EndsWithSlash(r) && r != "/" {
      r := r[..|r| - 1];
    }
    r := r[..|r| - |Filename(r)|];
    ErasedName(root, p);
  }

  function Erased(s: string): string {
    var r := if EndsWithSlash(s) && s != "/" then s[..|s| - 1] else s;
    r[..|r| - |Filename(r)|]
  }

  lemma ErasedIs(pre: string, name: string, dir: bool)
    requires (pre == [] || EndsWithSlash(pre)) && SlashFree(name)
    requires if name == [] then dir && pre != [] else true
    ensures Erased(pre + name + Slash(dir)) == pre
  {
    hide LastSlash, Filename;
    var s, r := pre + name + Slash(dir), pre + name;
    FilenameIs(pre, name);
    assert (if EndsWithSlash(s) && s != "/" then s[..|s| - 1] else s) == r;
    assert r[..|pre|] == pre;
  }

  lemma ErasedName(root: bool, p: Place)
    requires WellFormed(root, p)
    ensures Erased(Spell(root, p)) == Spell(root, Step(p, ".."))
  {
    hide Spell, Erased, SlashFree;
    if p.parts == [] {
      ErasedTop();
      SpellTop(root, p.dir);
      SpellTop(root, true);
    } else {
      var n := |p.parts| - 1;
      var before := Place(p.parts[..n], true);
      SpellSnoc(root, p.parts[..n], p.parts[n], p.dir);
      assert p.parts == p.parts[..n] + [p.parts[n]];
      SpellEnds(root, before);
      ErasedIs(Spell(root, before), p.parts[n], p.dir);
    }
  }

  lemma SpellTop(root: bool, dir: bool)
    ensures Spell(root, Place([], dir)) == Slash(root)
  {
    JoinNothing();
  }

  lemma ErasedTop()
    ensures Erased([]) == [] && Erased("/") == "/"
  {
    hide LastSlash, Filename;
    FilenameIs("", "");
    FilenameIs("/", "");
    assert "" + "" == "" && "/" + "" == "/";
  }

  method ProcessComponent(curr: string, name: string, ghost root: bool, ghost p: Place) returns (r: string)
    requires WellFormed(root, p) && curr == Spell(root, p) && IsName(name)
    ensures r == Spell(root, Step(p, name)) && WellFormed(root, Step(p, name))
  {
    hide Join, LastSlash, SlashFree;
    StepKeepsForm(root, p, name);
    r := curr;
    if name == ".." {
      r := EraseLastComponent(r, root, p);
      return;
    }
    SpellEnds(root, p);
    if !EndsWithSlash(r) && r != [] {
      r := r + "/";
    }
    assert r == Spell(root, p.(dir := true));
    if name == "." {
      return;
    }
    r := r + name;
    SpellSnoc(root, p.parts, name, false);
  }

  lemma NameEndIs(path: string, k: nat)
    requires 0 < k <= |path| && (k < |path| ==> path[k] == '/') && forall i :: 0 <= i < k ==> path[i] != '/'
    ensures NameEnd(path) == k
  {
  }

  lemma WalkName(path: string, i: nat, k: nat, p: Place)
    requires i < k <= |path| && path[i] != '/' && (k < |path| ==> path[k] == '/')
    requires forall j :: i <= j < k ==> path[j] != '/'
    ensures var next := if k < |path| then k + 1 else k;
            Walk(p, Components(path[i..])) == Walk(Step(p, path[i..k]), Components(path[next..]))
    ensures IsName(path[i..k])
  {
    var rest := path[i..];
    NameEndIs(rest, k - i);
    assert rest[..k - i] == path[i..k] && rest[k - i..] == path[k..];
    var names := Components(rest);
    assert names == [path[i..k]] + Components(path[k..]);
    assert names[1..] == Components(path[k..]);
    if k < |path| {
      assert path[k..][1..] == path[k + 1..];
    }
  }

  /** path_absolute() */
  method PathAbsolute(path: string, currDir: string) returns (currPath: string)
    ensures currPath == Absolute(path, currDir)
  {
    hide Spell, Components, Walk, Parse, WellFormed, SlashFree;
    if path == [] {
      return currDir;
    }
    ghost var root, p := Rooted(path, currDir), Start(path, currDir);
    currPath := currDir;
    if path[0] == '/' {
      currPath := "/";
    }
    if !EndsWithSlash(currPath) {
      currPath := currPath + "/";
    }
    StartSpells(path, currDir);
    var i := 0;
    ghost var rest := path[0..];
    assert rest == path;
    while i < |path|
      invariant 0 <= i <= |path| + 1 && rest == path[if i < |path| then i else |path|..]
      invariant WellFormed(root, p) && currPath == Spell(root, p)
      invariant Walk(p, Components(rest)) == Walk(Start(path, currDir), Components(path))
    {
      if path[i] == '/' {
        SkipSlash(path[i..]);
        assert path[i..][1..] == path[i + 1..];
        i := i + 1;
        rest := path[i..];
        continue;
      }
      var next := NextSlash(path, i + 1);
      WalkName(path, i, next, p);
      currPath := ProcessComponent(currPath, path[i..next], root, p);
      p := Step(p, path[i..next]);
      i := next + 1;
      rest := path[if i < |path| then i else |path|..];
    }
    assert rest == [];
    WalkEnds(p);
    SpellEnds(root, p);
    if EndsWithSlash(path) && !EndsWithSlash(currPath) {
      currPath := currPath + "/";
    }
    Ended(root, p);
  }

  lemma StartSpells(path: string, dir: string)
    requires path != []
    ensures var root, p := Rooted(path, dir), Start(path, dir);
            var from := if Root(path) then "/" else dir;
            WellFormed(root, p) && Spell(root, p) == if EndsWithSlash(from) then from else from + "/"
  {
    hide Split, Join, SlashFree;
    JoinNothing();
    if !Root(path) {
      ParseSpells(dir);
      var p := Parse(dir);
      SpellEnds(Root(dir), p);
      if p.parts != [] {
        assert Slash(Root(dir)) + Join(p.parts) + Slash(p.dir) == dir;
      }
    }
  }

  lemma SkipSlash(path: string)
    requires path != [] && path[0] == '/'
    ensures Components(path) == Components(path[1..])
  {
  }

  lemma WalkEnds(p: Place)
    ensures Components([]) == [] && Walk(p, []) == p
  {
  }

  /** Adding a slash to a text that does not end in one. */
  lemma Ended(root: bool, p: Place)
    requires WellFormed(root, p)
    ensures p.parts == [] && !root ==> Spell(root, p) == []
    ensures p.parts == [] ==> forall d :: Spell(root, Place([], d)) == Spell(root, p)
    ensures p.parts != [] && !p.dir ==> Spell(root, p) + "/" == Spell(root, p.(dir := true))
  {
    JoinNothing();
  }

  // ----- what is promised of the result

  predicate Proper(name: string) { name != [] && name != "." && name != ".." }

  /** An absolute path without repeated separators and without . and .. components. */
  predicate Canonical(s: string) {
    Root(s) && forall i :: 0 <= i < |Parse(s).parts| ==> Proper(Parse(s).parts[i])
  }

  /** How many of k names are left after walking, extra names having been entered on top of them. */
  function Kept(k: nat, extra: nat, names: seq<string>): (n: nat)
    ensures n <= k
    decreases |names|
  {
    if names == [] then k
    else if names[0] == ".." then
      if extra > 0 then Kept(k, extra - 1, names[1..]) else Kept(if k > 0 then k - 1 else 0, 0, names[1..])
    else if names[0] == "." then Kept(k, extra, names[1..])
    else Kept(k, extra + 1, names[1..])
  }

  ghost predicate AllNames(names: seq<string>) { forall i :: 0 <= i < |names| ==> IsName(names[i]) }

  lemma {:induction false} ComponentsAreNames(path: string)
    ensures AllNames(Components(path))
    decreases |path|
  {
    if path != [] {
      if path[0] == '/' {
        ComponentsAreNames(path[1..]);
      } else {
        ComponentsAreNames(path[NameEnd(path)..]);
      }
    }
  }

  lemma {:induction false} WalkKeepsForm(root: bool, p: Place, names: seq<string>)
    requires WellFormed(root, p) && AllNames(names)
    ensures WellFormed(root, Walk(p, names))
    ensures p.dir || p.parts != [] ==> Walk(p, names).parts == [] ==> Walk(p, names).dir
    decreases |names|
  {
    hide WellFormed, IsName;
    if names != [] {
      StepKeepsForm(root, p, names[0]);
      WalkKeepsForm(root, Step(p, names[0]), names[1..]);
    }
  }

  /** Walking keeps the first Kept names of where it starts; all the others are proper. */
  lemma {:induction false} WalkKeeps(p: Place, k: nat, names: seq<string>)
    requires k <= |p.parts| && AllNames(names)
    requires forall i :: k <= i < |p.parts| ==> Proper(p.parts[i])
    ensures var r, n := Walk(p, names).parts, Kept(k, |p.parts| - k, names);
            n <= |r| && r[..n] == p.parts[..n] && forall i :: n <= i < |r| ==> Proper(r[i])
    decreases |names|
  {
    if names != [] {
      var q := Step(p, names[0]);
      if names[0] == ".." && |p.parts| == k {
        WalkKeeps(q, if k > 0 then k - 1 else 0, names[1..]);
      } else {
        WalkKeeps(q, k, names[1..]);
      }
    }
  }

  /** The promise holds exactly when what is left of the directory already meets it. The text "/" also comes
      out of a relative directory that has been left completely by a path ending in a slash. */
  lemma CanonicalIff(path: string, dir: string)
    ensures Canonical(Absolute(path, dir)) <==>
            if path == [] then Canonical(dir)
            else if Root(path) then true
            else
              var parts, names := Parse(dir).parts, Components(path);
              && (Rooted(path, dir) || (Walk(Place(parts, true), names).parts == [] && EndsWithSlash(path)))
              && forall i :: 0 <= i < Kept(|parts|, 0, names) ==> Proper(parts[i])
  {
    hide Components, Walk, Proper, WellFormed, Spell, Kept, Canonical, Parse;
    if path != [] {
      var root, p, names := Rooted(path, dir), Start(path, dir), Components(path);
      StartSpells(path, dir);
      ComponentsAreNames(path);
      WalkKeepsForm(root, p, names);
      ProperWalk(p, names);
      var end := Walk(p, names);
      var q := end.(dir := end.dir || EndsWithSlash(path));
      DirFree(root, end, q.dir);
      CanonicalSpell(root, q);
      TopIsCanonical();
    }
  }

  lemma CanonicalSpell(root: bool, p: Place)
    requires WellFormed(root, p) && (p.parts == [] ==> p.dir)
    ensures Canonical(Spell(root, p)) <==> root && AllProper(p.parts)
  {
    hide Spell, Parse, WellFormed, Proper;
    ParseSpell(root, p);
  }

  predicate AllProper(parts: seq<string>) { forall i :: 0 <= i < |parts| ==> Proper(parts[i]) }

  /** All names at the end of a walk are proper just when the kept ones are. */
  lemma ProperWalk(p: Place, names: seq<string>)
    requires AllNames(names)
    ensures AllProper(Walk(p, names).parts) <==>
            forall i :: 0 <= i < Kept(|p.parts|, 0, names) ==> Proper(p.parts[i])
  {
    hide Walk, Proper, Kept;
    WalkKeeps(p, |p.parts|, names);
    var r, n := Walk(p, names).parts, Kept(|p.parts|, 0, names);
    assert forall i :: 0 <= i < n ==> r[..n][i] == r[i] && p.parts[..n][i] == p.parts[i];
  }

  lemma DirFree(root: bool, p: Place, d: bool)
    requires WellFormed(root, p) && (p.dir ==> d)
    ensures WellFormed(root, p.(dir := d))
  {
  }

  lemma ParseTop()
    ensures Root("/") && Parse("/") == Place([], true)
  {
  }

  /** In the default directory the promise always holds. */
  lemma DefaultIsCanonical(path: string)
    ensures Canonical(Absolute(path, "/"))
  {
    hide Absolute, Components, Walk, Kept, Canonical;
    ParseTop();
    CanonicalIff(path, "/");
    TopIsCanonical();
    AbsoluteOfNothing("/");
  }

  lemma TopIsCanonical()
    ensures Canonical("/")
  {
    ParseTop();
  }

  lemma AbsoluteOfNothing(dir: string)
    ensures Absolute([], dir) == dir
  {
  }

  /** The promise fails in a directory whose own text has a .. component. */
  lemma NotCanonicalInDottedDirectory()
    ensures !Canonical(Absolute("a", "/.."))
  {
    hide Absolute, Canonical, Walk;
    var dir := "/..";
    ParseSpells(dir);
    SplitFree("..");
    assert dir[1..] == "..";
    ComponentsName("a");
    assert Kept(1, 1, []) == 1;
    CanonicalIff("a", dir);
  }

  // ----- resolving twice

  lemma {:induction false} ComponentsConcat(a: string, b: string)
    ensures Components(a + "/" + b) == Components(a) + Components(b)
    decreases |a|
  {
    var s := a + "/" + b;
    if a == [] {
      assert s[1..] == b;
    } else if a[0] == '/' {
      assert s[1..] == a[1..] + "/" + b;
      ComponentsConcat(a[1..], b);
    } else {
      var k := NameEnd(a);
      NameEndIs(s, k);
      assert s[..k] == a[..k] && s[k..] == a[k..] + "/" + b;
      ComponentsConcat(a[k..], b);
    }
  }

  lemma ComponentsName(name: string)
    requires IsName(name)
    ensures Components(name) == [name]
  {
    NameEndIs(name, |name|);
    assert name[..|name|] == name && name[|name|..] == [];
  }

  lemma {:induction false} ComponentsJoin(parts: seq<string>)
    requires AllNames(parts)
    ensures Components(Join(parts)) == parts
  {
    hide Components, IsName;
    var n := |parts| - 1;
    if n < 0 {
      WalkEnds(Place([], true));
    } else {
      assert parts == parts[..n] + [parts[n]];
      ComponentsName(parts[n]);
      if n > 0 {
        ComponentsJoin(parts[..n]);
        ComponentsConcat(Join(parts[..n]), parts[n]);
      }
    }
  }

  lemma ComponentsSpell(root: bool, p: Place)
    requires AllNames(p.parts)
    ensures Components(Spell(root, p)) == p.parts
  {
    hide Components, IsName, Join;
    var j := Join(p.parts);
    ComponentsJoin(p.parts);
    ComponentsConcat([], j + Slash(p.parts != [] && p.dir));
    ComponentsConcat(j, []);
    WalkEnds(p);
    assert [] + "/" + (j + Slash(p.parts != [] && p.dir)) == "/" + j + Slash(p.parts != [] && p.dir);
    assert j + "/" + [] == j + "/";
    assert Spell(root, p) == if root then "/" + j + Slash(p.parts != [] && p.dir) else j + Slash(p.parts != [] && p.dir);
    assert j + Slash(false) == j;
  }

  lemma {:induction false} WalkProper(p: Place, names: seq<string>)
    requires forall i :: 0 <= i < |names| ==> Proper(names[i])
    ensures Walk(p, names).parts == p.parts + names
    ensures names != [] ==> !Walk(p, names).dir
    ensures names == [] ==> Walk(p, names) == p
    decreases |names|
  {
    if names != [] {
      WalkProper(Step(p, names[0]), names[1..]);
      assert p.parts + names == p.parts + [names[0]] + names[1..];
    }
  }

  lemma ProperNames(root: bool, p: Place)
    requires WellFormed(root, p) && forall i :: 0 <= i < |p.parts| ==> Proper(p.parts[i])
    ensures AllNames(p.parts)
  {
  }

  /** A canonical path stands for itself, in whatever directory. */
  lemma CanonicalIsFixed(s: string, dir: string)
    requires Canonical(s)
    ensures Absolute(s, dir) == s
  {
    hide Components, Walk, Spell, Proper, WellFormed, IsName, Parse;
    var p := Parse(s);
    ParseSpells(s);
    ProperNames(true, p);
    ComponentsSpell(true, p);
    WalkProper(Place([], true), p.parts);
    SpellEnds(true, p);
    assert [] + p.parts == p.parts;
    Ended(true, p);
  }

  /** path_absolute() is idempotent. */
  lemma Idempotent(path: string, dir: string)
    ensures Absolute(Absolute(path, "/"), dir) == Absolute(path, "/")
  {
    hide Absolute, Canonical;
    DefaultIsCanonical(path);
    CanonicalIsFixed(Absolute(path, "/"), dir);
  }

  lemma {:induction false} WalkConcat(p: Place, a: seq<string>, b: seq<string>)
    ensures Walk(p, a + b) == Walk(Walk(p, a), b)
    decreases |a|
  {
    if a == [] {
      assert a + b == b;
    } else {
      assert (a + b)[1..] == a[1..] + b;
      WalkConcat(Step(p, a[0]), a[1..], b);
    }
  }

  lemma WalkForgetsDir(p: Place, d: bool, names: seq<string>)
    requires names != []
    ensures Walk(p, names) == Walk(p.(dir := d), names)
  {
  }

  lemma ComponentsOfRelative(path: string)
    requires path != [] && !Root(path)
    ensures Components(path) != []
  {
  }

  /** Resolving p and then q from there is resolving p/q, exactly when p ends inside a directory that is
      rooted or still has a name, or p/q itself leaves nothing. */
  lemma Composes(p: string, q: string, dir: string)
    requires p != [] && q != [] && !Root(q)
    ensures Absolute(p + "/" + q, dir) == Absolute(q, Absolute(p, dir)) <==>
            || Rooted(p, dir) || Walk(Start(p, dir), Components(p)).parts != []
            || (Walk(Place([], true), Components(q)).parts == [] && EndsWithSlash(q))
  {
    hide Components, Walk, Spell, WellFormed, IsName, Parse;
    var s, a := p + "/" + q, Absolute(p, dir);
    var root, start := Rooted(p, dir), Start(p, dir);
    var mid := Walk(start, Components(p));
    var at := mid.(dir := mid.dir || EndsWithSlash(p));
    ComponentsConcat(p, q);
    WalkConcat(start, Components(p), Components(q));
    ComponentsOfRelative(q);
    WalkForgetsDir(mid, true, Components(q));
    StartSpells(p, dir);
    ComponentsAreNames(p);
    ComponentsAreNames(q);
    WalkKeepsForm(root, start, Components(p));
    DirFree(root, mid, at.dir);
    ParseSpell(root, at);
    ParseTop();
    var end := Walk(mid.(dir := true), Components(q));
    WalkKeepsForm(true, mid.(dir := true), Components(q)) by { DirFree(root, mid, true); Rerooted(root, mid.(dir := true)); }
    WalkKeepsForm(root, mid.(dir := true), Components(q)) by { DirFree(root, mid, true); }
    var last := end.(dir := end.dir || EndsWithSlash(q));
    DirFree(root, end, last.dir);
    DirFree(true, end, last.dir);
    SpellEnds(root, last);
    SpellEnds(true, last);
    SpellEnds(root, at);
    ParseSpell(root, last);
    ParseSpell(true, last);
  }

  lemma Rerooted(root: bool, p: Place)
    requires WellFormed(root, p)
    ensures WellFormed(true, p)
  {
  }

  // ----- what single components do

  lemma OneStep(p: Place, name: string)
    ensures Walk(p, [name]) == Step(p, name)
  {
    hide Step;
    assert [name][1..] == [];
    WalkEnds(Step(p, name));
  }

  lemma WalkOn(p: Place, names: seq<string>, name: string)
    ensures Walk(p, names + [name]) == Step(Walk(p, names), name)
  {
    hide Walk, Step;
    WalkConcat(p, names, [name]);
    OneStep(Walk(p, names), name);
  }

  /** Entering a name appends it to the directory, after exactly one more slash if there is none. */
  lemma EnterName(name: string, dir: string)
    requires IsName(name) && Proper(name)
    ensures Absolute(name, dir) == (if EndsWithSlash(dir) then dir else dir + "/") + name
  {
    hide Components, Walk, Spell, WellFormed, Parse;
    var root, p := Rooted(name, dir), Start(name, dir);
    StartSpells(name, dir);
    ComponentsName(name);
    OneStep(p, name);
    SpellSnoc(root, p.parts, name, false);
    assert Slash(false) == [];
  }

  /** The names of a path with one more at its end. */
  lemma ComponentsSnoc(p: string, name: string)
    requires IsName(name)
    ensures Components(p + "/" + name) == Components(p) + [name]
  {
    hide Components;
    ComponentsConcat(p, name);
    ComponentsName(name);
  }

  /** Going up undoes entering a name. */
  lemma ParentUndoes(p: string, name: string, dir: string)
    requires IsName(name) && Proper(name)
    ensures Absolute(p + "/" + name + "/..", dir) == Absolute(p + "/.", dir)
  {
    hide Components, Walk, Spell, Parse;
    var up, stay := p + "/" + name + "/..", p + "/.";
    assert up == (p + "/" + name) + "/" + ".." && stay == p + "/" + ".";
    ComponentsSnoc(p + "/" + name, "..");
    ComponentsSnoc(p, name);
    ComponentsSnoc(p, ".");
    var start := Start(up, dir);
    assert Start(stay, dir) == start && Rooted(stay, dir) == Rooted(up, dir);
    WalkOn(start, Components(p) + [name], "..");
    WalkOn(start, Components(p), name);
    WalkOn(start, Components(p), ".");
    var q := Walk(start, Components(p)).parts;
    assert (q + [name])[..|q|] == q;
  }

  /** There is nothing above the root. */
  lemma ParentOfTop(dir: string)
    ensures Absolute("/..", dir) == "/"
  {
    hide Components, Walk, Spell;
    ComponentsSnoc([], "..");
    WalkEnds(Place([], true));
    assert [] + "/" + ".." == "/.." && [] + [".."] == [".."];
    OneStep(Place([], true), "..");
    SpellTop(true, true);
  }

  /** The result of a path in an absolute directory ends in a slash just when it is the root, the path ends in
      a slash, or its last component is a dot or two. */
  lemma {:induction false} EndsInSlash(path: string, dir: string)
    requires path != [] && Rooted(path, dir)
    ensures var names := Components(path);
            EndsWithSlash(Absolute(path, dir)) <==>
            || Absolute(path, dir) == "/" || EndsWithSlash(path)
            || (names != [] && (names[|names| - 1] == "." || names[|names| - 1] == ".."))
  {
    hide Components, Walk, Spell, Parse, WellFormed, AllNames;
    var names, start := Components(path), Start(path, dir);
    StartSpells(path, dir);
    ComponentsAreNames(path);
    WalkKeepsForm(true, start, names);
    var end := Walk(start, names);
    var last := end.(dir := end.dir || EndsWithSlash(path));
    DirFree(true, end, last.dir);
    SpellEnds(true, last);
    if names == [] {
      WalkEnds(start);
      SlashesOnly(path);
    } else {
      var n := |names| - 1;
      assert names == names[..n] + [names[n]];
      WalkOn(start, names[..n], names[n]);
    }
  }

  /** A path without names consists of slashes. */
  lemma {:induction false} SlashesOnly(path: string)
    requires path != [] && Components(path) == []
    ensures EndsWithSlash(path)
    decreases |path|
  {
    if |path| > 1 {
      SlashesOnly(path[1..]);
    }
  }
}
