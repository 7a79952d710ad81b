/**
  The solutions of a Simfile: loading makes every path relative to the package and unable to leave it, and
  loading what was dumped changes nothing.
 */
module SimfilePaths {
  import opened Ctype
  import opened ConfigValue
  import opened ConfigFile
  import opened ConfigPrint
  import Path
  import opened Wrappers

  // ----- one path

  /** A path resolved in "/" without the leading slash. */
  function Secured(path: string): (r: string)
    ensures Path.Absolute(path, "/") == "/" + r
  {
    Path.DefaultIsCanonical(path);
    Path.Absolute(path, "/")[1..]
  }

  /** The text of a canonical path without its leading slash stands for the same path. */
  lemma CanonicalFromTop(s: string)
    requires Path.Canonical(s)
    ensures Path.Absolute(s[1..], "/") == s
  {
    hide Path.Components, Path.Walk, Path.Proper, Path.WellFormed, Path.IsName, Path.Parse, Path.Join;
    var p := Path.Parse(s);
    Path.ParseSpells(s);
    Path.ParseTop();
    Path.ProperNames(true, p);
    Path.ComponentsSpell(false, p);
    assert s[1..] == Path.Spell(false, p);
    Path.WalkProper(Path.Place([], true), p.parts);
    Path.SpellEnds(true, p);
    assert [] + p.parts == p.parts;
    Path.Ended(true, p);
  }

  lemma SecuredIsFixed(path: string)
    ensures Secured(Secured(path)) == Secured(path)
  {
    hide Path.Absolute, Path.Canonical;
    var s := Path.Absolute(path, "/");
    Path.DefaultIsCanonical(path);
    assert s == "/" + Secured(path);
    CanonicalFromTop(s);
    assert s[1..] == Secured(path);
  }

  /** Every component of a secured path is a proper name, so that no prefix of it leaves the package. */
  lemma SecuredStaysInside(path: string)
    ensures !Path.Root(Secured(path))
    ensures forall name :: name in Path.Components(Secured(path)) ==> Path.Proper(name)
  {
    hide Path.Absolute, Path.Components, Path.Proper, Path.IsName, Path.Parse, Path.Join, Path.SlashFree;
    var s := Path.Absolute(path, "/");
    Path.DefaultIsCanonical(path);
    var p := Path.Parse(s);
    Path.ParseSpells(s);
    Path.ProperNames(true, p);
    Path.ComponentsSpell(false, p);
    assert Secured(path) == s[1..] == Path.Spell(false, p);
    if p.parts == [] {
      Path.JoinNothing();
    } else {
      FirstIsName(p.parts[0]);
      Path.FirstName(p.parts);
    }
  }

  lemma FirstIsName(name: string)
    requires Path.IsName(name)
    ensures name != [] && name[0] != '/'
  {
  }

  // ----- characters

  predicate Clean(s: string, f: char -> bool) { forall i :: 0 <= i < |s| ==> f(s[i]) }

  predicate AllClean(names: seq<string>, f: char -> bool) { forall i :: 0 <= i < |names| ==> Clean(names[i], f) }

  lemma {:induction false} ComponentsClean(path: string, f: char -> bool)
    requires Clean(path, f)
    ensures AllClean(Path.Components(path), f)
    decreases |path|
  {
    if path != [] {
      if path[0] == '/' {
        ComponentsClean(path[1..], f);
      } else {
        ComponentsClean(path[Path.NameEnd(path)..], f);
      }
    }
  }

  lemma {:induction false} WalkClean(p: Path.Place, names: seq<string>, f: char -> bool)
    requires AllClean(p.parts, f) && AllClean(names, f)
    ensures AllClean(Path.Walk(p, names).parts, f)
    decreases |names|
  {
    hide Clean;
    if names != [] {
      WalkClean(Path.Step(p, names[0]), names[1..], f);
    }
  }

  lemma {:induction false} JoinClean(parts: seq<string>, f: char -> bool)
    requires AllClean(parts, f) && f('/')
    ensures Clean(Path.Join(parts), f)
  {
    if |parts| > 1 {
      JoinClean(parts[..|parts| - 1], f);
    }
  }

  /** Resolving a path brings in no character but the separator. */
  lemma SecuredClean(path: string, f: char -> bool)
    requires Clean(path, f) && f('/')
    ensures Clean(Secured(path), f)
  {
    hide Path.Components, Path.Walk, Path.Join, Path.Parse;
    ComponentsClean(path, f);
    Path.ParseTop();
    var start := Path.Start(path, "/");
    WalkClean(start, Path.Components(path), f);
    JoinClean(Path.Walk(start, Path.Components(path)).parts, f);
    assert Clean(Path.Absolute(path, "/"), f);
    assert forall i :: 0 <= i < |Secured(path)| ==> Secured(path)[i] == Path.Absolute(path, "/")[i + 1];
  }

  // ----- the solutions

  function SecuredAll(paths: seq<string>): (r: seq<string>)
    ensures |r| == |paths|
  {
    seq(|paths|, i requires 0 <= i < |paths| => Secured(paths[i]))
  }

  /** Simfile::load_solutions(): None is the exception for a missing solution. */
  method LoadSolutions(paths: seq<string>) returns (r: Option<seq<string>>)
    ensures r == if paths == [] then None else Some(SecuredAll(paths))
  {
    hide Secured;
    if paths == [] {
      return None;
    }
    var solutions: seq<string> := [];
    for i := 0 to |paths|
      invariant solutions == SecuredAll(paths)[..i]
    {
      var s := Path.PathAbsolute(paths[i], "/");
      var secured := Secured(paths[i]);
      assert s[1..] == secured;
      solutions := solutions + [s[1..]];
    }
    assert SecuredAll(paths)[..|paths|] == SecuredAll(paths);
    r := Some(solutions);
  }

  function SolutionsField(solutions: seq<string>): Field { Field("solutions", Inline(solutions)) }

  lemma SolutionsFieldOk(solutions: seq<string>)
    requires AllBytes(solutions)
    ensures FieldOk(SolutionsField(solutions))
  {
  }

  /** The solutions line of Simfile::dump(). */
  function DumpLine(solutions: seq<string>): string
    requires AllBytes(solutions)
  {
    SolutionsFieldOk(solutions);
    FieldLine(SolutionsField(solutions), IsCntrl)
  }

  method DumpSolutions(solutions: seq<string>) returns (res: string)
    requires AllBytes(solutions)
    ensures res == DumpLine(solutions)
  {
    hide Escaped;
    res := "solutions: [";
    if solutions != [] {
      var e := EscapeString(solutions[0], IsCntrl);
      res := res + e;
      JoinedFront(solutions, 1);
      for i := 1 to |solutions|
        invariant res == "solutions: [" + Joined(solutions[..i], IsCntrl)
      {
        e := EscapeString(solutions[i], IsCntrl);
        res := res + ", " + e;
        JoinedSnoc(solutions[..i], solutions[i]);
        assert solutions[..i + 1] == solutions[..i] + [solutions[i]];
      }
      assert solutions[..|solutions|] == solutions;
    }
    res := res + "]\n";
    assert "solutions" + ": " + ("[" + Joined(solutions, IsCntrl) + "]") + "\n" ==
           "solutions: [" + Joined(solutions, IsCntrl) + "]\n";
  }

  lemma JoinedFront(items: seq<string>, n: nat)
    requires AllBytes(items) && n == 1 <= |items|
    ensures Joined(items[..n], IsCntrl) == Escaped(items[0], IsCntrl)
  {
    hide Escaped;
  }

  lemma {:induction false} JoinedSnoc(items: seq<string>, s: string)
    requires IsBytes(s) && AllBytes(items + [s]) && AllBytes(items) && items != []
    ensures Joined(items + [s], IsCntrl) == Joined(items, IsCntrl) + ", " + Escaped(s, IsCntrl)
  {
    hide Escaped;
    assert (items + [s])[1..] == items[1..] + [s];
    if |items| > 1 {
      assert AllBytes(items[1..]) && AllBytes(items[1..] + [s]);
      JoinedSnoc(items[1..], s);
    } else {
      assert items[1..] + [s] == [s];
    }
  }

  predicate NotNul(c: char) { c != NUL }

  lemma SecuredBytes(paths: seq<string>)
    requires AllBytes(paths)
    ensures AllBytes(SecuredAll(paths))
    ensures NulFree(paths) ==> NulFree(SecuredAll(paths))
  {
    hide Secured;
    forall i | 0 <= i < |paths| ensures IsBytes(Secured(paths[i])) {
      SecuredClean(paths[i], IsByte);
    }
    if NulFree(paths) {
      forall i | 0 <= i < |paths| ensures NUL !in Secured(paths[i]) {
        SecuredClean(paths[i], NotNul);
      }
    }
  }

  /** What has been loaded once can be dumped, between any other printed fields, and loaded again with nothing
      changed, exactly when no printed value has a NUL byte; otherwise the dump is not even a readable file. */
  lemma SolutionsAreFixed(before: seq<Field>, paths: seq<string>, after: seq<Field>)
    requires AllBytes(paths) && FieldsOk(before) && FieldsOk(after)
    ensures AllBytes(SecuredAll(paths)) && SecuredAll(SecuredAll(paths)) == SecuredAll(paths)
    ensures var sols := SecuredAll(paths);
            var fields := before + [SolutionsField(sols)] + after;
            && FieldsOk(fields)
            && var l := Load(FieldsText(fields, IsCntrl) + "\n", 0);
            && (l.error.Fail? <==> !FieldsNulFree(fields))
            && (FieldsNulFree(fields) ==>
                  && |l.entries| == |fields|
                  && l.entries[|before|].name == "solutions" && l.entries[|before|].value == Array(sols))
    ensures NulFree(paths) ==> NulFree(SecuredAll(paths))
  {
    hide Secured, Load, FieldsText, EntriesOf, NulFree, FieldsNulFree;
    var sols := SecuredAll(paths);
    SecuredBytes(paths);
    forall i | 0 <= i < |sols| ensures Secured(sols[i]) == sols[i] {
      SecuredIsFixed(paths[i]);
    }
    var fields := before + [SolutionsField(sols)] + after;
    SolutionsFieldOk(sols);
    FieldsLoad(fields, IsCntrl);
    EntryAt(fields, IsCntrl, 0, |before|);
    assert fields[|before|] == SolutionsField(sols);
  }
}
