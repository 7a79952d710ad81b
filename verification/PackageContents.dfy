/**
  The entries of a package as an ordered set: entries with a common prefix are neighbours, so that cutting
  out a range of the order handles exactly the entries with the prefix, and the main directory shows in the
  first and the last entry.
 */
module PackageContents {
  import Lex = Lexicographic
  import Path

  // ----- prefixes and the order

  predicate HasPrefix(s: string, prefix: string) { prefix <= s }

  predicate AtLeast(a: string, b: string) { !Lex.Less(a, b) }

  lemma {:induction false} PrefixIsLow(prefix: string, s: string)
    requires HasPrefix(s, prefix)
    ensures AtLeast(s, prefix)
  {
    assert s == prefix + s[|prefix|..] && prefix == prefix + [];
    Lex.DropPrefix(prefix, s[|prefix|..], []);
  }

  /** An entry between two entries with a prefix has the prefix. */
  lemma {:induction false} PrefixIsConvex(prefix: string, a: string, b: string, c: string)
    requires HasPrefix(a, prefix) && HasPrefix(c, prefix) && AtLeast(b, a) && AtLeast(c, b)
    ensures HasPrefix(b, prefix)
  {
    if prefix != [] {
      assert a[0] == prefix[0] == c[0];
      assert b != [] && b[0] == prefix[0];
      PrefixIsConvex(prefix[1..], a[1..], b[1..], c[1..]);
      assert b == [b[0]] + b[1..] && prefix == [prefix[0]] + prefix[1..];
    }
  }

  /** Past the prefix, an entry without it ends all entries with it. */
  lemma {:induction false} PrefixIsOver(prefix: string, b: string, c: string)
    requires AtLeast(b, prefix) && !HasPrefix(b, prefix) && AtLeast(c, b)
    ensures !HasPrefix(c, prefix)
  {
    if HasPrefix(c, prefix) {
      PrefixIsConvex(prefix, prefix, b, c);
    }
  }

  // ----- sorted entries

  /** Strictly ascending: what std::set iterates over. */
  predicate Sorted(es: seq<string>) { forall i, j :: 0 <= i < j < |es| ==> Lex.Less(es[i], es[j]) }

  /** The entries with a prefix are those from the lower bound of the prefix up to the first one without it. */
  lemma PrefixRange(es: seq<string>, prefix: string, lo: nat, hi: nat)
    requires Sorted(es) && lo <= hi <= |es|
    requires forall i :: 0 <= i < lo ==> Lex.Less(es[i], prefix)
    requires forall i :: lo <= i < |es| ==> AtLeast(es[i], prefix)
    requires hi < |es| ==> !HasPrefix(es[hi], prefix)
    ensures forall i :: 0 <= i < lo || hi <= i < |es| ==> !HasPrefix(es[i], prefix)
  {
    forall i | 0 <= i < lo || hi <= i < |es| ensures !HasPrefix(es[i], prefix) {
      if i < lo {
        if HasPrefix(es[i], prefix) {
          PrefixIsLow(prefix, es[i]);
        }
      } else if i > hi {
        Asymmetric(es[hi], es[i]);
        PrefixIsOver(prefix, es[hi], es[i]);
      }
    }
  }

  lemma Asymmetric(a: string, b: string)
    requires Lex.Less(a, b)
    ensures AtLeast(b, a)
  {
    if Lex.Less(b, a) {
      Lex.Transitive(a, b, a);
      Lex.Irreflexive(a);
    }
  }

  lemma SortedCut(es: seq<string>, lo: nat, hi: nat)
    requires Sorted(es) && lo <= hi <= |es|
    ensures Sorted(es[..lo] + es[hi..])
  {
    var r := es[..lo] + es[hi..];
    forall i, j | 0 <= i < j < |r| ensures Lex.Less(r[i], r[j]) {
      assert r[i] == es[if i < lo then i else i - lo + hi];
      assert r[j] == es[if j < lo then j else j - lo + hi];
    }
  }

  lemma SortedInsert(es: seq<string>, k: nat, key: string)
    requires Sorted(es) && k <= |es| && (k < |es| ==> es[k] != key)
    requires forall i :: 0 <= i < k ==> Lex.Less(es[i], key)
    requires forall i :: k <= i < |es| ==> AtLeast(es[i], key)
    ensures Sorted(es[..k] + [key] + es[k..])
  {
    var r := es[..k] + [key] + es[k..];
    forall i | k <= i < |es| ensures Lex.Less(key, es[i]) {
      Lex.Trichotomous(key, es[k]);
      if k < i {
        Lex.Transitive(key, es[k], es[i]);
      }
    }
    forall i, j | 0 <= i < j < |r| ensures Lex.Less(r[i], r[j]) {
      if i != k && j != k {
        assert r[i] == es[if i < k then i else i - 1];
        assert r[j] == es[if j < k then j else j - 1];
      }
    }
  }

  /** Strictly ascending entries are determined by which strings are among them. */
  lemma {:induction false} SortedIsUnique(a: seq<string>, b: seq<string>)
    requires Sorted(a) && Sorted(b) && forall s :: s in a <==> s in b
    ensures a == b
  {
    assert a == [] <==> b == [] by {
      assert a != [] ==> a[0] in a;
      assert b != [] ==> b[0] in b;
    }
    if a != [] {
      SameFirst(a, b);
      assert forall s :: s in a[1..] <==> s in a && s != a[0] by { TailOf(a); }
      assert forall s :: s in b[1..] <==> s in b && s != b[0] by { TailOf(b); }
      SortedIsUnique(a[1..], b[1..]);
      assert a == [a[0]] + a[1..] && b == [b[0]] + b[1..];
    }
  }

  /** after holds what AddEntry leaves of before. */
  ghost predicate Added(before: seq<string>, entry: string, after: seq<string>) {
    Sorted(after) && forall s :: s in after <==> s in before || s == entry
  }

  /** after holds what Remove leaves of before. */
  ghost predicate Removed(before: seq<string>, entry: string, after: seq<string>) {
    Sorted(after) && forall s :: s in after <==> s in before && s != entry
  }

  /** remove() undoes add_entry() of a new entry: the same entries in the same order. */
  lemma RemoveUndoesAdd(names: seq<string>, entry: string, added: seq<string>, removed: seq<string>)
    requires Sorted(names) && entry !in names && Added(names, entry, added) && Removed(added, entry, removed)
    ensures removed == names
  {
    SortedIsUnique(removed, names);
  }

  /** add_entry() undoes remove() of an entry that was there. */
  lemma AddUndoesRemove(names: seq<string>, entry: string, removed: seq<string>, added: seq<string>)
    requires Sorted(names) && entry in names && Removed(names, entry, removed) && Added(removed, entry, added)
    ensures added == names
  {
    SortedIsUnique(added, names);
  }

  lemma TailOf(a: seq<string>)
    requires Sorted(a) && a != []
    ensures forall s :: s in a[1..] <==> s in a && s != a[0]
  {
    Lex.Irreflexive(a[0]);
  }

  lemma SameFirst(a: seq<string>, b: seq<string>)
    requires Sorted(a) && Sorted(b) && a != [] && b != [] && forall s :: s in a <==> s in b
    ensures a[0] == b[0]
  {
    assert a[0] in b && b[0] in a;
    if a[0] != b[0] {
      assert Lex.Less(a[0], b[0]);
      assert Lex.Less(b[0], a[0]);
      Asymmetric(a[0], b[0]);
    }
  }

  // ----- the main directory

  /** The first component with its slash, or "". */
  function FirstDir(s: string): (d: string)
    ensures d <= s && (d == [] <==> '/' !in s)
    ensures d != [] ==> d[|d| - 1] == '/' && '/' !in d[..|d| - 1]
  {
    if s == [] then []
    else if s[0] == '/' then ['/']
    else
      var t := FirstDir(s[1..]);
      assert s == [s[0]] + s[1..];
      if t == [] then []
      else
        assert ([s[0]] + t)[..|t|] == [s[0]] + t[..|t| - 1];
        [s[0]] + t
  }

  lemma {:induction false} FirstDirIs(s: string, d: string)
    requires d != [] && d[|d| - 1] == '/' && '/' !in d[..|d| - 1]
    ensures HasPrefix(s, d) <==> FirstDir(s) == d
  {
    if HasPrefix(s, d) {
      var f := FirstDir(s);
      assert d[|d| - 1] in s;
      assert forall i :: 0 <= i < |d| - 1 ==> s[i] == d[..|d| - 1][i];
      assert forall i :: 0 <= i < |f| - 1 ==> s[i] == f[..|f| - 1][i];
      assert s[|d| - 1] == s[|f| - 1] == '/';
    }
  }

  ghost predicate OneMainDir(names: seq<string>) {
    names != [] && FirstDir(names[0]) != [] &&
    forall i :: 0 <= i < |names| ==> FirstDir(names[i]) == FirstDir(names[0])
  }

  /** The directory that all entries are in, or "". */
  ghost function MainDir(names: seq<string>): string { if OneMainDir(names) then FirstDir(names[0]) else [] }

  /** The main directory depends on nothing but which entries there are. */
  lemma MainDirOfSet(a: seq<string>, b: seq<string>)
    requires forall s :: s in a <==> s in b
    ensures MainDir(a) == MainDir(b)
  {
    if OneMainDir(a) {
      OneMainDirOfSet(a, b);
      assert b[0] in a;
    } else if OneMainDir(b) {
      OneMainDirOfSet(b, a);
    }
  }

  lemma OneMainDirOfSet(a: seq<string>, b: seq<string>)
    requires OneMainDir(a) && forall s :: s in a <==> s in b
    ensures OneMainDir(b)
  {
    hide FirstDir;
    assert a[0] in b;
    forall i | 0 <= i < |b| ensures FirstDir(b[i]) == FirstDir(a[0]) {
      assert b[i] in a;
    }
  }

  datatype Scan = Throw | Dir(name: string)

  predicate DotDotAt(s: string, i: nat) { i + 4 <= |s| && s[i..i + 4] == "/../" }

  /** Contains a .. component that is followed by a slash. */
  predicate Unsafe(s: string) { HasPrefix(s, "../") || exists i :: 0 <= i < |s| && DotDotAt(s, i) }

  /** A /../ lies within the text, or ends with the slash that follows it. */
  predicate Enclosed(t: string) { exists i :: 0 <= i <= |t| && DotDotAt("/" + t + "/", i) }

  lemma EnclosedName(n: string)
    requires Path.SlashFree(n)
    ensures Enclosed(n) <==> n == ".."
  {
    var s := "/" + n + "/";
    if n == ".." {
      assert DotDotAt(s, 0);
    }
    forall i: nat | i <= |n| && DotDotAt(s, i) ensures n == ".." {
      assert s[i] == s[i..i + 4][0] == '/' && s[i + 3] == s[i..i + 4][3] == '/';
      assert forall k :: 0 <= k < |n| ==> s[k + 1] == n[k];
      assert n == s[1..3];
    }
  }

  lemma DotDotIs(s: string, i: nat)
    ensures DotDotAt(s, i) <==> i + 4 <= |s| && s[i] == '/' && s[i + 1] == '.' && s[i + 2] == '.' && s[i + 3] == '/'
  {
    if i + 4 <= |s| {
      var t := s[i..i + 4];
      assert t == [s[i], s[i + 1], s[i + 2], s[i + 3]];
    }
  }

  lemma EnclosedStays(t: string, n: string)
    requires Enclosed(t) || n == ".."
    ensures Enclosed(t + "/" + n)
  {
    hide DotDotAt;
    var u, s := "/" + t + "/", "/" + (t + "/" + n) + "/";
    assert s == u + n + "/";
    var i: nat := |t| + 1;
    if n != ".." {
      i :| i <= |t| && DotDotAt(u, i);
    }
    DotDotIs(u, i);
    DotDotIs(s, i);
  }

  lemma EnclosedBefore(t: string, n: string, i: nat)
    requires Path.SlashFree(n) && DotDotAt("/" + (t + "/" + n) + "/", i)
    ensures Enclosed(t) || n == ".."
  {
    hide DotDotAt;
    var u, s := "/" + t + "/", "/" + (t + "/" + n) + "/";
    assert s == u + n + "/";
    DotDotIs(s, i);
    DotDotIs(u, i);
    if i + 4 > |u| {
      assert i + 3 == |u| + |n|;
      assert s[|u| - 1] == '/';
      assert n == s[|u|..|u| + |n|];
    }
  }

  lemma EnclosedSnoc(t: string, n: string)
    requires Path.SlashFree(n)
    ensures Enclosed(t + "/" + n) <==> Enclosed(t) || n == ".."
  {
    hide DotDotAt, Path.SlashFree;
    if Enclosed(t) || n == ".." {
      EnclosedStays(t, n);
    }
    if i: nat :| i <= |t + "/" + n| && DotDotAt("/" + (t + "/" + n) + "/", i) {
      EnclosedBefore(t, n, i);
    }
  }

  lemma {:induction false} EnclosedIs(t: string)
    ensures Enclosed(t) <==> ".." in Path.Split(t)
    decreases |t|
  {
    hide Enclosed, Path.Split, Path.LastSlash, Path.SlashFree;
    var u, n := Path.Unsnoc(t);
    if Path.LastSlash(t) < 0 {
      Path.SplitFree(n);
      EnclosedName(n);
    } else {
      EnclosedIs(u);
      Path.SplitSnoc(u, n);
      EnclosedSnoc(u, n);
    }
  }

  lemma UnsafeHasSlash(n: string)
    requires Unsafe(n)
    ensures !Path.SlashFree(n)
  {
    if HasPrefix(n, "../") {
      assert n[2] == '/';
    } else {
      var i :| 0 <= i < |n| && DotDotAt(n, i);
      assert n[i] == n[i..i + 4][0];
    }
  }

  lemma UnsafeEnclosed(t: string, n: string)
    requires Path.SlashFree(n) && Unsafe(t + "/" + n)
    ensures Enclosed(t)
  {
    hide DotDotAt;
    var u, s := "/" + t + "/", t + "/" + n;
    assert "/" + s == u + n;
    if HasPrefix(s, "../") {
      assert s[0] == '.' && s[1] == '.' && s[2] == '/';
      DotDotIs(u, 0);
    } else {
      var i :| 0 <= i < |s| && DotDotAt(s, i);
      DotDotIs(s, i);
      assert i + 3 <= |t|;
      DotDotIs(u, i + 1);
    }
  }

  lemma EnclosedUnsafe(t: string, n: string)
    requires Enclosed(t)
    ensures Unsafe(t + "/" + n)
  {
    hide DotDotAt;
    var u, s := "/" + t + "/", t + "/" + n;
    assert "/" + s == u + n;
    var i :| 0 <= i <= |t| && DotDotAt(u, i);
    DotDotIs(u, i);
    if i == 0 {
      assert s[..3] == "../";
    } else {
      DotDotIs(s, i - 1);
    }
  }

  lemma UnsafeSnoc(t: string, n: string)
    requires Path.SlashFree(n)
    ensures Unsafe(t + "/" + n) <==> Enclosed(t)
  {
    hide Unsafe, Enclosed, Path.SlashFree;
    if Enclosed(t) {
      EnclosedUnsafe(t, n);
    } else if Unsafe(t + "/" + n) {
      UnsafeEnclosed(t, n);
    }
  }

  /** A name is refused if and only if one of its components, other than the last, is .. */
  lemma UnsafeIff(s: string)
    ensures Unsafe(s) <==> exists i :: 0 <= i < |Path.Split(s)| - 1 && Path.Split(s)[i] == ".."
  {
    hide Unsafe, Enclosed, Path.Split, Path.LastSlash, Path.SlashFree;
    var t, n := Path.Unsnoc(s);
    if Path.LastSlash(s) < 0 {
      Path.SplitFree(n);
      if Unsafe(n) {
        UnsafeHasSlash(n);
      }
    } else {
      Path.SplitSnoc(t, n);
      UnsafeSnoc(t, n);
      EnclosedIs(t);
      var k := |Path.Split(t)|;
      assert Path.Split(s)[..k] == Path.Split(t);
      assert ".." in Path.Split(t) <==> exists i :: 0 <= i < k && Path.Split(s)[i] == "..";
    }
  }

  /** zip_package_main_dir(): a pass over the entries of the archive in its own order. */
  method ZipMainDir(names: seq<string>) returns (r: Scan)
    ensures r.Throw? <==> exists i :: 0 <= i < |names| && Unsafe(names[i]) && (i > 0 ==> OneMainDir(names[..i]))
    ensures r.Dir? ==> r.name == MainDir(names)
  {
    hide FirstDir, Unsafe;
    var res := [];
    for i := 0 to |names|
      invariant if i == 0 then res == [] else OneMainDir(names[..i]) && res == FirstDir(names[0])
      invariant forall k :: 0 <= k < i ==> !Unsafe(names[k])
    {
      if Unsafe(names[i]) {
        return Throw;
      }
      if res == [] {
        res := FirstDir(names[i]);
        if res == [] {
          return Dir([]);
        }
        continue;
      }
      FirstDirIs(names[i], res);
      if !HasPrefix(names[i], res) {
        assert names[..i][0] == names[0];
        LaterPrefixes(names, i);
        return Dir([]);
      }
      assert names[..i + 1] == names[..i] + [names[i]];
    }
    assert names[..|names|] == names;
    r := Dir(res);
  }

  lemma LaterPrefixes(names: seq<string>, i: nat)
    requires 0 < i < |names| && FirstDir(names[i]) != FirstDir(names[0])
    ensures !OneMainDir(names) && forall k :: i < k <= |names| ==> !OneMainDir(names[..k])
  {
    hide FirstDir;
    forall k | i < k <= |names| ensures !OneMainDir(names[..k]) {
      assert names[..k][i] == names[i] && names[..k][0] == names[0];
    }
  }

  // ----- the container

  /** A piece of the buffer. */
  datatype Span = Span(begin: nat, end: nat)

  predicate Inside(x: Span, buff: string) { x.begin <= x.end <= |buff| }

  function ToStr(x: Span, buff: string): string
    requires Inside(x, buff)
  {
    buff[x.begin..x.end]
  }

  predicate AllInside(spans: seq<Span>, buff: string) { forall i :: 0 <= i < |spans| ==> Inside(spans[i], buff) }

  function Texts(spans: seq<Span>, buff: string): (r: seq<string>)
    requires AllInside(spans, buff)
    ensures |r| == |spans| && forall i :: 0 <= i < |r| ==> r[i] == ToStr(spans[i], buff)
  {
    seq(|spans|, i requires 0 <= i < |spans| => ToStr(spans[i], buff))
  }

  lemma TextsGrow(spans: seq<Span>, buff: string, more: string)
    requires AllInside(spans, buff)
    ensures AllInside(spans, buff + more) && Texts(spans, buff + more) == Texts(spans, buff)
  {
    forall i | 0 <= i < |spans| ensures ToStr(spans[i], buff + more) == ToStr(spans[i], buff) {
    }
  }

  class PackageContents {
    var buff: string
    var entries: seq<Span>

    ghost predicate Valid()
      reads this
    {
      AllInside(entries, buff) && Sorted(Texts(entries, buff))
    }

    ghost function Names(): seq<string>
      requires Valid()
      reads this
    {
      Texts(entries, buff)
    }

    constructor ()
      ensures Valid() && Names() == []
    {
      buff, entries := [], [];
    }

    /** lower_bound(), comparing through the buffer. */
    method LowerBound(key: string) returns (k: nat)
      requires Valid()
      ensures k <= |Names()|
      ensures forall i :: 0 <= i < k ==> Lex.Less(Names()[i], key)
      ensures forall i :: k <= i < |Names()| ==> AtLeast(Names()[i], key)
    {
      k := 0;
      while k < |entries| && Lex.Less(ToStr(entries[k], buff), key)
        invariant k <= |entries| && forall i :: 0 <= i < k ==> Lex.Less(Names()[i], key)
      {
        k := k + 1;
      }
      AtLeastAfter(Names(), k, key);
    }

    /** add_entry(): the buffer always grows; the entry is inserted unless it is there already. */
    method AddEntry(entry: string)
      requires Valid()
      modifies this
      ensures Valid() && Added(old(Names()), entry, Names())
    {
      hide Sorted, Lex.Less;
      ghost var names := Names();
      var span := Span(|buff|, |buff| + |entry|);
      TextsGrow(entries, buff, entry);
      buff := buff + entry;
      assert ToStr(span, buff) == entry;
      var k := LowerBound(entry);
      if k == |entries| || ToStr(entries[k], buff) != entry {
        SortedInsert(names, k, entry);
        entries := entries[..k] + [span] + entries[k..];
        assert Texts(entries, buff) == names[..k] + [entry] + names[k..];
        InsertedNames(names, k, entry);
      } else {
        assert names[k] == entry;
      }
    }

    /** remove() */
    method Remove(entry: string) returns (erased: bool)
      requires Valid()
      modifies this
      ensures Valid() && erased == (entry in old(Names()))
      ensures Removed(old(Names()), entry, Names())
    {
      hide Sorted, Lex.Less;
      ghost var names := Names();
      var k := LowerBound(entry);
      FoundAt(names, k, entry);
      if k == |entries| || ToStr(entries[k], buff) != entry {
        return false;
      }
      SortedCut(names, k, k + 1);
      CutNames(names, k, entry);
      entries := entries[..k] + entries[k + 1..];
      assert Texts(entries, buff) == names[..k] + names[k + 1..];
      return true;
    }

    method Exists(entry: string) returns (r: bool)
      requires Valid()
      ensures r == (entry in Names())
    {
      var k := LowerBound(entry);
      FoundAt(Names(), k, entry);
      r := k < |entries| && ToStr(entries[k], buff) == entry;
    }

    /** remove_with_prefix(): exactly the entries with the prefix go. */
    method RemoveWithPrefix(prefix: string)
      requires Valid()
      modifies this`entries
      ensures Valid() && forall s :: s in Names() <==> s in old(Names()) && !HasPrefix(s, prefix)
    {
      hide Sorted, Lex.Less, HasPrefix, ToStr, Texts;
      ghost var names, all := Names(), entries;
      var it := LowerBound(prefix);
      ghost var hi := it;
      while it < |entries| && HasPrefix(ToStr(entries[it], buff), prefix)
        invariant it <= hi <= |all| && entries == all[..it] + all[hi..]
        invariant AllInside(entries, buff) && forall i :: it <= i < hi ==> HasPrefix(names[i], prefix)
        decreases |entries|
      {
        EraseStep(all, it, hi);
        entries := entries[..it] + entries[it + 1..];
        hi := hi + 1;
      }
      if hi < |all| {
        EraseStep(all, it, hi);
      }
      PrefixRange(names, prefix, it, hi);
      SortedCut(names, it, hi);
      CutTexts(all, buff, it, hi);
      CutRange(names, it, hi, prefix);
    }

    /** for_each_with_prefix(): the entries with the prefix are handed to the callback, once each and in order. */
    method ForEachWithPrefix(prefix: string) returns (visited: seq<string>)
      requires Valid()
      ensures Sorted(visited) && forall s :: s in visited <==> s in Names() && HasPrefix(s, prefix)
    {
      hide Lex.Less;
      ghost var names := Names();
      var it := LowerBound(prefix);
      ghost var lo := it;
      visited := [];
      while it < |entries|
        invariant lo <= it <= |entries| && visited == names[lo..it]
        invariant forall i :: lo <= i < it ==> HasPrefix(names[i], prefix)
      {
        var entry := ToStr(entries[it], buff);
        if !HasPrefix(entry, prefix) {
          break;
        }
        visited := visited + [entry];
        it := it + 1;
      }
      PrefixRange(names, prefix, lo, it);
    }

    /** main_dir(): the first and the last entry are enough to see whether all are in one directory. */
    method FindMainDir() returns (r: string)
      requires Valid()
      ensures r == MainDir(Names())
    {
      hide FirstDir;
      if entries == [] {
        return [];
      }
      var candidate := FirstDir(ToStr(entries[0], buff));
      if candidate == [] {
        return [];
      }
      FirstAndLast(Names());
      if !HasPrefix(ToStr(entries[|entries| - 1], buff), candidate) {
        return [];
      }
      return candidate;
    }

    /** load_from_zip(): refuses an archive with an unsafe entry, otherwise adds every entry. */
    method LoadFromZip(zip: seq<string>) returns (ok: bool)
      requires Valid()
      modifies this
      ensures Valid() && (ok <==> forall i :: 0 <= i < |zip| ==> !Unsafe(zip[i]))
      ensures ok ==> forall s :: s in Names() <==> s in old(Names()) || s in zip
    {
      hide Unsafe;
      for i := 0 to |zip|
        invariant Valid() && forall k :: 0 <= k < i ==> !Unsafe(zip[k])
        invariant forall s :: s in Names() <==> s in old(Names()) || s in zip[..i]
      {
        if Unsafe(zip[i]) {
          return false;
        }
        AddEntry(zip[i]);
        assert zip[..i + 1] == zip[..i] + [zip[i]];
      }
      assert zip[..|zip|] == zip;
      return true;
    }
  }

  lemma AtLeastAfter(names: seq<string>, k: nat, key: string)
    requires Sorted(names) && k <= |names| && (k < |names| ==> AtLeast(names[k], key))
    ensures forall i :: k <= i < |names| ==> AtLeast(names[i], key)
  {
    forall i | k < i < |names| ensures AtLeast(names[i], key) {
      if Lex.Less(names[i], key) {
        Lex.Transitive(names[k], names[i], key);
      }
    }
  }

  lemma FoundAt(names: seq<string>, k: nat, key: string)
    requires k <= |names| && forall i :: 0 <= i < k ==> Lex.Less(names[i], key)
    requires Sorted(names) && forall i :: k <= i < |names| ==> AtLeast(names[i], key)
    ensures key in names <==> k < |names| && names[k] == key
  {
    Lex.Irreflexive(key);
    forall i | k < i < |names| ensures names[i] != key {
      assert Lex.Less(names[k], names[i]);
    }
  }

  lemma InsertedNames(names: seq<string>, k: nat, entry: string)
    requires k <= |names|
    ensures forall s :: s in names[..k] + [entry] + names[k..] <==> s in names || s == entry
  {
    assert names == names[..k] + names[k..];
  }

  lemma CutNames(names: seq<string>, k: nat, entry: string)
    requires Sorted(names) && k < |names| && names[k] == entry
    ensures forall s :: s in names[..k] + names[k + 1..] <==> s in names && s != entry
  {
    assert names == names[..k] + [entry] + names[k + 1..];
    Lex.Irreflexive(entry);
    assert forall i :: 0 <= i < |names| && i != k ==> names[i] != entry;
  }

  lemma EraseStep(all: seq<Span>, it: nat, hi: nat)
    requires it <= hi < |all|
    ensures var now := all[..it] + all[hi..];
            it < |now| && now[it] == all[hi] && now[..it] + now[it + 1..] == all[..it] + all[hi + 1..]
  {
  }

  lemma CutTexts(all: seq<Span>, buff: string, it: nat, hi: nat)
    requires AllInside(all, buff) && it <= hi <= |all|
    ensures AllInside(all[..it] + all[hi..], buff)
    ensures Texts(all[..it] + all[hi..], buff) == Texts(all, buff)[..it] + Texts(all, buff)[hi..]
  {
    hide ToStr;
  }

  lemma CutRange(names: seq<string>, lo: nat, hi: nat, prefix: string)
    requires lo <= hi <= |names| && forall i :: lo <= i < hi ==> HasPrefix(names[i], prefix)
    requires forall i :: 0 <= i < lo || hi <= i < |names| ==> !HasPrefix(names[i], prefix)
    ensures forall s :: s in names[..lo] + names[hi..] <==> s in names && !HasPrefix(s, prefix)
  {
    hide HasPrefix;
    assert names == names[..lo] + names[lo..hi] + names[hi..];
  }

  lemma FirstAndLast(names: seq<string>)
    requires Sorted(names) && names != [] && FirstDir(names[0]) != []
    ensures OneMainDir(names) <==> HasPrefix(names[|names| - 1], FirstDir(names[0]))
  {
    hide FirstDir;
    var d, last := FirstDir(names[0]), names[|names| - 1];
    FirstDirIs(last, d);
    if HasPrefix(last, d) {
      forall i | 0 <= i < |names| ensures FirstDir(names[i]) == d {
        Between(names, i);
        PrefixIsConvex(d, names[0], names[i], last);
        FirstDirIs(names[i], d);
      }
    }
  }

  lemma Between(names: seq<string>, i: nat)
    requires Sorted(names) && i < |names|
    ensures AtLeast(names[i], names[0]) && AtLeast(names[|names| - 1], names[i])
  {
    Lex.Irreflexive(names[i]);
    if 0 < i {
      Asymmetric(names[0], names[i]);
    }
    if i < |names| - 1 {
      Asymmetric(names[i], names[|names| - 1]);
    }
  }
}
