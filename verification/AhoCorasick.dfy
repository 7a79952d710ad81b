/**
  The Aho-Corasick automaton: a trie whose nodes keep their sons in a sorted array, fail edges
  built breadth-first, links to the next shorter pattern, and the text scan.
 */
module AhoCorasick {

  /** Node 0 is the root; 0 also stands for "no such node". */
  datatype Node = Node(pattId: nat, fail: nat, nextPattern: nat, sons: seq<(char, nat)>)

  const EMPTY_NODE := Node(0, 0, 0, [])

  ghost predicate SortedSons(sons: seq<(char, nat)>) {
    forall i, j :: 0 <= i < j < |sons| ==> sons[i].0 < sons[j].0
  }

  /** The son along c, or 0. */
  ghost function Child(sons: seq<(char, nat)>, c: char): nat {
    if exists i :: 0 <= i < |sons| && sons[i].0 == c
    then var i :| 0 <= i < |sons| && sons[i].0 == c; sons[i].1
    else 0
  }

  ghost predicate Suffix(z: string, s: string) {
    |z| <= |s| && s[|s| - |z|..] == z
  }

  lemma SuffixOfSuffix(a: string, b: string, s: string)
    requires Suffix(b, s)
    requires |a| <= |b|
    ensures Suffix(a, b) <==> Suffix(a, s)
  {
    assert s[|s| - |a|..] == b[|b| - |a|..];
  }

  /** The nonempty suffixes of s + [c] are the suffixes of s, each extended by c. */
  lemma SuffixSnoc(z: string, s: string, c: char)
    requires z != []
    ensures Suffix(z, s + [c]) <==> z[|z| - 1] == c && Suffix(z[..|z| - 1], s)
  {
    var t, y := s + [c], z[..|z| - 1];
    assert z == y + [z[|z| - 1]];
    if |z| <= |t| {
      assert t[|t| - |z|..] == s[|s| - |y|..] + [c];
      assert (s[|s| - |y|..] + [c])[|z| - 1] == c;
      assert (s[|s| - |y|..] + [c])[..|z| - 1] == s[|s| - |y|..];
    }
  }

  /** words[v] is the string spelled on the path from the root to node v. */
  ghost predicate Trie(nodes: seq<Node>, words: seq<string>) {
    && |nodes| == |words| > 0
    && words[0] == []
    && Distinct(words)
    && (forall v {:trigger SonsOk(v, nodes, words)} :: 0 <= v < |nodes| ==> SonsOk(v, nodes, words))
    && (forall v {:trigger HasParent(v, nodes, words)} :: 0 < v < |nodes| ==> HasParent(v, nodes, words))
  }

  ghost predicate SonsOk(v: nat, nodes: seq<Node>, words: seq<string>)
    requires |nodes| == |words| && v < |words|
  {
    SortedSons(nodes[v].sons) && SonsSpell(nodes[v].sons, words[v], words)
  }

  ghost predicate Distinct(words: seq<string>) {
    forall u, v :: 0 <= u < v < |words| ==> words[u] != words[v]
  }

  ghost predicate SonsSpell(sons: seq<(char, nat)>, word: string, words: seq<string>) {
    forall i :: 0 <= i < |sons| ==> 0 < sons[i].1 < |words| && words[sons[i].1] == word + [sons[i].0]
  }

  ghost predicate HasParent(v: nat, nodes: seq<Node>, words: seq<string>)
    requires |nodes| == |words| && v < |words|
  {
    exists p, i :: IsSonAt(p, i, v, nodes)
  }

  ghost predicate IsSonAt(p: nat, i: nat, v: nat, nodes: seq<Node>) {
    p < |nodes| && i < |nodes[p].sons| && nodes[p].sons[i].1 == v
  }

  ghost predicate InTrie(s: string, words: seq<string>) {
    exists v :: 0 <= v < |words| && words[v] == s
  }

  /** Sons are exactly the one-character extensions present in the trie. */
  lemma ChildSpells(nodes: seq<Node>, words: seq<string>, v: nat, c: char)
    requires Trie(nodes, words) && v < |nodes|
    ensures Child(nodes[v].sons, c) < |nodes|
    ensures Child(nodes[v].sons, c) != 0 <==> InTrie(words[v] + [c], words)
    ensures Child(nodes[v].sons, c) != 0 ==> words[Child(nodes[v].sons, c)] == words[v] + [c]
  {
    assert SonsOk(v, nodes, words);
    if x :| 0 <= x < |words| && words[x] == words[v] + [c] {
      assert x != 0;
      assert HasParent(x, nodes, words);
      var p: nat, i: nat :| IsSonAt(p, i, x, nodes);
      assert SonsOk(p, nodes, words);
      assert words[x] == words[p] + [nodes[p].sons[i].0];
      assert words[x][..|words[x]| - 1] == words[p] == words[v];
      assert nodes[v].sons[i].0 == words[x][|words[x]| - 1] == c;
    }
  }

  /** u is the node of the longest trie word that is a suffix of s. */
  ghost predicate IsLongest(words: seq<string>, s: string, u: nat) {
    && u < |words|
    && Suffix(words[u], s)
    && forall x {:trigger Suffix(words[x], s)} :: 0 <= x < |words| && Suffix(words[x], s) ==> |words[x]| <= |words[u]|
  }

  /** Fail edge of v: the longest trie word that is a proper suffix of v's word. */
  ghost predicate FailOk(nodes: seq<Node>, words: seq<string>, v: nat)
    requires |nodes| == |words| && v < |nodes|
  {
    if words[v] == [] then nodes[v].fail == 0 else IsLongest(words, words[v][1..], nodes[v].fail)
  }

  /** u is the node of the longest nonempty enabled pattern that is a suffix of s, or 0 when none is. */
  ghost predicate IsLongestPattern(nodes: seq<Node>, words: seq<string>, s: string, u: nat)
    requires |nodes| == |words|
  {
    && u < |words|
    && (u != 0 ==> nodes[u].pattId != 0 && Suffix(words[u], s))
    && forall x {:trigger Suffix(words[x], s)} :: 0 < x < |words| && nodes[x].pattId != 0 && Suffix(words[x], s)
         ==> u != 0 && |words[x]| <= |words[u]|
  }

  ghost predicate NextOk(nodes: seq<Node>, words: seq<string>, v: nat)
    requires |nodes| == |words| && v < |nodes|
  {
    if words[v] == [] then nodes[v].nextPattern == 0
    else IsLongestPattern(nodes, words, words[v][1..], nodes[v].nextPattern)
  }

  ghost predicate LinksOk(nodes: seq<Node>, words: seq<string>, v: nat)
    requires |nodes| == |words| && v < |nodes|
  {
    FailOk(nodes, words, v) && NextOk(nodes, words, v)
  }

  /** Every fail and next-pattern link is the one the specification names. */
  ghost predicate Built(nodes: seq<Node>, words: seq<string>) {
    Trie(nodes, words) && forall v {:trigger LinksOk(nodes, words, v)} :: 0 <= v < |nodes| ==> LinksOk(nodes, words, v)
  }

  ghost function NodeOf(s: string, words: seq<string>): (v: nat)
    requires s in words
    ensures v < |words| && words[v] == s
  {
    var v :| 0 <= v < |words| && words[v] == s; v
  }

  /** The enabled patterns and their ids. */
  ghost function Patterns(nodes: seq<Node>, words: seq<string>): map<string, nat>
    requires |nodes| == |words|
  {
    map s | s in words && nodes[NodeOf(s, words)].pattId != 0 :: nodes[NodeOf(s, words)].pattId
  }

  /** If the longest trie suffix of s cannot be extended by c, then neither can a longer suffix, so the
      search continues among the suffixes of the fail word. */
  lemma FailStep(nodes: seq<Node>, words: seq<string>, s: string, c: char, v: nat)
    requires Trie(nodes, words) && v < |nodes| && FailOk(nodes, words, v) && v != 0
    requires NoLongerExtension(words, s, c, |words[v]|) && Suffix(words[v], s)
    requires Child(nodes[v].sons, c) == 0
    ensures nodes[v].fail < |nodes| && |words[nodes[v].fail]| < |words[v]|
    ensures Suffix(words[nodes[v].fail], s)
    ensures NoLongerExtension(words, s, c, |words[nodes[v].fail]|)
  {
    var w, u := words[v], nodes[v].fail;
    assert w != [];
    assert Suffix(w[1..], w);
    SuffixOfSuffix(words[u], w[1..], w);
    SuffixOfSuffix(words[u], w, s);
    ChildSpells(nodes, words, v, c);
    forall x | 0 <= x < |words| && Suffix(words[x], s) && |words[x]| > |words[u]|
      ensures !InTrie(words[x] + [c], words)
    {
      if |words[x]| == |w| {
        assert words[x] == w;
      } else if |words[x]| < |w| {
        SuffixOfSuffix(words[x], w, s);
        SuffixOfSuffix(words[x], w[1..], w);
        assert false;
      }
    }
  }

  /** No suffix of s longer than k that lies in the trie has a c-son. */
  ghost predicate NoLongerExtension(words: seq<string>, s: string, c: char, k: nat) {
    forall x {:trigger Suffix(words[x], s)} ::
      0 <= x < |words| && Suffix(words[x], s) && |words[x]| > k ==> !InTrie(words[x] + [c], words)
  }

  /** Where the fail walk stops, the son found is the longest trie suffix of s + [c]. */
  lemma WalkEnds(nodes: seq<Node>, words: seq<string>, s: string, c: char, v: nat)
    requires Trie(nodes, words) && v < |nodes|
    requires NoLongerExtension(words, s, c, |words[v]|) && Suffix(words[v], s)
    requires Child(nodes[v].sons, c) != 0 || v == 0
    ensures IsLongest(words, s + [c], Child(nodes[v].sons, c))
  {
    var u := Child(nodes[v].sons, c);
    ChildSpells(nodes, words, v, c);
    if u != 0 {
      assert words[u][..|words[u]| - 1] == words[v];
      SuffixSnoc(words[u], s, c);
    }
    forall x | 0 <= x < |words| && Suffix(words[x], s + [c])
      ensures |words[x]| <= |words[u]|
    {
      if words[x] != [] {
        var z := words[x][..|words[x]| - 1];
        SuffixSnoc(words[x], s, c);
        assert words[x] == z + [c];
        ParentInTrie(nodes, words, x);
        var p :| 0 <= p < |words| && words[p] == z;
        assert InTrie(words[p] + [c], words);
        assert |z| <= |words[v]|;
        if |z| == |words[v]| {
          assert z == words[v];
        }
      }
    }
  }

  lemma ParentInTrie(nodes: seq<Node>, words: seq<string>, x: nat)
    requires Trie(nodes, words) && x < |nodes| && words[x] != []
    ensures InTrie(words[x][..|words[x]| - 1], words)
  {
    assert HasParent(x, nodes, words);
    var p: nat, i: nat :| IsSonAt(p, i, x, nodes);
    assert SonsOk(p, nodes, words);
    assert words[x][..|words[x]| - 1] == words[p];
  }

  /** The longest pattern ending a string is found at the longest trie suffix or one link further. */
  lemma PatternAtLongest(nodes: seq<Node>, words: seq<string>, s: string, u: nat)
    requires Trie(nodes, words) && IsLongest(words, s, u) && NextOk(nodes, words, u)
    ensures IsLongestPattern(nodes, words, s, if nodes[u].pattId != 0 then u else nodes[u].nextPattern)
  {
    var w := words[u];
    forall x | 0 < x < |words| && Suffix(words[x], s)
      ensures x == u || (w != [] && Suffix(words[x], w[1..]))
    {
      assert |words[x]| <= |w|;
      if |words[x]| == |w| {
        assert words[x] == w;
      } else {
        SuffixOfSuffix(words[x], w, s);
        SuffixOfSuffix(words[x], w[1..], w);
      }
    }
    var n := nodes[u].nextPattern;
    if w != [] && n != 0 {
      SuffixOfSuffix(words[n], w[1..], w);
      SuffixOfSuffix(words[n], w, s);
    }
  }

  /** The trie after node id gets a new leaf son along c, inserted at position k of its sons. */
  ghost function WithNewSon(nodes: seq<Node>, id: nat, k: nat, c: char): seq<Node>
    requires id < |nodes| && k <= |nodes[id].sons|
  {
    var sons := nodes[id].sons;
    nodes[id := nodes[id].(sons := sons[..k] + [(c, |nodes|)] + sons[k..])] + [EMPTY_NODE]
  }

  /** A son inserted between the smaller and the greater ones keeps the array sorted and spelling words. */
  lemma InsertSon(sons: seq<(char, nat)>, k: nat, c: char, word: string, words: seq<string>)
    requires SortedSons(sons) && SonsSpell(sons, word, words) && 0 < |words|
    requires k <= |sons|
    requires forall i :: 0 <= i < k ==> sons[i].0 < c
    requires forall i :: k <= i < |sons| ==> c < sons[i].0
    ensures SortedSons(sons[..k] + [(c, |words|)] + sons[k..])
    ensures SonsSpell(sons[..k] + [(c, |words|)] + sons[k..], word, words + [word + [c]])
  {
  }

  /** Parents survive any change under which every node keeps its sons, possibly at other positions. */
  lemma ParentsKept(nodes: seq<Node>, nodes': seq<Node>, words: seq<string>, words': seq<string>)
    requires Trie(nodes, words) && |nodes'| == |words'| && |nodes| <= |nodes'|
    requires forall p, i :: 0 <= p < |nodes| && 0 <= i < |nodes[p].sons| ==> nodes[p].sons[i] in nodes'[p].sons
    ensures forall v :: 0 < v < |nodes| ==> HasParent(v, nodes', words')
  {
    forall v | 0 < v < |nodes| ensures HasParent(v, nodes', words') {
      assert HasParent(v, nodes, words);
      var p: nat, i: nat :| IsSonAt(p, i, v, nodes);
      assert nodes[p].sons[i] in nodes'[p].sons;
      var j :| 0 <= j < |nodes'[p].sons| && nodes'[p].sons[j] == nodes[p].sons[i];
      assert IsSonAt(p, j, v, nodes');
    }
  }

  lemma NewSonKeepsTrie(nodes: seq<Node>, words: seq<string>, id: nat, k: nat, c: char)
    requires Trie(nodes, words) && id < |nodes| && k <= |nodes[id].sons|
    requires forall i :: 0 <= i < k ==> nodes[id].sons[i].0 < c
    requires forall i :: k <= i < |nodes[id].sons| ==> c < nodes[id].sons[i].0
    ensures Trie(WithNewSon(nodes, id, k, c), words + [words[id] + [c]])
  {
    var nodes', words' := WithNewSon(nodes, id, k, c), words + [words[id] + [c]];
    assert Distinct(words') by {
      ChildSpells(nodes, words, id, c);
      assert !InTrie(words[id] + [c], words);
    }
    assert HasParent(|nodes|, nodes', words') by {
      assert IsSonAt(id, k, |nodes|, nodes');
    }
    assert forall v :: 0 < v < |nodes| ==> HasParent(v, nodes', words') by {
      ParentsKept(nodes, nodes', words, words');
    }
    forall v | 0 <= v < |nodes'|
      ensures SonsOk(v, nodes', words')
    {
      if v < |nodes| {
        assert SonsOk(v, nodes, words);
        if v == id {
          InsertSon(nodes[id].sons, k, c, words[id], words);
        }
      }
    }
  }

  lemma SetIdKeepsTrie(nodes: seq<Node>, words: seq<string>, v: nat, id: nat)
    requires Trie(nodes, words) && v < |nodes|
    ensures Trie(nodes[v := nodes[v].(pattId := id)], words)
  {
    var nodes' := nodes[v := nodes[v].(pattId := id)];
    forall u | 0 <= u < |nodes| ensures SonsOk(u, nodes', words) {
      assert SonsOk(u, nodes, words);
    }
    ParentsKept(nodes, nodes', words, words);
  }

  lemma PatternOf(nodes: seq<Node>, words: seq<string>, v: nat)
    requires |nodes| == |words| && Distinct(words) && v < |nodes|
    ensures words[v] in Patterns(nodes, words) <==> nodes[v].pattId != 0
    ensures words[v] in Patterns(nodes, words) ==> Patterns(nodes, words)[words[v]] == nodes[v].pattId
  {
    assert NodeOf(words[v], words) == v;
  }

  /** nodes is before with more, unnumbered nodes and a new id at node v. */
  ghost predicate OnlyIdSet(before: seq<Node>, nodes: seq<Node>, v: nat) {
    && v < |nodes| && |before| <= |nodes|
    && forall u :: 0 <= u < |nodes| && u != v ==> nodes[u].pattId == if u < |before| then before[u].pattId else 0
  }

  lemma OtherPatternKept(before: seq<Node>, was: seq<string>, nodes: seq<Node>, words: seq<string>, v: nat, s: string)
    requires |before| == |was| && |nodes| == |words| && Distinct(words) && Distinct(was) && was <= words
    requires OnlyIdSet(before, nodes, v) && s != words[v]
    ensures s in Patterns(nodes, words) <==> s in Patterns(before, was)
    ensures s in Patterns(nodes, words) ==> Patterns(nodes, words)[s] == Patterns(before, was)[s]
  {
    if s in words {
      var u := NodeOf(s, words);
      PatternOf(nodes, words, u);
      if u < |was| {
        PatternOf(before, was, u);
      }
    }
  }

  /** Writing the id of one node of a trie that only grew by unnumbered nodes updates one pattern. */
  lemma PatternsAfterSet(before: seq<Node>, was: seq<string>, nodes: seq<Node>, words: seq<string>, v: nat, id: nat)
    requires |before| == |was| && |nodes| == |words| && Distinct(words) && Distinct(was) && was <= words
    requires OnlyIdSet(before, nodes, v) && nodes[v].pattId == id
    ensures Patterns(nodes, words) ==
            if id != 0 then Patterns(before, was)[words[v] := id] else Patterns(before, was) - {words[v]}
  {
    var now, past := Patterns(nodes, words), Patterns(before, was);
    PatternOf(nodes, words, v);
    forall s | s != words[v]
      ensures s in now <==> s in past
      ensures s in now ==> now[s] == past[s]
    {
      OtherPatternKept(before, was, nodes, words, v, s);
    }
    assert now.Keys == if id != 0 then past.Keys + {words[v]} else past.Keys - {words[v]};
  }

  /** Binary search in a sorted array of sons; an equal element always returns from inside the loop. */
  method FindSon(sons: seq<(char, nat)>, c: char) returns (u: nat)
    requires SortedSons(sons)
    ensures u == Child(sons, c)
  {
    var beg, end := 0, |sons|;
    while beg < end
      invariant 0 <= beg <= end <= |sons|
      invariant forall i :: 0 <= i < beg ==> sons[i].0 < c
      invariant forall i :: end <= i < |sons| ==> c < sons[i].0
    {
      var mid := (beg + end) / 2;
      if c < sons[mid].0 {
        end := mid;
      } else if c == sons[mid].0 {
        return sons[mid].1;
      } else {
        beg := mid + 1;
      }
    }
    return 0;
  }

  lemma PrefixInTrie(nodes: seq<Node>, words: seq<string>, v: nat, k: nat)
    requires Trie(nodes, words) && v < |words| && k <= |words[v]|
    ensures InTrie(words[v][..k], words)
    decreases |words[v]|
  {
    if k < |words[v]| {
      ParentInTrie(nodes, words, v);
      var p :| 0 <= p < |words| && words[p] == words[v][..|words[v]| - 1];
      PrefixInTrie(nodes, words, p, k);
      assert words[p][..k] == words[v][..k];
    } else {
      assert words[v][..k] == words[v];
    }
  }

  ghost predicate FailsOkTo(nodes: seq<Node>, words: seq<string>, depth: nat) {
    && |nodes| == |words|
    && forall u {:trigger FailOk(nodes, words, u)} :: 0 <= u < |nodes| && |words[u]| <= depth ==> FailOk(nodes, words, u)
  }

  /** Follows fail edges from v until a son along c exists. Each fail edge followed shortens the word, so
      the number of edges is paid for by the depth lost. */
  method Advance(nodes: seq<Node>, ghost words: seq<string>, ghost s: string, v: nat, c: char)
    returns (x: nat, ghost steps: nat)
    requires Trie(nodes, words) && IsLongest(words, s, v)
    requires FailsOkTo(nodes, words, |words[v]|)
    ensures x < |nodes| && IsLongest(words, s + [c], x)
    ensures steps + |words[x]| <= |words[v]| + 1
  {
    var curr := v;
    steps := 0;
    assert SonsOk(curr, nodes, words);
    x := FindSon(nodes[curr].sons, c);
    while x == 0 && curr != 0
      invariant curr < |nodes| && x == Child(nodes[curr].sons, c)
      invariant Suffix(words[curr], s) && NoLongerExtension(words, s, c, |words[curr]|)
      invariant steps + |words[curr]| <= |words[v]|
      decreases |words[curr]|
    {
      FailStep(nodes, words, s, c, curr);
      curr := nodes[curr].fail;
      steps := steps + 1;
      assert SonsOk(curr, nodes, words);
      x := FindSon(nodes[curr].sons, c);
    }
    WalkEnds(nodes, words, s, c, curr);
    ChildSpells(nodes, words, curr, c);
  }

  ghost predicate SameButLinks(nodes: seq<Node>, before: seq<Node>) {
    && |nodes| == |before|
    && forall v :: 0 <= v < |nodes| ==> nodes[v].pattId == before[v].pattId && nodes[v].sons == before[v].sons
  }

  ghost predicate Seen(v: nat, queue: seq<nat>, popped: set<nat>) {
    v in queue || v in popped
  }

  /** Breadth-first order: depths in the queue never decrease and span at most two levels. */
  ghost predicate LevelOrder(words: seq<string>, queue: seq<nat>, depth: nat) {
    && (forall i :: 0 <= i < |queue| ==> queue[i] < |words| && depth <= |words[queue[i]]| <= depth + 1)
    && (forall i, j :: 0 <= i < j < |queue| ==> |words[queue[i]]| <= |words[queue[j]]| && queue[i] != queue[j])
  }

  /** A son has been seen exactly when its parent has been popped; of curr, exactly the first k sons. */
  ghost predicate SonsSeen(nodes: seq<Node>, queue: seq<nat>, popped: set<nat>, curr: nat, k: nat) {
    forall p, i :: 0 <= p < |nodes| && 0 <= i < |nodes[p].sons| ==>
      (Seen(nodes[p].sons[i].1, queue, popped) <==> if p == curr then i < k else p in popped)
  }

  ghost predicate ExpandInv(nodes: seq<Node>, words: seq<string>, queue: seq<nat>, popped: set<nat>, curr: nat, k: nat) {
    && curr < |nodes| == |words| && 0 in popped
    && (forall v :: v in popped ==> v < |nodes|)
    && curr in popped
    && (forall i :: 0 <= i < |queue| ==> queue[i] !in popped)
    && LevelOrder(words, queue, |words[curr]|)
    && SonsSeen(nodes, queue, popped, curr, k)
  }

  ghost predicate QueueInv(nodes: seq<Node>, words: seq<string>, queue: seq<nat>, popped: set<nat>) {
    && |nodes| == |words| && 0 in popped
    && (forall v :: v in popped ==> v < |nodes|)
    && (forall i :: 0 <= i < |queue| ==> queue[i] !in popped)
    && (queue != [] ==> queue[0] < |words| && LevelOrder(words, queue, |words[queue[0]]|))
    && SonsSeen(nodes, queue, popped, |nodes|, 0)
  }

  ghost predicate Linked(nodes: seq<Node>, words: seq<string>, queue: seq<nat>, popped: set<nat>)
    requires |nodes| == |words|
  {
    forall v {:trigger LinksOk(nodes, words, v)} {:trigger Seen(v, queue, popped)} ::
      0 <= v < |nodes| && Seen(v, queue, popped) ==> LinksOk(nodes, words, v)
  }

  lemma InitialQueue(nodes: seq<Node>, words: seq<string>, queue: seq<nat>)
    requires Trie(nodes, words)
    requires forall v :: 0 <= v < |nodes| && |words[v]| <= 1 ==> nodes[v].fail == 0 && nodes[v].nextPattern == 0
    requires |queue| == |nodes[0].sons| && forall i :: 0 <= i < |queue| ==> queue[i] == nodes[0].sons[i].1
    ensures QueueInv(nodes, words, queue, {0}) && Linked(nodes, words, queue, {0})
  {
    assert SonsOk(0, nodes, words);
    forall i, j | 0 <= i < j < |queue| ensures queue[i] != queue[j] {
      assert words[queue[i]][0] == nodes[0].sons[i].0 && words[queue[j]][0] == nodes[0].sons[j].0;
    }
    forall p, i | 0 <= p < |nodes| && 0 <= i < |nodes[p].sons|
      ensures Seen(nodes[p].sons[i].1, queue, {0}) <==> p == 0
    {
      var w := nodes[p].sons[i].1;
      assert SonsOk(p, nodes, words);
      if p == 0 {
        assert queue[i] == w;
      } else {
        assert words[p] != words[0];
        assert |words[w]| > 1;
      }
    }
    forall v | 0 <= v < |nodes| && Seen(v, queue, {0}) ensures LinksOk(nodes, words, v) {
      if v != 0 {
        assert |words[v]| == 1 && words[v][1..] == [];
      }
    }
  }

  /** An unseen node lies strictly below some queued node. */
  lemma UnseenIsBelowQueue(nodes: seq<Node>, words: seq<string>, queue: seq<nat>, popped: set<nat>, v: nat)
    returns (q: nat)
    requires Trie(nodes, words) && QueueInv(nodes, words, queue, popped)
    requires v < |nodes| && !Seen(v, queue, popped)
    ensures q < |queue| && |words[queue[q]]| < |words[v]|
    decreases |words[v]|
  {
    assert HasParent(v, nodes, words);
    var p: nat, i: nat :| IsSonAt(p, i, v, nodes);
    assert SonsOk(p, nodes, words);
    assert nodes[p].sons[i].1 == v;
    if p in queue {
      q :| 0 <= q < |queue| && queue[q] == p;
    } else {
      q := UnseenIsBelowQueue(nodes, words, queue, popped, p);
    }
  }

  lemma ShallowAreLinked(nodes: seq<Node>, words: seq<string>, queue: seq<nat>, popped: set<nat>)
    requires Trie(nodes, words) && QueueInv(nodes, words, queue, popped) && Linked(nodes, words, queue, popped)
    requires queue != []
    ensures LinksOkTo(nodes, words, |words[queue[0]]|)
  {
    forall v | 0 <= v < |nodes| && |words[v]| <= |words[queue[0]]| ensures LinksOk(nodes, words, v) {
      if !Seen(v, queue, popped) {
        var q := UnseenIsBelowQueue(nodes, words, queue, popped, v);
      }
    }
  }

  lemma AllLinked(nodes: seq<Node>, words: seq<string>, popped: set<nat>)
    requires Trie(nodes, words) && QueueInv(nodes, words, [], popped) && Linked(nodes, words, [], popped)
    ensures Built(nodes, words)
  {
    forall v | 0 <= v < |nodes| ensures LinksOk(nodes, words, v) {
      if !Seen(v, [], popped) {
        var q := UnseenIsBelowQueue(nodes, words, [], popped, v);
      }
    }
  }

  /** Node w with its two links set from the longest proper suffix x. */
  function Relink(nodes: seq<Node>, w: nat, x: nat): (nodes': seq<Node>)
    requires w < |nodes| && x < |nodes|
    ensures SameButLinks(nodes', nodes)
  {
    nodes[w := nodes[w].(fail := x, nextPattern := if nodes[x].pattId != 0 then x else nodes[x].nextPattern)]
  }

  lemma RelinkKeepsTrie(nodes: seq<Node>, words: seq<string>, w: nat, x: nat)
    requires Trie(nodes, words) && w < |nodes| && x < |nodes|
    ensures Trie(Relink(nodes, w, x), words)
  {
    var nodes' := Relink(nodes, w, x);
    forall u | 0 <= u < |nodes| ensures SonsOk(u, nodes', words) {
      assert SonsOk(u, nodes, words);
    }
    ParentsKept(nodes, nodes', words, words);
  }

  lemma RelinkLinks(nodes: seq<Node>, words: seq<string>, w: nat, x: nat)
    requires Trie(nodes, words) && w < |nodes| && w != 0
    requires IsLongest(words, words[w][1..], x) && NextOk(nodes, words, x)
    ensures LinksOk(Relink(nodes, w, x), words, w)
    ensures forall v :: 0 <= v < |nodes| && LinksOk(nodes, words, v) ==> LinksOk(Relink(nodes, w, x), words, v)
  {
    PatternAtLongest(nodes, words, words[w][1..], x);
    var nodes' := Relink(nodes, w, x);
    forall s, u | IsLongestPattern(nodes, words, s, u) ensures IsLongestPattern(nodes', words, s, u) {
    }
  }

  /** Enqueueing the k-th son of the node being expanded. */
  lemma ExpandStep(nodes: seq<Node>, words: seq<string>, queue: seq<nat>, popped: set<nat>, curr: nat, k: nat)
    requires Trie(nodes, words) && ExpandInv(nodes, words, queue, popped, curr, k) && k < |nodes[curr].sons|
    ensures ExpandInv(nodes, words, queue + [nodes[curr].sons[k].1], popped, curr, k + 1)
  {
    var w := nodes[curr].sons[k].1;
    var queue' := queue + [w];
    assert SonsOk(curr, nodes, words);
    assert !Seen(w, queue, popped);
    forall p, i | 0 <= p < |nodes| && 0 <= i < |nodes[p].sons|
      ensures Seen(nodes[p].sons[i].1, queue', popped) <==> if p == curr then i < k + 1 else p in popped
    {
      SonsAreDistinct(nodes, words, p, i, curr, k);
    }
  }

  lemma SonsAreDistinct(nodes: seq<Node>, words: seq<string>, p: nat, i: nat, q: nat, j: nat)
    requires Trie(nodes, words) && p < |nodes| && i < |nodes[p].sons| && q < |nodes| && j < |nodes[q].sons|
    ensures nodes[p].sons[i].1 == nodes[q].sons[j].1 ==> p == q && i == j
  {
    assert SonsOk(p, nodes, words) && SonsOk(q, nodes, words);
    var u, v := nodes[p].sons[i].1, nodes[q].sons[j].1;
    if u == v {
      assert words[u][..|words[u]| - 1] == words[p] && words[v][..|words[v]| - 1] == words[q];
      assert words[u][|words[u]| - 1] == nodes[p].sons[i].0 && words[v][|words[v]| - 1] == nodes[q].sons[j].0;
    }
  }

  lemma StartExpand(nodes: seq<Node>, words: seq<string>, queue: seq<nat>, popped: set<nat>)
    requires QueueInv(nodes, words, queue, popped) && queue != []
    ensures ExpandInv(nodes, words, queue[1..], popped + {queue[0]}, queue[0], 0)
  {
    forall v: nat ensures Seen(v, queue[1..], popped + {queue[0]}) <==> Seen(v, queue, popped) {
      assert queue == [queue[0]] + queue[1..];
    }
  }

  ghost predicate Automaton(nodes: seq<Node>, words: seq<string>) {
    && Trie(nodes, words) && nodes[0].pattId == 0
    && forall v :: 0 <= v < |nodes| && |words[v]| <= 1 ==> nodes[v].fail == 0 && nodes[v].nextPattern == 0
  }

  /** State of the breadth-first loop while the sons of curr are being linked, k of them done. */
  ghost predicate Expanding(nodes: seq<Node>, words: seq<string>, queue: seq<nat>, popped: set<nat>, curr: nat, k: nat) {
    && Automaton(nodes, words)
    && ExpandInv(nodes, words, queue, popped, curr, k) && curr != 0
    && Linked(nodes, words, queue, popped)
    && LinksOkTo(nodes, words, |words[curr]|)
  }

  ghost predicate LinksOkTo(nodes: seq<Node>, words: seq<string>, depth: nat) {
    && |nodes| == |words|
    && forall v {:trigger LinksOk(nodes, words, v)} :: 0 <= v < |nodes| && |words[v]| <= depth ==> LinksOk(nodes, words, v)
  }

  lemma SonWord(nodes: seq<Node>, words: seq<string>, curr: nat, k: nat)
    requires Trie(nodes, words) && 0 < curr < |nodes| && k < |nodes[curr].sons|
    ensures var (c, w) := nodes[curr].sons[k];
            && 0 < w < |nodes| && words[curr] != []
            && words[w][1..] == words[curr][1..] + [c] && |words[w]| == |words[curr]| + 1
  {
    assert SonsOk(curr, nodes, words);
    assert words[curr] != words[0];
  }

  /** What the fail walk for the k-th son of curr starts from. */
  lemma ReadyToAdvance(nodes: seq<Node>, words: seq<string>, curr: nat, k: nat)
    requires Trie(nodes, words) && 0 < curr < |nodes| && LinksOkTo(nodes, words, |words[curr]|)
    requires k < |nodes[curr].sons|
    ensures words[curr] != [] && IsLongest(words, words[curr][1..], nodes[curr].fail)
    ensures FailsOkTo(nodes, words, |words[nodes[curr].fail]|)
    ensures var (c, w) := nodes[curr].sons[k];
            0 < w < |nodes| && words[w][1..] == words[curr][1..] + [c] && |words[w]| == |words[curr]| + 1
  {
    SonWord(nodes, words, curr, k);
    assert LinksOk(nodes, words, curr);
    forall u | 0 <= u < |nodes| && |words[u]| <= |words[nodes[curr].fail]| ensures FailOk(nodes, words, u) {
      assert LinksOk(nodes, words, u);
    }
  }

  lemma LinkStep(nodes: seq<Node>, words: seq<string>, queue: seq<nat>, popped: set<nat>, curr: nat, k: nat, x: nat)
    requires Expanding(nodes, words, queue, popped, curr, k) && k < |nodes[curr].sons|
    requires x < |nodes| && nodes[curr].sons[k].1 < |nodes|
    requires IsLongest(words, words[nodes[curr].sons[k].1][1..], x)
    ensures Expanding(Relink(nodes, nodes[curr].sons[k].1, x), words, queue + [nodes[curr].sons[k].1], popped, curr, k + 1)
  {
    var w := nodes[curr].sons[k].1;
    var nodes' := Relink(nodes, w, x);
    ReadyToAdvance(nodes, words, curr, k);
    assert |words[x]| <= |words[curr]| && LinksOk(nodes, words, x);
    RelinkKeepsTrie(nodes, words, w, x);
    RelinkLinks(nodes, words, w, x);
    assert ExpandInv(nodes', words, queue + [w], popped, curr, k + 1) by {
      ExpandStep(nodes, words, queue, popped, curr, k);
    }
    forall v | 0 <= v < |nodes| && Seen(v, queue + [w], popped) ensures LinksOk(nodes', words, v) {
      assert v == w || Seen(v, queue, popped);
    }
  }

  ghost function Range(n: nat): (r: set<nat>)
    ensures forall v :: v in r <==> 0 <= v < n
  {
    if n == 0 then {} else Range(n - 1) + {n - 1}
  }

  lemma BuiltFails(nodes: seq<Node>, words: seq<string>, depth: nat)
    requires Built(nodes, words)
    ensures FailsOkTo(nodes, words, depth)
  {
    forall u | 0 <= u < |nodes| ensures FailOk(nodes, words, u) {
      assert LinksOk(nodes, words, u);
    }
  }

  /** w is the longest pattern in pats that ends s; found says whether there is one. */
  ghost predicate LongestMatch(pats: map<string, nat>, s: string, found: bool, w: string) {
    && (found ==> w in pats && Suffix(w, s))
    && forall q :: q in pats && Suffix(q, s) ==> found && |q| <= |w|
  }

  lemma LongestInPatterns(nodes: seq<Node>, words: seq<string>, s: string, u: nat)
    requires Automaton(nodes, words) && IsLongestPattern(nodes, words, s, u)
    ensures LongestMatch(Patterns(nodes, words), s, u != 0, words[u])
  {
    forall q | q in Patterns(nodes, words) && Suffix(q, s) ensures u != 0 && |q| <= |words[u]| {
      var x := NodeOf(q, words);
      assert nodes[x].pattId != 0 && words[x] == q;
    }
  }

  /** u is what the scan reports after reading s: the node of the longest pattern ending s, or 0. */
  ghost predicate Reports(nodes: seq<Node>, words: seq<string>, s: string, u: nat) {
    && |nodes| == |words| && u < |words|
    && LongestMatch(Patterns(nodes, words), s, u != 0, words[u])
    && IsLongestPattern(nodes, words, s, u)
  }

  ghost predicate ReportsAt(nodes: seq<Node>, words: seq<string>, text: string, i: nat, u: nat) {
    i < |text| && Reports(nodes, words, text[..i + 1], u)
  }

  lemma ReportedPattern(nodes: seq<Node>, words: seq<string>, s: string, u: nat)
    requires Automaton(nodes, words) && Built(nodes, words) && IsLongest(words, s, u)
    ensures Reports(nodes, words, s, if nodes[u].pattId != 0 then u else nodes[u].nextPattern)
  {
    assert LinksOk(nodes, words, u);
    PatternAtLongest(nodes, words, s, u);
    LongestInPatterns(nodes, words, s, if nodes[u].pattId != 0 then u else nodes[u].nextPattern);
  }

  lemma RootIsLongest(nodes: seq<Node>, words: seq<string>)
    requires Trie(nodes, words)
    ensures IsLongest(words, [], 0)
  {
  }

  /** One turn of the scan: reads c after s. */
  method ScanStep(nodes: seq<Node>, ghost words: seq<string>, ghost s: string, curr: nat, c: char)
    returns (next: nat, report: nat, ghost steps: nat)
    requires Automaton(nodes, words) && Built(nodes, words) && IsLongest(words, s, curr)
    ensures IsLongest(words, s + [c], next) && Reports(nodes, words, s + [c], report)
    ensures steps + |words[next]| <= |words[curr]| + 1
  {
    BuiltFails(nodes, words, |words[curr]|);
    next, steps := Advance(nodes, words, s, curr, c);
    ReportedPattern(nodes, words, s + [c], next);
    report := if nodes[next].pattId != 0 then next else nodes[next].nextPattern;
  }

  /** The nodes met by following next-pattern links from u until 0. */
  ghost function Chain(nodes: seq<Node>, words: seq<string>, u: nat): seq<nat>
    requires Built(nodes, words) && u < |nodes|
    decreases |words[u]|
  {
    if u == 0 then []
    else
      assert LinksOk(nodes, words, u);
      [u] + Chain(nodes, words, nodes[u].nextPattern)
  }

  lemma LongestIsFirst(nodes: seq<Node>, words: seq<string>, s: string, u: nat, x: nat)
    requires Trie(nodes, words) && IsLongestPattern(nodes, words, s, u) && u != 0
    requires 0 < x < |nodes| && x != u && nodes[x].pattId != 0
    ensures Suffix(words[x], s) <==> Suffix(words[x], words[u][1..])
  {
    var w := words[u];
    assert w != words[0];
    assert Suffix(w[1..], w);
    if Suffix(words[x], s) {
      assert |words[x]| <= |w|;
      assert words[x] != w;
      SuffixOfSuffix(words[x], w, s);
      SuffixOfSuffix(words[x], w[1..], w);
    } else if Suffix(words[x], w[1..]) {
      SuffixOfSuffix(words[x], w[1..], w);
      SuffixOfSuffix(words[x], w, s);
    }
  }

  /** From the longest pattern ending s, the next-pattern links list exactly the patterns ending s, each
      once, longest first. */
  lemma {:induction false} ChainListsPatterns(nodes: seq<Node>, words: seq<string>, s: string, u: nat)
    requires Built(nodes, words) && IsLongestPattern(nodes, words, s, u)
    ensures forall x :: x in Chain(nodes, words, u) <==> 0 < x < |nodes| && nodes[x].pattId != 0 && Suffix(words[x], s)
    ensures forall i, j :: 0 <= i < j < |Chain(nodes, words, u)| ==>
              var c := Chain(nodes, words, u);
              c[i] < |nodes| && c[j] < |nodes| && |words[c[j]]| < |words[c[i]]|
    decreases |words[u]|
  {
    if u != 0 {
      assert LinksOk(nodes, words, u) && words[u] != words[0];
      var n, rest := nodes[u].nextPattern, Chain(nodes, words, nodes[u].nextPattern);
      ChainListsPatterns(nodes, words, words[u][1..], n);
      forall x ensures x in [u] + rest <==> 0 < x < |nodes| && nodes[x].pattId != 0 && Suffix(words[x], s) {
        if 0 < x < |nodes| && x != u && nodes[x].pattId != 0 {
          LongestIsFirst(nodes, words, s, u, x);
        }
      }
      forall j | 0 <= j < |rest| ensures rest[j] < |nodes| && |words[rest[j]]| < |words[u]| {
        assert rest[j] in rest;
      }
    }
  }

  class AhoCorasick {
    var nodes: seq<Node>
    ghost var words: seq<string>

    /** Besides the trie shape: the root carries no pattern, and the links of the root and of its sons are
        never written, so they stay 0. */
    ghost predicate Valid() reads this {
      Automaton(nodes, words)
    }

    constructor ()
      ensures Valid() && Patterns(nodes, words) == map[]
      ensures forall s :: InTrie(s, words) ==> s == []
    {
      nodes := [EMPTY_NODE];
      words := [[]];
    }

    /** Returns the son of id along c and creates it when it does not exist. */
    method Son(id: nat, c: char) returns (u: nat)
      requires Valid() && id < |nodes|
      modifies this
      ensures Valid() && u < |nodes| && words[u] == old(words[id]) + [c]
      ensures if old(InTrie(words[id] + [c], words)) then nodes == old(nodes) && words == old(words)
              else words == old(words) + [old(words[id]) + [c]] && nodes[|old(nodes)|] == EMPTY_NODE
      ensures forall v :: 0 <= v < |old(nodes)| ==>
                nodes[v].pattId == old(nodes[v].pattId) && nodes[v].fail == old(nodes[v].fail)
    {
      ChildSpells(nodes, words, id, c);
      assert SonsOk(id, nodes, words);
      var beg, end := 0, |nodes[id].sons|;
      while beg < end
        invariant 0 <= beg <= end <= |nodes[id].sons|
        invariant forall i :: 0 <= i < beg ==> nodes[id].sons[i].0 < c
        invariant forall i :: end <= i < |nodes[id].sons| ==> c < nodes[id].sons[i].0
      {
        var mid := (beg + end) / 2;
        if c < nodes[id].sons[mid].0 {
          end := mid;
        } else if c == nodes[id].sons[mid].0 {
          return nodes[id].sons[mid].1;
        } else {
          beg := mid + 1;
        }
      }
      NewSonKeepsTrie(nodes, words, id, beg, c);
      u := |nodes|;
      var sons := nodes[id].sons;
      nodes := nodes[id := nodes[id].(sons := sons[..beg] + [(c, u)] + sons[beg..])] + [EMPTY_NODE];
      words := words + [words[id] + [c]];
    }

    /** Sets the id of patt; id 0 disables it. Only the prefixes of patt join the trie. */
    method AddPattern(patt: string, id: nat)
      requires Valid() && patt != []
      modifies this
      ensures Valid()
      ensures Patterns(nodes, words) ==
              if id != 0 then old(Patterns(nodes, words))[patt := id] else old(Patterns(nodes, words)) - {patt}
      ensures forall s :: InTrie(s, words) <==> old(InTrie(s, words)) || s <= patt
    {
      var curr := 0;
      for k := 0 to |patt|
        invariant Valid() && curr < |nodes| && words[curr] == patt[..k]
        invariant old(words) <= words
        invariant forall v :: 0 <= v < |old(nodes)| ==> nodes[v].pattId == old(nodes[v].pattId)
        invariant forall v :: |old(nodes)| <= v < |nodes| ==> nodes[v].pattId == 0 && words[v] <= patt
        invariant forall j :: 0 <= j <= k ==> InTrie(patt[..j], words)
      {
        assert patt[..k + 1] == patt[..k] + [patt[k]];
        curr := Son(curr, patt[k]);
        assert words[curr] == patt[..k + 1];
      }
      assert words[curr] == patt;
      forall s ensures InTrie(s, words) <==> old(InTrie(s, words)) || s <= patt {
        if s <= patt {
          assert s == patt[..|s|];
        }
        if v :| 0 <= v < |words| && words[v] == s {
          assert v < |old(words)| ==> old(words)[v] == s;
        }
        if v :| 0 <= v < |old(words)| && old(words)[v] == s {
          assert words[v] == s;
        }
      }
      SetIdKeepsTrie(nodes, words, curr, id);
      nodes := nodes[curr := nodes[curr].(pattId := id)];
      assert OnlyIdSet(old(nodes), nodes, curr);
      PatternsAfterSet(old(nodes), old(words), nodes, words, curr, id);
    }

    /** The node in which str ends, or 0. */
    method FindNode(str: string) returns (x: nat)
      requires Valid()
      ensures x < |nodes|
      ensures if InTrie(str, words) then words[x] == str else x == 0
    {
      x := 0;
      for k := 0 to |str|
        invariant x < |nodes| && words[x] == str[..k]
      {
        ChildSpells(nodes, words, x, str[k]);
        assert SonsOk(x, nodes, words);
        assert str[..k + 1] == words[x] + [str[k]];
        x := FindSon(nodes[x].sons, str[k]);
        if x == 0 {
          if v :| 0 <= v < |words| && words[v] == str {
            PrefixInTrie(nodes, words, v, k + 1);
          }
          return;
        }
      }
      assert str[..|str|] == str;
    }

    /** One turn of the breadth-first loop: links every son of curr and enqueues it. */
    method LinkSons(curr: nat, rest: seq<nat>, ghost popped: set<nat>) returns (queue: seq<nat>)
      requires Expanding(nodes, words, rest, popped, curr, 0)
      modifies this
      ensures words == old(words) && SameButLinks(nodes, old(nodes))
      ensures Expanding(nodes, words, queue, popped, curr, |nodes[curr].sons|)
    {
      queue := rest;
      for k := 0 to |nodes[curr].sons|
        invariant words == old(words) && SameButLinks(nodes, old(nodes))
        invariant Expanding(nodes, words, queue, popped, curr, k)
      {
        var (c, w) := nodes[curr].sons[k];
        ReadyToAdvance(nodes, words, curr, k);
        var x, steps := Advance(nodes, words, words[curr][1..], nodes[curr].fail, c);
        LinkStep(nodes, words, queue, popped, curr, k, x);
        nodes := Relink(nodes, w, x);
        queue := queue + [w];
      }
    }

    method BuildFailEdges()
      requires Valid()
      modifies this
      ensures Valid() && words == old(words) && SameButLinks(nodes, old(nodes))
      ensures Built(nodes, words)
      ensures Patterns(nodes, words) == old(Patterns(nodes, words))
    {
      var queue: seq<nat> := [];
      for k := 0 to |nodes[0].sons|
        invariant |queue| == k
        invariant forall i :: 0 <= i < k ==> queue[i] == nodes[0].sons[i].1
      {
        queue := queue + [nodes[0].sons[k].1];
      }
      ghost var popped := {0};
      InitialQueue(nodes, words, queue);
      while queue != []
        invariant Valid() && words == old(words) && SameButLinks(nodes, old(nodes))
        invariant QueueInv(nodes, words, queue, popped) && Linked(nodes, words, queue, popped)
        decreases Range(|nodes|) - popped
      {
        var curr := queue[0];
        ShallowAreLinked(nodes, words, queue, popped);
        StartExpand(nodes, words, queue, popped);
        popped := popped + {curr};
        queue := LinkSons(curr, queue[1..], popped);
      }
      AllLinked(nodes, words, popped);
    }

    /** For each position of text, the node of the longest pattern ending there, or 0. The fail edges
        followed over the whole scan never outnumber the characters. */
    method SearchIn(text: string) returns (res: seq<nat>, ghost steps: nat)
      requires Valid() && Built(nodes, words)
      ensures |res| == |text|
      ensures forall i {:trigger ReportsAt(nodes, words, text, i, res[i])} ::
                0 <= i < |text| ==> ReportsAt(nodes, words, text, i, res[i])
      ensures steps <= |text|
    {
      hide Built, SonsOk, HasParent, Distinct, Suffix, Reports;
      res := [];
      var curr: nat := 0;
      steps := 0;
      RootIsLongest(nodes, words);
      assert text[..0] == [];
      for i := 0 to |text|
        invariant |res| == i
        invariant IsLongest(words, text[..i], curr)
        invariant forall j {:trigger ReportsAt(nodes, words, text, j, res[j])} ::
                    0 <= j < i ==> ReportsAt(nodes, words, text, j, res[j])
        invariant steps + |words[curr]| <= i
      {
        assert text[..i + 1] == text[..i] + [text[i]];
        var report: nat;
        ghost var more: nat;
        curr, report, more := ScanStep(nodes, words, text[..i], curr, text[i]);
        steps := steps + more;
        res := res + [report];
      }
    }
  }
}
