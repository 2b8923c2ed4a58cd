/**
 * matchgen.py: a table of file extensions becomes a trie of nested dictionaries, and the trie
 * becomes nested C switches on the characters of a NUL-terminated string.
 */
module MatchGen {
  import opened Common

  datatype Entry = Entry(kind: string, word: string)

  const NUL := '\0'

  function LowerChar(c: char): char {
    if 'A' <= c <= 'Z' then c + ' ' else c
  }

  function UpperChar(c: char): char {
    if 'a' <= c <= 'z' then c - ' ' else c
  }

  const UPPER_CASE := "ABCDEFGHIJKLMNOPQRSTUVWXYZ"
  const LOWER_CASE := "abcdefghijklmnopqrstuvwxyz"

  /** A capital and the small letter in the same place of the alphabet become each other. */
  lemma {:induction false} CaseOfLetter(i: nat)
    requires i < 26
    ensures LowerChar(UPPER_CASE[i]) == LOWER_CASE[i] && UpperChar(LOWER_CASE[i]) == UPPER_CASE[i]
  {
    AlphabetAt(i);
  }

  /** What is not a capital is not lowered, and what is not a small letter is not raised. */
  lemma {:induction false} CaseOfOther(c: char)
    ensures c !in UPPER_CASE ==> LowerChar(c) == c
    ensures c !in LOWER_CASE ==> UpperChar(c) == c
  {
    if 'A' <= c <= 'Z' {
      AlphabetAt(c as int - 'A' as int);
    } else if 'a' <= c <= 'z' {
      AlphabetAt(c as int - 'a' as int);
    }
  }

  lemma {:induction false} AlphabetAt(i: nat)
    requires i < 26
    ensures UPPER_CASE[i] as int == 'A' as int + i && LOWER_CASE[i] as int == 'a' as int + i
  {
  }

  function Lower(s: string): (r: string)
    ensures |r| == |s| && forall i :: 0 <= i < |s| ==> r[i] == LowerChar(s[i])
  {
    if s == "" then "" else [LowerChar(s[0])] + Lower(s[1..])
  }

  /** The two labels written for a key match exactly the characters that fold to it. */
  lemma {:induction false} LabelsMatch(k: char, c: char)
    requires LowerChar(k) == k
    ensures LowerChar(c) == k <==> c == k || c == UpperChar(k)
  {
  }

  // ----- The table -----

  /** What the table says of a folded word; a later entry replaces an earlier one. */
  function Lookup(entries: seq<Entry>, w: string): Option<string> {
    if entries == [] then None
    else
      var last := entries[|entries| - 1];
      if Lower(last.word) == w then Some(last.kind) else Lookup(entries[..|entries| - 1], w)
  }

  predicate EntryIs(entries: seq<Entry>, i: nat, w: string, kind: string) {
    i < |entries| && Lower(entries[i].word) == w && entries[i].kind == kind
  }

  ghost predicate Listed(entries: seq<Entry>, w: string, kind: string) {
    exists i :: EntryIs(entries, i, w, kind)
  }

  ghost predicate ConflictFree(entries: seq<Entry>) {
    forall i, j, w, k, l :: EntryIs(entries, i, w, k) && EntryIs(entries, j, w, l) ==> k == l
  }

  lemma {:induction false} LookupIsListed(entries: seq<Entry>, w: string, kind: string)
    requires ConflictFree(entries)
    ensures Lookup(entries, w) == Some(kind) <==> Listed(entries, w, kind)
    decreases |entries|
  {
    if entries == [] {
      return;
    }
    var n := |entries| - 1;
    var rest := entries[..n];
    assert forall i, v, k :: EntryIs(entries, i, v, k) <==>
             EntryIs(rest, i, v, k) || (i == n && EntryIs(entries, n, v, k));
    LookupIsListed(rest, w, kind);
    if Lower(entries[n].word) == w {
      assert EntryIs(entries, n, w, entries[n].kind);
    } else if Listed(rest, w, kind) {
      var i :| EntryIs(rest, i, w, kind);
      assert EntryIs(entries, i, w, kind);
    }
  }

  // ----- The trie -----

  /** One dictionary, named by the characters that lead to it: its keys, and what is under NUL. */
  datatype Dict = Dict(kids: set<char>, leaf: Option<string>)

  type Trie = map<string, Dict>

  const DEPTH := 5

  predicate Prefixes(entries: seq<Entry>, i: nat, p: string) {
    i < |entries| && p <= Lower(entries[i].word)
  }

  /** The dictionaries of a table and of the first k characters of one more word. */
  ghost predicate HasPath(entries: seq<Entry>, w: string, k: nat, p: string) {
    p == "" || (exists i :: Prefixes(entries, i, p)) || (|p| <= k && p <= w)
  }

  ghost predicate PathAt(d: Trie, entries: seq<Entry>, w: string, k: nat, p: string) {
    p in d <==> HasPath(entries, w, k, p)
  }

  predicate KeyAt(d: Trie, p: string, c: char) {
    p in d ==> (c in d[p].kids <==> p + [c] in d)
  }

  predicate LeafAt(d: Trie, entries: seq<Entry>, p: string) {
    p in d ==> d[p].leaf == Lookup(entries, p)
  }

  ghost predicate TrieOf(d: Trie, entries: seq<Entry>, w: string, k: nat) {
    && (forall p :: PathAt(d, entries, w, k, p))
    && (forall p, c :: KeyAt(d, p, c))
    && (forall p :: LeafAt(d, entries, p))
  }

  ghost predicate IsTrie(d: Trie, entries: seq<Entry>) {
    TrieOf(d, entries, "", 0)
  }

  predicate Fits(e: Entry) {
    |e.word| <= DEPTH
  }

  ghost predicate AllFit(entries: seq<Entry>) {
    forall i :: 0 <= i < |entries| ==> Fits(entries[i])
  }

  /** Looking a key up makes the dictionary under it if it is missing. */
  function Grow(d: Trie, path: string, c: char): Trie
    requires path in d
  {
    var d1 := d[path := d[path].(kids := d[path].kids + {c})];
    if path + [c] in d1 then d1 else d1[path + [c] := Dict({}, None)]
  }

  lemma {:induction false} LookupHasPath(entries: seq<Entry>, p: string)
    ensures Lookup(entries, p).Some? ==> exists i :: Prefixes(entries, i, p)
    decreases |entries|
  {
    if entries != [] {
      var n := |entries| - 1;
      if Lower(entries[n].word) == p {
        assert Prefixes(entries, n, p);
      } else if Lookup(entries[..n], p).Some? {
        LookupHasPath(entries[..n], p);
        var i :| Prefixes(entries[..n], i, p);
        assert Prefixes(entries, i, p);
      }
    }
  }

  /** A path leads through all its prefixes. */
  lemma {:induction false} ParentPath(entries: seq<Entry>, w: string, k: nat, p: string, c: char)
    requires HasPath(entries, w, k, p + [c])
    ensures HasPath(entries, w, k, p)
  {
    if i :| Prefixes(entries, i, p + [c]) {
      assert p <= p + [c];
      assert Prefixes(entries, i, p);
    } else {
      assert p <= p + [c];
    }
  }

  lemma {:induction false} GrowPaths(d: Trie, entries: seq<Entry>, w: string, k: nat, p: string)
    requires TrieOf(d, entries, w, k) && k < |w| && w[..k] in d
    ensures PathAt(Grow(d, w[..k], w[k]), entries, w, k + 1, p)
  {
    assert w[..k] + [w[k]] == w[..k + 1];
    assert p <= w && |p| == k + 1 ==> p == w[..k + 1];
    assert PathAt(d, entries, w, k, p);
  }

  lemma {:induction false} GrowKeys(d: Trie, entries: seq<Entry>, w: string, k: nat, p: string, c: char)
    requires TrieOf(d, entries, w, k) && k < |w| && w[..k] in d
    ensures KeyAt(Grow(d, w[..k], w[k]), p, c)
  {
    var path := w[..k];
    assert KeyAt(d, p, c) && PathAt(d, entries, w, k, p) && PathAt(d, entries, w, k, p + [c]);
    if p + [c] == path + [w[k]] {
      assert p == (p + [c])[..|p|] == path && c == (p + [c])[|p|] == w[k];
    }
    if p + [c] in d {
      ParentPath(entries, w, k, p, c);
    }
  }

  lemma {:induction false} GrowLeaves(d: Trie, entries: seq<Entry>, w: string, k: nat, p: string)
    requires TrieOf(d, entries, w, k) && k < |w| && w[..k] in d
    ensures LeafAt(Grow(d, w[..k], w[k]), entries, p)
  {
    LookupHasPath(entries, p);
    assert LeafAt(d, entries, p) && PathAt(d, entries, w, k, p);
  }

  lemma {:induction false} GrowStep(d: Trie, entries: seq<Entry>, w: string, k: nat)
    requires TrieOf(d, entries, w, k) && k < |w| && w[..k] in d
    ensures TrieOf(Grow(d, w[..k], w[k]), entries, w, k + 1)
  {
    var d', n := Grow(d, w[..k], w[k]), k + 1;
    forall p
      ensures PathAt(d', entries, w, n, p)
    {
      GrowPaths(d, entries, w, k, p);
    }
    forall p, c
      ensures KeyAt(d', p, c)
    {
      GrowKeys(d, entries, w, k, p, c);
    }
    forall p
      ensures LeafAt(d', entries, p)
    {
      GrowLeaves(d, entries, w, k, p);
    }
  }

  lemma {:induction false} LastEntry(entries: seq<Entry>, e: Entry, p: string)
    ensures Lookup(entries + [e], p) == if Lower(e.word) == p then Some(e.kind) else Lookup(entries, p)
    ensures HasPath(entries + [e], "", 0, p) <==> HasPath(entries, Lower(e.word), |e.word|, p)
  {
    var all := entries + [e];
    assert all[..|entries|] == entries;
    assert forall i :: Prefixes(all, i, p) <==> Prefixes(entries, i, p) || (i == |entries| && p <= Lower(e.word));
    if p <= Lower(e.word) {
      assert Prefixes(all, |entries|, p);
    }
    if i :| Prefixes(entries, i, p) {
      assert Prefixes(all, i, p);
    }
  }

  lemma {:induction false} LeafStep(d: Trie, entries: seq<Entry>, e: Entry)
    requires TrieOf(d, entries, Lower(e.word), |e.word|) && Lower(e.word) in d
    ensures IsTrie(d[Lower(e.word) := d[Lower(e.word)].(leaf := Some(e.kind))], entries + [e])
  {
    var w := Lower(e.word);
    var d', all := d[w := d[w].(leaf := Some(e.kind))], entries + [e];
    forall p
      ensures PathAt(d', all, "", 0, p)
    {
      LastEntry(entries, e, p);
      assert PathAt(d, entries, w, |e.word|, p);
    }
    forall p
      ensures LeafAt(d', all, p)
    {
      LastEntry(entries, e, p);
      assert LeafAt(d, entries, p);
    }
    forall p, c
      ensures KeyAt(d', p, c)
    {
      assert KeyAt(d, p, c);
    }
  }

  lemma {:induction false} NoWordYet(d: Trie, entries: seq<Entry>, w: string)
    requires IsTrie(d, entries)
    ensures TrieOf(d, entries, w, 0) && "" in d
  {
    forall p
      ensures PathAt(d, entries, w, 0, p)
    {
      assert PathAt(d, entries, "", 0, p);
    }
    assert PathAt(d, entries, w, 0, "");
  }

  datatype Group = Group(kind: string, words: seq<string>)

  function GroupEntries(kind: string, words: seq<string>): (r: seq<Entry>)
    ensures |r| == |words| && forall i :: 0 <= i < |words| ==> r[i] == Entry(kind, words[i])
  {
    if words == [] then [] else GroupEntries(kind, words[..|words| - 1]) + [Entry(kind, words[|words| - 1])]
  }

  /** The table as one list, in the order in which it is gone through. */
  function Entries(table: seq<Group>): seq<Entry> {
    if table == [] then []
    else Entries(table[..|table| - 1]) + GroupEntries(table[|table| - 1].kind, table[|table| - 1].words)
  }

  class Generator {
    var trie: Trie

    constructor ()
      ensures IsTrie(trie, [])
    {
      trie := map["" := Dict({}, None)];
      new;
      forall p, c
        ensures PathAt(trie, [], "", 0, p) && KeyAt(trie, p, c) && LeafAt(trie, [], p)
      {
        assert forall i :: !Prefixes([], i, p);
      }
    }

    /** Enters one word; the innermost dictionaries hold no further ones, so a longer word is an error. */
    method Add(kind: string, word: string, ghost entries: seq<Entry>) returns (ok: bool)
      requires IsTrie(trie, entries)
      modifies this
      ensures ok == (|word| <= 5)
      ensures ok ==> IsTrie(trie, entries + [Entry(kind, word)])
    {
      var w := Lower(word);
      var target := "";
      NoWordYet(trie, entries, w);
      assert w[..0] == "";
      for k := 0 to |w|
        invariant target == w[..k] && k <= DEPTH
        invariant TrieOf(trie, entries, w, k) && target in trie
      {
        if k == DEPTH {
          return false;
        }
        GrowStep(trie, entries, w, k);
        trie := Grow(trie, target, w[k]);
        target := target + [w[k]];
      }
      assert target == w;
      LeafStep(trie, entries, Entry(kind, word));
      trie := trie[target := trie[target].(leaf := Some(kind))];
      ok := true;
    }

    /** Goes through the whole table; fails exactly on a word that is too long. */
    method Build(table: seq<Group>) returns (ok: bool)
      requires IsTrie(trie, [])
      modifies this
      ensures ok == AllFit(Entries(table)) == forall i :: 0 <= i < |Entries(table)| ==> |Entries(table)[i].word| <= 5
      ensures ok ==> IsTrie(trie, Entries(table))
    {
      ghost var done: seq<Entry> := [];
      for i := 0 to |table|
        invariant done == Entries(table[..i]) && IsTrie(trie, done) && AllFit(done)
      {
        var group := table[i];
        ghost var before := done;
        assert done == before + GroupEntries(group.kind, group.words[..0]);
        for j := 0 to |group.words|
          invariant done == before + GroupEntries(group.kind, group.words[..j]) && IsTrie(trie, done) && AllFit(done)
        {
          ok := Add(group.kind, group.words[j], done);
          MoreEntries(table, i, j);
          if !ok {
            return false;
          }
          done := done + [Entry(group.kind, group.words[j])];
        }
        assert group.words[..|group.words|] == group.words;
        assert table[..i + 1][..i] == table[..i];
      }
      assert table[..|table|] == table;
      ok := true;
    }
  }

  /** What has been entered, and one word more, is part of the table. */
  lemma {:induction false} MoreEntries(table: seq<Group>, i: nat, j: nat)
    requires i < |table| && j < |table[i].words|
    ensures var g := table[i];
            && GroupEntries(g.kind, g.words[..j + 1]) ==
                  GroupEntries(g.kind, g.words[..j]) + [Entry(g.kind, g.words[j])]
            && (!Fits(Entry(g.kind, g.words[j])) ==> !AllFit(Entries(table)))
  {
    var g := table[i];
    assert g.words[..j + 1][..j] == g.words[..j];
    EntriesHas(table, i, j);
  }

  lemma {:induction false} EntriesHas(table: seq<Group>, i: nat, j: nat)
    requires i < |table| && j < |table[i].words|
    ensures Entry(table[i].kind, table[i].words[j]) in Entries(table)
    decreases |table|
  {
    var n := |table| - 1;
    if i < n {
      EntriesHas(table[..n], i, j);
    } else {
      assert GroupEntries(table[n].kind, table[n].words)[j] == Entry(table[i].kind, table[i].words[j]);
    }
  }
}
