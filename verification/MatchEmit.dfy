/** matchgen.py's `dump`, and what the switches it writes compute. */
module MatchEmit {
  import opened Common
  import opened MatchGen
  import opened SwitchCode

  // ----- Keys in order -----

  lemma {:induction false} LeastExists(s: set<char>)
    requires s != {}
    ensures exists m :: m in s && forall x :: x in s ==> m <= x
    decreases |s|
  {
    var y :| y in s;
    var rest := s - {y};
    if rest == {} {
      assert forall x :: x in s ==> x == y || x in rest;
    } else {
      LeastExists(rest);
      var m :| m in rest && forall x :: x in rest ==> m <= x;
      var least := if m <= y then m else y;
      assert forall x :: x in s ==> x == y || x in rest;
      assert least in s && forall x :: x in s ==> least <= x;
    }
  }

  function Sorted(s: set<char>): (r: seq<char>)
    ensures forall c :: c in r <==> c in s
    ensures forall i, j :: 0 <= i < j < |r| ==> r[i] < r[j]
    decreases |s|
  {
    if s == {} then []
    else
      LeastExists(s);
      var m :| m in s && forall x :: x in s ==> m <= x;
      [m] + Sorted(s - {m})
  }

  // ----- Writing the code -----

  predicate DepthAt(d: Trie, p: string) {
    p in d ==> |p| <= DEPTH
  }

  ghost predicate Closed(d: Trie) {
    (forall p, c :: KeyAt(d, p, c)) && (forall p :: DepthAt(d, p))
  }

  function LeafCode(leaf: Option<string>): seq<Item> {
    if leaf.Some? then [Case(NUL), Return(leaf)] else []
  }

  function KeyCode(k: char): seq<Item> {
    if UpperChar(k) != k then [Case(k), Case(UpperChar(k))] else [Case(k)]
  }

  function Dump(d: Trie, path: string): seq<Item>
    requires Closed(d) && path in d
    decreases DEPTH - |path|, 1, 0
  {
    assert DepthAt(d, path);
    [Switch(|path|, Body(d, path))] + if path == "" then [] else [Break]
  }

  function Body(d: Trie, path: string): seq<Item>
    requires Closed(d) && path in d
    decreases DEPTH - |path|, 0, 1, 0
  {
    LeafCode(d[path].leaf) + Arms(d, path, Sorted(d[path].kids))
  }

  function Arms(d: Trie, path: string, keys: seq<char>): seq<Item>
    requires Closed(d) && path in d && forall k :: k in keys ==> k in d[path].kids
    decreases DEPTH - |path|, 0, 0, |keys|
  {
    if keys == [] then []
    else
      assert KeyAt(d, path, keys[0]) && DepthAt(d, path + [keys[0]]);
      KeyCode(keys[0]) + Dump(d, path + [keys[0]]) + Arms(d, path, keys[1..])
  }

  function Program(d: Trie): seq<Item>
    requires Closed(d) && "" in d
  {
    Dump(d, "") + [Return(None)]
  }

  // ----- The words of a table -----

  ghost predicate NoNul(entries: seq<Entry>) {
    forall i :: 0 <= i < |entries| ==> NUL !in entries[i].word
  }

  /** A trie built from such a table can be written out. */
  ghost predicate Ready(d: Trie, entries: seq<Entry>) {
    IsTrie(d, entries) && AllFit(entries) && NoNul(entries)
  }

  lemma {:induction false} PathIsFolded(d: Trie, entries: seq<Entry>, p: string)
    requires Ready(d, entries) && p in d
    ensures |p| <= DEPTH && forall i :: 0 <= i < |p| ==> LowerChar(p[i]) == p[i] && p[i] != NUL
  {
    assert PathAt(d, entries, "", 0, p);
    if p != "" {
      var i: nat :| Prefixes(entries, i, p);
      assert Fits(entries[i]);
      assert forall j :: 0 <= j < |p| ==> p[j] == LowerChar(entries[i].word[j]) && entries[i].word[j] != NUL;
    }
  }

  lemma {:induction false} ReadyIsClosed(d: Trie, entries: seq<Entry>)
    requires Ready(d, entries)
    ensures Closed(d) && "" in d
  {
    assert PathAt(d, entries, "", 0, "");
    forall p
      ensures DepthAt(d, p)
    {
      if p in d {
        PathIsFolded(d, entries, p);
      }
    }
  }

  lemma {:induction false} KeyIsFolded(d: Trie, entries: seq<Entry>, path: string, k: char)
    requires Ready(d, entries) && path in d && k in d[path].kids
    ensures LowerChar(k) == k && k != NUL && path + [k] in d
  {
    assert KeyAt(d, path, k);
    PathIsFolded(d, entries, path + [k]);
    assert (path + [k])[|path|] == k;
  }

  /** A word of the table has all its prefixes in the trie. */
  lemma {:induction false} WordHasPath(d: Trie, entries: seq<Entry>, w: string, p: string)
    requires IsTrie(d, entries) && Lookup(entries, w).Some? && p <= w
    ensures p in d
  {
    LookupHasPath(entries, w);
    var i: nat :| Prefixes(entries, i, w);
    assert Prefixes(entries, i, p);
    assert PathAt(d, entries, "", 0, p);
  }

  // ----- What the code does -----

  /** The code for a key ends with a break, so nothing after it is reached. */
  lemma {:induction false} DumpStops(d: Trie, path: string, rest: seq<Item>, s: string)
    requires Closed(d) && path in d && path != ""
    ensures Exec(Dump(d, path) + rest, s) == Exec(Dump(d, path), s)
    ensures |path| <= |s| ==>
              var r := Exec(From(Body(d, path), At(s, |path|)), s);
              Exec(Dump(d, path), s) == if r.Returned? || r.Stuck? then r else Broke
  {
    var body := Body(d, path);
    assert Dump(d, path) == [Switch(|path|, body), Break];
    SwitchThenBreak(|path|, body, rest, s);
  }

  lemma {:induction false} KeyCodeMatches(k: char, c: char, rest: seq<Item>, s: string)
    requires LowerChar(k) == k && LowerChar(c) == k
    ensures Exec(From(KeyCode(k) + rest, c), s) == Exec(rest, s)
  {
    LabelsMatch(k, c);
    var code := KeyCode(k) + rest;
    if c == k {
      assert code[0] == Case(c);
      if UpperChar(k) != k {
        assert code[1..] == [Case(UpperChar(k))] + rest;
        assert code[1..][1..] == rest;
      } else {
        assert code[1..] == rest;
      }
    } else {
      assert code[0] == Case(k) && code[1..] == [Case(c)] + rest;
      assert code[1..][1..] == rest;
    }
  }

  /** The switch goes to the arm of the folded character. */
  lemma {:induction false} ExecArms(d: Trie, entries: seq<Entry>, path: string, keys: seq<char>, c: char, s: string)
    requires Ready(d, entries) && Closed(d) && path in d && forall k :: k in keys ==> k in d[path].kids
    ensures LowerChar(c) !in keys ==> From(Arms(d, path, keys), c) == []
    ensures LowerChar(c) in keys && path + [LowerChar(c)] in d ==>
              Exec(From(Arms(d, path, keys), c), s) == Exec(Dump(d, path + [LowerChar(c)]), s)
    decreases |keys|
  {
    if keys == [] {
      return;
    }
    var k, rest := keys[0], Arms(d, path, keys[1..]);
    KeyIsFolded(d, entries, path, k);
    LabelsMatch(k, c);
    var code := Dump(d, path + [k]);
    assert Arms(d, path, keys) == KeyCode(k) + (code + rest);
    if LowerChar(c) == k {
      KeyCodeMatches(k, c, code + rest, s);
      DumpStops(d, path + [k], rest, s);
    } else {
      assert Case(c) !in KeyCode(k) && Case(c) !in code;
      FromSkips(KeyCode(k), code + rest, c);
      FromSkips(code, rest, c);
      ExecArms(d, entries, path, keys[1..], c, s);
    }
  }

  /** A value was returned exactly if there is one to be found. */
  predicate Finds(r: Outcome, value: Option<string>) {
    if value.Some? then r == Returned(value) else r == Through || r == Broke
  }

  lemma {:induction false} AtTheEnd(d: Trie, entries: seq<Entry>, s: string)
    requires Ready(d, entries) && Closed(d) && Lower(s) in d
    ensures Finds(Exec(From(Body(d, Lower(s)), NUL), s), Lookup(entries, Lower(s)))
  {
    var path := Lower(s);
    var leaf, keys := d[path].leaf, Sorted(d[path].kids);
    var arms := Arms(d, path, keys);
    assert LeafAt(d, entries, path);
    if leaf.Some? {
      var body := Body(d, path);
      assert body[0] == Case(NUL) && body[1..][0] == Return(leaf);
    } else {
      assert Body(d, path) == arms;
      if NUL in keys {
        KeyIsFolded(d, entries, path, NUL);
      }
      ExecArms(d, entries, path, keys, NUL, s);
    }
  }

  /** At a dictionary reached by the folded characters so far, the rest of the string decides. */
  lemma {:induction false} BodyFinds(d: Trie, entries: seq<Entry>, path: string, s: string)
    requires Ready(d, entries) && Closed(d) && path in d && path <= Lower(s) && NUL !in s
    ensures Finds(Exec(From(Body(d, path), At(s, |path|)), s), Lookup(entries, Lower(s)))
    decreases |s| - |path|
  {
    var w := Lower(s);
    if |path| == |s| {
      assert path == w;
      AtTheEnd(d, entries, s);
      return;
    }
    var c, keys := s[|path|], Sorted(d[path].kids);
    var k := LowerChar(c);
    var next := path + [k];
    assert w[|path|] == k && next <= w;
    assert KeyAt(d, path, k);
    assert Case(c) !in LeafCode(d[path].leaf);
    FromSkips(LeafCode(d[path].leaf), Arms(d, path, keys), c);
    ExecArms(d, entries, path, keys, c, s);
    if next in d {
      BodyFinds(d, entries, next, s);
      DumpStops(d, next, [], s);
    } else if Lookup(entries, w).Some? {
      WordHasPath(d, entries, w, next);
    }
  }

  /**
   * The generated function: on every NUL-terminated string it returns what the table has for the
   * folded string, and 0 if there is nothing; it never reads past the NUL.
   */
  lemma {:induction false} ProgramLooksUp(d: Trie, entries: seq<Entry>, s: string)
    requires Ready(d, entries) && NUL !in s
    ensures Closed(d) && "" in d
    ensures Exec(Program(d), s) == Returned(Lookup(entries, Lower(s)))
  {
    ReadyIsClosed(d, entries);
    BodyFinds(d, entries, "", s);
    var code := Program(d);
    assert code == [Switch(0, Body(d, "")), Return(None)];
    assert code[1..] == [Return(None)];
  }

  /** For a table without conflicts this is what the table says, in whatever order it was entered. */
  lemma {:induction false} ProgramMatchesTable(d: Trie, entries: seq<Entry>, s: string, kind: string)
    requires Ready(d, entries) && NUL !in s && ConflictFree(entries)
    ensures Closed(d) && "" in d
    ensures Exec(Program(d), s) == Returned(Some(kind)) <==> Listed(entries, Lower(s), kind)
    ensures Exec(Program(d), s) == Returned(None) <==> forall k :: !Listed(entries, Lower(s), k)
  {
    ProgramLooksUp(d, entries, s);
    LookupIsListed(entries, Lower(s), kind);
    var found := Lookup(entries, Lower(s));
    if found.Some? {
      LookupIsListed(entries, Lower(s), found.value);
    } else {
      forall k
        ensures !Listed(entries, Lower(s), k)
      {
        LookupIsListed(entries, Lower(s), k);
      }
    }
  }

  // ----- The labels differ -----

  lemma {:induction false} KeyLabels(k: char)
    requires LowerChar(k) == k
    ensures Labels(KeyCode(k)) == if UpperChar(k) != k then [k, UpperChar(k)] else [k]
    ensures WellLabelled(KeyCode(k))
    ensures forall c :: c in Labels(KeyCode(k)) ==> LowerChar(c) == k
  {
    var code := KeyCode(k);
    LabelsMatch(k, UpperChar(k));
    if UpperChar(k) != k {
      assert code[1..] == [Case(UpperChar(k))] && code[1..][1..] == [];
      assert Labels(code[1..]) == [UpperChar(k)] + Labels([]);
    } else {
      assert code[1..] == [];
    }
  }

  lemma {:induction false} DistinctAppend(a: seq<char>, b: seq<char>)
    requires Distinct(a) && Distinct(b) && forall c :: c in a ==> c !in b
    ensures Distinct(a + b)
  {
    forall i, j | 0 <= i < j < |a + b|
      ensures (a + b)[i] != (a + b)[j]
    {
      assert i < |a| ==> (a + b)[i] in a;
      assert j >= |a| ==> (a + b)[j] in b;
    }
  }

  lemma {:induction false} OneMoreArm(k: char, code: seq<Item>, rest: seq<Item>, keys: seq<char>)
    requires LowerChar(k) == k && k !in keys
    requires Labels(code) == [] && WellLabelled(code) && WellLabelled(rest) && Distinct(Labels(rest))
    requires forall c :: c in Labels(rest) ==> LowerChar(c) in keys
    ensures var all := KeyCode(k) + code + rest;
            && WellLabelled(all) && Distinct(Labels(all))
            && forall c :: c in Labels(all) ==> LowerChar(c) == k || LowerChar(c) in keys
  {
    KeyLabels(k);
    LabelsAppend(KeyCode(k), code);
    LabelsAppend(KeyCode(k) + code, rest);
    WellLabelledAppend(KeyCode(k), code);
    WellLabelledAppend(KeyCode(k) + code, rest);
    DistinctAppend(Labels(KeyCode(k)), Labels(rest));
    assert Labels(KeyCode(k)) + [] == Labels(KeyCode(k));
  }

  lemma {:induction false} ArmLabels(d: Trie, entries: seq<Entry>, path: string, keys: seq<char>)
    requires Ready(d, entries) && Closed(d) && path in d && Distinct(keys)
    requires forall k :: k in keys ==> k in d[path].kids
    ensures forall c :: c in Labels(Arms(d, path, keys)) ==> LowerChar(c) in keys
    ensures Distinct(Labels(Arms(d, path, keys))) && WellLabelled(Arms(d, path, keys))
    decreases DEPTH - |path|, 0, |keys|
  {
    if keys == [] {
      return;
    }
    var k, rest := keys[0], Arms(d, path, keys[1..]);
    KeyIsFolded(d, entries, path, k);
    PathIsFolded(d, entries, path + [k]);
    ArmLabels(d, entries, path, keys[1..]);
    DumpLabels(d, entries, path + [k]);
    OneMoreArm(k, Dump(d, path + [k]), rest, keys[1..]);
  }

  lemma {:induction false} DumpLabels(d: Trie, entries: seq<Entry>, path: string)
    requires Ready(d, entries) && Closed(d) && path in d
    ensures WellLabelled(Dump(d, path)) && Labels(Dump(d, path)) == []
    decreases DEPTH - |path|, 1, 0
  {
    PathIsFolded(d, entries, path);
    var leaf, keys := LeafCode(d[path].leaf), Sorted(d[path].kids);
    ArmLabels(d, entries, path, keys);
    LabelsAppend(leaf, Arms(d, path, keys));
    WellLabelledAppend(leaf, Arms(d, path, keys));
    if NUL in keys {
      KeyIsFolded(d, entries, path, NUL);
    }
    DistinctAppend(Labels(leaf), Labels(Arms(d, path, keys)));
  }

  /** No switch has the same label twice. */
  lemma {:induction false} ProgramIsWellLabelled(d: Trie, entries: seq<Entry>)
    requires Ready(d, entries)
    ensures Closed(d) && "" in d && WellLabelled(Program(d))
  {
    ReadyIsClosed(d, entries);
    DumpLabels(d, entries, "");
    WellLabelledAppend(Dump(d, ""), [Return(None)]);
  }

  /** The whole of matchgen: from a table to the body of MatchExtension, or an error for a word that is too long. */
  method Generate(table: seq<Group>) returns (code: Option<seq<Item>>)
    requires NoNul(Entries(table))
    ensures code.Some? <==> AllFit(Entries(table))
    ensures code.Some? ==> WellLabelled(code.value)
    ensures code.Some? ==> forall s :: NUL !in s ==> Exec(code.value, s) == Returned(Lookup(Entries(table), Lower(s)))
  {
    var generator := new Generator();
    var ok := generator.Build(table);
    if !ok {
      return None;
    }
    ghost var entries := Entries(table);
    ReadyIsClosed(generator.trie, entries);
    code := Some(Program(generator.trie));
    ProgramIsWellLabelled(generator.trie, entries);
    forall s: string | NUL !in s
      ensures Exec(code.value, s) == Returned(Lookup(entries, Lower(s)))
    {
      ProgramLooksUp(generator.trie, entries, s);
    }
  }
}
