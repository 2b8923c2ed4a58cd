/** The part of C that matchgen writes: nested switches on characters, with fall-through. */
module SwitchCode {
  import opened Common

  /** What stands in a block. A switch reads the character at its index; value None is 0. */
  datatype Item =
    | Case(key: char)
    | Switch(index: nat, body: seq<Item>)
    | Break
    | Return(value: Option<string>)

  /** Stuck is a read past the terminating NUL. */
  datatype Outcome = Through | Broke | Returned(value: Option<string>) | Stuck

  function Size(items: seq<Item>): nat {
    if items == [] then 0
    else (if items[0].Switch? then 1 + Size(items[0].body) else 1) + Size(items[1..])
  }

  /** Where a switch goes on: after the label that matches, or nowhere. */
  function From(body: seq<Item>, c: char): (r: seq<Item>)
    ensures Size(r) <= Size(body)
  {
    if body == [] then [] else if body[0] == Case(c) then body[1..] else From(body[1..], c)
  }

  /** The characters of s, and the NUL that ends it. */
  function At(s: string, i: nat): char
    requires i <= |s|
  {
    if i < |s| then s[i] else '\0'
  }

  function Exec(items: seq<Item>, s: string): Outcome
    decreases Size(items)
  {
    if items == [] then Through
    else
      match items[0]
      case Case(_) => Exec(items[1..], s)
      case Break => Broke
      case Return(value) => Returned(value)
      case Switch(i, body) =>
        if i > |s| then Stuck
        else
          var r := Exec(From(body, At(s, i)), s);
          if r.Returned? || r.Stuck? then r else Exec(items[1..], s)
  }

  /** The labels of one switch. */
  function Labels(body: seq<Item>): seq<char> {
    if body == [] then []
    else if body[0].Case? then [body[0].key] + Labels(body[1..])
    else Labels(body[1..])
  }

  /** C requires the labels of a switch to differ. */
  predicate WellLabelled(items: seq<Item>)
    decreases Size(items)
  {
    items != [] ==>
      && (items[0].Switch? ==> Distinct(Labels(items[0].body)) && WellLabelled(items[0].body))
      && WellLabelled(items[1..])
  }

  lemma {:induction false} FromSkips(a: seq<Item>, b: seq<Item>, c: char)
    requires Case(c) !in a
    ensures From(a + b, c) == From(b, c)
  {
    if a == [] {
      assert a + b == b;
    } else {
      assert (a + b)[0] == a[0] && (a + b)[1..] == a[1..] + b;
      FromSkips(a[1..], b, c);
    }
  }

  /** After a switch and a break nothing is reached. */
  lemma {:induction false} SwitchThenBreak(i: nat, body: seq<Item>, rest: seq<Item>, s: string)
    ensures Exec([Switch(i, body), Break] + rest, s) == Exec([Switch(i, body), Break], s)
    ensures i <= |s| ==>
              var r := Exec(From(body, At(s, i)), s);
              Exec([Switch(i, body), Break], s) == if r.Returned? || r.Stuck? then r else Broke
  {
    var code := [Switch(i, body), Break];
    assert (code + rest)[0] == code[0] && (code + rest)[1..] == [Break] + rest;
    assert ([Break] + rest)[0] == Break;
    assert code[1..] == [Break];
  }

  lemma {:induction false} LabelsAppend(a: seq<Item>, b: seq<Item>)
    ensures Labels(a + b) == Labels(a) + Labels(b)
  {
    if a == [] {
      assert a + b == b;
    } else {
      assert (a + b)[0] == a[0] && (a + b)[1..] == a[1..] + b;
      LabelsAppend(a[1..], b);
    }
  }

  lemma {:induction false} WellLabelledAppend(a: seq<Item>, b: seq<Item>)
    requires WellLabelled(a) && WellLabelled(b)
    ensures WellLabelled(a + b)
  {
    if a == [] {
      assert a + b == b;
    } else {
      assert (a + b)[0] == a[0] && (a + b)[1..] == a[1..] + b;
      WellLabelledAppend(a[1..], b);
    }
  }
}
