/** `findDuplicates` of scripts/check-i18n-duplicates.js: names that occur more than once, with all their lines. */
module I18nDuplicates {
  import opened I18nKeys

  datatype Duplicate = Duplicate(key: string, lines: seq<nat>)

  /** All lines of a name, in order. */
  function LinesOf(keys: seq<Key>, name: string): seq<nat> {
    if keys == [] then []
    else LinesOf(keys[..|keys| - 1], name) + if keys[|keys| - 1].name == name then [keys[|keys| - 1].line] else []
  }

  /** The names in the order of their first occurrence: the insertion order of the map. */
  function FirstSeen(keys: seq<Key>): seq<string> {
    if keys == [] then []
    else
      var before := FirstSeen(keys[..|keys| - 1]);
      if keys[|keys| - 1].name in before then before else before + [keys[|keys| - 1].name]
  }

  ghost predicate Distinct(names: seq<string>) {
    forall i, j :: 0 <= i < j < |names| ==> names[i] != names[j]
  }

  lemma {:induction false} FirstSeenIsNames(keys: seq<Key>)
    ensures Distinct(FirstSeen(keys))
    ensures forall name :: name in FirstSeen(keys) <==> |LinesOf(keys, name)| > 0
  {
    if keys != [] {
      FirstSeenIsNames(keys[..|keys| - 1]);
    }
  }

  method GroupByName(keys: seq<Key>) returns (byKey: map<string, seq<nat>>, order: seq<string>)
    ensures order == FirstSeen(keys) && Distinct(order)
    ensures forall name :: name in byKey <==> name in order
    ensures forall name :: name in byKey ==> byKey[name] == LinesOf(keys, name)
  {
    byKey, order := map[], [];
    for i := 0 to |keys|
      invariant order == FirstSeen(keys[..i])
      invariant forall name :: name in byKey <==> name in order
      invariant forall name :: name in byKey ==> byKey[name] == LinesOf(keys[..i], name)
    {
      assert keys[..i + 1][..i] == keys[..i];
      FirstSeenIsNames(keys[..i]);
      var name := keys[i].name;
      if name !in byKey {
        byKey := byKey[name := []];
        order := order + [name];
      }
      byKey := byKey[name := byKey[name] + [keys[i].line]];
    }
    assert keys[..|keys|] == keys;
    FirstSeenIsNames(keys);
  }

  /** The filter over the entries of the map. */
  function Repeated(keys: seq<Key>, names: seq<string>): seq<Duplicate> {
    if names == [] then []
    else
      var name := names[|names| - 1];
      Repeated(keys, names[..|names| - 1])
      + if |LinesOf(keys, name)| > 1 then [Duplicate(name, LinesOf(keys, name))] else []
  }

  /** `a` comes before `b`. */
  ghost predicate Precedes(order: seq<string>, a: string, b: string) {
    exists i, j :: 0 <= i < j < |order| && order[i] == a && order[j] == b
  }

  ghost predicate Reported(dups: seq<Duplicate>, name: string) {
    exists i :: 0 <= i < |dups| && dups[i].key == name
  }

  lemma {:induction false} RepeatedIs(keys: seq<Key>, names: seq<string>)
    ensures forall i :: 0 <= i < |Repeated(keys, names)| ==>
              var d := Repeated(keys, names)[i]; d.key in names && |d.lines| > 1 && d.lines == LinesOf(keys, d.key)
    ensures forall name :: name in names && |LinesOf(keys, name)| > 1 ==> Reported(Repeated(keys, names), name)
  {
    if names != [] {
      var front, last := names[..|names| - 1], names[|names| - 1];
      var before, after := Repeated(keys, front), Repeated(keys, names);
      RepeatedIs(keys, front);
      forall name | name in names && |LinesOf(keys, name)| > 1 ensures Reported(after, name) {
        if name in front {
          var i :| 0 <= i < |before| && before[i].key == name;
          assert after[i].key == name;
        } else {
          assert after[|before|].key == name;
        }
      }
    }
  }

  lemma {:induction false} RepeatedInOrder(keys: seq<Key>, names: seq<string>)
    ensures forall i, j :: 0 <= i < j < |Repeated(keys, names)| ==>
              Precedes(names, Repeated(keys, names)[i].key, Repeated(keys, names)[j].key)
  {
    if names != [] {
      var front := names[..|names| - 1];
      var before, after := Repeated(keys, front), Repeated(keys, names);
      RepeatedInOrder(keys, front);
      RepeatedIs(keys, front);
      forall i, j | 0 <= i < j < |after| ensures Precedes(names, after[i].key, after[j].key) {
        assert after[i] == before[i] && before[i].key in front;
        if j < |before| {
          assert Precedes(front, before[i].key, before[j].key);
          var k, l :| 0 <= k < l < |front| && front[k] == before[i].key && front[l] == before[j].key;
          assert names[k] == before[i].key && names[l] == before[j].key;
        } else {
          var k :| 0 <= k < |front| && front[k] == before[i].key;
          assert names[k] == after[i].key && names[|front|] == after[j].key;
        }
      }
    }
  }

  /** The report: exactly the names with more than one line, with all their lines, in the order of first occurrence. */
  ghost predicate IsReport(keys: seq<Key>, dups: seq<Duplicate>) {
    && (forall i :: 0 <= i < |dups| ==> |dups[i].lines| > 1 && dups[i].lines == LinesOf(keys, dups[i].key))
    && (forall name :: |LinesOf(keys, name)| > 1 ==> Reported(dups, name))
    && (forall i, j :: 0 <= i < j < |dups| ==> Precedes(FirstSeen(keys), dups[i].key, dups[j].key))
  }

  lemma RepeatedIsReport(keys: seq<Key>)
    ensures IsReport(keys, Repeated(keys, FirstSeen(keys)))
  {
    FirstSeenIsNames(keys);
    RepeatedIs(keys, FirstSeen(keys));
    RepeatedInOrder(keys, FirstSeen(keys));
  }

  method FindDuplicates(text: string, decode: string -> string) returns (dups: seq<Duplicate>)
    ensures IsReport(Scan(text, 0, 1, 0, [], decode), dups)
  {
    var keys := TopLevelKeys(text, decode);
    var byKey, order := GroupByName(keys);
    dups := [];
    for i := 0 to |order|
      invariant dups == Repeated(keys, order[..i])
    {
      assert order[..i + 1][..i] == order[..i];
      var lines := byKey[order[i]];
      if |lines| > 1 {
        dups := dups + [Duplicate(order[i], lines)];
      }
    }
    assert order[..|order|] == order;
    RepeatedIsReport(keys);
  }

  function CountOf(names: seq<string>, name: string, decode: string -> string): nat {
    if names == [] then 0
    else CountOf(names[..|names| - 1], name, decode) + if decode(names[|names| - 1]) == name then 1 else 0
  }

  lemma {:induction false} LinesCountNames(keys: seq<Key>, names: seq<string>, name: string, decode: string -> string)
    requires |keys| == |names| && forall k :: 0 <= k < |keys| ==> keys[k].name == decode(names[k])
    ensures |LinesOf(keys, name)| == CountOf(names, name, decode)
  {
    if keys != [] {
      LinesCountNames(keys[..|keys| - 1], names[..|names| - 1], name, decode);
    }
  }

  /** The lines of the opening quotes of the members that decode to `name`. */
  ghost function MemberLines(text: string, names: seq<string>, quotes: seq<nat>, name: string,
      decode: string -> string): seq<nat>
    requires |names| == |quotes| && forall k :: 0 <= k < |quotes| ==> quotes[k] < |text|
  {
    if names == [] then []
    else
      var n := |names| - 1;
      MemberLines(text, names[..n], quotes[..n], name, decode)
      + if decode(names[n]) == name then [LineAt(text, quotes[n])] else []
  }

  lemma {:induction false} LinesAreMemberLines(text: string, keys: seq<Key>, names: seq<string>, quotes: seq<nat>,
      name: string, decode: string -> string)
    requires |keys| == |names| == |quotes| && forall k :: 0 <= k < |quotes| ==> quotes[k] < |text|
    requires forall k :: 0 <= k < |keys| ==> keys[k] == Key(decode(names[k]), LineAt(text, quotes[k]))
    ensures LinesOf(keys, name) == MemberLines(text, names, quotes, name, decode)
  {
    if keys != [] {
      var n := |keys| - 1;
      LinesAreMemberLines(text, keys[..n], names[..n], quotes[..n], name, decode);
    }
  }

  /** What the scan of a JSON object text finds, member by member. */
  lemma KeysOfDocument(pre: string, v: Json, post: string, decode: string -> string)
    requires Blank(pre) && Valid(v) && v.Obj? && Blank(post)
    ensures var text := PrintDocument(pre, v, post);
      var keys, names := Scan(text, 0, 1, 0, [], decode), Names(v.members);
      var quotes := QuotesOf(pre, v);
      && |keys| == |names| == |quotes| && (forall k :: 0 <= k < |quotes| ==> quotes[k] < |text|)
      && (forall k :: 0 <= k < |keys| ==> keys[k] == Key(decode(names[k]), LineAt(text, quotes[k])))
  {
    var keys := Scan(PrintDocument(pre, v, post), 0, 1, 0, [], decode);
    ScanOfDocument(pre, v, post, decode);
    assert forall k :: 0 <= k < |keys| ==> keys[0 + k] == keys[k];
  }

  /** Where the names of the outermost members begin. */
  function QuotesOf(pre: string, v: Json): seq<nat>
    requires v.Obj?
  {
    Quotes(|pre| + 1 + |v.pad|, v.members, "")
  }

  /**
  End to end: for a JSON object text, a name is reported exactly when more than one member of the outermost object
  decodes to it, whatever escapes it is written with, and the report lists the lines of exactly those members, in order.
  */
  lemma ReportOfDocument(pre: string, v: Json, post: string, decode: string -> string, dups: seq<Duplicate>,
      name: string)
    requires Blank(pre) && Valid(v) && v.Obj? && Blank(post)
    requires IsReport(Scan(PrintDocument(pre, v, post), 0, 1, 0, [], decode), dups)
    ensures Reported(dups, name) <==> CountOf(Names(v.members), name, decode) > 1
    ensures |QuotesOf(pre, v)| == |Names(v.members)|
    ensures forall k :: 0 <= k < |QuotesOf(pre, v)| ==> QuotesOf(pre, v)[k] < |PrintDocument(pre, v, post)|
    ensures forall i :: 0 <= i < |dups| && dups[i].key == name ==>
              dups[i].lines
              == MemberLines(PrintDocument(pre, v, post), Names(v.members), QuotesOf(pre, v), name, decode)
  {
    var text := PrintDocument(pre, v, post);
    var keys, names := Scan(text, 0, 1, 0, [], decode), Names(v.members);
    KeysOfDocument(pre, v, post, decode);
    LinesCountNames(keys, names, name, decode);
    LinesAreMemberLines(text, keys, names, QuotesOf(pre, v), name, decode);
  }
}
