/**
  What assignment does, outcome by outcome: an assignment along a key list acts on the
  value at its end alone; a blocked way and a malformed path are told apart; and a path
  that goes on after empty brackets changes the last item of the array or adds one.
 */
module ParamsEffects {
  import opened Prelude
  import opened Params

  /** What assigning `tail` does at a place, given what is there: an empty collection is made if nothing is. */
  function AtEnd(found: Option<Value>, tail: string, x: Value): (Option<Value>, Result<(), ParamsError>) {
    if tail == "" then (Some(x), Ok(()))
    else
      match ParseIndex(tail)
      case Err(e) => (found, Err(e))
      case Ok((key, _)) =>
        var (made, r) := AssignValue(if found.Some? then found.value else EmptyFor(key), tail, x);
        (Some(made), r)
  }

  /** One level down. */
  lemma WalkBelow(v: Value, keys: seq<string>, tail: string, x: Value)
    requires |keys| > 1 && InnerKeys(keys[1..]) && v.Map?
    ensures var more := keys[1..];
            var child := if keys[0] in v.entries then v.entries[keys[0]] else Map(map[]);
            var (child', r) := AssignEntry(child, more[0], Brackets(more[1..]) + tail, x);
            AssignEntry(v, keys[0], Brackets(more) + tail, x) == (Map(v.entries[keys[0] := child']), r)
  {
    ParseBrackets(keys[1..], tail);
  }

  lemma {:induction false} WalkTo(v: Value, keys: seq<string>, tail: string, x: Value)
    requires keys != [] && InnerKeys(keys[1..])
    ensures var (v', r) := AssignEntry(v, keys[0], Brackets(keys[1..]) + tail, x);
            var found := FindValue(v, keys);
            var (end, outcome) := AtEnd(found, tail, x);
            && (!WayOpen(v, keys) ==> v' == v && r == Err(CannotInsert))
            && (WayOpen(v, keys) ==> r == outcome && FindValue(v', keys) == end)
            && (WayOpen(v, keys) && found.Some? && end == found ==> v' == v)
    decreases |keys|
  {
    if |keys| == 1 {
      assert keys == [keys[0]] && Brackets(keys[1..]) + tail == tail;
      WalkHere(v, keys[0], tail, x);
    } else if v.Map? {
      WalkBelow(v, keys, tail, x);
      var child := if keys[0] in v.entries then v.entries[keys[0]] else Map(map[]);
      WalkTo(child, keys[1..], tail, x);
      FindBelow(v, keys);
      FindBelow(AssignEntry(v, keys[0], Brackets(keys[1..]) + tail, x).0, keys);
    }
  }

  /** The way is made: after the call every proper part of the key list reads as a map, whatever the outcome. */
  lemma {:induction false} WalkMakes(v: Value, keys: seq<string>, tail: string, x: Value, n: nat)
    requires 0 < n < |keys| && InnerKeys(keys[1..]) && WayOpen(v, keys)
    ensures var found := FindValue(AssignEntry(v, keys[0], Brackets(keys[1..]) + tail, x).0, keys[..n]);
            found.Some? && found.value.Map?
    decreases |keys|
  {
    WalkBelow(v, keys, tail, x);
    var more := keys[1..];
    var child := if keys[0] in v.entries then v.entries[keys[0]] else Map(map[]);
    if n > 1 {
      assert more[1..] == keys[2..];
      WalkMakes(child, more, tail, x, n - 1);
      assert keys[..n][1..] == more[..n - 1];
    } else {
      assert keys[..n] == [keys[0]];
      FindOne(AssignEntry(v, keys[0], Brackets(more) + tail, x).0, keys[0]);
    }
  }

  lemma WalkHere(v: Value, key: string, tail: string, x: Value)
    ensures var (v', r) := AssignEntry(v, key, tail, x);
            var found := FindValue(v, [key]);
            var (end, outcome) := AtEnd(found, tail, x);
            && (!v.Map? ==> v' == v && r == Err(CannotInsert))
            && (v.Map? ==> r == outcome && FindValue(v', [key]) == end)
            && (v.Map? && found.Some? && end == found ==> v' == v)
  {
    FindOne(v, key);
    FindOne(AssignEntry(v, key, tail, x).0, key);
  }

  lemma FindBelow(v: Value, keys: seq<string>)
    requires |keys| > 1 && v.Map?
    ensures FindValue(v, keys)
         == FindValue(if keys[0] in v.entries then v.entries[keys[0]] else Map(map[]), keys[1..])
  {
  }

  /** After the keys the path ends, opens a bracket, or, after a bracket, goes on in any way. */
  predicate GoesOn(keys: seq<string>, tail: string) { tail == "" || tail[0] == '[' || |keys| > 1 }

  /**
    An assignment along a key list acts at its end alone: a blocked way refuses it and
    nothing changes, and otherwise the outcome and the value there are those of the place.
   */
  lemma AssignActsAtEnd(entries: map<string, Value>, keys: seq<string>, tail: string, x: Value)
    requires GoodKeys(keys) && GoesOn(keys, tail)
    ensures var (entries', r) := AssignAt(entries, PathOf(keys) + tail, x);
            var found := FindAt(entries, keys);
            var (end, outcome) := AtEnd(found, tail, x);
            && (!Assignable(entries, keys) ==> entries' == entries && r == Err(CannotInsert))
            && (Assignable(entries, keys) ==> r == outcome && FindAt(entries', keys) == end)
            && (Assignable(entries, keys) && found.Some? && end == found ==> entries' == entries)
  {
    if |keys| > 1 { assert Brackets(keys[1..])[0] == '['; }
    ParsePath(keys, tail);
    AssignAtIsEntry(entries, PathOf(keys) + tail, x);
    WalkTo(Map(entries), keys, tail, x);
    AssignableIff(entries, keys);
  }

  /** An assignment that gets past the maps on its way makes the missing ones, even if it is refused at the end. */
  lemma AssignMakesWay(entries: map<string, Value>, keys: seq<string>, tail: string, x: Value, n: nat)
    requires GoodKeys(keys) && GoesOn(keys, tail) && Assignable(entries, keys) && 0 < n < |keys|
    ensures var found := FindAt(AssignAt(entries, PathOf(keys) + tail, x).0, keys[..n]); found.Some? && found.value.Map?
  {
    assert Brackets(keys[1..])[0] == '[';
    ParsePath(keys, tail);
    AssignAtIsEntry(entries, PathOf(keys) + tail, x);
    AssignableIff(entries, keys);
    WalkMakes(Map(entries), keys, tail, x, n);
  }

  /** A path without a name, and one that goes on with anything but a closed pair of brackets, is malformed. */
  lemma MalformedRefused(entries: map<string, Value>, keys: seq<string>, tail: string, x: Value)
    requires GoodKeys(keys) && GoesOn(keys, tail) && tail != "" && (tail[0] != '[' || ']' !in tail)
    ensures var (entries', r) := AssignAt(entries, PathOf(keys) + tail, x);
            && r == Err(if Assignable(entries, keys) then InvalidPath else CannotInsert)
            && FindAt(entries', keys) == FindAt(entries, keys)
    ensures AssignAt(entries, "", x) == (entries, Err(InvalidPath))
    ensures tail[0] == '[' ==> AssignAt(entries, tail, x) == (entries, Err(InvalidPath))
  {
    AssignActsAtEnd(entries, keys, tail, x);
    if tail[0] == '[' { assert ParseIndex(tail) == Err(InvalidPath); }
  }

  lemma AfterEmptyBrackets(inner: seq<string>)
    requires inner != [] && ']' !in inner[0]
    ensures var tail := Brackets([""] + inner);
            && tail != "" && tail[0] == '[' && ParseIndex(tail) == Ok(("", Brackets(inner)))
            && ParseIndex(Brackets(inner)) == Ok((inner[0], Brackets(inner[1..])))
  {
    var keys := [""] + inner;
    assert keys[1..] == inner;
    ParseBrackets(keys, "");
    ParseBrackets(inner, "");
    assert Brackets(keys) + "" == Brackets(keys) && Brackets(inner) + "" == Brackets(inner)
        && Brackets(inner[1..]) + "" == Brackets(inner[1..]);
  }

  /** Empty brackets go on in the array that is there, or in a new one. */
  lemma EndsInItem(found: Option<Value>, inner: seq<string>, x: Value)
    requires inner != [] && ']' !in inner[0]
    ensures var (made, r) := AssignItem(if found.Some? then found.value else Array([]), Brackets(inner), x);
            AtEnd(found, Brackets([""] + inner), x) == (Some(made), r)
  {
    AfterEmptyBrackets(inner);
  }

  /** Two pairs of empty brackets in a row are refused, at a place where there is an array or nothing. */
  lemma DoubleBracketsRefused(entries: map<string, Value>, keys: seq<string>, more: seq<string>, x: Value)
    requires GoodKeys(keys) && Assignable(entries, keys) && ItemsAt(Map(entries), keys).Some?
    ensures var (entries', r) := AssignAt(entries, PathOf(keys) + Brackets(["", ""] + more), x);
            r == Err(InvalidPath) && FindAt(entries', keys) == Some(Array(ItemsAt(Map(entries), keys).value))
  {
    var inner := [""] + more;
    assert ["", ""] + more == [""] + inner;
    AfterEmptyBrackets(inner);
    AssignActsAtEnd(entries, keys, Brackets([""] + inner), x);
    EndsInItem(FindAt(entries, keys), inner, x);
    assert Brackets(inner) != "";
  }

  /** The last item of an array, if it is a map that does not have the key yet. */
  predicate Reuses(items: seq<Value>, key: string) {
    items != [] && items[|items| - 1].Map? && key !in items[|items| - 1].entries
  }

  /** What a key list after empty brackets makes of an array's items. */
  ghost predicate Extended(items: seq<Value>, items': seq<Value>, inner: seq<string>, x: Value)
    requires inner != []
  {
    var n := |items|;
    if Reuses(items, inner[0]) then
      && |items'| == n && items'[..n - 1] == items[..n - 1]
      && FindValue(items'[n - 1], inner) == Some(x)
      && forall other :: Apart(other, inner) ==> FindValue(items'[n - 1], other) == FindValue(items[n - 1], other)
    else
      && |items'| == n + 1 && items'[..n] == items
      && items'[n].Map? && FindValue(items'[n], inner) == Some(x)
      && forall other :: Apart(other, inner) ==> FindValue(items'[n], other).None?
  }

  lemma SetInItem(item: Value, inner: seq<string>, x: Value)
    requires inner != [] && InnerKeys(inner) && item.Map? && inner[0] !in item.entries
    ensures var (item', r) := AssignValue(item, Brackets(inner), x);
            && r == Ok(()) && item'.Map? && FindValue(item', inner) == Some(x)
            && forall other :: Apart(other, inner) ==> FindValue(item', other) == FindValue(item, other)
  {
    AfterEmptyBrackets(inner);
    var item' := AssignValue(item, Brackets(inner), x).0;
    assert Brackets(inner[1..]) + "" == Brackets(inner[1..]);
    WalkTo(item, inner, "", x);
    KeysOfBrackets(inner[1..]);
    assert inner == [inner[0]] + inner[1..];
    forall other | Apart(other, inner) ensures FindValue(item', other) == FindValue(item, other) {
      AssignEntryFrame(item, inner[0], Brackets(inner[1..]), x, other);
    }
  }

  lemma NothingInEmpty(keys: seq<string>)
    requires keys != []
    ensures FindValue(Map(map[]), keys).None?
  {
  }

  /**
    "keys[][k]...": it works exactly if the way is open, the place has an array or nothing,
    and its last item, if there is one, is a map. If that map does not have k yet, it alone
    changes; otherwise the array gains one map. Nothing changes when it is refused.
   */
  lemma AssignInLastItem(entries: map<string, Value>, keys: seq<string>, inner: seq<string>, x: Value)
    requires GoodKeys(keys) && inner != [] && InnerKeys(inner)
    ensures var (entries', r) := AssignAt(entries, PathOf(keys) + Brackets([""] + inner), x);
            var items := ItemsAt(Map(entries), keys);
            if !Assignable(entries, keys) then r == Err(CannotInsert) && entries' == entries
            else if items.None? then r == Err(CannotAppend) && entries' == entries
            else if items.value != [] && !items.value[|items.value| - 1].Map? then r == Err(CannotInsert) && entries' == entries
            else
              && r == Ok(()) && FindAt(entries', keys).Some? && FindAt(entries', keys).value.Array?
              && Extended(items.value, FindAt(entries', keys).value.items, inner, x)
  {
    AfterEmptyBrackets(inner);
    AssignActsAtEnd(entries, keys, Brackets([""] + inner), x);
    var found := FindAt(entries, keys);
    EndsInItem(found, inner, x);
    ItemOutcome(if found.Some? then found.value else Array([]), inner, x);
  }

  lemma ItemOutcome(v: Value, inner: seq<string>, x: Value)
    requires inner != [] && InnerKeys(inner)
    ensures var (v', r) := AssignItem(v, Brackets(inner), x);
            if !v.Array? then r == Err(CannotAppend) && v' == v
            else if v.items != [] && !v.items[|v.items| - 1].Map? then r == Err(CannotInsert) && v' == v
            else r == Ok(()) && v'.Array? && Extended(v.items, v'.items, inner, x)
  {
    AfterEmptyBrackets(inner);
    assert Brackets(inner) != "";
    if v.Array? {
      if Reuses(v.items, inner[0]) {
        SetInItem(v.items[|v.items| - 1], inner, x);
      } else {
        SetInItem(Map(map[]), inner, x);
        forall other | Apart(other, inner) ensures FindValue(Map(map[]), other).None? { NothingInEmpty(other); }
      }
    }
  }

  /** Whatever follows the empty brackets, a refused assignment adds no item and touches none but the last. */
  lemma RefusedAddsNoItem(entries: map<string, Value>, keys: seq<string>, text: string, x: Value)
    requires GoodKeys(keys) && Assignable(entries, keys) && ItemsAt(Map(entries), keys).Some?
    requires AssignAt(entries, PathOf(keys) + ("[]" + text), x).1.Err?
    ensures var found := FindAt(AssignAt(entries, PathOf(keys) + ("[]" + text), x).0, keys);
            var items := ItemsAt(Map(entries), keys).value;
            && found.Some? && found.value.Array? && |found.value.items| == |items|
            && forall i :: 0 <= i < |items| - 1 ==> found.value.items[i] == items[i]
  {
    var tail := "[]" + text;
    assert tail[0] == '[' && tail[1] == ']';
    assert ParseIndex(tail) == Ok(("", text)) by { EmptyIndex(text); }
    AssignActsAtEnd(entries, keys, tail, x);
    var v := Array(ItemsAt(Map(entries), keys).value);
    assert AssignValue(v, tail, x) == AssignItem(v, text, x);
    RefusedItem(v, text, x);
  }

  lemma RefusedItem(v: Value, text: string, x: Value)
    requires v.Array? && AssignItem(v, text, x).1.Err?
    ensures var v' := AssignItem(v, text, x).0;
            && v'.Array? && |v'.items| == |v.items|
            && forall i :: 0 <= i < |v.items| - 1 ==> v'.items[i] == v.items[i]
  {
  }

  lemma EmptyIndex(text: string)
    ensures ParseIndex("[]" + text) == Ok(("", text))
  {
    assert Brackets([""]) == "[]";
    ParseBrackets([""], text);
    assert Brackets([""][1..]) + text == text;
  }

  /** "keys[]" is refused for a blocked way or a place with no array, and nothing changes then. */
  lemma AppendRefused(entries: map<string, Value>, keys: seq<string>, x: Value)
    requires GoodKeys(keys)
    ensures var (entries', r) := AssignAt(entries, PathOf(keys) + "[]", x);
            && (!Assignable(entries, keys) ==> r == Err(CannotInsert) && entries' == entries)
            && (Assignable(entries, keys) && ItemsAt(Map(entries), keys).None? ==> r == Err(CannotAppend) && entries' == entries)
  {
    ParseEmptyBrackets();
    AssignActsAtEnd(entries, keys, "[]", x);
  }

  /** A plain key path is refused for a blocked way only, and nothing changes then. */
  lemma AssignRefused(entries: map<string, Value>, keys: seq<string>, x: Value)
    requires GoodKeys(keys) && !Assignable(entries, keys)
    ensures AssignAt(entries, PathOf(keys), x) == (entries, Err(CannotInsert))
  {
    assert PathOf(keys) + "" == PathOf(keys);
    AssignActsAtEnd(entries, keys, "", x);
  }
}
