/**
  Request parameters addressed by bracket paths such as "user[name]" and "list[]":
  assignment walks the path through nested maps and arrays, reading walks a list of keys.
 */
module Params {
  import opened Prelude

  datatype Value =
    | Null
    | Boolean(b: bool)
    | I64(i: int)
    | U64(u: nat)
    | F64(f: real)
    | Str(s: string)
    | Bin(bytes: Bytes)
    | File(path: string)
    | Array(items: seq<Value>)
    | Map(entries: map<string, Value>)

  datatype ParamsError = InvalidPath | CannotAppend | CannotInsert

  // ---- Parsing ----

  function IndexOf(s: string, c: char): (r: Option<nat>)
    ensures r.Some? ==> r.value < |s| && s[r.value] == c && c !in s[..r.value]
    ensures r.None? ==> c !in s
  {
    if s == [] then None
    else if s[0] == c then Some(0)
    else
      var r := IndexOf(s[1..], c);
      if r.None? then None
      else
        assert s[..r.value + 1] == [s[0]] + s[1..][..r.value];
        Some(r.value + 1)
  }

  /** The name before the first bracket, and the brackets. */
  function ParseBase(path: string): Result<(string, string), ParamsError> {
    var open := match IndexOf(path, '[') case Some(i) => i case None => |path|;
    if open == 0 then Err(InvalidPath) else Ok((path[..open], path[open..]))
  }

  /** The key in the first pair of brackets, and what follows. */
  function ParseIndex(path: string): (r: Result<(string, string), ParamsError>)
    ensures r.Ok? ==> |r.value.1| + |r.value.0| + 2 == |path|
  {
    if path == [] || path[0] != '[' then Err(InvalidPath)
    else
      match IndexOf(path, ']')
      case None => Err(InvalidPath)
      case Some(close) => Ok((path[1..close], path[close + 1..]))
  }

  // ---- Assignment ----

  /** An empty collection of the kind the next key asks for. */
  function EmptyFor(key: string): Value { if key == "" then Array([]) else Map(map[]) }

  /** Assign below a value; the value after the call comes with the outcome, also after an error. */
  function AssignValue(v: Value, path: string, x: Value): (Value, Result<(), ParamsError>)
    decreases |path|, 0
  {
    match ParseIndex(path)
    case Err(e) => (v, Err(e))
    case Ok((key, rest)) => if key == "" then AssignItem(v, rest, x) else AssignEntry(v, key, rest, x)
  }

  /** "[]...": append to an array, or go on in its last map. */
  function AssignItem(v: Value, rest: string, x: Value): (Value, Result<(), ParamsError>)
    decreases |rest|, 1
  {
    if !v.Array? then (v, Err(CannotAppend))
    else if rest == "" then (Array(v.items + [x]), Ok(()))
    else
      match ParseIndex(rest)
      case Err(e) => (v, Err(e))
      case Ok((nextKey, _)) =>
        var last := |v.items| - 1;
        if nextKey == "" then (v, Err(InvalidPath))
        else if v.items != [] && !v.items[last].Map? then (v, Err(CannotInsert))
        else if v.items != [] && nextKey !in v.items[last].entries then
          var (item, r) := AssignValue(v.items[last], rest, x);
          (Array(v.items[last := item]), r)
        else
          var (item, r) := AssignValue(Map(map[]), rest, x);
          (if r.Ok? then Array(v.items + [item]) else v, r)
  }

  /** "[key]...": set a map's entry, or go on in the collection under it, made first if missing. */
  function AssignEntry(v: Value, key: string, rest: string, x: Value): (Value, Result<(), ParamsError>)
    decreases |rest|, 1
  {
    if !v.Map? then (v, Err(CannotInsert))
    else if rest == "" then (Map(v.entries[key := x]), Ok(()))
    else
      match ParseIndex(rest)
      case Err(e) => (v, Err(e))
      case Ok((nextKey, _)) =>
        var child := if key in v.entries then v.entries[key] else EmptyFor(nextKey);
        var (child', r) := AssignValue(child, rest, x);
        (Map(v.entries[key := child']), r)
  }

  /** Assign in the table of parameters. */
  function AssignAt(entries: map<string, Value>, path: string, x: Value): (map<string, Value>, Result<(), ParamsError>) {
    match ParseBase(path)
    case Err(e) => (entries, Err(e))
    case Ok((base, rest)) =>
      if rest == "" then (entries[base := x], Ok(()))
      else
        match ParseIndex(rest)
        case Err(e) => (entries, Err(e))
        case Ok((key, _)) =>
          var child := if base in entries then entries[base] else EmptyFor(key);
          var (child', r) := AssignValue(child, rest, x);
          (entries[base := child'], r)
  }

  /** Read below a value through maps. */
  function FindValue(v: Value, keys: seq<string>): Option<Value>
    decreases |keys|
  {
    if keys == [] then Some(v)
    else if v.Map? && keys[0] in v.entries then FindValue(v.entries[keys[0]], keys[1..])
    else None
  }

  function FindAt(entries: map<string, Value>, keys: seq<string>): Option<Value> {
    if keys == [] then None else FindValue(Map(entries), keys)
  }

  class ParamMap {
    var entries: map<string, Value>

    constructor ()
      ensures entries == map[]
    {
      entries := map[];
    }

    method Assign(path: string, x: Value) returns (r: Result<(), ParamsError>)
      modifies this
      ensures (entries, r) == AssignAt(old(entries), path, x)
    {
      var base := ParseBase(path);
      if base.Err? {
        return Err(base.error);
      }
      var (name, rest) := base.value;
      if rest == "" {
        entries := entries[name := x];
        return Ok(());
      }
      var index := ParseIndex(rest);
      if index.Err? {
        return Err(index.error);
      }
      var collection := if name in entries then entries[name] else EmptyFor(index.value.0);
      var (changed, outcome) := AssignValue(collection, rest, x);
      entries := entries[name := changed];
      r := outcome;
    }

    method Find(keys: seq<string>) returns (r: Option<Value>)
      ensures r == FindAt(entries, keys)
    {
      if keys == [] {
        return None;
      }
      r := if keys[0] in entries then Some(entries[keys[0]]) else None;
      var i := 1;
      while i < |keys|
        invariant 1 <= i <= |keys|
        invariant FindAt(entries, keys) == if r.Some? then FindValue(r.value, keys[i..]) else None
      {
        if r.None? || !r.value.Map? {
          return None;
        }
        assert keys[i..][0] == keys[i] && keys[i..][1..] == keys[i + 1..];
        r := if keys[i] in r.value.entries then Some(r.value.entries[keys[i]]) else None;
        i := i + 1;
      }
      assert keys[i..] == [];
    }
  }

  // ---- Key lists and their paths ----

  function Brackets(keys: seq<string>): string {
    if keys == [] then "" else "[" + keys[0] + "]" + Brackets(keys[1..])
  }

  function PathOf(keys: seq<string>): string
    requires keys != []
  {
    keys[0] + Brackets(keys[1..])
  }

  ghost predicate InnerKeys(keys: seq<string>) {
    forall i :: 0 <= i < |keys| ==> keys[i] != "" && ']' !in keys[i]
  }

  ghost predicate GoodKeys(keys: seq<string>) {
    keys != [] && keys[0] != "" && '[' !in keys[0] && InnerKeys(keys[1..])
  }

  lemma {:induction false} IndexOfIs(s: string, c: char, i: nat)
    requires i < |s| && s[i] == c && c !in s[..i]
    ensures IndexOf(s, c) == Some(i)
    decreases |s|
  {
    if i > 0 {
      assert s[0] == s[..i][0];
      assert s[1..][..i - 1] == s[..i][1..];
      IndexOfIs(s[1..], c, i - 1);
    }
  }

  lemma ParseBrackets(keys: seq<string>, tail: string)
    requires keys != [] && ']' !in keys[0]
    ensures ParseIndex(Brackets(keys) + tail) == Ok((keys[0], Brackets(keys[1..]) + tail))
  {
    var path, close := Brackets(keys) + tail, |keys[0]| + 1;
    assert path == "[" + keys[0] + "]" + (Brackets(keys[1..]) + tail);
    assert path[..close] == "[" + keys[0];
    IndexOfIs(path, ']', close);
    assert path[1..close] == keys[0] && path[close + 1..] == Brackets(keys[1..]) + tail;
  }

  lemma ParsePath(keys: seq<string>, tail: string)
    requires keys != [] && keys[0] != "" && '[' !in keys[0]
    requires Brackets(keys[1..]) + tail == "" || (Brackets(keys[1..]) + tail)[0] == '['
    ensures ParseBase(PathOf(keys) + tail) == Ok((keys[0], Brackets(keys[1..]) + tail))
  {
    var path, n := PathOf(keys) + tail, |keys[0]|;
    assert path == keys[0] + (Brackets(keys[1..]) + tail);
    assert path[..n] == keys[0] && path[n..] == Brackets(keys[1..]) + tail;
    if n < |path| {
      assert path[n] == path[n..][0];
      IndexOfIs(path, '[', n);
    } else {
      assert path == keys[0];
    }
  }

  // ---- Assign, then find ----

  /** The way along the keys leads through maps, or ends at a missing entry. */
  ghost predicate WayOpen(v: Value, keys: seq<string>)
    decreases |keys|
  {
    v.Map? && (|keys| > 1 && keys[0] in v.entries ==> WayOpen(v.entries[keys[0]], keys[1..]))
  }

  /** One level down. */
  lemma AssignBelow(v: Value, keys: seq<string>, x: Value)
    requires |keys| > 1 && InnerKeys(keys[1..]) && v.Map?
    ensures var more := keys[1..];
            var child := if keys[0] in v.entries then v.entries[keys[0]] else Map(map[]);
            var (child', r) := AssignEntry(child, more[0], Brackets(more[1..]), x);
            AssignEntry(v, keys[0], Brackets(more), x) == (Map(v.entries[keys[0] := child']), r)
  {
    var more := keys[1..];
    ParseBrackets(more, "");
    assert Brackets(more) + "" == Brackets(more) && Brackets(more[1..]) + "" == Brackets(more[1..]);
  }

  lemma {:induction false} AssignFindEntry(v: Value, keys: seq<string>, x: Value)
    requires keys != [] && InnerKeys(keys[1..])
    ensures var (v', r) := AssignEntry(v, keys[0], Brackets(keys[1..]), x);
            && (r.Ok? <==> WayOpen(v, keys))
            && (r.Ok? ==> FindValue(v', keys) == Some(x))
    decreases |keys|
  {
    if v.Map? && |keys| > 1 {
      AssignBelow(v, keys, x);
      AssignFindEntry(if keys[0] in v.entries then v.entries[keys[0]] else Map(map[]), keys[1..], x);
    }
  }

  /** The table is a map like any other below its base name. */
  lemma AssignAtIsEntry(entries: map<string, Value>, path: string, x: Value)
    requires ParseBase(path).Ok?
    ensures var (entries', r) := AssignAt(entries, path, x);
            (Map(entries'), r) == AssignEntry(Map(entries), ParseBase(path).value.0, ParseBase(path).value.1, x)
  {
  }

  /** Every proper part of the key list reads as a map or as missing. */
  ghost predicate Assignable(entries: map<string, Value>, keys: seq<string>) {
    forall n :: 0 < n < |keys| ==> FindAt(entries, keys[..n]).None? || FindAt(entries, keys[..n]).value.Map?
  }

  lemma {:induction false} WayOpenMeaning(v: Value, keys: seq<string>)
    requires keys != []
    ensures WayOpen(v, keys) <==>
              forall n :: 0 <= n < |keys| ==> FindValue(v, keys[..n]).None? || FindValue(v, keys[..n]).value.Map?
    decreases |keys|
  {
    assert keys[..0] == [];
    if v.Map? && |keys| > 1 && keys[0] in v.entries {
      var child, more := v.entries[keys[0]], keys[1..];
      WayOpenMeaning(child, more);
      forall n | 0 < n < |keys| ensures FindValue(v, keys[..n]) == FindValue(child, more[..n - 1]) {
        assert keys[..n][1..] == more[..n - 1];
      }
      assert forall n :: 0 <= n < |more| ==> FindValue(child, more[..n]) == FindValue(v, keys[..n + 1]);
    } else if v.Map? {
      forall n | 0 < n < |keys| ensures FindValue(v, keys[..n]).None? { assert keys[..n][0] == keys[0]; }
    }
  }

  lemma AssignableIff(entries: map<string, Value>, keys: seq<string>)
    requires keys != []
    ensures WayOpen(Map(entries), keys) <==> Assignable(entries, keys)
  {
    WayOpenMeaning(Map(entries), keys);
    assert keys[..0] == [];
  }

  /** Assigning at a key list succeeds exactly if the way there is open, and is then read back. */
  lemma AssignThenFind(entries: map<string, Value>, keys: seq<string>, x: Value)
    requires GoodKeys(keys)
    ensures var (entries', r) := AssignAt(entries, PathOf(keys), x);
            && (r.Ok? <==> Assignable(entries, keys))
            && (r.Ok? ==> FindAt(entries', keys) == Some(x))
  {
    assert Brackets(keys[1..]) + "" == Brackets(keys[1..]) && PathOf(keys) + "" == PathOf(keys);
    ParsePath(keys, "");
    AssignAtIsEntry(entries, PathOf(keys), x);
    AssignFindEntry(Map(entries), keys, x);
    AssignableIff(entries, keys);
  }

  // ---- What assignment leaves alone ----

  /** The keys a path spells, up to an empty pair of brackets or the end of what can be parsed. */
  ghost function IndexKeys(path: string): seq<string>
    decreases |path|
  {
    match ParseIndex(path)
    case Err(_) => []
    case Ok((key, rest)) => if key == "" then [] else [key] + IndexKeys(rest)
  }

  ghost function KeysOf(path: string): seq<string> {
    match ParseBase(path)
    case Err(_) => []
    case Ok((base, rest)) => [base] + IndexKeys(rest)
  }

  /** Neither list is the beginning of the other. */
  predicate Apart(a: seq<string>, b: seq<string>) { !(a <= b) && !(b <= a) }

  lemma ApartTail(a: seq<string>, b: seq<string>)
    requires Apart(a, b) && a != [] && b != [] && a[0] == b[0]
    ensures Apart(a[1..], b[1..])
  {
    assert a == [a[0]] + a[1..] && b == [b[0]] + b[1..];
  }

  lemma {:induction false} AssignEntryFrame(v: Value, key: string, rest: string, x: Value, other: seq<string>)
    requires Apart(other, [key] + IndexKeys(rest))
    ensures FindValue(AssignEntry(v, key, rest, x).0, other) == FindValue(v, other)
    decreases |rest|
  {
    var keys := [key] + IndexKeys(rest);
    assert other != [] && keys[1..] == IndexKeys(rest);
    if v.Map? && other[0] == key {
      ApartTail(other, keys);
      var (nextKey, more) := ParseIndex(rest).value;
      var child := if key in v.entries then v.entries[key] else EmptyFor(nextKey);
      assert IndexKeys(rest) == [nextKey] + IndexKeys(more);
      assert AssignValue(child, rest, x) == AssignEntry(child, nextKey, more, x);
      AssignEntryFrame(child, nextKey, more, x, other[1..]);
    }
  }

  /** Whatever the path and whatever the outcome, key lists apart from the path's keys read as before. */
  lemma AssignLeavesAlone(entries: map<string, Value>, path: string, x: Value, other: seq<string>)
    requires Apart(other, KeysOf(path)) || KeysOf(path) == []
    ensures FindAt(AssignAt(entries, path, x).0, other) == FindAt(entries, other)
  {
    if KeysOf(path) != [] {
      var (base, rest) := ParseBase(path).value;
      AssignAtIsEntry(entries, path, x);
      AssignEntryFrame(Map(entries), base, rest, x, other);
    }
  }

  lemma {:induction false} KeysOfBrackets(keys: seq<string>)
    requires InnerKeys(keys)
    ensures IndexKeys(Brackets(keys)) == keys
    decreases |keys|
  {
    if keys != [] {
      ParseBrackets(keys, "");
      assert Brackets(keys) + "" == Brackets(keys) && Brackets(keys[1..]) + "" == Brackets(keys[1..]);
      KeysOfBrackets(keys[1..]);
    }
  }

  /** A printed key list spells itself, so assigning there leaves all lists apart from it alone. */
  lemma KeysOfPath(keys: seq<string>)
    requires GoodKeys(keys)
    ensures KeysOf(PathOf(keys)) == keys
  {
    assert Brackets(keys[1..]) + "" == Brackets(keys[1..]) && PathOf(keys) + "" == PathOf(keys);
    ParsePath(keys, "");
    KeysOfBrackets(keys[1..]);
  }

  // ---- Appending ----

  /** The array at the end of the keys: what is there, nothing if missing, no array otherwise. */
  ghost function ItemsAt(v: Value, keys: seq<string>): Option<seq<Value>> {
    match FindValue(v, keys)
    case None => Some([])
    case Some(found) => if found.Array? then Some(found.items) else None
  }

  lemma ParseEmptyBrackets()
    ensures ParseIndex("[]") == Ok(("", ""))
  {
    IndexOfIs("[]", ']', 1);
    assert "[]"[1..1] == "" && "[]"[2..] == "";
  }

  lemma FindOne(v: Value, key: string)
    ensures FindValue(v, [key]) == if v.Map? && key in v.entries then Some(v.entries[key]) else None
  {
    assert [key][1..] == [];
  }

  lemma AppendHere(v: Value, key: string, x: Value)
    ensures var (v', r) := AssignEntry(v, key, "[]", x);
            && (r.Ok? <==> v.Map? && ItemsAt(v, [key]).Some?)
            && (r.Ok? ==> FindValue(v', [key]) == Some(Array(ItemsAt(v, [key]).value + [x])))
  {
    ParseEmptyBrackets();
    FindOne(v, key);
    if v.Map? {
      var child := if key in v.entries then v.entries[key] else Array([]);
      assert AssignValue(child, "[]", x) == AssignItem(child, "", x);
      FindOne(AssignEntry(v, key, "[]", x).0, key);
    }
  }

  /** One level down. */
  lemma AppendBelow(v: Value, keys: seq<string>, x: Value)
    requires |keys| > 1 && InnerKeys(keys[1..]) && v.Map?
    ensures var more := keys[1..];
            var child := if keys[0] in v.entries then v.entries[keys[0]] else Map(map[]);
            var (child', r) := AssignEntry(child, more[0], Brackets(more[1..]) + "[]", x);
            AssignEntry(v, keys[0], Brackets(more) + "[]", x) == (Map(v.entries[keys[0] := child']), r)
  {
    ParseBrackets(keys[1..], "[]");
  }

  lemma {:induction false} AppendEntry(v: Value, keys: seq<string>, x: Value)
    requires keys != [] && InnerKeys(keys[1..])
    ensures var (v', r) := AssignEntry(v, keys[0], Brackets(keys[1..]) + "[]", x);
            && (r.Ok? <==> WayOpen(v, keys) && ItemsAt(v, keys).Some?)
            && (r.Ok? ==> FindValue(v', keys) == Some(Array(ItemsAt(v, keys).value + [x])))
    decreases |keys|
  {
    if |keys| == 1 {
      assert keys == [keys[0]] && Brackets(keys[1..]) + "[]" == "[]";
      AppendHere(v, keys[0], x);
    } else if v.Map? {
      AppendBelow(v, keys, x);
      AppendEntry(if keys[0] in v.entries then v.entries[keys[0]] else Map(map[]), keys[1..], x);
    }
  }

  /** "keys[]" appends to the array under the keys, which is made if it is missing. */
  lemma AssignAppends(entries: map<string, Value>, keys: seq<string>, x: Value)
    requires GoodKeys(keys)
    ensures var (entries', r) := AssignAt(entries, PathOf(keys) + "[]", x);
            && (r.Ok? <==> Assignable(entries, keys) && ItemsAt(Map(entries), keys).Some?)
            && (r.Ok? ==> FindAt(entries', keys) == Some(Array(ItemsAt(Map(entries), keys).value + [x])))
  {
    ParsePath(keys, "[]");
    AssignAtIsEntry(entries, PathOf(keys) + "[]", x);
    AppendEntry(Map(entries), keys, x);
    AssignableIff(entries, keys);
  }
}
