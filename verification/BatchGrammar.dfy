/**
  The language of batch requests: groups of files sharing a suffix, and bracketed
  directories. Three procedures pass one character stream along, with a stack of
  directory paths; they are proved against one machine that reads character by character.
 */
module BatchGrammar {
  import opened Prelude

  // ---- The machine ----

  /** Which of `decode`, `decode_file` and `decode_path` is reading. */
  datatype Mode = InSuffix | InFile | InPath

  /** `buf` is the file name or directory name being read. */
  datatype Machine = Machine(mode: Mode, suffix: string, buf: string, stack: seq<string>, result: seq<string>)

  function Top(stack: seq<string>): string {
    if stack == [] then "" else stack[|stack| - 1]
  }

  function Pop(stack: seq<string>): seq<string> {
    if stack == [] then [] else stack[..|stack| - 1]
  }

  predicate IsEscape(c: char) { c == '$' || c == '1' || c == '2' }

  function Unescape(c: char): char
    requires IsEscape(c)
  {
    if c == '$' then '$' else if c == '1' then '(' else ')'
  }

  /** The file path built from the directory on top, the name and the suffix. */
  function FilePath(m: Machine): string { Top(m.stack) + m.buf + m.suffix }

  function Take(m: Machine, c: char): Machine {
    match m.mode
    case InSuffix =>
      if c == '(' then m.(mode := InFile, suffix := if m.suffix == "" then "" else "." + m.suffix, buf := "")
      else if c == ':' then m.(mode := InPath, suffix := "", buf := "")
      else m.(suffix := m.suffix + [c])
    case InFile =>
      if c == ':' then m.(result := m.result + [FilePath(m)], buf := "")
      else if c == ')' then m.(mode := InSuffix, result := m.result + [FilePath(m)], suffix := "", buf := "")
      else m.(buf := m.buf + [c])
    case InPath =>
      if c == '(' then m.(mode := InSuffix, suffix := "", stack := m.stack + [Top(m.stack) + m.buf + "/"], buf := "")
      else if c == ')' then m.(stack := Pop(m.stack), buf := "")
      else m.(buf := m.buf + [c])
  }

  /** An escaped character goes to the suffix, except in a directory name. */
  function TakeEscaped(m: Machine, c: char): Machine {
    if m.mode == InPath then m.(buf := m.buf + [c]) else m.(suffix := m.suffix + [c])
  }

  function Feed(m: Machine, text: string, pos: nat): (r: Result<Machine, nat>)
    decreases |text|
  {
    if text == [] then Ok(m)
    else if text[0] != '$' then Feed(Take(m, text[0]), text[1..], pos + 1)
    else if |text| > 1 && IsEscape(text[1]) then Feed(TakeEscaped(m, Unescape(text[1])), text[2..], pos + 2)
    else Err(pos + 2)
  }

  const START := Machine(InSuffix, "", "", [], [])

  // ---- The three procedures ----

  class Decoder {
    var chars: string
    var suffix: string
    var stack: seq<string>
    var result: seq<string>

    constructor (text: string)
      ensures chars == text && suffix == "" && stack == [] && result == []
    {
      chars, suffix, stack, result := text, "", [], [];
    }

    /** What a call leaves behind, if the machine gets through. */
    ghost predicate Ends(expected: Result<Machine, nat>, r: Result<(), nat>)
      reads this
    {
      match expected
      case Ok(m) => r.Ok? && stack == m.stack && result == m.result
      case Err(pos) => r == Err(pos)
    }

    method Next() returns (c: char)
      requires chars != []
      modifies this`chars
      ensures c == old(chars)[0] && chars == old(chars)[1..]
    {
      c := chars[0];
      chars := chars[1..];
    }

    method Decode(start: nat) returns (r: Result<(), nat>)
      modifies this
      ensures Ends(Feed(Machine(InSuffix, old(suffix), "", old(stack), old(result)), old(chars), start), r)
      decreases |chars|
    {
      var pos := start;
      ghost var goal := Feed(Machine(InSuffix, suffix, "", stack, result), chars, pos);
      while chars != []
        invariant |chars| <= old(|chars|)
        invariant Feed(Machine(InSuffix, suffix, "", stack, result), chars, pos) == goal
        decreases |chars|
      {
        pos := pos + 1;
        var c := Next();
        if c == '$' {
          pos := pos + 1;
          if chars == [] || !IsEscape(chars[0]) {
            return Err(pos);
          }
          var e := Next();
          suffix := suffix + [Unescape(e)];
        } else if c == '(' {
          if |suffix| != 0 {
            suffix := "." + suffix;
          }
          r := DecodeFile(pos);
          return;
        } else if c == ':' {
          r := DecodePath(pos);
          return;
        } else {
          suffix := suffix + [c];
        }
      }
      r := Ok(());
    }

    method DecodeFile(start: nat) returns (r: Result<(), nat>)
      modifies this
      ensures Ends(Feed(Machine(InFile, old(suffix), "", old(stack), old(result)), old(chars), start), r)
      decreases |chars|
    {
      var name, pos := "", start;
      ghost var goal := Feed(Machine(InFile, suffix, name, stack, result), chars, pos);
      while chars != []
        invariant |chars| <= old(|chars|)
        invariant Feed(Machine(InFile, suffix, name, stack, result), chars, pos) == goal
        decreases |chars|
      {
        pos := pos + 1;
        var c := Next();
        if c == '$' {
          pos := pos + 1;
          if chars == [] || !IsEscape(chars[0]) {
            return Err(pos);
          }
          var e := Next();
          suffix := suffix + [Unescape(e)];
        } else if c == ':' {
          result := result + [Top(stack) + name + suffix];
          name := "";
        } else if c == ')' {
          result := result + [Top(stack) + name + suffix];
          suffix := "";
          r := Decode(pos);
          return;
        } else {
          name := name + [c];
        }
      }
      r := Ok(());
    }

    method DecodePath(start: nat) returns (r: Result<(), nat>)
      modifies this
      ensures Ends(Feed(Machine(InPath, "", "", old(stack), old(result)), old(chars), start), r)
      decreases |chars|
    {
      var path, pos := "", start;
      ghost var goal := Feed(Machine(InPath, "", path, stack, result), chars, pos);
      while chars != []
        invariant |chars| <= old(|chars|)
        invariant Feed(Machine(InPath, "", path, stack, result), chars, pos) == goal
        decreases |chars|
      {
        pos := pos + 1;
        var c := Next();
        if c == '$' {
          pos := pos + 1;
          if chars == [] || !IsEscape(chars[0]) {
            return Err(pos);
          }
          var e := Next();
          path := path + [Unescape(e)];
        } else if c == '(' {
          stack := stack + [Top(stack) + path + "/"];
          suffix := "";
          r := Decode(pos);
          return;
        } else if c == ')' {
          stack := Pop(stack);
          path := "";
        } else {
          path := path + [c];
        }
      }
      r := Ok(());
    }
  }

  // ---- Errors: exactly the first broken escape, whoever is reading ----

  /** Every '$' is followed by one of '$', '1', '2'. */
  predicate WellEscaped(text: string)
    decreases |text|
  {
    if text == [] then true
    else if text[0] != '$' then WellEscaped(text[1..])
    else |text| > 1 && IsEscape(text[1]) && WellEscaped(text[2..])
  }

  predicate BrokenAt(text: string, i: nat) {
    i < |text| && text[i] == '$' && (i + 1 == |text| || !IsEscape(text[i + 1]))
  }

  /** The first broken escape is at i: it is reached by reading whole characters and escapes. */
  predicate FirstBroken(text: string, i: nat) {
    BrokenAt(text, i) && WellEscaped(text[..i])
  }

  lemma {:induction false} FirstBrokenStep(text: string, n: nat, i: nat)
    requires n <= |text| && (n == 1 || n == 2)
    requires if n == 1 then text[0] != '$' else text[0] == '$' && IsEscape(text[1])
    ensures FirstBroken(text, i) <==> i >= n && FirstBroken(text[n..], i - n)
  {
    if n <= i < |text| {
      assert text[..i][n..] == text[n..][..i - n];
    } else if n == 2 && i == 1 {
      assert |text[..1]| == 1;
    }
  }

  /** Whatever the mode, the position reported is two past the first broken escape. */
  lemma {:induction false} ErrorsAreExact(m: Machine, text: string, pos: nat)
    ensures Feed(m, text, pos).Ok? <==> WellEscaped(text)
    ensures forall p :: Feed(m, text, pos) == Err(p) <==> p >= pos + 2 && FirstBroken(text, p - pos - 2)
    decreases |text|
  {
    if text != [] {
      var n := if text[0] != '$' then 1 else 2;
      if text[0] == '$' && !(|text| > 1 && IsEscape(text[1])) {
        forall i: nat ensures FirstBroken(text, i) <==> i == 0 {
          if 0 < i < |text| { assert text[..i][0] == '$'; }
        }
      } else {
        ErrorsAreExact(if n == 1 then Take(m, text[0]) else TakeEscaped(m, Unescape(text[1])), text[n..], pos + n);
        forall p ensures Feed(m, text, pos) == Err(p) <==> p >= pos + 2 && FirstBroken(text, p - pos - 2) {
          if p >= pos + 2 { FirstBrokenStep(text, n, p - pos - 2); }
        }
      }
    }
  }

  // ---- Round trip ----

  /** Files sharing a suffix. */
  datatype Group = Group(suffix: string, names: seq<string>)

  datatype Tree = Tree(groups: seq<Group>, dirs: Dirs)
  datatype Dirs = NoDirs | Dir(name: string, inside: Tree, rest: Dirs)

  function EscapeChar(c: char): string {
    if c == '$' then "$$" else if c == '(' then "$1" else if c == ')' then "$2" else [c]
  }

  /** The escaped text, followed by `rest`; the printers below take what follows in the same way. */
  function Escape(s: string, rest: string): (r: string)
    ensures |r| >= |rest|
  {
    if s == [] then rest else EscapeChar(s[0]) + Escape(s[1..], rest)
  }

  function PrintNames(names: seq<string>, rest: string): (r: string)
    requires names != []
    ensures |r| >= |rest|
  {
    names[0] + if |names| == 1 then rest else ":" + PrintNames(names[1..], rest)
  }

  predicate PrintableGroup(g: Group) {
    && ':' !in g.suffix && g.names != []
    && forall n :: n in g.names ==> '$' !in n && ':' !in n && ')' !in n
  }

  predicate PrintableGroups(groups: seq<Group>) {
    forall i :: 0 <= i < |groups| ==> PrintableGroup(groups[i])
  }

  function PrintGroups(groups: seq<Group>, rest: string): (r: string)
    requires PrintableGroups(groups)
    ensures |r| >= |rest|
  {
    if groups == [] then rest
    else Escape(groups[0].suffix, "(" + PrintNames(groups[0].names, ")" + PrintGroups(groups[1..], rest)))
  }

  predicate Printable(t: Tree) { PrintableGroups(t.groups) && PrintableDirs(t.dirs) }

  predicate PrintableDirs(ds: Dirs) { ds.Dir? ==> Printable(ds.inside) && PrintableDirs(ds.rest) }

  /** A directory's groups, a colon, then its directories, each in brackets. */
  function Print(t: Tree, rest: string): (r: string)
    requires Printable(t)
    ensures |r| >= |rest|
  {
    PrintGroups(t.groups, ":" + PrintDirs(t.dirs, rest))
  }

  function PrintDirs(ds: Dirs, rest: string): (r: string)
    requires PrintableDirs(ds)
    ensures |r| >= |rest|
  {
    match ds
    case NoDirs => rest
    case Dir(name, inside, more) => Escape(name, "(" + Print(inside, ")" + PrintDirs(more, rest)))
  }

  function Dotted(suffix: string): string { if suffix == "" then "" else "." + suffix }

  function FlattenNames(prefix: string, names: seq<string>, suffix: string): seq<string> {
    if names == [] then [] else [prefix + names[0] + Dotted(suffix)] + FlattenNames(prefix, names[1..], suffix)
  }

  function FlattenGroups(prefix: string, groups: seq<Group>): seq<string> {
    if groups == [] then []
    else FlattenNames(prefix, groups[0].names, groups[0].suffix) + FlattenGroups(prefix, groups[1..])
  }

  /** All file paths of a tree below a directory, in order. */
  function Flatten(prefix: string, t: Tree): seq<string>
    decreases t
  {
    FlattenGroups(prefix, t.groups) + FlattenDirs(prefix, t.dirs)
  }

  function FlattenDirs(prefix: string, ds: Dirs): seq<string>
    decreases ds
  {
    match ds
    case NoDirs => []
    case Dir(name, inside, more) => Flatten(prefix + name + "/", inside) + FlattenDirs(prefix, more)
  }

  /** Feed with the position counted from the end of the text. */
  function Read(m: Machine, text: string, end: nat): Result<Machine, nat>
    requires |text| <= end
  {
    Feed(m, text, end - |text|)
  }

  lemma ReadChar(m: Machine, c: char, rest: string, end: nat)
    requires c != '$' && |rest| < end
    ensures Read(m, [c] + rest, end) == Read(Take(m, c), rest, end)
  {
    assert ([c] + rest)[1..] == rest;
  }

  /** The machine with an escaped text read into the suffix or the directory name. */
  function Absorb(m: Machine, s: string): Machine {
    if m.mode == InPath then m.(buf := m.buf + s) else m.(suffix := m.suffix + s)
  }

  lemma ReadEscapedChar(m: Machine, c: char, rest: string, end: nat)
    requires m.mode == InPath || (m.mode == InSuffix && c != ':')
    requires |EscapeChar(c) + rest| <= end
    ensures Read(m, EscapeChar(c) + rest, end) == Read(Absorb(m, [c]), rest, end)
  {
    var text := EscapeChar(c) + rest;
    if c == '$' || c == '(' || c == ')' {
      assert text[2..] == rest && text[0] == '$' && IsEscape(text[1]) && Unescape(text[1]) == c;
    } else {
      ReadChar(m, c, rest, end);
    }
  }

  lemma AbsorbNext(m: Machine, s: string)
    requires s != []
    ensures Absorb(Absorb(m, [s[0]]), s[1..]) == Absorb(m, s)
  {
    assert [s[0]] + s[1..] == s;
    assert m.buf + [s[0]] + s[1..] == m.buf + s && m.suffix + [s[0]] + s[1..] == m.suffix + s;
  }

  lemma {:induction false} ReadEscaped(m: Machine, s: string, rest: string, end: nat)
    requires m.mode == InPath || (m.mode == InSuffix && ':' !in s)
    requires |Escape(s, rest)| <= end
    ensures Read(m, Escape(s, rest), end) == Read(Absorb(m, s), rest, end)
    decreases |s|
  {
    if s == [] {
      assert Absorb(m, s) == m;
    } else {
      ReadEscapedChar(m, s[0], Escape(s[1..], rest), end);
      ReadEscaped(Absorb(m, [s[0]]), s[1..], rest, end);
      AbsorbNext(m, s);
    }
  }

  /** A plain file name is read into the name buffer. */
  lemma {:induction false} ReadName(m: Machine, name: string, rest: string, end: nat)
    requires m.mode == InFile && '$' !in name && ':' !in name && ')' !in name && |name + rest| <= end
    ensures Read(m, name + rest, end) == Read(m.(buf := m.buf + name), rest, end)
    decreases |name|
  {
    if name == [] {
      assert name + rest == rest && m.buf + name == m.buf;
    } else {
      assert name + rest == [name[0]] + (name[1..] + rest);
      ReadChar(m, name[0], name[1..] + rest, end);
      ReadName(m.(buf := m.buf + [name[0]]), name[1..], rest, end);
      assert m.buf + [name[0]] + name[1..] == m.buf + name;
    }
  }

  /** A list of names up to its closing bracket: one path each, then the next suffix. */
  lemma {:induction false} ReadNames(stack: seq<string>, result: seq<string>, names: seq<string>, suffix: string, rest: string, end: nat)
    requires PrintableGroup(Group(suffix, names)) && |PrintNames(names, ")" + rest)| <= end
    ensures Read(Machine(InFile, Dotted(suffix), "", stack, result), PrintNames(names, ")" + rest), end)
         == Read(Machine(InSuffix, "", "", stack, result + FlattenNames(Top(stack), names, suffix)), rest, end)
    decreases |names|
  {
    var m, name := Machine(InFile, Dotted(suffix), "", stack, result), names[0];
    var named := m.(buf := name);
    var path := Top(stack) + name + Dotted(suffix);
    assert name in names && "" + name == name;
    if |names| == 1 {
      ReadName(m, name, ")" + rest, end);
      ReadChar(named, ')', rest, end);
      assert FlattenNames(Top(stack), names, suffix) == [path];
    } else {
      var more := PrintNames(names[1..], ")" + rest);
      ReadName(m, name, ":" + more, end);
      ReadChar(named, ':', more, end);
      ReadNames(stack, result + [path], names[1..], suffix, rest, end);
      assert result + [path] + FlattenNames(Top(stack), names[1..], suffix) == result + FlattenNames(Top(stack), names, suffix);
    }
  }

  lemma {:induction false} ReadGroups(stack: seq<string>, result: seq<string>, groups: seq<Group>, rest: string, end: nat)
    requires PrintableGroups(groups) && |PrintGroups(groups, rest)| <= end
    ensures Read(Machine(InSuffix, "", "", stack, result), PrintGroups(groups, rest), end)
         == Read(Machine(InSuffix, "", "", stack, result + FlattenGroups(Top(stack), groups)), rest, end)
    decreases |groups|
  {
    if groups == [] {
      assert result + FlattenGroups(Top(stack), groups) == result;
    } else {
      var g, more := groups[0], PrintGroups(groups[1..], rest);
      var names := PrintNames(g.names, ")" + more);
      assert PrintableGroup(g) && g == Group(g.suffix, g.names) && "" + g.suffix == g.suffix;
      ReadEscaped(Machine(InSuffix, "", "", stack, result), g.suffix, "(" + names, end);
      ReadChar(Machine(InSuffix, g.suffix, "", stack, result), '(', names, end);
      ReadNames(stack, result, g.names, g.suffix, more, end);
      var result' := result + FlattenNames(Top(stack), g.names, g.suffix);
      ReadGroups(stack, result', groups[1..], rest, end);
      assert result' + FlattenGroups(Top(stack), groups[1..]) == result + FlattenGroups(Top(stack), groups);
    }
  }

  /** Reading a whole tree adds its files and leaves the path stack as it was. */
  lemma {:induction false} ReadTree(stack: seq<string>, result: seq<string>, t: Tree, rest: string, end: nat)
    requires Printable(t) && |Print(t, rest)| <= end
    ensures Read(Machine(InSuffix, "", "", stack, result), Print(t, rest), end)
         == Read(Machine(InPath, "", "", stack, result + Flatten(Top(stack), t)), rest, end)
    decreases t
  {
    var dirs, result' := PrintDirs(t.dirs, rest), result + FlattenGroups(Top(stack), t.groups);
    ReadGroups(stack, result, t.groups, ":" + dirs, end);
    ReadChar(Machine(InSuffix, "", "", stack, result'), ':', dirs, end);
    ReadDirs(stack, result', t.dirs, rest, end);
    assert result' + FlattenDirs(Top(stack), t.dirs) == result + Flatten(Top(stack), t);
  }

  /** A directory's name and its bracket push the directory's path. */
  lemma ReadOpening(stack: seq<string>, result: seq<string>, name: string, body: string, end: nat)
    requires |Escape(name, "(" + body)| <= end
    ensures |body| <= end
    ensures Read(Machine(InPath, "", "", stack, result), Escape(name, "(" + body), end)
         == Read(Machine(InSuffix, "", "", stack + [Top(stack) + name + "/"], result), body, end)
  {
    assert "" + name == name;
    ReadEscaped(Machine(InPath, "", "", stack, result), name, "(" + body, end);
    ReadChar(Machine(InPath, "", name, stack, result), '(', body, end);
  }

  lemma ReadClosing(stack: seq<string>, dir: string, result: seq<string>, after: string, end: nat)
    requires |after| < end
    ensures Read(Machine(InPath, "", "", stack + [dir], result), ")" + after, end)
         == Read(Machine(InPath, "", "", stack, result), after, end)
  {
    assert Pop(stack + [dir]) == stack;
    ReadChar(Machine(InPath, "", "", stack + [dir], result), ')', after, end);
  }

  lemma {:induction false} ReadDirs(stack: seq<string>, result: seq<string>, ds: Dirs, rest: string, end: nat)
    requires PrintableDirs(ds) && |PrintDirs(ds, rest)| <= end
    ensures Read(Machine(InPath, "", "", stack, result), PrintDirs(ds, rest), end)
         == Read(Machine(InPath, "", "", stack, result + FlattenDirs(Top(stack), ds)), rest, end)
    decreases ds
  {
    match ds
    case NoDirs =>
      assert result + FlattenDirs(Top(stack), ds) == result;
    case Dir(name, inside, more) =>
      var after := PrintDirs(more, rest);
      var body := Print(inside, ")" + after);
      var deeper := stack + [Top(stack) + name + "/"];
      var result' := result + Flatten(Top(stack) + name + "/", inside);
      ReadOpening(stack, result, name, body, end);
      ReadTree(deeper, result, inside, ")" + after, end);
      ReadClosing(stack, Top(stack) + name + "/", result', after, end);
      ReadDirs(stack, result', more, rest, end);
      Assoc(result, Flatten(Top(stack) + name + "/", inside), FlattenDirs(Top(stack), more));
  }

  /** Decoding a printed tree gives exactly its file paths, in order, with the stack restored. */
  lemma DecodePrinted(t: Tree)
    requires Printable(t)
    ensures Feed(START, Print(t, ""), 0) == Ok(Machine(InPath, "", "", [], Flatten("", t)))
  {
    ReadTree([], [], t, "", |Print(t, "")|);
    assert [] + Flatten("", t) == Flatten("", t);
  }

  /** Without directories the colon may be left out. */
  lemma DecodePrintedGroups(groups: seq<Group>)
    requires PrintableGroups(groups)
    ensures Feed(START, PrintGroups(groups, ""), 0) == Ok(Machine(InSuffix, "", "", [], Flatten("", Tree(groups, NoDirs))))
  {
    ReadGroups([], [], groups, "", |PrintGroups(groups, "")|);
    assert [] + FlattenGroups("", groups) == FlattenGroups("", groups) + [];
  }

  /** The whole request: the procedures, started as the loader starts them, return the tree's files. */
  method DecodeRequest(t: Tree) returns (r: Result<(), nat>, files: seq<string>)
    requires Printable(t)
    ensures r.Ok? && files == Flatten("", t)
  {
    DecodePrinted(t);
    var d := new Decoder(Print(t, ""));
    r := d.Decode(0);
    files := d.result;
  }
}
