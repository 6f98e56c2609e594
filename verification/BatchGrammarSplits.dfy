/**
  Batch requests read by splitting: a simple form that cuts a whole request at its plain
  brackets and colons, and that the three procedures agree with on every request whose
  escapes are in order, printed or not.
 */
module BatchGrammarSplits {
  import opened Prelude
  import opened BatchGrammar

  /** A character of a request, and whether an escape stands for it. */
  datatype Token = Token(c: char, escaped: bool)

  function Tokens(text: string): seq<Token>
    requires WellEscaped(text)
    decreases |text|
  {
    if text == [] then []
    else if text[0] != '$' then [Token(text[0], false)] + Tokens(text[1..])
    else [Token(Unescape(text[1]), true)] + Tokens(text[2..])
  }

  predicate IsPlain(t: Token, c: char) { !t.escaped && t.c == c }

  /** The place of the first plain x or y, or the end. */
  function Cut(toks: seq<Token>, x: char, y: char): (i: nat)
    ensures i <= |toks|
  {
    if toks == [] || IsPlain(toks[0], x) || IsPlain(toks[0], y) then 0 else 1 + Cut(toks[1..], x, y)
  }

  /** The characters of tokens, all of them or those with the given mark. */
  function Chars(toks: seq<Token>): string {
    if toks == [] then "" else [toks[0].c] + Chars(toks[1..])
  }

  function Marked(toks: seq<Token>, escaped: bool): string {
    if toks == [] then ""
    else (if toks[0].escaped == escaped then [toks[0].c] else "") + Marked(toks[1..], escaped)
  }

  datatype Outcome = Outcome(stack: seq<string>, result: seq<string>)

  /** Files of one suffix: up to a bracket the suffix, up to a colon the directories begin. */
  function ReadSuffix(given: string, toks: seq<Token>, at: Outcome): Outcome
    decreases |toks|
  {
    var i := Cut(toks, '(', ':');
    if i == |toks| then at
    else
      var suffix := given + Chars(toks[..i]);
      if IsPlain(toks[i], '(') then ReadFiles("", if suffix == "" then "" else "." + suffix, toks[i + 1..], at)
      else ReadPath("", toks[i + 1..], at)
  }

  /** One file: what is plain is its name, what is escaped goes to the suffix of this and the next ones. */
  function ReadFiles(given: string, suffix: string, toks: seq<Token>, at: Outcome): Outcome
    decreases |toks|
  {
    var i := Cut(toks, ':', ')');
    if i == |toks| then at
    else
      var name, suffix' := given + Marked(toks[..i], false), suffix + Marked(toks[..i], true);
      var at' := at.(result := at.result + [Top(at.stack) + name + suffix']);
      if IsPlain(toks[i], ':') then ReadFiles("", suffix', toks[i + 1..], at') else ReadSuffix("", toks[i + 1..], at')
  }

  /** A directory opens with its name, or the one that is open closes. */
  function ReadPath(given: string, toks: seq<Token>, at: Outcome): Outcome
    decreases |toks|
  {
    var i := Cut(toks, '(', ')');
    if i == |toks| then at
    else if IsPlain(toks[i], '(') then
      var name := given + Chars(toks[..i]);
      ReadSuffix("", toks[i + 1..], at.(stack := at.stack + [Top(at.stack) + name + "/"]))
    else ReadPath("", toks[i + 1..], at.(stack := Pop(at.stack)))
  }

  function ReadFrom(m: Machine, toks: seq<Token>): Outcome {
    var at := Outcome(m.stack, m.result);
    match m.mode
    case InSuffix => ReadSuffix(m.suffix, toks, at)
    case InFile => ReadFiles(m.buf, m.suffix, toks, at)
    case InPath => ReadPath(m.buf, toks, at)
  }

  function TakeToken(m: Machine, t: Token): Machine { if t.escaped then TakeEscaped(m, t.c) else Take(m, t.c) }

  lemma CutFirst(toks: seq<Token>, x: char, y: char)
    requires toks != [] && !IsPlain(toks[0], x) && !IsPlain(toks[0], y)
    ensures var i, rest := Cut(toks, x, y), toks[1..];
            && i == 1 + Cut(rest, x, y)
            && toks[..i][0] == toks[0] && toks[..i][1..] == rest[..i - 1]
            && (i < |toks| ==> toks[i] == rest[i - 1] && toks[i + 1..] == rest[i..])
  {
  }

  /** Taking one token into the machine does not change what is read. */
  lemma ReadToken(m: Machine, toks: seq<Token>)
    requires toks != []
    ensures ReadFrom(TakeToken(m, toks[0]), toks[1..]) == ReadFrom(m, toks)
  {
    match m.mode
    case InSuffix => TokenInSuffix(m, toks);
    case InFile => TokenInFile(m, toks);
    case InPath => TokenInPath(m, toks);
  }

  lemma TokenInSuffix(m: Machine, toks: seq<Token>)
    requires toks != [] && m.mode == InSuffix
    ensures ReadFrom(TakeToken(m, toks[0]), toks[1..]) == ReadFrom(m, toks)
  {
    var t := toks[0];
    if IsPlain(t, '(') || IsPlain(t, ':') {
      assert m.suffix + Chars(toks[..0]) == m.suffix;
    } else {
      CutFirst(toks, '(', ':');
      var i := Cut(toks, '(', ':');
      assert m.suffix + [t.c] + Chars(toks[1..][..i - 1]) == m.suffix + Chars(toks[..i]);
    }
  }

  lemma TokenInFile(m: Machine, toks: seq<Token>)
    requires toks != [] && m.mode == InFile
    ensures ReadFrom(TakeToken(m, toks[0]), toks[1..]) == ReadFrom(m, toks)
  {
    var t := toks[0];
    if IsPlain(t, ':') || IsPlain(t, ')') {
      assert m.buf + Marked(toks[..0], false) == m.buf && m.suffix + Marked(toks[..0], true) == m.suffix;
    } else {
      CutFirst(toks, ':', ')');
      var i := Cut(toks, ':', ')');
      var rest := toks[1..][..i - 1];
      assert Marked(toks[..i], t.escaped) == [t.c] + Marked(rest, t.escaped);
      assert Marked(toks[..i], !t.escaped) == "" + Marked(rest, !t.escaped) == Marked(rest, !t.escaped);
      if t.escaped {
        assert m.suffix + [t.c] + Marked(rest, true) == m.suffix + Marked(toks[..i], true);
      } else {
        assert m.buf + [t.c] + Marked(rest, false) == m.buf + Marked(toks[..i], false);
      }
    }
  }

  lemma TokenInPath(m: Machine, toks: seq<Token>)
    requires toks != [] && m.mode == InPath
    ensures ReadFrom(TakeToken(m, toks[0]), toks[1..]) == ReadFrom(m, toks)
  {
    var t := toks[0];
    if IsPlain(t, '(') || IsPlain(t, ')') {
      assert m.buf + Chars(toks[..0]) == m.buf;
    } else {
      CutFirst(toks, '(', ')');
      var i := Cut(toks, '(', ')');
      assert m.buf + [t.c] + Chars(toks[1..][..i - 1]) == m.buf + Chars(toks[..i]);
    }
  }

  /** From any state, on every request whose escapes are in order: reading character by character is reading by splits. */
  lemma {:induction false} FeedIsSplits(m: Machine, text: string, pos: nat)
    requires WellEscaped(text)
    ensures Feed(m, text, pos).Ok?
    ensures var m' := Feed(m, text, pos).value; Outcome(m'.stack, m'.result) == ReadFrom(m, Tokens(text))
    decreases |text|
  {
    if text != [] {
      var toks, n := Tokens(text), if text[0] == '$' then 2 else 1;
      assert toks[1..] == Tokens(text[n..]);
      ReadToken(m, toks);
      FeedIsSplits(TakeToken(m, toks[0]), text[n..], pos + n);
    }
  }

  /** The procedures, on any request whose escapes are in order: they succeed with the files that the splits give. */
  method DecodeBySplits(text: string) returns (r: Result<(), nat>, files: seq<string>)
    requires WellEscaped(text)
    ensures r.Ok? && files == ReadSuffix("", Tokens(text), Outcome([], [])).result
  {
    FeedIsSplits(START, text, 0);
    var d := new Decoder(text);
    r := d.Decode(0);
    files := d.result;
  }
}
