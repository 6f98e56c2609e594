/**
  Topic names and topic filters (section 4.7 of MQTT 3.1.1) and the two matchers:
  strict matching, which the trie implements, and the broker's `is_match`.

  A topic string is split at '/' into levels; "+" and "#" are the wildcards.
 */
module TopicPaths {
  datatype Level = Normal(name: string) | Plus | Hash

  type Path = seq<Level>

  function LevelOf(text: string): Level {
    if text == "+" then Plus else if text == "#" then Hash else Normal(text)
  }

  function SplitLevels(level: string, rest: string): (p: Path)
    ensures |p| > 0
    decreases |rest|
  {
    if rest == [] then [LevelOf(level)]
    else if rest[0] == '/' then [LevelOf(level)] + SplitLevels("", rest[1..])
    else SplitLevels(level + [rest[0]], rest[1..])
  }

  function Parse(text: string): (p: Path)
    ensures |p| > 0
  {
    SplitLevels("", text)
  }

  /** The text of a level, and of a path: levels with a slash between. */
  function LevelText(l: Level): string {
    match l
    case Normal(s) => s
    case Plus => "+"
    case Hash => "#"
  }

  function PathText(p: Path): string
    requires p != []
  {
    LevelText(p[0]) + if |p| == 1 then "" else "/" + PathText(p[1..])
  }

  /** A level that a text can name: no slash in it, and a wildcard is no ordinary name. */
  predicate Nameable(l: Level) { l.Normal? ==> '/' !in l.name && l.name != "+" && l.name != "#" }

  lemma {:induction false} SplitWord(level: string, word: string, rest: string)
    requires '/' !in word
    ensures SplitLevels(level, word + rest) == SplitLevels(level + word, rest)
    decreases |word|
  {
    if word == [] {
      assert word + rest == rest && level + word == level;
    } else {
      assert (word + rest)[1..] == word[1..] + rest && (word + rest)[0] == word[0];
      SplitWord(level + [word[0]], word[1..], rest);
      assert level + [word[0]] + word[1..] == level + word;
    }
  }

  /** Reading what a path is written as gives the path back. */
  lemma {:induction false} ParseText(p: Path)
    requires p != [] && forall i :: 0 <= i < |p| ==> Nameable(p[i])
    ensures Parse(PathText(p)) == p
    decreases |p|
  {
    var word := LevelText(p[0]);
    var rest := if |p| == 1 then "" else "/" + PathText(p[1..]);
    assert "+"[0] != "#"[0];
    assert LevelOf(word) == p[0];
    SplitWord("", word, rest);
    assert "" + word == word;
    if |p| > 1 {
      assert rest[0] == '/' && rest[1..] == PathText(p[1..]);
      ParseText(p[1..]);
      assert p == [p[0]] + p[1..];
    }
  }

  predicate Wild(p: Path) { Plus in p || Hash in p }

  /** Well-formed filters have '#' in the last level only ([MQTT-4.7.1-2]). */
  ghost predicate HashLast(p: Path) {
    forall i :: 0 <= i < |p| - 1 ==> p[i] != Hash
  }

  /** One filter level against one topic level. */
  predicate Fit(filter: Level, level: Level) {
    match filter
    case Normal(_) => filter == level
    case Plus => true
    case Hash => true
  }

  /** Strict matching: '#' stands for one or more remaining levels. */
  predicate StrictMatch(p: Path, t: Path)
    decreases |p|
  {
    if p == [] then t == []
    else if p[0] == Hash then |p| == 1 && t != []
    else t != [] && Fit(p[0], t[0]) && StrictMatch(p[1..], t[1..])
  }

  /** The first n levels fit one by one. */
  ghost predicate FitsUpTo(p: Path, t: Path, n: nat)
    requires n <= |p| && n <= |t|
  {
    forall i :: 0 <= i < n ==> Fit(p[i], t[i])
  }

  ghost predicate EndsWithHash(p: Path) { p != [] && p[|p| - 1] == Hash }

  /** Strict matching without recursion: lengths and a level-by-level fit. */
  lemma {:induction false} StrictMatchMeaning(p: Path, t: Path)
    requires HashLast(p)
    ensures StrictMatch(p, t) <==>
              if EndsWithHash(p) then |t| >= |p| && FitsUpTo(p, t, |p| - 1)
              else |t| == |p| && FitsUpTo(p, t, |p|)
    decreases |p|
  {
    if p != [] && p[0] != Hash && t != [] {
      var p', t' := p[1..], t[1..];
      assert HashLast(p') by { assert forall i :: 0 <= i < |p'| - 1 ==> p'[i] == p[i + 1]; }
      StrictMatchMeaning(p', t');
      assert p' != [] ==> p'[|p'| - 1] == p[|p| - 1];
      var n := if EndsWithHash(p) then |p| - 1 else |p|;
      if n <= |t| { FitsUpToStep(p, t, n); }
    }
  }

  lemma FitsUpToStep(p: Path, t: Path, n: nat)
    requires 0 < n <= |p| && n <= |t|
    ensures FitsUpTo(p, t, n) <==> Fit(p[0], t[0]) && FitsUpTo(p[1..], t[1..], n - 1)
  {
    if Fit(p[0], t[0]) && FitsUpTo(p[1..], t[1..], n - 1) {
      forall i | 0 <= i < n ensures Fit(p[i], t[i]) {
        if i > 0 { assert Fit(p[1..][i - 1], t[1..][i - 1]); }
      }
    }
    if FitsUpTo(p, t, n) {
      forall i | 0 <= i < n - 1 ensures Fit(p[1..][i], t[1..][i]) { assert Fit(p[i + 1], t[i + 1]); }
    }
  }

  /** The level-by-level loop of `is_match` from level i on. */
  predicate MatchLevels(p: Path, t: Path, i: nat)
    requires i <= |t|
    decreases |t| - i
  {
    if i == |t| then true
    else if i == |p| - 1 && p[i] == Hash then true
    else i < |p| && Fit(p[i], t[i]) && MatchLevels(p, t, i + 1)
  }

  /** `is_match`: a topic one level short of a '#' filter is compared on its last level only. */
  predicate IsMatch(p: Path, t: Path)
    requires t != []
  {
    if |t| < |p| then
      |p| - |t| == 1 && p[|p| - 1] == Hash && Fit(p[|p| - 2], t[|p| - 2])
    else MatchLevels(p, t, 0)
  }

  method CheckMatch(p: Path, t: Path) returns (r: bool)
    requires t != []
    ensures r == IsMatch(p, t)
  {
    if |t| < |p| {
      var levelDiff := |p| - |t|;
      if levelDiff > 1 {
        return false;
      } else if p[|p| - 1] == Hash {
        return Fit(p[|p| - 2], t[|p| - 2]);
      } else {
        return false;
      }
    }
    var i := 0;
    while i < |t|
      invariant 0 <= i <= |t|
      invariant MatchLevels(p, t, 0) == MatchLevels(p, t, i)
    {
      if i == |p| - 1 && p[i] == Hash {
        return true;
      }
      if i < |p| && Fit(p[i], t[i]) {
        i := i + 1;
        continue;
      }
      return false;
    }
    r := true;
  }

  lemma {:induction false} MatchLevelsMeaning(p: Path, t: Path, i: nat)
    requires HashLast(p) && p != [] && i < |p| <= |t|
    requires FitsUpTo(p, t, i)
    ensures MatchLevels(p, t, i) <==>
              if EndsWithHash(p) then FitsUpTo(p, t, |p| - 1) else |t| == |p| && FitsUpTo(p, t, |p|)
    decreases |p| - i
  {
    if i == |p| - 1 {
      if p[i] != Hash && Fit(p[i], t[i]) { assert FitsUpTo(p, t, i + 1); }
    } else if Fit(p[i], t[i]) {
      MatchLevelsMeaning(p, t, i + 1);
    }
  }

  /** With at least as many topic levels as filter levels the two matchers agree. */
  lemma MatchersAgreeOnLongTopics(p: Path, t: Path)
    requires HashLast(p) && p != [] && |t| >= |p|
    ensures IsMatch(p, t) <==> StrictMatch(p, t)
  {
    MatchLevelsMeaning(p, t, 0);
    StrictMatchMeaning(p, t);
  }

  /** Strict matching never accepts more than `is_match`. */
  lemma StrictImpliesIsMatch(p: Path, t: Path)
    requires HashLast(p) && p != [] && t != [] && StrictMatch(p, t)
    ensures IsMatch(p, t)
  {
    StrictMatchMeaning(p, t);
    MatchersAgreeOnLongTopics(p, t);
  }

  /** Matching as the standard defines it: "sport/#" also matches its parent "sport". */
  predicate StandardMatch(p: Path, t: Path)
    decreases |p|
  {
    if p == [] then t == []
    else if p[0] == Hash then |p| == 1
    else t != [] && Fit(p[0], t[0]) && StandardMatch(p[1..], t[1..])
  }

  lemma {:induction false} StandardMatchMeaning(p: Path, t: Path)
    requires HashLast(p)
    ensures StandardMatch(p, t) <==>
              if EndsWithHash(p) then |t| >= |p| - 1 && FitsUpTo(p, t, |p| - 1)
              else |t| == |p| && FitsUpTo(p, t, |p|)
    decreases |p|
  {
    if p != [] && p[0] != Hash && t != [] {
      var p', t' := p[1..], t[1..];
      assert HashLast(p') by { assert forall i :: 0 <= i < |p'| - 1 ==> p'[i] == p[i + 1]; }
      StandardMatchMeaning(p', t');
      assert p' != [] ==> p'[|p'| - 1] == p[|p| - 1];
      var n := if EndsWithHash(p) then |p| - 1 else |p|;
      if 0 < n <= |t| { FitsUpToStep(p, t, n); }
    }
  }

  /** The trie's matching falls short of the standard exactly on the parent of a '#' filter. */
  lemma StrictVersusStandard(p: Path, t: Path)
    requires HashLast(p)
    ensures StrictMatch(p, t) <==> StandardMatch(p, t) && !(EndsWithHash(p) && |t| == |p| - 1)
  {
    StrictMatchMeaning(p, t);
    StandardMatchMeaning(p, t);
  }

  /**
    `is_match` accepts all that the standard accepts, and more only on the parent
    level of a '#' filter, when the last shared level fits and an earlier one does not.
   */
  lemma IsMatchVersusStandard(p: Path, t: Path)
    requires HashLast(p) && p != [] && t != []
    ensures IsMatch(p, t) <==>
              || StandardMatch(p, t)
              || (EndsWithHash(p) && |t| == |p| - 1 && Fit(p[|p| - 2], t[|p| - 2]) && !FitsUpTo(p, t, |p| - 2))
  {
    StandardMatchMeaning(p, t);
    if |t| >= |p| {
      MatchersAgreeOnLongTopics(p, t);
      StrictMatchMeaning(p, t);
    }
  }

  /** The filter "a/b/#" is taken to match "x/b". */
  lemma IsMatchAcceptsStrangers()
    ensures IsMatch([Normal("a"), Normal("b"), Hash], [Normal("x"), Normal("b")])
    ensures !StandardMatch([Normal("a"), Normal("b"), Hash], [Normal("x"), Normal("b")])
  {
    var p, t := [Normal("a"), Normal("b"), Hash], [Normal("x"), Normal("b")];
    assert "a" != "x" by { assert "a"[0] != "x"[0]; }
    assert !Fit(p[0], t[0]);
  }
}
