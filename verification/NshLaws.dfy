/** What single lines do, spelled out: what words stand for, which branch an `if` picks, what a refused line
    leaves behind, and where a script stops. */
module NshLaws {
  import opened NshTokens
  import opened NshParser
  import opened NshScript
  import opened NshRunner

  /** A name written out that is none of the four control words. */
  predicate IsName(name: string) {
    name != "" && name[0] != '$' && name != "if" && name != "then" && name != "else" && name != "fi"
  }

  function Bare(text: string): Token {
    Word(text, false)
  }

  /** Commands run here: the level lets them through and no `if` test is under way. */
  predicate Runs(s: Nsh) {
    StackOk(s) && Enabled(s) && s.st[s.ndx].kind != If
  }

  // ----- what words stand for

  /** What one argument of a command reads as: `$?` is "1" after a failure and "0" otherwise, `$` and a name is
      that variable, quotes keep a dollar sign, and redirections are their signs. */
  predicate ReadsAs(t: Token, fail: bool, log: seq<Command>, w: World, word: string) {
    (t == Bare("$?") ==> word == if fail then "1" else "0") &&
    (t == Word("$?", true) ==> word == "$?") &&
    (t.Word? && !t.quoted && |t.text| > 0 && t.text[0] == '$' && t.text != "$?" ==> word == w.env(log, t.text[1..])) &&
    (t.Word? && (t.quoted || t.text == "" || t.text[0] != '$') ==> word == t.text) &&
    (t == Redirect(false) ==> word == ">") && (t == Redirect(true) ==> word == ">>")
  }

  lemma ExpandReadsAs(t: Token, fail: bool, log: seq<Command>, w: World)
    requires t != End
    ensures ReadsAs(t, fail, log, w, Expand(t, fail, log, w))
  {
  }

  /** A name and one argument, where commands run: exactly that command is run, the argument read as it should,
      and its outcome is what `$?` says next. */
  lemma CommandRuns(s: Nsh, name: string, t: Token, w: World) returns (word: string)
    requires Runs(s) && IsName(name) && t != End && w.maxWords >= 2
    ensures ReadsAs(t, s.fail, s.log, w, word)
    ensures ParseTokens(s, [Bare(name), t], w) ==
            s.(log := s.log + [[name, word]], fail := !w.exec(s.log, [name, word]))
  {
    word := Expand(t, s.fail, s.log, w);
    var line := [Bare(name), t];
    var words := ExpandAll(line, s.fail, s.log, w);
    assert words == [name, word];
    assert IfThenElse(s, words) == Left(s, words);
    assert Argv(words, w) == words;
  }

  /** `$?` behind any command: "1" if it failed and "0" if it succeeded. */
  lemma StatusOfCommand(s: Nsh, name: string, t: Token, echo: string, w: World) returns (word: string)
    requires Runs(s) && IsName(name) && t != End && IsName(echo) && w.maxWords >= 2
    ensures ParseTokens(ParseTokens(s, [Bare(name), t], w), [Bare(echo), Bare("$?")], w).log ==
            s.log + [[name, word]] + [[echo, if w.exec(s.log, [name, word]) then "0" else "1"]]
  {
    word := CommandRuns(s, name, t, w);
    var s1 := ParseTokens(s, [Bare(name), t], w);
    var status := CommandRuns(s1, echo, Bare("$?"), w);
  }

  /** A line of a name and `$?`, however it is written. */
  predicate AsksStatus(line: seq<Token>) {
    |line| == 2 && line[0].Word? && IsName(line[0].text) && line[1] == Bare("$?")
  }

  lemma StatusLine(s: Nsh, line: seq<Token>, w: World)
    requires Runs(s) && AsksStatus(line) && w.maxWords >= 2
    ensures NoEnd(line)
    ensures ParseTokens(s, line, w).log == s.log + [[line[0].text, if s.fail then "1" else "0"]]
  {
    var words := ExpandAll(line, s.fail, s.log, w);
    assert words == [line[0].text, if s.fail then "1" else "0"];
    assert IfThenElse(s, words) == Left(s, words);
    assert Argv(words, w) == words;
  }

  // ----- which branch runs

  /** Whether the first of two branches runs depends on the test's success, and `$?` starts out as "0" in it. */
  lemma IfPicksBranch(s: Nsh, test: string, a: string, b: string, w: World)
    requires Runs(s) && s.ndx + 1 < |s.st| && w.maxWords >= 2
    requires IsName(test) && IsName(a) && IsName(b)
    ensures var lines := [[Bare("if"), Bare(test)], [Bare("then")], [Bare(a), Bare("$?")],
                          [Bare("else")], [Bare(b), Bare("$?")], [Bare("fi")]];
            LinesOk(lines) &&
            ParseLines(s, lines, w).log ==
            s.log + [[test]] + [if w.exec(s.log, [test]) then [a, "0"] else [b, "0"]]
  {
    hide ParseTokens, ParseLines, Expand;
    var s1 := IfTests(s, test, w);
    var s2 := s1.(st := s1.st[s1.ndx := s1.st[s1.ndx].(kind := Then)]);
    KeywordLines(s1, w);
    var s3 := s2;
    if w.exec(s.log, [test]) {
      var word := CommandRuns(s2, a, Bare("$?"), w);
      s3 := ParseTokens(s2, [Bare(a), Bare("$?")], w);
    } else {
      SkippedLine(s2, a, Bare("$?"), w);
    }
    KeywordLines(s3, w);
    var s4 := s3.(st := s3.st[s3.ndx := s3.st[s3.ndx].(kind := Else)]);
    var s5 := s4;
    if w.exec(s.log, [test]) {
      SkippedLine(s4, b, Bare("$?"), w);
    } else {
      var word := CommandRuns(s4, b, Bare("$?"), w);
      s5 := ParseTokens(s4, [Bare(b), Bare("$?")], w);
    }
    KeywordLines(s5, w);
    SixLines(s, [Bare("if"), Bare(test)], [Bare("then")], [Bare(a), Bare("$?")],
             [Bare("else")], [Bare(b), Bare("$?")], [Bare("fi")], w);
  }

  lemma IfTests(s: Nsh, test: string, w: World) returns (t: Nsh)
    requires Runs(s) && s.ndx + 1 < |s.st| && w.maxWords >= 2 && IsName(test)
    ensures t == ParseTokens(s, [Bare("if"), Bare(test)], w)
    ensures t == s.(ndx := s.ndx + 1, fail := false, log := s.log + [[test]],
                    st := s.st[s.ndx + 1 := Slot(If, false, !w.exec(s.log, [test]))])
  {
    var words := ExpandAll([Bare("if"), Bare(test)], s.fail, s.log, w);
    assert words == ["if", test] && words[1..] == [test];
    assert IfThenElse(s, words) == Left(Push(s), [test]);
    assert Argv([test], w) == [test];
    t := ParseTokens(s, [Bare("if"), Bare(test)], w);
  }

  lemma KeywordLines(s: Nsh, w: World)
    requires StackOk(s)
    ensures s.st[s.ndx].kind == If ==>
              ParseTokens(s, [Bare("then")], w) == s.(st := s.st[s.ndx := s.st[s.ndx].(kind := Then)])
    ensures s.st[s.ndx].kind == Then ==>
              ParseTokens(s, [Bare("else")], w) == s.(st := s.st[s.ndx := s.st[s.ndx].(kind := Else)])
    ensures (s.st[s.ndx].kind == Then || s.st[s.ndx].kind == Else) && s.ndx > 0 ==>
              ParseTokens(s, [Bare("fi")], w) == s.(ndx := s.ndx - 1)
  {
    assert ExpandAll([Bare("then")], s.fail, s.log, w) == ["then"];
    assert ExpandAll([Bare("else")], s.fail, s.log, w) == ["else"];
    assert ExpandAll([Bare("fi")], s.fail, s.log, w) == ["fi"];
  }

  lemma SkippedLine(s: Nsh, name: string, t: Token, w: World)
    requires StackOk(s) && !Enabled(s) && s.st[s.ndx].kind != If && IsName(name) && t != End
    ensures ParseTokens(s, [Bare(name), t], w) == s
  {
    var words := ExpandAll([Bare(name), t], s.fail, s.log, w);
    assert words[0] == name;
    assert IfThenElse(s, words) == Left(s, words);
  }

  lemma SixLines(s: Nsh, a: seq<Token>, b: seq<Token>, c: seq<Token>,
                 d: seq<Token>, e: seq<Token>, f: seq<Token>, w: World)
    requires StackOk(s) && NoEnd(a) && NoEnd(b) && NoEnd(c) && NoEnd(d) && NoEnd(e) && NoEnd(f)
    ensures LinesOk([a, b, c, d, e, f])
    ensures ParseLines(s, [a, b, c, d, e, f], w) ==
            var half := ParseTokens(ParseTokens(ParseTokens(s, a, w), b, w), c, w);
            ParseTokens(ParseTokens(ParseTokens(half, d, w), e, w), f, w)
  {
    hide ParseTokens, ParseLines;
    var s1 := ParseTokens(s, a, w);
    var s2 := ParseTokens(s1, b, w);
    var s3 := ParseTokens(s2, c, w);
    var s4 := ParseTokens(s3, d, w);
    var s5 := ParseTokens(s4, e, w);
    assert [a, b, c, d, e, f] == [a] + ([b] + ([c] + ([d] + ([e] + ([f] + [])))));
    OneLine(s5, f, [], w);
    OneLine(s4, e, [f] + [], w);
    OneLine(s3, d, [e] + ([f] + []), w);
    OneLine(s2, c, [d] + ([e] + ([f] + [])), w);
    OneLine(s1, b, [c] + ([d] + ([e] + ([f] + []))), w);
    OneLine(s, a, [b] + ([c] + ([d] + ([e] + ([f] + [])))), w);
    NoLines(ParseTokens(s5, f, w), w);
  }

  lemma NoLines(s: Nsh, w: World)
    requires StackOk(s)
    ensures ParseLines(s, [], w) == s
  {
  }

  // ----- refused lines

  lemma WrongResets(s: Nsh, words: seq<string>)
    requires StackOk(s) && IfThenElse(s, words).Wrong?
    ensures IfThenElse(s, words) == Wrong(s.(ndx := 0, st := s.st[0 := Slot(Normal, false, false)]))
  {
  }

  lemma WrongParse(s: Nsh, words: seq<string>, t: Nsh, w: World)
    requires StackOk(s) && StackOk(t) && IfThenElse(s, words) == Wrong(t)
    ensures ParseWords(s, words, w) == SaveResult(t, true) && LineFails(s, words, w)
  {
  }

  lemma FailedAtBottom(t: Nsh)
    requires StackOk(t) && t.st[t.ndx] == Slot(Normal, false, false)
    ensures SaveResult(t, true) == t.(fail := true) && Runs(SaveResult(t, true))
  {
  }

  /** A refused line runs nothing, counts as failed, and leaves the shell at the bottom level, enabled. */
  lemma RefusedLineResets(s: Nsh, words: seq<string>, w: World)
    requires StackOk(s) && IfThenElse(s, words).Wrong?
    ensures ParseWords(s, words, w) == s.(ndx := 0, fail := true, st := s.st[0 := Slot(Normal, false, false)])
    ensures LineFails(s, words, w) && Runs(ParseWords(s, words, w))
  {
    hide IfThenElse, SaveResult, Runs, LineFails, ParseWords;
    var t := s.(ndx := 0, st := s.st[0 := Slot(Normal, false, false)]);
    WrongResets(s, words);
    WrongParse(s, words, t, w);
    FailedAtBottom(t);
  }

  // ----- where a script stops

  /** Of two commands in a script the second runs exactly if the first succeeds. */
  lemma SecondRunsIff(s: Nsh, a: string, b: string, w: World)
    requires Runs(s) && IsName(a) && IsName(b) && w.maxWords >= 1
    ensures var r := Play(s, [[Bare(a)], [Bare(b)]], w);
            r.state.log == (if w.exec(s.log, [a]) then s.log + [[a]] + [[b]] else s.log + [[a]]) &&
            r.stopped == !(w.exec(s.log, [a]) && w.exec(s.log + [[a]], [b]))
  {
    hide ParseTokens, TokensFail, Play;
    PlainWordLine(s, a, w);
    var s1 := s.(log := s.log + [[a]], fail := !w.exec(s.log, [a]));
    PlainWordLine(s1, b, w);
    assert [[Bare(a)], [Bare(b)]] == [[Bare(a)]] + [[Bare(b)]] && [[Bare(b)]] == [[Bare(b)]] + [];
    PlayLine(s, [Bare(a)], [[Bare(b)]], w);
    PlayLine(s1, [Bare(b)], [], w);
    NothingPlays(ParseTokens(s1, [Bare(b)], w), w);
  }

  lemma NothingPlays(s: Nsh, w: World)
    requires StackOk(s)
    ensures Play(s, [], w) == Played(s, false)
  {
  }

  lemma PlainWordLine(s: Nsh, name: string, w: World)
    requires Runs(s) && IsName(name) && w.maxWords >= 1
    ensures ParseTokens(s, [Bare(name)], w) == s.(log := s.log + [[name]], fail := !w.exec(s.log, [name]))
    ensures TokensFail(s, [Bare(name)], w) <==> !w.exec(s.log, [name])
  {
    var words := ExpandAll([Bare(name)], s.fail, s.log, w);
    assert words == [name];
    assert IfThenElse(s, words) == Left(s, words);
    assert Argv(words, w) == words;
  }

  /** A failing `if` test does not stop a script. */
  lemma TestNeverStops(s: Nsh, test: string, w: World)
    requires Runs(s) && s.ndx + 1 < |s.st| && w.maxWords >= 2 && IsName(test)
    ensures !TokensFail(s, [Bare("if"), Bare(test)], w)
    ensures !Play(s, [[Bare("if"), Bare(test)]], w).stopped
  {
    var words := ExpandAll([Bare("if"), Bare(test)], s.fail, s.log, w);
    assert words == ["if", test] && words[1..] == [test];
    assert IfThenElse(s, words) == Left(Push(s), [test]);
    assert [[Bare("if"), Bare(test)]][1..] == [];
  }
}
