/** Running a script file: its lines are fed to the interpreter until one of them fails. What that means
    for a structured program, and in which state it leaves the shell. */
module NshRunner {
  import opened NshTokens
  import opened NshParser
  import opened NshScript

  /** Where a script has got to, and whether a failing line stopped it. */
  datatype Played = Played(state: Nsh, stopped: bool)

  predicate TokensFail(s: Nsh, line: seq<Token>, w: World)
    requires StackOk(s) && NoEnd(line)
  {
    LineFails(s, ExpandAll(line, s.fail, s.log, w), w)
  }

  function Play(s: Nsh, lines: seq<seq<Token>>, w: World): (r: Played)
    requires StackOk(s) && LinesOk(lines)
    ensures StackOk(r.state) && |r.state.st| == |s.st|
    decreases lines
  {
    if lines == [] then Played(s, false)
    else
      var t := ParseTokens(s, lines[0], w);
      if TokensFail(s, lines[0], w) then Played(t, true) else Play(t, lines[1..], w)
  }

  lemma {:induction false} PlayConcat(s: Nsh, a: seq<seq<Token>>, b: seq<seq<Token>>, w: World)
    requires StackOk(s) && LinesOk(a) && LinesOk(b)
    ensures LinesOk(a + b)
    ensures Play(s, a + b, w) == if Play(s, a, w).stopped then Play(s, a, w) else Play(Play(s, a, w).state, b, w)
    decreases a
  {
    if a == [] {
      assert a + b == b;
    } else {
      assert (a + b)[0] == a[0] && (a + b)[1..] == a[1..] + b;
      PlayConcat(ParseTokens(s, a[0], w), a[1..], b, w);
    }
  }

  lemma PlayLine(s: Nsh, line: seq<Token>, more: seq<seq<Token>>, w: World)
    requires StackOk(s) && NoEnd(line) && LinesOk(more)
    ensures LinesOk([line] + more)
    ensures Play(s, [line] + more, w) ==
            if TokensFail(s, line, w) then Played(ParseTokens(s, line, w), true)
            else Play(ParseTokens(s, line, w), more, w)
  {
    assert ([line] + more)[1..] == more;
  }

  // ----- what a program means when the first failing command stops it

  /** `depth` is how many conditionals were open around the command that failed. */
  datatype Outcome = Outcome(effect: Effect, stopped: bool, depth: nat)

  /** The outcome of a branch, seen from outside the conditional. */
  function OneDeeper(o: Outcome): Outcome {
    if o.stopped then o.(depth := o.depth + 1) else o
  }

  /** Like `Exec`, but a command that fails and is not an `if` test ends everything. */
  function Until(p: Prog, e: Effect, w: World): Outcome
    requires WellFormed(p)
  {
    match p
    case Done => Outcome(e, false, 0)
    case Run(command, next) =>
      var ran := RunOne(command, e, w);
      if ran.fail then Outcome(ran, true, 0) else Until(next, ran, w)
    case Cond(test, thn, els, next) =>
      var tested := RunOne(test, e, w);
      var cleared := tested.(fail := false);
      var branch :=
        if !tested.fail then Until(thn, cleared, w)
        else if els.Some? then Until(els.value, cleared, w)
        else Outcome(cleared, false, 0);
      if branch.stopped then OneDeeper(branch) else Until(next, branch.effect, w)
  }

  /** Up to where it stops, a script runs what the whole program would run. */
  lemma {:induction false} UntilIsExec(p: Prog, e: Effect, w: World)
    requires WellFormed(p)
    ensures Until(p, e, w).effect.log <= Exec(p, e, w).log
    ensures !Until(p, e, w).stopped ==> Until(p, e, w).effect == Exec(p, e, w)
    ensures Until(p, e, w).stopped ==> Until(p, e, w).effect.fail
    ensures e.log <= Exec(p, e, w).log
    decreases p
  {
    match p
    case Done =>
    case Run(command, next) => UntilIsExec(next, RunOne(command, e, w), w);
    case Cond(test, thn, els, next) =>
      var tested := RunOne(test, e, w);
      var cleared := tested.(fail := false);
      var branched := cleared;
      if !tested.fail {
        UntilIsExec(thn, cleared, w);
        branched := Exec(thn, cleared, w);
      } else if els.Some? {
        UntilIsExec(els.value, cleared, w);
        branched := Exec(els.value, cleared, w);
      }
      UntilIsExec(next, branched, w);
  }

  /** What a program comes to in state `s`: nothing happens in a level that is being skipped. */
  function Meant(s: Nsh, p: Prog, w: World): Outcome
    requires StackOk(s) && WellFormed(p)
  {
    if Enabled(s) then Until(p, EffectOf(s), w) else Outcome(EffectOf(s), false, 0)
  }

  /** From `s` the lines played to `r` as `o` says. Slots up to the one of `s` are as they were; a script
      that was stopped leaves every level open that was open around the failing command. */
  predicate Plays(s: Nsh, r: Played, o: Outcome)
    requires StackOk(s)
  {
    r.stopped == o.stopped && EffectOf(r.state) == o.effect && |r.state.st| == |s.st| &&
    r.state.st[..s.ndx + 1] == s.st[..s.ndx + 1] &&
    r.state.ndx == s.ndx + (if o.stopped then o.depth else 0)
  }

  lemma PlainFails(s: Nsh, command: seq<Token>, w: World)
    requires StackOk(s) && s.st[s.ndx].kind != If && Plain(command)
    ensures TokensFail(s, command, w) <==> Enabled(s) && RunOne(command, EffectOf(s), w).fail
  {
    var words := ExpandAll(command, s.fail, s.log, w);
    assert words[0] == command[0].text;
    assert IfThenElse(s, words) == Left(s, words);
  }

  lemma IfSucceeds(s: Nsh, test: seq<Token>, w: World)
    requires StackOk(s) && s.st[s.ndx].kind != If && s.ndx + 1 < |s.st| && test != [] && NoEnd(test)
    ensures NoEnd([Keyword("if")] + test) && !TokensFail(s, [Keyword("if")] + test, w)
  {
    var words := ExpandAll([Keyword("if")] + test, s.fail, s.log, w);
    assert words[0] == "if";
    assert IfThenElse(s, words) == Left(Push(s), words[1..]);
  }

  lemma KeywordSucceeds(s: Nsh, name: string, w: World)
    requires StackOk(s) && name in {"then", "else", "fi"}
    requires name == "then" ==> s.st[s.ndx].kind == If
    requires name == "else" ==> s.st[s.ndx].kind == Then
    requires name == "fi" ==> Branch(s.st[s.ndx].kind) && s.ndx >= 1
    ensures !TokensFail(s, [Keyword(name)], w)
  {
    assert ExpandAll([Keyword(name)], s.fail, s.log, w) == [name];
  }

  lemma PlayIntoThen(s: Nsh, test: seq<Token>, w: World)
    requires StackOk(s) && s.st[s.ndx].kind != If && s.ndx + 1 < |s.st| && test != [] && NoEnd(test)
    ensures LinesOk([[Keyword("if")] + test] + [[Keyword("then")]])
    ensures Play(s, [[Keyword("if")] + test] + [[Keyword("then")]], w) ==
            Played(ParseLines(s, [[Keyword("if")] + test] + [[Keyword("then")]], w), false)
  {
    var a, b := [Keyword("if")] + test, [Keyword("then")];
    IfLine(s, test, w);
    IfSucceeds(s, test, w);
    var s1 := Opened(s, test, w);
    KeywordSucceeds(s1, "then", w);
    PlayLine(s, a, [b], w);
    PlayLine(s1, b, [], w);
    OneLine(s, a, [b], w);
    OneLine(s1, b, [], w);
    assert [b] == [b] + [];
  }

  lemma SameBelow(s: Nsh, t: Nsh, u: Nsh)
    requires StackOk(s) && StackOk(t) && s.ndx <= t.ndx && |t.st| == |s.st| == |u.st|
    requires t.st[..s.ndx + 1] == s.st[..s.ndx + 1] && u.st[..t.ndx + 1] == t.st[..t.ndx + 1]
    ensures u.st[..s.ndx + 1] == s.st[..s.ndx + 1]
  {
    assert u.st[..s.ndx + 1] == u.st[..t.ndx + 1][..s.ndx + 1];
    assert t.st[..s.ndx + 1] == t.st[..t.ndx + 1][..s.ndx + 1];
  }

  /** Running a script's lines does what the program means up to its first failing command, and stops
      there with exactly the conditionals around that command still open. */
  lemma {:induction false} PlayRunsProgram(s: Nsh, p: Prog, w: World)
    requires StackOk(s) && s.st[s.ndx].kind != If && WellFormed(p) && s.ndx + Depth(p) < |s.st|
    ensures Plays(s, Play(s, Lines(p), w), Meant(s, p, w))
    decreases p, 3
  {
    match p
    case Done =>
    case Run(command, next) =>
      PlainLine(s, command, w);
      PlainFails(s, command, w);
      PlayLine(s, command, Lines(next), w);
      if !TokensFail(s, command, w) {
        PlayRunsProgram(ParseTokens(s, command, w), next, w);
      }
    case Cond(test, thn, els, next) =>
      PlayCond(s, p, w);
  }

  lemma PlaysThen(s: Nsh, r: Played, r2: Played, o: Outcome, o2: Outcome)
    requires StackOk(s) && Plays(s, r, o) && !r.stopped && StackOk(r.state) && Plays(r.state, r2, o2)
    ensures Plays(s, r2, o2)
  {
    SameBelow(s, r.state, r2.state);
  }

  /** Playing a conditional: its head, its branches, and what follows. */
  lemma PlayCondLines(s: Nsh, p: Prog, w: World)
    requires StackOk(s) && s.st[s.ndx].kind != If && p.Cond? && WellFormed(p) && s.ndx + 1 < |s.st|
    ensures LinesOk([[Keyword("if")] + p.test] + [[Keyword("then")]])
    ensures var t := ParseLines(s, [[Keyword("if")] + p.test] + [[Keyword("then")]], w);
            var r := Play(t, BranchLines(p.thn, p.els), w);
            Play(s, Lines(p), w) == if r.stopped then r else Play(r.state, Lines(p.next), w)
  {
    var opening := [[Keyword("if")] + p.test] + [[Keyword("then")]];
    PlayIntoThen(s, p.test, w);
    CondLines(p);
    PlayConcat(ParseLines(s, opening, w), BranchLines(p.thn, p.els), Lines(p.next), w);
    PlayConcat(s, opening, BranchLines(p.thn, p.els) + Lines(p.next), w);
  }

  lemma {:induction false} PlayCond(s: Nsh, p: Prog, w: World)
    requires StackOk(s) && s.st[s.ndx].kind != If && p.Cond? && WellFormed(p) && s.ndx + Depth(p) < |s.st|
    ensures Plays(s, Play(s, Lines(p), w), Meant(s, p, w))
    decreases p, 2
  {
    IntoThen(s, p.test, w);
    PlayCondLines(s, p, w);
    var t := ParseLines(s, [[Keyword("if")] + p.test] + [[Keyword("then")]], w);
    var failed := Enabled(s) && RunOne(p.test, EffectOf(s), w).fail;
    PlayBranches(s, t, failed, p, w);
    var r := Play(t, BranchLines(p.thn, p.els), w);
    if !r.stopped {
      SameTop(s, r.state);
      PlayRunsProgram(r.state, p.next, w);
      PlaysThen(s, r, Play(r.state, Lines(p.next), w), MeantBranches(s, t, failed, p, w), Meant(r.state, p.next, w));
    }
  }

  /** The outcome of the branches of `p` entered from `s`, seen from outside the conditional. */
  function MeantBranches(s: Nsh, t: Nsh, failed: bool, p: Prog, w: World): Outcome
    requires StackOk(s) && p.Cond? && WellFormed(p)
  {
    if !Enabled(s) then Outcome(EffectOf(t), false, 0)
    else
      OneDeeper(
        if !failed then Until(p.thn, EffectOf(t), w)
        else if p.els.Some? then Until(p.els.value, EffectOf(t), w)
        else Outcome(EffectOf(t), false, 0))
  }

  lemma {:induction false} PlayBranches(s: Nsh, t: Nsh, failed: bool, p: Prog, w: World)
    requires StackOk(s) && InBranch(s, t, Then, failed) && p.Cond? && WellFormed(p) && s.ndx + Depth(p) < |s.st|
    ensures Plays(s, Play(t, BranchLines(p.thn, p.els), w), MeantBranches(s, t, failed, p, w))
    decreases p, 1
  {
    var closing := (if p.els.Some? then [[Keyword("else")]] + Lines(p.els.value) else []) + [[Keyword("fi")]];
    PlayRunsProgram(t, p.thn, w);
    PlayConcat(t, Lines(p.thn), closing, w);
    var r := Play(t, Lines(p.thn), w);
    if r.stopped {
      StoppedInBranch(s, t, r, Then, failed, Meant(t, p.thn, w));
    } else {
      StaysInBranch(s, t, r.state, Then, failed);
      if p.els.Some? {
        PlayElse(s, r.state, failed, p, w);
      } else {
        assert closing == [[Keyword("fi")]];
        PlayOut(s, r.state, Then, failed, w);
      }
    }
  }

  lemma {:induction false} PlayElse(s: Nsh, t: Nsh, failed: bool, p: Prog, w: World)
    requires StackOk(s) && InBranch(s, t, Then, failed) && p.Cond? && p.els.Some? && WellFormed(p)
    requires s.ndx + Depth(p) < |s.st|
    ensures LinesOk([[Keyword("else")]] + Lines(p.els.value) + [[Keyword("fi")]])
    ensures Plays(s, Play(t, [[Keyword("else")]] + Lines(p.els.value) + [[Keyword("fi")]], w),
                  OneDeeper(if Enabled(s) && failed then Until(p.els.value, EffectOf(t), w)
                            else Outcome(EffectOf(t), false, 0)))
    decreases p, 0
  {
    var lines := Lines(p.els.value);
    IntoElse(s, t, failed, w);
    KeywordSucceeds(t, "else", w);
    var t1 := ParseTokens(t, [Keyword("else")], w);
    PlayLine(t, [Keyword("else")], lines + [[Keyword("fi")]], w);
    assert [[Keyword("else")]] + lines + [[Keyword("fi")]] == [[Keyword("else")]] + (lines + [[Keyword("fi")]]);
    PlayRunsProgram(t1, p.els.value, w);
    PlayConcat(t1, lines, [[Keyword("fi")]], w);
    var r := Play(t1, lines, w);
    if r.stopped {
      StoppedInBranch(s, t1, r, Else, failed, Meant(t1, p.els.value, w));
    } else {
      StaysInBranch(s, t1, r.state, Else, failed);
      PlayOut(s, r.state, Else, failed, w);
    }
  }

  lemma StoppedInBranch(s: Nsh, t: Nsh, r: Played, kind: Kind, failed: bool, o: Outcome)
    requires StackOk(s) && InBranch(s, t, kind, failed) && Plays(t, r, o) && r.stopped
    ensures Plays(s, r, OneDeeper(o))
  {
    SameBelow(s, t, r.state);
  }

  lemma PlayOut(s: Nsh, t: Nsh, kind: Kind, failed: bool, w: World)
    requires StackOk(s) && Branch(kind) && InBranch(s, t, kind, failed)
    ensures Plays(s, Play(t, [[Keyword("fi")]], w), Outcome(EffectOf(t), false, 0))
  {
    OutOfBranch(s, t, kind, failed, w);
    KeywordSucceeds(t, "fi", w);
    PlayLine(t, [Keyword("fi")], [], w);
    assert [[Keyword("fi")]] == [[Keyword("fi")]] + [];
  }

  /** A script leaves the shell's levels as it found them exactly if no command inside a branch failed. */
  lemma LevelsLeftOpenIff(s: Nsh, p: Prog, w: World)
    requires StackOk(s) && s.st[s.ndx].kind != If && WellFormed(p) && s.ndx + Depth(p) < |s.st|
    ensures SameStack(s, Play(s, Lines(p), w).state) <==> !Meant(s, p, w).stopped || Meant(s, p, w).depth == 0
  {
    PlayRunsProgram(s, p, w);
  }

  // ----- script files as text

  predicate TextsOk(texts: seq<string>) {
    forall i :: 0 <= i < |texts| ==> Scannable(texts[i])
  }

  function PlayTexts(s: Nsh, texts: seq<string>, w: World): (r: Played)
    requires StackOk(s) && TextsOk(texts)
    ensures StackOk(r.state) && |r.state.st| == |s.st|
    decreases texts
  {
    if texts == [] then Played(s, false)
    else
      TokensNoEnd(texts[0]);
      var t := ParseTokens(s, Tokens(texts[0]), w);
      if TokensFail(s, Tokens(texts[0]), w) then Played(t, true) else PlayTexts(t, texts[1..], w)
  }

  lemma {:induction false} PlayTextsIsPlay(s: Nsh, texts: seq<string>, w: World)
    requires StackOk(s) && TextsOk(texts)
    ensures PlayTexts(s, texts, w) == Play(s, Significant(texts), w)
    decreases texts
  {
    if texts != [] {
      var line := Tokens(texts[0]);
      TokensNoEnd(texts[0]);
      PlayTextsIsPlay(ParseTokens(s, line, w), texts[1..], w);
      if line == [] {
        assert Significant(texts) == Significant(texts[1..]);
      } else {
        PlayLine(s, line, Significant(texts[1..]), w);
      }
    }
  }

  /** Any script file whose lines read as the program's lines runs it up to its first failing command. */
  lemma ScriptRunsProgram(s: Nsh, texts: seq<string>, p: Prog, w: World)
    requires StackOk(s) && s.st[s.ndx].kind != If && WellFormed(p) && s.ndx + Depth(p) < |s.st|
    requires TextsOk(texts) && Significant(texts) == Lines(p)
    ensures Plays(s, PlayTexts(s, texts, w), Meant(s, p, w))
  {
    PlayTextsIsPlay(s, texts, w);
    PlayRunsProgram(s, p, w);
  }
}
