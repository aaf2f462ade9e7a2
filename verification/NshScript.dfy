/** Structured programs of commands and nested conditionals, what they mean, and the proof that feeding
    their lines to the interpreter one by one does exactly that. */
module NshScript {
  import opened NshTokens
  import opened NshParser

  /** Commands and conditionals in sequence. */
  datatype Prog =
    | Done
    | Run(command: seq<Token>, next: Prog)
    | Cond(test: seq<Token>, thn: Prog, els: Option<Prog>, next: Prog)

  const KEYWORDS: set<string> := {"if", "then", "else", "fi"}

  /** A command whose name is written out and is not a control word. */
  predicate Plain(command: seq<Token>) {
    command != [] && NoEnd(command) && command[0].Word? && command[0].text !in KEYWORDS &&
    (command[0].quoted || command[0].text == "" || command[0].text[0] != '$')
  }

  predicate WellFormed(p: Prog) {
    match p
    case Done => true
    case Run(command, next) => Plain(command) && WellFormed(next)
    case Cond(test, thn, els, next) =>
      test != [] && NoEnd(test) && WellFormed(thn) && (els.Some? ==> WellFormed(els.value)) && WellFormed(next)
  }

  function Max(a: nat, b: nat): nat {
    if a < b then b else a
  }

  /** How deep conditionals nest. */
  function Depth(p: Prog): nat {
    match p
    case Done => 0
    case Run(_, next) => Depth(next)
    case Cond(_, thn, els, next) =>
      Max(1 + Max(Depth(thn), if els.Some? then Depth(els.value) else 0), Depth(next))
  }

  /** Commands run so far and `$?`. */
  datatype Effect = Effect(log: seq<Command>, fail: bool)

  function RunOne(command: seq<Token>, e: Effect, w: World): Effect
    requires NoEnd(command)
  {
    var argv := Argv(ExpandAll(command, e.fail, e.log, w), w);
    Effect(e.log + [argv], !w.exec(e.log, argv))
  }

  /** What a program does: each command in turn; a conditional runs its test, clears `$?`, and runs the
      one branch the test selects. */
  function Exec(p: Prog, e: Effect, w: World): Effect
    requires WellFormed(p)
  {
    match p
    case Done => e
    case Run(command, next) => Exec(next, RunOne(command, e, w), w)
    case Cond(test, thn, els, next) =>
      var tested := RunOne(test, e, w);
      var cleared := tested.(fail := false);
      var branched :=
        if !tested.fail then Exec(thn, cleared, w)
        else if els.Some? then Exec(els.value, cleared, w)
        else cleared;
      Exec(next, branched, w)
  }

  function Keyword(name: string): Token {
    Word(name, false)
  }

  /** The program as lines. */
  function Lines(p: Prog): (lines: seq<seq<Token>>)
    requires WellFormed(p)
    ensures LinesOk(lines)
  {
    match p
    case Done => []
    case Run(command, next) => [command] + Lines(next)
    case Cond(test, thn, els, next) =>
      [[Keyword("if")] + test] + ([[Keyword("then")]] + (Lines(thn) +
      ((if els.Some? then [[Keyword("else")]] + Lines(els.value) else []) +
      ([[Keyword("fi")]] + Lines(next)))))
  }

  lemma {:induction false} ParseLinesConcat(s: Nsh, a: seq<seq<Token>>, b: seq<seq<Token>>, w: World)
    requires StackOk(s) && LinesOk(a) && LinesOk(b)
    ensures LinesOk(a + b) && ParseLines(s, a + b, w) == ParseLines(ParseLines(s, a, w), b, w)
    decreases a
  {
    if a == [] {
      assert a + b == b;
    } else {
      assert (a + b)[0] == a[0] && (a + b)[1..] == a[1..] + b;
      ParseLinesConcat(ParseTokens(s, a[0], w), a[1..], b, w);
    }
  }

  // ----- single lines

  function EffectOf(s: Nsh): Effect {
    Effect(s.log, s.fail)
  }

  lemma PlainLine(s: Nsh, command: seq<Token>, w: World)
    requires StackOk(s) && s.st[s.ndx].kind != If && Plain(command)
    ensures ParseTokens(s, command, w) ==
            if Enabled(s) then var e := RunOne(command, EffectOf(s), w); s.(log := e.log, fail := e.fail) else s
  {
    var words := ExpandAll(command, s.fail, s.log, w);
    assert words[0] == command[0].text;
    assert IfThenElse(s, words) == Left(s, words);
  }

  /** An `if` line opens a level; its test runs only if the line is reached. */
  function Opened(s: Nsh, test: seq<Token>, w: World): Nsh
    requires StackOk(s) && s.ndx + 1 < |s.st| && NoEnd(test)
  {
    var s1 := Push(s);
    if Enabled(s) then
      var e := RunOne(test, EffectOf(s), w);
      s1.(log := e.log, fail := false, st := s1.st[s1.ndx := Slot(If, false, e.fail)])
    else s1
  }

  /** An `if` line opens a level exactly if the stack has room for one more. Otherwise it is refused, all
      levels are dropped and the shell is enabled again. */
  lemma IfLine(s: Nsh, test: seq<Token>, w: World)
    requires StackOk(s) && s.st[s.ndx].kind != If && test != [] && NoEnd(test)
    ensures NoEnd([Keyword("if")] + test)
    ensures var t := ParseTokens(s, [Keyword("if")] + test, w);
            (t.ndx == s.ndx + 1 <==> s.ndx + 1 < |s.st|) &&
            t == (if s.ndx + 1 < |s.st| then Opened(s, test, w) else Reset(s).(fail := true)) &&
            (s.ndx + 1 == |s.st| ==> Enabled(t))
  {
    var line := [Keyword("if")] + test;
    var words := ExpandAll(line, s.fail, s.log, w);
    assert words[0] == "if";
    assert words[1..] == ExpandAll(test, s.fail, s.log, w);
    if s.ndx + 1 < |s.st| {
      assert IfThenElse(s, words) == Left(Push(s), words[1..]);
    } else {
      assert IfThenElse(s, words) == Wrong(Reset(s));
    }
  }

  lemma KeywordLine(s: Nsh, name: string, w: World)
    requires StackOk(s) && name in {"then", "else", "fi"}
    requires name == "then" ==> s.st[s.ndx].kind == If
    requires name == "else" ==> s.st[s.ndx].kind == Then
    requires name == "fi" ==> Branch(s.st[s.ndx].kind) && s.ndx >= 1
    ensures ParseTokens(s, [Keyword(name)], w) ==
            if name == "then" then Retag(s, Then) else if name == "else" then Retag(s, Else) else s.(ndx := s.ndx - 1)
  {
    assert ExpandAll([Keyword(name)], s.fail, s.log, w) == [name];
  }

  // ----- whole programs

  /** The stack below and at the top of `s` is as it was. */
  predicate SameStack(s: Nsh, t: Nsh)
    requires StackOk(s)
  {
    t.ndx == s.ndx && |t.st| == |s.st| && t.st[..s.ndx + 1] == s.st[..s.ndx + 1]
  }

  /** Between `s` and `t` the program `p` ran, if `s` lets commands through, and nothing happened otherwise. */
  predicate Ran(s: Nsh, t: Nsh, p: Prog, w: World)
    requires StackOk(s) && WellFormed(p)
  {
    SameStack(s, t) && EffectOf(t) == if Enabled(s) then Exec(p, EffectOf(s), w) else EffectOf(s)
  }

  lemma SameTop(s: Nsh, t: Nsh)
    requires StackOk(s) && SameStack(s, t)
    ensures StackOk(t) && t.st[t.ndx] == s.st[s.ndx] && Enabled(t) == Enabled(s)
  {
    assert t.st[..s.ndx + 1][s.ndx] == s.st[..s.ndx + 1][s.ndx];
  }

  lemma SameStackTransitive(s: Nsh, t: Nsh, u: Nsh)
    requires StackOk(s) && SameStack(s, t) && StackOk(t) && SameStack(t, u)
    ensures SameStack(s, u)
  {
  }

  /** Closing a level whose slots below were kept gives the stack back. */
  lemma ClosedLevel(s: Nsh, t: Nsh)
    requires StackOk(s) && |t.st| == |s.st| && t.ndx == s.ndx + 1 < |t.st| && t.st[..s.ndx + 1] == s.st[..s.ndx + 1]
    ensures SameStack(s, t.(ndx := s.ndx))
  {
  }

  /** The state inside a branch of a conditional met in `s`. */
  predicate InBranch(s: Nsh, t: Nsh, kind: Kind, failed: bool)
    requires StackOk(s)
  {
    |t.st| == |s.st| && t.ndx == s.ndx + 1 < |t.st| && t.st[..s.ndx + 1] == s.st[..s.ndx + 1] &&
    t.st[t.ndx] == Slot(kind, !Enabled(s), failed)
  }

  lemma IntoThen(s: Nsh, test: seq<Token>, w: World)
    requires StackOk(s) && s.st[s.ndx].kind != If && s.ndx + 1 < |s.st| && test != [] && NoEnd(test)
    ensures LinesOk([[Keyword("if")] + test] + [[Keyword("then")]])
    ensures var t := ParseLines(s, [[Keyword("if")] + test] + [[Keyword("then")]], w);
            var e := RunOne(test, EffectOf(s), w);
            InBranch(s, t, Then, Enabled(s) && e.fail) &&
            EffectOf(t) == if Enabled(s) then e.(fail := false) else EffectOf(s)
  {
    var a, b := [Keyword("if")] + test, [Keyword("then")];
    IfLine(s, test, w);
    var s1 := Opened(s, test, w);
    KeywordLine(s1, "then", w);
    assert ([a] + [b])[1..] == [b] && [b][1..] == [];
    assert ParseLines(s, [a] + [b], w) == ParseLines(s1, [b], w) == Retag(s1, Then);
  }

  lemma IntoElse(s: Nsh, t: Nsh, failed: bool, w: World)
    requires StackOk(s) && InBranch(s, t, Then, failed)
    ensures InBranch(s, ParseTokens(t, [Keyword("else")], w), Else, failed)
    ensures EffectOf(ParseTokens(t, [Keyword("else")], w)) == EffectOf(t)
  {
    KeywordLine(t, "else", w);
  }

  lemma OutOfBranch(s: Nsh, t: Nsh, kind: Kind, failed: bool, w: World)
    requires StackOk(s) && Branch(kind) && InBranch(s, t, kind, failed)
    ensures SameStack(s, ParseTokens(t, [Keyword("fi")], w))
    ensures EffectOf(ParseTokens(t, [Keyword("fi")], w)) == EffectOf(t)
  {
    KeywordLine(t, "fi", w);
    ClosedLevel(s, t);
  }

  lemma StaysInBranch(s: Nsh, t: Nsh, u: Nsh, kind: Kind, failed: bool)
    requires StackOk(s) && InBranch(s, t, kind, failed) && SameStack(t, u)
    ensures InBranch(s, u, kind, failed)
  {
    SameTop(t, u);
    assert u.st[..s.ndx + 1] == u.st[..t.ndx + 1][..s.ndx + 1] == t.st[..t.ndx + 1][..s.ndx + 1];
  }

  lemma OneLine(s: Nsh, line: seq<Token>, more: seq<seq<Token>>, w: World)
    requires StackOk(s) && NoEnd(line) && LinesOk(more)
    ensures LinesOk([line] + more) && ParseLines(s, [line] + more, w) == ParseLines(ParseTokens(s, line, w), more, w)
  {
    assert ([line] + more)[1..] == more;
  }

  /** The branches of a conditional, from behind `then` to behind `fi`. */
  function BranchLines(thn: Prog, els: Option<Prog>): (lines: seq<seq<Token>>)
    requires WellFormed(thn) && (els.Some? ==> WellFormed(els.value))
    ensures LinesOk(lines)
  {
    Lines(thn) + ((if els.Some? then [[Keyword("else")]] + Lines(els.value) else []) + [[Keyword("fi")]])
  }

  /** Feeding a program's lines to the interpreter runs exactly what the program means, in a level that
      lets commands through, and nothing otherwise; the stack is left as it was. */
  lemma {:induction false} LinesRunProgram(s: Nsh, p: Prog, w: World)
    requires StackOk(s) && s.st[s.ndx].kind != If && WellFormed(p) && s.ndx + Depth(p) < |s.st|
    ensures Ran(s, ParseLines(s, Lines(p), w), p, w)
    decreases p, 1
  {
    hide ParseTokens, RunOne, InBranch, Opened;
    match p
    case Done =>
    case Run(command, next) =>
      PlainLine(s, command, w);
      OneLine(s, command, Lines(next), w);
      LinesRunProgram(ParseTokens(s, command, w), next, w);
    case Cond(test, thn, els, next) =>
      var opening := [[Keyword("if")] + test] + [[Keyword("then")]];
      IntoThen(s, test, w);
      var t := ParseLines(s, opening, w);
      var failed := Enabled(s) && RunOne(test, EffectOf(s), w).fail;
      BranchesRun(s, t, failed, p, w);
      var u := ParseLines(t, BranchLines(thn, els), w);
      SameTop(s, u);
      LinesRunProgram(u, next, w);
      SameStackTransitive(s, u, ParseLines(u, Lines(next), w));
      ParseLinesConcat(t, BranchLines(thn, els), Lines(next), w);
      ParseLinesConcat(s, opening, BranchLines(thn, els) + Lines(next), w);
      CondLines(p);
  }

  lemma Regroup<T>(a: seq<T>, b: seq<T>, c: seq<T>, d: seq<T>, e: seq<T>, f: seq<T>)
    ensures a + (b + (c + (d + (e + f)))) == a + b + (c + (d + e) + f)
  {
    assert c + (d + (e + f)) == c + (d + e) + f;
    assert a + (b + (c + (d + e) + f)) == a + b + (c + (d + e) + f);
  }

  lemma CondLines(p: Prog)
    requires p.Cond? && WellFormed(p)
    ensures Lines(p) == [[Keyword("if")] + p.test] + [[Keyword("then")]] + (BranchLines(p.thn, p.els) + Lines(p.next))
  {
    var els := if p.els.Some? then [[Keyword("else")]] + Lines(p.els.value) else [];
    Regroup([[Keyword("if")] + p.test], [[Keyword("then")]], Lines(p.thn), els, [[Keyword("fi")]], Lines(p.next));
  }

  lemma {:induction false} BranchesRun(s: Nsh, t: Nsh, failed: bool, p: Prog, w: World)
    requires StackOk(s) && InBranch(s, t, Then, failed) && p.Cond? && WellFormed(p) && s.ndx + Depth(p) < |s.st|
    ensures var u := ParseLines(t, BranchLines(p.thn, p.els), w);
            SameStack(s, u) &&
            EffectOf(u) == if !Enabled(s) then EffectOf(t)
                           else if !failed then Exec(p.thn, EffectOf(t), w)
                           else if p.els.Some? then Exec(p.els.value, EffectOf(t), w)
                           else EffectOf(t)
    decreases p, 0
  {
    hide ParseTokens, Opened;
    var thn, els := p.thn, p.els;
    LinesRunProgram(t, thn, w);
    var t1 := ParseLines(t, Lines(thn), w);
    StaysInBranch(s, t, t1, Then, failed);
    var closing := [[Keyword("fi")]];
    if els.Some? {
      var opening := [[Keyword("else")]];
      IntoElse(s, t1, failed, w);
      var t2 := ParseTokens(t1, [Keyword("else")], w);
      LinesRunProgram(t2, els.value, w);
      var t3 := ParseLines(t2, Lines(els.value), w);
      StaysInBranch(s, t2, t3, Else, failed);
      OutOfBranch(s, t3, Else, failed, w);
      OneLine(t3, [Keyword("fi")], [], w);
      assert closing == [[Keyword("fi")]] + [];
      OneLine(t1, [Keyword("else")], Lines(els.value), w);
      ParseLinesConcat(t1, opening + Lines(els.value), closing, w);
      ParseLinesConcat(t, Lines(thn), opening + Lines(els.value) + closing, w);
    } else {
      OutOfBranch(s, t1, Then, failed, w);
      OneLine(t1, [Keyword("fi")], [], w);
      assert closing == [[Keyword("fi")]] + [];
      assert [] + closing == closing;
      ParseLinesConcat(t, Lines(thn), closing, w);
    }
  }

  /** One level too many: the `if` is refused, all levels are dropped and the shell is enabled again, even
      when the `if` stood in a branch that was being skipped. */
  lemma TooDeepIfDropsAllLevels(s: Nsh, test: seq<Token>, w: World)
    requires Inv(s) && s.ndx == |s.st| - 1 && s.st[s.ndx].kind != If && NoEnd(test)
    ensures NoEnd([Keyword("if")] + test)
    ensures ParseTokens(s, [Keyword("if")] + test, w) == Reset(s).(fail := true)
    ensures Enabled(ParseTokens(s, [Keyword("if")] + test, w))
  {
    var words := ExpandAll([Keyword("if")] + test, s.fail, s.log, w);
    assert words[0] == "if";
  }

  // ----- programs as text

  /** The tokens of the lines that hold any; blank and comment lines drop out. */
  function Significant(texts: seq<string>): (lines: seq<seq<Token>>)
    requires forall i :: 0 <= i < |texts| ==> Scannable(texts[i])
    ensures LinesOk(lines)
    decreases texts
  {
    if texts == [] then []
    else
      TokensNoEnd(texts[0]);
      (if Tokens(texts[0]) == [] then [] else [Tokens(texts[0])]) + Significant(texts[1..])
  }

  function ParseTexts(s: Nsh, texts: seq<string>, w: World): (t: Nsh)
    requires StackOk(s) && forall i :: 0 <= i < |texts| ==> Scannable(texts[i])
    ensures StackOk(t) && |t.st| == |s.st|
    decreases texts
  {
    if texts == [] then s
    else
      TokensNoEnd(texts[0]);
      ParseTexts(ParseTokens(s, Tokens(texts[0]), w), texts[1..], w)
  }

  lemma {:induction false} ParseTextsIsParseLines(s: Nsh, texts: seq<string>, w: World)
    requires StackOk(s) && forall i :: 0 <= i < |texts| ==> Scannable(texts[i])
    ensures ParseTexts(s, texts, w) == ParseLines(s, Significant(texts), w)
    decreases texts
  {
    if texts != [] {
      var line := Tokens(texts[0]);
      TokensNoEnd(texts[0]);
      ParseTextsIsParseLines(ParseTokens(s, line, w), texts[1..], w);
      if line == [] {
        assert Significant(texts) == Significant(texts[1..]);
      } else {
        OneLine(s, line, Significant(texts[1..]), w);
      }
    }
  }

  /** Any text whose lines read as the program's lines, however spaced, quoted or commented, runs it. */
  lemma TextRunsProgram(s: Nsh, texts: seq<string>, p: Prog, w: World)
    requires StackOk(s) && s.st[s.ndx].kind != If && WellFormed(p) && s.ndx + Depth(p) < |s.st|
    requires forall i :: 0 <= i < |texts| ==> Scannable(texts[i])
    requires Significant(texts) == Lines(p)
    ensures Ran(s, ParseTexts(s, texts, w), p, w)
  {
    ParseTextsIsParseLines(s, texts, w);
    LinesRunProgram(s, p, w);
  }

  // ----- programs printed

  predicate HoldTokens(lines: seq<seq<Token>>) {
    forall i :: 0 <= i < |lines| ==> lines[i] != []
  }

  lemma HoldTokensConcat(a: seq<seq<Token>>, b: seq<seq<Token>>)
    requires HoldTokens(a) && HoldTokens(b)
    ensures HoldTokens(a + b)
  {
  }

  lemma {:induction false} LinesHoldTokens(p: Prog)
    requires WellFormed(p)
    ensures HoldTokens(Lines(p))
    decreases p, 1
  {
    match p
    case Done =>
    case Run(command, next) =>
      LinesHoldTokens(next);
      HoldTokensConcat([command], Lines(next));
    case Cond(test, thn, els, next) =>
      CondLines(p);
      BranchLinesHoldTokens(p);
      LinesHoldTokens(next);
      HoldTokensConcat(BranchLines(thn, els), Lines(next));
      HoldTokensConcat([[Keyword("if")] + test] + [[Keyword("then")]], BranchLines(thn, els) + Lines(next));
  }

  lemma {:induction false} BranchLinesHoldTokens(p: Prog)
    requires p.Cond? && WellFormed(p)
    ensures HoldTokens(BranchLines(p.thn, p.els))
    decreases p, 0
  {
    var thn, els := p.thn, p.els;
    LinesHoldTokens(thn);
    var middle := if els.Some? then [[Keyword("else")]] + Lines(els.value) else [];
    if els.Some? {
      LinesHoldTokens(els.value);
      HoldTokensConcat([[Keyword("else")]], Lines(els.value));
    }
    HoldTokensConcat(middle, [[Keyword("fi")]]);
    HoldTokensConcat(Lines(thn), middle + [[Keyword("fi")]]);
  }

  /** Each line laid out somehow: its words quoted or bare, blanks between them, perhaps a comment behind. */
  ghost predicate LaidOut(layouts: seq<seq<Piece>>, tails: seq<string>, lines: seq<seq<Token>>) {
    |layouts| == |tails| == |lines| &&
    forall i :: 0 <= i < |lines| ==> Layout(layouts[i]) && TailOk(tails[i]) && WordsOf(layouts[i]) == lines[i]
  }

  function PrintLine(pieces: seq<Piece>, tail: string): string
    requires Layout(pieces)
  {
    Print(pieces, tail)
  }

  function PrintAll(layouts: seq<seq<Piece>>, tails: seq<string>, ghost lines: seq<seq<Token>>): (texts: seq<string>)
    requires LaidOut(layouts, tails, lines)
    ensures |texts| == |layouts|
  {
    seq(|layouts|, i requires 0 <= i < |layouts| => PrintLine(layouts[i], tails[i]))
  }

  lemma {:induction false} PrintedReadsBack(layouts: seq<seq<Piece>>, tails: seq<string>, lines: seq<seq<Token>>)
    requires LaidOut(layouts, tails, lines) && HoldTokens(lines)
    ensures var texts := PrintAll(layouts, tails, lines);
            (forall i :: 0 <= i < |texts| ==> Scannable(texts[i])) && Significant(texts) == lines
    decreases |lines|
  {
    hide Scannable, Tokens, TailOk, Layout, WordsOf;
    var texts := PrintAll(layouts, tails, lines);
    forall i | 0 <= i < |texts| ensures Scannable(texts[i]) && Tokens(texts[i]) == lines[i] {
      RoundTrip(layouts[i], tails[i]);
    }
    if lines != [] {
      PrintedReadsBack(layouts[1..], tails[1..], lines[1..]);
      assert texts[1..] == PrintAll(layouts[1..], tails[1..], lines[1..]);
      assert lines == [lines[0]] + lines[1..];
    }
  }

  /** A program printed in any layout and fed to the shell line by line runs as the program means. */
  lemma PrintedProgramRuns(s: Nsh, p: Prog, layouts: seq<seq<Piece>>, tails: seq<string>, w: World)
    requires StackOk(s) && s.st[s.ndx].kind != If && WellFormed(p) && s.ndx + Depth(p) < |s.st|
    requires LaidOut(layouts, tails, Lines(p))
    ensures var texts := PrintAll(layouts, tails, Lines(p));
            (forall i :: 0 <= i < |texts| ==> Scannable(texts[i])) && Ran(s, ParseTexts(s, texts, w), p, w)
  {
    hide Ran, Lines, LaidOut;
    LinesHoldTokens(p);
    PrintedReadsBack(layouts, tails, Lines(p));
    TextRunsProgram(s, PrintAll(layouts, tails, Lines(p)), p, w);
  }
}
