/** How deep conditionals may nest: a program's lines are all accepted if and only if the stack has a level
    for each conditional open at once. */
module NshDepth {
  import opened NshTokens
  import opened NshParser
  import opened NshScript

  /** The line is wrong where it stands. */
  predicate LineRefused(s: Nsh, line: seq<Token>, w: World)
    requires StackOk(s) && NoEnd(line)
  {
    IfThenElse(s, ExpandAll(line, s.fail, s.log, w)).Wrong?
  }

  /** Some line is wrong when it is reached. */
  predicate Refused(s: Nsh, lines: seq<seq<Token>>, w: World)
    requires StackOk(s) && LinesOk(lines)
    decreases lines
  {
    lines != [] && (LineRefused(s, lines[0], w) || Refused(ParseTokens(s, lines[0], w), lines[1..], w))
  }

  lemma {:induction false} RefusedConcat(s: Nsh, a: seq<seq<Token>>, b: seq<seq<Token>>, w: World)
    requires StackOk(s) && LinesOk(a) && LinesOk(b)
    ensures LinesOk(a + b)
    ensures Refused(s, a + b, w) <==> Refused(s, a, w) || Refused(ParseLines(s, a, w), b, w)
    decreases a
  {
    hide LineRefused, ParseTokens;
    if a == [] {
      assert a + b == b;
    } else {
      assert (a + b)[0] == a[0] && (a + b)[1..] == a[1..] + b;
      RefusedConcat(ParseTokens(s, a[0], w), a[1..], b, w);
    }
  }

  lemma RefusedLine(s: Nsh, line: seq<Token>, more: seq<seq<Token>>, w: World)
    requires StackOk(s) && NoEnd(line) && LinesOk(more)
    ensures LinesOk([line] + more)
    ensures Refused(s, [line] + more, w) <==> LineRefused(s, line, w) || Refused(ParseTokens(s, line, w), more, w)
  {
    hide LineRefused, ParseTokens;
    assert ([line] + more)[1..] == more;
  }

  lemma PlainAccepted(s: Nsh, command: seq<Token>, w: World)
    requires StackOk(s) && s.st[s.ndx].kind != If && Plain(command)
    ensures !LineRefused(s, command, w)
  {
    assert ExpandAll(command, s.fail, s.log, w)[0] == command[0].text;
  }

  lemma IfRefusedIff(s: Nsh, test: seq<Token>, w: World)
    requires StackOk(s) && s.st[s.ndx].kind != If && test != [] && NoEnd(test)
    ensures NoEnd([Keyword("if")] + test)
    ensures LineRefused(s, [Keyword("if")] + test, w) <==> s.ndx + 1 >= |s.st|
  {
    assert ExpandAll([Keyword("if")] + test, s.fail, s.log, w)[0] == "if";
  }

  lemma KeywordAccepted(s: Nsh, name: string, w: World)
    requires StackOk(s) && name in {"then", "else", "fi"}
    requires name == "then" ==> s.st[s.ndx].kind == If
    requires name == "else" ==> s.st[s.ndx].kind == Then
    requires name == "fi" ==> Branch(s.st[s.ndx].kind) && s.ndx >= 1
    ensures !LineRefused(s, [Keyword(name)], w)
  {
    assert ExpandAll([Keyword(name)], s.fail, s.log, w) == [name];
  }

  /** The head of a conditional is accepted if there is a level for it. */
  lemma HeadAccepted(s: Nsh, test: seq<Token>, w: World)
    requires StackOk(s) && s.st[s.ndx].kind != If && s.ndx + 1 < |s.st| && test != [] && NoEnd(test)
    ensures LinesOk([[Keyword("if")] + test] + [[Keyword("then")]])
    ensures !Refused(s, [[Keyword("if")] + test] + [[Keyword("then")]], w)
  {
    var a, b := [Keyword("if")] + test, [Keyword("then")];
    IfRefusedIff(s, test, w);
    IfLine(s, test, w);
    KeywordAccepted(Opened(s, test, w), "then", w);
    RefusedLine(s, a, [b], w);
    RefusedLine(Opened(s, test, w), b, [], w);
    assert [b] == [b] + [];
  }

  lemma PlainKeepsStack(s: Nsh, command: seq<Token>, w: World)
    requires StackOk(s) && s.st[s.ndx].kind != If && Plain(command)
    ensures ParseTokens(s, command, w).ndx == s.ndx && ParseTokens(s, command, w).st == s.st
  {
    PlainLine(s, command, w);
  }

  /** Some line of a program is refused if and only if its conditionals nest deeper than the stack has
      room for, whatever its commands do and whether or not the conditionals are reached. */
  lemma {:induction false} RefusedIffTooDeep(s: Nsh, p: Prog, w: World)
    requires StackOk(s) && s.st[s.ndx].kind != If && WellFormed(p)
    ensures Refused(s, Lines(p), w) <==> s.ndx + Depth(p) >= |s.st|
    decreases p, 3
  {
    hide ParseTokens, LineRefused;
    match p
    case Done =>
    case Run(command, next) =>
      PlainKeepsStack(s, command, w);
      PlainAccepted(s, command, w);
      RefusedLine(s, command, Lines(next), w);
      RefusedIffTooDeep(ParseTokens(s, command, w), next, w);
    case Cond(test, _, _, _) =>
      CondLines(p);
      if s.ndx + 1 < |s.st| {
        CondRefusedIff(s, p, w);
      } else {
        IfRefusedIff(s, test, w);
        assert Lines(p)[0] == [Keyword("if")] + test;
      }
  }

  lemma {:induction false} CondRefusedIff(s: Nsh, p: Prog, w: World)
    requires StackOk(s) && s.st[s.ndx].kind != If && p.Cond? && WellFormed(p) && s.ndx + 1 < |s.st|
    ensures Refused(s, Lines(p), w) <==> s.ndx + Depth(p) >= |s.st|
    decreases p, 2
  {
    hide ParseTokens, LineRefused, InBranch, RunOne, Exec, EffectOf;
    var opening := [[Keyword("if")] + p.test] + [[Keyword("then")]];
    var branches := BranchLines(p.thn, p.els);
    HeadAccepted(s, p.test, w);
    IntoThen(s, p.test, w);
    var t := ParseLines(s, opening, w);
    var failed := Enabled(s) && RunOne(p.test, EffectOf(s), w).fail;
    BranchesRefusedIff(s, t, failed, p, w);
    CondLines(p);
    RefusedConcat(s, opening, branches + Lines(p.next), w);
    RefusedConcat(t, branches, Lines(p.next), w);
    if !Refused(t, branches, w) {
      BranchesRun(s, t, failed, Cond(p.test, p.thn, p.els, Done), w);
      var u := ParseLines(t, branches, w);
      SameTop(s, u);
      RefusedIffTooDeep(u, p.next, w);
    }
  }

  function BranchDepth(p: Prog): nat
    requires p.Cond?
  {
    1 + Max(Depth(p.thn), if p.els.Some? then Depth(p.els.value) else 0)
  }

  lemma {:induction false} BranchesRefusedIff(s: Nsh, t: Nsh, failed: bool, p: Prog, w: World)
    requires StackOk(s) && InBranch(s, t, Then, failed) && p.Cond? && WellFormed(p)
    ensures Refused(t, BranchLines(p.thn, p.els), w) <==> s.ndx + BranchDepth(p) >= |s.st|
    decreases p, 1
  {
    hide ParseTokens, LineRefused, Exec;
    var closing := (if p.els.Some? then [[Keyword("else")]] + Lines(p.els.value) else []) + [[Keyword("fi")]];
    RefusedIffTooDeep(t, p.thn, w);
    RefusedConcat(t, Lines(p.thn), closing, w);
    if !Refused(t, Lines(p.thn), w) {
      LinesRunProgram(t, p.thn, w);
      var t1 := ParseLines(t, Lines(p.thn), w);
      StaysInBranch(s, t, t1, Then, failed);
      if p.els.Some? {
        ElseRefusedIff(s, t1, failed, p, w);
      } else {
        assert closing == [[Keyword("fi")]];
        EndAccepted(s, t1, Then, failed, w);
      }
    }
  }

  lemma EndAccepted(s: Nsh, t: Nsh, kind: Kind, failed: bool, w: World)
    requires StackOk(s) && Branch(kind) && InBranch(s, t, kind, failed)
    ensures !Refused(t, [[Keyword("fi")]], w)
  {
    hide ParseTokens, LineRefused;
    KeywordAccepted(t, "fi", w);
    RefusedLine(t, [Keyword("fi")], [], w);
    assert [[Keyword("fi")]] == [[Keyword("fi")]] + [];
  }

  lemma {:induction false} ElseRefusedIff(s: Nsh, t: Nsh, failed: bool, p: Prog, w: World)
    requires StackOk(s) && InBranch(s, t, Then, failed) && p.Cond? && p.els.Some? && WellFormed(p)
    ensures LinesOk([[Keyword("else")]] + Lines(p.els.value) + [[Keyword("fi")]])
    ensures Refused(t, [[Keyword("else")]] + Lines(p.els.value) + [[Keyword("fi")]], w) <==>
            s.ndx + 1 + Depth(p.els.value) >= |s.st|
    decreases p, 0
  {
    hide ParseTokens, LineRefused, Exec;
    var lines := Lines(p.els.value);
    IntoElse(s, t, failed, w);
    KeywordAccepted(t, "else", w);
    var t1 := ParseTokens(t, [Keyword("else")], w);
    RefusedLine(t, [Keyword("else")], lines + [[Keyword("fi")]], w);
    assert [[Keyword("else")]] + lines + [[Keyword("fi")]] == [[Keyword("else")]] + (lines + [[Keyword("fi")]]);
    RefusedIffTooDeep(t1, p.els.value, w);
    RefusedConcat(t1, lines, [[Keyword("fi")]], w);
    if !Refused(t1, lines, w) {
      LinesRunProgram(t1, p.els.value, w);
      var t2 := ParseLines(t1, lines, w);
      StaysInBranch(s, t1, t2, Else, failed);
      EndAccepted(s, t2, Else, failed, w);
    }
  }
}
