/** The shell as the program runs it: a stack updated in place, words pulled one at a time from a line
    buffer that the tokeniser cuts up, proved to do what the line model says. */
module NshShell {
  import opened NshTokens
  import opened NshBuffer
  import opened NshParser
  import opened NshScript
  import opened NshRunner
  import opened NshLaws

  lemma FirstFound(mem: seq<char>)
    requires Readable(mem)
    ensures var t := Scan(CString(mem, 0)).token;
            if t == End then FoundTokens(mem) == []
            else Readable(mem[Jump(mem)..]) && FoundTokens(mem) == [t] + FoundTokens(mem[Jump(mem)..])
  {
  }

  lemma ExpandMore(t: Token, more: seq<Token>, fail: bool, log: seq<Command>, w: World)
    requires t != End && NoEnd(more)
    ensures NoEnd([t] + more)
    ensures ExpandAll([t] + more, fail, log, w) == [Expand(t, fail, log, w)] + ExpandAll(more, fail, log, w)
  {
  }

  /** The words still to come, from the save pointer on, as the shell would expand them after `log`. */
  ghost function Words(mem: seq<char>, fail: bool, log: seq<Command>, w: World): seq<string>
    requires Readable(mem)
  {
    FoundNoEnd(mem);
    ExpandAll(FoundTokens(mem), fail, log, w)
  }

  lemma NextWords(mem: seq<char>, fail: bool, log: seq<Command>, w: World)
    requires Readable(mem)
    ensures var t := Scan(CString(mem, 0)).token;
            if t == End then Words(mem, fail, log, w) == [] && Readable(mem[Jump(mem)..])
            else Readable(mem[Jump(mem)..]) &&
                 Words(mem, fail, log, w) == [Expand(t, fail, log, w)] + Words(mem[Jump(mem)..], fail, log, w)
  {
    FirstFound(mem);
    if Scan(CString(mem, 0)).token == End {
      FoundEndStays(mem);
    } else {
      var more := mem[Jump(mem)..];
      FoundNoEnd(more);
      ExpandMore(Scan(CString(mem, 0)).token, FoundTokens(more), fail, log, w);
    }
  }

  /** A line of a name and `$?` adds the name and the outcome of the last command to the log. */
  lemma StatusWords(s: Nsh, mem: seq<char>, w: World)
    requires Readable(mem)
    ensures var found := FoundTokens(mem);
            Runs(s) && AsksStatus(found) && w.maxWords >= 2 ==>
              ParseWords(s, Words(mem, s.fail, s.log, w), w).log ==
              s.log + [[found[0].text, if s.fail then "1" else "0"]]
  {
    hide FoundTokens, IfThenElse, Readable;
    FoundNoEnd(mem);
    if Runs(s) && AsksStatus(FoundTokens(mem)) && w.maxWords >= 2 {
      StatusLine(s, FoundTokens(mem), w);
    }
  }

  lemma ParseRefused(s: Nsh, words: seq<string>, w: World)
    requires StackOk(s) && IfThenElse(s, words).Wrong?
    ensures var s1 := IfThenElse(s, words).state;
            StackOk(s1) && s1.st[s1.ndx].kind != If &&
            ParseWords(s, words, w) == SaveResult(s1, true) && LineFails(s, words, w)
  {
  }

  lemma ParseLeft(s: Nsh, words: seq<string>, s1: Nsh, command: seq<string>, w: World)
    requires StackOk(s) && IfThenElse(s, words) == Left(s1, command)
    ensures StackOk(s1)
    ensures command == [] || !Enabled(s1) ==> ParseWords(s, words, w) == s1 && !LineFails(s, words, w)
    ensures command != [] && Enabled(s1) ==>
              var argv := Argv(command, w);
              ParseWords(s, words, w) == SaveResult(s1.(log := s1.log + [argv]), !w.exec(s1.log, argv)) &&
              LineFails(s, words, w) == (!w.exec(s1.log, argv) && s1.st[s1.ndx].kind != If)
  {
  }

  lemma ArgvIs(argv: Command, rest: seq<string>, w: World)
    requires |argv| <= w.maxWords && (rest == [] || |argv| == w.maxWords)
    ensures Argv(argv + rest, w) == argv
  {
  }

  lemma MoveWord(argv: Command, word: string, rest: seq<string>)
    ensures argv + ([word] + rest) == argv + [word] + rest
  {
  }

  class Shell {
    const st: array<Slot>
    const w: World
    var ndx: nat
    var fail: bool
    /** The commands run, oldest first. */
    var log: seq<Command>

    ghost predicate Valid()
      reads this
    {
      ndx < st.Length && 1 <= w.maxWords
    }

    ghost function State(): (s: Nsh)
      requires Valid()
      reads this, st
      ensures StackOk(s)
    {
      Nsh(st[..], ndx, fail, log)
    }

    constructor (depth: nat, w: World)
      requires depth >= 1 && w.maxWords >= 1
      ensures Valid() && fresh(st) && st.Length == depth && this.w == w
      ensures Inv(State()) && ndx == 0 && !fail && log == []
    {
      st := new Slot[depth](_ => BOTTOM);
      this.w := w;
      ndx, fail, log := 0, false, [];
    }

    method CmdEnabled() returns (ret: bool)
      requires Valid()
      ensures ret == Enabled(State())
    {
      ret := !st[ndx].disabled;
      if ret {
        match st[ndx].kind
        case Then => ret := !st[ndx].failed;
        case Else => ret := st[ndx].failed;
        case _ =>
      }
    }

    /** The next word of the line, expanded, and the argument that stands for it. Words found earlier stay. */
    method NextWord(line: array<char>, save: nat) returns (word: Option<string>, next: nat, ghost arg: Arg)
      requires Valid() && save < line.Length && Readable(line[..][save..])
      modifies line
      ensures save <= next < line.Length && Readable(line[..][next..])
      ensures word.None? ==> Words(old(line[..][save..]), fail, log, w) == []
      ensures word.Some? ==>
                Words(old(line[..][save..]), fail, log, w) == [word.value] + Words(line[..][next..], fail, log, w) &&
                Denotes(line[..], arg, word.value, next)
      ensures word.Some? ==>
                old(FoundTokens(line[..][save..])) != [] &&
                ReadsAs(old(FoundTokens(line[..][save..]))[0], fail, log, w, word.value)
      ensures forall a, t :: Denotes(old(line[..]), a, t, save) ==> Denotes(line[..], a, t, next)
    {
      hide Words, FoundTokens, Jump, Scan, CString, Expand, ReadsAs;
      ghost var was, mem := line[..], line[..][save..];
      NextWords(mem, fail, log, w);
      var token, begin;
      token, begin, next := Argument(line, save);
      assert line[..][next..] == mem[Jump(mem)..];
      if token == End {
        word, arg := None, Constant("");
      } else {
        word := Some(Expand(token, fail, log, w));
        FirstFound(mem);
        ExpandReadsAs(token, fail, log, w);
        arg := if token.Word? && word.value == token.text then Pointer(begin) else Constant(word.value);
      }
      forall a, t | Denotes(was, a, t, save) ensures Denotes(line[..], a, t, next) {
        DenotesKept(was, line[..], a, t, save, next);
      }
    }

    method ResetStack()
      requires Valid()
      modifies this`ndx, st
      ensures Valid() && State() == Reset(old(State()))
    {
      ndx := 0;
      st[0] := BOTTOM;
    }

    /** Act on a control word. `cmd` is the first word; on success `left` is the command to go on with. */
    method ControlWord(cmd: Option<string>, line: array<char>, save: nat, ghost first: Arg)
      returns (ok: bool, left: Option<string>, next: nat, ghost arg: Arg)
      requires Valid() && save < line.Length && Readable(line[..][save..])
      requires cmd.Some? ==> Denotes(line[..], first, cmd.value, save)
      modifies this`ndx, st, line
      ensures Valid() && save <= next < line.Length && Readable(line[..][next..])
      ensures var words := if cmd.None? then [] else [cmd.value] + old(Words(line[..][save..], fail, log, w));
              var c := IfThenElse(old(State()), words);
              State() == After(c) && ok == c.Left? &&
              (ok ==> c.command == if left.None? then [] else [left.value] + Words(line[..][next..], fail, log, w))
      ensures ok && left.Some? ==> Denotes(line[..], arg, left.value, next)
    {
      hide Words, Readable, Denotes, FoundTokens, ReadsAs;
      arg := first;
      ok, left, next := true, cmd, save;
      if cmd.None? {
        return;
      }
      if cmd.value == "if" {
        left, next, arg := NextWord(line, save);
        if left.None? || st[ndx].kind == If || ndx >= st.Length - 1 {
          ok := false;
        } else {
          var enabled := CmdEnabled();
          ndx := ndx + 1;
          st[ndx] := Slot(If, !enabled, false);
        }
      } else if cmd.value == "then" {
        left, next, arg := NextWord(line, save);
        if left.Some? || st[ndx].kind != If {
          ok := false;
        } else {
          st[ndx] := st[ndx].(kind := Then);
        }
      } else if cmd.value == "else" {
        left, next, arg := NextWord(line, save);
        if left.Some? || st[ndx].kind != Then {
          ok := false;
        } else {
          st[ndx] := st[ndx].(kind := Else);
        }
      } else if cmd.value == "fi" {
        left, next, arg := NextWord(line, save);
        if left.Some? || (st[ndx].kind != Then && st[ndx].kind != Else) || ndx < 1 {
          ok := false;
        } else {
          ndx := ndx - 1;
        }
      } else if st[ndx].kind == If {
        ok := false;
      }
      if !ok {
        ResetStack();
      }
    }

    /** Record how a command went; only a failure that is not an `if` test's is an error of the line. */
    method SaveOutcome(failed: bool) returns (error: bool)
      requires Valid()
      modifies this`fail, st
      ensures Valid() && State() == SaveResult(old(State()), failed)
      ensures error == (failed && old(st[ndx]).kind != If)
    {
      error := failed && st[ndx].kind != If;
      if st[ndx].kind == If {
        fail := false;
        st[ndx] := st[ndx].(failed := failed);
      } else {
        fail := failed;
      }
    }

    /** Collect the argument vector. When all of it is collected, each argument still reads as its word. */
    method CollectArgs(cmd: string, line: array<char>, save: nat, ghost first: Arg)
      returns (argv: Command, next: nat, ghost args: seq<Arg>)
      requires Valid() && save < line.Length && Readable(line[..][save..]) && Denotes(line[..], first, cmd, save)
      modifies line
      ensures argv == Argv([cmd] + old(Words(line[..][save..], fail, log, w)), w)
      ensures |args| == |argv| && forall i :: 0 <= i < |argv| ==> Denotes(line[..], args[i], argv[i], next)
    {
      hide Words, Readable, Denotes, Argv, FoundTokens, ReadsAs;
      argv, next, args := [cmd], save, [first];
      ghost var command := [cmd] + Words(line[..][save..], fail, log, w);
      while |argv| < w.maxWords
        invariant next < line.Length && Readable(line[..][next..])
        invariant 1 <= |argv| <= w.maxWords && command == argv + Words(line[..][next..], fail, log, w)
        invariant |args| == |argv| && forall i :: 0 <= i < |argv| ==> Denotes(line[..], args[i], argv[i], next)
      {
        var word;
        ghost var arg;
        word, next, arg := NextWord(line, next);
        if word.None? {
          ArgvIs(argv, [], w);
          return;
        }
        MoveWord(argv, word.value, Words(line[..][next..], fail, log, w));
        argv, args := argv + [word.value], args + [arg];
      }
      ArgvIs(argv, Words(line[..][next..], fail, log, w), w);
    }

    /** Run the command whose name is `cmd` and record how it went. */
    method Execute(cmd: string, line: array<char>, save: nat, ghost first: Arg) returns (error: bool)
      requires Valid() && save < line.Length && Readable(line[..][save..]) && Denotes(line[..], first, cmd, save)
      modifies this`fail, this`log, st, line
      ensures Valid()
      ensures var s, argv := old(State()), Argv([cmd] + old(Words(line[..][save..], fail, log, w)), w);
              State() == SaveResult(s.(log := s.log + [argv]), !w.exec(s.log, argv)) &&
              error == (!w.exec(s.log, argv) && s.st[s.ndx].kind != If)
    {
      var argv, next;
      ghost var args;
      argv, next, args := CollectArgs(cmd, line, save, first);
      var success := w.exec(log, argv);
      log := log + [argv];
      error := SaveOutcome(!success);
    }

    /** Run what the control words left of a line, if anything is left and the stack lets it through. */
    method RunLeft(left: Option<string>, line: array<char>, save: nat, ghost arg: Arg) returns (error: bool)
      requires Valid() && save < line.Length && Readable(line[..][save..])
      requires left.Some? ==> Denotes(line[..], arg, left.value, save)
      modifies this`fail, this`log, st, line
      ensures Valid()
      ensures left.None? || !Enabled(old(State())) ==> State() == old(State()) && !error
      ensures left.Some? && Enabled(old(State())) ==>
                var s, argv := old(State()), Argv([left.value] + old(Words(line[..][save..], fail, log, w)), w);
                State() == SaveResult(s.(log := s.log + [argv]), !w.exec(s.log, argv)) &&
                error == (!w.exec(s.log, argv) && s.st[s.ndx].kind != If)
    {
      error := false;
      if left.Some? {
        var enabled := CmdEnabled();
        if enabled {
          error := Execute(left.value, line, save, arg);
        }
      }
    }

    /** Parse one line and run its command if the stack lets it through. */
    method Parse(line: array<char>) returns (error: bool)
      requires Valid() && line.Length > 0 && Readable(line[..][0..])
      modifies this, st, line
      ensures Valid() && State() == ParseWords(old(State()), old(Words(line[..][0..], fail, log, w)), w)
      ensures error == LineFails(old(State()), old(Words(line[..][0..], fail, log, w)), w)
      ensures var found := old(FoundTokens(line[..][0..]));
              old(Runs(State())) && AsksStatus(found) && w.maxWords >= 2 ==>
                log == old(log) + [[found[0].text, if old(fail) then "1" else "0"]]
    {
      hide Words, Readable, Denotes, FoundTokens, Runs, AsksStatus;
      ghost var s, words := State(), Words(line[..][0..], fail, log, w);
      StatusWords(s, line[..][0..], w);
      var cmd, save, first := NextWord(line, 0);
      var ok, left, next, arg := ControlWord(cmd, line, save, first);
      if ok {
        ghost var more := Words(line[..][next..], fail, log, w);
        ParseLeft(s, words, State(), if left.None? then [] else [left.value] + more, w);
        error := RunLeft(left, line, next, arg);
      } else {
        ParseRefused(s, words, w);
        error := SaveOutcome(true);
      }
    }

    /** Read one line of a file into the line buffer. */
    method ReadLine(text: string, line: array<char>)
      requires |text| < line.Length && forall i :: 0 <= i < |text| ==> text[i] != NUL
      modifies line
      ensures Terminated(line[..], 0) && CString(line[..], 0) == text
    {
      var i := 0;
      while i < |text|
        invariant 0 <= i <= |text| && line[..i] == text[..i]
      {
        line[i] := text[i];
        i := i + 1;
      }
      line[i] := NUL;
      assert line[..i] == text;
      forall k | 0 <= k < i ensures line[k] != NUL {
        assert line[k] == line[..i][k];
      }
      CStringIs(line[..], 0, i);
    }

    /** Read one line of a file and parse it. */
    method RunText(text: string, line: array<char>) returns (error: bool)
      requires Valid() && Scannable(text) && |text| < line.Length && NUL !in text
      modifies this, st, line
      ensures NoEnd(Tokens(text)) && Valid()
      ensures State() == ParseTokens(old(State()), Tokens(text), w)
      ensures error == TokensFail(old(State()), Tokens(text), w)
      ensures Inv(old(State())) ==> Inv(State())
    {
      hide Scannable, Tokens, Inv, ParseWords, LineFails;
      ghost var s := State();
      TokensNoEnd(text);
      ReadLine(text, line);
      ScannableIsReadable(line[..]);
      assert line[..][0..] == line[..];
      error := Parse(line);
      if Inv(s) {
        ParseKeepsInv(s, ExpandAll(Tokens(text), s.fail, s.log, w), w);
      }
    }

    /** Run a script file line by line until a line fails; a file without lines counts as failed. */
    method Script(texts: seq<string>, line: array<char>) returns (error: bool)
      requires Valid() && TextsOk(texts)
      requires forall i :: 0 <= i < |texts| ==> |texts[i]| < line.Length && NUL !in texts[i]
      modifies this, st, line
      ensures Valid() && Played(State(), error && texts != []) == PlayTexts(old(State()), texts, w)
      ensures texts == [] ==> error
      ensures Inv(old(State())) ==> Inv(State())
    {
      hide Tokens, Scannable, TokensFail, ParseTokens, Inv;
      error := true;
      var i := 0;
      var going := true;
      while i < |texts| && going
        invariant 0 <= i <= |texts| && Valid()
        invariant i > 0 ==> error == !going
        invariant i == 0 ==> error && going
        invariant Inv(old(State())) ==> Inv(State())
        invariant PlayTexts(old(State()), texts, w) ==
                  if going then PlayTexts(State(), texts[i..], w) else Played(State(), true)
      {
        assert texts[i..][1..] == texts[i + 1..];
        error := RunText(texts[i], line);
        going := !error;
        i := i + 1;
      }
    }
  }
}
