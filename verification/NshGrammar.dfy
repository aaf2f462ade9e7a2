/** Which sequences of lines the interpreter accepts: exactly the beginnings of well-nested programs. Lines are
    told apart by their words alone, so nothing here depends on how the interpreter keeps its stack. */
module NshGrammar {
  import opened NshTokens
  import opened NshParser

  /** What a line is, by its words: a control word that has to stand alone does, and `if` has something to test. */
  datatype Line = Command | IfTest | ThenAlone | ElseAlone | FiAlone | Malformed

  function LineOf(words: seq<string>): Line
    requires words != []
  {
    if words[0] == "if" then (if |words| > 1 then IfTest else Malformed)
    else if words[0] == "then" then (if |words| == 1 then ThenAlone else Malformed)
    else if words[0] == "else" then (if |words| == 1 then ElseAlone else Malformed)
    else if words[0] == "fi" then (if |words| == 1 then FiAlone else Malformed)
    else Command
  }

  /** Programs by their shape. */
  datatype Shape = Empty | Step(next: Shape) | Cond(thn: Shape, els: Option<Shape>, next: Shape)

  function LinesOf(sh: Shape): seq<Line>
    decreases sh, 1
  {
    match sh
    case Empty => []
    case Step(next) => [Command] + LinesOf(next)
    case Cond(_, _, next) => CondLines(sh) + LinesOf(next)
  }

  /** A conditional from its test to its end. */
  function CondLines(c: Shape): seq<Line>
    requires c.Cond?
    decreases c, 0
  {
    var thn := [IfTest] + [ThenAlone] + LinesOf(c.thn);
    (if c.els.Some? then thn + [ElseAlone] + LinesOf(c.els.value) else thn) + [FiAlone]
  }

  function Max(a: nat, b: nat): nat {
    if a < b then b else a
  }

  /** How many conditionals are open at once. */
  function Nesting(sh: Shape): nat {
    match sh
    case Empty => 0
    case Step(next) => Nesting(next)
    case Cond(thn, els, next) =>
      Max(1 + Max(Nesting(thn), if els.Some? then Nesting(els.value) else 0), Nesting(next))
  }

  // ----- programs put together from the front

  function Append(a: Shape, b: Shape): Shape {
    match a
    case Empty => b
    case Step(next) => Step(Append(next, b))
    case Cond(thn, els, next) => Cond(thn, els, Append(next, b))
  }

  lemma {:induction false} AppendLines(a: Shape, b: Shape)
    ensures LinesOf(Append(a, b)) == LinesOf(a) + LinesOf(b)
    ensures Nesting(Append(a, b)) == Max(Nesting(a), Nesting(b))
    decreases a
  {
    match a
    case Empty =>
      assert [] + LinesOf(b) == LinesOf(b);
    case Step(next) =>
      AppendLines(next, b);
      Associates([Command], LinesOf(next), LinesOf(b));
    case Cond(thn, els, next) =>
      AppendLines(next, b);
      SameCond(a, Append(a, b));
      Associates(CondLines(a), LinesOf(next), LinesOf(b));
  }

  lemma SameCond(c: Shape, d: Shape)
    requires c.Cond? && d.Cond? && c.thn == d.thn && c.els == d.els
    ensures CondLines(c) == CondLines(d)
  {
  }

  lemma Associates<T>(a: seq<T>, b: seq<T>, c: seq<T>)
    ensures a + b + c == a + (b + c)
  {
  }

  /** A program read so far: what is complete at each level, and where in its conditional each level stands. */
  datatype Part =
    | Top(done: Shape)
    | Tested(outer: Part)
    | InThen(outer: Part, thn: Shape)
    | InElse(outer: Part, thn: Shape, els: Shape)

  function Read(p: Part): seq<Line> {
    match p
    case Top(done) => LinesOf(done)
    case Tested(outer) => Read(outer) + [IfTest]
    case InThen(outer, thn) => Read(outer) + [IfTest] + [ThenAlone] + LinesOf(thn)
    case InElse(outer, thn, els) =>
      Read(outer) + [IfTest] + [ThenAlone] + LinesOf(thn) + [ElseAlone] + LinesOf(els)
  }

  /** How many levels are open. */
  function Open(p: Part): nat {
    match p
    case Top(_) => 0
    case Tested(outer) => 1 + Open(outer)
    case InThen(outer, _) => 1 + Open(outer)
    case InElse(outer, _, _) => 1 + Open(outer)
  }

  /** No level has read a program that nests too deep for `depth` levels in all. */
  predicate Fits(p: Part, depth: nat) {
    Open(p) < depth &&
    match p
    case Top(done) => Nesting(done) < depth
    case Tested(outer) => Fits(outer, depth)
    case InThen(outer, thn) => Open(p) + Nesting(thn) < depth && Fits(outer, depth)
    case InElse(outer, thn, els) =>
      Open(p) + Nesting(thn) < depth && Open(p) + Nesting(els) < depth && Fits(outer, depth)
  }

  /** Can take a command, or the end of a conditional, where it stands. */
  function Grow(p: Part, more: Shape): Part
    requires !p.Tested?
  {
    match p
    case Top(done) => Top(Append(done, more))
    case InThen(outer, thn) => InThen(outer, Append(thn, more))
    case InElse(outer, thn, els) => InElse(outer, thn, Append(els, more))
  }

  lemma GrowReads(p: Part, more: Shape, depth: nat)
    requires !p.Tested? && Fits(p, depth) && Open(p) + Nesting(more) < depth
    ensures Read(Grow(p, more)) == Read(p) + LinesOf(more)
    ensures Fits(Grow(p, more), depth) && Open(Grow(p, more)) == Open(p)
  {
    hide LinesOf, Nesting;
    match p
    case Top(done) =>
      AppendLines(done, more);
    case InThen(outer, thn) =>
      AppendLines(thn, more);
      Associates(Read(outer) + [IfTest] + [ThenAlone], LinesOf(thn), LinesOf(more));
    case InElse(outer, thn, els) =>
      AppendLines(els, more);
      Associates(Read(outer) + [IfTest] + [ThenAlone] + LinesOf(thn) + [ElseAlone], LinesOf(els), LinesOf(more));
  }

  /** Levels stand in a branch, or at their test. */
  predicate Sound(p: Part) {
    match p
    case Top(_) => true
    case Tested(outer) => !outer.Tested? && Sound(outer)
    case InThen(outer, _) => !outer.Tested? && Sound(outer)
    case InElse(outer, _, _) => !outer.Tested? && Sound(outer)
  }

  /** The conditional a level is, once it is closed where it stands. */
  function Closed(p: Part): Shape
    requires !p.Top?
  {
    match p
    case Tested(_) => Cond(Empty, None, Empty)
    case InThen(_, thn) => Cond(thn, None, Empty)
    case InElse(_, thn, els) => Cond(thn, Some(els), Empty)
  }

  lemma ClosedReads(p: Part, depth: nat)
    requires !p.Top? && Fits(p, depth)
    ensures Open(p.outer) + Nesting(Closed(p)) < depth
    ensures p.Tested? ==> Read(p.outer) + LinesOf(Closed(p)) == Read(p) + [ThenAlone, FiAlone]
    ensures !p.Tested? ==> Read(p.outer) + LinesOf(Closed(p)) == Read(p) + [FiAlone]
  {
    var o := Read(p.outer);
    ClosedLines(p);
    match p
    case Tested(_) =>
      Associates(o, [IfTest], [ThenAlone, FiAlone]);
    case InThen(_, thn) =>
      Associates(o, [IfTest], [ThenAlone]);
      Associates(o, [IfTest] + [ThenAlone], LinesOf(thn));
      Associates(o, [IfTest] + [ThenAlone] + LinesOf(thn), [FiAlone]);
    case InElse(_, thn, els) =>
      Associates(o, [IfTest], [ThenAlone]);
      Associates(o, [IfTest] + [ThenAlone], LinesOf(thn));
      Associates(o, [IfTest] + [ThenAlone] + LinesOf(thn), [ElseAlone]);
      Associates(o, [IfTest] + [ThenAlone] + LinesOf(thn) + [ElseAlone], LinesOf(els));
      Associates(o, [IfTest] + [ThenAlone] + LinesOf(thn) + [ElseAlone] + LinesOf(els), [FiAlone]);
  }

  lemma ClosedLines(p: Part)
    requires !p.Top?
    ensures LinesOf(Closed(p)) == CondLines(Closed(p))
    ensures p.Tested? ==> CondLines(Closed(p)) == [IfTest] + [ThenAlone, FiAlone]
  {
    assert CondLines(Closed(p)) + [] == CondLines(Closed(p));
    assert p.Tested? ==> [IfTest] + [ThenAlone] + [] + [FiAlone] == [IfTest] + [ThenAlone, FiAlone];
  }

  /** Whatever has been read can be completed to a program. */
  lemma {:induction false} Completes(p: Part, depth: nat) returns (sh: Shape, more: seq<Line>)
    requires Sound(p) && Fits(p, depth)
    ensures LinesOf(sh) == Read(p) + more && Nesting(sh) < depth
    decreases Open(p)
  {
    hide Read, LinesOf, Nesting, Fits, Sound, Closed;
    if p.Top? {
      TopReads(p, depth);
      sh, more := p.done, [];
    } else {
      ClosedReads(p, depth);
      CompletesOuter(p, depth);
      GrowReads(p.outer, Closed(p), depth);
      var closed := if p.Tested? then [ThenAlone, FiAlone] else [FiAlone];
      var rest;
      sh, rest := Completes(Grow(p.outer, Closed(p)), depth);
      more := closed + rest;
      Associates(Read(p), closed, rest);
    }
  }

  lemma TopReads(p: Part, depth: nat)
    requires p.Top? && Fits(p, depth)
    ensures LinesOf(p.done) == Read(p) + [] && Nesting(p.done) < depth
  {
  }

  lemma CompletesOuter(p: Part, depth: nat)
    requires Sound(p) && Fits(p, depth) && !p.Top?
    ensures !p.outer.Tested? && Fits(p.outer, depth) && Open(p.outer) + 1 == Open(p)
    ensures Sound(p.outer) && Sound(Grow(p.outer, Closed(p)))
  {
  }

  // ----- reading on

  /** The part read with one more line, if that line may stand there. */
  function Next(p: Part, line: Line, depth: nat): Option<Part> {
    match line
    case Command => if p.Tested? then None else Some(Grow(p, Step(Empty)))
    case IfTest => if p.Tested? || Open(p) + 1 >= depth then None else Some(Tested(p))
    case ThenAlone => if p.Tested? then Some(InThen(p.outer, Empty)) else None
    case ElseAlone => if p.InThen? then Some(InElse(p.outer, p.thn, Empty)) else None
    case FiAlone => if (p.InThen? || p.InElse?) && !p.outer.Tested? then Some(Grow(p.outer, Closed(p))) else None
    case Malformed => None
  }

  lemma NextReads(p: Part, line: Line, depth: nat)
    requires Sound(p) && Fits(p, depth) && Next(p, line, depth).Some?
    ensures var q := Next(p, line, depth).value;
            Sound(q) && Fits(q, depth) && Read(q) == Read(p) + [line]
  {
    match line
    case Command =>
      GrowReads(p, Step(Empty), depth);
      assert LinesOf(Step(Empty)) == [Command];
    case IfTest =>
    case ThenAlone =>
    case ElseAlone =>
    case FiAlone =>
      CompletesOuter(p, depth);
      ClosedReads(p, depth);
      GrowReads(p.outer, Closed(p), depth);
    case Malformed =>
  }

  function ReadOn(p: Part, lines: seq<Line>, depth: nat): Option<Part>
    decreases |lines|
  {
    if lines == [] then Some(p)
    else if Next(p, lines[0], depth).None? then None
    else ReadOn(Next(p, lines[0], depth).value, lines[1..], depth)
  }

  lemma {:induction false} ReadOnReads(p: Part, lines: seq<Line>, depth: nat)
    requires Sound(p) && Fits(p, depth) && ReadOn(p, lines, depth).Some?
    ensures var q := ReadOn(p, lines, depth).value;
            Sound(q) && Fits(q, depth) && Read(q) == Read(p) + lines
    decreases |lines|
  {
    hide Read, Sound, Fits, Next;
    if lines != [] {
      NextReads(p, lines[0], depth);
      ReadOnReads(Next(p, lines[0], depth).value, lines[1..], depth);
      assert [lines[0]] + lines[1..] == lines;
      Associates(Read(p), [lines[0]], lines[1..]);
    } else {
      assert Read(p) + [] == Read(p);
    }
  }

  lemma {:induction false} ReadOnConcat(p: Part, a: seq<Line>, b: seq<Line>, depth: nat)
    ensures ReadOn(p, a + b, depth) ==
            if ReadOn(p, a, depth).None? then None else ReadOn(ReadOn(p, a, depth).value, b, depth)
    decreases |a|
  {
    hide Next;
    if a == [] {
      assert a + b == b;
    } else {
      assert (a + b)[0] == a[0] && (a + b)[1..] == a[1..] + b;
      if Next(p, a[0], depth).Some? {
        ReadOnConcat(Next(p, a[0], depth).value, a[1..], b, depth);
      }
    }
  }

  lemma {:induction false} AppendAssociates(a: Shape, b: Shape, c: Shape)
    ensures Append(Append(a, b), c) == Append(a, Append(b, c))
    decreases a
  {
    match a
    case Empty =>
    case Step(next) => AppendAssociates(next, b, c);
    case Cond(_, _, next) => AppendAssociates(next, b, c);
  }

  lemma GrowTwice(p: Part, a: Shape, b: Shape)
    requires !p.Tested?
    ensures Grow(Grow(p, a), b) == Grow(p, Append(a, b)) && Open(Grow(p, a)) == Open(p) && !Grow(p, a).Tested?
  {
    match p
    case Top(done) => AppendAssociates(done, a, b);
    case InThen(_, thn) => AppendAssociates(thn, a, b);
    case InElse(_, _, els) => AppendAssociates(els, a, b);
  }

  lemma ReadOnOne(p: Part, line: Line, depth: nat)
    ensures ReadOn(p, [line], depth) == Next(p, line, depth)
  {
    assert [line][1..] == [];
  }

  lemma GrowEmpty(p: Part)
    requires !p.Tested?
    ensures Grow(p, Empty) == p
  {
    match p
    case Top(done) => AppendEmpty(done);
    case InThen(_, thn) => AppendEmpty(thn);
    case InElse(_, _, els) => AppendEmpty(els);
  }

  lemma {:induction false} AppendEmpty(a: Shape)
    ensures Append(a, Empty) == a
    decreases a
  {
    match a
    case Empty =>
    case Step(next) => AppendEmpty(next);
    case Cond(_, _, next) => AppendEmpty(next);
  }

  /** A program that does not nest too deep can be read wherever a command can. */
  lemma {:induction false} ShapeReads(p: Part, sh: Shape, depth: nat)
    requires !p.Tested? && Open(p) + Nesting(sh) < depth
    ensures ReadOn(p, LinesOf(sh), depth) == Some(Grow(p, sh))
    decreases sh, 1
  {
    hide ReadOn, Grow;
    match sh
    case Empty =>
      GrowEmpty(p);
      NothingRead(p, depth);
    case Step(next) =>
      GrowTwice(p, Step(Empty), next);
      ReadOnOne(p, Command, depth);
      ReadOnConcat(p, [Command], LinesOf(next), depth);
      ShapeReads(Grow(p, Step(Empty)), next, depth);
    case Cond(thn, els, next) =>
      var c := Cond(thn, els, Empty);
      GrowTwice(p, c, next);
      CondReads(p, sh, depth);
      ReadOnConcat(p, CondLines(sh), LinesOf(next), depth);
      ShapeReads(Grow(p, c), next, depth);
  }

  lemma NothingRead(p: Part, depth: nat)
    ensures ReadOn(p, [], depth) == Some(p)
  {
  }

  lemma {:induction false} CondReads(p: Part, c: Shape, depth: nat)
    requires !p.Tested? && c.Cond? && Open(p) + Nesting(c) < depth
    ensures ReadOn(p, CondLines(c), depth) == Some(Grow(p, Cond(c.thn, c.els, Empty)))
    decreases c, 0
  {
    hide ReadOn;
    var head := [IfTest] + [ThenAlone];
    var p1, p2 := Tested(p), InThen(p, Empty);
    ReadOnOne(p, IfTest, depth);
    ReadOnOne(p1, ThenAlone, depth);
    ReadOnConcat(p, [IfTest], [ThenAlone], depth);
    ShapeReads(p2, c.thn, depth);
    ReadOnConcat(p, head, LinesOf(c.thn), depth);
    var p3 := InThen(p, c.thn);
    if c.els.Some? {
      ReadOnOne(p3, ElseAlone, depth);
      ReadOnConcat(p, head + LinesOf(c.thn), [ElseAlone], depth);
      ShapeReads(InElse(p, c.thn, Empty), c.els.value, depth);
      ReadOnConcat(p, head + LinesOf(c.thn) + [ElseAlone], LinesOf(c.els.value), depth);
      var p4 := InElse(p, c.thn, c.els.value);
      ReadOnOne(p4, FiAlone, depth);
      ReadOnConcat(p, head + LinesOf(c.thn) + [ElseAlone] + LinesOf(c.els.value), [FiAlone], depth);
    } else {
      ReadOnOne(p3, FiAlone, depth);
      ReadOnConcat(p, head + LinesOf(c.thn), [FiAlone], depth);
    }
  }

  /** The lines begin some program that does not nest too deep. */
  ghost predicate BeginsProgram(lines: seq<Line>, depth: nat) {
    exists sh :: Nesting(sh) < depth && lines <= LinesOf(sh)
  }

  lemma ReadableIffBegins(lines: seq<Line>, depth: nat)
    requires depth > 0
    ensures ReadOn(Top(Empty), lines, depth).Some? <==> BeginsProgram(lines, depth)
  {
    hide ReadOn, LinesOf;
    var start := Top(Empty);
    StartReads(depth);
    if ReadOn(start, lines, depth).Some? {
      ReadOnReads(start, lines, depth);
      var sh, more := Completes(ReadOn(start, lines, depth).value, depth);
      assert [] + lines == lines;
      assert lines <= LinesOf(sh);
    }
    if BeginsProgram(lines, depth) {
      var sh :| Nesting(sh) < depth && lines <= LinesOf(sh);
      ShapeReads(start, sh, depth);
      assert LinesOf(sh) == lines + LinesOf(sh)[|lines|..];
      ReadOnConcat(start, lines, LinesOf(sh)[|lines|..], depth);
    }
  }

  lemma StartReads(depth: nat)
    requires depth > 0
    ensures Sound(Top(Empty)) && Fits(Top(Empty), depth) && Read(Top(Empty)) == []
  {
  }

  // ----- the interpreter

  /** Every level of the part stands in the stack as it should. */
  predicate Stands(st: seq<Slot>, p: Part)
    requires Open(p) < |st|
  {
    match p
    case Top(_) => st[0].kind == Normal
    case Tested(outer) => st[Open(p)].kind == If && Stands(st, outer)
    case InThen(outer, _) => st[Open(p)].kind == Then && Stands(st, outer)
    case InElse(outer, _, _) => st[Open(p)].kind == Else && Stands(st, outer)
  }

  /** The interpreter has read `p`. */
  predicate At(s: Nsh, p: Part) {
    StackOk(s) && s.ndx == Open(p) && Stands(s.st, p)
  }

  lemma {:induction false} StandsStill(st: seq<Slot>, tt: seq<Slot>, p: Part)
    requires Open(p) < |st| && Open(p) < |tt| && Stands(st, p)
    requires forall i :: 0 <= i <= Open(p) ==> tt[i].kind == st[i].kind
    ensures Stands(tt, p)
    decreases p
  {
    if !p.Top? {
      StandsStill(st, tt, p.outer);
    }
  }

  lemma GrowStands(st: seq<Slot>, p: Part, more: Shape)
    requires !p.Tested? && Open(p) < |st|
    ensures Open(Grow(p, more)) == Open(p) && Stands(st, Grow(p, more)) == Stands(st, p)
  {
  }

  /** Saving a command's outcome changes no level's standing. */
  lemma ParsedStack(s: Nsh, words: seq<string>, w: World)
    requires StackOk(s) && IfThenElse(s, words).Left?
    ensures var s1, t := IfThenElse(s, words).state, ParseWords(s, words, w);
            StackOk(s1) && t.ndx == s1.ndx && |t.st| == |s.st| == |s1.st| &&
            forall i :: 0 <= i < |s.st| ==> t.st[i].kind == s1.st[i].kind
  {
  }

  lemma AtAfter(s: Nsh, words: seq<string>, q: Part, w: World)
    requires StackOk(s) && IfThenElse(s, words).Left? && At(IfThenElse(s, words).state, q)
    ensures At(ParseWords(s, words, w), q) && |ParseWords(s, words, w).st| == |s.st|
  {
    hide IfThenElse, ParseWords;
    ParsedStack(s, words, w);
    StandsStill(IfThenElse(s, words).state.st, ParseWords(s, words, w).st, q);
  }

  /** The interpreter refuses a line exactly if it cannot stand there, and otherwise has read it too. */
  lemma LineReads(s: Nsh, p: Part, words: seq<string>, w: World)
    requires At(s, p) && Sound(p) && words != []
    ensures IfThenElse(s, words).Left? <==> Next(p, LineOf(words), |s.st|).Some?
    ensures IfThenElse(s, words).Left? ==>
              At(ParseWords(s, words, w), Next(p, LineOf(words), |s.st|).value) &&
              |ParseWords(s, words, w).st| == |s.st|
  {
    hide ParseWords;
    var line := LineOf(words);
    if IfThenElse(s, words).Left? {
      LeftReads(s, p, words);
      AtAfter(s, words, Next(p, line, |s.st|).value, w);
    }
  }

  lemma LeftReads(s: Nsh, p: Part, words: seq<string>)
    requires At(s, p) && Sound(p) && words != [] && IfThenElse(s, words).Left?
    ensures Next(p, LineOf(words), |s.st|).Some?
    ensures At(IfThenElse(s, words).state, Next(p, LineOf(words), |s.st|).value)
  {
    var t := IfThenElse(s, words).state;
    match LineOf(words)
    case Command => GrowStands(s.st, p, Step(Empty));
    case IfTest => StandsStill(s.st, t.st, p);
    case ThenAlone => StandsStill(s.st, t.st, p.outer);
    case ElseAlone => StandsStill(s.st, t.st, p.outer);
    case FiAlone =>
      GrowStands(s.st, p.outer, Closed(p));
      StandsStill(s.st, t.st, Grow(p.outer, Closed(p)));
    case Malformed =>
  }

  /** Some line is refused when it is reached. */
  predicate Refused(s: Nsh, lines: seq<seq<string>>, w: World)
    requires StackOk(s)
    decreases |lines|
  {
    lines != [] && (IfThenElse(s, lines[0]).Wrong? || Refused(ParseWords(s, lines[0], w), lines[1..], w))
  }

  function LineKinds(lines: seq<seq<string>>): (ks: seq<Line>)
    requires forall i :: 0 <= i < |lines| ==> lines[i] != []
    ensures |ks| == |lines|
  {
    seq(|lines|, i requires 0 <= i < |lines| => LineOf(lines[i]))
  }

  lemma {:induction false} RefusedIffUnreadable(s: Nsh, p: Part, lines: seq<seq<string>>, w: World)
    requires At(s, p) && Sound(p) && Fits(p, |s.st|) && forall i :: 0 <= i < |lines| ==> lines[i] != []
    ensures Refused(s, lines, w) <==> ReadOn(p, LineKinds(lines), |s.st|).None?
    decreases |lines|
  {
    hide IfThenElse, ParseWords, Stands, Sound, Fits, Next, LineOf;
    if lines != [] {
      LineReads(s, p, lines[0], w);
      assert LineKinds(lines)[1..] == LineKinds(lines[1..]);
      if IfThenElse(s, lines[0]).Left? {
        NextReads(p, LineOf(lines[0]), |s.st|);
        RefusedIffUnreadable(ParseWords(s, lines[0], w), Next(p, LineOf(lines[0]), |s.st|).value, lines[1..], w);
      }
    }
  }

  /** From the bottom level the interpreter accepts a sequence of lines, whatever the commands do, if and only
      if it begins a well-nested program with no more conditionals open at once than there is room for. */
  lemma AcceptedIffBeginsProgram(s: Nsh, lines: seq<seq<string>>, w: World)
    requires StackOk(s) && s.ndx == 0 && s.st[0].kind == Normal && forall i :: 0 <= i < |lines| ==> lines[i] != []
    ensures !Refused(s, lines, w) <==> BeginsProgram(LineKinds(lines), |s.st|)
  {
    StartReads(|s.st|);
    RefusedIffUnreadable(s, Top(Empty), lines, w);
    ReadableIffBegins(LineKinds(lines), |s.st|);
  }

  /** A blank line does nothing anywhere. */
  lemma BlankLine(s: Nsh, w: World)
    requires StackOk(s)
    ensures IfThenElse(s, []).Left? && ParseWords(s, [], w) == s
  {
  }
}
