/** The shell's line interpreter: an explicit stack of if/then/else levels, one line at a time. */
module NshParser {
  import opened NshTokens

  type Command = seq<string>

  /** Whether a command run after `history` succeeds. */
  type Oracle = (seq<Command>, Command) -> bool

  /** Value of an environment variable after `history`; unset ones are empty. */
  type Environment = (seq<Command>, string) -> string

  datatype Kind = Normal | If | Then | Else

  /** One stack slot; `failed` is the outcome of its `if` command. */
  datatype Slot = Slot(kind: Kind, disabled: bool, failed: bool)

  const BOTTOM := Slot(Normal, false, false)

  /** The parser state, its stack as deep as it is configured, and the commands run so far. */
  datatype Nsh = Nsh(st: seq<Slot>, ndx: nat, fail: bool, log: seq<Command>)

  /** What executing commands depends on, and the most words a command may have. */
  datatype World = World(exec: Oracle, env: Environment, maxWords: nat)

  predicate StackOk(s: Nsh) {
    s.ndx < |s.st|
  }

  // ----- words

  /** The string a token stands for: `$?` and `$name` are replaced unless quoted. */
  function Expand(t: Token, fail: bool, log: seq<Command>, w: World): string
    requires t != End
  {
    match t
    case Redirect(append) => if append then ">>" else ">"
    case Word(text, quoted) =>
      if !quoted && text != "" && text[0] == '$' then
        if text == "$?" then (if fail then "1" else "0") else w.env(log, text[1..])
      else text
  }

  predicate NoEnd(ts: seq<Token>) {
    forall i :: 0 <= i < |ts| ==> ts[i] != End
  }

  function ExpandAll(ts: seq<Token>, fail: bool, log: seq<Command>, w: World): (words: seq<string>)
    requires NoEnd(ts)
    ensures |words| == |ts|
  {
    seq(|ts|, i requires 0 <= i < |ts| => Expand(ts[i], fail, log, w))
  }

  /** The words that fit the argument vector. */
  function Argv(words: seq<string>, w: World): (argv: Command)
    ensures argv <= words && |argv| <= w.maxWords && (argv == words || |argv| == w.maxWords)
  {
    if |words| <= w.maxWords then words else words[..w.maxWords]
  }

  // ----- one line

  predicate Enabled(s: Nsh)
    requires StackOk(s)
  {
    SlotEnabled(s.st[s.ndx])
  }

  predicate SlotEnabled(slot: Slot) {
    !slot.disabled &&
    match slot.kind
    case Normal => true
    case If => true
    case Then => !slot.failed
    case Else => slot.failed
  }

  function Reset(s: Nsh): Nsh
    requires |s.st| > 0
  {
    s.(ndx := 0, st := s.st[0 := BOTTOM])
  }

  /** Outcome of looking at the control words: the line is wrong, or this command is left. */
  datatype Control = Wrong(state: Nsh) | Left(state: Nsh, command: seq<string>)

  function Retag(s: Nsh, kind: Kind): Nsh
    requires StackOk(s)
  {
    s.(st := s.st[s.ndx := s.st[s.ndx].(kind := kind)])
  }

  function Push(s: Nsh): Nsh
    requires StackOk(s) && s.ndx + 1 < |s.st|
  {
    s.(ndx := s.ndx + 1, st := s.st[s.ndx + 1 := Slot(If, !Enabled(s), false)])
  }

  function IfThenElse(s: Nsh, words: seq<string>): Control
    requires StackOk(s)
  {
    if words == [] then Left(s, words)
    else
      var kind := s.st[s.ndx].kind;
      if words[0] == "if" then
        if |words| == 1 || kind == If || s.ndx >= |s.st| - 1 then Wrong(Reset(s))
        else Left(Push(s), words[1..])
      else if words[0] == "then" then
        if |words| > 1 || kind != If then Wrong(Reset(s)) else Left(Retag(s, Then), [])
      else if words[0] == "else" then
        if |words| > 1 || kind != Then then Wrong(Reset(s)) else Left(Retag(s, Else), [])
      else if words[0] == "fi" then
        if |words| > 1 || (kind != Then && kind != Else) || s.ndx < 1 then Wrong(Reset(s))
        else Left(s.(ndx := s.ndx - 1), [])
      else if kind == If then Wrong(Reset(s))
      else Left(s, words)
  }

  /** The outcome of a command: an `if` command sets the condition and clears `$?`, any other sets `$?`. */
  function SaveResult(s: Nsh, failed: bool): Nsh
    requires StackOk(s)
  {
    if s.st[s.ndx].kind == If then s.(fail := false, st := s.st[s.ndx := s.st[s.ndx].(failed := failed)])
    else s.(fail := failed)
  }

  function ParseWords(s: Nsh, words: seq<string>, w: World): (t: Nsh)
    requires StackOk(s)
    ensures StackOk(t) && |t.st| == |s.st|
  {
    match IfThenElse(s, words)
    case Wrong(s1) => SaveResult(s1, true)
    case Left(s1, command) =>
      if command == [] || !Enabled(s1) then s1
      else
        var argv := Argv(command, w);
        SaveResult(s1.(log := s1.log + [argv]), !w.exec(s1.log, argv))
  }

  /** Parsing the line returns an error: it is refused, or its command runs, is no `if` test, and fails. */
  predicate LineFails(s: Nsh, words: seq<string>, w: World)
    requires StackOk(s)
  {
    match IfThenElse(s, words)
    case Wrong(_) => true
    case Left(s1, command) =>
      command != [] && Enabled(s1) && s1.st[s1.ndx].kind != If && !w.exec(s1.log, Argv(command, w))
  }

  function ParseTokens(s: Nsh, line: seq<Token>, w: World): (t: Nsh)
    requires StackOk(s) && NoEnd(line)
    ensures StackOk(t) && |t.st| == |s.st|
  {
    ParseWords(s, ExpandAll(line, s.fail, s.log, w), w)
  }

  predicate LinesOk(lines: seq<seq<Token>>) {
    forall i :: 0 <= i < |lines| ==> NoEnd(lines[i])
  }

  function ParseLines(s: Nsh, lines: seq<seq<Token>>, w: World): (t: Nsh)
    requires StackOk(s) && LinesOk(lines)
    ensures StackOk(t) && |t.st| == |s.st|
    decreases lines
  {
    if lines == [] then s else ParseLines(ParseTokens(s, lines[0], w), lines[1..], w)
  }

  // ----- what every line sequence keeps

  predicate Branch(kind: Kind) {
    kind == Then || kind == Else
  }

  /** Slot 0 is plain and enabled, the ones below the top are in a branch, the top is in no plain state
      unless it is slot 0, and each slot is disabled just when the one below it is not enabled. */
  ghost predicate Inv(s: Nsh) {
    StackOk(s) && s.st[0].kind == Normal && !s.st[0].disabled &&
    (forall i :: 0 < i < s.ndx ==> Branch(s.st[i].kind)) &&
    (s.ndx > 0 ==> s.st[s.ndx].kind != Normal) &&
    forall i {:trigger Chained(s, i)} :: 0 < i <= s.ndx ==> Chained(s, i)
  }

  /** Slot `i` is disabled just when the level around it lets nothing through. */
  predicate Chained(s: Nsh, i: nat)
    requires StackOk(s) && 0 < i <= s.ndx
  {
    s.st[i].disabled == !SlotEnabled(s.st[i - 1])
  }

  lemma TopChangeKeepsInv(s: Nsh, t: Nsh)
    requires Inv(s) && StackOk(t) && |t.st| == |s.st| && t.ndx <= s.ndx
    requires t.st[..t.ndx] == s.st[..t.ndx] && t.st[t.ndx].disabled == s.st[t.ndx].disabled
    requires if t.ndx == 0 then t.st[0].kind == Normal else t.st[t.ndx].kind != Normal
    ensures Inv(t)
  {
    forall i | 0 <= i < t.ndx ensures t.st[i] == s.st[i] {
      assert t.st[..t.ndx][i] == s.st[..t.ndx][i];
    }
    forall i | 0 < i <= t.ndx ensures Chained(t, i) {
      assert Chained(s, i);
    }
  }

  lemma PushKeepsInv(s: Nsh)
    requires Inv(s) && s.ndx + 1 < |s.st| && s.st[s.ndx].kind != If
    ensures Inv(Push(s))
  {
    forall i | 0 < i <= s.ndx + 1 ensures Chained(Push(s), i) {
      assert i <= s.ndx ==> Chained(s, i);
    }
  }

  /** Where the control words leave the stack. */
  function After(c: Control): Nsh {
    match c
    case Wrong(s) => s
    case Left(s, _) => s
  }

  lemma ControlKeepsInv(s: Nsh, words: seq<string>)
    requires Inv(s)
    ensures Inv(After(IfThenElse(s, words)))
  {
    var t := After(IfThenElse(s, words));
    if t.ndx > s.ndx {
      PushKeepsInv(s);
    } else {
      TopChangeKeepsInv(s, t);
    }
  }

  lemma SaveResultKeepsInv(s: Nsh, failed: bool)
    requires Inv(s)
    ensures Inv(SaveResult(s, failed))
  {
    TopChangeKeepsInv(s, SaveResult(s, failed));
  }

  /** Any line, well-formed or not, keeps the stack in order. */
  lemma ParseKeepsInv(s: Nsh, words: seq<string>, w: World)
    requires Inv(s)
    ensures Inv(ParseWords(s, words, w))
  {
    ControlKeepsInv(s, words);
    var t := After(IfThenElse(s, words));
    match IfThenElse(s, words)
    case Wrong(_) => SaveResultKeepsInv(t, true);
    case Left(_, command) =>
      var argv := Argv(command, w);
      var logged := t.(log := t.log + [argv]);
      TopChangeKeepsInv(t, logged);
      SaveResultKeepsInv(logged, !w.exec(t.log, argv));
  }

  lemma {:induction false} LinesKeepInv(s: Nsh, lines: seq<seq<Token>>, w: World)
    requires Inv(s) && LinesOk(lines)
    ensures Inv(ParseLines(s, lines, w))
    decreases lines
  {
    if lines != [] {
      ParseKeepsInv(s, ExpandAll(lines[0], s.fail, s.log, w), w);
      LinesKeepInv(ParseTokens(s, lines[0], w), lines[1..], w);
    }
  }

  /** A level lets commands through: it is plain, evaluating its condition, or in the chosen branch. */
  predicate Selects(slot: Slot) {
    (slot.kind == Then ==> !slot.failed) && (slot.kind == Else ==> slot.failed)
  }

  /** Commands run exactly when every open level selects the branch it is in. */
  lemma {:induction false} EnabledIffAllSelect(s: Nsh, top: nat)
    requires Inv(s) && top <= s.ndx
    ensures SlotEnabled(s.st[top]) <==> forall i :: 0 <= i <= top ==> Selects(s.st[i])
  {
    if top > 0 {
      EnabledIffAllSelect(s, top - 1);
      assert Chained(s, top);
    }
  }

  /** `fi` is only ever refused for a reason other than an empty stack. */
  lemma PopNeverUnderflows(s: Nsh)
    requires Inv(s) && Branch(s.st[s.ndx].kind)
    ensures s.ndx >= 1 && IfThenElse(s, ["fi"]) == Left(s.(ndx := s.ndx - 1), [])
  {
  }
}
