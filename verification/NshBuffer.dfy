/** The tokeniser as it works: on a line buffer, from a save pointer on, writing NULs behind words. What a
    call finds depends on the buffer from the save pointer on, which is what the functions here take. */
module NshBuffer {
  import opened NshTokens

  /** There is a NUL at or after `at`. */
  ghost predicate Terminated(buf: seq<char>, at: nat) {
    exists i :: at <= i < |buf| && buf[i] == NUL
  }

  /** Position of the first NUL at or after `at`. */
  ghost function NulAt(buf: seq<char>, at: nat): (i: nat)
    requires Terminated(buf, at)
    ensures at <= i < |buf| && buf[i] == NUL && forall k :: at <= k < i ==> buf[k] != NUL
    decreases |buf| - at
  {
    if buf[at] == NUL then at else NulAt(buf, at + 1)
  }

  /** The C string that starts at `at`. */
  ghost function CString(buf: seq<char>, at: nat): (s: string)
    requires Terminated(buf, at)
    ensures |s| == NulAt(buf, at) - at
  {
    buf[at..NulAt(buf, at)]
  }

  lemma CStringIs(buf: seq<char>, at: nat, end: nat)
    requires at <= end < |buf| && buf[end] == NUL && forall k :: at <= k < end ==> buf[k] != NUL
    ensures Terminated(buf, at) && NulAt(buf, at) == end && CString(buf, at) == buf[at..end]
  {
  }

  /** Strings behind the save pointer are the same whether counted from the start or from the pointer. */
  lemma SuffixCString(buf: seq<char>, save: nat, at: nat)
    requires save <= |buf| && Terminated(buf[save..], at)
    ensures Terminated(buf, save + at) && NulAt(buf, save + at) == save + NulAt(buf[save..], at)
    ensures CString(buf, save + at) == CString(buf[save..], at)
  {
    var end := NulAt(buf[save..], at);
    assert forall k :: save + at <= k < save + end ==> buf[k] == buf[save..][k - save];
    CStringIs(buf, save + at, save + end);
  }

  /** The search for the end of the next word ends inside the buffer: always for a line that holds it, and
      for a lone quote if a second NUL lies behind the line. */
  ghost predicate SearchEnds(mem: seq<char>) {
    Terminated(mem, 0) && (NoLoneQuote(CString(mem, 0)) || Terminated(mem, NulAt(mem, 0) + 1))
  }

  /** How far one call moves the save pointer. Behind a lone quote it goes on in what lies behind the line. */
  ghost function Jump(mem: seq<char>): (n: nat)
    requires SearchEnds(mem)
    ensures n < |mem| && Terminated(mem, n) && (Scan(CString(mem, 0)).token != End ==> n > 0)
  {
    var s := CString(mem, 0);
    if NoLoneQuote(s) then
      assert mem[NulAt(mem, 0)] == NUL;
      Scan(s).rest
    else
      var stop := NulAt(mem, |s| + 1);
      var end := FindEnd(mem[|s|..stop], 1, true);
      if |s| + end < stop then |s| + end + 1 else stop
  }

  /** Every search up to the end of the words ends inside the buffer. */
  ghost predicate Readable(mem: seq<char>)
    decreases |mem|
  {
    SearchEnds(mem) && (Scan(CString(mem, 0)).token == End || Readable(mem[Jump(mem)..]))
  }

  /** The tokens one call after the other finds. */
  ghost function FoundTokens(mem: seq<char>): seq<Token>
    requires Readable(mem)
    decreases |mem|
  {
    var token := Scan(CString(mem, 0)).token;
    if token == End then [] else [token] + FoundTokens(mem[Jump(mem)..])
  }

  lemma {:induction false} FoundNoEnd(mem: seq<char>)
    requires Readable(mem)
    ensures forall i :: 0 <= i < |FoundTokens(mem)| ==> FoundTokens(mem)[i] != End
    decreases |mem|
  {
    if Scan(CString(mem, 0)).token != End {
      FoundNoEnd(mem[Jump(mem)..]);
    }
  }

  lemma RestOfLine(mem: seq<char>)
    requires Terminated(mem, 0) && NoLoneQuote(CString(mem, 0))
    ensures SearchEnds(mem) && Terminated(mem[Jump(mem)..], 0)
    ensures CString(mem[Jump(mem)..], 0) == CString(mem, 0)[Scan(CString(mem, 0)).rest..]
  {
    var j, end := Jump(mem), NulAt(mem, 0);
    assert forall k :: 0 <= k < end - j ==> mem[j..][k] == mem[j + k];
    CStringIs(mem[j..], 0, end - j);
  }

  /** A line that holds all its tokens is read as what it says, whatever lies behind it. */
  lemma {:induction false} ScannableIsReadable(mem: seq<char>)
    requires Terminated(mem, 0) && Scannable(CString(mem, 0))
    ensures Readable(mem) && FoundTokens(mem) == Tokens(CString(mem, 0))
    decreases |mem|
  {
    if Scan(CString(mem, 0)).token != End {
      RestOfLine(mem);
      ScannableIsReadable(mem[Jump(mem)..]);
    }
  }

  /** Once the end is found it stays found. */
  lemma FoundEndStays(mem: seq<char>)
    requires SearchEnds(mem) && Scan(CString(mem, 0)).token == End
    ensures Readable(mem[Jump(mem)..]) && FoundTokens(mem[Jump(mem)..]) == []
  {
    RestOfLine(mem);
    ScanEndStays(CString(mem, 0));
    ScannableIsReadable(mem[Jump(mem)..]);
  }

  // ----- one call

  /** First terminator or NUL from `from` on. `stop` is the first NUL. */
  method FindTerminator(line: array<char>, from: nat, quoted: bool, ghost stop: nat) returns (end: nat)
    requires from <= stop < line.Length && line[stop] == NUL && forall k :: from <= k < stop ==> line[k] != NUL
    ensures from <= end <= stop && (line[end] == NUL || Terminates(line[end], quoted))
    ensures forall k :: from <= k < end ==> line[k] != NUL && !Terminates(line[k], quoted)
  {
    end := from;
    while line[end] != NUL && !Terminates(line[end], quoted)
      invariant from <= end <= stop
      invariant forall k :: from <= k < end ==> line[k] != NUL && !Terminates(line[k], quoted)
      decreases stop - end
    {
      end := end + 1;
    }
  }

  /** First position from `from` on that is not blank. */
  method SkipDelimiters(line: array<char>, from: nat) returns (begin: nat)
    requires Terminated(line[..], from)
    ensures begin == from + SkipBlanks(CString(line[..], from), 0)
    ensures begin <= NulAt(line[..], from)
  {
    begin := from;
    ghost var s := CString(line[..], from);
    while line[begin] != NUL && IsBlank(line[begin])
      invariant from <= begin <= NulAt(line[..], from)
      invariant forall k :: from <= k < begin ==> IsBlank(line[k])
      decreases NulAt(line[..], from) - begin
    {
      begin := begin + 1;
    }
    SkipBlanksFinds(s, 0, begin - from);
  }

  /** Terminate the word that starts at `begin` in place. `stop` is the first NUL behind its first character,
      which may itself be one. */
  method TakeWord(line: array<char>, begin: nat, quoted: bool, ghost stop: nat) returns (text: string, next: nat)
    requires begin < stop < line.Length && line[stop] == NUL && forall k :: begin < k < stop ==> line[k] != NUL
    modifies line
    ensures var s := old(line[begin..stop]);
            var end := FindEnd(s, 1, quoted);
            text == (if s[0] == NUL then "" else s[..end]) &&
            next == if begin + end < stop then begin + end + 1 else stop
    ensures begin < next <= stop && begin + |text| <= next
    ensures Terminated(line[..], begin) && CString(line[..], begin) == text
    ensures line[..begin] == old(line[..begin]) && line[next..] == old(line[next..])
  {
    hide Terminated, NulAt, CString;
    ghost var s := line[begin..stop];
    var end := FindTerminator(line, begin + 1, quoted, stop);
    FindEndFinds(s, 1, quoted, end - begin);
    assert s[..end - begin] == line[begin..end];
    text, next := if line[begin] == NUL then "" else line[begin..end], end;
    if line[end] != NUL {
      line[end] := NUL;
      next := end + 1;
    }
    CStringIs(line[..], begin, begin + |text|);
    assert line[..][begin..begin + |text|] == text;
    assert line[..begin] == old(line[..begin]);
    assert line[next..] == old(line[next..]);
  }

  /** Scanning a word, in terms of the line from where its text begins. */
  lemma ScanWord(s: string, d: nat, quoted: bool)
    requires NoLoneQuote(s) && SkipBlanks(s, 0) < |s|
    requires var b := SkipBlanks(s, 0);
             s[b] != '>' && s[b] != '#' && quoted == (s[b] == '"') && d == if quoted then b + 1 else b
    ensures d < |s|
    ensures var end := FindEnd(s[d..], 1, quoted);
            Scan(s) == Found(Word(s[d..][..end], quoted), if d + end < |s| then d + end + 1 else |s|)
  {
    FindEndShift(s, d, quoted);
    SliceOfSlice(s, d, FindEnd(s[d..], 1, quoted));
  }

  lemma SliceOfSlice(s: string, d: nat, n: nat)
    requires d + n <= |s|
    ensures s[d..d + n] == s[d..][..n]
  {
  }

  lemma FindEndShift(s: string, d: nat, quoted: bool)
    requires d + 1 <= |s|
    ensures FindEnd(s, d + 1, quoted) == d + FindEnd(s[d..], 1, quoted)
  {
    FindEndFinds(s, d + 1, quoted, d + FindEnd(s[d..], 1, quoted));
  }

  /** The NUL at which the search for a word's end stops at the latest. */
  ghost function StopOf(mem: seq<char>): (stop: nat)
    requires SearchEnds(mem)
  {
    var end := NulAt(mem, 0);
    if NoLoneQuote(CString(mem, 0)) then end else NulAt(mem, end + 1)
  }

  /** Where the text of the next word begins and where the search for its end stops at the latest. */
  ghost predicate WordAt(mem: seq<char>, b: nat, d: nat, stop: nat, quoted: bool)
    requires SearchEnds(mem)
  {
    var s := CString(mem, 0);
    b == SkipBlanks(s, 0) < |s| && mem[b] != '>' && mem[b] != '#' && quoted == (mem[b] == '"') &&
    d == (if quoted then b + 1 else b) &&
    stop == StopOf(mem)
  }

  /** What terminating that word in place does to the save pointer, and which token it is. */
  lemma WordJump(mem: seq<char>, b: nat, d: nat, stop: nat, quoted: bool)
    requires SearchEnds(mem) && WordAt(mem, b, d, stop, quoted)
    ensures d < stop < |mem| && mem[stop] == NUL && forall k :: d < k < stop ==> mem[k] != NUL
    ensures var s, end := mem[d..stop], FindEnd(mem[d..stop], 1, quoted);
            Scan(CString(mem, 0)).token == Word(if s[0] == NUL then "" else s[..end], quoted) &&
            Jump(mem) == if d + end < stop then d + end + 1 else stop
  {
    var s := CString(mem, 0);
    if NoLoneQuote(s) {
      assert mem[b] == s[b];
      ScanWord(s, d, quoted);
      assert s[d..] == mem[d..stop];
    }
  }

  /** The same in terms of the whole buffer. */
  lemma WordJumpAt(buf: seq<char>, save: nat, start: nat, begin: nat, stop: nat, quoted: bool)
    requires save <= start && save <= begin && save <= stop && save <= |buf| && SearchEnds(buf[save..])
    requires WordAt(buf[save..], start - save, begin - save, stop - save, quoted)
    ensures begin < stop < |buf| && buf[stop] == NUL && forall k :: begin < k < stop ==> buf[k] != NUL
    ensures var s, end := buf[begin..stop], FindEnd(buf[begin..stop], 1, quoted);
            Scan(CString(buf[save..], 0)).token == Word(if s[0] == NUL then "" else s[..end], quoted) &&
            save + Jump(buf[save..]) == if begin + end < stop then begin + end + 1 else stop
  {
    hide SearchEnds, WordAt, Jump, Scan, CString, FindEnd;
    var mem := buf[save..];
    WordJump(mem, start - save, begin - save, stop - save, quoted);
    assert mem[begin - save..stop - save] == buf[begin..stop];
    forall k | begin < k < stop ensures buf[k] != NUL {
      assert mem[k - save] != NUL;
    }
  }

  lemma WordStarts(buf: seq<char>, save: nat, start: nat)
    requires save <= |buf| && SearchEnds(buf[save..]) && Terminated(buf, save)
    requires start == save + SkipBlanks(CString(buf, save), 0) < |buf|
    requires buf[start] != NUL && buf[start] != '>' && buf[start] != '#'
    ensures var quoted := buf[start] == '"';
            WordAt(buf[save..], start - save, (if quoted then start + 1 else start) - save, StopOf(buf[save..]), quoted)
  {
    hide Scan, StopOf;
    SuffixCString(buf, save, 0);
    assert buf[start] == buf[save..][start - save];
  }

  /** The cases of one call that leave the line as it is: its end, a redirection, a comment. */
  method MarkArgument(line: array<char>, save: nat, begin: nat) returns (token: Token, next: nat)
    requires save <= line.Length && SearchEnds(line[..][save..]) && Terminated(line[..], save)
    requires begin == save + SkipBlanks(CString(line[..], save), 0) < line.Length
    requires line[begin] == NUL || line[begin] == '>' || line[begin] == '#'
    ensures token == Scan(CString(line[..][save..], 0)).token && next == save + Jump(line[..][save..])
    ensures !token.Word? && next < line.Length
  {
    ghost var s := CString(line[..], save);
    SuffixCString(line[..], save, 0);
    assert begin < NulAt(line[..], save) ==> line[begin] == s[begin - save];
    if line[begin] == NUL {
      token, next := End, save;
    } else if line[begin] == '>' {
      if line[begin + 1] == '>' {
        token, next := Redirect(true), begin + 2;
      } else {
        token, next := Redirect(false), begin + 1;
      }
    } else {
      token, next := End, begin;
    }
  }

  /** The word case of one call: the blanks are skipped up to `start`. */
  method WordArgument(line: array<char>, start: nat, ghost save: nat, ghost stop: nat)
    returns (token: Token, begin: nat, next: nat)
    requires save <= start < line.Length && save <= stop && SearchEnds(line[..][save..])
    requires WordAt(line[..][save..], start - save, (if line[start] == '"' then start + 1 else start) - save,
                    stop - save, line[start] == '"')
    modifies line
    ensures token == Scan(old(CString(line[..][save..], 0))).token && next == save + old(Jump(line[..][save..]))
    ensures save <= begin < next < line.Length && token.Word? && begin + |token.text| <= next
    ensures line[..begin] == old(line[..begin]) && line[next..] == old(line[next..])
    ensures Terminated(line[..], begin) && CString(line[..], begin) == token.text
  {
    hide SearchEnds, WordAt, Jump, Scan, Terminated, CString, NulAt, FindEnd;
    var quoted := line[start] == '"';
    begin := if quoted then start + 1 else start;
    WordJumpAt(line[..], save, start, begin, stop, quoted);
    assert line[..][begin..stop] == line[begin..stop];
    var text;
    text, next := TakeWord(line, begin, quoted, stop);
    token := Word(text, quoted);
  }

  /** One call of the tokeniser on a line buffer, scanning from `save`. A word is terminated in place: it is
      the C string at `begin`. Only the part scanned changes, and only for a word. */
  method Argument(line: array<char>, save: nat) returns (token: Token, begin: nat, next: nat)
    requires save <= line.Length && SearchEnds(line[..][save..])
    modifies line
    ensures token == Scan(old(CString(line[..][save..], 0))).token && next == save + old(Jump(line[..][save..]))
    ensures next < line.Length && line[..save] == old(line[..save]) && line[next..] == old(line[next..])
    ensures !token.Word? ==> line[..] == old(line[..])
    ensures token.Word? ==>
              save < next && old(line[save]) != NUL && begin + |token.text| <= next &&
              Terminated(line[..], begin) && CString(line[..], begin) == token.text
  {
    hide WordAt, Jump, Scan, Terminated, CString, NulAt, StopOf, SkipBlanks;
    ghost var was := line[..];
    SuffixCString(was, save, 0);
    begin := SkipDelimiters(line, save);
    if line[begin] == NUL || line[begin] == '>' || line[begin] == '#' {
      token, next := MarkArgument(line, save, begin);
    } else {
      WordStarts(was, save, begin);
      token, begin, next := WordArgument(line, begin, save, save + StopOf(was[save..]));
      assert line[..begin][..save] == was[..begin][..save];
    }
  }

  // ----- what the words found stand for later

  /** An argument as the shell passes it on: a pointer into the line buffer, or a string from elsewhere. */
  datatype Arg = Pointer(at: nat) | Constant(text: string)

  /** The argument reads as `text`, and what it points to lies before `limit` or ends there. */
  ghost predicate Denotes(buf: seq<char>, arg: Arg, text: string, limit: nat) {
    match arg
    case Pointer(at) => at + |text| <= limit && Terminated(buf, at) && CString(buf, at) == text
    case Constant(t) => t == text
  }

  /** A later call changes nothing a word found before it points to. */
  lemma DenotesKept(was: seq<char>, now: seq<char>, arg: Arg, text: string, save: nat, next: nat)
    requires Denotes(was, arg, text, save) && save <= next && save < |was| == |now|
    requires now == was || (was[save] != NUL && now[..save] == was[..save])
    ensures Denotes(now, arg, text, next)
  {
    if arg.Pointer? && now != was {
      var end := NulAt(was, arg.at);
      assert forall k :: arg.at <= k <= end ==> now[k] == now[..save][k] == was[..save][k] == was[k];
      CStringIs(now, arg.at, end);
      assert now[arg.at..end] == was[arg.at..end];
    }
  }
}
