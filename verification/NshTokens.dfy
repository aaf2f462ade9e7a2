/** The shell's tokeniser on lines as values: `Scan` says what one call finds in the rest of a line, and
    printing any list of tokens and scanning it again gives the list back. */
module NshTokens {

  const NUL := '\0'

  datatype Option<T> = None | Some(value: T)

  /** What one call finds: nothing more, an output redirection, or a word that was quoted or not. */
  datatype Token = End | Redirect(append: bool) | Word(text: string, quoted: bool)

  /** A token and where in the line scanning goes on. */
  datatype Found = Found(token: Token, rest: nat)

  predicate IsBlank(c: char) {
    c == ' ' || c == '\t' || c == '\n'
  }

  /** First position from `i` on that is not blank, or the end. */
  function SkipBlanks(s: string, i: nat): (j: nat)
    requires i <= |s|
    ensures i <= j <= |s| && (j < |s| ==> !IsBlank(s[j]))
    ensures forall k :: i <= k < j ==> IsBlank(s[k])
    decreases |s| - i
  {
    if i < |s| && IsBlank(s[i]) then SkipBlanks(s, i + 1) else i
  }

  predicate Terminates(c: char, quoted: bool) {
    if quoted then c == '"' else IsBlank(c)
  }

  /** First terminator from `i` on, or the end. */
  function FindEnd(s: string, i: nat, quoted: bool): (j: nat)
    requires i <= |s|
    ensures i <= j <= |s| && (j < |s| ==> Terminates(s[j], quoted))
    ensures forall k :: i <= k < j ==> !Terminates(s[k], quoted)
    decreases |s| - i
  {
    if i < |s| && !Terminates(s[i], quoted) then FindEnd(s, i + 1, quoted) else i
  }

  /** The line does not end in an opening quote with nothing behind it. */
  predicate NoLoneQuote(s: string) {
    var b := SkipBlanks(s, 0);
    b + 1 == |s| ==> s[b] != '"'
  }

  /** The next token of `s`. A word takes at least one character, whatever that character is; behind a
      lone quote that one is the line's terminator, and scanning goes on behind the line. */
  function Scan(s: string): (f: Found)
    ensures f.token != End ==> f.rest > 0
    ensures f.rest <= |s| <==> NoLoneQuote(s)
  {
    var b := SkipBlanks(s, 0);
    if b == |s| then Found(End, 0)
    else if s[b] == '>' then
      if b + 1 < |s| && s[b + 1] == '>' then Found(Redirect(true), b + 2) else Found(Redirect(false), b + 1)
    else if s[b] == '#' then Found(End, b)
    else if !NoLoneQuote(s) then Found(Word("", true), |s| + 1)
    else
      var quoted := s[b] == '"';
      var begin := if quoted then b + 1 else b;
      var end := FindEnd(s, begin + 1, quoted);
      Found(Word(s[begin..end], quoted), if end < |s| then end + 1 else end)
  }

  /** Where the search for the end of a word starts: behind the word's first character. */
  function SearchFrom(s: string): nat
    requires SkipBlanks(s, 0) < |s|
  {
    var b := SkipBlanks(s, 0);
    if s[b] == '"' then b + 2 else b + 1
  }

  /** The search for the end of a word starts inside the line, or at its terminator, exactly when the word
      is not a lone quote. */
  lemma SearchStaysInLineIff(s: string)
    requires SkipBlanks(s, 0) < |s|
    ensures SearchFrom(s) <= |s| <==> NoLoneQuote(s)
  {
  }

  /** The shortest line that is left behind. */
  lemma LoneQuoteLeavesLine()
    ensures SearchFrom("\"") == 2 && Scan("\"") == Found(Word("", true), 2)
  {
  }

  /** Every token up to the end of the line can be scanned. */
  predicate Scannable(s: string)
    decreases |s|
  {
    NoLoneQuote(s) && (Scan(s).token == End || Scannable(s[Scan(s).rest..]))
  }

  function Tokens(s: string): seq<Token>
    requires Scannable(s)
    decreases |s|
  {
    var f := Scan(s);
    if f.token == End then [] else [f.token] + Tokens(s[f.rest..])
  }

  /** Once the end is found it stays found. */
  lemma ScanEndStays(s: string)
    requires NoLoneQuote(s) && Scan(s).token == End
    ensures Scannable(s[Scan(s).rest..]) && Tokens(s[Scan(s).rest..]) == []
  {
    var t := s[Scan(s).rest..];
    if Scan(s).rest > 0 {
      SkipBlanksFinds(t, 0, 0);
    } else {
      assert t == s;
    }
  }

  lemma {:induction false} TokensNoEnd(s: string)
    requires Scannable(s)
    ensures forall i :: 0 <= i < |Tokens(s)| ==> Tokens(s)[i] != End
    decreases |s|
  {
    if Scan(s).token != End {
      TokensNoEnd(s[Scan(s).rest..]);
    }
  }

  // ----- round trip

  /** A word behind some blanks. */
  datatype Piece = Piece(gap: string, word: Token)

  predicate Blanks(s: string) {
    forall i :: 0 <= i < |s| ==> IsBlank(s[i])
  }

  /** Words and redirections that can be written so that they read back: quoted ones without quotes inside, bare ones
      without blanks inside and not starting like something else. */
  predicate Printable(word: Token) {
    match word
    case End => false
    case Redirect(_) => true
    case Word(text, quoted) =>
      |text| > 0 &&
      if quoted then forall i :: 0 <= i < |text| ==> text[i] != '"'
      else
        text[0] != '>' && text[0] != '#' && text[0] != '"' &&
        forall i :: 0 <= i < |text| ==> !IsBlank(text[i])
  }

  function Render(word: Token): string
    requires word != End
  {
    match word
    case Redirect(append) => if append then ">>" else ">"
    case Word(text, quoted) => if quoted then "\"" + text + "\"" else text
  }

  /** Only behind a bare word is a blank used up. */
  predicate EatsBlank(word: Token) {
    word.Word? && !word.quoted
  }

  /** What may follow the last word: nothing, or a blank and then only blanks and perhaps a comment. */
  predicate TailOk(tail: string) {
    tail == "" || (IsBlank(tail[0]) && NoLoneQuote(tail) && Scan(tail).token == End)
  }

  /** Printable words, each behind blanks; only the first may stand right at the start. */
  predicate Layout(pieces: seq<Piece>) {
    forall i :: 0 <= i < |pieces| ==>
      Printable(pieces[i].word) && Blanks(pieces[i].gap) && (i > 0 ==> |pieces[i].gap| > 0)
  }

  function Print(pieces: seq<Piece>, tail: string): string
    requires forall i :: 0 <= i < |pieces| ==> pieces[i].word != End
  {
    if pieces == [] then tail else pieces[0].gap + Render(pieces[0].word) + Print(pieces[1..], tail)
  }

  function WordsOf(pieces: seq<Piece>): (ts: seq<Token>)
    ensures |ts| == |pieces|
  {
    seq(|pieces|, i requires 0 <= i < |pieces| => pieces[i].word)
  }

  lemma {:induction false} SkipBlanksFinds(s: string, i: nat, j: nat)
    requires i <= j <= |s| && (forall k :: i <= k < j ==> IsBlank(s[k])) && (j < |s| ==> !IsBlank(s[j]))
    ensures SkipBlanks(s, i) == j
    decreases j - i
  {
    if i < j {
      SkipBlanksFinds(s, i + 1, j);
    }
  }

  lemma {:induction false} FindEndFinds(s: string, i: nat, quoted: bool, j: nat)
    requires i <= j <= |s| && (forall k :: i <= k < j ==> !Terminates(s[k], quoted))
    requires j < |s| ==> Terminates(s[j], quoted)
    ensures FindEnd(s, i, quoted) == j
    decreases j - i
  {
    if i < j {
      FindEndFinds(s, i + 1, quoted, j);
    }
  }

  lemma Middle(a: string, b: string, c: string)
    ensures (a + b + c)[|a|..|a| + |b|] == b
    ensures forall i :: 0 <= i < |b| ==> (a + b + c)[|a| + i] == b[i]
  {
  }

  lemma SliceInSlice(s: string, b: nat, m: nat, i: nat, j: nat)
    requires b + m <= |s| && i <= j <= m
    ensures s[b + i..b + j] == s[b..b + m][i..j]
  {
    var t := s[b..b + m];
    assert |s[b + i..b + j]| == |t[i..j]|;
    assert forall k :: 0 <= k < j - i ==> s[b + i..b + j][k] == s[b + (i + k)] == t[i + k] == t[i..j][k];
  }

  lemma ScanQuotedAt(s: string, b: nat, end: nat)
    requires b + 1 < end < |s| && s[b] == '"' && s[end] == '"'
    requires forall k :: 0 <= k < b ==> IsBlank(s[k])
    requires forall k :: b + 2 <= k < end ==> s[k] != '"'
    ensures NoLoneQuote(s) && Scan(s) == Found(Word(s[b + 1..end], true), end + 1)
  {
    SkipBlanksFinds(s, 0, b);
    FindEndFinds(s, b + 2, true, end);
  }

  lemma ScanQuoted(s: string, gap: string, text: string, more: string)
    requires Blanks(gap) && Printable(Word(text, true)) && s == gap + ("\"" + text + "\"") + more
    ensures NoLoneQuote(s) && Scan(s) == Found(Word(text, true), |s| - |more|)
  {
    hide Scan, NoLoneQuote;
    var b, end, q := |gap|, |gap| + 1 + |text|, "\"" + text + "\"";
    Middle(gap, q, more);
    assert q[1..1 + |text|] == text && q[1 + |text|] == '"';
    SliceInSlice(s, b, |q|, 1, 1 + |text|);
    assert forall k :: b + 1 <= k < end ==> s[k] == s[b + 1..end][k - (b + 1)];
    ScanQuotedAt(s, b, end);
  }

  lemma ScanBare(s: string, gap: string, text: string, more: string)
    requires Blanks(gap) && Printable(Word(text, false)) && s == gap + text + more
    requires more == "" || IsBlank(more[0])
    ensures NoLoneQuote(s) && Scan(s) == Found(Word(text, false), |s| - |more| + if more == "" then 0 else 1)
  {
    var b, end := |gap|, |gap| + |text|;
    assert s[b] == text[0];
    SkipBlanksFinds(s, 0, b);
    assert s[b..end] == text;
    FindEndFinds(s, b + 1, false, end);
  }

  lemma ScanRedirect(s: string, gap: string, append: bool, more: string)
    requires Blanks(gap) && s == gap + (if append then ">>" else ">") + more
    requires more == "" || IsBlank(more[0])
    ensures NoLoneQuote(s) && Scan(s) == Found(Redirect(append), |s| - |more|) && s[|s| - |more|..] == more
  {
    var b := |gap|;
    assert s[b] == '>' && (append ==> s[b + 1] == '>');
    assert !append && more != "" ==> s[b + 1] == more[0];
    SkipBlanksFinds(s, 0, b);
  }

  /** Scanning a printed word finds it and stops right behind it. */
  lemma ScanPrinted(gap: string, word: Token, more: string)
    requires Blanks(gap) && Printable(word)
    requires more == "" || IsBlank(more[0])
    ensures var s := gap + Render(word) + more;
            NoLoneQuote(s) && Scan(s).token == word &&
            s[Scan(s).rest..] == if EatsBlank(word) && more != "" then more[1..] else more
  {
    var s := gap + Render(word) + more;
    if word.Redirect? {
      ScanRedirect(s, gap, word.append, more);
    } else if word.quoted {
      ScanQuoted(s, gap, word.text, more);
    } else {
      ScanBare(s, gap, word.text, more);
    }
  }

  lemma EndAfterBlank(tail: string)
    requires tail != "" && TailOk(tail)
    ensures NoLoneQuote(tail[1..]) && Scan(tail[1..]).token == End
  {
    var b := SkipBlanks(tail, 0);
    SkipBlanksFinds(tail[1..], 0, b - 1);
  }

  lemma PrintStartsBlank(pieces: seq<Piece>, tail: string)
    requires Layout(pieces) && TailOk(tail) && (pieces != [] ==> |pieces[0].gap| > 0)
    ensures Print(pieces, tail) == "" || IsBlank(Print(pieces, tail)[0])
  {
  }

  /** The rest of a printed line with its leading blank taken off is printed with a shorter first gap. */
  lemma PrintDropBlank(pieces: seq<Piece>, tail: string)
    requires Layout(pieces) && pieces != [] && |pieces[0].gap| > 0
    ensures var shorter := [Piece(pieces[0].gap[1..], pieces[0].word)] + pieces[1..];
            Layout(shorter) && WordsOf(shorter) == WordsOf(pieces) && Print(shorter, tail) == Print(pieces, tail)[1..]
  {
    var p := pieces[0];
    var shorter := [Piece(p.gap[1..], p.word)] + pieces[1..];
    assert shorter[1..] == pieces[1..];
    assert WordsOf(shorter) == WordsOf(pieces);
    DropFirst(p.gap, Render(p.word), Print(pieces[1..], tail));
  }

  lemma DropFirst(a: string, b: string, c: string)
    requires |a| > 0
    ensures (a + b + c)[1..] == a[1..] + b + c
  {
  }

  lemma TailReadsEmpty(tail: string)
    requires TailOk(tail)
    ensures Scannable(tail) && Tokens(tail) == []
  {
  }

  /** Printing words, however spaced, and scanning the line gives exactly those words and then the end. */
  lemma {:induction false} RoundTrip(pieces: seq<Piece>, tail: string)
    requires Layout(pieces) && TailOk(tail)
    ensures Scannable(Print(pieces, tail)) && Tokens(Print(pieces, tail)) == WordsOf(pieces)
    decreases |pieces|
  {
    hide Scan, TailOk, Render;
    if pieces == [] {
      TailReadsEmpty(tail);
    } else {
      var more := Print(pieces[1..], tail);
      PrintStartsBlank(pieces[1..], tail);
      ScanPrinted(pieces[0].gap, pieces[0].word, more);
      assert WordsOf(pieces) == [pieces[0].word] + WordsOf(pieces[1..]);
      if !EatsBlank(pieces[0].word) || more == "" {
        RoundTrip(pieces[1..], tail);
      } else if |pieces| > 1 {
        PrintDropBlank(pieces[1..], tail);
        RoundTrip([Piece(pieces[1].gap[1..], pieces[1].word)] + pieces[2..], tail);
        assert pieces[1..][1..] == pieces[2..];
      } else {
        EndAfterBlank(tail);
        assert WordsOf(pieces) == [pieces[0].word];
      }
    }
  }

  /** What may stand behind the last word: nothing, or a space, tab or newline and then only more of those, or
      a comment behind at least one of them. */
  lemma TailOkIff(tail: string)
    ensures TailOk(tail) <==>
            (forall i :: 0 <= i < |tail| ==> tail[i] in " \t\n") ||
            exists k :: 0 < k < |tail| && tail[k] == '#' && forall i :: 0 <= i < k ==> tail[i] in " \t\n"
  {
    var b := SkipBlanks(tail, 0);
    if tail != "" && IsBlank(tail[0]) && b < |tail| && tail[b] == '#' {
      assert 0 < b < |tail| && tail[b] == '#' && forall i :: 0 <= i < b ==> tail[i] in " \t\n";
    }
    if k :| 0 < k < |tail| && tail[k] == '#' && forall i :: 0 <= i < k ==> tail[i] in " \t\n" {
      SkipBlanksFinds(tail, 0, k);
    }
  }

  /** A pair of quotes with nothing between does not read as an empty word: the second quote is taken for text. */
  lemma EmptyQuotesReadOn(text: string, more: string)
    requires forall i :: 0 <= i < |text| ==> text[i] != '"'
    ensures Scan("\"\"").token == Word("\"", true)
    ensures Scan("\"\"" + text + "\"" + more).token == Word("\"" + text, true)
  {
    FindEndFinds("\"\"", 2, true, 2);
    var s, end := "\"\"" + text + "\"" + more, 2 + |text|;
    assert s[..2] == "\"\"" && s[end] == '"' && s[1..end] == "\"" + text;
    assert forall k :: 2 <= k < end ==> s[k] == text[k - 2];
    SkipBlanksFinds(s, 0, 0);
    FindEndFinds(s, 2, true, end);
  }
}
