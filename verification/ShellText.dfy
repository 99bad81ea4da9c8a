/** Tokens of a command line as gettoken finds them, and the line a list of tokens is written as. */
module ShellText {
  import opened Basics
  import opened ShellGrammar

  const NUL: char := '\0'

  /** Where a word stands in the line: from q up to eq. */
  datatype Span = Span(q: int, eq: int)

  predicate White(c: char) {
    c == ' ' || c == '\t' || c == '\r' || c == '\n' || c == '\U{0B}'
  }

  predicate Symbol(c: char) {
    c == '<' || c == '|' || c == '>' || c == '&' || c == ';' || c == '(' || c == ')'
  }

  predicate WordChar(c: char) {
    !White(c) && !Symbol(c) && c != NUL
  }

  /** A command line: a C string's characters, up to its NUL. */
  predicate CString(s: string) {
    forall i :: 0 <= i < |s| ==> s[i] != NUL
  }

  /** Past the white space at i. */
  function Skip(s: string, i: int): (j: int)
    requires 0 <= i <= |s|
    ensures i <= j <= |s| && (j < |s| ==> !White(s[j]))
    decreases |s| - i
  {
    if i < |s| && White(s[i]) then Skip(s, i + 1) else i
  }

  /** Past the word characters at i. */
  function WordEnd(s: string, i: int): (j: int)
    requires 0 <= i <= |s|
    ensures i <= j <= |s| && (forall k :: i <= k < j ==> !White(s[k]) && !Symbol(s[k]))
    ensures (j < |s| ==> White(s[j]) || Symbol(s[j]))
    ensures i < |s| && !White(s[i]) && !Symbol(s[i]) ==> i < j
    decreases |s| - i
  {
    if i < |s| && !White(s[i]) && !Symbol(s[i]) then WordEnd(s, i + 1) else i
  }

  /** gettoken: its result, the token's span, and the cursor after it. */
  datatype Tok = Tok(kind: char, q: int, eq: int, next: int)

  function GetTok(s: string, i: int): (t: Tok)
    requires 0 <= i <= |s|
    ensures i <= t.q <= t.eq <= t.next <= |s| && (t.kind == NUL ==> t.q == |s|) && (t.q < |s| ==> t.q < t.eq)
  {
    var q := Skip(s, i);
    if q == |s| then Tok(NUL, q, q, q)
    else if s[q] == '>' then
      if q + 1 < |s| && s[q + 1] == '>' then Tok('+', q, q + 2, Skip(s, q + 2)) else Tok('>', q, q + 1, Skip(s, q + 1))
    else if Symbol(s[q]) then Tok(s[q], q, q + 1, Skip(s, q + 1))
    else Tok('a', q, WordEnd(s, q), Skip(s, WordEnd(s, q)))
  }

  function TokenOf(t: Tok): Token<Span> {
    if t.kind == 'a' then Word(Span(t.q, t.eq))
    else if t.kind == '<' then Arrow(In)
    else if t.kind == '>' then Arrow(Out)
    else if t.kind == '+' then Arrow(Append)
    else Sym(t.kind)
  }

  /** The tokens from position i on. */
  function Lex(s: string, i: int): seq<Token<Span>>
    requires CString(s) && 0 <= i <= |s|
    decreases |s| - i
  {
    var t := GetTok(s, i);
    if t.q == |s| then [] else [TokenOf(t)] + Lex(s, t.next)
  }

  // ---------------------------------------------------------------------------------
  // Writing tokens out

  function TokText(t: Token<string>): string {
    match t
    case Word(w) => w
    case Sym(c) => [c]
    case Arrow(kind) => if kind.In? then "<" else if kind.Out? then ">" else ">>"
  }

  /** Each token, with a space after it. */
  function Text(ts: seq<Token<string>>): string {
    if ts == [] then "" else TokText(ts[0]) + " " + Text(ts[1..])
  }

  predicate GoodWord(w: string) {
    w != "" && forall i :: 0 <= i < |w| ==> WordChar(w[i])
  }

  predicate GoodToken(t: Token<string>) {
    match t
    case Word(w) => GoodWord(w)
    case Sym(c) => c == '|' || c == '&' || c == ';' || c == '(' || c == ')'
    case Arrow(_) => true
  }

  /** The characters a span stands for. */
  function Spell(s: string): Span -> string {
    (sp: Span) => if 0 <= sp.q <= sp.eq <= |s| then s[sp.q..sp.eq] else ""
  }

  lemma {:induction false} WordEndIs(s: string, i: int, j: int)
    requires 0 <= i <= j < |s| && (forall k :: i <= k < j ==> WordChar(s[k])) && White(s[j])
    ensures WordEnd(s, i) == j
    decreases j - i
  {
    if i < j {
      WordEndIs(s, i + 1, j);
    }
  }

  /** gettoken on a token that was written out finds it, and stops after its space. */
  lemma TokFound(s: string, i: int, t: Token<string>)
    requires CString(s) && GoodToken(t) && 0 <= i && i + |TokText(t)| < |s|
    requires s[i..i + |TokText(t)|] == TokText(t) && s[i + |TokText(t)|] == ' '
    requires i + |TokText(t)| + 1 == |s| || !White(s[i + |TokText(t)| + 1])
    ensures var g := GetTok(s, i);
            g.q == i && g.eq == i + |TokText(t)| && g.next == g.eq + 1 && g.kind != NUL
              && MapToken(Spell(s), TokenOf(g)) == t
  {
    var text, end := TokText(t), i + |TokText(t)|;
    assert forall k :: 0 <= k < |text| ==> s[i + k] == s[i..end][k] == text[k];
    assert s[i] == text[0] && Skip(s, i) == i && Skip(s, end) == end + 1;
    if t.Word? {
      assert forall k :: i <= k < end ==> s[k] == text[k - i];
      WordEndIs(s, i, end);
    } else if |text| == 2 {
      assert s[i + 1] == text[1];
    }
  }

  lemma {:induction false} TextStarts(ts: seq<Token<string>>)
    requires ts != [] && forall i :: 0 <= i < |ts| ==> GoodToken(ts[i])
    ensures Text(ts) != "" && !White(Text(ts)[0])
  {
    assert GoodToken(ts[0]);
    assert Text(ts)[0] == TokText(ts[0])[0];
  }

  lemma {:induction false} TextClean(ts: seq<Token<string>>)
    requires forall i :: 0 <= i < |ts| ==> GoodToken(ts[i])
    ensures CString(Text(ts))
    decreases |ts|
  {
    if ts != [] {
      TextClean(ts[1..]);
      assert GoodToken(ts[0]);
    }
  }

  lemma Pieces(line: string, a: string, b: string)
    requires line == a + " " + b
    ensures |line| == |a| + 1 + |b| && line[..|a|] == a && line[|a|] == ' ' && line[|a| + 1..] == b
  {
  }

  /** The first token of a written line, its space, and the rest. */
  lemma TextPieces(s: string, i: int, ts: seq<Token<string>>)
    requires 0 <= i <= |s| && s[i..] == Text(ts) && ts != []
    ensures var end := i + |TokText(ts[0])|;
            end < |s| && s[i..end] == TokText(ts[0]) && s[end] == ' ' && s[end + 1..] == Text(ts[1..])
  {
    assert Text(ts) == TokText(ts[0]) + " " + Text(ts[1..]);
    hide Text, TokText;
    var text := TokText(ts[0]);
    Pieces(s[i..], text, Text(ts[1..]));
    assert s[i..i + |text|] == s[i..][..|text|];
    assert s[i + |text| + 1..] == s[i..][|text| + 1..];
  }

  /** Reading the rest of a written line gives the rest of its tokens. */
  lemma {:induction false} LexText(s: string, i: int, ts: seq<Token<string>>)
    requires CString(s) && 0 <= i <= |s| && s[i..] == Text(ts) && forall k :: 0 <= k < |ts| ==> GoodToken(ts[k])
    ensures MapToks(Spell(s), Lex(s, i)) == ts
    decreases |ts|
  {
    hide Text, TokText, GetTok, GoodToken, TokenOf, Skip, Lex, Spell;
    if ts == [] {
      TextNothing(s, i);
    } else {
      var end := i + |TokText(ts[0])|;
      TextPieces(s, i, ts);
      if ts[1..] != [] {
        TextStarts(ts[1..]);
        assert s[end + 1..][0] == Text(ts[1..])[0];
      } else {
        TextNothing(s, end + 1);
      }
      TokFound(s, i, ts[0]);
      LexText(s, end + 1, ts[1..]);
      LexStep(s, i, ts[0], ts[1..]);
    }
  }

  lemma TextNothing(s: string, i: int)
    requires CString(s) && 0 <= i <= |s| && s[i..] == Text([])
    ensures i == |s| && Lex(s, i) == []
  {
    assert |s[i..]| == 0;
  }

  lemma LexStep(s: string, i: int, t: Token<string>, rest: seq<Token<string>>)
    requires CString(s) && 0 <= i < |s| && GetTok(s, i).q == i && MapToken(Spell(s), TokenOf(GetTok(s, i))) == t
    requires MapToks(Spell(s), Lex(s, GetTok(s, i).next)) == rest
    ensures MapToks(Spell(s), Lex(s, i)) == [t] + rest
  {
  }

  // ---------------------------------------------------------------------------------
  // The round trip

  predicate GoodWords(c: Cmd<string>) {
    match c
    case Exec(argv) => forall i :: 0 <= i < |argv| ==> GoodWord(argv[i])
    case Redir(cmd, file, _) => GoodWords(cmd) && GoodWord(file)
    case Pipe(l, r) => GoodWords(l) && GoodWords(r)
    case List(l, r) => GoodWords(l) && GoodWords(r)
    case Back(cmd) => GoodWords(cmd)
  }

  lemma {:induction false} UnitGood(c: Cmd<string>, i: int)
    requires GoodWords(c) && 0 <= i < |Unit(c)|
    ensures GoodToken(Unit(c)[i])
    decreases c, 1
  {
    match c
    case Exec(argv) => WordToksGood(argv, i);
    case Redir(cmd, file, kind) => if i < |Unit(cmd)| { UnitGood(cmd, i); }
    case _ =>
      assert Unit(c) == [Sym('(')] + Inner(c) + [Sym(')')];
      if 0 < i < |Unit(c)| - 1 { InnerGood(c, i - 1); }
  }

  lemma {:induction false} InnerGood(c: Cmd<string>, i: int)
    requires Compound(c) && GoodWords(c) && 0 <= i < |Inner(c)|
    ensures GoodToken(Inner(c)[i])
    decreases c, 0
  {
    match c
    case Pipe(l, r) => if i < |Unit(l)| { UnitGood(l, i); } else if i > |Unit(l)| { UnitGood(r, i - |Unit(l)| - 1); }
    case List(l, r) => if i < |Unit(l)| { UnitGood(l, i); } else if i > |Unit(l)| { UnitGood(r, i - |Unit(l)| - 1); }
    case Back(cmd) => if i < |Unit(cmd)| { UnitGood(cmd, i); }
  }

  lemma {:induction false} WordToksGood(argv: seq<string>, i: int)
    requires (forall k :: 0 <= k < |argv| ==> GoodWord(argv[k])) && 0 <= i < |WordToks(argv)|
    ensures GoodToken(WordToks(argv)[i])
    decreases |argv|
  {
    if i > 0 {
      WordToksGood(argv[1..], i - 1);
    }
  }

  /**
  The parser's round trip, on characters: a tree of good words with fewer than MAXARGS arguments
  per command, printed with parentheses, parses to spans of the text that spell the same tree.
  */
  lemma RoundTrip(c: Cmd<string>)
    requires ArgsFit(c) && GoodWords(c)
    ensures var s := Text(Print(c));
            CString(s) && Parse(Lex(s, 0)).Some? && MapCmd(Spell(s), Parse(Lex(s, 0)).value) == c
  {
    var ts, s := Print(c), Text(Print(c));
    forall i | 0 <= i < |ts|
      ensures GoodToken(ts[i])
    {
      if Compound(c) { InnerGood(c, i); } else { UnitGood(c, i); }
    }
    TextClean(ts);
    assert s[0..] == s;
    LexText(s, 0, ts);
    ParseMap(Spell(s), Lex(s, 0));
    PrintParses(c);
  }
}
