/** The recursive-descent parser of user/sh.c on a line buffer, with its cursor and its NULs. */
module Shell {
  import opened Basics
  import opened ShellGrammar
  import opened ShellText

  type Tree = Cmd<Span>

  // ---------------------------------------------------------------------------------
  // What the cursor sees

  lemma LexSkip(s: string, i: int)
    requires CString(s) && 0 <= i <= |s|
    ensures Skip(s, Skip(s, i)) == Skip(s, i) && GetTok(s, Skip(s, i)) == GetTok(s, i)
    ensures Lex(s, Skip(s, i)) == Lex(s, i)
  {
  }

  /** The character peek looks at tells what token comes next. */
  lemma NextIs(s: string, i: int)
    requires CString(s) && 0 <= i <= |s|
    ensures var j, ts := Skip(s, i), Lex(s, i);
            && (j == |s| <==> ts == [])
            && (j < |s| ==>
                  ts[0] == TokenOf(GetTok(s, i)) && ts[1..] == Lex(s, GetTok(s, i).next) && GetTok(s, i).q == j)
            && (j < |s| ==> (ts[0].Arrow? <==> s[j] == '<' || s[j] == '>') && (ts[0].Word? <==> !Symbol(s[j])))
            && (j < |s| ==> forall c {:trigger At(ts, c)} ::
                   At(ts, c) <==> s[j] == c && Symbol(c) && c != '<' && c != '>')
  {
  }

  // ---------------------------------------------------------------------------------
  // The words a tree points to

  /** A maximal run of word characters. */
  ghost predicate SpanOk(s: string, sp: Span) {
    && 0 <= sp.q < sp.eq <= |s| && (forall k :: sp.q <= k < sp.eq ==> WordChar(s[k]))
    && (sp.eq < |s| ==> !WordChar(s[sp.eq]))
  }

  ghost predicate SpansOk(s: string, c: Tree) {
    match c
    case Exec(argv) => forall i :: 0 <= i < |argv| ==> SpanOk(s, argv[i])
    case Redir(cmd, file, _) => SpansOk(s, cmd) && SpanOk(s, file)
    case Pipe(l, r) => SpansOk(s, l) && SpansOk(s, r)
    case List(l, r) => SpansOk(s, l) && SpansOk(s, r)
    case Back(cmd) => SpansOk(s, cmd)
  }

  /** Moves exactly the spans that are not words. */
  ghost function Mark(s: string): Span -> Span {
    (sp: Span) => if SpanOk(s, sp) then sp else Span(sp.q + 1, sp.eq)
  }

  /** A word token is a whole word. */
  lemma TokSpan(s: string, i: int)
    requires CString(s) && 0 <= i <= |s| && GetTok(s, i).q < |s|
    ensures MapToken(Mark(s), TokenOf(GetTok(s, i))) == TokenOf(GetTok(s, i))
  {
  }

  lemma {:induction false} LexSpans(s: string, i: int)
    requires CString(s) && 0 <= i <= |s|
    ensures MapToks(Mark(s), Lex(s, i)) == Lex(s, i)
    decreases |s| - i
  {
    hide GetTok, Mark, SpanOk, TokenOf;
    var t := GetTok(s, i);
    if t.q < |s| {
      LexSpans(s, t.next);
      TokSpan(s, i);
    }
  }

  lemma {:induction false} MarkFixed(s: string, c: Tree)
    requires MapCmd(Mark(s), c) == c
    ensures SpansOk(s, c)
  {
    match c
    case Exec(argv) =>
      forall i | 0 <= i < |argv| ensures SpanOk(s, argv[i]) {
        assert MapWords(Mark(s), argv)[i] == Mark(s)(argv[i]);
      }
    case Redir(cmd, file, _) => MarkFixed(s, cmd);
    case Pipe(l, r) => MarkFixed(s, l); MarkFixed(s, r);
    case List(l, r) => MarkFixed(s, l); MarkFixed(s, r);
    case Back(cmd) => MarkFixed(s, cmd);
  }

  /** Every pointer pair in a parsed tree is a word of the line. */
  lemma ParsedSpans(s: string, i: int)
    requires CString(s) && 0 <= i <= |s| && Parse(Lex(s, i)).Some?
    ensures SpansOk(s, Parse(Lex(s, i)).value)
  {
    LexSpans(s, i);
    ParseMap(Mark(s), Lex(s, i));
    MarkFixed(s, Parse(Lex(s, i)).value);
  }

  // ---------------------------------------------------------------------------------
  // NULs in the buffer

  /** Only characters outside words have been overwritten, with NUL. */
  ghost predicate Over(b: seq<char>, s: string) {
    && |s| < |b| && b[|s|] == NUL
    && forall i :: 0 <= i < |s| ==> b[i] == s[i] || (b[i] == NUL && !WordChar(s[i]))
  }

  /** The end of every word of the tree holds a NUL. */
  ghost predicate Ended(b: seq<char>, c: Tree) {
    match c
    case Exec(argv) => forall i :: 0 <= i < |argv| ==> 0 <= argv[i].eq < |b| && b[argv[i].eq] == NUL
    case Redir(cmd, file, _) => Ended(b, cmd) && 0 <= file.eq < |b| && b[file.eq] == NUL
    case Pipe(l, r) => Ended(b, l) && Ended(b, r)
    case List(l, r) => Ended(b, l) && Ended(b, r)
    case Back(cmd) => Ended(b, cmd)
  }

  /** NULs stay. */
  ghost predicate Kept(b: seq<char>, b': seq<char>) {
    |b'| == |b| && forall i :: 0 <= i < |b| && b[i] == NUL ==> b'[i] == NUL
  }

  lemma {:induction false} EndedKept(b: seq<char>, b': seq<char>, c: Tree)
    requires Ended(b, c) && Kept(b, b')
    ensures Ended(b', c)
  {
    match c
    case Exec(_) =>
    case Redir(cmd, _, _) => EndedKept(b, b', cmd);
    case Pipe(l, r) => EndedKept(b, b', l); EndedKept(b, b', r);
    case List(l, r) => EndedKept(b, b', l); EndedKept(b, b', r);
    case Back(cmd) => EndedKept(b, b', cmd);
  }

  /** The C string at q. */
  function StrAt(b: seq<char>, q: int): string
    decreases |b| - q
  {
    if 0 <= q < |b| && b[q] != NUL then [b[q]] + StrAt(b, q + 1) else ""
  }

  function Strings(b: seq<char>): Span -> string {
    (sp: Span) => StrAt(b, sp.q)
  }

  lemma {:induction false} StrIs(b: seq<char>, s: string, q: int, eq: int)
    requires Over(b, s) && 0 <= q <= eq <= |s| && (forall k :: q <= k < eq ==> WordChar(s[k])) && b[eq] == NUL
    ensures StrAt(b, q) == s[q..eq]
    decreases eq - q
  {
    if q < eq {
      StrIs(b, s, q + 1, eq);
    }
  }

  /** After nulterminate every pointer in the tree is a C string equal to its token. */
  lemma {:induction false} StringsAre(b: seq<char>, s: string, c: Tree)
    requires Over(b, s) && SpansOk(s, c) && Ended(b, c)
    ensures MapCmd(Strings(b), c) == MapCmd(Spell(s), c)
  {
    match c
    case Exec(argv) =>
      forall i | 0 <= i < |argv|
        ensures MapWords(Strings(b), argv)[i] == MapWords(Spell(s), argv)[i]
      {
        assert SpanOk(s, argv[i]);
        StrIs(b, s, argv[i].q, argv[i].eq);
      }
    case Redir(cmd, file, _) =>
      StringsAre(b, s, cmd);
      StrIs(b, s, file.q, file.eq);
    case Pipe(l, r) => StringsAre(b, s, l); StringsAre(b, s, r);
    case List(l, r) => StringsAre(b, s, l); StringsAre(b, s, r);
    case Back(cmd) => StringsAre(b, s, cmd);
  }

  class Parser {
    const buf: array<char>
    const es: int
    var ps: int

    /** A NUL-terminated line, with the cursor in it. */
    ghost predicate Valid()
      reads this, buf
    {
      0 <= ps <= es < buf.Length && buf[es] == NUL && CString(buf[..es])
    }

    ghost function S(): string
      reads this, buf
      requires Valid()
    {
      buf[..es]
    }

    ghost function Toks(): seq<Token<Span>>
      reads this, buf
      requires Valid()
    {
      Lex(S(), ps)
    }

    /** What a parsing method returns is what the grammar says, with the cursor at the rest; None is a panic. */
    ghost predicate Agrees(spec: Parsed<Span>, r: Option<Tree>)
      reads this, buf
      requires Valid()
    {
      match spec
      case None => r.None?
      case Some((cmd, rest)) => r == Some(cmd) && Toks() == rest
    }

    constructor (buf: array<char>, es: int)
      requires 0 <= es < buf.Length && buf[es] == NUL && CString(buf[..es])
      ensures Valid() && this.buf == buf && this.es == es && ps == 0
    {
      this.buf, this.es, ps := buf, es, 0;
    }

    /** The white-space loop of gettoken and peek. */
    method SkipWhite(from: int) returns (i: int)
      requires Valid() && 0 <= from <= es
      ensures i == Skip(S(), from)
    {
      i := from;
      while i < es && White(buf[i])
        invariant from <= i <= es && Skip(S(), i) == Skip(S(), from)
      {
        i := i + 1;
      }
    }

    method WordLoop(from: int) returns (i: int)
      requires Valid() && 0 <= from <= es
      ensures i == WordEnd(S(), from)
    {
      i := from;
      while i < es && !White(buf[i]) && !Symbol(buf[i])
        invariant from <= i <= es && WordEnd(S(), i) == WordEnd(S(), from)
      {
        i := i + 1;
      }
    }

    /** gettoken. */
    method GetToken() returns (kind: char, q: int, eq: int)
      requires Valid()
      modifies this`ps
      ensures Valid() && Tok(kind, q, eq, ps) == GetTok(S(), old(ps))
    {
      q := SkipWhite(ps);
      var i := q;
      kind := buf[q];
      if kind == NUL {
      } else if kind == '>' {
        i := i + 1;
        if buf[i] == '>' {
          kind := '+';
          i := i + 1;
        }
      } else if Symbol(kind) {
        i := i + 1;
      } else {
        kind := 'a';
        i := WordLoop(i);
      }
      eq := i;
      ps := SkipWhite(i);
    }

    /** peek. */
    method Peek(toks: string) returns (r: bool)
      requires Valid()
      modifies this`ps
      ensures Valid() && ps == Skip(S(), old(ps)) && Toks() == old(Toks()) && (r <==> ps < es && S()[ps] in toks)
    {
      LexSkip(S(), ps);
      ps := SkipWhite(ps);
      r := ps < es && buf[ps] in toks;
    }

    /** gettoken, as a step over the tokens. */
    method Next() returns (kind: char, sp: Span)
      requires Valid()
      modifies this`ps
      ensures Valid() && (kind == NUL <==> old(Toks()) == [])
      ensures old(Toks()) == [] ==> Toks() == []
      ensures old(Toks()) != [] ==> Toks() == old(Toks())[1..] && (kind == 'a' <==> old(Toks())[0].Word?)
      ensures kind == 'a' ==> old(Toks())[0] == Word(sp)
      ensures old(Toks()) != [] && old(Toks())[0].Arrow? ==>
                old(Toks())[0].kind == if kind == '<' then In else if kind == '>' then Out else Append
    {
      NextIs(S(), ps);
      var q, eq: int;
      kind, q, eq := GetToken();
      sp := Span(q, eq);
    }

    /** peek(c) and, if it is there, gettoken: the next symbol is consumed. */
    method Accept(c: char) returns (r: bool)
      requires Valid() && (c == '|' || c == '&' || c == ';' || c == '(' || c == ')')
      modifies this`ps
      ensures Valid() && (r <==> At(old(Toks()), c)) && Toks() == if r then old(Toks())[1..] else old(Toks())
    {
      NextIs(S(), ps);
      r := Peek([c]);
      if r {
        var _, _ := Next();
      }
    }

    method PeekArrow() returns (r: bool)
      requires Valid()
      modifies this`ps
      ensures Valid() && Toks() == old(Toks()) && (r <==> |Toks()| > 0 && Toks()[0].Arrow?)
    {
      NextIs(S(), ps);
      r := Peek("<>");
    }

    method PeekStop() returns (r: bool)
      requires Valid()
      modifies this`ps
      ensures Valid() && Toks() == old(Toks()) && (r <==> Toks() != [] && Stop(Toks()))
    {
      NextIs(S(), ps);
      r := Peek("|)&;");
    }

    /** parseredirs, after some redirections of the same command. */
    method ParseRedirs(taken: seq<(Span, Kind)>) returns (r: Option<seq<(Span, Kind)>>)
      requires Valid()
      modifies this`ps
      ensures Valid()
      ensures match TakeRedirs(taken, old(Toks())) {
                case None => r.None?
                case Some((redirs, rest)) => r == Some(redirs) && Toks() == rest
              }
    {
      hide Lex;
      var redirs := taken;
      var more := PeekArrow();
      while more
        invariant Valid() && TakeRedirs(redirs, Toks()) == TakeRedirs(taken, old(Toks()))
        invariant more <==> |Toks()| > 0 && Toks()[0].Arrow?
        decreases |Toks()|
      {
        var tok, _ := Next();
        var kind, sp := Next();
        if kind != 'a' {
          return None;
        }
        redirs := redirs + [(sp, if tok == '<' then In else if tok == '>' then Out else Append)];
        more := PeekArrow();
      }
      r := Some(redirs);
    }

    /** parseexec's loop. */
    method ParseWords(first: seq<(Span, Kind)>) returns (r: Option<Tree>)
      requires Valid()
      modifies this`ps
      ensures Valid() && Agrees(Words([], first, old(Toks())), r)
    {
      hide Lex;
      var argv: seq<Span>, redirs := [], first;
      var stop := PeekStop();
      while !stop
        invariant Valid() && Words(argv, redirs, Toks()) == Words([], first, old(Toks()))
        invariant (stop <==> Toks() != [] && Stop(Toks()))
        decreases |Toks()|, !stop
      {
        var tok, sp := Next();
        if tok == NUL {
          break;
        }
        if tok != 'a' {
          return None;
        }
        argv := argv + [sp];
        if |argv| >= MAXARGS {
          return None;
        }
        var more := ParseRedirs(redirs);
        if more.None? {
          return None;
        }
        redirs := more.value;
        stop := PeekStop();
      }
      r := Some(Wrap(Exec(argv), redirs));
    }

    /** parseexec. */
    method ParseExec() returns (r: Option<Tree>)
      requires Valid()
      modifies this`ps
      ensures Valid() && Agrees(Simple(old(Toks())), r)
      decreases |Toks()|, 1
    {
      hide Lex;
      NextIs(S(), ps);
      var block := Peek("(");
      if block {
        r := ParseBlock();
        return;
      }
      var redirs := ParseRedirs([]);
      if redirs.None? {
        return None;
      }
      r := ParseWords(redirs.value);
    }

    /** parseblock, at its parenthesis. */
    method ParseBlock() returns (r: Option<Tree>)
      requires Valid() && At(Toks(), '(')
      modifies this`ps
      ensures Valid() && Agrees(Block(old(Toks())), r)
      decreases |Toks()|, 0
    {
      hide Lex;
      var open := Accept('(');
      var cmd := ParseLine();
      if cmd.None? {
        return None;
      }
      var close := Accept(')');
      if !close {
        return None;
      }
      var redirs := ParseRedirs([]);
      if redirs.None? {
        return None;
      }
      r := Some(Wrap(cmd.value, redirs.value));
    }

    /** parsepipe. */
    method ParsePipe() returns (r: Option<Tree>)
      requires Valid()
      modifies this`ps
      ensures Valid() && Agrees(Pipeline(old(Toks())), r)
      decreases |Toks()|, 2
    {
      hide Lex;
      r := ParseExec();
      if r.None? {
        return;
      }
      var more := Accept('|');
      if more {
        var right := ParsePipe();
        r := if right.None? then None else Some(Pipe(r.value, right.value));
      }
    }

    /** parseline. */
    method ParseLine() returns (r: Option<Tree>)
      requires Valid()
      modifies this`ps
      ensures Valid() && Agrees(Line(old(Toks())), r)
      decreases |Toks()|, 3
    {
      hide Lex;
      r := ParsePipe();
      if r.None? {
        return;
      }
      var cmd := r.value;
      ghost var rest := Toks();
      var back := Accept('&');
      while back
        invariant Valid() && Backs(r.value, rest) == Backs(if back then Back(cmd) else cmd, Toks())
        invariant |Toks()| <= |rest|
        invariant !back ==> !At(Toks(), '&')
        decreases |Toks()|, back
      {
        cmd := Back(cmd);
        back := Accept('&');
      }
      var list := Accept(';');
      if list {
        var right := ParseLine();
        r := if right.None? then None else Some(List(cmd, right.value));
      } else {
        r := Some(cmd);
      }
    }

    /** nulterminate: NULs at the ends of the tree's words, and inside no word of the line s. */
    method NulTerminate(c: Tree, ghost s: string)
      requires Over(buf[..], s) && SpansOk(s, c)
      modifies buf
      ensures Over(buf[..], s) && Ended(buf[..], c) && Kept(old(buf[..]), buf[..])
      decreases c
    {
      match c
      case Exec(argv) =>
        var i := 0;
        while i < |argv|
          invariant 0 <= i <= |argv| && Over(buf[..], s) && Kept(old(buf[..]), buf[..])
          invariant forall j :: 0 <= j < i ==> buf[argv[j].eq] == NUL
        {
          assert SpanOk(s, argv[i]);
          buf[argv[i].eq] := NUL;
          i := i + 1;
        }
      case Redir(cmd, file, _) =>
        NulTerminate(cmd, s);
        ghost var b := buf[..];
        buf[file.eq] := NUL;
        EndedKept(b, buf[..], cmd);
      case Pipe(l, r) =>
        NulTerminate(l, s);
        ghost var b := buf[..];
        NulTerminate(r, s);
        EndedKept(b, buf[..], l);
      case List(l, r) =>
        NulTerminate(l, s);
        ghost var b := buf[..];
        NulTerminate(r, s);
        EndedKept(b, buf[..], l);
      case Back(cmd) => NulTerminate(cmd, s);
    }

    /**
    parsecmd: the tree the grammar gives the line, None on a panic; its pointers are C strings
    that spell the words they pointed at.
    */
    method ParseCmd() returns (r: Option<Tree>)
      requires Valid() && ps == 0
      modifies this`ps, buf
      ensures r == Parse(Lex(old(S()), 0))
      ensures r.Some? ==> MapCmd(Strings(buf[..]), r.value) == MapCmd(Spell(old(S())), r.value)
    {
      ghost var s := S();
      r := ParseLine();
      if r.None? {
        return;
      }
      NextIs(S(), ps);
      var _ := Peek("");
      if ps != es {
        return None;
      }
      ParsedSpans(s, 0);
      assert buf[..][es] == NUL && forall i :: 0 <= i < es ==> buf[..][i] == s[i];
      NulTerminate(r.value, s);
      StringsAre(buf[..], s, r.value);
    }
  }
}
