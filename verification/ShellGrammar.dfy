/**
The command grammar of user/sh.c over tokens: what the recursive-descent parser accepts, and a
printing of command trees it parses back.
*/
module ShellGrammar {
  import opened Basics

  const MAXARGS: nat := 10

  /** The three redirections, with the open modes and descriptors parseredirs gives them. */
  datatype Kind = In | Out | Append

  datatype Cmd<W> =
    | Exec(argv: seq<W>)
    | Redir(cmd: Cmd<W>, file: W, kind: Kind)
    | Pipe(left: Cmd<W>, right: Cmd<W>)
    | List(left: Cmd<W>, right: Cmd<W>)
    | Back(cmd: Cmd<W>)

  datatype Token<W> = Word(w: W) | Sym(c: char) | Arrow(kind: Kind)

  /** A tree and the tokens after it; None where the parser panics. */
  type Parsed<W> = Option<(Cmd<W>, seq<Token<W>>)>

  predicate At<W>(ts: seq<Token<W>>, c: char) {
    |ts| > 0 && ts[0].Sym? && ts[0].c == c
  }

  /** One of the symbols that end a simple command, or the end of the input. */
  predicate Stop<W>(ts: seq<Token<W>>) {
    ts == [] || At(ts, '|') || At(ts, ')') || At(ts, '&') || At(ts, ';')
  }

  /** The loop of parseexec, with the words and redirections so far. */
  function Words<W>(argv: seq<W>, redirs: seq<(W, Kind)>, ts: seq<Token<W>>): (r: Parsed<W>)
    ensures r.Some? ==> |r.value.1| <= |ts|
    decreases |ts|
  {
    if Stop(ts) then Some((Wrap(Exec(argv), redirs), ts))
    else if !ts[0].Word? || |argv| + 1 >= MAXARGS then None
    else
      match TakeRedirs(redirs, ts[1..])
      case None => None
      case Some((more, rest)) => Words(argv + [ts[0].w], more, rest)
  }

  /** The redirections of a simple command, innermost first, around its Exec node. */
  function Wrap<W>(cmd: Cmd<W>, redirs: seq<(W, Kind)>): Cmd<W> {
    if redirs == [] then cmd
    else Redir(Wrap(cmd, redirs[..|redirs| - 1]), redirs[|redirs| - 1].0, redirs[|redirs| - 1].1)
  }

  /** parseredirs, after some redirections: the command they apply to may still be growing. */
  function TakeRedirs<W>(redirs: seq<(W, Kind)>, ts: seq<Token<W>>): (r: Option<(seq<(W, Kind)>, seq<Token<W>>)>)
    ensures r.Some? ==> |r.value.1| <= |ts|
    decreases |ts|
  {
    if |ts| > 0 && ts[0].Arrow? then
      if |ts| > 1 && ts[1].Word? then TakeRedirs(redirs + [(ts[1].w, ts[0].kind)], ts[2..]) else None
    else Some((redirs, ts))
  }

  /** parseexec. */
  function Simple<W>(ts: seq<Token<W>>): (r: Parsed<W>)
    ensures r.Some? ==> |r.value.1| <= |ts|
    decreases |ts|, 1
  {
    if At(ts, '(') then Block(ts)
    else
      match TakeRedirs([], ts)
      case None => None
      case Some((redirs, rest)) => Words([], redirs, rest)
  }

  /** parseblock. */
  function Block<W>(ts: seq<Token<W>>): (r: Parsed<W>)
    requires At(ts, '(')
    ensures r.Some? ==> |r.value.1| < |ts|
    decreases |ts|, 0
  {
    match Line(ts[1..])
    case None => None
    case Some((cmd, rest)) =>
      if At(rest, ')') then
        match TakeRedirs([], rest[1..])
        case None => None
        case Some((redirs, rest')) => Some((Wrap(cmd, redirs), rest'))
      else None
  }

  /** parsepipe. */
  function Pipeline<W>(ts: seq<Token<W>>): (r: Parsed<W>)
    ensures r.Some? ==> |r.value.1| <= |ts|
    decreases |ts|, 2
  {
    match Simple(ts)
    case None => None
    case Some((cmd, rest)) =>
      if At(rest, '|') then
        match Pipeline(rest[1..])
        case None => None
        case Some((right, rest')) => Some((Pipe(cmd, right), rest'))
      else Some((cmd, rest))
  }

  /** The `&` loop of parseline. */
  function Backs<W>(cmd: Cmd<W>, ts: seq<Token<W>>): (r: (Cmd<W>, seq<Token<W>>))
    ensures |r.1| <= |ts|
    decreases |ts|
  {
    if At(ts, '&') then Backs(Back(cmd), ts[1..]) else (cmd, ts)
  }

  /** parseline. */
  function Line<W>(ts: seq<Token<W>>): (r: Parsed<W>)
    ensures r.Some? ==> |r.value.1| <= |ts|
    decreases |ts|, 3
  {
    match Pipeline(ts)
    case None => None
    case Some((first, rest)) =>
      var (cmd, rest') := Backs(first, rest);
      if At(rest', ';') then
        match Line(rest'[1..])
        case None => None
        case Some((right, end)) => Some((List(cmd, right), end))
      else Some((cmd, rest'))
  }

  /** parsecmd: a whole line, with nothing left over. */
  function Parse<W>(ts: seq<Token<W>>): Option<Cmd<W>> {
    match Line(ts)
    case None => None
    case Some((cmd, rest)) => if rest == [] then Some(cmd) else None
  }

  // ---------------------------------------------------------------------------------
  // Printing

  /** What parseexec can parse back: a simple command with redirections, or a parenthesised line. */
  function Unit<W>(c: Cmd<W>): seq<Token<W>>
    decreases c, 1
  {
    match c
    case Exec(argv) => WordToks(argv)
    case Redir(cmd, file, kind) => Unit(cmd) + [Arrow(kind), Word(file)]
    case _ => [Sym('(')] + Inner(c) + [Sym(')')]
  }

  predicate Compound<W>(c: Cmd<W>) {
    c.Pipe? || c.List? || c.Back?
  }

  function Inner<W>(c: Cmd<W>): seq<Token<W>>
    requires Compound(c)
    decreases c, 0
  {
    match c
    case Pipe(l, r) => Unit(l) + [Sym('|')] + Unit(r)
    case List(l, r) => Unit(l) + [Sym(';')] + Unit(r)
    case Back(cmd) => Unit(cmd) + [Sym('&')]
  }

  /** The parenthesised printing of a command tree. */
  function Print<W>(c: Cmd<W>): seq<Token<W>> {
    if Compound(c) then Inner(c) else Unit(c)
  }

  function WordToks<W>(argv: seq<W>): seq<Token<W>> {
    if argv == [] then [] else [Word(argv[0])] + WordToks(argv[1..])
  }

  function RedirToks<W>(redirs: seq<(W, Kind)>): seq<Token<W>> {
    if redirs == [] then [] else [Arrow(redirs[0].1), Word(redirs[0].0)] + RedirToks(redirs[1..])
  }

  /** At most MAXARGS - 1 arguments everywhere. */
  predicate ArgsFit<W>(c: Cmd<W>) {
    match c
    case Exec(argv) => |argv| < MAXARGS
    case Redir(cmd, _, _) => ArgsFit(cmd)
    case Pipe(l, r) => ArgsFit(l) && ArgsFit(r)
    case List(l, r) => ArgsFit(l) && ArgsFit(r)
    case Back(cmd) => ArgsFit(cmd)
  }

  // ---------------------------------------------------------------------------------
  // Every printed tree parses back

  /** The tree without its outer redirections, and those, innermost first. */
  function Strip<W>(c: Cmd<W>): (r: (Cmd<W>, seq<(W, Kind)>))
    ensures !r.0.Redir? && Wrap(r.0, r.1) == c && (r.0 == c || r.0 < c) && (ArgsFit(c) ==> ArgsFit(r.0))
  {
    if c.Redir? then
      var (base, redirs) := Strip(c.cmd);
      assert (redirs + [(c.file, c.kind)])[..|redirs|] == redirs;
      (base, redirs + [(c.file, c.kind)])
    else (c, [])
  }

  lemma {:induction false} RedirToksSnoc<W>(redirs: seq<(W, Kind)>, last: (W, Kind))
    ensures RedirToks(redirs + [last]) == RedirToks(redirs) + [Arrow(last.1), Word(last.0)]
  {
    if redirs != [] {
      assert (redirs + [last])[1..] == redirs[1..] + [last];
      RedirToksSnoc(redirs[1..], last);
    }
  }

  lemma {:induction false} UnitIs<W>(c: Cmd<W>)
    ensures Unit(c) == Unit(Strip(c).0) + RedirToks(Strip(c).1)
  {
    if c.Redir? {
      UnitIs(c.cmd);
      RedirToksSnoc(Strip(c.cmd).1, (c.file, c.kind));
    }
  }

  /** parseredirs takes all the redirections there are. */
  lemma {:induction false} TakesRedirs<W>(taken: seq<(W, Kind)>, redirs: seq<(W, Kind)>, rest: seq<Token<W>>)
    requires rest == [] || !rest[0].Arrow?
    ensures TakeRedirs(taken, RedirToks(redirs) + rest) == Some((taken + redirs, rest))
    decreases |redirs|
  {
    var ts := RedirToks(redirs) + rest;
    if redirs == [] {
      assert ts == rest && taken + redirs == taken;
    } else {
      assert ts[2..] == RedirToks(redirs[1..]) + rest;
      TakesRedirs(taken + [redirs[0]], redirs[1..], rest);
      assert taken + [redirs[0]] + redirs[1..] == taken + redirs;
    }
  }

  lemma SimpleStep<W>(ts: seq<Token<W>>, redirs: seq<(W, Kind)>, rest: seq<Token<W>>)
    requires !At(ts, '(') && TakeRedirs([], ts) == Some((redirs, rest))
    ensures Simple(ts) == Words([], redirs, rest)
  {
  }

  lemma NoRedirs<W>(taken: seq<(W, Kind)>, ts: seq<Token<W>>)
    requires ts == [] || !ts[0].Arrow?
    ensures TakeRedirs(taken, ts) == Some((taken, ts))
  {
  }

  lemma NoWords<W>(argv: seq<W>, redirs: seq<(W, Kind)>, ts: seq<Token<W>>)
    requires Stop(ts)
    ensures Words(argv, redirs, ts) == Some((Wrap(Exec(argv), redirs), ts))
  {
  }

  /** parseexec's loop takes one word, and the redirections after it. */
  lemma WordStep<W>(done: seq<W>, redirs: seq<(W, Kind)>, ts: seq<Token<W>>, more: seq<(W, Kind)>, rest: seq<Token<W>>)
    requires |ts| > 0 && ts[0].Word? && |done| + 1 < MAXARGS && TakeRedirs(redirs, ts[1..]) == Some((more, rest))
    ensures Words(done, redirs, ts) == Words(done + [ts[0].w], more, rest)
  {
  }

  /** It takes all the words, then the redirections after the last. */
  lemma {:induction false} TakesWords<W>(done: seq<W>, argv: seq<W>, redirs: seq<(W, Kind)>, rest: seq<Token<W>>)
    requires Stop(rest) && |done| + |argv| < MAXARGS && argv != []
    ensures Words(done, [], WordToks(argv) + RedirToks(redirs) + rest) == Some((Wrap(Exec(done + argv), redirs), rest))
    decreases |argv|
  {
    hide Words, TakeRedirs;
    var ts := WordToks(argv) + RedirToks(redirs) + rest;
    var tail := WordToks(argv[1..]) + RedirToks(redirs) + rest;
    assert ts[0] == Word(argv[0]) && ts[1..] == tail;
    assert done + [argv[0]] + argv[1..] == done + argv;
    if |argv| == 1 {
      assert tail == RedirToks(redirs) + rest;
      TakesRedirs([], redirs, rest);
      assert [] + redirs == redirs && done + [argv[0]] == done + argv;
      WordStep(done, [], ts, redirs, rest);
      NoWords(done + [argv[0]], redirs, rest);
    } else {
      assert tail[0] == Word(argv[1]);
      NoRedirs([], tail);
      WordStep(done, [], ts, [], tail);
      TakesWords(done + [argv[0]], argv[1..], redirs, rest);
    }
  }

  /** A simple command with redirections. */
  lemma SimpleParses<W>(argv: seq<W>, redirs: seq<(W, Kind)>, rest: seq<Token<W>>)
    requires Stop(rest) && |argv| < MAXARGS
    ensures Simple(WordToks(argv) + RedirToks(redirs) + rest) == Some((Wrap(Exec(argv), redirs), rest))
  {
    hide Simple, TakeRedirs, Words;
    var ts := WordToks(argv) + RedirToks(redirs) + rest;
    if argv == [] {
      assert ts == RedirToks(redirs) + rest;
      TakesRedirs([], redirs, rest);
      assert [] + redirs == redirs;
      SimpleStep(ts, redirs, rest);
      NoWords([], redirs, rest);
    } else {
      assert ts[0] == Word(argv[0]);
      NoRedirs([], ts);
      SimpleStep(ts, [], ts);
      TakesWords([], argv, redirs, rest);
      assert [] + argv == argv;
    }
  }

  lemma BlockStep<W>(ts: seq<Token<W>>, cmd: Cmd<W>, rest: seq<Token<W>>, redirs: seq<(W, Kind)>, end: seq<Token<W>>)
    requires At(ts, '(') && Line(ts[1..]) == Some((cmd, rest)) && At(rest, ')')
    requires TakeRedirs([], rest[1..]) == Some((redirs, end))
    ensures Simple(ts) == Some((Wrap(cmd, redirs), end))
  {
  }

  lemma PipelineStep<W>(ts: seq<Token<W>>, cmd: Cmd<W>, rest: seq<Token<W>>)
    requires Simple(ts) == Some((cmd, rest)) && !At(rest, '|')
    ensures Pipeline(ts) == Some((cmd, rest))
  {
  }

  lemma LineStep<W>(ts: seq<Token<W>>, cmd: Cmd<W>, rest: seq<Token<W>>)
    requires Pipeline(ts) == Some((cmd, rest)) && (rest == [] || At(rest, ')'))
    ensures Line(ts) == Some((cmd, rest))
  {
  }

  /** A block and the redirections after it, given that the line inside parses. */
  lemma BlockParses<W>(inner: seq<Token<W>>, base: Cmd<W>, redirs: seq<(W, Kind)>, rest: seq<Token<W>>)
    requires Stop(rest)
    requires Line(inner + ([Sym(')')] + (RedirToks(redirs) + rest))) ==
               Some((base, [Sym(')')] + (RedirToks(redirs) + rest)))
    ensures Simple([Sym('(')] + inner + [Sym(')')] + RedirToks(redirs) + rest) == Some((Wrap(base, redirs), rest))
  {
    hide Simple, Line;
    var ts := [Sym('(')] + inner + [Sym(')')] + RedirToks(redirs) + rest;
    var after := RedirToks(redirs) + rest;
    assert ts[1..] == inner + ([Sym(')')] + after) && ([Sym(')')] + after)[1..] == after;
    TakesRedirs([], redirs, rest);
    assert [] + redirs == redirs;
    BlockStep(ts, base, [Sym(')')] + after, redirs, rest);
  }

  lemma {:induction false} UnitParses<W>(c: Cmd<W>, rest: seq<Token<W>>)
    requires ArgsFit(c) && Stop(rest)
    ensures Simple(Unit(c) + rest) == Some((c, rest))
    decreases c, 2
  {
    hide Simple, Line, Words;
    var (base, redirs) := Strip(c);
    UnitIs(c);
    if base.Exec? {
      SimpleParses(base.argv, redirs, rest);
      assert Unit(c) + rest == WordToks(base.argv) + RedirToks(redirs) + rest;
    } else {
      InnerParses(base, [Sym(')')] + (RedirToks(redirs) + rest));
      BlockParses(Inner(base), base, redirs, rest);
      assert Unit(c) + rest == [Sym('(')] + Inner(base) + [Sym(')')] + RedirToks(redirs) + rest;
    }
  }

  lemma {:induction false} InnerParses<W>(c: Cmd<W>, rest: seq<Token<W>>)
    requires Compound(c) && ArgsFit(c) && (rest == [] || At(rest, ')'))
    ensures Line(Inner(c) + rest) == Some((c, rest))
    decreases c, 1
  {
    var ts := Inner(c) + rest;
    match c
    case Pipe(l, r) => PipeParses(l, r, rest, ts);
    case List(l, r) => ListParses(l, r, rest, ts);
    case Back(cmd) =>
      var more := [Sym('&')] + rest;
      UnitParses(cmd, more);
      assert ts == Unit(cmd) + more && more[1..] == rest;
      PipelineStep(ts, cmd, more);
      assert Backs(Back(cmd), rest) == (Back(cmd), rest) && Backs(cmd, more) == Backs(Back(cmd), more[1..]);
  }

  lemma {:induction false} PipeParses<W>(l: Cmd<W>, r: Cmd<W>, rest: seq<Token<W>>, ts: seq<Token<W>>)
    requires ArgsFit(l) && ArgsFit(r) && (rest == [] || At(rest, ')')) && ts == Unit(l) + [Sym('|')] + Unit(r) + rest
    ensures Line(ts) == Some((Pipe(l, r), rest))
    decreases Pipe(l, r), 0
  {
    var more := [Sym('|')] + (Unit(r) + rest);
    UnitParses(l, more);
    UnitParses(r, rest);
    assert ts == Unit(l) + more && more[1..] == Unit(r) + rest;
    PipelineStep(Unit(r) + rest, r, rest);
    assert Pipeline(ts) == Some((Pipe(l, r), rest));
    LineStep(ts, Pipe(l, r), rest);
  }

  lemma {:induction false} ListParses<W>(l: Cmd<W>, r: Cmd<W>, rest: seq<Token<W>>, ts: seq<Token<W>>)
    requires ArgsFit(l) && ArgsFit(r) && (rest == [] || At(rest, ')')) && ts == Unit(l) + [Sym(';')] + Unit(r) + rest
    ensures Line(ts) == Some((List(l, r), rest))
    decreases List(l, r), 0
  {
    hide Simple, Words, Unit, Pipeline;
    var more := [Sym(';')] + (Unit(r) + rest);
    UnitParses(l, more);
    UnitParses(r, rest);
    assert ts == Unit(l) + more && more[1..] == Unit(r) + rest;
    PipelineStep(Unit(r) + rest, r, rest);
    LineStep(Unit(r) + rest, r, rest);
    PipelineStep(ts, l, more);
  }

  /** Parsing the printing of any tree whose commands have fewer than MAXARGS words gives it back. */
  lemma PrintParses<W>(c: Cmd<W>)
    requires ArgsFit(c)
    ensures Parse(Print(c)) == Some(c)
  {
    assert Print(c) == Print(c) + [];
    if Compound(c) {
      InnerParses(c, []);
    } else {
      UnitParses(c, []);
      PipelineStep(Print(c), c, []);
      LineStep(Print(c), c, []);
    }
  }

  // ---------------------------------------------------------------------------------
  // The parser does not look inside words

  function MapCmd<V, W>(f: V -> W, c: Cmd<V>): Cmd<W> {
    match c
    case Exec(argv) => Exec(MapWords(f, argv))
    case Redir(cmd, file, kind) => Redir(MapCmd(f, cmd), f(file), kind)
    case Pipe(l, r) => Pipe(MapCmd(f, l), MapCmd(f, r))
    case List(l, r) => List(MapCmd(f, l), MapCmd(f, r))
    case Back(cmd) => Back(MapCmd(f, cmd))
  }

  function MapWords<V, W>(f: V -> W, ws: seq<V>): (r: seq<W>)
    ensures |r| == |ws|
  {
    seq(|ws|, i requires 0 <= i < |ws| => f(ws[i]))
  }

  function MapToken<V, W>(f: V -> W, t: Token<V>): Token<W> {
    match t
    case Word(w) => Word(f(w))
    case Sym(c) => Sym(c)
    case Arrow(kind) => Arrow(kind)
  }

  function MapToks<V, W>(f: V -> W, ts: seq<Token<V>>): (r: seq<Token<W>>)
    ensures |r| == |ts| && forall i :: 0 <= i < |ts| ==> r[i] == MapToken(f, ts[i])
  {
    seq(|ts|, i requires 0 <= i < |ts| => MapToken(f, ts[i]))
  }

  function MapRedirs<V, W>(f: V -> W, rs: seq<(V, Kind)>): (r: seq<(W, Kind)>)
    ensures |r| == |rs|
  {
    seq(|rs|, i requires 0 <= i < |rs| => (f(rs[i].0), rs[i].1))
  }

  function MapParsed<V, W>(f: V -> W, r: Parsed<V>): Parsed<W> {
    match r
    case None => None
    case Some((cmd, rest)) => Some((MapCmd(f, cmd), MapToks(f, rest)))
  }

  lemma MapDrop<V, W>(f: V -> W, ts: seq<Token<V>>, n: nat)
    requires n <= |ts|
    ensures MapToks(f, ts[n..]) == MapToks(f, ts)[n..]
  {
  }

  lemma {:induction false} TakeRedirsMap<V, W>(f: V -> W, redirs: seq<(V, Kind)>, ts: seq<Token<V>>)
    ensures TakeRedirs(MapRedirs(f, redirs), MapToks(f, ts)) ==
            match TakeRedirs(redirs, ts) {
              case None => None
              case Some((rs, rest)) => Some((MapRedirs(f, rs), MapToks(f, rest)))
            }
    decreases |ts|
  {
    if |ts| > 1 && ts[0].Arrow? && ts[1].Word? {
      var more := redirs + [(ts[1].w, ts[0].kind)];
      TakeRedirsMap(f, more, ts[2..]);
      MapDrop(f, ts, 2);
      assert MapRedirs(f, more) == MapRedirs(f, redirs) + [(f(ts[1].w), ts[0].kind)];
    }
  }

  lemma {:induction false} WrapMap<V, W>(f: V -> W, cmd: Cmd<V>, redirs: seq<(V, Kind)>)
    ensures Wrap(MapCmd(f, cmd), MapRedirs(f, redirs)) == MapCmd(f, Wrap(cmd, redirs))
    decreases |redirs|
  {
    if redirs != [] {
      WrapMap(f, cmd, redirs[..|redirs| - 1]);
      assert MapRedirs(f, redirs)[..|redirs| - 1] == MapRedirs(f, redirs[..|redirs| - 1]);
    }
  }

  lemma {:induction false} WordsMap<V, W>(f: V -> W, argv: seq<V>, redirs: seq<(V, Kind)>, ts: seq<Token<V>>)
    ensures Words(MapWords(f, argv), MapRedirs(f, redirs), MapToks(f, ts)) == MapParsed(f, Words(argv, redirs, ts))
    decreases |ts|
  {
    if Stop(ts) {
      WrapMap(f, Exec(argv), redirs);
    } else if ts[0].Word? && |argv| + 1 < MAXARGS {
      MapDrop(f, ts, 1);
      TakeRedirsMap(f, redirs, ts[1..]);
      match TakeRedirs(redirs, ts[1..])
      case None =>
      case Some((more, rest)) =>
        WordsMap(f, argv + [ts[0].w], more, rest);
        assert MapWords(f, argv + [ts[0].w]) == MapWords(f, argv) + [f(ts[0].w)];
    }
  }

  lemma {:induction false} SimpleMap<V, W>(f: V -> W, ts: seq<Token<V>>)
    ensures Simple(MapToks(f, ts)) == MapParsed(f, Simple(ts))
    decreases |ts|, 1
  {
    if At(ts, '(') {
      MapDrop(f, ts, 1);
      LineMap(f, ts[1..]);
      match Line(ts[1..])
      case None =>
      case Some((cmd, rest)) =>
        if At(rest, ')') {
          MapDrop(f, rest, 1);
          assert MapRedirs(f, []) == [];
          TakeRedirsMap(f, [], rest[1..]);
          match TakeRedirs<V>([], rest[1..])
          case None =>
          case Some((redirs, _)) => WrapMap(f, cmd, redirs);
        }
    } else {
      assert MapRedirs(f, []) == [] && MapWords(f, []) == [];
      TakeRedirsMap(f, [], ts);
      match TakeRedirs<V>([], ts)
      case None =>
      case Some((redirs, rest)) => WordsMap(f, [], redirs, rest);
    }
  }

  lemma {:induction false} PipelineMap<V, W>(f: V -> W, ts: seq<Token<V>>)
    ensures Pipeline(MapToks(f, ts)) == MapParsed(f, Pipeline(ts))
    decreases |ts|, 2
  {
    SimpleMap(f, ts);
    match Simple(ts)
    case None =>
    case Some((cmd, rest)) =>
      if At(rest, '|') {
        MapDrop(f, rest, 1);
        PipelineMap(f, rest[1..]);
      }
  }

  lemma {:induction false} BacksMap<V, W>(f: V -> W, cmd: Cmd<V>, ts: seq<Token<V>>)
    ensures Backs(MapCmd(f, cmd), MapToks(f, ts)) == (MapCmd(f, Backs(cmd, ts).0), MapToks(f, Backs(cmd, ts).1))
    decreases |ts|
  {
    if At(ts, '&') {
      MapDrop(f, ts, 1);
      BacksMap(f, Back(cmd), ts[1..]);
    }
  }

  lemma {:induction false} LineMap<V, W>(f: V -> W, ts: seq<Token<V>>)
    ensures Line(MapToks(f, ts)) == MapParsed(f, Line(ts))
    decreases |ts|, 3
  {
    PipelineMap(f, ts);
    match Pipeline(ts)
    case None =>
    case Some((first, rest)) =>
      BacksMap(f, first, rest);
      var rest' := Backs(first, rest).1;
      if At(rest', ';') {
        MapDrop(f, rest', 1);
        LineMap(f, rest'[1..]);
      }
  }

  lemma ParseMap<V, W>(f: V -> W, ts: seq<Token<V>>)
    ensures Parse(MapToks(f, ts)) == match Parse(ts) { case None => None case Some(c) => Some(MapCmd(f, c)) }
  {
    LineMap(f, ts);
  }
}
