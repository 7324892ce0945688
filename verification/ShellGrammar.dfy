/** The command language of user/sh.c on tokens: the grammar, the trees it stands for, and the
    recursive descent of parseline(), parsepipe(), parseexec(), parseblock() and parseredirs(). */
module ShellGrammar {
  import opened Wrappers

  const MAXARGS: nat := 10

  /** One of | ( ) ; & < > ; the token >> ; or a word with its place in the input. */
  datatype Token = Sym(c: char) | Append | Word(lo: nat, hi: nat)

  datatype Mode = Read | Truncate | AppendTo

  datatype Span = Span(lo: nat, hi: nat)

  /** The struct cmds. */
  datatype Cmd =
    | Exec(argv: seq<Span>)
    | Redir(cmd: Cmd, file: Span, mode: Mode, fd: nat)
    | Pipe(left: Cmd, right: Cmd)
    | List(left: Cmd, right: Cmd)
    | Back(cmd: Cmd)

  type Tokens = seq<Token>

  // ---- The grammar -------------------------------------------------------------------------------
  //   line   ::= pipe '&'* [ ';' line ]          pipe   ::= exec [ '|' pipe ]
  //   exec   ::= '(' line ')' redir*  |  redir* ( word redir* )*
  //   redir  ::= '<' word | '>' word | '>>' word

  datatype RedirT = RedirT(mode: Mode, file: Span)
  datatype ArgT = ArgT(word: Span, redirs: seq<RedirT>)
  datatype ExecT = BlockT(line: LineT, redirs: seq<RedirT>) | SimpleT(redirs: seq<RedirT>, args: seq<ArgT>)
  datatype PipeT = LastT(exec: ExecT) | PipeT(exec: ExecT, rest: PipeT)
  datatype LineT = LineT(pipe: PipeT, amps: nat) | ListT(pipe: PipeT, amps: nat, rest: LineT)

  function RedirToken(m: Mode): (t: Token) {
    match m
    case Read => Sym('<')
    case Truncate => Sym('>')
    case AppendTo => Append
  }

  /** The tokens of a derivation. */
  function YieldRedirs(rs: seq<RedirT>): (t: Tokens) {
    if rs == [] then [] else [RedirToken(rs[0].mode), Word(rs[0].file.lo, rs[0].file.hi)] + YieldRedirs(rs[1..])
  }

  function YieldArgs(xs: seq<ArgT>): (t: Tokens) {
    if xs == [] then [] else [Word(xs[0].word.lo, xs[0].word.hi)] + YieldRedirs(xs[0].redirs) + YieldArgs(xs[1..])
  }

  function YieldExec(x: ExecT): (t: Tokens) {
    match x
    case BlockT(line, redirs) => [Sym('(')] + YieldLine(line) + [Sym(')')] + YieldRedirs(redirs)
    case SimpleT(redirs, args) => YieldRedirs(redirs) + YieldArgs(args)
  }

  function YieldPipe(x: PipeT): (t: Tokens) {
    match x
    case LastT(exec) => YieldExec(exec)
    case PipeT(exec, rest) => YieldExec(exec) + [Sym('|')] + YieldPipe(rest)
  }

  function Amps(n: nat): (t: Tokens) { if n == 0 then [] else [Sym('&')] + Amps(n - 1) }

  function YieldLine(x: LineT): (t: Tokens) {
    match x
    case LineT(pipe, amps) => YieldPipe(pipe) + Amps(amps)
    case ListT(pipe, amps, rest) => YieldPipe(pipe) + Amps(amps) + [Sym(';')] + YieldLine(rest)
  }

  /** The command of a derivation: redirections nest with the last one outermost. */
  function Wrap(c: Cmd, rs: seq<RedirT>): (r: Cmd)
    decreases |rs|
  {
    if rs == [] then c else Wrap(Redir(c, rs[0].file, rs[0].mode, if rs[0].mode.Read? then 0 else 1), rs[1..])
  }

  function AllRedirs(xs: seq<ArgT>): (rs: seq<RedirT>) { if xs == [] then [] else xs[0].redirs + AllRedirs(xs[1..]) }
  function Words(xs: seq<ArgT>): (ws: seq<Span>) { if xs == [] then [] else [xs[0].word] + Words(xs[1..]) }

  function TreeExec(x: ExecT): (c: Cmd) {
    match x
    case BlockT(line, redirs) => Wrap(TreeLine(line), redirs)
    case SimpleT(redirs, args) => Wrap(Exec(Words(args)), redirs + AllRedirs(args))
  }

  function TreePipe(x: PipeT): (c: Cmd) {
    match x
    case LastT(exec) => TreeExec(exec)
    case PipeT(exec, rest) => Cmd.Pipe(TreeExec(exec), TreePipe(rest))
  }

  function Backs(c: Cmd, n: nat): (r: Cmd)
    decreases n
  {
    if n == 0 then c else Backs(Back(c), n - 1)
  }

  function TreeLine(x: LineT): (c: Cmd) {
    match x
    case LineT(pipe, amps) => Backs(TreePipe(pipe), amps)
    case ListT(pipe, amps, rest) => Cmd.List(Backs(TreePipe(pipe), amps), TreeLine(rest))
  }

  /** No command has MAXARGS arguments. */
  predicate FewExec(x: ExecT) {
    match x
    case BlockT(line, redirs) => FewLine(line)
    case SimpleT(redirs, args) => |args| < MAXARGS
  }
  predicate FewPipe(x: PipeT) {
    match x
    case LastT(exec) => FewExec(exec)
    case PipeT(exec, rest) => FewExec(exec) && FewPipe(rest)
  }
  predicate FewLine(x: LineT) {
    match x
    case LineT(pipe, amps) => FewPipe(pipe)
    case ListT(pipe, amps, rest) => FewPipe(pipe) && FewLine(rest)
  }

  // ---- The parser on tokens ------------------------------------------------------------------------

  predicate Head(t: Tokens, c: char) { t != [] && t[0] == Sym(c) }

  predicate IsRedir(t: Token) { t == Sym('<') || t == Sym('>') || t == Append }

  function ModeOf(t: Token): (m: Mode)
    requires IsRedir(t)
    ensures RedirToken(m) == t
  {
    if t == Sym('<') then Read else if t == Sym('>') then Truncate else AppendTo
  }

  type Parsed = Option<(Cmd, Tokens)>

  /** parseredirs(). */
  function ParseRedirs(c: Cmd, t: Tokens): (r: Parsed)
    ensures r.Some? ==> |r.value.1| <= |t|
    decreases |t|
  {
    if t == [] || !IsRedir(t[0]) then Some((c, t))
    else if |t| < 2 || !t[1].Word? then None
    else ParseRedirs(Redir(c, Span(t[1].lo, t[1].hi), ModeOf(t[0]), if t[0] == Sym('<') then 0 else 1), t[2..])
  }

  /** The redirections at the start of `t`; the command they apply to does not matter. */
  function TakeRedirs(t: Tokens): (r: Option<(seq<RedirT>, Tokens)>)
    ensures r.Some? ==> |r.value.1| <= |t|
    decreases |t|
  {
    if t == [] || !IsRedir(t[0]) then Some(([], t))
    else if |t| < 2 || !t[1].Word? then None
    else
      match TakeRedirs(t[2..])
      case None => None
      case Some((rs, rest)) => Some(([RedirT(ModeOf(t[0]), Span(t[1].lo, t[1].hi))] + rs, rest))
  }

  predicate EndsExec(t: Tokens) { t == [] || t[0] in {Sym('|'), Sym(')'), Sym('&'), Sym(';')} }

  /** The loop of parseexec(): arguments and redirections so far, and what is left. */
  function ParseArgs(argv: seq<Span>, rs: seq<RedirT>, t: Tokens): (r: Parsed)
    ensures r.Some? ==> |r.value.1| <= |t|
    decreases |t|
  {
    if EndsExec(t) then Some((Wrap(Exec(argv), rs), t))
    else if !t[0].Word? || |argv| + 1 >= MAXARGS then None
    else
      match TakeRedirs(t[1..])
      case None => None
      case Some((rs', rest)) => ParseArgs(argv + [Span(t[0].lo, t[0].hi)], rs + rs', rest)
  }

  function ParseExec(t: Tokens): (r: Parsed)
    ensures r.Some? ==> |r.value.1| <= |t|
    decreases |t|, 1
  {
    if Head(t, '(') then ParseBlock(t)
    else
      match TakeRedirs(t)
      case None => None
      case Some((rs, rest)) => ParseArgs([], rs, rest)
  }

  function ParseBlock(t: Tokens): (r: Parsed)
    requires Head(t, '(')
    ensures r.Some? ==> |r.value.1| <= |t|
    decreases |t|, 0
  {
    match ParseLine(t[1..])
    case None => None
    case Some((c, rest)) => if Head(rest, ')') then ParseRedirs(c, rest[1..]) else None
  }

  function ParsePipe(t: Tokens): (r: Parsed)
    ensures r.Some? ==> |r.value.1| <= |t|
    decreases |t|, 2
  {
    match ParseExec(t)
    case None => None
    case Some((c, rest)) =>
      if !Head(rest, '|') then Some((c, rest))
      else
        match ParsePipe(rest[1..])
        case None => None
        case Some((d, rest')) => Some((Cmd.Pipe(c, d), rest'))
  }

  function ParseAmps(c: Cmd, t: Tokens): (r: (Cmd, Tokens))
    ensures |r.1| <= |t|
    decreases |t|
  {
    if Head(t, '&') then ParseAmps(Back(c), t[1..]) else (c, t)
  }

  function ParseLine(t: Tokens): (r: Parsed)
    ensures r.Some? ==> |r.value.1| <= |t|
    decreases |t|, 3
  {
    match ParsePipe(t)
    case None => None
    case Some((c0, rest0)) =>
      var (c, rest) := ParseAmps(c0, rest0);
      if !Head(rest, ';') then Some((c, rest))
      else
        match ParseLine(rest[1..])
        case None => None
        case Some((d, rest')) => Some((Cmd.List(c, d), rest'))
  }

  // ---- The parser builds exactly the tree of the grammar -------------------------------------------

  lemma {:induction false} RedirsAsWrap(c: Cmd, t: Tokens)
    ensures ParseRedirs(c, t).None? == TakeRedirs(t).None?
    ensures TakeRedirs(t).Some? ==> ParseRedirs(c, t) == Some((Wrap(c, TakeRedirs(t).value.0), TakeRedirs(t).value.1))
    decreases |t|
  {
    if t != [] && IsRedir(t[0]) && |t| >= 2 && t[1].Word? {
      var c' := Redir(c, Span(t[1].lo, t[1].hi), ModeOf(t[0]), if t[0] == Sym('<') then 0 else 1);
      RedirsAsWrap(c', t[2..]);
      if TakeRedirs(t[2..]).Some? {
        var rs := TakeRedirs(t).value.0;
        assert rs[1..] == TakeRedirs(t[2..]).value.0;
      }
    }
  }

  /** Redirections are taken greedily: exactly those of a derivation, if none follows. */
  lemma {:induction false} RedirsComplete(rs: seq<RedirT>, rest: Tokens)
    requires rest == [] || !IsRedir(rest[0])
    ensures TakeRedirs(YieldRedirs(rs) + rest) == Some((rs, rest))
    decreases rs
  {
    var t := YieldRedirs(rs) + rest;
    if rs == [] {
      assert t == rest;
    } else {
      RedirsComplete(rs[1..], rest);
      assert t[2..] == YieldRedirs(rs[1..]) + rest;
      assert t[0] == RedirToken(rs[0].mode) && t[1] == Word(rs[0].file.lo, rs[0].file.hi);
      assert [rs[0]] + rs[1..] == rs;
    }
  }

  lemma {:induction false} RedirsSound(t: Tokens)
    requires TakeRedirs(t).Some?
    ensures var (rs, rest) := TakeRedirs(t).value; t == YieldRedirs(rs) + rest && (rest == [] || !IsRedir(rest[0]))
    decreases |t|
  {
    if t != [] && IsRedir(t[0]) {
      RedirsSound(t[2..]);
      var (rs, rest) := TakeRedirs(t[2..]).value;
      var x := RedirT(ModeOf(t[0]), Span(t[1].lo, t[1].hi));
      hide *;
      RedirsCons(x, rs);
      RejoinRedir(t, YieldRedirs(rs), rest);
    }
  }

  lemma RedirsCons(x: RedirT, rs: seq<RedirT>)
    ensures YieldRedirs([x] + rs) == [RedirToken(x.mode), Word(x.file.lo, x.file.hi)] + YieldRedirs(rs)
  {
    assert ([x] + rs)[1..] == rs;
  }

  lemma RejoinRedir(t: Tokens, a: Tokens, rest: Tokens)
    requires |t| >= 2 && t[2..] == a + rest
    ensures t == [t[0], t[1]] + a + rest
  {
    assert t == [t[0], t[1]] + t[2..];
  }

  lemma Assoc<T>(a: seq<T>, b: seq<T>, c: seq<T>)
    ensures a + (b + c) == a + b + c
  {
  }

  lemma ArgsCons(x: ArgT, ys: seq<ArgT>)
    ensures YieldArgs([x] + ys) == [Word(x.word.lo, x.word.hi)] + YieldRedirs(x.redirs) + YieldArgs(ys)
    ensures Words([x] + ys) == [x.word] + Words(ys) && AllRedirs([x] + ys) == x.redirs + AllRedirs(ys)
  {
    assert ([x] + ys)[1..] == ys;
  }

  /** The tokens of one more argument. */
  lemma ArgTokens(w: Token, rs: Tokens, ys: Tokens, rest: Tokens)
    ensures ([w] + rs + ys + rest)[0] == w && ([w] + rs + ys + rest)[1..] == rs + (ys + rest)
  {
    assert [w] + rs + ys + rest == [w] + (rs + (ys + rest));
  }

  lemma NotRedirs(xs: seq<ArgT>, rest: Tokens)
    requires EndsExec(rest)
    ensures var t := YieldArgs(xs) + rest; (t == [] || !IsRedir(t[0])) && !Head(t, '(')
  {
    assert xs == [] ==> YieldArgs(xs) + rest == rest;
  }

  lemma {:induction false} ArgsComplete(argv: seq<Span>, rs: seq<RedirT>, xs: seq<ArgT>, rest: Tokens)
    requires EndsExec(rest) && |argv| + |xs| < MAXARGS
    ensures ParseArgs(argv, rs, YieldArgs(xs) + rest) == Some((Wrap(Exec(argv + Words(xs)), rs + AllRedirs(xs)), rest))
    decreases xs
  {
    if xs == [] {
      assert YieldArgs(xs) + rest == rest && argv + Words(xs) == argv && rs + AllRedirs(xs) == rs;
    } else {
      var x, ys := xs[0], xs[1..];
      assert xs == [x] + ys;
      ArgsCons(x, ys);
      ArgTokens(Word(x.word.lo, x.word.hi), YieldRedirs(x.redirs), YieldArgs(ys), rest);
      NotRedirs(ys, rest);
      RedirsComplete(x.redirs, YieldArgs(ys) + rest);
      ArgsComplete(argv + [x.word], rs + x.redirs, ys, rest);
      Assoc(argv, [x.word], Words(ys));
      Assoc(rs, x.redirs, AllRedirs(ys));
      hide YieldArgs, YieldRedirs, TakeRedirs, Words, AllRedirs, Wrap;
    }
  }

  lemma {:induction false} ArgsSound(argv: seq<Span>, rs: seq<RedirT>, t: Tokens) returns (xs: seq<ArgT>)
    requires ParseArgs(argv, rs, t).Some? && |argv| < MAXARGS
    ensures var (c, rest) := ParseArgs(argv, rs, t).value;
            t == YieldArgs(xs) + rest && EndsExec(rest) && |argv| + |xs| < MAXARGS &&
              c == Wrap(Exec(argv + Words(xs)), rs + AllRedirs(xs))
    decreases |t|
  {
    if EndsExec(t) {
      xs := [];
      assert argv + Words(xs) == argv && rs + AllRedirs(xs) == rs;
    } else {
      RedirsSound(t[1..]);
      var (rs', rest) := TakeRedirs(t[1..]).value;
      var w := Span(t[0].lo, t[0].hi);
      var ys := ArgsSound(argv + [w], rs + rs', rest);
      xs := [ArgT(w, rs')] + ys;
      hide YieldArgs, YieldRedirs, TakeRedirs, Words, AllRedirs, Wrap;
      ArgsCons(ArgT(w, rs'), ys);
      Assoc(argv, [w], Words(ys));
      Assoc(rs, rs', AllRedirs(ys));
      Rejoin(t, YieldRedirs(rs'), rest, YieldArgs(ys), ParseArgs(argv, rs, t).value.1);
    }
  }

  lemma Rejoin(t: Tokens, a: Tokens, t1: Tokens, b: Tokens, rest: Tokens)
    requires t != [] && t[1..] == a + t1 && t1 == b + rest
    ensures t == [t[0]] + a + b + rest
  {
    assert t == [t[0]] + t[1..];
  }

  predicate EndsPipe(t: Tokens) { t == [] || t[0] in {Sym(')'), Sym('&'), Sym(';')} }
  predicate EndsLine(t: Tokens) { t == [] || t[0] == Sym(')') }

  lemma {:induction false} ExecComplete(x: ExecT, rest: Tokens)
    requires FewExec(x) && EndsExec(rest)
    ensures ParseExec(YieldExec(x) + rest) == Some((TreeExec(x), rest))
    decreases x, 0
  {
    match x
    case BlockT(line, redirs) =>
      var t1 := [Sym(')')] + YieldRedirs(redirs) + rest;
      BlockTokens(YieldLine(line), YieldRedirs(redirs), rest);
      LineComplete(line, t1);
      RedirsComplete(redirs, rest);
      RedirsAsWrap(TreeLine(line), t1[1..]);
    case SimpleT(redirs, args) =>
      var t1 := YieldArgs(args) + rest;
      NotRedirs(args, rest);
      Assoc(YieldRedirs(redirs), YieldArgs(args), rest);
      RedirsComplete(redirs, t1);
      NoParen(redirs, t1);
      ArgsComplete([], redirs, args, rest);
      assert [] + Words(args) == Words(args);
  }

  lemma BlockTokens(line: Tokens, rs: Tokens, rest: Tokens)
    ensures var t, t1 := [Sym('(')] + line + [Sym(')')] + rs + rest, [Sym(')')] + rs + rest;
            Head(t, '(') && t[1..] == line + t1 && Head(t1, ')') && t1[1..] == rs + rest
  {
    assert [Sym('(')] + line + [Sym(')')] + rs + rest == [Sym('(')] + (line + ([Sym(')')] + rs + rest));
  }

  lemma NoParen(rs: seq<RedirT>, t1: Tokens)
    requires !Head(t1, '(')
    ensures !Head(YieldRedirs(rs) + t1, '(')
  {
    assert rs == [] ==> YieldRedirs(rs) + t1 == t1;
  }

  lemma {:induction false} PipeComplete(x: PipeT, rest: Tokens)
    requires FewPipe(x) && EndsPipe(rest)
    ensures ParsePipe(YieldPipe(x) + rest) == Some((TreePipe(x), rest))
    decreases x, 1
  {
    var t := YieldPipe(x) + rest;
    match x
    case LastT(exec) =>
      ExecComplete(exec, rest);
    case PipeT(exec, more) =>
      var t1 := [Sym('|')] + YieldPipe(more) + rest;
      assert t == YieldExec(exec) + t1;
      ExecComplete(exec, t1);
      assert t1[1..] == YieldPipe(more) + rest;
      PipeComplete(more, rest);
  }

  lemma {:induction false} AmpsComplete(c: Cmd, n: nat, rest: Tokens)
    requires !Head(rest, '&')
    ensures ParseAmps(c, Amps(n) + rest) == (Backs(c, n), rest)
    decreases n
  {
    var t := Amps(n) + rest;
    if n == 0 {
      assert t == rest;
    } else {
      assert t[1..] == Amps(n - 1) + rest;
      AmpsComplete(Back(c), n - 1, rest);
    }
  }

  lemma {:induction false} LineComplete(x: LineT, rest: Tokens)
    requires FewLine(x) && EndsLine(rest)
    ensures ParseLine(YieldLine(x) + rest) == Some((TreeLine(x), rest))
    decreases x, 2
  {
    match x
    case LineT(pipe, amps) =>
      Assoc(YieldPipe(pipe), Amps(amps), rest);
      AmpsEnd(amps, rest);
      PipeComplete(pipe, Amps(amps) + rest);
      AmpsComplete(TreePipe(pipe), amps, rest);
    case ListT(pipe, amps, more) =>
      var t2 := [Sym(';')] + YieldLine(more) + rest;
      ListTokens(YieldPipe(pipe), Amps(amps), YieldLine(more), rest);
      AmpsEnd(amps, t2);
      PipeComplete(pipe, Amps(amps) + t2);
      AmpsComplete(TreePipe(pipe), amps, t2);
      LineComplete(more, rest);
      hide YieldPipe, Amps, YieldLine, ParsePipe, ParseAmps;
  }

  lemma ListTokens(p: Tokens, amps: Tokens, more: Tokens, rest: Tokens)
    ensures var t2 := [Sym(';')] + more + rest;
            p + amps + [Sym(';')] + more + rest == p + (amps + t2) && Head(t2, ';') && t2[1..] == more + rest
  {
    var t2 := [Sym(';')] + more + rest;
    assert t2 == [Sym(';')] + (more + rest);
    assert p + amps + [Sym(';')] + more + rest == p + amps + t2;
  }

  lemma AmpsEnd(n: nat, rest: Tokens)
    requires EndsPipe(rest)
    ensures EndsPipe(Amps(n) + rest)
  {
    assert n == 0 ==> Amps(n) + rest == rest;
  }

  lemma {:induction false} ExecSound(t: Tokens) returns (x: ExecT)
    requires ParseExec(t).Some?
    ensures var (c, rest) := ParseExec(t).value; t == YieldExec(x) + rest && TreeExec(x) == c && FewExec(x)
    decreases |t|, 1
  {
    if Head(t, '(') {
      x := BlockSound(t);
    } else {
      RedirsSound(t);
      var (rs, rest) := TakeRedirs(t).value;
      var args := ArgsSound([], rs, rest);
      x := SimpleT(rs, args);
      assert [] + Words(args) == Words(args);
      hide YieldArgs, YieldRedirs, TakeRedirs;
      Assoc(YieldRedirs(rs), YieldArgs(args), ParseArgs([], rs, rest).value.1);
    }
  }

  lemma {:induction false} BlockSound(t: Tokens) returns (x: ExecT)
    requires Head(t, '(') && ParseExec(t).Some?
    ensures var (c, rest) := ParseExec(t).value; t == YieldExec(x) + rest && TreeExec(x) == c && FewExec(x)
    decreases |t|, 0
  {
    var line := LineSound(t[1..]);
    var (c, rest) := ParseLine(t[1..]).value;
    RedirsAsWrap(c, rest[1..]);
    RedirsSound(rest[1..]);
    var (rs, rest') := TakeRedirs(rest[1..]).value;
    x := BlockT(line, rs);
    hide YieldLine, YieldRedirs, TakeRedirs, ParseLine;
    RejoinBlock(t, YieldLine(line), rest, YieldRedirs(rs), rest');
  }

  lemma RejoinBlock(t: Tokens, line: Tokens, rest: Tokens, rs: Tokens, rest': Tokens)
    requires Head(t, '(') && t[1..] == line + rest && Head(rest, ')') && rest[1..] == rs + rest'
    ensures t == [Sym('(')] + line + [Sym(')')] + rs + rest'
  {
    assert t == [Sym('(')] + t[1..] && rest == [Sym(')')] + rest[1..];
  }

  lemma {:induction false} PipeSound(t: Tokens) returns (x: PipeT)
    requires ParsePipe(t).Some?
    ensures var (c, rest) := ParsePipe(t).value; t == YieldPipe(x) + rest && TreePipe(x) == c && FewPipe(x)
    decreases |t|, 2
  {
    var exec := ExecSound(t);
    var (c, rest) := ParseExec(t).value;
    x := LastT(exec);
    if Head(rest, '|') {
      var more := PipeSound(rest[1..]);
      x := PipeT(exec, more);
      hide YieldExec, ParseExec;
      RejoinAt(t, YieldExec(exec), rest, YieldPipe(more), ParsePipe(t).value.1);
    }
  }

  lemma RejoinAt(t: Tokens, a: Tokens, rest: Tokens, b: Tokens, rest': Tokens)
    requires t == a + rest && rest != [] && rest[1..] == b + rest'
    ensures t == a + [rest[0]] + b + rest'
  {
    assert rest == [rest[0]] + rest[1..];
  }

  lemma {:induction false} AmpsSound(c: Cmd, t: Tokens) returns (n: nat)
    ensures var (c', rest) := ParseAmps(c, t); t == Amps(n) + rest && c' == Backs(c, n)
    decreases |t|
  {
    n := 0;
    if Head(t, '&') {
      var m := AmpsSound(Back(c), t[1..]);
      n := m + 1;
      assert t == [t[0]] + t[1..];
    }
  }

  lemma {:induction false} LineSound(t: Tokens) returns (x: LineT)
    requires ParseLine(t).Some?
    ensures var (c, rest) := ParseLine(t).value; t == YieldLine(x) + rest && TreeLine(x) == c && FewLine(x)
    decreases |t|, 3
  {
    var pipe := PipeSound(t);
    var (c0, rest0) := ParsePipe(t).value;
    var n := AmpsSound(c0, rest0);
    var (c, rest) := ParseAmps(c0, rest0);
    x := LineT(pipe, n);
    Assoc(YieldPipe(pipe), Amps(n), rest);
    if Head(rest, ';') {
      var more := LineSound(rest[1..]);
      x := ListT(pipe, n, more);
      hide YieldPipe, Amps, ParsePipe, ParseAmps, Backs;
      RejoinAt(t, YieldPipe(pipe) + Amps(n), rest, YieldLine(more), ParseLine(t).value.1);
    }
  }

  /** The parser accepts exactly the token sequences of the grammar, and returns exactly their
      tree. In particular no sequence has two trees. */
  lemma ParserIsGrammar(t: Tokens, c: Cmd)
    ensures ParseLine(t) == Some((c, [])) <==> exists x :: FewLine(x) && YieldLine(x) == t && TreeLine(x) == c
  {
    if ParseLine(t) == Some((c, [])) {
      var x := LineSound(t);
      assert YieldLine(x) + [] == YieldLine(x);
    }
    if x :| FewLine(x) && YieldLine(x) == t && TreeLine(x) == c {
      LineComplete(x, []);
      assert YieldLine(x) + [] == YieldLine(x);
    }
  }
}
