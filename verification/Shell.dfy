/** The shell's parser (user/sh.c) on characters: gettoken(), peek(), the parse functions that
    advance *ps, and nulterminate(). The input is without its terminating 0, which stands at es. */
module Shell {
  import opened ShellGrammar
  import opened Wrappers

  predicate IsWs(c: char) { c == ' ' || c == '\t' || c == '\r' || c == '\n' || c == 11 as char }
  predicate IsSym(c: char) { c in {'<', '|', '>', '&', ';', '(', ')'} }
  predicate IsWord(c: char) { !IsWs(c) && !IsSym(c) }

  // ---- Tokens of the input -------------------------------------------------------------------------

  function SkipWs(s: string, p: nat): (q: nat)
    requires p <= |s|
    ensures p <= q <= |s| && (forall i :: p <= i < q ==> IsWs(s[i])) && (q < |s| ==> !IsWs(s[q]))
    decreases |s| - p
  {
    if p < |s| && IsWs(s[p]) then SkipWs(s, p + 1) else p
  }

  function WordEnd(s: string, p: nat): (q: nat)
    requires p <= |s|
    ensures p <= q <= |s| && (forall i :: p <= i < q ==> IsWord(s[i])) && (q < |s| ==> !IsWord(s[q]))
    decreases |s| - p
  {
    if p < |s| && IsWord(s[p]) then WordEnd(s, p + 1) else p
  }

  /** The token that starts at `p`: the longest one. */
  function TokenAt(s: string, p: nat): (t: Token)
    requires p < |s| && !IsWs(s[p])
  {
    if s[p] == '>' && p + 1 < |s| && s[p + 1] == '>' then Append
    else if IsSym(s[p]) then Sym(s[p])
    else Word(p, WordEnd(s, p))
  }

  function TokenEnd(s: string, p: nat): (q: nat)
    requires p < |s| && !IsWs(s[p])
    ensures p < q <= |s|
  {
    if s[p] == '>' && p + 1 < |s| && s[p + 1] == '>' then p + 2
    else if IsSym(s[p]) then p + 1
    else assert IsWord(s[p]); WordEnd(s, p)
  }

  function TokensFrom(s: string, p: nat): (t: Tokens)
    requires p <= |s|
    decreases |s| - p
  {
    var q := SkipWs(s, p);
    if q == |s| then [] else [TokenAt(s, q)] + TokensFrom(s, TokenEnd(s, q))
  }

  lemma {:induction false} SkipTwice(s: string, p: nat, q: nat)
    requires p <= |s| && p <= q <= SkipWs(s, p)
    ensures SkipWs(s, q) == SkipWs(s, p)
    decreases q - p
  {
    if p < q {
      SkipTwice(s, p + 1, q);
    }
  }

  /** Blanks in front do not matter. */
  lemma SkipSame(s: string, p: nat)
    requires p <= |s|
    ensures TokensFrom(s, SkipWs(s, p)) == TokensFrom(s, p)
  {
    SkipTwice(s, p, SkipWs(s, p));
  }

  /** Every word of the input is a longest run of word characters. */
  ghost predicate GoodWord(s: string, lo: nat, hi: nat) {
    lo < hi <= |s| && (forall i :: lo <= i < hi ==> IsWord(s[i])) && (hi < |s| ==> !IsWord(s[hi]))
  }

  ghost predicate GoodTokens(s: string, t: Tokens) {
    forall i :: 0 <= i < |t| && t[i].Word? ==> GoodWord(s, t[i].lo, t[i].hi)
  }

  lemma {:induction false} TokensAreGood(s: string, p: nat)
    requires p <= |s|
    ensures GoodTokens(s, TokensFrom(s, p))
    decreases |s| - p
  {
    var q := SkipWs(s, p);
    if q < |s| {
      TokensAreGood(s, TokenEnd(s, q));
    }
  }

  // ---- What the tokens of an input are -----------------------------------------------------------------

  /** Space, tab, line feed, vertical tab and carriage return. */
  predicate Blank(c: char) { c as int in {32, 9, 10, 11, 13} }
  predicate Special(c: char) { c in "<|>&;()" }

  ghost predicate Blanks(s: string, lo: nat, hi: nat) {
    lo <= hi <= |s| && forall i :: lo <= i < hi ==> Blank(s[i])
  }

  /** Token `t` stands at `p` in the input and ends at `q`. No longer one does: a word goes on as far as it can,
      and > is not the first half of >>. */
  ghost predicate Stands(s: string, t: Token, p: nat, q: nat) {
    match t
    case Append => q == p + 2 <= |s| && s[p] == '>' && s[p + 1] == '>'
    case Sym(c) => q == p + 1 <= |s| && s[p] == c && Special(c) && (c == '>' && q < |s| ==> s[q] != '>')
    case Word(lo, hi) =>
      && p == lo < hi == q <= |s| && (forall i :: lo <= i < hi ==> !Blank(s[i]) && !Special(s[i]))
      && (hi < |s| ==> Blank(s[hi]) || Special(s[hi]))
  }

  /** From `p` on the input is the tokens `t`, with blanks before, between and after them as `at` says where
      they begin and end. */
  ghost predicate Lexes(s: string, p: nat, t: Tokens, at: seq<(nat, nat)>)
    decreases |t|
  {
    && p <= |s| && |at| == |t|
    && if t == [] then Blanks(s, p, |s|)
       else Blanks(s, p, at[0].0) && Stands(s, t[0], at[0].0, at[0].1) && Lexes(s, at[0].1, t[1..], at[1..])
  }

  ghost predicate IsLexed(s: string, p: nat, t: Tokens) { exists at :: Lexes(s, p, t, at) }

  lemma Characters(c: char)
    ensures IsWs(c) == Blank(c) && IsSym(c) == Special(c)
  {
  }

  lemma AllCharacters()
    ensures forall c :: IsWs(c) == Blank(c) && IsSym(c) == Special(c)
  {
    forall c: char ensures IsWs(c) == Blank(c) && IsSym(c) == Special(c) {
      Characters(c);
    }
  }

  lemma SymIsNotWs(c: char)
    ensures !(Blank(c) && Special(c))
  {
  }

  lemma IsGreater()
    ensures Special('>')
  {
    assert "<|>&;()"[2] == '>';
  }

  lemma TokenStands(s: string, p: nat)
    requires p < |s| && !IsWs(s[p])
    ensures Stands(s, TokenAt(s, p), p, TokenEnd(s, p))
  {
    AllCharacters();
    hide IsWs, IsSym, Blank, Special;
    IsGreater();
  }

  /** Only one token stands at a place. */
  lemma OneToken(s: string, t: Token, p: nat, q: nat)
    requires Stands(s, t, p, q)
    ensures p < |s| && !IsWs(s[p]) && t == TokenAt(s, p) && q == TokenEnd(s, p)
  {
    AllCharacters();
    SymIsNotWs(s[p]);
    hide IsWs, IsSym, Blank, Special;
    SymIsNotWs('>');
    IsGreater();
  }

  lemma {:induction false} TokensLexed(s: string, p: nat) returns (at: seq<(nat, nat)>)
    requires p <= |s|
    ensures Lexes(s, p, TokensFrom(s, p), at)
    decreases |s| - p
  {
    AllCharacters();
    hide IsWs, IsSym, Blank, Special;
    var q := SkipWs(s, p);
    if q == |s| {
      at := [];
    } else {
      var rest := TokensLexed(s, TokenEnd(s, q));
      TokenStands(s, q);
      at := [(q, TokenEnd(s, q))] + rest;
      assert at[1..] == rest && TokensFrom(s, p)[1..] == TokensFrom(s, TokenEnd(s, q));
    }
  }

  lemma {:induction false} OneLexing(s: string, p: nat, t: Tokens, at: seq<(nat, nat)>)
    requires Lexes(s, p, t, at)
    ensures t == TokensFrom(s, p)
    decreases |t|
  {
    AllCharacters();
    hide IsWs, IsSym, Blank, Special;
    if t != [] {
      OneToken(s, t[0], at[0].0, at[0].1);
      OneLexing(s, at[0].1, t[1..], at[1..]);
      assert t == [t[0]] + t[1..];
    }
  }

  /** There is one way to read the input as tokens: gettoken()'s. */
  lemma TokensAreLexed(s: string, p: nat, t: Tokens)
    requires p <= |s|
    ensures TokensFrom(s, p) == t <==> IsLexed(s, p, t)
  {
    if TokensFrom(s, p) == t {
      var at := TokensLexed(s, p);
    }
    if IsLexed(s, p, t) {
      var at :| Lexes(s, p, t, at);
      OneLexing(s, p, t, at);
    }
  }

  // ---- gettoken() and peek() -----------------------------------------------------------------------

  method SkipBlanks(s: string, p: nat) returns (q: nat)
    requires p <= |s|
    ensures q == SkipWs(s, p)
  {
    q := p;
    while q < |s| && IsWs(s[q])
      invariant p <= q <= |s| && SkipWs(s, q) == SkipWs(s, p)
    {
      q := q + 1;
    }
  }

  /** gettoken(): the next token, `None` at the end; never past es. */
  method GetToken(s: string, p: nat) returns (tok: Option<Token>, p': nat)
    requires p <= |s|
    ensures p <= p' <= |s|
    ensures tok.None? ==> TokensFrom(s, p) == [] && TokensFrom(s, p') == []
    ensures tok.Some? ==> TokensFrom(s, p) == [tok.value] + TokensFrom(s, p') && p < p'
  {
    hide TokensFrom, SkipWs;
    var q := SkipBlanks(s, p);
    TokensStep(s, p, q);
    var e := q;
    if q == |s| {
      tok := None;
    } else if s[q] == '|' || s[q] == '(' || s[q] == ')' || s[q] == ';' || s[q] == '&' || s[q] == '<' {
      tok, e := Some(Sym(s[q])), q + 1;
    } else if s[q] == '>' {
      tok, e := Some(Sym('>')), q + 1;
      if e < |s| && s[e] == '>' {
        tok, e := Some(Append), e + 1;
      }
    } else {
      while e < |s| && !IsWs(s[e]) && !IsSym(s[e])
        invariant q <= e <= |s| && WordEnd(s, e) == WordEnd(s, q)
      {
        e := e + 1;
      }
      tok := Some(Word(q, e));
    }
    p' := SkipBlanks(s, e);
    SkipSame(s, e);
    TokensStep(s, e, p');
  }

  lemma TokensStep(s: string, p: nat, q: nat)
    requires p <= |s| && q == SkipWs(s, p)
    ensures TokensFrom(s, p) == if q == |s| then [] else [TokenAt(s, q)] + TokensFrom(s, TokenEnd(s, q))
  {
  }

  /** peek(): skips blanks, and says whether the next character is one of `toks`. */
  method Peek(s: string, p: nat, toks: string) returns (r: bool, p': nat)
    requires p <= |s| && forall c :: c in toks ==> IsSym(c)
    ensures p <= p' <= |s| && TokensFrom(s, p') == TokensFrom(s, p)
    ensures r == Starts(TokensFrom(s, p), toks)
  {
    p' := SkipBlanks(s, p);
    SkipSame(s, p);
    r := p' < |s| && s[p'] in toks;
  }

  /** The first character of the first token is one of `toks`. */
  predicate Starts(t: Tokens, toks: string) {
    t != [] && match t[0] case Sym(c) => c in toks case Append => '>' in toks case Word(_, _) => false
  }

  // ---- The parse functions --------------------------------------------------------------------------

  /** The result of a parse function is what the grammar's parser does with the tokens. */
  ghost predicate Agrees(s: string, p: Parsed, r: Option<Cmd>, p': nat) {
    match p
    case None => r.None?
    case Some((c, rest)) => r == Some(c) && p' <= |s| && TokensFrom(s, p') == rest
  }

  /** parseredirs(): the redirections, in order. */
  method ParseRedirections(s: string, p: nat) returns (r: Option<seq<RedirT>>, p': nat)
    requires p <= |s|
    ensures p <= p' <= |s|
    ensures r.Some? == TakeRedirs(TokensFrom(s, p)).Some?
    ensures r.Some? ==> TakeRedirs(TokensFrom(s, p)) == Some((r.value, TokensFrom(s, p')))
  {
    hide TokensFrom, SkipWs, WordEnd, TokenAt, TokenEnd;
    var rs: seq<RedirT> := [];
    p' := p;
    ghost var t := TokensFrom(s, p);
    PrefixedNone(TakeRedirs(t));
    while true
      invariant p <= p' <= |s| && Prefixed(rs, TakeRedirs(TokensFrom(s, p'))) == TakeRedirs(t)
      decreases |s| - p'
    {
      var more;
      more, p' := Peek(s, p', "<>");
      if !more {
        assert rs + [] == rs;
        return Some(rs), p';
      }
      ghost var t1 := TokensFrom(s, p');
      var tok, file;
      tok, p' := GetToken(s, p');
      file, p' := GetToken(s, p');
      if file.None? || !file.value.Word? {
        return None, p';
      }
      assert t1[2..] == TokensFrom(s, p');
      PrefixedMore(rs, RedirT(ModeOf(tok.value), Span(file.value.lo, file.value.hi)), t1);
      rs := rs + [RedirT(ModeOf(tok.value), Span(file.value.lo, file.value.hi))];
    }
  }

  ghost function Prefixed(rs: seq<RedirT>, r: Option<(seq<RedirT>, Tokens)>): (r': Option<(seq<RedirT>, Tokens)>) {
    match r case None => None case Some((rs', rest)) => Some((rs + rs', rest))
  }

  lemma PrefixedNone(r: Option<(seq<RedirT>, Tokens)>)
    ensures Prefixed([], r) == r
  {
    if r.Some? {
      assert [] + r.value.0 == r.value.0;
    }
  }

  lemma PrefixedMore(rs: seq<RedirT>, x: RedirT, t: Tokens)
    requires |t| >= 2 && IsRedir(t[0]) && t[1].Word? && x == RedirT(ModeOf(t[0]), Span(t[1].lo, t[1].hi))
    ensures Prefixed(rs, TakeRedirs(t)) == Prefixed(rs + [x], TakeRedirs(t[2..]))
  {
    if TakeRedirs(t[2..]).Some? {
      Assoc(rs, [x], TakeRedirs(t[2..]).value.0);
    }
  }

  method ParseExecCmd(s: string, p: nat) returns (r: Option<Cmd>, p': nat)
    requires p <= |s|
    ensures p <= p' <= |s| && Agrees(s, ParseExec(TokensFrom(s, p)), r, p')
    decreases |s| - p, 1
  {
    hide TokensFrom, SkipWs, WordEnd, TokenAt, TokenEnd;
    var block;
    block, p' := Peek(s, p, "(");
    if block {
      r, p' := ParseBlockCmd(s, p');
      return;
    }
    var rs;
    rs, p' := ParseRedirections(s, p');
    if rs.None? {
      return None, p';
    }
    r, p' := ParseArguments(s, p', rs.value);
  }

  /** The loop of parseexec(). */
  method ParseArguments(s: string, p: nat, rs0: seq<RedirT>) returns (r: Option<Cmd>, p': nat)
    requires p <= |s|
    ensures p <= p' <= |s| && Agrees(s, ParseArgs([], rs0, TokensFrom(s, p)), r, p')
  {
    hide TokensFrom, SkipWs, WordEnd, TokenAt, TokenEnd;
    var argv: seq<Span> := [];
    var rs := rs0;
    p' := p;
    ghost var goal := ParseArgs([], rs0, TokensFrom(s, p));
    while true
      invariant p <= p' <= |s| && |argv| < MAXARGS && ParseArgs(argv, rs, TokensFrom(s, p')) == goal
      decreases |s| - p'
    {
      var end;
      end, p' := Peek(s, p', "|)&;");
      if end {
        return Some(Wrap(Exec(argv), rs)), p';
      }
      ghost var t := TokensFrom(s, p');
      var tok;
      tok, p' := GetToken(s, p');
      if tok.None? {
        return Some(Wrap(Exec(argv), rs)), p';
      }
      if !tok.value.Word? {
        return None, p';
      }
      if |argv| + 1 >= MAXARGS {
        return None, p';
      }
      assert t[1..] == TokensFrom(s, p');
      argv := argv + [Span(tok.value.lo, tok.value.hi)];
      var more;
      more, p' := ParseRedirections(s, p');
      if more.None? {
        return None, p';
      }
      rs := rs + more.value;
    }
  }

  method ParseBlockCmd(s: string, p: nat) returns (r: Option<Cmd>, p': nat)
    requires p <= |s| && Head(TokensFrom(s, p), '(')
    ensures p <= p' <= |s| && Agrees(s, ParseBlock(TokensFrom(s, p)), r, p')
    decreases |s| - p, 0
  {
    hide TokensFrom, SkipWs, WordEnd, TokenAt, TokenEnd;
    ghost var t := TokensFrom(s, p);
    var tok;
    tok, p' := GetToken(s, p);
    assert t[1..] == TokensFrom(s, p');
    r, p' := ParseLineCmd(s, p');
    if r.None? {
      return;
    }
    ghost var rest := TokensFrom(s, p');
    var close;
    close, p' := Peek(s, p', ")");
    if !close {
      return None, p';
    }
    tok, p' := GetToken(s, p');
    assert rest[1..] == TokensFrom(s, p');
    RedirsAsWrap(r.value, TokensFrom(s, p'));
    var rs;
    rs, p' := ParseRedirections(s, p');
    if rs.None? {
      return None, p';
    }
    r := Some(Wrap(r.value, rs.value));
  }

  method ParsePipeCmd(s: string, p: nat) returns (r: Option<Cmd>, p': nat)
    requires p <= |s|
    ensures p <= p' <= |s| && Agrees(s, ParsePipe(TokensFrom(s, p)), r, p')
    decreases |s| - p, 2
  {
    hide TokensFrom, SkipWs, WordEnd, TokenAt, TokenEnd;
    r, p' := ParseExecCmd(s, p);
    if r.None? {
      return;
    }
    ghost var rest := TokensFrom(s, p');
    var bar;
    bar, p' := Peek(s, p', "|");
    if bar {
      var tok, right;
      tok, p' := GetToken(s, p');
      assert rest[1..] == TokensFrom(s, p');
      right, p' := ParsePipeCmd(s, p');
      r := if right.Some? then Some(Cmd.Pipe(r.value, right.value)) else None;
    }
  }

  /** The loop of parseline(). */
  method ParseAmpersands(s: string, p: nat, c0: Cmd) returns (c: Cmd, p': nat)
    requires p <= |s|
    ensures p <= p' <= |s| && (c, TokensFrom(s, p')) == ParseAmps(c0, TokensFrom(s, p))
  {
    hide TokensFrom, SkipWs, WordEnd, TokenAt, TokenEnd;
    c, p' := c0, p;
    while true
      invariant p <= p' <= |s| && ParseAmps(c, TokensFrom(s, p')) == ParseAmps(c0, TokensFrom(s, p))
      decreases |s| - p'
    {
      var amp;
      amp, p' := Peek(s, p', "&");
      if !amp {
        return;
      }
      ghost var t := TokensFrom(s, p');
      var tok;
      tok, p' := GetToken(s, p');
      assert t[1..] == TokensFrom(s, p');
      c := Back(c);
    }
  }

  method ParseLineCmd(s: string, p: nat) returns (r: Option<Cmd>, p': nat)
    requires p <= |s|
    ensures p <= p' <= |s| && Agrees(s, ParseLine(TokensFrom(s, p)), r, p')
    decreases |s| - p, 3
  {
    hide TokensFrom, SkipWs, WordEnd, TokenAt, TokenEnd;
    r, p' := ParsePipeCmd(s, p);
    if r.None? {
      return;
    }
    var c;
    c, p' := ParseAmpersands(s, p', r.value);
    ghost var rest := TokensFrom(s, p');
    var semi;
    semi, p' := Peek(s, p', ";");
    r := Some(c);
    if semi {
      var tok, right;
      tok, p' := GetToken(s, p');
      assert rest[1..] == TokensFrom(s, p');
      right, p' := ParseLineCmd(s, p');
      r := if right.Some? then Some(Cmd.List(c, right.value)) else None;
    }
  }

  // ---- nulterminate() --------------------------------------------------------------------------------

  /** The arguments and file names of a command. */
  function Spans(c: Cmd): (ws: seq<Span>) {
    match c
    case Exec(argv) => argv
    case Redir(cmd, file, _, _) => Spans(cmd) + [file]
    case Pipe(left, right) => Spans(left) + Spans(right)
    case List(left, right) => Spans(left) + Spans(right)
    case Back(cmd) => Spans(cmd)
  }

  ghost predicate GoodSpans(s: string, ws: seq<Span>) {
    forall i :: 0 <= i < |ws| ==> GoodWord(s, ws[i].lo, ws[i].hi)
  }

  /** The buffer with a 0 at the end of each of the words. */
  ghost predicate Terminated(b0: seq<char>, b: seq<char>, ws: seq<Span>) {
    && |b| == |b0|
    && (forall i :: 0 <= i < |ws| && ws[i].hi < |b| ==> b[ws[i].hi] == '\0')
    && (forall k :: 0 <= k < |b| && b[k] != b0[k] ==> b[k] == '\0' && Ends(ws, k))
  }

  ghost predicate Ends(ws: seq<Span>, k: nat) { exists i :: 0 <= i < |ws| && ws[i].hi == k }

  /** nulterminate(): writes a 0 after every argument and file name, and nothing else. */
  method Nulterminate(c: Cmd, buf: array<char>)
    requires InBuffer(Spans(c), buf.Length)
    modifies buf
    ensures Terminated(old(buf[..]), buf[..], Spans(c))
    decreases c
  {
    match c
    case Exec(argv) =>
      var i := 0;
      while i < |argv|
        invariant i <= |argv| && Terminated(old(buf[..]), buf[..], argv[..i])
      {
        buf[argv[i].hi] := '\0';
        OneMore(old(buf[..]), buf[..], argv, i);
        i := i + 1;
      }
      assert argv[..i] == argv;
    case Redir(cmd, file, _, _) =>
      InnerSpans(Spans(cmd), [file], buf.Length);
      assert [file][0].hi < buf.Length;
      Nulterminate(cmd, buf);
      ghost var b := buf[..];
      buf[file.hi] := '\0';
      assert Ends([file], file.hi) by { assert [file][0].hi == file.hi; }
      Both(old(buf[..]), b, buf[..], Spans(cmd), [file]);
    case Pipe(left, right) =>
      InnerSpans(Spans(left), Spans(right), buf.Length);
      Nulterminate(left, buf);
      ghost var b := buf[..];
      Nulterminate(right, buf);
      Both(old(buf[..]), b, buf[..], Spans(left), Spans(right));
    case List(left, right) =>
      InnerSpans(Spans(left), Spans(right), buf.Length);
      Nulterminate(left, buf);
      ghost var b := buf[..];
      Nulterminate(right, buf);
      Both(old(buf[..]), b, buf[..], Spans(left), Spans(right));
    case Back(cmd) =>
      Nulterminate(cmd, buf);
  }

  ghost predicate InBuffer(ws: seq<Span>, n: nat) { forall i :: 0 <= i < |ws| ==> ws[i].hi < n }

  lemma InnerSpans(a: seq<Span>, b: seq<Span>, n: nat)
    requires InBuffer(a + b, n)
    ensures InBuffer(a, n) && InBuffer(b, n)
  {
    forall i | 0 <= i < |a| ensures a[i].hi < n {
      assert (a + b)[i] == a[i];
    }
    forall i | 0 <= i < |b| ensures b[i].hi < n {
      assert (a + b)[|a| + i] == b[i];
    }
  }

  lemma OneMore(b0: seq<char>, b: seq<char>, ws: seq<Span>, i: nat)
    requires i < |ws| && |b| == |b0| && ws[i].hi < |b| && b[ws[i].hi] == '\0'
    requires exists b1 :: Terminated(b0, b1, ws[..i]) && b == b1[ws[i].hi := '\0']
    ensures Terminated(b0, b, ws[..i + 1])
  {
    var b1 :| Terminated(b0, b1, ws[..i]) && b == b1[ws[i].hi := '\0'];
    forall k | 0 <= k < |b| && b[k] != b0[k] ensures b[k] == '\0' && Ends(ws[..i + 1], k) {
      if k == ws[i].hi {
        assert ws[..i + 1][i].hi == k;
      } else {
        var j :| 0 <= j < |ws[..i]| && ws[..i][j].hi == k;
        assert ws[..i + 1][j].hi == k;
      }
    }
    var ws' := ws[..i + 1];
    forall j | 0 <= j < |ws'| && ws'[j].hi < |b| ensures b[ws'[j].hi] == '\0' {
      assert j < i ==> ws[..i][j] == ws'[j];
    }
  }

  lemma Both(b0: seq<char>, b1: seq<char>, b2: seq<char>, xs: seq<Span>, ys: seq<Span>)
    requires Terminated(b0, b1, xs) && Terminated(b1, b2, ys)
    ensures Terminated(b0, b2, xs + ys)
  {
    forall k | 0 <= k < |b2| && b2[k] != b0[k] ensures b2[k] == '\0' && Ends(xs + ys, k) {
      if b2[k] != b1[k] {
        var i :| 0 <= i < |ys| && ys[i].hi == k;
        assert (xs + ys)[|xs| + i].hi == k;
      } else {
        var i :| 0 <= i < |xs| && xs[i].hi == k;
        assert (xs + ys)[i].hi == k;
      }
    }
    forall i | 0 <= i < |xs + ys| && (xs + ys)[i].hi < |b2| ensures b2[(xs + ys)[i].hi] == '\0' {
      if i < |xs| {
        assert b1[xs[i].hi] == '\0';
      } else {
        assert (xs + ys)[i] == ys[i - |xs|];
      }
    }
  }

  /** After nulterminate(), every argument and file name, read as a C string from its start, is the
      word that was in the input. */
  lemma CStrings(s: string, b: seq<char>, ws: seq<Span>, i: nat)
    requires GoodSpans(s, ws) && Terminated(s + ['\0'], b, ws) && i < |ws| && '\0' !in s
    ensures var w := ws[i];
            w.hi < |b| && b[w.lo..w.hi] == s[w.lo..w.hi] && b[w.hi] == '\0' && '\0' !in b[w.lo..w.hi]
  {
    var w, b0 := ws[i], s + ['\0'];
    assert GoodWord(s, w.lo, w.hi);
    forall k | w.lo <= k < w.hi ensures b[k] == s[k] {
      forall j | 0 <= j < |ws| ensures ws[j].hi != k {
        assert GoodWord(s, ws[j].lo, ws[j].hi);
      }
      assert !Ends(ws, k);
      assert b0[k] == s[k];
    }
  }

  // ---- parsecmd() ------------------------------------------------------------------------------------

  lemma {:induction false} WrapSpans(s: string, c: Cmd, rs: seq<RedirT>)
    requires GoodSpans(s, Spans(c)) && forall i :: 0 <= i < |rs| ==> GoodWord(s, rs[i].file.lo, rs[i].file.hi)
    ensures GoodSpans(s, Spans(Wrap(c, rs)))
    decreases |rs|
  {
    if rs != [] {
      WrapSpans(s, Redir(c, rs[0].file, rs[0].mode, if rs[0].mode.Read? then 0 else 1), rs[1..]);
    }
  }

  lemma {:induction false} RedirsGood(s: string, t: Tokens)
    requires GoodTokens(s, t) && TakeRedirs(t).Some?
    ensures GoodTokens(s, TakeRedirs(t).value.1)
    ensures forall i :: 0 <= i < |TakeRedirs(t).value.0| ==>
                          GoodWord(s, TakeRedirs(t).value.0[i].file.lo, TakeRedirs(t).value.0[i].file.hi)
    decreases |t|
  {
    if t != [] && IsRedir(t[0]) {
      assert GoodWord(s, t[1].lo, t[1].hi);
      RedirsGood(s, t[2..]);
    }
  }

  lemma {:induction false} ArgsGood(s: string, argv: seq<Span>, rs: seq<RedirT>, t: Tokens)
    requires GoodTokens(s, t) && GoodSpans(s, argv) &&
             (forall i :: 0 <= i < |rs| ==> GoodWord(s, rs[i].file.lo, rs[i].file.hi))
    requires ParseArgs(argv, rs, t).Some?
    ensures GoodSpans(s, Spans(ParseArgs(argv, rs, t).value.0)) && GoodTokens(s, ParseArgs(argv, rs, t).value.1)
    decreases |t|
  {
    if EndsExec(t) {
      WrapSpans(s, Exec(argv), rs);
    } else {
      RedirsGood(s, t[1..]);
      ArgsGood(s, argv + [Span(t[0].lo, t[0].hi)], rs + TakeRedirs(t[1..]).value.0, TakeRedirs(t[1..]).value.1);
    }
  }

  lemma {:induction false} ExecGood(s: string, t: Tokens)
    requires GoodTokens(s, t) && ParseExec(t).Some?
    ensures GoodSpans(s, Spans(ParseExec(t).value.0)) && GoodTokens(s, ParseExec(t).value.1)
    decreases |t|, 1
  {
    if Head(t, '(') {
      LineGood(s, t[1..]);
      var (c, rest) := ParseLine(t[1..]).value;
      RedirsAsWrap(c, rest[1..]);
      RedirsGood(s, rest[1..]);
      WrapSpans(s, c, TakeRedirs(rest[1..]).value.0);
    } else {
      RedirsGood(s, t);
      ArgsGood(s, [], TakeRedirs(t).value.0, TakeRedirs(t).value.1);
    }
  }

  lemma {:induction false} PipeGood(s: string, t: Tokens)
    requires GoodTokens(s, t) && ParsePipe(t).Some?
    ensures GoodSpans(s, Spans(ParsePipe(t).value.0)) && GoodTokens(s, ParsePipe(t).value.1)
    decreases |t|, 2
  {
    ExecGood(s, t);
    var rest := ParseExec(t).value.1;
    if Head(rest, '|') {
      PipeGood(s, rest[1..]);
    }
  }

  lemma {:induction false} AmpsGood(s: string, c: Cmd, t: Tokens)
    requires GoodTokens(s, t) && GoodSpans(s, Spans(c))
    ensures GoodSpans(s, Spans(ParseAmps(c, t).0)) && GoodTokens(s, ParseAmps(c, t).1)
    decreases |t|
  {
    if Head(t, '&') {
      AmpsGood(s, Back(c), t[1..]);
    }
  }

  /** Every word of the command is a word of the input. */
  lemma {:induction false} LineGood(s: string, t: Tokens)
    requires GoodTokens(s, t) && ParseLine(t).Some?
    ensures GoodSpans(s, Spans(ParseLine(t).value.0)) && GoodTokens(s, ParseLine(t).value.1)
    decreases |t|, 3
  {
    PipeGood(s, t);
    var (c, rest) := ParsePipe(t).value;
    AmpsGood(s, c, rest);
    var rest' := ParseAmps(c, rest).1;
    if Head(rest', ';') {
      LineGood(s, rest'[1..]);
    }
  }

  /** parsecmd(): a command exactly for an input that the grammar derives, the tree that the grammar
      gives it; and in the buffer every argument and file name has become a C string. `None` is
      panic(). */
  method ParseCmd(s: string, buf: array<char>) returns (r: Option<Cmd>)
    requires buf[..] == s + ['\0'] && '\0' !in s
    modifies buf
    ensures r.Some? <==> exists c :: ParseLine(TokensFrom(s, 0)) == Some((c, []))
    ensures r.Some? ==> ParseLine(TokensFrom(s, 0)) == Some((r.value, [])) && GoodSpans(s, Spans(r.value)) &&
                        Terminated(s + ['\0'], buf[..], Spans(r.value))
  {
    var p;
    r, p := ParseLineCmd(s, 0);
    if r.None? {
      return;
    }
    ghost var rest := TokensFrom(s, p);
    var q := SkipBlanks(s, p);
    if q != |s| {
      return None;
    }
    TokensAreGood(s, 0);
    LineGood(s, TokensFrom(s, 0));
    assert InBuffer(Spans(r.value), buf.Length) by {
      assert |buf[..]| == |s| + 1;
    }
    Nulterminate(r.value, buf);
  }
}
