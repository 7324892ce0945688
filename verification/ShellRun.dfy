/** What the trees of the shell's parser come to when runcmd() of user/sh.c runs them: the programs, each
    with its standard input and output. Every fork(), pipe() and open() succeeds. */
module ShellRun {
  import opened ShellGrammar

  /** What a descriptor stands for: what the shell was given, a file, or the pipe that runcmd() made at a
      place of the tree, with `true` for each step to the right. */
  datatype Stream = Given | File(file: Span, mode: Mode) | PipeAt(at: seq<bool>)

  datatype Program = Program(argv: seq<Span>, input: Stream, output: Stream)

  /** runcmd(): the programs that it executes, from left to right. */
  function Execs(c: Cmd, at: seq<bool>, input: Stream, output: Stream): (ps: seq<Program>)
    decreases c
  {
    match c
    case Exec(argv) => if argv == [] then [] else [Program(argv, input, output)]
    case Redir(cmd, file, mode, fd) =>
      if fd == 0 then Execs(cmd, at, File(file, mode), output) else Execs(cmd, at, input, File(file, mode))
    case Pipe(left, right) =>
      Execs(left, at + [false], input, PipeAt(at)) + Execs(right, at + [true], PipeAt(at), output)
    case List(left, right) => Execs(left, at + [false], input, output) + Execs(right, at + [true], input, output)
    case Back(cmd) => Execs(cmd, at, input, output)
  }

  /** The file of the first redirection for reading or, if not `read`, for writing. */
  function First(rs: seq<RedirT>, read: bool, s: Stream): (r: Stream) {
    if rs == [] then s
    else if rs[0].mode.Read? == read then File(rs[0].file, rs[0].mode)
    else First(rs[1..], read, s)
  }

  /** Of several redirections in one direction the first one counts, as it is opened last. */
  lemma {:induction false} FirstRedirectionWins(c: Cmd, rs: seq<RedirT>, at: seq<bool>, input: Stream, output: Stream)
    ensures Execs(Wrap(c, rs), at, input, output) ==
              Execs(c, at, First(rs, true, input), First(rs, false, output))
    decreases |rs|
  {
    if rs != [] {
      var fd := if rs[0].mode.Read? then 0 else 1;
      FirstRedirectionWins(Redir(c, rs[0].file, rs[0].mode, fd), rs[1..], at, input, output);
    }
  }

  /** The program of a command, wherever its redirections stand among its words. */
  function Simple(redirs: seq<RedirT>, args: seq<ArgT>, input: Stream, output: Stream): (ps: seq<Program>) {
    var rs := redirs + AllRedirs(args);
    if args == [] then [] else [Program(Words(args), First(rs, true, input), First(rs, false, output))]
  }

  lemma WordsThere(args: seq<ArgT>)
    ensures Words(args) == [] <==> args == []
  {
  }

  lemma CommandRuns(redirs: seq<RedirT>, args: seq<ArgT>, at: seq<bool>, input: Stream, output: Stream)
    ensures Execs(TreeExec(SimpleT(redirs, args)), at, input, output) == Simple(redirs, args, input, output)
  {
    FirstRedirectionWins(Exec(Words(args)), redirs + AllRedirs(args), at, input, output);
    WordsThere(args);
  }

  /** The commands of a pipeline of simple commands. */
  predicate AllSimple(x: PipeT) {
    match x
    case LastT(exec) => exec.SimpleT?
    case PipeT(exec, rest) => exec.SimpleT? && AllSimple(rest)
  }

  function Commands(x: PipeT): (xs: seq<ExecT>)
    ensures |xs| > 0
  {
    match x
    case LastT(exec) => [exec]
    case PipeT(exec, rest) => [exec] + Commands(rest)
  }

  function Rights(k: nat): (at: seq<bool>)
    ensures |at| == k
  {
    if k == 0 then [] else [true] + Rights(k - 1)
  }

  lemma {:induction false} RightsMore(k: nat)
    ensures Rights(k + 1) == Rights(k) + [true]
  {
    if k > 0 {
      RightsMore(k - 1);
      assert [true] + (Rights(k - 1) + [true]) == [true] + Rights(k - 1) + [true];
    } else {
      assert Rights(1) == [true] + Rights(0);
    }
  }

  /** Command `k` of the `n` of a pipeline reads from the pipe that the one before it writes to. */
  ghost function Stages(xs: seq<ExecT>, k: nat): (ps: seq<Program>)
    requires k <= |xs| && forall j :: 0 <= j < |xs| ==> xs[j].SimpleT?
    decreases |xs| - k
  {
    if k == |xs| then []
    else Simple(xs[k].redirs, xs[k].args, if k == 0 then Given else PipeAt(Rights(k - 1)),
                if k + 1 == |xs| then Given else PipeAt(Rights(k))) + Stages(xs, k + 1)
  }

  /** A pipeline runs its commands in order, and joins the output of each to the input of the next, unless
      they are redirected. */
  lemma PipelineRuns(x: PipeT)
    requires AllSimple(x)
    ensures forall j :: 0 <= j < |Commands(x)| ==> Commands(x)[j].SimpleT?
    ensures Execs(TreePipe(x), [], Given, Given) == Stages(Commands(x), 0)
  {
    SimpleCommands(x);
    RestRuns(x, Commands(x), 0);
  }

  lemma {:induction false} SimpleCommands(x: PipeT)
    requires AllSimple(x)
    ensures forall j :: 0 <= j < |Commands(x)| ==> Commands(x)[j].SimpleT?
  {
    if x.PipeT? {
      SimpleCommands(x.rest);
    }
  }

  lemma {:induction false} RestRuns(x: PipeT, xs: seq<ExecT>, k: nat)
    requires AllSimple(x) && k <= |xs| && xs[k..] == Commands(x) && forall j :: 0 <= j < |xs| ==> xs[j].SimpleT?
    ensures Execs(TreePipe(x), Rights(k), if k == 0 then Given else PipeAt(Rights(k - 1)), Given) == Stages(xs, k)
    decreases x
  {
    var input := if k == 0 then Given else PipeAt(Rights(k - 1));
    assert xs[k] == xs[k..][0] == Commands(x)[0];
    match x
    case LastT(exec) =>
      assert k + 1 == |xs|;
      CommandRuns(exec.redirs, exec.args, Rights(k), input, Given);
      assert Stages(xs, k + 1) == [];
    case PipeT(exec, rest) =>
      assert xs[k + 1..] == xs[k..][1..] == Commands(rest);
      CommandRuns(exec.redirs, exec.args, Rights(k) + [false], input, PipeAt(Rights(k)));
      RestRuns(rest, xs, k + 1);
      RightsMore(k);
  }
}
