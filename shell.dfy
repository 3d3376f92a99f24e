/**
 * The command loop of the simulator.
 *
 * Each input line arrives already split into whitespace-separated tokens,
 * and the parsing of a size token is a parameter `parse` (`None` where the
 * token is not a number).  `Dispatch` is the decision table that turns a
 * line into at most one call on the file system; `Step` and `Run` give the
 * effect of one command and of a whole session on the value state, and
 * `App.Start` runs the loop over the objects and is proved to do exactly
 * what `Run` says.
 */
module Shell {
  import opened Tree
  import Session
  import opened Heap

  /** What one input line asks for. */
  datatype Command =
    | ChangeDir(target: string)
    | List
    | ReportSize
    | MakeFile(name: string, size: int)
    | BadSize
    | MakeFolder(name: string)
    | RemoveFile(name: string)
    | RemoveFolder(name: string)
    | Help
    | Exit
    | Ignore

  /** What the session writes in answer to a command. */
  datatype Output =
    | Listing(files: set<string>, folders: set<string>)
    | SizeIs(size: int)
    | NoSuchDirectory
    | InvalidFormat
    | HelpText

  /** True when the line is non-empty and starts with `word`. */
  predicate Starts(tokens: seq<string>, word: string)
  {
    |tokens| > 0 && tokens[0] == word
  }

  /**
   * The command a line of tokens stands for, tested in the order the
   * application tests the first word.
   */
  function Dispatch(tokens: seq<string>, parse: string -> Option<int>): Command
  {
    if |tokens| == 0 then Ignore
    else if tokens[0] == "cd" then
      if |tokens| == 2 then ChangeDir(tokens[1]) else ChangeDir(tokens[0])
    else if tokens[0] == "ls" then List
    else if tokens[0] == "size" then ReportSize
    else if tokens[0] == "createfile" then
      if |tokens| == 3 then
        match parse(tokens[2])
        case Some(n) => MakeFile(tokens[1], n)
        case None => BadSize
      else Ignore
    else if tokens[0] == "createfolder" then
      if |tokens| == 2 then MakeFolder(tokens[1]) else Ignore
    else if tokens[0] == "delete" then
      if |tokens| == 3 && tokens[1] == "f" then RemoveFile(tokens[2])
      else if |tokens| == 3 && tokens[1] == "d" then RemoveFolder(tokens[2])
      else Ignore
    else if tokens[0] == "exit" then Exit
    else if tokens[0] == "help" then Help
    else Ignore
  }

  /**
   * The decision table, one command at a time: `cd` with anything but one
   * argument changes to a directory called "cd"; `createfile` needs exactly
   * two arguments and reports a bad format when the size does not parse;
   * `createfolder` needs exactly one argument; `delete` needs exactly two,
   * the first `f` or `d`; every other line does nothing.
   */
  lemma DispatchTable(tokens: seq<string>, parse: string -> Option<int>)
    ensures var c := Dispatch(tokens, parse);
      && (c.ChangeDir? <==> Starts(tokens, "cd"))
      && (c.ChangeDir? ==> c.target == if |tokens| == 2 then tokens[1] else "cd")
      && (c.List? <==> Starts(tokens, "ls"))
      && (c.ReportSize? <==> Starts(tokens, "size"))
      && (c.MakeFile? <==> Starts(tokens, "createfile") && |tokens| == 3 && parse(tokens[2]).Some?)
      && (c.MakeFile? ==> c.name == tokens[1] && Some(c.size) == parse(tokens[2]))
      && (c.BadSize? <==> Starts(tokens, "createfile") && |tokens| == 3 && parse(tokens[2]).None?)
      && (c.MakeFolder? <==> Starts(tokens, "createfolder") && |tokens| == 2)
      && (c.MakeFolder? ==> c.name == tokens[1])
      && (c.RemoveFile? <==> Starts(tokens, "delete") && |tokens| == 3 && tokens[1] == "f")
      && (c.RemoveFolder? <==> Starts(tokens, "delete") && |tokens| == 3 && tokens[1] == "d")
      && (c.RemoveFile? || c.RemoveFolder? ==> c.name == tokens[2])
      && (c.Help? <==> Starts(tokens, "help"))
      && (c.Exit? <==> Starts(tokens, "exit"))
  {
  }

  /** True for the commands that change the tree. */
  predicate Mutates(c: Command)
  {
    c.MakeFile? || c.MakeFolder? || c.RemoveFile? || c.RemoveFolder?
  }

  /** A session whose cursor names a directory of its tree. */
  type Live = s: Session.State | s.Valid() witness Session.Initial

  /** What one of the four mutating commands does to a session. */
  ghost function Effect(s: Live, c: Command): (r: Live)
    requires Mutates(c)
    ensures r.cwd == s.cwd
  {
    match c
    case MakeFile(name, size) => s.CreateFile(name, size)
    case MakeFolder(name) => s.CreateFolder(name)
    case RemoveFile(name) => s.DeleteFile(name)
    case RemoveFolder(name) => s.DeleteFolder(name)
  }

  /** What a command that neither moves nor mutates writes. */
  ghost function Reply(s: Live, c: Command): seq<Output>
    requires !c.ChangeDir? && !Mutates(c)
  {
    match c
    case List => [Listing(s.Current().files.Keys, s.Current().subs.Keys)]
    case ReportSize => [SizeIs(Wrap32(Size(s.Current())))]
    case BadSize => [InvalidFormat]
    case Help => [HelpText]
    case Exit => []
    case Ignore => []
  }

  /**
   * The effect of one command other than `exit` on a session: the new
   * session and what is written.
   */
  ghost function Step(s: Live, c: Command): (Live, seq<Output>)
  {
    if c.ChangeDir? then
      var moved := s.Cd(c.target);
      (moved.0, if moved.1 then [NoSuchDirectory] else [])
    else if Mutates(c) then (Effect(s, c), [])
    else (s, Reply(s, c))
  }

  /**
   * What one command may touch: `cd` never changes the tree, the four
   * mutating commands never move the cursor and write nothing, and every
   * other command leaves the session exactly as it was; a size that does
   * not parse only reports the bad format.
   */
  lemma StepFrame(s: Live, c: Command)
    ensures c.ChangeDir? ==> Step(s, c).0.root == s.root
    ensures Mutates(c) ==> Step(s, c).0.cwd == s.cwd && Step(s, c).1 == []
    ensures !c.ChangeDir? && !Mutates(c) ==> Step(s, c).0 == s
    ensures c.BadSize? ==> Step(s, c) == (s, [InvalidFormat])
    ensures c.Ignore? ==> Step(s, c) == (s, [])
  {
  }

  /** Where a run over some lines ends: the session, what was written, and whether `exit` was met. */
  datatype Outcome = Outcome(state: Live, out: seq<Output>, exited: bool)

  /**
   * The lines run in order from session `s`, up to and not including the
   * first `exit`; the lines after an `exit` are never read.
   */
  ghost function Run(s: Live, lines: seq<seq<string>>, parse: string -> Option<int>): Outcome
    decreases |lines|
  {
    if lines == [] then Outcome(s, [], false)
    else
      var prev := Run(s, lines[..|lines| - 1], parse);
      if prev.exited then prev
      else
        var c := Dispatch(lines[|lines| - 1], parse);
        if c.Exit? then prev.(exited := true)
        else
          var next := Step(prev.state, c);
          Outcome(next.0, prev.out + next.1, false)
  }

  /** Once a run has met `exit`, further lines change nothing. */
  lemma {:induction false} RunAfterExit(s: Live, lines: seq<seq<string>>, parse: string -> Option<int>, i: nat)
    requires i <= |lines| && Run(s, lines[..i], parse).exited
    ensures Run(s, lines, parse) == Run(s, lines[..i], parse)
    decreases |lines|
  {
    if i < |lines| {
      var n := |lines| - 1;
      assert lines[..n][..i] == lines[..i];
      RunAfterExit(s, lines[..n], parse, i);
    } else {
      assert lines[..i] == lines;
    }
  }

  /** A line other than `exit`, met before any `exit`, is one `Step`. */
  lemma {:induction false} RunNext(s: Live, lines: seq<seq<string>>, parse: string -> Option<int>, i: nat,
                t: Live, o: seq<Output>)
    requires i < |lines| && !Run(s, lines[..i], parse).exited
    requires !Dispatch(lines[i], parse).Exit?
    requires (t, o) == Step(Run(s, lines[..i], parse).state, Dispatch(lines[i], parse))
    ensures Run(s, lines[..i + 1], parse) == Outcome(t, Run(s, lines[..i], parse).out + o, false)
  {
    assert lines[..i + 1][..i] == lines[..i];
  }

  /**
   * An `exit` line ends the session: the run over all lines is the run
   * over the lines before it, unless an earlier `exit` ended it sooner.
   */
  lemma {:induction false} ExitEnds(s: Live, lines: seq<seq<string>>, parse: string -> Option<int>, i: nat)
    requires i < |lines| && Dispatch(lines[i], parse).Exit?
    ensures Run(s, lines, parse).exited
    ensures !Run(s, lines[..i], parse).exited ==>
      Run(s, lines, parse) == Run(s, lines[..i], parse).(exited := true)
  {
    assert lines[..i + 1][..i] == lines[..i];
    RunAfterExit(s, lines, parse, i + 1);
  }

  /** A line that the table ignores changes neither the session nor what is written. */
  lemma {:induction false} IgnoredLine(s: Live, lines: seq<seq<string>>, tokens: seq<string>, parse: string -> Option<int>)
    requires Dispatch(tokens, parse).Ignore?
    ensures Run(s, lines + [tokens], parse) == Run(s, lines, parse)
  {
    assert (lines + [tokens])[..|lines|] == lines;
  }

  /**
   * A `cd` line with no argument, or with more than one, is `cd "cd"` in
   * any session: it enters a subdirectory called "cd" when there is one,
   * writing nothing, and otherwise stays put and reports a missing
   * directory.
   */
  lemma BareCd(s: Live, tokens: seq<string>, parse: string -> Option<int>)
    requires Starts(tokens, "cd") && |tokens| != 2
    ensures Step(s, Dispatch(tokens, parse)) == Step(s, ChangeDir("cd"))
    ensures "cd" in s.Current().subs ==>
      Step(s, Dispatch(tokens, parse)) == (Session.State(s.root, s.cwd + ["cd"]), [])
    ensures "cd" !in s.Current().subs ==>
      Step(s, Dispatch(tokens, parse)) == (s, [NoSuchDirectory])
  {
  }

  /**
   * Two whole runs with a bare `cd`: at an empty root it reports a missing
   * directory, and after `createfolder cd` it enters that folder.
   */
  lemma BareCdRuns(parse: string -> Option<int>)
    ensures Run(Session.Initial, [["cd"]], parse).out == [NoSuchDirectory]
    ensures Run(Session.Initial, [["createfolder", "cd"], ["cd"]], parse).state.cwd == ["cd"]
  {
    var one: seq<seq<string>> := [["cd"]];
    assert one[..0] == [];
    var two: seq<seq<string>> := [["createfolder", "cd"], ["cd"]];
    assert two[..1][..0] == [] && two[..1] == [["createfolder", "cd"]];
    var s := Session.Initial.CreateFolder("cd");
    assert s.Current().subs == map["cd" := Empty];
  }

  /**
   * The application: the help text, then one command per line until
   * `exit` or the end of the input.
   */
  class App {
    var simulator: FileSystem

    constructor ()
      ensures simulator.Valid() && fresh(simulator) && fresh(simulator.nodes)
      ensures simulator.State() == Session.Initial
    {
      simulator := new FileSystem();
    }

    /** The loop: what is written and the final session are those of `Run`. */
    method Start(lines: seq<seq<string>>, parse: string -> Option<int>) returns (out: seq<Output>)
      requires simulator.Valid()
      modifies simulator, simulator.nodes
      ensures simulator.Valid()
      ensures var r := Run(old(simulator.State()), lines, parse);
        simulator.State() == r.state && out == [HelpText] + r.out
    {
      ghost var s := simulator.State();
      var written := [];
      var i := 0;
      while i < |lines|
        invariant i <= |lines|
        invariant simulator.Valid() && fresh(simulator.nodes - old(simulator.nodes))
        invariant var r := Run(s, lines[..i], parse);
          !r.exited && simulator.State() == r.state && written == r.out
      {
        var c := Dispatch(lines[i], parse);
        if c.Exit? {
          ExitEnds(s, lines, parse, i);
          break;
        }
        var o;
        ghost var t: Live;
        o, t := Execute(c, Run(s, lines[..i], parse).state);
        RunNext(s, lines, parse, i, t, o);
        written := written + o;
        i := i + 1;
      }
      if i == |lines| {
        assert lines[..i] == lines;
      }
      out := [HelpText] + written;
    }

    /** The call on the file system that command `c` makes, and what it writes. */
    method Execute(c: Command, ghost s: Live) returns (o: seq<Output>, ghost t: Live)
      requires simulator.Valid() && simulator.State() == s && !c.Exit?
      modifies simulator, simulator.current
      ensures simulator.Valid() && fresh(simulator.nodes - old(simulator.nodes))
      ensures simulator.State() == t && (t, o) == Step(s, c)
    {
      if c.ChangeDir? {
        o, t := Move(c.target, s);
      } else if Mutates(c) {
        t := Mutate(c, s);
        o := [];
      } else {
        o := Query(c);
        t := s;
      }
    }

    /** `cd`: what it writes and where the cursor ends. */
    method Move(target: string, ghost s: Live) returns (o: seq<Output>, ghost t: Live)
      requires simulator.Valid() && simulator.State() == s
      modifies simulator
      ensures simulator.Valid() && unchanged(simulator`nodes)
      ensures simulator.State() == t && (t, o) == Step(s, ChangeDir(target))
    {
      var missing := simulator.Cd(target);
      o := if missing then [NoSuchDirectory] else [];
      t := s.Cd(target).0;
    }

    /** `ls`, `size`, `help`, a size that does not parse, or an ignored line. */
    method Query(c: Command) returns (o: seq<Output>)
      requires simulator.Valid() && !c.ChangeDir? && !Mutates(c) && !c.Exit?
      ensures o == Reply(simulator.State(), c)
    {
      match c
      case List =>
        var fileNames, folderNames := simulator.Ls();
        o := [Listing(fileNames, folderNames)];
      case ReportSize =>
        var size := simulator.Size();
        o := [SizeIs(size)];
      case BadSize =>
        o := [InvalidFormat];
      case Help =>
        o := [HelpText];
      case Ignore =>
        o := [];
    }

    /** `createfile`, `createfolder`, `delete f` or `delete d`. */
    method Mutate(c: Command, ghost s: Live) returns (ghost t: Live)
      requires simulator.Valid() && simulator.State() == s && Mutates(c)
      modifies simulator, simulator.current
      ensures simulator.Valid() && fresh(simulator.nodes - old(simulator.nodes))
      ensures simulator.State() == t && t == Effect(s, c)
    {
      match c
      case MakeFile(name, size) =>
        simulator.CreateFile(name, size);
        t := s.CreateFile(name, size);
      case MakeFolder(name) =>
        simulator.CreateFolder(name);
        t := s.CreateFolder(name);
      case RemoveFile(name) =>
        simulator.DeleteFile(name);
        t := s.DeleteFile(name);
      case RemoveFolder(name) =>
        simulator.DeleteFolder(name);
        t := s.DeleteFolder(name);
    }
  }
}
