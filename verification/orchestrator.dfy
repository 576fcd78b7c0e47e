/** The driver of build.php: `main` reads the command line, selects the
    variable sets and the command list, and `run_commands` substitutes and
    executes the commands one by one, printing each one and its output and
    stopping the whole build at the first error.

    What the build prints is kept as a trace of lines (the line ending is
    left out) and `exit` as a status; everything the build reads from the
    outside world comes in through `Env`. */
module Orchestrator {
  import opened Php
  import opened RunFile
  import opened Substitution
  import opened Variables
  import opened Execution

  /** The state a build carries from one command to the next: the working
      directory, the lines printed so far and (for the proofs) the commands
      handed to `execute_command` so far. */
  datatype Trace = Trace(cwd: string, out: seq<string>, executed: seq<string>)

  /** A trace, and whether the build may go on (false once it has exited). */
  datatype RunOutcome = RunOutcome(trace: Trace, ok: bool)

  /** The message `parse_command` throws. */
  const ParseError := "Error parsing command substitutions."

  /** A line printed for a failed command: the message of `parse_command`, or
      one of `execute_command`, which all start with "Error: ". */
  predicate IsErrorLine(line: string) {
    line == ParseError || (|line| >= 7 && line[..7] == "Error: ")
  }

  /** What `run_commands` prints after ">> " and the command: the lines the
      command wrote, or the message of its exception. */
  function Printed(result: Result<seq<string>, string>): seq<string> {
    match result
    case Success(lines) => lines
    case Failure(message) => [message]
  }

  /** One pass of the loop in `run_commands`: substitute, print ">> " and the
      command, execute it, print its output; on an exception print the
      message and exit. A refused command prints only the message; the
      working directory moves only with a command that succeeds. */
  function RunCommand(os: Os, t: Trace, command: string, vars: map<string, string>): (r: RunOutcome)
    ensures |t.out| < |r.trace.out|
    ensures ParseCommand(command, vars).Failure? ==> r == RunOutcome(t.(out := t.out + [ParseError]), false)
    ensures ParseCommand(command, vars).Success? ==>
              var cmd := Substitute(command, vars);
              var x := Execute(os, t.cwd, cmd);
              && r.trace == Trace(x.cwd, t.out + [">> " + cmd] + Printed(x.result), t.executed + [cmd])
              && r.ok == x.result.Success?
    ensures !r.ok ==> IsErrorLine(LastLine(r.trace.out))
    ensures r.trace.cwd != t.cwd ==> r.ok && ParseCommand(command, vars).Success?
  {
    match ParseCommand(command, vars)
    case Failure(message) => RunOutcome(t.(out := t.out + [message]), false)
    case Success(cmd) =>
      var x := Execute(os, t.cwd, cmd);
      var echoed := t.out + [">> " + cmd];
      match x.result
      case Failure(message) => RunOutcome(Trace(t.cwd, echoed + [message], t.executed + [cmd]), false)
      case Success(lines) => RunOutcome(Trace(x.cwd, echoed + lines, t.executed + [cmd]), true)
  }

  /** `run_commands($commands, $vars)` from trace `t`: each command in turn
      until one fails. */
  function Run(os: Os, t: Trace, commands: seq<string>, vars: map<string, string>): (r: RunOutcome)
    ensures |t.out| <= |r.trace.out| && |t.executed| <= |r.trace.executed| <= |t.executed| + |commands|
    ensures !r.ok ==> commands != [] && |t.out| < |r.trace.out| && IsErrorLine(LastLine(r.trace.out))
    decreases |commands|
  {
    if commands == [] then RunOutcome(t, true)
    else
      var first := RunCommand(os, t, commands[0], vars);
      if !first.ok then first else Run(os, first.trace, commands[1..], vars)
  }

  lemma SliceShift<T>(s: seq<T>, k: nat)
    requires k < |s|
    ensures s[..k + 1][0] == s[0] && s[..k + 1][1..] == s[1..][..k] && s[k + 1..] == s[1..][k..]
  {
  }

  /** The first command decides whether the rest of the list runs, from
      the trace it leaves. */
  lemma RunStep(os: Os, t: Trace, commands: seq<string>, vars: map<string, string>)
    requires commands != []
    ensures var first := RunCommand(os, t, commands[0], vars);
            Run(os, t, commands, vars) == if first.ok then Run(os, first.trace, commands[1..], vars) else first
  {
  }

  /** The commands as `parse_command` turns them into shell commands with
      the variables `vars`, in order. */
  function Substituted(commands: seq<string>, vars: map<string, string>): (r: seq<string>)
    ensures |r| == |commands|
    decreases |commands|
  {
    if commands == [] then [] else [Substitute(commands[0], vars)] + Substituted(commands[1..], vars)
  }

  /** Running one list after another is running the two lists joined, and
      nothing of the second list runs once the first has failed. */
  lemma {:induction false} RunAppend(os: Os, t: Trace, a: seq<string>, b: seq<string>, vars: map<string, string>)
    ensures Run(os, t, a + b, vars) ==
              var o := Run(os, t, a, vars);
              if o.ok then Run(os, o.trace, b, vars) else o
    decreases |a|
  {
    if a == [] {
      assert a + b == b;
    } else {
      assert (a + b)[0] == a[0] && (a + b)[1..] == a[1..] + b;
      var first := RunCommand(os, t, a[0], vars);
      if first.ok {
        assert Run(os, t, a + b, vars) == Run(os, first.trace, a[1..] + b, vars);
        assert Run(os, t, a, vars) == Run(os, first.trace, a[1..], vars);
        RunAppend(os, first.trace, a[1..], b, vars);
      } else {
        assert Run(os, t, a + b, vars) == first;
      }
    }
  }

  /** What has been printed or executed is never taken back: a run only
      adds lines to the output and commands to the record. */
  lemma {:induction false} RunExtends(os: Os, t: Trace, commands: seq<string>, vars: map<string, string>)
    ensures t.out <= Run(os, t, commands, vars).trace.out
    ensures t.executed <= Run(os, t, commands, vars).trace.executed
    decreases |commands|
  {
    if commands != [] {
      var first := RunCommand(os, t, commands[0], vars);
      assert t.out <= first.trace.out && t.executed <= first.trace.executed;
      if first.ok {
        RunStep(os, t, commands, vars);
        RunExtends(os, first.trace, commands[1..], vars);
      }
    }
  }

  /** A run that gets through its list has substituted and executed every
      command, in order. */
  lemma {:induction false} RunSucceeds(os: Os, t: Trace, commands: seq<string>, vars: map<string, string>)
    requires Run(os, t, commands, vars).ok
    ensures Run(os, t, commands, vars).trace.executed == t.executed + Substituted(commands, vars)
    decreases |commands|
  {
    if commands != [] {
      var first := RunCommand(os, t, commands[0], vars);
      assert first.ok;
      RunStep(os, t, commands, vars);
      RunSucceeds(os, first.trace, commands[1..], vars);
      assert first.trace.executed == t.executed + [Substitute(commands[0], vars)];
      assert Substituted(commands, vars) == [Substitute(commands[0], vars)] + Substituted(commands[1..], vars);
    }
  }

  /** Reference view of what a list of commands prints from working
      directory `cwd` when every one of them goes through: for each command,
      ">> " and the command as substituted, then its output lines. */
  function Transcript(os: Os, cwd: string, commands: seq<string>, vars: map<string, string>): seq<string>
    decreases |commands|
  {
    if commands == [] then []
    else
      var cmd := Substitute(commands[0], vars);
      var x := Execute(os, cwd, cmd);
      [">> " + cmd] + Printed(x.result) + Transcript(os, x.cwd, commands[1..], vars)
  }

  /** Where the working directory ends up after `commands` from `cwd`, each
      `cd` taking effect for the commands after it. */
  function CwdAfter(os: Os, cwd: string, commands: seq<string>, vars: map<string, string>): string
    decreases |commands|
  {
    if commands == [] then cwd
    else CwdAfter(os, Execute(os, cwd, Substitute(commands[0], vars)).cwd, commands[1..], vars)
  }

  /** A run that gets through its list has printed, after what was there,
      each command's ">> " line followed by its output, command after
      command, and leaves the working directory where the `cd` commands
      among them put it. */
  lemma {:induction false} RunPrints(os: Os, t: Trace, commands: seq<string>, vars: map<string, string>)
    requires Run(os, t, commands, vars).ok
    ensures Run(os, t, commands, vars).trace.out == t.out + Transcript(os, t.cwd, commands, vars)
    ensures Run(os, t, commands, vars).trace.cwd == CwdAfter(os, t.cwd, commands, vars)
    decreases |commands|
  {
    if commands != [] {
      var first := RunCommand(os, t, commands[0], vars);
      RunStep(os, t, commands, vars);
      assert first.ok;
      var cmd := Substitute(commands[0], vars);
      var x := Execute(os, t.cwd, cmd);
      assert first.trace.out == t.out + ([">> " + cmd] + Printed(x.result)) && first.trace.cwd == x.cwd;
      RunPrints(os, first.trace, commands[1..], vars);
      Assoc(t.out, [">> " + cmd] + Printed(x.result), Transcript(os, x.cwd, commands[1..], vars));
    }
  }

  /** Command `i` of a run that gets through its list was not refused. */
  lemma {:induction false} RunParsesOne(os: Os, t: Trace, commands: seq<string>, vars: map<string, string>, i: nat)
    requires Run(os, t, commands, vars).ok && i < |commands|
    ensures ParseCommand(commands[i], vars).Success?
    decreases i
  {
    RunStep(os, t, commands, vars);
    var first := RunCommand(os, t, commands[0], vars);
    assert first.ok;
    if i > 0 {
      RunParsesOne(os, first.trace, commands[1..], vars, i - 1);
      assert commands[1..][i - 1] == commands[i];
    }
  }

  /** A run that gets through its list had none of its commands refused by
      `parse_command`. */
  lemma RunParsesAll(os: Os, t: Trace, commands: seq<string>, vars: map<string, string>)
    requires Run(os, t, commands, vars).ok
    ensures forall i :: 0 <= i < |commands| ==> ParseCommand(commands[i], vars).Success?
  {
    forall i | 0 <= i < |commands|
      ensures ParseCommand(commands[i], vars).Success?
    {
      RunParsesOne(os, t, commands, vars, i);
    }
  }

  /** A run that fails stops at some command `k`: the commands before it
      went through, `k` failed, and the outcome is that of `k`, so no later
      command is substituted, printed or executed. */
  lemma {:induction false} RunFailsAt(os: Os, t: Trace, commands: seq<string>, vars: map<string, string>)
    requires !Run(os, t, commands, vars).ok
    ensures exists k :: 0 <= k < |commands| && Run(os, t, commands[..k], vars).ok
              && Run(os, t, commands, vars) == RunCommand(os, Run(os, t, commands[..k], vars).trace, commands[k], vars)
    decreases |commands|
  {
    var first := RunCommand(os, t, commands[0], vars);
    if !first.ok {
      assert commands[..0] == [];
      assert Run(os, t, commands[..0], vars) == RunOutcome(t, true);
    } else {
      var rest := commands[1..];
      RunFailsAt(os, first.trace, rest, vars);
      var k :| 0 <= k < |rest| && Run(os, first.trace, rest[..k], vars).ok
               && Run(os, first.trace, rest, vars) == RunCommand(os, Run(os, first.trace, rest[..k], vars).trace, rest[k], vars);
      RunStep(os, t, commands, vars);
      var prefix := commands[..k + 1];
      SliceShift(commands, k);
      RunStep(os, t, prefix, vars);
      assert commands[k + 1] == rest[k];
    }
  }

  /** The commands read from a run file are never `empty`, so the defensive
      check in `parse_command` refuses only "%0%", when no variable "0" is set. */
  lemma FileCommandsParse(lines: seq<string>, name: string, vars: map<string, string>)
    ensures forall c :: c in CommandsIn(lines, name) ==>
              (ParseCommand(c, vars).Failure? <==> c == "%0%" && !IsSet(vars, "0"))
  {
    forall c | c in CommandsIn(lines, name)
      ensures ParseCommand(c, vars).Failure? <==> c == "%0%" && !IsSet(vars, "0")
    {
      ParseCommandFails(c, vars);
    }
  }

  /** In "all" mode, `run_commands` once per variable set, in order; the
      working directory a set ends in is where the next set starts. */
  function RunSets(os: Os, t: Trace, sets: seq<Section>, commands: seq<string>): (r: RunOutcome)
    ensures |t.out| <= |r.trace.out| && |t.executed| <= |r.trace.executed|
    ensures !r.ok ==> sets != [] && commands != [] && |t.out| < |r.trace.out| && IsErrorLine(LastLine(r.trace.out))
    decreases |sets|
  {
    if sets == [] then RunOutcome(t, true)
    else
      var first := Run(os, t, commands, sets[0]);
      if !first.ok then first else RunSets(os, first.trace, sets[1..], commands)
  }

  /** The run with the first set decides whether the remaining sets run,
      from the trace it leaves. */
  lemma RunSetsStep(os: Os, t: Trace, sets: seq<Section>, commands: seq<string>)
    requires sets != []
    ensures var first := Run(os, t, commands, sets[0]);
            RunSets(os, t, sets, commands) == if first.ok then RunSets(os, first.trace, sets[1..], commands) else first
  {
  }

  /** Every command of the list substituted with each set in turn. */
  function SubstitutedAll(sets: seq<Section>, commands: seq<string>): seq<string>
    decreases |sets|
  {
    if sets == [] then [] else Substituted(commands, sets[0]) + SubstitutedAll(sets[1..], commands)
  }

  /** An "all" run that gets through has executed the whole list once per
      set, set after set. */
  lemma {:induction false} RunSetsSucceeds(os: Os, t: Trace, sets: seq<Section>, commands: seq<string>)
    requires RunSets(os, t, sets, commands).ok
    ensures RunSets(os, t, sets, commands).trace.executed == t.executed + SubstitutedAll(sets, commands)
    decreases |sets|
  {
    if sets != [] {
      var first := Run(os, t, commands, sets[0]);
      RunSetsStep(os, t, sets, commands);
      assert first.ok && RunSets(os, t, sets, commands) == RunSets(os, first.trace, sets[1..], commands);
      RunSucceeds(os, t, commands, sets[0]);
      RunSetsSucceeds(os, first.trace, sets[1..], commands);
      Assoc(t.executed, Substituted(commands, sets[0]), SubstitutedAll(sets[1..], commands));
    }
  }

  /** An "all" run that fails stops inside some set `k`: the sets before it
      went through, the run with set `k` failed, and no later set runs. */
  lemma {:induction false} RunSetsFailsAt(os: Os, t: Trace, sets: seq<Section>, commands: seq<string>)
    requires !RunSets(os, t, sets, commands).ok
    ensures exists k :: 0 <= k < |sets| && RunSets(os, t, sets[..k], commands).ok
              && RunSets(os, t, sets, commands) == Run(os, RunSets(os, t, sets[..k], commands).trace, commands, sets[k])
    decreases |sets|
  {
    var first := Run(os, t, commands, sets[0]);
    if !first.ok {
      assert sets[..0] == [];
      assert RunSets(os, t, sets[..0], commands) == RunOutcome(t, true);
    } else {
      var rest := sets[1..];
      RunSetsFailsAt(os, first.trace, rest, commands);
      var k :| 0 <= k < |rest| && RunSets(os, first.trace, rest[..k], commands).ok
               && RunSets(os, first.trace, rest, commands) == Run(os, RunSets(os, first.trace, rest[..k], commands).trace, commands, rest[k]);
      RunSetsStep(os, t, sets, commands);
      var prefix := sets[..k + 1];
      SliceShift(sets, k);
      RunSetsStep(os, t, prefix, commands);
      assert sets[k + 1] == rest[k];
    }
  }

  /** The first command-line argument: an optional branch hint before the
      first '.', then the run file name up to the next '.', to which ".run"
      is added; without a '.', no hint and the whole argument. */
  function SplitTarget(arg: string): (r: (string, string))
    ensures |r.1| >= 4 && r.1[|r.1| - 4..] == ".run"
    ensures '.' !in r.0 && '.' !in r.1[..|r.1| - 4]
    ensures '.' !in arg ==> r == ("", arg + ".run")
  {
    if '.' !in arg then ("", arg + ".run")
    else
      var parts := Explode('.', arg);
      (parts[0], parts[1] + ".run")
  }

  /** `hint.name` and `hint.name.more` select branch hint `hint` and run
      file `name.run`; whatever follows a second '.' is ignored. */
  lemma SplitTargetParts(hint: string, name: string, more: string)
    requires '.' !in hint && '.' !in name
    requires more == [] || more[0] == '.'
    ensures SplitTarget(hint + "." + name + more) == (hint, name + ".run")
  {
    var arg := hint + "." + name + more;
    assert arg == hint + "." + (name + more);
    assert arg[|hint|] == '.';
    ExplodeFirst('.', hint, name + more);
    if more == [] {
      assert name + more == name;
      ExplodeWhole('.', name);
    } else {
      assert name + more == name + "." + more[1..];
      ExplodeFirst('.', name, more[1..]);
    }
  }

  /** What `main` reads from outside: the directory of the script, what
      `parse_ini_file` gives for build.ini there (None when it fails), the
      lines of each run file by path (None when it cannot be opened), the
      operating system, and the working directory it starts in. */
  datatype Env = Env(
    dir: string,
    ini: Option<Ini>,
    runFiles: string -> Option<seq<string>>,
    os: Os,
    cwd: string)
  {
    /** PHP arrays are well formed. */
    ghost predicate Valid() {
      ini.Some? ==> ini.value.Valid()
    }
  }

  /** The two lines printed for a wrong number of arguments. */
  const UsageLines: seq<string> :=
    ["Usage:", "php build.php [[optional branch key].][.run file name] [section in .run file]"]

  /** `$commands[$command_set]` when it is not `empty`, or the message `main` throws. */
  function CommandSet(sections: OrderedMap<seq<string>>, name: string): Result<seq<string>, string> {
    if name in sections.entries && sections.entries[name] != [] then Success(sections.entries[name])
    else Failure("Could not access command set: [" + name + "]")
  }

  /** What the `try` block of `main` settles on: the variable sets and the
      command list. */
  datatype Config = Config(variables: Variables, commands: seq<string>)

  /** The `try` block of `main`: the variable file first, then the run
      file, then the command set; the first exception wins. */
  function Configure(env: Env, arg: string, commandSet: string): (r: Result<Config, string>)
    requires env.Valid()
    ensures ParseVariableFile(env.ini, env.dir + "/build.ini", SplitTarget(arg).0).Error? ==>
              r == Failure(ParseVariableFile(env.ini, env.dir + "/build.ini", SplitTarget(arg).0).message)
    ensures r.Success? ==>
              && r.value.variables == ParseVariableFile(env.ini, env.dir + "/build.ini", SplitTarget(arg).0)
              && !r.value.variables.Error?
              && (r.value.variables.All? ==> r.value.variables.sets.Valid())
              && env.runFiles(env.dir + "/" + SplitTarget(arg).1).Some?
              && r.value.commands != []
              && r.value.commands == CommandsIn(env.runFiles(env.dir + "/" + SplitTarget(arg).1).value, commandSet)
    ensures !ParseVariableFile(env.ini, env.dir + "/build.ini", SplitTarget(arg).0).Error? ==>
              var path := env.dir + "/" + SplitTarget(arg).1;
              && (env.runFiles(path).None? ==> r == Failure("Could not open file: " + path))
              && (env.runFiles(path).Some? && CommandsIn(env.runFiles(path).value, commandSet) == [] ==>
                    r == Failure("Could not access command set: [" + commandSet + "]"))
              && (env.runFiles(path).Some? && CommandsIn(env.runFiles(path).value, commandSet) != [] ==> r.Success?)
  {
    var target := SplitTarget(arg);
    var variables := ParseVariableFile(env.ini, env.dir + "/build.ini", target.0);
    if variables.Error? then Failure(variables.message)
    else
      var path := env.dir + "/" + target.1;
      match RunFileResult(env.runFiles(path), path)
      case Failure(message) => Failure(message)
      case Success(sections) =>
        ParsedFile(env.runFiles(path).value);
        match CommandSet(sections, commandSet)
        case Failure(message) => Failure(message)
        case Success(commands) =>
          if variables.All? then
            AllSetsWellFormed(env.ini.value, env.dir + "/build.ini", target.0);
            Success(Config(variables, commands))
          else Success(Config(variables, commands))
  }

  /** A plain name selects its run file and no hint. */
  lemma SplitTargetWithoutHint()
    ensures SplitTarget("deploy") == ("", "deploy.run")
  {
    assert '.' !in "deploy" && "deploy" + ".run" == "deploy.run";
  }

  /** `dev.deploy` selects hint "dev" and deploy.run. */
  lemma SplitTargetWithHint(arg: string)
    requires arg == "dev.deploy"
    ensures SplitTarget(arg) == ("dev", "deploy.run")
  {
    assert arg == "dev" + "." + "deploy" + "";
    SplitTargetParts("dev", "deploy", "");
    assert "deploy" + ".run" == "deploy.run";
  }

  /** Whatever follows a second '.' is dropped: `dev.deploy.old` selects
      the same as `dev.deploy`. */
  lemma SplitTargetDropsRest(hint: string, name: string, more: string)
    requires '.' !in hint && '.' !in name
    ensures SplitTarget(hint + "." + name + ("." + more)) == SplitTarget(hint + "." + name)
  {
    SplitTargetParts(hint, name, "." + more);
    SplitTargetParts(hint, name, []);
    assert hint + "." + name + [] == hint + "." + name;
  }

  /** A leading '.' gives the empty hint, which `main` treats as no hint:
      `.name` selects the same as `name`. */
  lemma SplitTargetEmptyHint(name: string)
    requires '.' !in name
    ensures SplitTarget("." + name) == SplitTarget(name)
  {
    SplitTargetParts("", name, []);
    assert "" + "." + name + [] == "." + name;
  }

  /** How the build ends: the trace and the exit status. */
  datatype Exit = Exit(trace: Trace, status: int)

  /** `main($argv)`: the whole build. */
  function Build(env: Env, argv: seq<string>): (r: Exit)
    requires env.Valid()
    ensures r.status == 0 || r.status == 1
    ensures r.trace.out == [] ==> r.status == 0
    ensures |argv| != 3 ==> r == Exit(Trace(env.cwd, UsageLines, []), 1)
    ensures |argv| == 3 && Configure(env, argv[1], Trim(argv[2])).Failure? ==>
              r == Exit(Trace(env.cwd, [Configure(env, argv[1], Trim(argv[2])).error], []), 1)
    ensures r.status == 1 && r.trace.executed != [] ==> r.trace.out != [] && IsErrorLine(LastLine(r.trace.out))
  {
    var start := Trace(env.cwd, [], []);
    if |argv| != 3 then Exit(start.(out := UsageLines), 1)
    else
      match Configure(env, argv[1], Trim(argv[2]))
      case Failure(message) => Exit(start.(out := [message]), 1)
      case Success(config) =>
        var o :=
          match config.variables
          case All(sets) => RunSets(env.os, start, sets.Values(), config.commands)
          case Single(vars) => Run(env.os, start, config.commands, vars)
          case Error(_) => RunOutcome(start, true);
        Exit(o.trace, if o.ok then 0 else 1)
  }

  /** The variable file is read first: when build.ini cannot be parsed the
      build says so and exits, whether or not the run file exists. */
  lemma BuildWithoutIni(env: Env, argv: seq<string>)
    requires env.Valid() && env.ini.None? && |argv| == 3
    ensures Build(env, argv) == Exit(Trace(env.cwd, ["Could not open file: " + (env.dir + "/build.ini")], []), 1)
  {
  }

  /** A build with one variable set exits with 0 exactly when every command
      of the list ran, and then it has executed all of them, in file order,
      with that set's values substituted. */
  lemma BuildSingle(env: Env, argv: seq<string>)
    requires env.Valid() && |argv| == 3
    requires Configure(env, argv[1], Trim(argv[2])).Success?
    requires Configure(env, argv[1], Trim(argv[2])).value.variables.Single?
    ensures var c := Configure(env, argv[1], Trim(argv[2])).value;
            Build(env, argv).status == 0 ==>
              Build(env, argv).trace.executed == Substituted(c.commands, c.variables.vars)
  {
    var c := Configure(env, argv[1], Trim(argv[2])).value;
    var o := Run(env.os, Trace(env.cwd, [], []), c.commands, c.variables.vars);
    if o.ok {
      RunSucceeds(env.os, Trace(env.cwd, [], []), c.commands, c.variables.vars);
    }
  }

  /** A build in "all" mode that exits with 0 has executed the list once
      for each set other than `master`, in the order of build.ini. */
  lemma BuildAll(env: Env, argv: seq<string>)
    requires env.Valid() && |argv| == 3
    requires Configure(env, argv[1], Trim(argv[2])).Success?
    requires Configure(env, argv[1], Trim(argv[2])).value.variables.All?
    ensures var c := Configure(env, argv[1], Trim(argv[2])).value;
            Build(env, argv).status == 0 ==>
              Build(env, argv).trace.executed == SubstitutedAll(c.variables.sets.Values(), c.commands)
  {
    var c := Configure(env, argv[1], Trim(argv[2])).value;
    var o := RunSets(env.os, Trace(env.cwd, [], []), c.variables.sets.Values(), c.commands);
    if o.ok {
      RunSetsSucceeds(env.os, Trace(env.cwd, [], []), c.variables.sets.Values(), c.commands);
    }
  }

  /** `foreach ($output as $line) print $line`: the lines printed after `out`, in order. */
  method PrintLines(out: seq<string>, lines: seq<string>) returns (r: seq<string>)
    ensures r == out + lines
  {
    r := out;
    var j := 0;
    while j < |lines|
      invariant 0 <= j <= |lines|
      invariant r == out + lines[..j]
    {
      r := r + [lines[j]];
      j := j + 1;
    }
    assert lines[..|lines|] == lines;
  }

  /** `run_commands`: prints into `out0` and after, executes through `e`,
      and reports whether the build may go on (false where the source
      exits with status 1). */
  method RunCommands(e: Executor, commands: seq<string>, vars: map<string, string>, out0: seq<string>)
    returns (out: seq<string>, ok: bool)
    modifies e
    ensures var o := Run(e.os, Trace(old(e.cwd), out0, old(e.executed)), commands, vars);
            out == o.trace.out && ok == o.ok && e.cwd == o.trace.cwd && e.executed == o.trace.executed
  {
    ghost var start := Trace(e.cwd, out0, e.executed);
    out := out0;
    ok := true;
    var i := 0;
    while i < |commands| && ok
      invariant 0 <= i <= |commands|
      invariant Run(e.os, start, commands, vars) ==
                  if ok then Run(e.os, Trace(e.cwd, out, e.executed), commands[i..], vars)
                  else RunOutcome(Trace(e.cwd, out, e.executed), false)
    {
      ghost var before := Trace(e.cwd, out, e.executed);
      ghost var step := RunCommand(e.os, before, commands[i], vars);
      SliceShift(commands[i..], 0);
      assert commands[i..][0] == commands[i] && commands[i..][1..] == commands[i + 1..];
      RunStep(e.os, before, commands[i..], vars);
      var parsed := ParseCommand(commands[i], vars);
      if parsed.Failure? {
        out := out + [parsed.error];
        ok := false;
      } else {
        out := out + [">> " + parsed.value];
        var result := e.ExecuteCommand(parsed.value);
        ghost var x := Execute(e.os, before.cwd, parsed.value);
        assert x == Outcome(e.cwd, result);
        if result.Failure? {
          out := out + [result.error];
          ok := false;
        } else {
          out := PrintLines(out, result.value);
        }
      }
      assert step == RunOutcome(Trace(e.cwd, out, e.executed), ok);
      i := i + 1;
    }
    if ok {
      assert commands[i..] == [];
    }
  }

  /** The `foreach` over the sets in "all" mode of `main`: `run_commands`
      with each set in turn, on the same executor. */
  method RunAll(e: Executor, sets: seq<Section>, commands: seq<string>) returns (out: seq<string>, ok: bool)
    modifies e
    ensures var o := RunSets(e.os, Trace(old(e.cwd), [], old(e.executed)), sets, commands);
            out == o.trace.out && ok == o.ok && e.cwd == o.trace.cwd && e.executed == o.trace.executed
  {
    ghost var start := Trace(e.cwd, [], e.executed);
    out := [];
    ok := true;
    var i := 0;
    while i < |sets| && ok
      invariant 0 <= i <= |sets|
      invariant RunSets(e.os, start, sets, commands) ==
                  if ok then RunSets(e.os, Trace(e.cwd, out, e.executed), sets[i..], commands)
                  else RunOutcome(Trace(e.cwd, out, e.executed), false)
    {
      assert sets[i..][0] == sets[i] && sets[i..][1..] == sets[i + 1..];
      out, ok := RunCommands(e, commands, sets[i], out);
      i := i + 1;
    }
    if ok {
      assert sets[i..] == [];
    }
  }

  /** `main`: the build as the script runs it, with the executor created
      for it. */
  method RunBuild(env: Env, argv: seq<string>) returns (out: seq<string>, status: int)
    requires env.Valid()
    ensures out == Build(env, argv).trace.out && status == Build(env, argv).status
  {
    if |argv| != 3 {
      out := [];
      out := out + ["Usage:"];
      out := out + ["php build.php [[optional branch key].][.run file name] [section in .run file]"];
      return out, 1;
    }
    var branch := "";
    var runFileName;
    if '.' !in argv[1] {
      runFileName := argv[1] + ".run";
    } else {
      var parts := Explode('.', argv[1]);
      branch, runFileName := parts[0], parts[1];
      runFileName := runFileName + ".run";
    }
    assert (branch, runFileName) == SplitTarget(argv[1]);
    var commandSet := Trim(argv[2]);
    ghost var config := Configure(env, argv[1], commandSet);

    var variables := ParseVariableFile(env.ini, env.dir + "/build.ini", branch);
    if variables.Error? {
      return [variables.message], 1;
    }
    var path := env.dir + "/" + runFileName;
    var parsed := ParseRunFile(env.runFiles(path), path);
    if parsed.Failure? {
      return [parsed.error], 1;
    }
    var sections := parsed.value;
    if !(commandSet in sections.entries && sections.entries[commandSet] != []) {
      return ["Could not access command set: [" + commandSet + "]"], 1;
    }
    var commands := sections.entries[commandSet];
    assert config == Success(Config(variables, commands));

    var e := new Executor(env.os, env.cwd);
    var ok;
    if variables.All? {
      out, ok := RunAll(e, variables.sets.Values(), commands);
    } else {
      out, ok := RunCommands(e, commands, variables.vars, []);
    }
    status := if ok then 0 else 1;
  }
}
