/** Command execution in build.php (`execute_command`): a command of the
    form `cd <path>` changes the working directory of the build itself;
    every other command goes to the shell, and a non-zero exit status turns
    into an error carrying the last line of output.

    The operating system is a parameter: `realpath` (relative to the working
    directory), `chdir` and the shell (`exec`, run in the working directory,
    giving the lines the command wrote to its standard output and the exit
    status). */
module Execution {
  import opened Php

  datatype ShellResult = ShellResult(output: seq<string>, status: int)

  datatype Os = Os(
    realpath: (string, string) -> Option<string>,
    chdir: string -> bool,
    shell: (string, string) -> ShellResult)

  /** `end($stdout)` joined into a string: the last line, or "" for no lines
      (where `end` gives false). */
  function LastLine(lines: seq<string>): string {
    if lines == [] then "" else lines[|lines| - 1]
  }

  /** The capture of `/^cd (.*)$/`, or `None` when the command does not match.
      PCRE's `.` does not match a line feed and `$` also matches just before
      a final line feed, so the command is "cd " followed by a line, with at
      most one line feed after it. */
  function CdArgument(command: string): (r: Option<string>)
    ensures r.Some? ==> '\n' !in r.value
    ensures r.Some? ==> command == "cd " + r.value || command == "cd " + r.value + "\n"
  {
    if |command| >= 3 && command[..3] == "cd " then
      var rest := command[3..];
      if '\n' !in rest then Some(rest)
      else if rest[|rest| - 1] == '\n' && '\n' !in rest[..|rest| - 1] then Some(rest[..|rest| - 1])
      else None
    else None
  }

  /** Every "cd " line is recognised, with or without one final line feed. */
  lemma CdRecognised(path: string)
    requires '\n' !in path
    ensures CdArgument("cd " + path) == Some(path)
    ensures CdArgument("cd " + path + "\n") == Some(path)
  {
    var c := "cd " + path;
    assert c[..3] == "cd " && c[3..] == path;
    var d := "cd " + path + "\n";
    assert d[..3] == "cd " && d[3..] == path + "\n";
    assert (path + "\n")[..|path|] == path;
  }

  /** The path `execute_command` hands to `realpath`: the capture, with an
      `empty` one read as "", then trimmed. It neither starts nor ends with a
      trim character, and a capture with none at either end is passed as it
      is. */
  function CdTarget(capture: string): (r: string)
    ensures r != [] ==> !IsTrimChar(r[0]) && !IsTrimChar(r[|r| - 1])
    ensures capture != "0" && capture != [] && !IsTrimChar(capture[0]) && !IsTrimChar(capture[|capture| - 1]) ==>
              r == capture
  {
    Trim(if Falsy(capture) then "" else capture)
  }

  /** The path handed to `realpath` is "" exactly when the capture is "0" or
      holds trim characters only. */
  lemma CdTargetEmpty(capture: string)
    ensures CdTarget(capture) == [] <==> capture == "0" || forall i :: 0 <= i < |capture| ==> IsTrimChar(capture[i])
  {
    TrimEmpty(capture);
  }

  /** What one command does: the working directory afterwards and the
      output lines or the error message. */
  datatype Outcome = Outcome(cwd: string, result: Result<seq<string>, string>)

  /** `execute_command` run in `cwd`. */
  function Execute(os: Os, cwd: string, command: string): (r: Outcome)
    ensures r.cwd != cwd ==> CdArgument(command).Some? && r.result == Success([])
    ensures r.result.Failure? ==> |r.result.error| >= 7 && r.result.error[..7] == "Error: "
    ensures CdArgument(command).None? ==>
              var sh := os.shell(cwd, command);
              r.cwd == cwd
              && (r.result.Success? <==> sh.status == 0)
              && (r.result.Success? ==> r.result.value == sh.output)
              && (r.result.Failure? ==> r.result.error == "Error: " + LastLine(sh.output))
    ensures CdArgument(command).Some? && r.result.Success? ==> r.result.value == []
  {
    match CdArgument(command)
    case None =>
      var sh := os.shell(cwd, command);
      if sh.status != 0 then Outcome(cwd, Failure("Error: " + LastLine(sh.output)))
      else Outcome(cwd, Success(sh.output))
    case Some(capture) =>
      var absPath := os.realpath(cwd, CdTarget(capture));
      if absPath.Some? && !Falsy(absPath.value) then
        if os.chdir(absPath.value) then Outcome(absPath.value, Success([]))
        else Outcome(cwd, Failure("Error: " + ("Could not cd to " + absPath.value)))
      else Outcome(cwd, Failure("Error: " + ("Could not cd to " + capture)))
  }

  /** A `cd` command never reaches the shell. */
  lemma CdBypassesShell(os: Os, shell: (string, string) -> ShellResult, cwd: string, command: string)
    requires CdArgument(command).Some?
    ensures Execute(os, cwd, command) == Execute(os.(shell := shell), cwd, command)
  {
  }

  /** Any other command consults neither `realpath` nor `chdir`. */
  lemma OthersUseShellOnly(os: Os, realpath: (string, string) -> Option<string>, chdir: string -> bool,
                           cwd: string, command: string)
    requires CdArgument(command).None?
    ensures Execute(os, cwd, command) == Execute(os.(realpath := realpath, chdir := chdir), cwd, command)
  {
  }

  /** A path `realpath` cannot resolve fails with the capture as written,
      before trimming. */
  lemma CdUnresolvable(os: Os, cwd: string, path: string)
    requires '\n' !in path
    requires os.realpath(cwd, CdTarget(path)).None? || Falsy(os.realpath(cwd, CdTarget(path)).value)
    ensures Execute(os, cwd, "cd " + path) == Outcome(cwd, Failure("Error: " + ("Could not cd to " + path)))
  {
    CdRecognised(path);
    CdOutcome(os, cwd, "cd " + path, path);
  }

  /** A resolved path that `chdir` accepts becomes the working directory. */
  lemma CdSucceeds(os: Os, cwd: string, path: string, abs: string)
    requires '\n' !in path
    requires os.realpath(cwd, CdTarget(path)) == Some(abs)
    requires !Falsy(abs) && os.chdir(abs)
    ensures Execute(os, cwd, "cd " + path) == Outcome(abs, Success([]))
  {
    CdRecognised(path);
    CdOutcome(os, cwd, "cd " + path, path);
  }

  /** A resolved path that `chdir` refuses fails with that resolved path,
      and the working directory stays where it was. */
  lemma CdChdirFails(os: Os, cwd: string, path: string, abs: string)
    requires '\n' !in path
    requires os.realpath(cwd, CdTarget(path)) == Some(abs)
    requires !Falsy(abs) && !os.chdir(abs)
    ensures Execute(os, cwd, "cd " + path) == Outcome(cwd, Failure("Error: " + ("Could not cd to " + abs)))
  {
    CdRecognised(path);
    CdOutcome(os, cwd, "cd " + path, path);
  }

  /** How `execute_command` ends for a command other than `cd`. */
  lemma ShellOutcome(os: Os, cwd: string, command: string)
    requires CdArgument(command).None?
    ensures var sh := os.shell(cwd, command);
            Execute(os, cwd, command) ==
              Outcome(cwd, if sh.status != 0 then Failure("Error: " + LastLine(sh.output)) else Success(sh.output))
  {
  }

  /** How `execute_command` ends for `cd capture`. */
  lemma CdOutcome(os: Os, cwd: string, command: string, capture: string)
    requires CdArgument(command) == Some(capture)
    ensures var absPath := os.realpath(cwd, CdTarget(capture));
            Execute(os, cwd, command) ==
              if absPath.Some? && !Falsy(absPath.value) then
                if os.chdir(absPath.value) then Outcome(absPath.value, Success([]))
                else Outcome(cwd, Failure("Error: " + ("Could not cd to " + absPath.value)))
              else Outcome(cwd, Failure("Error: " + ("Could not cd to " + capture)))
  {
  }

  /** The build's working directory, which `cd` commands change for every
      later command, and (as a ghost record) the commands handed to it so far. */
  class Executor {
    const os: Os
    var cwd: string
    ghost var executed: seq<string>

    constructor (os: Os, cwd: string)
      ensures this.os == os && this.cwd == cwd && executed == []
    {
      this.os := os;
      this.cwd := cwd;
      executed := [];
    }

    /** `execute_command`: the output lines, or the message of the exception. */
    method ExecuteCommand(command: string) returns (r: Result<seq<string>, string>)
      modifies this
      ensures Outcome(cwd, r) == Execute(os, old(cwd), command)
      ensures executed == old(executed) + [command]
    {
      executed := executed + [command];
      var stdout: seq<string> := [];
      var returnValue := 0;
      var cdCheck := CdArgument(command);
      if cdCheck.None? {
        var sh := os.shell(cwd, command);
        stdout := stdout + sh.output;
        returnValue := sh.status;
        ShellOutcome(os, cwd, command);
        assert stdout == sh.output;
      } else {
        CdOutcome(os, cwd, command, cdCheck.value);
        // `$raw_path`: the capture, "" when `empty`, then trimmed.
        var rawPath := CdTarget(cdCheck.value);
        var absPath := os.realpath(cwd, rawPath);
        if absPath.Some? && !Falsy(absPath.value) {
          if !os.chdir(absPath.value) {
            returnValue := 1;
            stdout := stdout + ["Could not cd to " + absPath.value];
            assert LastLine(stdout) == "Could not cd to " + absPath.value;
          } else {
            cwd := absPath.value;
          }
        } else {
          returnValue := 1;
          stdout := stdout + ["Could not cd to " + cdCheck.value];
          assert LastLine(stdout) == "Could not cd to " + cdCheck.value;
        }
      }
      if returnValue != 0 {
        r := Failure("Error: " + LastLine(stdout));
      } else {
        r := Success(stdout);
      }
    }
  }
}
