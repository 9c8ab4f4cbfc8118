/** The read-eval-print loop of `main`, over a given sequence of input
    lines: meta-commands (lines starting with `.`) are handled here, every
    other line goes to the statement front end. */
module Repl {
  import opened Statement

  const ExitCommand := ".exit"

  /** What the loop does with one line. */
  datatype Action = Exit | UnknownCommand(message: string) | Parse(statement: string)

  predicate IsMetaCommand(line: string) {
    |line| > 0 && line[0] == '.'
  }

  /** The meta-command branch: `.exit` ends the loop, any other dot-line is
      reported as an unknown command, the rest is a statement. */
  function Dispatch(line: string): (a: Action)
    ensures a.Parse? <==> !IsMetaCommand(line)
    ensures a.Parse? ==> a.statement == line
    ensures a.Exit? <==> line == ExitCommand
    ensures a.UnknownCommand? ==> a.message == "Unknown command " + line
  {
    if IsMetaCommand(line) then
      if line == ExitCommand then Exit else UnknownCommand("Unknown command " + line)
    else Parse(line)
  }

  /** Everything the loop prints for the lines it reads, up to and
      excluding the first `.exit`. */
  function SessionOutput(lines: seq<string>): seq<string> {
    if lines == [] then []
    else match Dispatch(lines[0])
      case Exit => []
      case UnknownCommand(m) => [m] + SessionOutput(lines[1..])
      case Parse(s) => Interpret(s).printed + SessionOutput(lines[1..])
  }

  /** Index of the first `.exit` line, or the number of lines. */
  function ExitIndex(lines: seq<string>): (k: nat)
    ensures k <= |lines|
    ensures forall j :: 0 <= j < k ==> lines[j] != ExitCommand
    ensures k < |lines| ==> lines[k] == ExitCommand
  {
    if lines == [] || lines[0] == ExitCommand then 0 else 1 + ExitIndex(lines[1..])
  }

  /** Runs the loop over `lines`: `read` is how many lines it took,
      `.exit` included; `exited` says whether it stopped at `.exit`. */
  method RunSession(lines: seq<string>) returns (printed: seq<string>, read: nat, exited: bool)
    ensures printed == SessionOutput(lines)
    ensures exited <==> ExitCommand in lines
    ensures read == if exited then ExitIndex(lines) + 1 else |lines|
  {
    printed, read, exited := [], 0, false;
    while read < |lines|
      invariant read <= ExitIndex(lines)
      invariant printed + SessionOutput(lines[read..]) == SessionOutput(lines)
      decreases |lines| - read
    {
      var line := lines[read];
      read := read + 1;
      assert lines[read - 1..][1..] == lines[read..];
      match Dispatch(line)
      case Exit =>
        exited := true;
        return;
      case UnknownCommand(m) =>
        assert SessionOutput(lines[read - 1..]) == [m] + SessionOutput(lines[read..]);
        AppendAssociates(printed, [m], SessionOutput(lines[read..]));
        printed := printed + [m];
      case Parse(s) =>
        var out, _ := ParseStatement(s);
        assert SessionOutput(lines[read - 1..]) == out + SessionOutput(lines[read..]);
        AppendAssociates(printed, out, SessionOutput(lines[read..]));
        printed := printed + out;
    }
  }

  lemma AppendAssociates(a: seq<string>, b: seq<string>, c: seq<string>)
    ensures (a + b) + c == a + (b + c)
  {
  }

  /** Nothing after the first `.exit` is read or printed. */
  lemma {:induction false} ExitEndsSession(before: seq<string>, after: seq<string>)
    requires ExitCommand !in before
    ensures SessionOutput(before + [ExitCommand] + after) == SessionOutput(before)
  {
    if before == [] {
      assert before + [ExitCommand] + after == [ExitCommand] + after;
    } else {
      assert (before + [ExitCommand] + after)[1..] == before[1..] + [ExitCommand] + after;
      ExitEndsSession(before[1..], after);
    }
  }

  /** Without `.exit`, the output is that of each line in turn: lines do
      not influence one another. */
  lemma {:induction false} SessionConcatenates(first: seq<string>, second: seq<string>)
    requires ExitCommand !in first
    ensures SessionOutput(first + second) == SessionOutput(first) + SessionOutput(second)
  {
    if first == [] {
      assert first + second == second;
    } else {
      assert (first + second)[0] == first[0];
      assert (first + second)[1..] == first[1..] + second;
      SessionConcatenates(first[1..], second);
      match Dispatch(first[0])
      case UnknownCommand(m) =>
        AppendAssociates([m], SessionOutput(first[1..]), SessionOutput(second));
      case Parse(s) =>
        AppendAssociates(Interpret(s).printed, SessionOutput(first[1..]), SessionOutput(second));
    }
  }

  /** An unknown meta-command prints one line and the loop goes on. */
  lemma UnknownCommandContinues(line: string, rest: seq<string>)
    requires IsMetaCommand(line) && line != ExitCommand
    ensures SessionOutput([line] + rest) == ["Unknown command " + line] + SessionOutput(rest)
  {
  }
}
