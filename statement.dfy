/** `parse_statement`: the REPL's statement front end. It tokenizes a line,
    dispatches on the first keyword (case-sensitively) and prints one of a
    fixed set of messages; for SELECT it first collects the column list. */
module Statement {
  import opened Tokenizer

  const SelectSyntax := "Syntax: SELECT column1, column2, ... FROM table_name; or SELECT * FROM table_name;"
  const InsertSyntax := "Syntax: INSERT INTO table_name VALUES (value1, value2, ...); or INSERT INTO table_name (column1, column2, ...) VALUES (value1, value2, ...);"
  const WildcardAlone := "The wildcard operator must be used on its own"
  const SelectUnsupported := "SELECT functionality is not currently supported"
  const UpdateUnsupported := "UPDATE functionality is not currently supported"
  const DeleteUnsupported := "DELETE functionality is not currently supported"
  const InsertUnsupported := "INSERT functionality is not currently supported"
  const CreateUnsupported := "CREATE functionality is not currently supported"
  const UnknownStatement := "Unknown statement"

  /** The fixed set of messages `parse_statement` can print. */
  predicate IsMessage(m: string) {
    m in {SelectSyntax, InsertSyntax, WildcardAlone, SelectUnsupported, UpdateUnsupported,
          DeleteUnsupported, InsertUnsupported, CreateUnsupported, UnknownStatement}
  }

  /** What one call prints, in order, and what the `columns` vector holds
      when the call ends (always empty outside SELECT). */
  datatype Outcome = Outcome(printed: seq<string>, columns: seq<string>)

  predicate IsStop(t: string) {
    t == "*" || t == "FROM"
  }

  /** Where column collection stops in the tokens after `SELECT`: the index
      of the first `*` or `FROM`, or the number of tokens if there is none. */
  function StopIndex(body: seq<string>): (k: nat)
    ensures k <= |body|
    ensures forall j :: 0 <= j < k ==> !IsStop(body[j])
    ensures k < |body| ==> IsStop(body[k])
  {
    if body == [] || IsStop(body[0]) then 0 else 1 + StopIndex(body[1..])
  }

  /** The closing messages of a SELECT that got past its column list: the
      syntax reminder when no table name follows, then "not supported". */
  function SelectEnding(rest: seq<string>): seq<string> {
    (if rest == [] then [SelectSyntax] else []) + [SelectUnsupported]
  }

  /** A SELECT, given the tokens after the keyword. */
  function SelectOutcome(body: seq<string>): Outcome {
    var k := StopIndex(body);
    if k < |body| && body[k] == "*" then
      if k > 0 then Outcome([WildcardAlone], body[..k])
      else if |body| < 2 || body[1] != "FROM" then Outcome([SelectSyntax], [])
      else Outcome(SelectEnding(body[2..]), ["*"])
    else if k < |body| then
      // `FROM` at index k
      if k == 0 then Outcome([SelectSyntax], [])
      else Outcome(SelectEnding(body[k + 1..]), body[..k])
    else
      // the line ended inside the column list
      Outcome(SelectEnding([]), body)
  }

  /** What `parse_statement` does with a line, by cases on its tokens. */
  function Interpret(line: string): Outcome {
    var ts := Tokens(line);
    if ts == [] then Outcome([], [])
    else if ts[0] == "SELECT" then SelectOutcome(ts[1..])
    else if ts[0] == "UPDATE" then Outcome([UpdateUnsupported], [])
    else if ts[0] == "DELETE" then Outcome([DeleteUnsupported], [])
    else if ts[0] == "INSERT" then
      if |ts| < 2 || ts[1] != "INTO" then Outcome([InsertSyntax], [])
      else Outcome([InsertUnsupported], [])
    else if ts[0] == "CREATE" then Outcome([CreateUnsupported], [])
    else Outcome([UnknownStatement], [])
  }

  /** The statement front end: one pass of an iterator over the tokens,
      with early returns, printing as it goes. */
  method ParseStatement(statement: string) returns (printed: seq<string>, columns: seq<string>)
    ensures Outcome(printed, columns) == Interpret(statement)
  {
    var args := new TokenIterator(statement);
    printed, columns := [], [];
    var first := args.Next();
    if first.None? {
      return;
    }
    var keyword := first.value;
    if keyword == "SELECT" {
      printed, columns := ParseSelect(args);
    } else if keyword == "UPDATE" {
      printed := printed + [UpdateUnsupported];
    } else if keyword == "DELETE" {
      printed := printed + [DeleteUnsupported];
    } else if keyword == "INSERT" {
      var into := args.Next();
      if into != Some("INTO") {
        printed := printed + [InsertSyntax];
        return;
      }
      printed := printed + [InsertUnsupported];
    } else if keyword == "CREATE" {
      printed := printed + [CreateUnsupported];
    } else {
      printed := printed + [UnknownStatement];
    }
  }

  /** The SELECT arm, entered with the iterator just past `SELECT`: the
      `while let` loop collecting columns, its early returns, and the
      table-name check after it. */
  method ParseSelect(args: TokenIterator) returns (printed: seq<string>, columns: seq<string>)
    requires args.Valid() && args.pos == 1
    modifies args
    ensures args.Valid()
    ensures Outcome(printed, columns) == SelectOutcome(args.tokens[1..])
  {
    ghost var ts := args.tokens;
    ghost var body := ts[1..];
    printed, columns := [], [];
    while true
      invariant args.Valid()
      invariant 1 <= args.pos
      invariant args.pos - 1 <= StopIndex(body)
      invariant columns == body[..args.pos - 1]
      invariant printed == []
      decreases |ts| - args.pos
    {
      var next := args.Next();
      if next.None? {
        assert SelectOutcome(body) == Outcome(SelectEnding(ts[args.pos..]), columns);
        break;
      }
      var column := next.value;
      if column == "*" {
        if columns != [] {
          printed := printed + [WildcardAlone];
          return;
        }
        var from := args.Next();
        if from != Some("FROM") {
          printed := printed + [SelectSyntax];
          return;
        }
        columns := columns + ["*"];
        assert SelectOutcome(body) == Outcome(SelectEnding(ts[args.pos..]), columns);
        break;
      } else if column == "FROM" {
        if columns == [] {
          printed := printed + [SelectSyntax];
          return;
        }
        assert SelectOutcome(body) == Outcome(SelectEnding(ts[args.pos..]), columns);
        break;
      } else {
        columns := columns + [column];
      }
    }
    ghost var rest := ts[args.pos..];
    var table := args.Next();
    if table.None? {
      printed := printed + [SelectSyntax];
    }
    printed := printed + [SelectUnsupported];
    assert printed == SelectEnding(rest);
  }

  // Properties of a statement line, stated over the shape of its tokens.

  /** An empty or separator-only line prints nothing; any other line prints
      one or two messages. */
  lemma BlankLinePrintsNothing(line: string)
    ensures Interpret(line).printed == [] <==> AllWhitespace(line)
    ensures AllWhitespace(line) ==> Interpret(line).columns == []
    ensures 1 <= |Interpret(line).printed| <= 2 || AllWhitespace(line)
  {
    TokensEmptyIff(line);
  }

  /** Outside SELECT exactly one message is printed and no column is
      collected; a first token that is not one of the five upper-case
      keywords is an unknown statement. */
  lemma NonSelectPrintsOneMessage(line: string)
    requires Tokens(line) != [] && Tokens(line)[0] != "SELECT"
    ensures Interpret(line).columns == [] && |Interpret(line).printed| == 1
    ensures var m := Interpret(line).printed[0];
      match Tokens(line)[0]
      case "UPDATE" => m == UpdateUnsupported
      case "DELETE" => m == DeleteUnsupported
      case "CREATE" => m == CreateUnsupported
      case "INSERT" => m == InsertSyntax || m == InsertUnsupported
      case _ => m == UnknownStatement
  {
  }

  /** INSERT must be followed immediately by INTO. */
  lemma InsertRequiresInto(line: string, rest: seq<string>)
    requires Tokens(line) == ["INSERT"] + rest
    ensures Interpret(line).printed == [InsertUnsupported] <==> rest != [] && rest[0] == "INTO"
    ensures Interpret(line).printed == [InsertSyntax] <==> rest == [] || rest[0] != "INTO"
  {
  }

  /** The columns collected by any line: never `FROM`, and `*` only as the
      whole list. */
  lemma ColumnsWellFormed(line: string)
    ensures var c := Interpret(line).columns;
      (forall j :: 0 <= j < |c| ==> IsWord(c[j]) && c[j] != "FROM")
      && ("*" in c ==> c == ["*"])
  {
  }

  /** A `*` after at least one column is refused on its own. */
  lemma WildcardAfterColumns(line: string, cols: seq<string>, rest: seq<string>)
    requires Tokens(line) == ["SELECT"] + cols + ["*"] + rest
    requires cols != [] && forall j :: 0 <= j < |cols| ==> !IsStop(cols[j])
    ensures Interpret(line) == Outcome([WildcardAlone], cols)
  {
    var body := Tokens(line)[1..];
    assert body == cols + ["*"] + rest;
    assert body[|cols|] == "*";
    assert StopIndex(body) == |cols|;
    assert body[..|cols|] == cols;
  }

  /** A leading `*` must be followed immediately by `FROM`. */
  lemma WildcardWithoutFrom(line: string, rest: seq<string>)
    requires Tokens(line) == ["SELECT", "*"] + rest
    requires rest == [] || rest[0] != "FROM"
    ensures Interpret(line) == Outcome([SelectSyntax], [])
  {
  }

  /** `FROM` with no column before it is refused. */
  lemma FromWithoutColumns(line: string, rest: seq<string>)
    requires Tokens(line) == ["SELECT", "FROM"] + rest
    ensures Interpret(line) == Outcome([SelectSyntax], [])
  {
  }

  /** An accepted wildcard collects exactly `["*"]`; the syntax reminder is
      printed exactly when no table name follows, and anything after the
      table name is ignored. */
  lemma WildcardAccepted(line: string, rest: seq<string>)
    requires Tokens(line) == ["SELECT", "*", "FROM"] + rest
    ensures Interpret(line).columns == ["*"]
    ensures Interpret(line).printed ==
      if rest == [] then [SelectSyntax, SelectUnsupported] else [SelectUnsupported]
  {
  }

  /** A column list ended by `FROM` is collected in input order, commas
      included; the syntax reminder is printed exactly when no table name
      follows, and anything after the table name is ignored. */
  lemma ColumnsBeforeFrom(line: string, cols: seq<string>, rest: seq<string>)
    requires Tokens(line) == ["SELECT"] + cols + ["FROM"] + rest
    requires cols != [] && forall j :: 0 <= j < |cols| ==> !IsStop(cols[j])
    ensures Interpret(line).columns == cols
    ensures Interpret(line).printed ==
      if rest == [] then [SelectSyntax, SelectUnsupported] else [SelectUnsupported]
  {
    var body := Tokens(line)[1..];
    assert body == cols + ["FROM"] + rest;
    assert body[|cols|] == "FROM";
    assert StopIndex(body) == |cols|;
    assert body[..|cols|] == cols;
    assert body[|cols| + 1..] == rest;
  }

  /** A line that ends inside the column list (including a bare `SELECT`)
      keeps every column and prints the syntax reminder before
      "not supported". */
  lemma ColumnsWithoutFrom(line: string, cols: seq<string>)
    requires Tokens(line) == ["SELECT"] + cols
    requires forall j :: 0 <= j < |cols| ==> !IsStop(cols[j])
    ensures Interpret(line) == Outcome([SelectSyntax, SelectUnsupported], cols)
  {
  }

  /** The ending of a SELECT that got past its column list always closes
      with "not supported", preceded by the syntax reminder exactly when no
      token is left for the table name. */
  lemma SelectEndingShape(rest: seq<string>)
    ensures var r := SelectEnding(rest);
      1 <= |r| <= 2 && r[|r| - 1] == SelectUnsupported
      && (|r| == 2 <==> rest == []) && (|r| == 2 ==> r[0] == SelectSyntax)
  {
  }

  /** A SELECT either stops early with exactly one error message, or ends
      with "not supported"; what it collects is `["*"]` or a prefix of the
      tokens after `SELECT` holding neither `*` nor `FROM`. */
  lemma SelectOutcomeShape(body: seq<string>)
    ensures var r := SelectOutcome(body);
      1 <= |r.printed| <= 2
      && (r.printed == [WildcardAlone] || r.printed == [SelectSyntax]
          || r.printed[|r.printed| - 1] == SelectUnsupported)
      && (r.columns == ["*"]
          || (r.columns <= body && forall j :: 0 <= j < |r.columns| ==> !IsStop(r.columns[j])))
  {
    var k := StopIndex(body);
    SelectEndingShape([]);
    if k < |body| {
      SelectEndingShape(body[k + 1..]);
      if 2 <= |body| {
        SelectEndingShape(body[2..]);
      }
    }
  }

  /** Every message printed is one of the nine fixed messages, and columns
      are collected only by a SELECT. */
  lemma PrintsOnlyFixedMessages(line: string)
    ensures forall i :: 0 <= i < |Interpret(line).printed| ==> IsMessage(Interpret(line).printed[i])
    ensures Interpret(line).columns != [] ==> Tokens(line) != [] && Tokens(line)[0] == "SELECT"
  {
    var ts := Tokens(line);
    if ts != [] && ts[0] == "SELECT" {
      SelectOutcomeShape(ts[1..]);
    }
  }
}
