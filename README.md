# SQLite REPL statement front end, in Dafny

This project models the command-line front end of a small SQLite clone
written in Rust (`src/main.rs`). The program reads lines at a `db > `
prompt. A line starting with `.` is a meta-command: `.exit` ends the
loop, and any other dot-line is reported as `Unknown command <line>`.
Every other line goes to `parse_statement`. That function splits the line
on ASCII whitespace and dispatches on the first token, with case-sensitive
keywords. For `SELECT` it collects a column list up to `FROM` and enforces
the wildcard rules. For `INSERT` it requires `INTO`. Every branch except the one for a blank
line prints one or two of a fixed set of messages; a blank line prints
nothing. No statement is executed.

Modules:

- `Tokenizer` (`tokenizer.dfy`): `Tokens`, the model of
  `str::split_ascii_whitespace`. Its separators are space, tab, line feed,
  form feed and carriage return. Lemmas characterise it: no token is
  empty or holds a separator; a line has no token exactly when it is
  blank; the tokens laid end to end are the line without its separators;
  separators are skipped, a word is taken whole, and splitting a
  space-joined token list gives the list back. `TokenIterator` is the
  `args` iterator. Like Rust's fused iterator, it keeps answering `None`
  once it is exhausted.
- `Statement` (`statement.dfy`): the message constants and `Interpret`.
  `Interpret` is a reference definition of what `parse_statement` prints,
  and of what its `columns` vector holds at the end, stated by cases on the
  line's tokens. `ParseStatement` is the imperative version. It dispatches
  on the first token, and its SELECT arm, `ParseSelect`, runs the
  `while let` loop over the iterator with its early returns. Both are
  proved to agree with the reference definitions on every line. Lemmas
  state each branch's outcome over the shape of the token sequence.
- `Repl` (`repl.dfy`): `Dispatch` is the meta-command branch.
  `RunSession` runs the loop over a given sequence of lines and is proved
  equal to the reference `SessionOutput`. Lemmas show that `.exit` ends
  the session and that lines do not affect one another.

Printing is modelled as a returned sequence of messages, one per
`println!`, in order.

## Model

| member | source | states |
|---|---|---|
| `Tokenizer.Tokens` | src/main.rs:52 | every token is non-empty and holds no ASCII whitespace character |
| `Tokenizer.TokensEmptyIff` | src/main.rs:52 | a line yields no token exactly when every character is ASCII whitespace (both directions) |
| `Tokenizer.TokensKeepVisible` | src/main.rs:52 | the tokens, concatenated in order, are the line with its separators removed |
| `Tokenizer.TokensSkipSeparators` | src/main.rs:52 | leading separators do not change the tokens |
| `Tokenizer.TokensTakeWord` | src/main.rs:52 | a separator-free word followed by a separator, or by the end of the line, is the next token |
| `Tokenizer.TokensOfSpaced` | src/main.rs:52 | splitting tokens written out with spaces gives back exactly those tokens |
| `Tokenizer.TokenIterator.constructor` | src/main.rs:52 | the iterator starts before the first token of the line |
| `Tokenizer.TokenIterator.Next` | src/main.rs:57 | `next()` hands out the tokens in order, one per call, then `None` on every later call |
| `Statement.StopIndex` | src/main.rs:57-81 | column collection stops at the first `*` or `FROM`; no token before it is either |
| `Statement.PrintsOnlyFixedMessages` | src/main.rs:48-49 | every message `parse_statement` prints, for any line, is one of the nine fixed strings (the two syntax strings and the seven literal messages); columns are collected only when the first token is `SELECT` |
| `Statement.SelectEndingShape` | src/main.rs:82-85 | once the column loop is left normally, the SELECT arm prints "SELECT functionality is not currently supported" last, preceded by the SELECT syntax string exactly when no table-name token remains |
| `Statement.SelectOutcomeShape` | src/main.rs:55-86 | the SELECT arm prints one or two messages: a lone wildcard or syntax message on an early return, otherwise ending with "not currently supported"; the columns are `["*"]` or a prefix of the tokens after `SELECT` containing neither `*` nor `FROM` |
| `Statement.ParseStatement` | src/main.rs:51-110 | the printed messages and final column vector of the iterator-driven parser equal the reference outcome `Interpret` for every line |
| `Statement.ParseSelect` | src/main.rs:55-86 | the SELECT arm, run on the iterator positioned after `SELECT`, prints and collects exactly what the reference `SelectOutcome` gives for the remaining tokens, covering every early return of the loop |
| `Statement.BlankLinePrintsNothing` | src/main.rs:106-108 | a line prints nothing exactly when it is empty or whitespace-only; any other line prints one or two messages |
| `Statement.NonSelectPrintsOneMessage` | src/main.rs:87-105 | outside SELECT, exactly one message is printed and no column is collected; UPDATE, DELETE and CREATE print their fixed "not currently supported" message; any first token other than the five exact upper-case keywords prints "Unknown statement" |
| `Statement.InsertRequiresInto` | src/main.rs:93-99 | INSERT prints only "INSERT functionality is not currently supported" exactly when `INTO` follows immediately, and only the INSERT syntax string otherwise |
| `Statement.ColumnsWellFormed` | src/main.rs:56-81 | no collected column is `FROM` or contains whitespace; a `*` in the column list means the list is exactly `["*"]` |
| `Statement.WildcardAfterColumns` | src/main.rs:59-62 | a `*` after at least one column prints only the wildcard message and stops |
| `Statement.WildcardWithoutFrom` | src/main.rs:64-67 | a leading `*` not immediately followed by `FROM` prints only the SELECT syntax string |
| `Statement.FromWithoutColumns` | src/main.rs:72-76 | a `FROM` with no column before it prints only the SELECT syntax string |
| `Statement.WildcardAccepted` | src/main.rs:68-85 | `SELECT * FROM` collects exactly `["*"]`; the syntax string precedes "SELECT functionality is not currently supported" exactly when no table name follows; later tokens are ignored |
| `Statement.ColumnsBeforeFrom` | src/main.rs:72-85 | the columns are the tokens strictly between `SELECT` and `FROM`, in input order, commas kept; the syntax string precedes "not currently supported" exactly when no table name follows; tokens after the table name are ignored |
| `Statement.ColumnsWithoutFrom` | src/main.rs:57-85 | a line that ends inside the column list, a bare `SELECT` included, keeps all its columns and prints the syntax string, then "not currently supported" |
| `Repl.Dispatch` | src/main.rs:17-24 | a line reaches `parse_statement` exactly when it does not start with `.`; only `.exit` ends the loop; other dot-lines print "Unknown command " followed by the line |
| `Repl.ExitIndex` | src/main.rs:19 | the index of the first `.exit` line, and no earlier line is `.exit` |
| `Repl.RunSession` | src/main.rs:10-28 | the loop's output equals the reference `SessionOutput`; it stops exactly when it reads `.exit`, having read the lines up to and including it |
| `Repl.ExitEndsSession` | src/main.rs:19 | lines after the first `.exit` are never read and print nothing |
| `Repl.SessionConcatenates` | src/main.rs:10-28 | without `.exit`, a session's output is the output of its parts in order: a line's effect does not depend on earlier lines |
| `Repl.UnknownCommandContinues` | src/main.rs:20-22 | an unknown dot-line prints one "Unknown command" message and the loop continues with the next line |

## Left out

- The rustyline editor (`DefaultEditor`, the `db > ` prompt, commented-out history) is terminal I/O through an external library. The model takes the input as a given sequence of lines instead.
- The Ctrl-C, Ctrl-D and read-error arms of the loop (src/main.rs:30-42) are not modelled. They print `CTRL-C`, `CTRL-D` or the error and stop. `RunSession` ends silently when its lines run out.
- `src/executer.rs` is a wrapper over the external `nom_sql` parser types, and its handlers print fixed strings. It is not called from `main` and is not part of this model.
- `src/dbtree.rs` declares a page-type enum and header structs with no behaviour. It is not part of this model.
- Text is modelled as sequences of Unicode characters, not UTF-8 bytes. Every separator is a single ASCII character, so token boundaries are the same either way.
