/** Splitting a statement line into tokens the way Rust's
    `str::split_ascii_whitespace` does, and the iterator that
    `parse_statement` advances over those tokens. */
module Tokenizer {

  datatype Option<T> = None | Some(value: T)

  /** The separators of `split_ascii_whitespace`: space, horizontal tab,
      line feed, form feed and carriage return. Vertical tab and non-ASCII
      spaces are not separators. */
  predicate IsAsciiWhitespace(c: char) {
    c == ' ' || c == '\t' || c == '\n' || c == '\U{000C}' || c == '\r'
  }

  predicate AllWhitespace(s: string) {
    forall i :: 0 <= i < |s| ==> IsAsciiWhitespace(s[i])
  }

  /** A token: non-empty, with no separator in it. */
  predicate IsWord(w: string) {
    w != [] && forall i :: 0 <= i < |w| ==> !IsAsciiWhitespace(w[i])
  }

  /** Length of the run of non-separators at the start of `s`. */
  function WordLength(s: string): (n: nat)
    ensures n <= |s|
    ensures forall i :: 0 <= i < n ==> !IsAsciiWhitespace(s[i])
    ensures n < |s| ==> IsAsciiWhitespace(s[n])
  {
    if s == [] || IsAsciiWhitespace(s[0]) then 0 else 1 + WordLength(s[1..])
  }

  /** The maximal runs of non-separators of `s`, in order. */
  function Tokens(s: string): (ts: seq<string>)
    ensures forall k :: 0 <= k < |ts| ==> IsWord(ts[k])
    decreases |s|
  {
    if s == [] then []
    else if IsAsciiWhitespace(s[0]) then Tokens(s[1..])
    else
      var n := WordLength(s);
      [s[..n]] + Tokens(s[n..])
  }

  /** The characters of `s` that are not separators, in order. */
  function Visible(s: string): string {
    if s == [] then []
    else if IsAsciiWhitespace(s[0]) then Visible(s[1..])
    else [s[0]] + Visible(s[1..])
  }

  /** The tokens laid end to end. */
  function Concat(ts: seq<string>): string {
    if ts == [] then [] else ts[0] + Concat(ts[1..])
  }

  /** The tokens written out with one space after each. */
  function Spaced(ts: seq<string>): string {
    if ts == [] then [] else ts[0] + " " + Spaced(ts[1..])
  }

  /** A line yields no token exactly when it is empty or all separators. */
  lemma {:induction false} TokensEmptyIff(s: string)
    ensures Tokens(s) == [] <==> AllWhitespace(s)
    decreases |s|
  {
    if s != [] && IsAsciiWhitespace(s[0]) {
      TokensEmptyIff(s[1..]);
      if AllWhitespace(s[1..]) {
        forall i | 0 <= i < |s| ensures IsAsciiWhitespace(s[i]) {
          if i > 0 { assert s[i] == s[1..][i - 1]; }
        }
      } else {
        var i :| 0 <= i < |s[1..]| && !IsAsciiWhitespace(s[1..][i]);
        assert s[i + 1] == s[1..][i];
      }
    }
  }

  /** Splitting loses only the separators: the tokens laid end to end are
      the line with its separators removed. */
  lemma {:induction false} TokensKeepVisible(s: string)
    ensures Concat(Tokens(s)) == Visible(s)
    decreases |s|
  {
    if s == [] {
    } else if IsAsciiWhitespace(s[0]) {
      TokensKeepVisible(s[1..]);
    } else {
      var n := WordLength(s);
      TokensKeepVisible(s[n..]);
      VisibleOfWord(s, n);
      assert Tokens(s) == [s[..n]] + Tokens(s[n..]);
      assert Concat(Tokens(s)) == s[..n] + Concat(Tokens(s[n..]));
    }
  }

  lemma {:induction false} VisibleOfWord(s: string, n: nat)
    requires n <= |s|
    requires forall i :: 0 <= i < n ==> !IsAsciiWhitespace(s[i])
    ensures Visible(s) == s[..n] + Visible(s[n..])
    decreases n
  {
    if n > 0 {
      VisibleOfWord(s[1..], n - 1);
      assert s[1..][n - 1..] == s[n..];
      assert [s[0]] + s[1..][..n - 1] == s[..n];
    }
  }

  /** Leading separators are skipped. */
  lemma {:induction false} TokensSkipSeparators(sep: string, rest: string)
    requires AllWhitespace(sep)
    ensures Tokens(sep + rest) == Tokens(rest)
    decreases |sep|
  {
    if sep == [] {
      assert sep + rest == rest;
    } else {
      assert (sep + rest)[0] == sep[0];
      assert (sep + rest)[1..] == sep[1..] + rest;
      TokensSkipSeparators(sep[1..], rest);
    }
  }

  lemma {:induction false} WordLengthOfWord(w: string, rest: string)
    requires forall i :: 0 <= i < |w| ==> !IsAsciiWhitespace(w[i])
    requires rest == [] || IsAsciiWhitespace(rest[0])
    ensures WordLength(w + rest) == |w|
    decreases |w|
  {
    if w != [] {
      assert (w + rest)[1..] == w[1..] + rest;
      WordLengthOfWord(w[1..], rest);
    } else {
      assert w + rest == rest;
    }
  }

  /** A word followed by a separator (or by nothing) is the next token. */
  lemma TokensTakeWord(w: string, rest: string)
    requires IsWord(w)
    requires rest == [] || IsAsciiWhitespace(rest[0])
    ensures Tokens(w + rest) == [w] + Tokens(rest)
  {
    WordLengthOfWord(w, rest);
    assert (w + rest)[..|w|] == w;
    assert (w + rest)[|w|..] == rest;
  }

  /** Writing tokens out with a space after each and splitting the result
      gives the tokens back. */
  lemma {:induction false} TokensOfSpaced(ts: seq<string>)
    requires forall k :: 0 <= k < |ts| ==> IsWord(ts[k])
    ensures Tokens(Spaced(ts)) == ts
  {
    if ts != [] {
      var w, rest := ts[0], Spaced(ts[1..]);
      TokensOfSpaced(ts[1..]);
      assert AllWhitespace(" ");
      TokensSkipSeparators(" ", rest);
      assert (" " + rest)[0] == ' ';
      TokensTakeWord(w, " " + rest);
      assert Spaced(ts) == w + (" " + rest);
      assert [w] + ts[1..] == ts;
    }
  }

  /** The `SplitAsciiWhitespace` iterator: the tokens of a line and how many
      `next()` has handed out. Once exhausted it keeps answering `None`. */
  class TokenIterator {
    const tokens: seq<string>
    var pos: nat

    ghost predicate Valid()
      reads this
    {
      pos <= |tokens|
    }

    constructor (line: string)
      ensures Valid() && tokens == Tokens(line) && pos == 0
    {
      tokens := Tokens(line);
      pos := 0;
    }

    method Next() returns (t: Option<string>)
      requires Valid()
      modifies this
      ensures Valid()
      ensures old(pos) < |tokens| ==> t == Some(tokens[old(pos)]) && pos == old(pos) + 1
      ensures old(pos) == |tokens| ==> t == None && pos == old(pos)
    {
      if pos < |tokens| {
        t := Some(tokens[pos]);
        pos := pos + 1;
      } else {
        t := None;
      }
    }
  }
}
