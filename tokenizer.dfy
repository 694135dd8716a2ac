/**
 * The part of java.util.StringTokenizer the core relies on: a string is cut
 * into its maximal runs of non-delimiter characters, in order, and runs of
 * delimiters produce no token at all.
 */
module Tokenizer {

  /** The delimiters of a StringTokenizer built without an explicit delimiter
      string: space, tab, newline, carriage return and form feed. */
  const DefaultDelimiters: set<char> := {' ', '\t', '\n', '\r', '\U{000C}'}

  /** A token: non-empty and free of delimiters. */
  predicate IsToken(t: string, delims: set<char>)
  {
    |t| > 0 && forall k :: 0 <= k < |t| ==> t[k] !in delims
  }

  /** Length of the longest delimiter-free prefix of s. */
  function RunLength(s: string, delims: set<char>): (n: nat)
    ensures n <= |s|
    ensures forall k :: 0 <= k < n ==> s[k] !in delims
    ensures n < |s| ==> s[n] in delims
  {
    if s == [] || s[0] in delims then 0 else 1 + RunLength(s[1..], delims)
  }

  /** The tokens of s: its maximal delimiter-free runs, left to right. */
  function Tokens(s: string, delims: set<char>): seq<string>
    decreases |s|
  {
    if s == [] then []
    else if s[0] in delims then Tokens(s[1..], delims)
    else
      var n := RunLength(s, delims);
      [s[..n]] + Tokens(s[n..], delims)
  }

  /** Every token is non-empty and free of delimiters. */
  lemma {:induction false} TokensAreTokens(s: string, delims: set<char>)
    ensures forall i :: 0 <= i < |Tokens(s, delims)| ==> IsToken(Tokens(s, delims)[i], delims)
    decreases |s|
  {
    if s == [] {
    } else if s[0] in delims {
      TokensAreTokens(s[1..], delims);
    } else {
      var n := RunLength(s, delims);
      TokensAreTokens(s[n..], delims);
    }
  }

  /** Tokens glued back together with one separator between neighbours. */
  function Join(ts: seq<string>, sep: char): string
  {
    if |ts| == 0 then []
    else if |ts| == 1 then ts[0]
    else ts[0] + [sep] + Join(ts[1..], sep)
  }

  /** The contract of RunLength determines it. */
  lemma RunLengthIs(s: string, delims: set<char>, n: nat)
    requires n <= |s|
    requires forall k :: 0 <= k < n ==> s[k] !in delims
    requires n == |s| || s[n] in delims
    ensures RunLength(s, delims) == n
  {
  }

  /** A delimiter ends every token: tokenising around it tokenises each side. */
  lemma {:induction false} TokensSplit(a: string, d: char, b: string, delims: set<char>)
    requires d in delims
    ensures Tokens(a + [d] + b, delims) == Tokens(a, delims) + Tokens(b, delims)
    decreases |a|
  {
    if a == [] {
      assert (a + [d] + b)[1..] == b;
    } else if a[0] in delims {
      TokensSplitSkip(a, d, b, delims);
      TokensSplit(a[1..], d, b, delims);
    } else {
      var m := RunLength(a, delims);
      TokensSplitRun(a, d, b, delims);
      TokensSplit(a[m..], d, b, delims);
    }
  }

  /** A leading delimiter of a is skipped in a + [d] + b too. */
  lemma TokensSplitSkip(a: string, d: char, b: string, delims: set<char>)
    requires a != [] && a[0] in delims
    ensures Tokens(a + [d] + b, delims) == Tokens(a[1..] + [d] + b, delims)
    ensures Tokens(a, delims) == Tokens(a[1..], delims)
  {
    assert (a + [d] + b)[1..] == a[1..] + [d] + b;
  }

  /** A first token inside a is the first token of a + [d] + b too. */
  lemma TokensSplitRun(a: string, d: char, b: string, delims: set<char>)
    requires d in delims && a != [] && a[0] !in delims
    ensures var m := RunLength(a, delims);
      && Tokens(a + [d] + b, delims) == [a[..m]] + Tokens(a[m..] + [d] + b, delims)
      && Tokens(a, delims) == [a[..m]] + Tokens(a[m..], delims)
  {
    var s := a + [d] + b;
    var m := RunLength(a, delims);
    forall k | 0 <= k < m ensures s[k] !in delims {
      assert s[k] == a[k];
    }
    assert m == |a| || s[m] == a[m];
    RunLengthIs(s, delims, m);
    assert s[..m] == a[..m];
    assert s[m..] == a[m..] + [d] + b;
  }

  /** A token on its own tokenises to itself. */
  lemma TokensOfToken(t: string, delims: set<char>)
    requires IsToken(t, delims)
    ensures Tokens(t, delims) == [t]
  {
    RunLengthIs(t, delims, |t|);
    assert t[..|t|] == t;
    assert t[|t|..] == [];
  }

  /** Round trip: joining tokens with a delimiter and tokenising again gives
      back the same tokens. */
  lemma {:induction false} TokensOfJoin(ts: seq<string>, sep: char, delims: set<char>)
    requires sep in delims
    requires forall i :: 0 <= i < |ts| ==> IsToken(ts[i], delims)
    ensures Tokens(Join(ts, sep), delims) == ts
  {
    if |ts| == 0 {
    } else if |ts| == 1 {
      TokensOfToken(ts[0], delims);
    } else {
      TokensSplit(ts[0], sep, Join(ts[1..], sep), delims);
      TokensOfToken(ts[0], delims);
      TokensOfJoin(ts[1..], sep, delims);
      assert [ts[0]] + ts[1..] == ts;
    }
  }
}
