/** `java.util.StringTokenizer` without returned delimiters: a token is a
    maximal run of characters none of which is a delimiter, so empty tokens are
    never produced. */
module Tokenizer {

  /** `t` contains none of the delimiter characters. */
  predicate Free(t: string, delims: set<char>)
  {
    forall k :: 0 <= k < |t| ==> t[k] !in delims
  }

  /** Length of the token that starts at the beginning of `s` (`scanToken`). */
  function TokenLength(s: string, delims: set<char>): (n: nat)
    ensures n <= |s|
    ensures Free(s[..n], delims)
    ensures n < |s| ==> s[n] in delims
  {
    if s == [] || s[0] in delims then 0
    else
      var m := TokenLength(s[1..], delims);
      assert s[..1 + m] == [s[0]] + s[1..][..m];
      1 + m
  }

  /** The tokens of `s`, in order: delimiters are skipped (`skipDelimiters`),
      then a token runs up to the next delimiter or the end (`scanToken`). */
  function Tokenize(s: string, delims: set<char>): (tokens: seq<string>)
    ensures forall i :: 0 <= i < |tokens| ==> tokens[i] != [] && Free(tokens[i], delims)
    decreases |s|
  {
    if s == [] then []
    else if s[0] in delims then Tokenize(s[1..], delims)
    else
      var n := TokenLength(s, delims);
      [s[..n]] + Tokenize(s[n..], delims)
  }

  /** `xs` separated by single `d` characters. */
  function Join(xs: seq<string>, d: char): (r: string)
    ensures |xs| == 1 ==> r == xs[0]
  {
    if xs == [] then []
    else if |xs| == 1 then xs[0]
    else xs[0] + [d] + Join(xs[1..], d)
  }

  /** The concatenation of all strings of `xs`. */
  function Concat(xs: seq<string>): string
  {
    if xs == [] then [] else xs[0] + Concat(xs[1..])
  }

  /** `s` with every delimiter character removed. */
  function Without(s: string, delims: set<char>): (r: string)
    ensures Free(r, delims)
  {
    if s == [] then []
    else if s[0] in delims then Without(s[1..], delims)
    else [s[0]] + Without(s[1..], delims)
  }

  /** A token stops at the first delimiter, whatever follows it. */
  lemma {:induction false} TokenLengthStopsAtDelimiter(a: string, d: char, b: string, delims: set<char>)
    requires d in delims
    ensures TokenLength(a + [d] + b, delims) <= |a|
    ensures TokenLength(a + [d] + b, delims) == TokenLength(a, delims)
    decreases |a|
  {
    var s := a + [d] + b;
    if a == [] {
      assert s[0] == d;
    } else if a[0] in delims {
      assert s[0] == a[0];
    } else {
      assert s[0] == a[0];
      assert s[1..] == a[1..] + [d] + b;
      TokenLengthStopsAtDelimiter(a[1..], d, b, delims);
    }
  }

  /** Cutting the input at a delimiter cuts the token list there. */
  lemma {:induction false} TokenizeSplit(a: string, d: char, b: string, delims: set<char>)
    requires d in delims
    ensures Tokenize(a + [d] + b, delims) == Tokenize(a, delims) + Tokenize(b, delims)
    decreases |a|
  {
    var s := a + [d] + b;
    if a == [] {
      assert s[0] == d && s[1..] == b;
    } else if a[0] in delims {
      assert s[0] == a[0];
      assert s[1..] == a[1..] + [d] + b;
      TokenizeSplit(a[1..], d, b, delims);
    } else {
      assert s[0] == a[0];
      var n := TokenLength(s, delims);
      TokenLengthStopsAtDelimiter(a, d, b, delims);
      assert n == TokenLength(a, delims) && n <= |a|;
      assert s[..n] == a[..n];
      assert s[n..] == a[n..] + [d] + b;
      TokenizeSplit(a[n..], d, b, delims);
    }
  }

  /** A non-empty delimiter-free string is a single token. */
  lemma {:induction false} TokenizeSingle(t: string, delims: set<char>)
    requires t != [] && Free(t, delims)
    ensures Tokenize(t, delims) == [t]
  {
    assert t[0] !in delims;
    WholeTokenLength(t, delims);
    assert t[..|t|] == t;
    assert t[|t|..] == [];
  }

  lemma {:induction false} WholeTokenLength(t: string, delims: set<char>)
    requires Free(t, delims)
    ensures TokenLength(t, delims) == |t|
    decreases |t|
  {
    if t != [] {
      assert t[0] !in delims;
      assert Free(t[1..], delims) by {
        forall k | 0 <= k < |t[1..]| ensures t[1..][k] !in delims {
          assert t[1..][k] == t[k + 1];
        }
      }
      WholeTokenLength(t[1..], delims);
    }
  }

  /** Tokenising a join of tokens gives the tokens back. */
  lemma {:induction false} TokenizeJoin(xs: seq<string>, d: char, delims: set<char>)
    requires d in delims
    requires forall i :: 0 <= i < |xs| ==> xs[i] != [] && Free(xs[i], delims)
    ensures Tokenize(Join(xs, d), delims) == xs
    decreases |xs|
  {
    if xs == [] {
    } else if |xs| == 1 {
      TokenizeSingle(xs[0], delims);
    } else {
      TokenizeSplit(xs[0], d, Join(xs[1..], d), delims);
      TokenizeSingle(xs[0], delims);
      TokenizeJoin(xs[1..], d, delims);
    }
  }

  /** `xs` without its empty strings, in order. */
  function NonEmpty(xs: seq<string>): (r: seq<string>)
    ensures forall i :: 0 <= i < |r| ==> r[i] != []
  {
    if xs == [] then []
    else if xs[0] == [] then NonEmpty(xs[1..])
    else [xs[0]] + NonEmpty(xs[1..])
  }

  /** The last string of a join follows the last separator. */
  lemma {:induction false} JoinSnoc(xs: seq<string>, d: char)
    requires |xs| >= 2
    ensures Join(xs, d) == Join(xs[..|xs| - 1], d) + [d] + xs[|xs| - 1]
    decreases |xs|
  {
    if |xs| > 2 {
      JoinSnoc(xs[1..], d);
      assert xs[1..][..|xs| - 2] == xs[..|xs| - 1][1..];
      assert xs[..|xs| - 1][0] == xs[0];
    }
  }

  /** Tokenising delimiter-free strings joined by a delimiter gives back the
      non-empty ones: consecutive delimiters produce no empty token. */
  lemma {:induction false} TokenizeJoinAll(xs: seq<string>, d: char, delims: set<char>)
    requires d in delims
    requires forall i :: 0 <= i < |xs| ==> Free(xs[i], delims)
    ensures Tokenize(Join(xs, d), delims) == NonEmpty(xs)
    decreases |xs|
  {
    if xs == [] {
    } else {
      if xs[0] != [] {
        TokenizeSingle(xs[0], delims);
      }
      if |xs| > 1 {
        TokenizeSplit(xs[0], d, Join(xs[1..], d), delims);
        TokenizeJoinAll(xs[1..], d, delims);
      }
    }
  }

  /** A slice of a delimiter-free string is delimiter-free. */
  lemma FreeSlice(t: string, i: nat, j: nat, delims: set<char>)
    requires i <= j <= |t| && Free(t, delims)
    ensures Free(t[i..j], delims)
  {
    forall k | 0 <= k < j - i ensures t[i..j][k] !in delims {
      assert t[i..j][k] == t[i + k];
    }
  }

  /** An input made only of delimiters has no tokens. */
  lemma {:induction false} TokenizeDelimitersOnly(s: string, delims: set<char>)
    requires forall k :: 0 <= k < |s| ==> s[k] in delims
    ensures Tokenize(s, delims) == []
    decreases |s|
  {
    if s != [] {
      assert s[0] in delims;
      TokenizeDelimitersOnly(s[1..], delims);
    }
  }

  /** Every non-delimiter character of the input (a tab, say, when only ' '
      delimits) appears in the tokens, in input order. */
  lemma {:induction false} TokenizeKeepsOtherChars(s: string, delims: set<char>)
    ensures Concat(Tokenize(s, delims)) == Without(s, delims)
    decreases |s|
  {
    if s == [] {
    } else if s[0] in delims {
      TokenizeKeepsOtherChars(s[1..], delims);
    } else {
      var n := TokenLength(s, delims);
      var tokens := Tokenize(s, delims);
      assert tokens == [s[..n]] + Tokenize(s[n..], delims);
      assert tokens[1..] == Tokenize(s[n..], delims);
      TokenizeKeepsOtherChars(s[n..], delims);
      WithoutFree(s[..n], delims);
      WithoutAppend(s[..n], s[n..], delims);
      assert s[..n] + s[n..] == s;
    }
  }

  lemma {:induction false} WithoutFree(t: string, delims: set<char>)
    requires Free(t, delims)
    ensures Without(t, delims) == t
    decreases |t|
  {
    if t != [] {
      assert t[0] !in delims;
      assert Free(t[1..], delims) by {
        forall k | 0 <= k < |t[1..]| ensures t[1..][k] !in delims {
          assert t[1..][k] == t[k + 1];
        }
      }
      WithoutFree(t[1..], delims);
      assert t == [t[0]] + t[1..];
    }
  }

  lemma {:induction false} WithoutAppend(a: string, b: string, delims: set<char>)
    ensures Without(a + b, delims) == Without(a, delims) + Without(b, delims)
    decreases |a|
  {
    if a == [] {
      assert a + b == b;
    } else {
      assert (a + b)[0] == a[0];
      assert (a + b)[1..] == a[1..] + b;
      WithoutAppend(a[1..], b, delims);
    }
  }
}
