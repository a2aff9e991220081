/** The null-safe string helpers every setter of the authorization model uses:
    Java's `String.trim()`, blank checks, null-safe equality, trim-or-null
    normalisation and delimited-list splitting. */
module Strings {
  import opened Lang
  import Tokenizer

  /** The characters `String.trim()` strips: every char up to U+0020. */
  predicate IsWhite(c: char)
  {
    c <= ' '
  }

  predicate AllWhite(s: string)
  {
    forall k :: 0 <= k < |s| ==> IsWhite(s[k])
  }

  /** Neither the first nor the last character is stripped by `trim()`. */
  predicate Bare(s: string)
  {
    s == [] || (!IsWhite(s[0]) && !IsWhite(s[|s| - 1]))
  }

  /** The shape every setter gives a string field: null, or a non-empty string
      `trim()` leaves unchanged. */
  predicate Normal(o: Option<string>)
  {
    o.None? || (o.value != [] && Bare(o.value))
  }

  /** Number of leading characters `trim()` strips. */
  function Lead(s: string): (n: nat)
    ensures n <= |s|
    ensures forall k :: 0 <= k < n ==> IsWhite(s[k])
    ensures n < |s| ==> !IsWhite(s[n])
  {
    if s == [] || !IsWhite(s[0]) then 0
    else 1 + Lead(s[1..])
  }

  /** Number of trailing characters `trim()` strips. */
  function Trail(s: string): (n: nat)
    ensures n <= |s|
    ensures forall k :: |s| - n <= k < |s| ==> IsWhite(s[k])
    ensures n < |s| ==> !IsWhite(s[|s| - 1 - n])
  {
    if s == [] || !IsWhite(s[|s| - 1]) then 0
    else 1 + Trail(s[..|s| - 1])
  }

  /** Java's `String.trim()`: the string between a white prefix and a white
      suffix, itself starting and ending with a non-white character. */
  function Trim(s: string): (r: string)
    ensures Bare(r)
    ensures Lead(s) + |r| <= |s|
    ensures r == s[Lead(s)..Lead(s) + |r|]
    ensures forall k :: 0 <= k < Lead(s) ==> IsWhite(s[k])
    ensures forall k :: Lead(s) + |r| <= k < |s| ==> IsWhite(s[k])
    ensures r == [] <==> AllWhite(s)
  {
    var i := Lead(s);
    if i == |s| then []
    else
      var t := Trail(s);
      assert !IsWhite(s[i]);
      assert t < |s| - i;
      var r := s[i..|s| - t];
      assert !AllWhite(s);
      r
  }

  /** `trim()` is characterised by its decomposition: whatever white prefix and
      suffix surround a bare middle, the trim is that middle. */
  lemma TrimUnique(p: string, t: string, q: string)
    requires AllWhite(p) && AllWhite(q) && Bare(t)
    ensures Trim(p + t + q) == t
  {
    var s := p + t + q;
    assert forall k :: 0 <= k < |p| ==> IsWhite(s[k]) by {
      forall k | 0 <= k < |p| ensures IsWhite(s[k]) { assert s[k] == p[k]; }
    }
    assert forall k :: |p| + |t| <= k < |s| ==> IsWhite(s[k]) by {
      forall k | |p| + |t| <= k < |s| ensures IsWhite(s[k]) { assert s[k] == q[k - |p| - |t|]; }
    }
    if t == [] {
      assert AllWhite(s);
    } else {
      assert !IsWhite(s[|p|]) by { assert s[|p|] == t[0]; }
      assert !IsWhite(s[|p| + |t| - 1]) by { assert s[|p| + |t| - 1] == t[|t| - 1]; }
      var i := Lead(s);
      assert i <= |p|;
      assert i == |p|;
      var r := Trim(s);
      assert |r| >= |t|;
      assert r != [] && !IsWhite(r[|r| - 1]);
      assert r[|r| - 1] == s[i + |r| - 1];
      assert |r| <= |t|;
      assert r == s[|p|..|p| + |t|] == t;
    }
  }

  /** Trimming twice is trimming once. */
  lemma TrimIdempotent(s: string)
    ensures Trim(Trim(s)) == Trim(s)
  {
    var t := Trim(s);
    assert [] + t + [] == t;
    TrimUnique([], t, []);
  }

  /** `Strings.isEmpty`: null, or nothing left after trimming. */
  function IsEmpty(s: Option<string>): (r: bool)
    ensures r <==> s.None? || AllWhite(s.value)
  {
    match s
    case None => true
    case Some(v) => !(|Trim(v)| > 0)
  }

  /** `Strings.safeEquals`: null equals only null; otherwise `equals`. */
  function SafeEquals<T(==)>(s1: Option<T>, s2: Option<T>): (r: bool)
    ensures r <==> s1 == s2
  {
    if s1.None? || s2.None? then s1.None? && s2.None?
    else s1.value == s2.value
  }

  /** `Strings.safeTrim`: null stays null, anything else is trimmed. */
  function SafeTrim(s: Option<string>): (r: Option<string>)
    ensures r.None? <==> s.None?
    ensures r.Some? ==> r.value == Trim(s.value)
  {
    match s
    case None => None
    case Some(v) => Some(Trim(v))
  }

  /** `Strings.safeTrimOrNullString`: the trimmed string, or null when the
      input is null or blank. */
  function SafeTrimOrNull(s: Option<string>): (r: Option<string>)
    ensures Normal(r)
    ensures r.None? <==> IsEmpty(s)
    ensures r.Some? ==> r.value == Trim(s.value)
  {
    match s
    case None => None
    case Some(v) =>
      var trimmed := Trim(v);
      if |trimmed| > 0 then Some(trimmed) else None
  }

  /** A normalised value is a fixed point of the normalisation. */
  lemma NormalIsFixed(s: Option<string>)
    requires Normal(s)
    ensures SafeTrimOrNull(s) == s
  {
    if s.Some? {
      assert [] + s.value + [] == s.value;
      TrimUnique([], s.value, []);
    }
  }

  /** Normalising twice is normalising once. */
  lemma SafeTrimOrNullIdempotent(s: Option<string>)
    ensures SafeTrimOrNull(SafeTrimOrNull(s)) == SafeTrimOrNull(s)
  {
    NormalIsFixed(SafeTrimOrNull(s));
  }

  /** The characters of a `StringTokenizer` delimiter string. */
  function DelimiterSet(delimiter: string): set<char>
  {
    set c | c in delimiter
  }

  /** Each token trimmed; tokens that trim to nothing are dropped. */
  function TrimTokens(tokens: seq<string>): (r: seq<string>)
    ensures |r| <= |tokens|
    ensures forall i :: 0 <= i < |r| ==> Normal(Some(r[i]))
    ensures |tokens| == 1 ==> r == (if AllWhite(tokens[0]) then [] else [Trim(tokens[0])])
  {
    if tokens == [] then []
    else
      var rest := TrimTokens(tokens[1..]);
      match SafeTrimOrNull(Some(tokens[0]))
      case None => rest
      case Some(v) => [v] + rest
  }

  lemma {:induction false} TrimTokensFree(tokens: seq<string>, delims: set<char>)
    requires forall i :: 0 <= i < |tokens| ==> Tokenizer.Free(tokens[i], delims)
    ensures forall i :: 0 <= i < |TrimTokens(tokens)| ==> Tokenizer.Free(TrimTokens(tokens)[i], delims)
    decreases |tokens|
  {
    if tokens != [] {
      TrimTokensFree(tokens[1..], delims);
      var v := SafeTrimOrNull(Some(tokens[0]));
      if v.Some? {
        var l := Lead(tokens[0]);
        assert v.value == tokens[0][l..l + |v.value|];
        assert Tokenizer.Free(v.value, delims) by {
          forall k | 0 <= k < |v.value| ensures v.value[k] !in delims {
            assert v.value[k] == tokens[0][l + k];
          }
        }
      }
    }
  }

  lemma {:induction false} TrimTokensOfBare(tokens: seq<string>)
    requires forall i :: 0 <= i < |tokens| ==> Normal(Some(tokens[i]))
    ensures TrimTokens(tokens) == tokens
    decreases |tokens|
  {
    if tokens != [] {
      TrimTokensOfBare(tokens[1..]);
      NormalIsFixed(Some(tokens[0]));
    }
  }

  /** The loop over the tokens treats each token on its own: the values of a
      concatenation are the values of each part, in order. */
  lemma {:induction false} TrimTokensAppend(a: seq<string>, b: seq<string>)
    ensures TrimTokens(a + b) == TrimTokens(a) + TrimTokens(b)
    decreases |a|
  {
    if a == [] {
      assert a + b == b;
    } else {
      assert (a + b)[0] == a[0];
      assert (a + b)[1..] == a[1..] + b;
      TrimTokensAppend(a[1..], b);
    }
  }

  /** Empty tokens contribute nothing. */
  lemma {:induction false} TrimTokensNonEmpty(xs: seq<string>)
    ensures TrimTokens(Tokenizer.NonEmpty(xs)) == TrimTokens(xs)
    decreases |xs|
  {
    if xs != [] {
      TrimTokensNonEmpty(xs[1..]);
      if xs[0] != [] {
        assert ([xs[0]] + Tokenizer.NonEmpty(xs[1..]))[1..] == Tokenizer.NonEmpty(xs[1..]);
      }
    }
  }

  /** Tokens with the same trim give the same values. */
  lemma {:induction false} TrimTokensPointwise(xs: seq<string>, ys: seq<string>)
    requires |xs| == |ys|
    requires forall i :: 0 <= i < |xs| ==> Trim(xs[i]) == Trim(ys[i])
    ensures TrimTokens(xs) == TrimTokens(ys)
    decreases |xs|
  {
    if xs != [] {
      TrimTokensPointwise(xs[1..], ys[1..]);
    }
  }

  lemma AllWhiteAppend(a: string, b: string)
    requires AllWhite(a) && AllWhite(b)
    ensures AllWhite(a + b)
  {
    forall k | 0 <= k < |a + b| ensures IsWhite((a + b)[k]) {
      if k >= |a| { assert (a + b)[k] == b[k - |a|]; }
    }
  }

  /** Every string is its trim between a white prefix and a white suffix. */
  lemma TrimSplit(s: string) returns (w: string, r: string)
    ensures s == w + Trim(s) + r && AllWhite(w) && AllWhite(r)
  {
    var l := Lead(s);
    var t := Trim(s);
    w, r := s[..l], s[l + |t|..];
    assert s == w + t + r;
    assert AllWhite(w) by {
      forall k | 0 <= k < |w| ensures IsWhite(w[k]) { assert w[k] == s[k]; }
    }
    assert AllWhite(r) by {
      forall k | 0 <= k < |r| ensures IsWhite(r[k]) { assert r[k] == s[l + |t| + k]; }
    }
  }

  /** White padding on either side does not change the trim. */
  lemma TrimPadded(p: string, s: string, q: string)
    requires AllWhite(p) && AllWhite(q)
    ensures Trim(p + s + q) == Trim(s)
  {
    var w, r := TrimSplit(s);
    AllWhiteAppend(p, w);
    AllWhiteAppend(r, q);
    Regroup(p, w, Trim(s), r, q);
    TrimUnique(p + w, Trim(s), r + q);
  }

  lemma Regroup(p: string, w: string, t: string, r: string, q: string)
    ensures p + (w + t + r) + q == (p + w) + t + (r + q)
  {
  }

  /** A white prefix does not change the trim. */
  lemma TrimWhitePrefix(p: string, s: string)
    requires AllWhite(p)
    ensures Trim(p + s) == Trim(s)
  {
    assert p + s == p + s + [];
    TrimPadded(p, s, []);
  }

  /** A white suffix does not change the trim. */
  lemma TrimWhiteSuffix(s: string, q: string)
    requires AllWhite(q)
    ensures Trim(s + q) == Trim(s)
  {
    assert s + q == [] + s + q;
    TrimPadded([], s, q);
  }

  /** `Strings.toList`: null for a null or blank input; otherwise the trimmed,
      non-blank tokens of the trimmed input, in order. A null delimiter goes
      straight to `StringTokenizer`, which cannot tokenise with it. */
  function ToList(valuesStr: Option<string>, delimiter: Option<string>): (r: Outcome<Option<seq<string>>>)
    ensures r == Success(None) <==> IsEmpty(valuesStr)
    ensures r.Failure? <==> !IsEmpty(valuesStr) && delimiter.None?
    ensures r.Failure? ==> r.error == NullPointer
    ensures r.Success? && r.value.Some? ==>
              forall i :: 0 <= i < |r.value.value| ==>
                Normal(Some(r.value.value[i])) && Tokenizer.Free(r.value.value[i], DelimiterSet(delimiter.value))
  {
    var trimmedValueStr := SafeTrimOrNull(valuesStr);
    if trimmedValueStr.None? then Success(None)
    else if delimiter.None? then Failure(NullPointer)
    else
      var delims := DelimiterSet(delimiter.value);
      var tokens := Tokenizer.Tokenize(trimmedValueStr.value, delims);
      TrimTokensFree(tokens, delims);
      Success(Some(TrimTokens(tokens)))
  }

  /** A non-blank input made only of delimiters gives an empty list, not null. */
  lemma ToListDelimitersOnly(valuesStr: string, delimiter: string)
    requires !IsEmpty(Some(valuesStr))
    requires forall k :: 0 <= k < |valuesStr| ==> valuesStr[k] in delimiter
    ensures ToList(Some(valuesStr), Some(delimiter)) == Success(Some([]))
  {
    var t := Trim(valuesStr);
    var l := Lead(valuesStr);
    var delims := DelimiterSet(delimiter);
    assert forall k :: 0 <= k < |t| ==> t[k] in delims by {
      forall k | 0 <= k < |t| ensures t[k] in delims {
        assert t[k] == valuesStr[l + k];
      }
    }
    Tokenizer.TokenizeDelimitersOnly(t, delims);
  }

  /** A white character in front of the input changes no value: it is a
      delimiter, a blank token of its own, or padding of the first token. */
  lemma WhiteHeadTokens(c: char, u: string, delims: set<char>)
    requires IsWhite(c)
    ensures TrimTokens(Tokenizer.Tokenize([c] + u, delims)) == TrimTokens(Tokenizer.Tokenize(u, delims))
  {
    var s := [c] + u;
    assert s[0] == c && s[1..] == u;
    if c !in delims {
      var n := Tokenizer.TokenLength(u, delims);
      var w := u[..n];
      var cw := [c] + w;
      var tail: seq<string> := [];
      if n < |u| {
        tail := Tokenizer.Tokenize(u[n + 1..], delims);
        assert u == w + [u[n]] + u[n + 1..];
        assert s == cw + [u[n]] + u[n + 1..];
        Tokenizer.TokenizeSplit(w, u[n], u[n + 1..], delims);
        Tokenizer.TokenizeSplit(cw, u[n], u[n + 1..], delims);
      } else {
        assert w == u && cw == s;
      }
      assert Tokenizer.Tokenize(u, delims) == Tokenizer.Tokenize(w, delims) + tail;
      assert Tokenizer.Tokenize(s, delims) == Tokenizer.Tokenize(cw, delims) + tail;
      assert Tokenizer.Free(cw, delims) by {
        forall k | 0 <= k < |cw| ensures cw[k] !in delims {
          if k > 0 { assert cw[k] == w[k - 1]; }
        }
      }
      Tokenizer.TokenizeSingle(cw, delims);
      if w != [] {
        Tokenizer.TokenizeSingle(w, delims);
        TrimWhitePrefix([c], w);
      } else {
        assert AllWhite(cw);
      }
      TrimTokensAppend(Tokenizer.Tokenize(cw, delims), tail);
      TrimTokensAppend(Tokenizer.Tokenize(w, delims), tail);
    }
  }

  /** A white character after the input changes no value either. */
  lemma {:induction false} WhiteLastTokens(u: string, c: char, delims: set<char>)
    requires IsWhite(c)
    ensures TrimTokens(Tokenizer.Tokenize(u + [c], delims)) == TrimTokens(Tokenizer.Tokenize(u, delims))
    decreases |u|
  {
    var n := Tokenizer.TokenLength(u, delims);
    if n < |u| {
      var w, v := u[..n], u[n + 1..];
      assert u == w + [u[n]] + v;
      assert u + [c] == w + [u[n]] + (v + [c]);
      Tokenizer.TokenizeSplit(w, u[n], v, delims);
      Tokenizer.TokenizeSplit(w, u[n], v + [c], delims);
      WhiteLastTokens(v, c, delims);
      TrimTokensAppend(Tokenizer.Tokenize(w, delims), Tokenizer.Tokenize(v + [c], delims));
      TrimTokensAppend(Tokenizer.Tokenize(w, delims), Tokenizer.Tokenize(v, delims));
    } else if c in delims {
      assert u + [c] == u + [c] + [];
      Tokenizer.TokenizeSplit(u, c, [], delims);
      assert Tokenizer.Tokenize(u, delims) + [] == Tokenizer.Tokenize(u, delims);
    } else {
      assert u[..n] == u;
      var uc := u + [c];
      assert Tokenizer.Free(uc, delims) by {
        forall k | 0 <= k < |uc| ensures uc[k] !in delims {
          if k < |u| { assert uc[k] == u[k]; }
        }
      }
      Tokenizer.TokenizeSingle(uc, delims);
      if u != [] {
        Tokenizer.TokenizeSingle(u, delims);
        TrimWhiteSuffix(u, [c]);
      } else {
        assert AllWhite(uc);
      }
    }
  }

  /** White padding in front of the input changes no value. */
  lemma {:induction false} WhitePrefixTokens(p: string, u: string, delims: set<char>)
    requires AllWhite(p)
    ensures TrimTokens(Tokenizer.Tokenize(p + u, delims)) == TrimTokens(Tokenizer.Tokenize(u, delims))
    decreases |p|
  {
    if p == [] {
      assert p + u == u;
    } else {
      assert IsWhite(p[0]);
      assert AllWhite(p[1..]) by {
        forall k | 0 <= k < |p[1..]| ensures IsWhite(p[1..][k]) { assert p[1..][k] == p[k + 1]; }
      }
      assert p + u == [p[0]] + (p[1..] + u);
      WhiteHeadTokens(p[0], p[1..] + u, delims);
      WhitePrefixTokens(p[1..], u, delims);
    }
  }

  /** White padding after the input changes no value. */
  lemma {:induction false} WhiteSuffixTokens(u: string, q: string, delims: set<char>)
    requires AllWhite(q)
    ensures TrimTokens(Tokenizer.Tokenize(u + q, delims)) == TrimTokens(Tokenizer.Tokenize(u, delims))
    decreases |q|
  {
    if q == [] {
      assert u + q == u;
    } else {
      assert IsWhite(q[0]);
      assert AllWhite(q[1..]) by {
        forall k | 0 <= k < |q[1..]| ensures IsWhite(q[1..][k]) { assert q[1..][k] == q[k + 1]; }
      }
      assert u + q == (u + [q[0]]) + q[1..];
      WhiteSuffixTokens(u + [q[0]], q[1..], delims);
      WhiteLastTokens(u, q[0], delims);
    }
  }

  /** For every non-blank input and every delimiter string, `toList` gives the
      trimmed, non-blank tokens of the input as it is: trimming it first, as
      `toList` does, changes no value, whichever characters delimit. */
  lemma ToListTokens(valuesStr: string, delimiter: string)
    requires !IsEmpty(Some(valuesStr))
    ensures ToList(Some(valuesStr), Some(delimiter))
         == Success(Some(TrimTokens(Tokenizer.Tokenize(valuesStr, DelimiterSet(delimiter)))))
  {
    var delims := DelimiterSet(delimiter);
    var t := Trim(valuesStr);
    var w, r := TrimSplit(valuesStr);
    assert valuesStr == w + (t + r);
    WhitePrefixTokens(w, t + r, delims);
    WhiteSuffixTokens(t, r, delims);
  }

  /** Splitting a delimiter-joined list of normalised, delimiter-free values
      gives the values back. */
  lemma ToListJoin(xs: seq<string>, d: char)
    requires xs != []
    requires forall i :: 0 <= i < |xs| ==> Normal(Some(xs[i])) && Tokenizer.Free(xs[i], {d})
    ensures ToList(Some(Tokenizer.Join(xs, d)), Some([d])) == Success(Some(xs))
  {
    var joined := Tokenizer.Join(xs, d);
    JoinNormal(xs, d);
    NormalIsFixed(Some(joined));
    assert DelimiterSet([d]) == {d} by {
      assert forall c :: c in DelimiterSet([d]) <==> c == d;
    }
    Tokenizer.TokenizeJoin(xs, d, {d});
    TrimTokensOfBare(xs);
  }

  /** Padding in front of the first value is padding in front of the join. */
  lemma JoinHeadPad(xs: seq<string>, p: string, a: string, d: char)
    requires xs != [] && xs[0] == p + a
    ensures Tokenizer.Join(xs, d) == p + Tokenizer.Join(xs[0 := a], d)
  {
    if |xs| > 1 {
      assert xs[0 := a][1..] == xs[1..];
    }
  }

  /** Padding after the last value is padding after the join. */
  lemma JoinLastPad(ys: seq<string>, b: string, q: string, d: char)
    requires ys != [] && ys[|ys| - 1] == b + q
    ensures Tokenizer.Join(ys, d) == Tokenizer.Join(ys[|ys| - 1 := b], d) + q
  {
    var n := |ys|;
    if n > 1 {
      var zs := ys[n - 1 := b];
      Tokenizer.JoinSnoc(ys, d);
      Tokenizer.JoinSnoc(zs, d);
      assert ys[..n - 1] == zs[..n - 1];
    }
  }

  /** A join with a non-white separator whose first value does not start, and
      whose last value does not end, with a white character is bare. */
  lemma JoinBare(ys: seq<string>, d: char)
    requires ys != [] && !IsWhite(d)
    requires ys[0] == [] || !IsWhite(ys[0][0])
    requires ys[|ys| - 1] == [] || !IsWhite(ys[|ys| - 1][|ys[|ys| - 1]| - 1])
    ensures Bare(Tokenizer.Join(ys, d))
  {
    var n := |ys|;
    var j := Tokenizer.Join(ys, d);
    if n > 1 {
      assert j == ys[0] + [d] + Tokenizer.Join(ys[1..], d);
      assert j[0] == (if ys[0] == [] then d else ys[0][0]);
      Tokenizer.JoinSnoc(ys, d);
      var b := ys[n - 1];
      assert j[|j| - 1] == (if b == [] then d else b[|b| - 1]);
    }
  }

  /** With a non-white separator, trimming a joined list only trims its two
      ends: `ys` is `xs` with white padding `p` taken off the front of the
      first value and `q` off the back of the last. */
  lemma JoinTrimEnds(xs: seq<string>, ys: seq<string>, p: string, q: string, d: char)
    requires !IsWhite(d) && AllWhite(p) && AllWhite(q)
    requires |xs| == |ys| >= 1
    requires forall i :: 0 < i < |xs| - 1 ==> ys[i] == xs[i]
    requires |xs| == 1 ==> xs[0] == p + ys[0] + q
    requires |xs| > 1 ==> xs[0] == p + ys[0] && xs[|xs| - 1] == ys[|ys| - 1] + q
    requires ys[0] == [] || !IsWhite(ys[0][0])
    requires ys[|ys| - 1] == [] || !IsWhite(ys[|ys| - 1][|ys[|ys| - 1]| - 1])
    ensures Trim(Tokenizer.Join(xs, d)) == Tokenizer.Join(ys, d)
  {
    var n := |xs|;
    var mid := xs[0 := if n == 1 then ys[0] + q else ys[0]];
    if n == 1 {
      assert mid[0] == ys[0] + q;
    } else {
      assert mid[n - 1] == ys[n - 1] + q;
    }
    JoinHeadPad(xs, p, if n == 1 then ys[0] + q else ys[0], d);
    JoinLastPad(mid, ys[n - 1], q, d);
    var zs := mid[n - 1 := ys[n - 1]];
    assert forall i :: 0 <= i < n ==> zs[i] == ys[i];
    assert zs == ys;
    assert Tokenizer.Join(xs, d) == p + Tokenizer.Join(ys, d) + q;
    JoinBare(ys, d);
    TrimUnique(p, Tokenizer.Join(ys, d), q);
  }

  /** The white prefix `trim()` removes, and the rest. */
  lemma SplitLead(s: string, delims: set<char>) returns (p: string, r: string)
    ensures s == p + r && AllWhite(p) && (r == [] || !IsWhite(r[0]))
    ensures Trim(r) == Trim(s)
    ensures Tokenizer.Free(s, delims) ==> Tokenizer.Free(r, delims)
  {
    p, r := s[..Lead(s)], s[Lead(s)..];
    assert s == p + r;
    TrimWhitePrefix(p, r);
    if Tokenizer.Free(s, delims) {
      Tokenizer.FreeSlice(s, |p|, |s|, delims);
    }
  }

  /** The white suffix `trim()` removes, and the rest. */
  lemma SplitTrail(s: string, delims: set<char>) returns (r: string, q: string)
    ensures s == r + q && AllWhite(q) && (r == [] || !IsWhite(r[|r| - 1]))
    ensures r != [] ==> r[0] == s[0]
    ensures Trim(r) == Trim(s)
    ensures Tokenizer.Free(s, delims) ==> Tokenizer.Free(r, delims)
  {
    r, q := s[..|s| - Trail(s)], s[|s| - Trail(s)..];
    assert s == r + q;
    if Tokenizer.Free(s, delims) {
      Tokenizer.FreeSlice(s, 0, |r|, delims);
    }
    assert AllWhite(q) by {
      forall k | 0 <= k < |q| ensures IsWhite(q[k]) { assert q[k] == s[|s| - Trail(s) + k]; }
    }
    TrimWhiteSuffix(r, q);
  }

  /** One value with its white padding taken off both ends. */
  lemma TrimOne(x: string, delims: set<char>) returns (p: string, y: string, q: string)
    ensures x == p + y + q && AllWhite(p) && AllWhite(q)
    ensures y == [] || (!IsWhite(y[0]) && !IsWhite(y[|y| - 1]))
    ensures Trim(y) == Trim(x)
    ensures Tokenizer.Free(x, delims) ==> Tokenizer.Free(y, delims)
  {
    var a;
    p, a := SplitLead(x, delims);
    y, q := SplitTrail(a, delims);
  }

  /** Several values: the padding comes off the front of the first and the
      back of the last; the values between are kept. */
  lemma TrimMany(xs: seq<string>, delims: set<char>) returns (ys: seq<string>, p: string, q: string)
    requires |xs| > 1
    requires forall i :: 0 <= i < |xs| ==> Tokenizer.Free(xs[i], delims)
    ensures AllWhite(p) && AllWhite(q)
    ensures |xs| == |ys|
    ensures forall i :: 0 < i < |xs| - 1 ==> ys[i] == xs[i]
    ensures xs[0] == p + ys[0] && xs[|xs| - 1] == ys[|ys| - 1] + q
    ensures ys[0] == [] || !IsWhite(ys[0][0])
    ensures ys[|ys| - 1] == [] || !IsWhite(ys[|ys| - 1][|ys[|ys| - 1]| - 1])
    ensures forall i :: 0 <= i < |xs| ==> Tokenizer.Free(ys[i], delims) && Trim(ys[i]) == Trim(xs[i])
  {
    var n := |xs|;
    var a, b;
    p, a := SplitLead(xs[0], delims);
    b, q := SplitTrail(xs[n - 1], delims);
    ys := ReplaceEnds(xs, a, b, delims);
    assert ys[0] == a && ys[n - 1] == b;
  }

  /** Replacing the first and last values by ones with the same trim keeps
      every value's trim and delimiter-freedom. */
  lemma ReplaceEnds(xs: seq<string>, a: string, b: string, delims: set<char>) returns (ys: seq<string>)
    requires |xs| > 1
    requires forall i :: 0 <= i < |xs| ==> Tokenizer.Free(xs[i], delims)
    requires Tokenizer.Free(a, delims) && Trim(a) == Trim(xs[0])
    requires Tokenizer.Free(b, delims) && Trim(b) == Trim(xs[|xs| - 1])
    ensures ys == xs[0 := a][|xs| - 1 := b]
    ensures forall i :: 0 <= i < |xs| ==> Tokenizer.Free(ys[i], delims) && Trim(ys[i]) == Trim(xs[i])
  {
    ys := xs[0 := a][|xs| - 1 := b];
  }

  /** The values with the white padding of the whole joined list taken off
      its two ends, in the shape `JoinTrimEnds` takes. */
  lemma TrimPieces(xs: seq<string>, delims: set<char>) returns (ys: seq<string>, p: string, q: string)
    requires xs != []
    requires forall i :: 0 <= i < |xs| ==> Tokenizer.Free(xs[i], delims)
    ensures AllWhite(p) && AllWhite(q)
    ensures |xs| == |ys|
    ensures forall i :: 0 < i < |xs| - 1 ==> ys[i] == xs[i]
    ensures |xs| == 1 ==> xs[0] == p + ys[0] + q
    ensures |xs| > 1 ==> xs[0] == p + ys[0] && xs[|xs| - 1] == ys[|ys| - 1] + q
    ensures ys[0] == [] || !IsWhite(ys[0][0])
    ensures ys[|ys| - 1] == [] || !IsWhite(ys[|ys| - 1][|ys[|ys| - 1]| - 1])
    ensures forall i :: 0 <= i < |xs| ==> Tokenizer.Free(ys[i], delims) && Trim(ys[i]) == Trim(xs[i])
  {
    if |xs| == 1 {
      var y;
      p, y, q := TrimOne(xs[0], delims);
      ys := [y];
    } else {
      ys, p, q := TrimMany(xs, delims);
    }
  }

  /** `toList` on values joined by a non-white delimiter character gives the
      trimmed values in order, without those that are blank: padding around a
      value and empty or blank entries never reach the list. */
  lemma ToListTrimsValues(xs: seq<string>, d: char)
    requires !IsWhite(d)
    requires forall i :: 0 <= i < |xs| ==> Tokenizer.Free(xs[i], {d})
    requires !IsEmpty(Some(Tokenizer.Join(xs, d)))
    ensures ToList(Some(Tokenizer.Join(xs, d)), Some([d])) == Success(Some(TrimTokens(xs)))
  {
    assert xs != [];
    assert DelimiterSet([d]) == {d} by {
      assert forall c :: c in DelimiterSet([d]) <==> c == d;
    }
    var ys, p, q := TrimPieces(xs, {d});
    JoinTrimEnds(xs, ys, p, q, d);
    Tokenizer.TokenizeJoinAll(ys, d, {d});
    TrimTokensNonEmpty(ys);
    TrimTokensPointwise(ys, xs);
  }

  /** Joining normalised values gives a normalised string. */
  lemma {:induction false} JoinNormal(xs: seq<string>, d: char)
    requires xs != []
    requires forall i :: 0 <= i < |xs| ==> Normal(Some(xs[i]))
    ensures Normal(Some(Tokenizer.Join(xs, d)))
    decreases |xs|
  {
    if |xs| > 1 {
      assert Normal(Some(xs[0]));
      JoinNormal(xs[1..], d);
      var rest := Tokenizer.Join(xs[1..], d);
      var j := Tokenizer.Join(xs, d);
      assert j == xs[0] + [d] + rest;
      assert j[0] == xs[0][0];
      assert j[|j| - 1] == rest[|rest| - 1];
    }
  }
}
