/**
 * The tokenizer of `add_virtual_column`: Python's `str.strip()` followed by
 * `re.split(r'\s*([+\-*])\s*', ...)`.
 */
module Tokens {
  import opened Wrappers

  /**
   * A character Python counts as whitespace: the set behind `str.isspace()`,
   * which is also what `str.strip()` removes and what `\s` matches in a
   * `str` pattern.
   */
  predicate IsSpace(c: char) {
    ('\t' <= c <= '\r') || ('\U{1C}' <= c <= ' ') || c == '\U{85}' || c == '\U{A0}'
    || c == '\U{1680}' || ('\U{2000}' <= c <= '\U{200A}') || c == '\U{2028}' || c == '\U{2029}'
    || c == '\U{202F}' || c == '\U{205F}' || c == '\U{3000}'
  }

  /** A character of the class `[+\-*]`. */
  predicate IsOp(c: char) {
    c == '+' || c == '-' || c == '*'
  }

  /** One of the allowed operator tokens `+`, `-`, `*`. */
  predicate IsOperatorToken(t: string) {
    t == "+" || t == "-" || t == "*"
  }

  predicate AllSpace(s: string) {
    forall i :: 0 <= i < |s| ==> IsSpace(s[i])
  }

  predicate NoOp(s: string) {
    forall i :: 0 <= i < |s| ==> !IsOp(s[i])
  }

  predicate NoLeadingSpace(s: string) {
    |s| == 0 || !IsSpace(s[0])
  }

  predicate NoTrailingSpace(s: string) {
    |s| == 0 || !IsSpace(s[|s| - 1])
  }

  /** `n` is the length of the whitespace run that starts `s`. */
  predicate IsLeadingRun(s: string, n: nat) {
    n <= |s| && AllSpace(s[..n]) && (n == |s| || !IsSpace(s[n]))
  }

  /** `n` is the length of the whitespace run that ends `s`. */
  predicate IsTrailingRun(s: string, n: nat) {
    n <= |s| && AllSpace(s[|s| - n..]) && (n == |s| || !IsSpace(s[|s| - n - 1]))
  }

  lemma {:induction false} LeadingRunExists(s: string)
    ensures exists n :: 0 <= n <= |s| && IsLeadingRun(s, n)
    decreases |s|
  {
    if |s| == 0 || !IsSpace(s[0]) {
      assert IsLeadingRun(s, 0);
    } else {
      LeadingRunExists(s[1..]);
      var n :| 0 <= n <= |s[1..]| && IsLeadingRun(s[1..], n);
      assert s[..n + 1] == [s[0]] + s[1..][..n];
      assert n + 1 == |s| || s[n + 1] == s[1..][n];
      assert IsLeadingRun(s, n + 1);
    }
  }

  lemma LeadingRunUnique(s: string)
    ensures forall a, b :: IsLeadingRun(s, a) && IsLeadingRun(s, b) ==> a == b
  {
    forall a: nat, b: nat | IsLeadingRun(s, a) && IsLeadingRun(s, b) ensures a == b {
    }
  }

  lemma {:induction false} TrailingRunExists(s: string)
    ensures exists n :: 0 <= n <= |s| && IsTrailingRun(s, n)
    decreases |s|
  {
    if |s| == 0 || !IsSpace(s[|s| - 1]) {
      assert IsTrailingRun(s, 0);
    } else {
      var init := s[..|s| - 1];
      TrailingRunExists(init);
      var n :| 0 <= n <= |init| && IsTrailingRun(init, n);
      assert s[|s| - (n + 1)..] == init[|init| - n..] + [s[|s| - 1]];
      AllSpaceConcat(init[|init| - n..], [s[|s| - 1]]);
      assert n + 1 == |s| || s[|s| - (n + 1) - 1] == init[|init| - n - 1];
      assert IsTrailingRun(s, n + 1);
    }
  }

  lemma TrailingRunUnique(s: string)
    ensures forall a, b :: IsTrailingRun(s, a) && IsTrailingRun(s, b) ==> a == b
  {
    forall a: nat, b: nat | IsTrailingRun(s, a) && IsTrailingRun(s, b) ensures a == b {
    }
  }

  /** The length of the whitespace run that starts `s`. */
  function LeadingSpaces(s: string): (n: nat)
    ensures n <= |s| && AllSpace(s[..n])
    ensures n == |s| || !IsSpace(s[n])
  {
    LeadingRunExists(s);
    LeadingRunUnique(s);
    var n :| 0 <= n <= |s| && IsLeadingRun(s, n);
    n
  }

  /** The length of the whitespace run that ends `s`. */
  function TrailingSpaces(s: string): (n: nat)
    ensures n <= |s| && AllSpace(s[|s| - n..])
    ensures n == |s| || !IsSpace(s[|s| - n - 1])
  {
    TrailingRunExists(s);
    TrailingRunUnique(s);
    var n :| 0 <= n <= |s| && IsTrailingRun(s, n);
    n
  }

  /** Any length that has the defining property is the leading run. */
  lemma LeadingSpacesIs(s: string, n: nat)
    requires IsLeadingRun(s, n)
    ensures LeadingSpaces(s) == n
  {
    LeadingRunUnique(s);
    assert IsLeadingRun(s, LeadingSpaces(s));
  }

  /** Any length that has the defining property is the trailing run. */
  lemma TrailingSpacesIs(s: string, n: nat)
    requires IsTrailingRun(s, n)
    ensures TrailingSpaces(s) == n
  {
    TrailingRunUnique(s);
    assert IsTrailingRun(s, TrailingSpaces(s));
  }

  /** `s` with its leading whitespace removed (`str.lstrip()`). */
  function TrimLeft(s: string): (r: string)
    ensures NoLeadingSpace(r)
  {
    s[LeadingSpaces(s)..]
  }

  /** `s` with its trailing whitespace removed (`str.rstrip()`). */
  function TrimRight(s: string): (r: string)
    ensures NoTrailingSpace(r)
  {
    s[..|s| - TrailingSpaces(s)]
  }

  /** `str.strip()`: whitespace removed at both ends, nothing else touched. */
  function Strip(s: string): (r: string)
    ensures NoLeadingSpace(r) && NoTrailingSpace(r)
    ensures NoLeadingSpace(s) && NoTrailingSpace(s) ==> r == s
  {
    TrimRight(TrimLeft(s))
  }

  /** `k` is the index of the first operator character of `s`. */
  predicate IsFirstOp(s: string, k: nat) {
    k < |s| && IsOp(s[k]) && NoOp(s[..k])
  }

  lemma {:induction false} FirstOpExists(s: string)
    requires !NoOp(s)
    ensures exists k :: 0 <= k < |s| && IsFirstOp(s, k)
    decreases |s|
  {
    if IsOp(s[0]) {
      assert IsFirstOp(s, 0);
    } else {
      assert !NoOp(s[1..]) by {
        var i :| 0 <= i < |s| && IsOp(s[i]);
        assert s[1..][i - 1] == s[i];
      }
      FirstOpExists(s[1..]);
      var k :| 0 <= k < |s[1..]| && IsFirstOp(s[1..], k);
      assert s[..k + 1] == [s[0]] + s[1..][..k];
      assert IsFirstOp(s, k + 1);
    }
  }

  lemma FirstOpUnique(s: string)
    ensures forall a, b :: IsFirstOp(s, a) && IsFirstOp(s, b) ==> a == b
  {
    forall a: nat, b: nat | IsFirstOp(s, a) && IsFirstOp(s, b) ensures a == b {
    }
  }

  /** The index of the first operator character of `s`, if there is one. */
  function FirstOp(s: string): (r: Option<nat>)
    ensures r.None? <==> NoOp(s)
    ensures r.Some? ==> r.value < |s| && IsOp(s[r.value]) && NoOp(s[..r.value])
  {
    if NoOp(s) then None
    else
      FirstOpExists(s);
      FirstOpUnique(s);
      var k :| 0 <= k < |s| && IsFirstOp(s, k);
      Some(k)
  }

  /** Any index that has the defining property is the first operator. */
  lemma FirstOpIs(s: string, k: nat)
    requires IsFirstOp(s, k)
    ensures FirstOp(s) == Some(k)
  {
    FirstOpUnique(s);
    assert IsFirstOp(s, FirstOp(s).value);
  }

  /**
   * The structure every result of `Split` has: operand pieces free of
   * operator characters alternating with single operator tokens, starting
   * and ending with an operand piece, and no whitespace where an operand
   * piece meets an operator.
   */
  predicate Tokenized(toks: seq<string>)
    decreases |toks|
  {
    if |toks| == 1 then NoOp(toks[0])
    else
      && |toks| >= 3
      && NoOp(toks[0]) && NoTrailingSpace(toks[0])
      && IsOperatorToken(toks[1])
      && NoLeadingSpace(toks[2])
      && Tokenized(toks[2..])
  }

  /** The index view of `Tokenized`: operands at even indices, operators at odd ones. */
  lemma {:induction false} TokenizedAt(toks: seq<string>, i: nat)
    requires Tokenized(toks) && i < |toks|
    ensures |toks| % 2 == 1
    ensures i % 2 == 1 ==> IsOperatorToken(toks[i])
    ensures i % 2 == 0 ==> NoOp(toks[i])
    ensures i % 2 == 0 && 0 < i ==> NoLeadingSpace(toks[i])
    ensures i % 2 == 0 && i < |toks| - 1 ==> NoTrailingSpace(toks[i])
    decreases |toks|
  {
    if |toks| > 1 {
      if i >= 2 {
        TokenizedAt(toks[2..], i - 2);
      } else {
        TokenizedAt(toks[2..], 0);
      }
    }
  }

  /**
   * `re.split(r'\s*([+\-*])\s*', s)`. The leftmost match of the pattern
   * starts at the whitespace run just before the first operator character
   * and ends after the whitespace run that follows it; the captured
   * operator is kept as a token of its own.
   */
  function Split(s: string): (r: seq<string>)
    ensures |r| == 2 * OpCount(s) + 1
    decreases |s|
  {
    var first := FirstOp(s);
    if first.None? then
      OpCountNoOp(s);
      [s]
    else
      var k := first.value;
      OpCountPastFirstOp(s, k);
      [TrimRight(s[..k]), [s[k]]] + Split(TrimLeft(s[k + 1..]))
  }

  /** The number of operator characters in `s`. */
  function OpCount(s: string): nat
    decreases |s|
  {
    if |s| == 0 then 0 else (if IsOp(s[0]) then 1 else 0) + OpCount(s[1..])
  }

  lemma {:induction false} OpCountAppend(a: string, b: string)
    ensures OpCount(a + b) == OpCount(a) + OpCount(b)
    decreases |a|
  {
    if |a| > 0 {
      assert (a + b)[0] == a[0] && (a + b)[1..] == a[1..] + b;
      OpCountAppend(a[1..], b);
    } else {
      assert a + b == b;
    }
  }

  lemma {:induction false} OpCountNoOp(s: string)
    requires NoOp(s)
    ensures OpCount(s) == 0
    decreases |s|
  {
    if |s| > 0 {
      assert !IsOp(s[0]);
      assert NoOp(s[1..]) by {
        forall i | 0 <= i < |s[1..]| ensures !IsOp(s[1..][i]) {
          assert s[1..][i] == s[i + 1];
        }
      }
      OpCountNoOp(s[1..]);
    }
  }

  /** Removing whitespace from `w + x` at its front keeps every operator. */
  lemma OpCountOfSpace(w: string, x: string)
    requires AllSpace(w)
    ensures OpCount(w + x) == OpCount(x)
  {
    OpCountAppend(w, x);
    AllSpaceNoOp(w);
    OpCountNoOp(w);
  }

  /** The first operator is one of `s`, and every later one is past it and its whitespace. */
  lemma OpCountPastFirstOp(s: string, k: nat)
    requires k < |s| && IsOp(s[k]) && NoOp(s[..k])
    ensures OpCount(s) == 1 + OpCount(TrimLeft(s[k + 1..]))
  {
    var after := s[k + 1..];
    CutAt(s, k);
    assert s == s[..k] + ([s[k]] + after);
    OpCountAppend(s[..k], [s[k]] + after);
    OpCountNoOp(s[..k]);
    OpCountAppend([s[k]], after);
    assert OpCount([s[k]]) == 1 by {
      assert [s[k]][1..] == [];
    }
    var w := TrimLeftCut(after);
    OpCountOfSpace(w, TrimLeft(after));
  }

  /**
   * `str.strip()` removes whitespace at the two ends and nothing else: `s`
   * is a whitespace run, the stripped string, and another whitespace run.
   */
  lemma StripCut(s: string) returns (w1: string, w2: string)
    ensures AllSpace(w1) && AllSpace(w2)
    ensures s == w1 + Strip(s) + w2
  {
    w1 := TrimLeftCut(s);
    w2 := TrimRightCut(TrimLeft(s));
  }

  /** Stripping keeps every operator character. */
  lemma StripKeepsOps(s: string)
    ensures OpCount(Strip(s)) == OpCount(s)
  {
    var w1, w2 := StripCut(s);
    OpCountAppend(w1 + Strip(s), w2);
    AllSpaceNoOp(w2);
    OpCountNoOp(w2);
    OpCountOfSpace(w1, Strip(s));
  }

  // Small facts about strings, each proved in a context of its own.

  lemma Assoc(a: string, b: string, c: string)
    ensures (a + b) + c == a + (b + c)
  {
  }

  lemma CutAt(s: string, k: nat)
    requires k < |s|
    ensures s == s[..k] + [s[k]] + s[k + 1..]
  {
  }

  lemma AllSpaceNoOp(w: string)
    requires AllSpace(w)
    ensures NoOp(w)
  {
    forall i | 0 <= i < |w| ensures !IsOp(w[i]) {
      assert IsSpace(w[i]);
    }
  }

  lemma AllSpaceConcat(v: string, w: string)
    requires AllSpace(v) && AllSpace(w)
    ensures AllSpace(v + w)
  {
    forall i | 0 <= i < |v + w| ensures IsSpace((v + w)[i]) {
      if i >= |v| { assert (v + w)[i] == w[i - |v|]; }
    }
  }

  lemma NoOpConcat(v: string, w: string)
    requires NoOp(v) && NoOp(w)
    ensures NoOp(v + w)
  {
    forall i | 0 <= i < |v + w| ensures !IsOp((v + w)[i]) {
      if i >= |v| { assert (v + w)[i] == w[i - |v|]; }
    }
  }

  /** `x` is its trimmed part followed by a whitespace run. */
  lemma TrimRightCut(x: string) returns (w: string)
    ensures x == TrimRight(x) + w && AllSpace(w)
  {
    w := x[|x| - TrailingSpaces(x)..];
  }

  /** `x` is a whitespace run followed by its trimmed part. */
  lemma TrimLeftCut(x: string) returns (w: string)
    ensures x == w + TrimLeft(x) && AllSpace(w)
  {
    w := x[..LeadingSpaces(x)];
  }

  lemma TrimRightNoOp(x: string)
    requires NoOp(x)
    ensures NoOp(TrimRight(x))
  {
    var w := TrimRightCut(x);
    forall i | 0 <= i < |TrimRight(x)| ensures !IsOp(TrimRight(x)[i]) {
      assert TrimRight(x)[i] == x[i];
    }
  }

  lemma {:induction false} LeadingSpacesOf(w: string, x: string)
    requires AllSpace(w) && NoLeadingSpace(x)
    ensures LeadingSpaces(w + x) == |w|
    decreases |w|
  {
    if |w| > 0 {
      assert (w + x)[1..] == w[1..] + x;
      LeadingSpacesOf(w[1..], x);
    } else {
      assert w + x == x;
    }
  }

  lemma {:induction false} TrailingSpacesOf(x: string, w: string)
    requires NoTrailingSpace(x) && AllSpace(w)
    ensures TrailingSpaces(x + w) == |w|
    decreases |w|
  {
    if |w| > 0 {
      assert (x + w)[..|x + w| - 1] == x + w[..|w| - 1];
      TrailingSpacesOf(x, w[..|w| - 1]);
    } else {
      assert x + w == x;
    }
  }

  lemma TrimLeftOfSpace(w: string, x: string)
    requires AllSpace(w) && NoLeadingSpace(x)
    ensures TrimLeft(w + x) == x
  {
    LeadingSpacesOf(w, x);
    assert (w + x)[|w|..] == x;
  }

  lemma TrimRightOfSpace(x: string, w: string)
    requires NoTrailingSpace(x) && AllSpace(w)
    ensures TrimRight(x + w) == x
  {
    TrailingSpacesOf(x, w);
    assert (x + w)[..|x|] == x;
  }

  /** Trimming the front of `x + y` stops inside `x` or at the start of `y`. */
  lemma TrimLeftAppend(x: string, y: string)
    requires |y| > 0 && !IsSpace(y[0])
    ensures TrimLeft(x + y) == TrimLeft(x) + y
  {
    var n := LeadingSpaces(x);
    assert (x + y)[..n] == x[..n];
    assert n == |x| ==> (x + y)[n] == y[0];
    assert n < |x| ==> (x + y)[n] == x[n];
    LeadingSpacesIs(x + y, n);
    assert (x + y)[n..] == x[n..] + y;
  }

  lemma {:induction false} FirstOpAt(p: string, c: char, q: string)
    requires NoOp(p) && IsOp(c)
    ensures FirstOp(p + [c] + q) == Some(|p|)
    decreases |p|
  {
    if |p| > 0 {
      assert (p + [c] + q)[1..] == p[1..] + [c] + q;
      FirstOpAt(p[1..], c, q);
    } else {
      assert (p + [c] + q)[0] == c;
    }
  }

  // Unfolding `Split` once.

  lemma SplitNoOp(s: string)
    requires NoOp(s)
    ensures Split(s) == [s]
  {
  }

  /** Where the first operator is known, `Split` cuts there. */
  lemma SplitAfterOp(a: string, o: char, tail: string)
    requires NoOp(a) && IsOp(o)
    ensures Split(a + [o] + tail) == [TrimRight(a), [o]] + Split(TrimLeft(tail))
  {
    var s := a + [o] + tail;
    FirstOpAt(a, o, tail);
    assert s[..|a|] == a && s[|a|] == o && s[|a| + 1..] == tail;
  }

  /** `Split` cuts a string with an operator at its first operator. */
  lemma SplitAtFirstOp(s: string) returns (a: string, o: char, tail: string)
    requires FirstOp(s).Some?
    ensures s == a + [o] + tail && NoOp(a) && IsOp(o)
    ensures Split(s) == [TrimRight(a), [o]] + Split(TrimLeft(tail))
  {
    var k := FirstOp(s).value;
    a, o, tail := s[..k], s[k], s[k + 1..];
    CutAt(s, k);
  }

  lemma TokenizedCons(operand: string, op: string, tail: seq<string>)
    requires NoOp(operand) && NoTrailingSpace(operand) && IsOperatorToken(op)
    requires Tokenized(tail) && NoLeadingSpace(tail[0])
    ensures Tokenized([operand, op] + tail)
  {
    var r := [operand, op] + tail;
    assert r[2..] == tail;
  }

  /**
   * The shape of every result of `Split`; when `s` has no whitespace at its
   * ends, as after `str.strip()`, no token has whitespace at either end.
   */
  lemma {:induction false} SplitTokenized(s: string)
    ensures Tokenized(Split(s))
    ensures NoLeadingSpace(s) ==> NoLeadingSpace(Split(s)[0])
    ensures NoTrailingSpace(s) ==> NoTrailingSpace(Split(s)[|Split(s)| - 1])
    decreases |s|
  {
    if FirstOp(s).None? {
      SplitNoOp(s);
    } else {
      var a, o, tail := SplitAtFirstOp(s);
      var rest := TrimLeft(tail);
      var g1 := TrimLeftCut(tail);
      assert |rest| < |s|;
      SplitTokenized(rest);
      TrimRightNoOp(a);
      assert [o] == [o];
      TokenizedCons(TrimRight(a), [o], Split(rest));
      assert NoTrailingSpace(s) ==> NoTrailingSpace(rest) by {
        if |rest| > 0 {
          Assoc(a + [o], g1, rest);
          assert rest[|rest| - 1] == s[|s| - 1];
        }
      }
      assert NoLeadingSpace(s) ==> NoLeadingSpace(TrimRight(a)) by {
        var g0 := TrimRightCut(a);
        if |TrimRight(a)| > 0 {
          assert TrimRight(a)[0] == a[0] == s[0];
        }
      }
      assert Split(s)[2..] == Split(rest);
    }
  }

  /** The tokens put back together with a gap string after each but the last. */
  function Weave(toks: seq<string>, gaps: seq<string>): string
    requires |toks| == |gaps| + 1
    decreases |gaps|
  {
    if |gaps| == 0 then toks[0] else toks[0] + gaps[0] + Weave(toks[1..], gaps[1..])
  }

  predicate AllGapsSpace(gaps: seq<string>) {
    forall i :: 0 <= i < |gaps| ==> AllSpace(gaps[i])
  }

  lemma WeaveCons(a: string, g0: string, op: string, g1: string, toks: seq<string>, gaps: seq<string>)
    requires |toks| == |gaps| + 1
    ensures Weave([a, op] + toks, [g0, g1] + gaps) == (a + g0) + op + (g1 + Weave(toks, gaps))
  {
    var ts, gs := [a, op] + toks, [g0, g1] + gaps;
    assert ts[1..][1..] == toks && gs[1..][1..] == gaps;
    assert ts[1..][0] == op && gs[1..][0] == g1;
    Assoc(op, g1, Weave(toks, gaps));
    Assoc(a + g0, op, g1 + Weave(toks, gaps));
  }

  /**
   * Splitting loses only whitespace next to operators: `s` is its tokens
   * with a whitespace gap between each two of them. With every gap empty,
   * this is the concatenation of the tokens.
   */
  lemma {:induction false} SplitReassembles(s: string) returns (gaps: seq<string>)
    ensures |gaps| + 1 == |Split(s)| && AllGapsSpace(gaps)
    ensures Weave(Split(s), gaps) == s
    decreases |s|
  {
    if FirstOp(s).None? {
      SplitNoOp(s);
      gaps := [];
    } else {
      var a, o, tail := SplitAtFirstOp(s);
      var g0 := TrimRightCut(a);
      var g1 := TrimLeftCut(tail);
      var rest := TrimLeft(tail);
      var more := SplitReassembles(rest);
      gaps := [g0, g1] + more;
      WeaveCons(TrimRight(a), g0, [o], g1, Split(rest), more);
      assert AllGapsSpace(gaps) by {
        forall i | 0 <= i < |gaps| ensures AllSpace(gaps[i]) {
          if i >= 2 { assert gaps[i] == more[i - 2]; }
        }
      }
    }
  }

  /**
   * Leading whitespace before a woven token sequence whose first token does
   * not start with whitespace is absorbed into the gaps.
   */
  lemma TrimLeftWeave(w: string, toks: seq<string>, gaps: seq<string>) returns (gaps': seq<string>)
    requires |toks| == |gaps| + 1 && Tokenized(toks) && AllGapsSpace(gaps)
    requires AllSpace(w) && NoLeadingSpace(toks[0])
    ensures |gaps'| == |gaps| && AllGapsSpace(gaps')
    ensures TrimLeft(w + Weave(toks, gaps)) == Weave(toks, gaps')
  {
    if |toks[0]| > 0 || |gaps| == 0 {
      gaps' := gaps;
      if |toks[0]| > 0 {
        assert Weave(toks, gaps)[0] == toks[0][0];
      }
      TrimLeftOfSpace(w, Weave(toks, gaps));
    } else {
      gaps' := [""] + gaps[1..];
      var y := Weave(toks[1..], gaps[1..]);
      assert y[0] == toks[1][0];
      assert w + Weave(toks, gaps) == (w + gaps[0]) + y;
      AllSpaceConcat(w, gaps[0]);
      TrimLeftOfSpace(w + gaps[0], y);
      assert gaps'[1..] == gaps[1..];
      assert AllGapsSpace(gaps') by {
        forall i | 0 <= i < |gaps'| ensures AllSpace(gaps'[i]) {
          if i > 0 { assert gaps'[i] == gaps[i]; }
        }
      }
    }
  }

  /**
   * The converse of `SplitReassembles`: any tokenized sequence woven with
   * whitespace gaps splits back into exactly those tokens, so `Split(s)` is
   * the only tokenized sequence that reassembles to `s`.
   */
  lemma {:induction false} WeaveSplits(toks: seq<string>, gaps: seq<string>)
    requires |toks| == |gaps| + 1 && Tokenized(toks) && AllGapsSpace(gaps)
    ensures Split(Weave(toks, gaps)) == toks
    decreases |gaps|
  {
    if |gaps| == 0 {
      SplitNoOp(toks[0]);
      assert toks == [toks[0]];
    } else {
      var t0, g0, op, g1 := toks[0], gaps[0], toks[1], gaps[1];
      var tail, tailGaps := toks[2..], gaps[2..];
      assert toks == [t0, op] + tail && gaps == [g0, g1] + tailGaps;
      WeaveCons(t0, g0, op, g1, tail, tailGaps);
      assert op == [op[0]];
      assert AllGapsSpace(tailGaps) by {
        forall i | 0 <= i < |tailGaps| ensures AllSpace(tailGaps[i]) {
          assert tailGaps[i] == gaps[i + 2];
        }
      }
      var w2 := Weave(tail, tailGaps);
      var gaps' := TrimLeftWeave(g1, tail, tailGaps);
      AllSpaceNoOp(g0);
      NoOpConcat(t0, g0);
      SplitAfterOp(t0 + g0, op[0], g1 + w2);
      TrimRightOfSpace(t0, g0);
      WeaveSplits(tail, gaps');
    }
  }

  /** A leading operator leaves an empty first operand. */
  lemma LeadingOpGivesEmptyOperand(o: char, b: string)
    requires IsOp(o)
    ensures Split([o] + b)[0] == ""
  {
    assert ([o] + b)[0] == o && ([o] + b)[..0] == [];
    FirstOpIs([o] + b, 0);
  }

  /** A trailing operator leaves an empty last operand. */
  lemma {:induction false} TrailingOpGivesEmptyOperand(a: string, o: char)
    requires IsOp(o)
    ensures Split(a + [o])[|Split(a + [o])| - 1] == ""
    decreases |a|
  {
    assert a + [o] == a + [o] + "";
    if FirstOp(a).None? {
      SplitAfterOp(a, o, "");
      SplitNoOp(TrimLeft(""));
    } else {
      var rest := SplitPastOperatorIn(a, o, "");
      assert rest + [o] == rest + [o] + "";
      TrailingOpGivesEmptyOperand(rest, o);
    }
  }

  /**
   * When `a` holds an operator, splitting `a + [o] + after` first cuts
   * inside `a` and continues on a shorter string ending in `[o] + after`.
   */
  lemma SplitPastOperatorIn(a: string, o: char, after: string) returns (rest: string)
    requires FirstOp(a).Some? && IsOp(o)
    ensures |rest| < |a|
    ensures |Split(a + [o] + after)| >= 2
    ensures Split(a + [o] + after)[2..] == Split(rest + [o] + after)
  {
    var k := FirstOp(a).value;
    var y := [o] + after;
    var x := a + y;
    FirstOpExtend(a, y);
    SplitHead(x);
    rest := TrimLeft(a[k + 1..]);
    TrimLeftBeforeOp(a, k, o, after);
    assert a + [o] + after == x && rest + [o] + after == rest + y;
  }

  /** Past position `k` of `a`, trimming the front of `a + [o] + after` stops inside `a` or at `o`. */
  lemma TrimLeftBeforeOp(a: string, k: nat, o: char, after: string)
    requires k < |a| && IsOp(o)
    ensures TrimLeft((a + ([o] + after))[k + 1..]) == TrimLeft(a[k + 1..]) + ([o] + after)
  {
    var y := [o] + after;
    assert (a + y)[k + 1..] == a[k + 1..] + y;
    assert y[0] == o;
    TrimLeftAppend(a[k + 1..], y);
  }

  lemma {:induction false} FirstOpExtend(a: string, y: string)
    requires FirstOp(a).Some?
    ensures FirstOp(a + y) == FirstOp(a)
  {
    var k := FirstOp(a).value;
    assert (a + y)[k] == a[k];
    forall i | 0 <= i < k ensures !IsOp((a + y)[i]) {
      assert (a + y)[i] == a[i];
    }
  }

  /** Two operators with only whitespace between them leave an empty operand. */
  lemma {:induction false} DoubledOpGivesEmptyOperand(a: string, o1: char, w: string, o2: char, b: string)
    requires IsOp(o1) && AllSpace(w) && IsOp(o2)
    ensures "" in Split(a + [o1] + (w + [o2] + b))
    decreases |a|
  {
    var after := w + [o2] + b;
    if FirstOp(a).None? {
      DoubledOpAtFirst(a, o1, w, o2, b);
    } else {
      var rest := SplitPastOperatorIn(a, o1, after);
      DoubledOpGivesEmptyOperand(rest, o1, w, o2, b);
      InSplitTail(a + [o1] + after, rest + [o1] + after);
    }
  }

  /** When `o1` is the first operator, the operand after it is empty. */
  lemma DoubledOpAtFirst(a: string, o1: char, w: string, o2: char, b: string)
    requires IsOp(o1) && AllSpace(w) && IsOp(o2) && NoOp(a)
    ensures |Split(a + [o1] + (w + [o2] + b))| > 2 && Split(a + [o1] + (w + [o2] + b))[2] == ""
  {
    SplitAfterOp(a, o1, w + [o2] + b);
    Assoc(w, [o2], b);
    TrimLeftOfSpace(w, [o2] + b);
    LeadingOpGivesEmptyOperand(o2, b);
  }

  /** A token of the split continued past the first cut is a token of the whole split. */
  lemma InSplitTail(s: string, rest: string)
    requires |Split(s)| >= 2 && Split(s)[2..] == Split(rest) && "" in Split(rest)
    ensures "" in Split(s)
  {
    var r := Split(s);
    assert "" in r[2..];
  }

  /** One unfolding of `Split` at its first operator. */
  lemma SplitHead(s: string)
    requires FirstOp(s).Some?
    ensures |Split(s)| >= 2 && Split(s)[0] == TrimRight(s[..FirstOp(s).value])
    ensures Split(s)[2..] == Split(TrimLeft(s[FirstOp(s).value + 1..]))
  {
  }

  /** Trimming the end of `a` keeps every position up to a non-space one. */
  lemma TrimRightKeeps(a: string, j: nat)
    requires j < |a| && !IsSpace(a[j])
    ensures j < |TrimRight(a)| && TrimRight(a) == a[..|TrimRight(a)|]
  {
  }

  /** Trimming the front of `a` stops at or before a non-space position. */
  lemma TrimLeftStops(a: string, i: nat) returns (d: nat)
    requires i < |a| && !IsSpace(a[i])
    ensures d <= i && TrimLeft(a) == a[d..]
  {
    d := LeadingSpaces(a);
  }

  /** Where `Split` continues after the first operator: past it and the whitespace that follows. */
  function Resume(s: string): (e: nat)
    requires FirstOp(s).Some?
    ensures FirstOp(s).value < e <= |s|
  {
    var k := FirstOp(s).value;
    k + 1 + LeadingSpaces(s[k + 1..])
  }

  /** Past the first operator, splitting continues on the suffix from `Resume(s)`. */
  lemma SplitResumes(s: string)
    requires FirstOp(s).Some?
    ensures |Split(s)| >= 2 && Split(s)[2..] == Split(s[Resume(s)..])
  {
    var k := FirstOp(s).value;
    SplitHead(s);
    assert s[k + 1..][LeadingSpaces(s[k + 1..])..] == s[Resume(s)..];
  }

  /** Splitting resumes at or before any non-space position past the first operator. */
  lemma ResumeBefore(s: string, i: nat)
    requires FirstOp(s).Some? && FirstOp(s).value < i < |s| && !IsSpace(s[i])
    ensures Resume(s) <= i
  {
    var k := FirstOp(s).value;
    var tail := s[k + 1..];
    assert tail[i - (k + 1)] == s[i];
    var d := TrimLeftStops(tail, i - (k + 1));
    assert d == LeadingSpaces(tail);
  }

  /** Before the first operator, the first token keeps `s` up to any non-space position. */
  lemma FirstTokenKeeps(s: string, j: nat)
    requires FirstOp(s).Some? && j < FirstOp(s).value && !IsSpace(s[j])
    ensures j < |Split(s)[0]| && Split(s)[0] == s[..|Split(s)[0]|]
  {
    var k := FirstOp(s).value;
    SplitHead(s);
    var a := s[..k];
    assert a[j] == s[j];
    TrimRightKeeps(a, j);
  }

  /**
   * Whitespace between two characters that are neither whitespace nor
   * operators is not a split point: it stays inside one token, before that
   * token's last character.
   */
  lemma {:induction false} SpaceInsideOperand(s: string, i: nat, j: nat) returns (n: nat, m: nat)
    requires i + 1 < j && Gap(s, i, j)
    ensures SpaceInToken(Split(s), n, m)
    decreases |s|
  {
    if FirstOp(s).None? || j < FirstOp(s).value {
      SpaceInFirstToken(s, i, j);
      n, m := 0, i + 1;
    } else {
      var rest, i', j' := GapPastFirstOp(s, i, j);
      var n', m' := SpaceInsideOperand(rest, i', j');
      n, m := SpaceInResumedToken(s, n', m');
    }
  }

  /** `toks[n][m]` is whitespace, and not the last character of its token. */
  predicate SpaceInToken(toks: seq<string>, n: nat, m: nat) {
    n < |toks| && m + 1 < |toks[n]| && IsSpace(toks[n][m])
  }

  /** A whitespace character inside a token of the resumed split is one inside a token of `s`. */
  lemma SpaceInResumedToken(s: string, n': nat, m': nat) returns (n: nat, m: nat)
    requires FirstOp(s).Some? && SpaceInToken(Split(s[Resume(s)..]), n', m')
    ensures SpaceInToken(Split(s), n, m)
  {
    SplitResumes(s);
    n, m := n' + 2, m';
    assert Split(s)[n] == Split(s[Resume(s)..])[n'];
  }

  /** A gap before the first operator lies inside the first token. */
  lemma SpaceInFirstToken(s: string, i: nat, j: nat)
    requires i + 1 < j && Gap(s, i, j)
    requires FirstOp(s).None? || j < FirstOp(s).value
    ensures SpaceInToken(Split(s), 0, i + 1)
  {
    assert IsSpace(s[i + 1]) by {
      assert s[i + 1..j][0] == s[i + 1];
    }
    if FirstOp(s).None? {
      SplitNoOp(s);
    } else {
      FirstTokenKeeps(s, j);
    }
  }

  /** A gap not before the first operator lies past it, in the rest `Split` continues on. */
  lemma GapPastFirstOp(s: string, i: nat, j: nat) returns (rest: string, i': nat, j': nat)
    requires i + 1 < j && Gap(s, i, j)
    requires FirstOp(s).Some? && FirstOp(s).value <= j
    ensures rest == s[Resume(s)..] && |rest| < |s|
    ensures i' + 1 < j' && Gap(rest, i', j')
  {
    var k := FirstOp(s).value;
    assert IsOp(s[k]);
    ResumeBefore(s, i);
    var e := Resume(s);
    GapShift(s, e, i, j);
    rest, i', j' := s[e..], i - e, j - e;
  }

  /** A character that is neither whitespace nor an operator: part of an operand. */
  predicate IsOperandChar(c: char) {
    !IsSpace(c) && !IsOp(c)
  }

  /** `s[i]` and `s[j]` are operand characters with only whitespace between them. */
  predicate Gap(s: string, i: nat, j: nat) {
    i < j < |s| && IsOperandChar(s[i]) && IsOperandChar(s[j]) && AllSpace(s[i + 1..j])
  }

  /** The same gap seen in a suffix of `s` that still holds `s[i]`. */
  lemma GapShift(s: string, e: nat, i: nat, j: nat)
    requires e <= i && Gap(s, i, j)
    ensures Gap(s[e..], i - e, j - e)
  {
    var rest := s[e..];
    assert rest[i - e] == s[i] && rest[j - e] == s[j];
    assert rest[i - e + 1..j - e] == s[i + 1..j];
  }

  /** No token of a string without trailing whitespace ends in whitespace. */
  lemma TokensEndClean(s: string, n: nat)
    requires NoTrailingSpace(s) && n < |Split(s)|
    ensures NoTrailingSpace(Split(s)[n])
  {
    SplitTokenized(s);
    TokenizedAt(Split(s), n);
  }
}
