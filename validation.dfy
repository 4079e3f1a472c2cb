/**
 * The token checks of `add_virtual_column` (solution.py:32-41): the
 * expression is stripped and split, every token must be an allowed
 * operator or match the name pattern, and every name-like token must be a
 * column of the table.
 */
module Validation {
  import opened Names
  import opened Tokens

  /**
   * `role.strip()` followed by the operator split: one operator token for
   * each operator character of `role`, with an operand piece on either
   * side of each.
   */
  function Tokenize(role: string): (toks: seq<string>)
    ensures |toks| == 2 * OpCount(role) + 1
  {
    StripKeepsOps(role);
    Split(Strip(role))
  }

  /** A token passes the check of solution.py:36. */
  predicate AllowedToken(t: string) {
    IsOperatorToken(t) || NameMatches(t)
  }

  predicate AllTokensAllowed(toks: seq<string>) {
    forall i :: 0 <= i < |toks| ==> AllowedToken(toks[i])
  }

  /** Every token that matches the name pattern is one of `names`. */
  predicate OperandsKnown(toks: seq<string>, names: seq<string>) {
    forall i :: 0 <= i < |toks| && NameMatches(toks[i]) ==> toks[i] in names
  }

  /** Every operand (even-index token) of `toks` is one of `names`. */
  predicate OperandsListed(toks: seq<string>, names: seq<string>) {
    forall i :: 0 <= i < |toks| && i % 2 == 0 ==> toks[i] in names
  }

  /** The early-return loop of solution.py:39-41. */
  method CheckOperandsKnown(tokens: seq<string>, names: seq<string>) returns (ok: bool)
    ensures ok <==> OperandsKnown(tokens, names)
  {
    for i := 0 to |tokens|
      invariant forall k :: 0 <= k < i && NameMatches(tokens[k]) ==> tokens[k] in names
    {
      if NameMatches(tokens[i]) && tokens[i] !in names {
        return false;
      }
    }
    return true;
  }

  /**
   * A well-formed sum of products: names at even indices, operators at odd
   * indices, starting and ending with a name.
   */
  predicate Alternating(toks: seq<string>) {
    && |toks| % 2 == 1
    && (forall i :: 0 <= i < |toks| && i % 2 == 0 ==> IsIdentifier(toks[i]))
    && (forall i :: 0 <= i < |toks| && i % 2 == 1 ==> IsOperatorToken(toks[i]))
  }

  /**
   * The shape of every tokenization, checked or not: odd length, an
   * operator token at each odd index, and the stripped expression is the
   * tokens with whitespace put back only around the operators.
   */
  lemma TokenizeShape(role: string) returns (gaps: seq<string>)
    ensures |Tokenize(role)| % 2 == 1
    ensures forall i :: 0 <= i < |Tokenize(role)| && i % 2 == 1 ==> IsOperatorToken(Tokenize(role)[i])
    ensures |gaps| + 1 == |Tokenize(role)| && AllGapsSpace(gaps)
    ensures Weave(Tokenize(role), gaps) == Strip(role)
  {
    var toks := Tokenize(role);
    SplitTokenized(Strip(role));
    forall i | 0 <= i < |toks| && i % 2 == 1 ensures IsOperatorToken(toks[i]) {
      TokenizedAt(toks, i);
    }
    TokenizedAt(toks, 0);
    gaps := SplitReassembles(Strip(role));
  }

  /**
   * No token of a stripped expression ends in a newline, so the `$` quirk
   * never applies to tokens: for them the pattern means exactly "an
   * identifier".
   */
  lemma TokenMatchIsIdentifier(role: string, n: nat)
    requires n < |Tokenize(role)|
    ensures NameMatches(Tokenize(role)[n]) <==> IsIdentifier(Tokenize(role)[n])
  {
    TokensEndClean(Strip(role), n);
    NameMatchesIdentifier(Tokenize(role)[n]);
  }

  /**
   * The check of solution.py:36 passes exactly when the tokens form a
   * sum of products of names: identifiers at even indices and operators
   * at odd ones.
   */
  lemma AllowedIffAlternating(role: string)
    ensures AllTokensAllowed(Tokenize(role)) <==> Alternating(Tokenize(role))
  {
    var toks := Tokenize(role);
    SplitTokenized(Strip(role));
    TokenizedAt(toks, 0);
    if AllTokensAllowed(toks) {
      forall i | 0 <= i < |toks| && i % 2 == 0 ensures IsIdentifier(toks[i]) {
        TokenizedAt(toks, i);
        assert toks[i] != "+" && toks[i] != "-" && toks[i] != "*" by {
          if |toks[i]| == 1 { assert !IsOp(toks[i][0]); }
        }
        TokenMatchIsIdentifier(role, i);
      }
      forall i | 0 <= i < |toks| && i % 2 == 1 ensures IsOperatorToken(toks[i]) {
        TokenizedAt(toks, i);
      }
    }
  }

  /**
   * On alternating tokens the loop of solution.py:39-41 asks exactly that
   * every operand name is one of `names`.
   */
  lemma KnownIffNamesListed(toks: seq<string>, names: seq<string>)
    requires Alternating(toks)
    ensures OperandsKnown(toks, names) <==> OperandsListed(toks, names)
  {
    forall i | 0 <= i < |toks| && i % 2 == 1 ensures !NameMatches(toks[i]) {
      assert !IsNameChar(toks[i][0]);
      NameMatchesRefuses(toks[i], 0);
    }
  }

  /** An empty operand fails the check of solution.py:36. */
  lemma EmptyOperandRefused(toks: seq<string>)
    requires "" in toks
    ensures !AllTokensAllowed(toks)
  {
    var i :| 0 <= i < |toks| && toks[i] == "";
    assert !AllowedToken(toks[i]);
  }

  /** A leading operator, as in `"+x"`, is refused. */
  lemma LeadingOperatorRefused(role: string)
    requires |Strip(role)| > 0 && IsOp(Strip(role)[0])
    ensures !AllTokensAllowed(Tokenize(role))
  {
    var s := Strip(role);
    assert s == [s[0]] + s[1..];
    LeadingOpGivesEmptyOperand(s[0], s[1..]);
    EmptyOperandRefused(Tokenize(role));
  }

  /** A trailing operator, as in `"x+"`, is refused. */
  lemma TrailingOperatorRefused(role: string)
    requires |Strip(role)| > 0 && IsOp(Strip(role)[|Strip(role)| - 1])
    ensures !AllTokensAllowed(Tokenize(role))
  {
    var s := Strip(role);
    var o := s[|s| - 1];
    assert s == s[..|s| - 1] + [o];
    TrailingOpGivesEmptyOperand(s[..|s| - 1], o);
    EmptyOperandRefused(Tokenize(role));
  }

  lemma CutTwice(s: string, i: nat, j: nat)
    requires i < j < |s|
    ensures s == s[..i] + [s[i]] + (s[i + 1..j] + [s[j]] + s[j + 1..])
  {
    assert s[i + 1..] == s[i + 1..j] + [s[j]] + s[j + 1..];
    CutAt(s, i);
  }

  /**
   * Two operators with only whitespace between them, as in `"x+*y"` or
   * `"x + - y"`, are refused.
   */
  lemma DoubledOperatorRefused(role: string, i: nat, j: nat)
    requires i < j < |Strip(role)|
    requires IsOp(Strip(role)[i]) && IsOp(Strip(role)[j])
    requires forall k :: i < k < j ==> IsSpace(Strip(role)[k])
    ensures !AllTokensAllowed(Tokenize(role))
  {
    var s := Strip(role);
    CutTwice(s, i, j);
    var w := s[i + 1..j];
    assert AllSpace(w) by {
      forall k | 0 <= k < |w| ensures IsSpace(w[k]) {
        assert w[k] == s[i + 1 + k];
      }
    }
    DoubledOpGivesEmptyOperand(s[..i], s[i], s[i + 1..j], s[j], s[j + 1..]);
    EmptyOperandRefused(Tokenize(role));
  }

  /**
   * Whitespace inside an operand, as in `"unit price * qty"`, is refused:
   * the whitespace stays inside one token.
   */
  lemma InternalSpaceRefused(role: string, i: nat, j: nat)
    requires i + 1 < j < |Strip(role)|
    requires IsNameChar(Strip(role)[i]) && IsNameChar(Strip(role)[j])
    requires forall k :: i < k < j ==> IsSpace(Strip(role)[k])
    ensures !AllTokensAllowed(Tokenize(role))
  {
    var s := Strip(role);
    assert Gap(s, i, j) by {
      var w := s[i + 1..j];
      forall k | 0 <= k < |w| ensures IsSpace(w[k]) {
        assert w[k] == s[i + 1 + k];
      }
    }
    var n, m := SpaceInsideOperand(s, i, j);
    var t := Tokenize(role)[n];
    assert t[m] == ' ' || !IsNameChar(t[m]);
    if t[m] == ' ' {
      assert !IsNameChar(t[m]);
    }
    NameMatchesRefuses(t, m);
    assert !AllowedToken(t);
  }
}
