/**
 * The column-name test of `add_virtual_column`: the regular expression
 * `^[A-Za-z_]+$`, applied with Python's `re.match`.
 */
module Names {

  /** A character of the class `[A-Za-z_]`. */
  predicate IsNameChar(c: char) {
    ('A' <= c <= 'Z') || ('a' <= c <= 'z') || c == '_'
  }

  /** One or more ASCII letters or underscores, and nothing else. */
  predicate IsIdentifier(s: string) {
    |s| > 0 && forall i :: 0 <= i < |s| ==> IsNameChar(s[i])
  }

  /**
   * Whether `re.match(r'^[A-Za-z_]+$', s)` succeeds. Without MULTILINE,
   * Python's `$` matches at the end of the string and also just before a
   * single newline that ends it, so `"x\n"` is accepted too.
   */
  predicate NameMatches(s: string)
    ensures NameMatches(s) ==> |s| > 0 && IsNameChar(s[0])
    ensures NameMatches(s) ==> forall i :: 0 <= i < |s| - 1 ==> IsNameChar(s[i])
    ensures IsIdentifier(s) ==> NameMatches(s)
  {
    IsIdentifier(s) || (|s| >= 2 && s[|s| - 1] == '\n' && IsIdentifier(s[..|s| - 1]))
  }

  /** The pattern accepts exactly the identifiers among strings that do not end in a newline. */
  lemma NameMatchesIdentifier(s: string)
    requires |s| == 0 || s[|s| - 1] != '\n'
    ensures NameMatches(s) <==> IsIdentifier(s)
  {
  }

  /** The empty string, digits, spaces and punctuation are refused. */
  lemma NameMatchesRefuses(s: string, i: nat)
    requires i < |s| && !IsNameChar(s[i])
    requires i < |s| - 1 || s[i] != '\n'
    ensures !NameMatches(s)
  {
    if |s| >= 2 && s[|s| - 1] == '\n' {
      assert i < |s| - 1;
      assert s[..|s| - 1][i] == s[i];
    }
  }

  lemma EmptyNameRefused()
    ensures !NameMatches("")
  {
  }
}
