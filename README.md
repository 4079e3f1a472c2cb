# add_virtual_column, modelled and verified in Dafny

`add_virtual_column(df, role, new_column)` adds a computed column to a data
frame. The column is given as an arithmetic expression over existing column
names, using `+`, `-` and `*`. The function works in stages:

- It checks every existing column name and the target name against the
  pattern `^[A-Za-z_]+$`.
- It strips the expression and splits it with
  `re.split(r'\s*([+\-*])\s*', ...)`.
- It requires every token to be an operator or to match the name pattern.
- It requires every name-like token to be a column of the frame.
- It copies the frame, evaluates the expression with `DataFrame.eval`, and
  stores the result under the target name.

Every refusal, and every exception raised during evaluation, returns an
empty frame.

The project models each stage:

| file | module | what it holds |
|---|---|---|
| `wrappers.dfy` | `Wrappers` | `Option` and `Result` |
| `names.dfy` | `Names` | the name pattern, including Python's `$` accepting a single trailing newline |
| `tokens.dfy` | `Tokens` | Python whitespace, `str.strip()`, and the `re.split` call as a character-level function `Split` |
| `validation.dfy` | `Validation` | the token checks, with the early-return loop as a method |
| `arith.dfy` | `Arith` | what `DataFrame.eval` computes for a checked expression |
| `tables.dfy` | `Tables` | the frame as a value (`Table`) and as an object updated in place (`Frame`) |
| `virtual_column.dfy` | `VirtualColumn` | the pipeline as a function (`Compute`) and as a method (`AddVirtualColumn`) |

`Split` has three partners:

- `Weave` puts the tokens back with whitespace gaps, and the two lemmas
  `SplitReassembles` and `WeaveSplits` make `Split` the unique inverse of
  `Weave`.
- `Tokenized` is the alternation invariant: operand pieces and single
  operators alternate, starting and ending with an operand.
- Lemmas derive each way an operand piece ends up empty or holding
  whitespace.

`Arith` evaluates the expression in two independent ways:

- `Parse` builds a tree by splitting at the last `+` or `-`, and `Flatten` is
  its inverse.
- `SumOfProducts` reads the tokens once, from left to right.

`EvalIsSumOfProducts` proves that the two agree. The precedence examples
then check that `*` binds tighter and that operators group to the left.

On the code's order of checks: the token check at solution.py:36 already
rejects malformed shapes. A leading, trailing or doubled operator, as in
`"x+"` or `"x+*y"`, leaves an empty operand token, and the empty string
matches neither an operator nor the name pattern. Such expressions never
reach `DataFrame.eval`. `AllowedIffAlternating` proves this in general: the
check passes exactly when the tokens alternate strictly between names and
operators. The model follows the code here. It does not follow the reading
that malformed shapes are left to evaluation to fail.

## Model

| member | source | states |
|---|---|---|
| Names.NameMatches | solution.py:25-29 | `re.match` with the name pattern: a match starts with a letter or `_` and has only such characters before its last one; every identifier matches (the converse is `NameMatchesIdentifier`) |
| Names.NameMatchesIdentifier | solution.py:25 | for a string not ending in a newline, the pattern matches exactly the non-empty strings of ASCII letters and `_` |
| Names.NameMatchesRefuses | solution.py:25 | a string with a digit, space or punctuation character (other than one final newline) is refused |
| Names.EmptyNameRefused | solution.py:25 | the empty string is refused |
| Tokens.Strip | solution.py:32 | the result has no whitespace at either end, and a string already without it is unchanged; with `StripCut` this pins it down as `str.strip()` |
| Tokens.StripCut | solution.py:32 | the input is a whitespace run, the stripped string and another whitespace run, so only whitespace at the ends is removed |
| Tokens.StripKeepsOps | solution.py:32 | stripping keeps every operator character |
| Tokens.FirstOp | solution.py:34 | `None` exactly when there is no operator character; otherwise the index of an operator with none before it |
| Tokens.Split | solution.py:34 | `re.split` with the capturing operator pattern gives one operator token per operator character plus one operand piece more; `SplitReassembles` and `WeaveSplits` characterise it completely |
| Tokens.SplitTokenized | solution.py:34 | the split always alternates operand pieces (no operator inside) with single operator tokens, with odd length; after stripping, no piece has whitespace at either end |
| Tokens.SplitReassembles | solution.py:34 | the input is the tokens with a whitespace gap between each two, so only whitespace beside operators is lost |
| Tokens.WeaveSplits | solution.py:34 | any alternating token sequence woven with whitespace gaps splits back into exactly those tokens; the split is the unique such decomposition |
| Tokens.LeadingOpGivesEmptyOperand | solution.py:34 | a leading operator leaves an empty first token |
| Tokens.TrailingOpGivesEmptyOperand | solution.py:34 | a trailing operator leaves an empty last token |
| Tokens.DoubledOpGivesEmptyOperand | solution.py:34 | two operators with only whitespace between them leave an empty token |
| Tokens.SpaceInsideOperand | solution.py:34 | whitespace between two operand characters stays inside one token, not at its end |
| Validation.Tokenize | solution.py:32-34 | the stripped expression split: one operator token per operator character of the original expression, with one operand piece more; its shape is `TokenizeShape` |
| Validation.TokenizeShape | solution.py:32-34 | the tokens of any expression have odd length, an operator at each odd index, and reassemble to the stripped expression with whitespace gaps |
| Validation.TokenMatchIsIdentifier | solution.py:34-36 | no token ends in a newline, so for tokens the pattern means exactly "non-empty letters and `_`" |
| Validation.AllowedIffAlternating | solution.py:36-37 | the token check passes if and only if names and operators alternate strictly, starting and ending with a name |
| Validation.EmptyOperandRefused | solution.py:36-37 | an empty token fails the token check |
| Validation.LeadingOperatorRefused | solution.py:32-37 | an expression starting with an operator fails the token check |
| Validation.TrailingOperatorRefused | solution.py:32-37 | an expression ending with an operator, such as `"x+"`, fails the token check |
| Validation.DoubledOperatorRefused | solution.py:32-37 | two operators separated only by whitespace fail the token check |
| Validation.InternalSpaceRefused | solution.py:32-37 | whitespace between two name characters, as in `"unit price"`, fails the token check |
| Validation.CheckOperandsKnown | solution.py:39-41 | the loop returns true if and only if every token matching the name pattern is a column name |
| Validation.KnownIffNamesListed | solution.py:39-41 | on alternating tokens the loop's check means every operand (even index) is a column name |
| Arith.Parse | solution.py:45 | the tree is a left-grouped sum of left-grouped products, and flattening it gives the tokens back |
| Arith.ParseFlatten | solution.py:45 | parsing a flattened well-grouped tree gives the tree back, so `Parse` and `Flatten` are inverse |
| Arith.EvalIsSumOfProducts | solution.py:45 | the parsed tree evaluates to the left-to-right sum-of-products reading of the tokens |
| Arith.PrecedenceExample | solution.py:45 | `a+b*c` parses as `a+(b*c)`, giving 14 with a, b, c equal to 2, 3, 4 |
| Arith.LeftAssociativeExample | solution.py:45 | `a-b-c` parses as `(a-b)-c`, giving 5 with a, b, c equal to 10, 3, 2 |
| Tables.WithColumn | solution.py:45 | the assignment keeps the row count; the column count is unchanged on an overwrite and one larger otherwise |
| Tables.WithColumnLookup | solution.py:45 | after the assignment the target name reads the new values |
| Tables.WithColumnLookupOther | solution.py:45 | after the assignment every other name reads what it read before |
| Tables.WithColumnKeepsOthers | solution.py:45 | other columns stay in place; the names are unchanged on an overwrite and gain the target last otherwise |
| Tables.WithColumnWellFormed | solution.py:45 | the assignment keeps columns of equal length with distinct names |
| Tables.Frame.Copy | solution.py:44 | the copy is a fresh frame with the same contents |
| Tables.Frame.Assign | solution.py:45 | the frame's new contents are the old ones with the column written, and a well-formed frame stays well formed |
| VirtualColumn.Evaluate | solution.py:45 | evaluation succeeds exactly on a strict sum of products of column names laid out with spaces or tabs only; it gives one value per row, each that row's sum of products |
| VirtualColumn.Compute | solution.py:25-48 | the checks in the source's order, each with its reason for refusal; a success is a well-formed table with the input's row count whose names all pass the pattern; `SucceedsIff` and `SuccessValue` characterise it |
| VirtualColumn.Outcome | solution.py:25-48 | the returned table: always well formed with matching names, and either the empty table or one with the input's row count; `EmptyExactlyOnRefusal` says which |
| VirtualColumn.AddVirtualColumn | solution.py:25-48 | the input frame is unchanged, the result is a fresh well-formed frame, and its contents are the pipeline's outcome |
| VirtualColumn.InvalidColumnNameRefused | solution.py:26-27 | any existing column name failing the pattern refuses the call |
| VirtualColumn.InvalidTargetNameRefused | solution.py:29-30 | with valid column names, a target name failing the pattern refuses the call |
| VirtualColumn.NoColumnsRefused | solution.py:26-41 | a frame without columns passes the name check but is always refused later |
| VirtualColumn.DisallowedTokenRefused | solution.py:36-37 | with valid names, any token that is neither an operator nor a name refuses the call |
| VirtualColumn.DanglingOperatorRefused | solution.py:32-37 | a leading or trailing operator is refused by the token check, before evaluation |
| VirtualColumn.UnknownColumnRefused | solution.py:39-41 | with the token check passed, a name token that is not a column refuses the call |
| VirtualColumn.EvaluationFailureRefused | solution.py:43-48 | with every check passed, whitespace other than spaces and tabs makes evaluation fail and the call refused |
| VirtualColumn.SucceedsIff | solution.py:25-48 | the call succeeds if and only if all names match, the tokens alternate strictly, every operand is a column, and the layout is evaluable |
| VirtualColumn.SuccessValue | solution.py:43-46 | on success the row count is kept, the target holds each row's sum of products of that row's values, every other name reads as before, and exactly one column is added unless the target existed |
| VirtualColumn.EmptyExactlyOnRefusal | solution.py:26-48 | the empty frame comes back if and only if the call was refused |
| VirtualColumn.ProductOfTwoColumns | solution.py:13-15 | `q * p` over two distinct columns, with a new target name, appends the row-by-row product |
| VirtualColumn.SalesExample | solution.py:15 | quantities 2, 3 and prices 10, 20 give a `total` column of 20, 60 |

## Left out

- Python's `re` engine is not modelled as such. The name pattern and the
  split are written directly as functions on characters, following the
  leftmost-match semantics of these two patterns.
- Non-string column names are left out. In pandas they make solution.py:26
  raise `TypeError` outside the `try`. The model's names are strings.
- Duplicate column names are left out. A `Table` is required to have
  distinct names, and pandas allows duplicates.
- Values are mathematical integers. Floating point, dtype promotion and
  non-numeric columns, which make `DataFrame.eval` raise, are left out.
- VirtualColumn.Evaluate: does not model 64-bit wrap-around of pandas
  integer columns, because values are unbounded integers.
- VirtualColumn.Evaluate: the only evaluation failure modelled is a layout
  rule. A cleaned expression containing whitespace other than a space or a
  tab fails: a line break makes several statements, and other Unicode
  whitespace is a Python syntax error. Other failures of `DataFrame.eval`
  are not modelled, such as a column named after a Python keyword (`and`,
  `if`) or the literals `True`, `False` and `None`. In the model those
  evaluate as column references.
- The pandas engine choice (numexpr or Python) is not modelled. Neither is
  how it resolves names: the checks guarantee that every name is a column,
  and `RowOf` reads 0 for any other name, which is never consulted.
- `df.copy()` is a value copy into a fresh `Frame`. pandas block storage
  and copy-on-write behaviour are left out.
