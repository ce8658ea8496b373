# A verified model of the calculator engine and the database client's helpers

The repository has two programs. `cal.java` is a console calculator. It
tokenizes an arithmetic expression, sorts the integral literals into an even
bucket and an odd bucket, evaluates the expression with two stacks, and in
queue mode partitions the literals into lists of bounded queues. `dgfx8.java`
is a JavaFX client for an Oracle database. Its pure parts are modelled here:
the checks of the create-table form, the SQL text it builds for CREATE TABLE,
INSERT and DELETE, the base type of a column type such as `NUMBER(10,0)`, the
JDBC type code of a base type, the conversion of a text field to a typed
value, and the split of a `FIELD=VALUE` deletion criterion.

The model is written in Dafny, one module per concern:

| file | module | models |
|---|---|---|
| `outcomes.dfy` | `Outcomes` | `Option` and `Result` |
| `javatext.dfy` | `JavaText` | `Character.isWhitespace`, `Character.isDigit` (ASCII), the `int` range, runs of decimal digits, `String.trim`, `String.toUpperCase` (ASCII letters), `equalsIgnoreCase` |
| `tokenizer.dfy` | `Tokenizer`, `TokenizerFacts` | `cal.tokenizeExpression` as a scan function and as the source's loop over the text, filling two bucket objects |
| `evaluator.dfy` | `Evaluator` | `cal.evaluate`, `evaluateTop`, `precedence`, `applyOperation`: a machine of two stacks as functions, and a `Stacks` class whose methods pop and push |
| `evaluatorfacts.dfy` | `EvaluatorFacts` | what the evaluator guarantees: it never meets an unknown operator, and it never reports mismatched parentheses for a balanced token list |
| `exprtrees.dfy` | `ExprTrees` | correctness of the precedence handling: every expression tree, written out with the fewest parentheses, evaluates to the tree's value |
| `queues.dfy` | `Queues` | `cal.addToQueueList` as a class that holds a list of queues, and the loops of `cal.handleQueueMode` |
| `fieldtypes.dfy` | `FieldTypes` | `dgfx8.convertType`, `Integer.parseInt`, `dgfx8.getSqlType`, and `fieldType.split("\\(")[0].trim()` |
| `sqltext.dfy` | `SqlText` | the `StringBuilder` loops that write CREATE TABLE, INSERT and DELETE statements |
| `forms.dfy` | `Forms` | the "Create Table" action's checks and the criteria split in `dgfx8.deleteRecordByCondition` |

Conventions:

- Numbers are exact `real`s, not IEEE doubles.
- A literal's value is the exact decimal value of its digits.
- The `(int)` cast that picks a literal's bucket saturates at the 32-bit bounds, as Java's does. So an integral literal of 2^31 or more always lands in the odd bucket (`TokenizerFacts.LargeLiteralsAreOdd`).
- A stack is a sequence whose top is its last element.
- Errors that the source throws become `Err` values. The messages are kept as constructor names.

Some behaviour is modelled exactly as the code is written:

- A `-` right after `*`, `/`, `+`, `(` or at the start pushes a 0. So `2*-3` evaluates to `-3`: the `*` is applied to the pushed 0 first (`EvaluatorFacts.MinusAfterTimes`).
- A `-` right after another `-` is binary, so `5--3` fails with a missing operand (`EvaluatorFacts.MinusAfterMinus`).
- A capacity below 1 is not rejected. `list.getLast().size() >= capacity` then always holds, so every value gets its own queue (`Queues.NonPositiveCapacity`). This departs from the intended design, where a capacity below 1 is a configuration error. The model follows the code.

## Model

| member | source | states |
|---|---|---|
| `JavaText.IsWhitespace` | cal.java:145 | `Character.isWhitespace` (the character class the scan skips); no digit is whitespace, and every ASCII whitespace character is one that `trim` removes |
| `JavaText.Trim` | dgfx8.java:247 | the result is the slice of the input that drops the leading and trailing characters at or below U+0020, and it neither starts nor ends with such a character |
| `JavaText.TrimIdempotent` | dgfx8.java:275 | trimming twice is trimming once |
| `JavaText.TrimUntrimmed` | dgfx8.java:925 | a text whose ends are not blank is its own trim |
| `JavaText.ToUpper` | dgfx8.java:275 | same length, each character upper-cased, ASCII lower-case letters moved by 32 and every other character kept |
| `JavaText.ToUpperIdempotent` | dgfx8.java:603 | upper-casing twice is upper-casing once |
| `JavaText.ToUpperOfUpper` | dgfx8.java:1245 | a text without lower-case letters is its own upper-casing |
| `Tokenizer.ParseNumeral` | cal.java:155 | a run of digits and dots parses exactly when it has at most one dot and at least one digit; the value is non-negative |
| `TokenizerFacts.DecimalOfDigits` | cal.java:155 | a run of digits has the value of the integer it spells |
| `TokenizerFacts.DecimalOfFraction` | cal.java:155 | `a.b` has the value a + b / 10^len(b), the digits after the point weighted by tenths, hundredths and so on |
| `TokenizerFacts.ParseDigits` | cal.java:155 | `parseDouble` reads a non-empty run of digits as that integer |
| `TokenizerFacts.FractionWellFormed` | cal.java:155 | `a.b` with a digit on at least one side of the point is a well-formed numeral |
| `TokenizerFacts.ParseFraction` | cal.java:155 | `parseDouble` reads such an `a.b` as a + b / 10^len(b), so `1.5` is 1.5 and `.25` is 0.25 |
| `Tokenizer.IntCast` | cal.java:158 | the `(int)` cast lies in the 32-bit range and equals the floor of a non-negative value in range |
| `Tokenizer.LiteralsAppend` | cal.java:157-160 | one more token adds its value to exactly the bucket its parity selects, and to nothing when it is not integral |
| `Tokenizer.Bucket.constructor` | cal.java:140-141 | a new bucket is empty |
| `Tokenizer.Bucket.Clear` | cal.java:140-141 | `clear()` empties the bucket |
| `Tokenizer.Bucket.Add` | cal.java:158-159 | `add` appends the value at the end |
| `Tokenizer.ReadRun` | cal.java:148-152 | the inner loop reads exactly the maximal run of digits and dots, and leaves the index on its last character |
| `Tokenizer.Classify` | cal.java:157-160 | the literal goes to the even bucket when it is integral and its cast is even, to the odd one when integral and the cast is odd, else to neither |
| `Tokenizer.ScanFrom` | cal.java:143-176 | the scan of the text from position i (the definition of the loop's meaning; its properties are the `TokenizerFacts` lemmas below); it yields at most one token per remaining character |
| `Tokenizer.Tokenize` | cal.java:137-178 | the whole scan from position 0 at balance 0; at most one token per character |
| `Tokenizer.NumberStep` | cal.java:147-163 | the number branch of one pass: the run is read and parsed; a malformed run stops the scan with that text, a number is appended and filed in its bucket, keeping tokens and buckets in step with the scan |
| `Tokenizer.ScanStep` | cal.java:144-171 | one pass of the outer loop keeps the tokens so far and the rest of the scan equal to the whole scan, and keeps the buckets equal to the even and odd literals so far |
| `Tokenizer.TokenizeExpression` | cal.java:137-178 | the loop returns exactly the scan's tokens or its first error, and leaves in the buckets the even and odd literals of the tokens scanned |
| `TokenizerFacts.ScanCharacters` | cal.java:164-171 | the scan succeeds only on a text of whitespace, digits, dots and `+-*/()`; an invalid-character error names a character of the text outside that set, and on a text inside that set there is none |
| `TokenizerFacts.TokenizeCharacters` | cal.java:169-171 | the same for the whole text |
| `TokenizerFacts.LexemeStarts` | cal.java:143-147 | the lexeme starts of a text are positions where a run or an operator begins |
| `TokenizerFacts.LexemeStartsComplete` | cal.java:143-147 | every lexeme start from position i on is listed, each within the text, in strictly increasing order |
| `TokenizerFacts.ScanMatchesLexemes` | cal.java:143-172 | a successful scan from a position outside a run yields one token per lexeme start, each read independently at its position |
| `TokenizerFacts.TokenizeMatchesLexemes` | cal.java:137-178 | a successful tokenization yields one token per lexeme of the text, each the number or operator written at its position |
| `TokenizerFacts.ScanBadNumber` | cal.java:161-162 | an invalid-number error carries a maximal run of the text that has two dots or no digit |
| `TokenizerFacts.ScanPrefixes` | cal.java:166-168 | the parenthesis depth of every prefix of the tokens produced stays at or above zero |
| `TokenizerFacts.ScanFinalDepth` | cal.java:174-176 | a successful scan ends at depth zero |
| `TokenizerFacts.TokenizeBalanced` | cal.java:164-176 | a successful tokenization is balanced: no prefix closes more parentheses than it opened, and the whole opens as many as it closes |
| `TokenizerFacts.ParityExclusive` | cal.java:157-160 | an integral literal is in exactly one bucket, and a non-integral one in neither |
| `TokenizerFacts.BucketsSplitIntegralLiterals` | cal.java:157-160 | the two buckets together hold exactly the integral literals, as a multiset |
| `TokenizerFacts.BucketMembers` | cal.java:157-160 | every bucket entry is a literal of the tokens with that bucket's parity |
| `TokenizerFacts.LargeLiteralsAreOdd` | cal.java:158 | an integral literal of 2^31 or more goes to the odd bucket, because the cast saturates to 2^31-1 |
| `TokenizerFacts.SmallLiteralParity` | cal.java:158 | below 2^31 the bucket is the parity of the literal itself |
| `Evaluator.Precedence` | cal.java:226-230 | `*` and `/` rank 2 exactly, `+` and `-` rank 1 exactly, every other character 0 |
| `Evaluator.ApplyOperation` | cal.java:232-242 | fails exactly on an unknown operator (invalid-operator error) or a division by zero; `*` gives a*b, and the other results invert correctly: (a+b)-b = a, (a-b)+b = a, (a/b)*b = a |
| `Evaluator.ApplyTop` | cal.java:218-224 | reports a missing operand exactly when fewer than two values are stacked; otherwise succeeds exactly when `applyOperation` of the two top values and the top operator does, fails with its error when it fails, and on success pops the operator and two values and pushes the result, leaving the rest of the stacks alone |
| `Evaluator.Reduce` | cal.java:192 | applies operators until the top is `(`, or has lower precedence than asked, or the stack is empty; only pops operators, one value per operator |
| `Evaluator.Finish` | cal.java:208-215 | an error of the final reduction is passed on; a `(` left on top after it is a mismatch, and only then; no operator left but other than one value is malformed, and only then; otherwise the single value is the result; with no `(` stacked there is never a mismatch |
| `Evaluator.Step` | cal.java:185-205 | one token of the loop (the definition whose properties are the `EvaluatorFacts` lemmas); it never reports a malformed expression, and reports a mismatch only on `)` |
| `Evaluator.Feed` | cal.java:185-206 | the loop over a token list; never malformed, and a mismatch only when a `)` is among the tokens |
| `Evaluator.Resume` | cal.java:180-216 | the loop from a given machine and then the final phase; a result or a malformed error means the loop itself went through |
| `Evaluator.Eval` | cal.java:180-216 | `cal.evaluate` on a token list; no tokens is malformed, a single number evaluates to itself |
| `Evaluator.Stacks.constructor` | cal.java:181-182 | both stacks start empty |
| `Evaluator.Stacks.EvaluateTop` | cal.java:218-224 | the new stacks are `ApplyTop` of the old ones, or its error is returned |
| `Evaluator.Stacks.ReduceTo` | cal.java:192 | the loop of `evaluateTop` calls leaves the stacks that `Reduce` computes, or reports its error |
| `Evaluator.Evaluate` | cal.java:180-216 | the imperative evaluation returns exactly `Eval` of the tokens |
| `EvaluatorFacts.ReduceValid` | cal.java:240 | reducing a stack of known operators never meets an unknown one, and leaves only known operators |
| `EvaluatorFacts.StepValid` | cal.java:185-205 | the same for one token |
| `EvaluatorFacts.FeedValid` | cal.java:185-206 | the same for a token list |
| `EvaluatorFacts.EvalNeverInvalidOperator` | cal.java:240 | the `default` branch of `applyOperation` is unreachable from `evaluate` |
| `EvaluatorFacts.ReduceKeepsOpens` | cal.java:192 | reducing keeps the number of `(` on the operator stack |
| `EvaluatorFacts.SettledOpens` | cal.java:208-209 | a fully reduced operator stack is non-empty exactly when it holds a `(` |
| `EvaluatorFacts.StepOpens` | cal.java:190-194 | a token that does not close more parentheses than are open raises no mismatch, and moves the open count by the token's depth |
| `EvaluatorFacts.FeedOpens` | cal.java:185-206 | the same for a token list whose prefixes never go below zero depth |
| `EvaluatorFacts.EvalBalanced` | cal.java:190-211 | a balanced token list never fails with mismatched parentheses |
| `EvaluatorFacts.TokenizeThenEval` | cal.java:137-216 | evaluating what the tokenizer accepted never reports mismatched parentheses or an unknown operator |
| `EvaluatorFacts.UnaryMinusStep` | cal.java:196-198 | after no token or one of `*/+(`, a `-` acts exactly as a 0 pushed first and then a `-` read after a number |
| `EvaluatorFacts.UnaryMinusFeed` | cal.java:185-206 | in sign position, feeding `-` then any tokens is feeding `0 -` then the same tokens |
| `EvaluatorFacts.UnaryMinusAfter` | cal.java:185-206 | the same after any prefix whose last token (or the token before it, for an empty prefix) puts the `-` in sign position |
| `EvaluatorFacts.LeadingMinusIsZero` | cal.java:180-216 | an expression that starts with `-` evaluates as the same expression with a 0 in front |
| `EvaluatorFacts.BinaryMinusStep` | cal.java:196-202 | after a number, a `)` or a `-`, no 0 is pushed: the `-` succeeds or fails exactly as a `+` would, leaves the same values and pushes `-` where `+` would be |
| `EvaluatorFacts.LeadingMinus` | cal.java:196-198 | `-5+3` evaluates to -2 |
| `EvaluatorFacts.MinusAfterTimes` | cal.java:196-201 | `2*-3` evaluates to -3: the zero pushed for the unary minus is multiplied first |
| `EvaluatorFacts.MinusAfterMinus` | cal.java:196-219 | `5--3` fails with a missing operand for `-` |
| `EvaluatorFacts.DivideByZero` | cal.java:237-238 | `5/0` fails with division by zero |
| `ExprTrees.RenderEnds` | cal.java:196 | a rendered expression starts with a number or `(` and ends with a number or `)` |
| `ExprTrees.FeedAppend` | cal.java:185-206 | processing a concatenation is processing the first part, then the second from the state reached |
| `ExprTrees.ReduceCompose` | cal.java:199-201 | reducing to a lower precedence is reducing to a higher one and then further |
| `ExprTrees.ReduceApplied` | cal.java:199-201 | a pending operator over two values reduces to the operator applied to them |
| `ExprTrees.CloseParen` | cal.java:190-194 | a parenthesized sub-expression leaves exactly its value on a settled stack |
| `ExprTrees.OperatorAfter` | cal.java:195-203 | after a left operand, a binary operator is pushed with the operand's value beneath it |
| `ExprTrees.OperatorApplied` | cal.java:199-201 | the right operand's value combines with the left one through the operator |
| `ExprTrees.OperandReduces` | cal.java:185-206 | an operand, parenthesized where its rank needs it, leaves exactly its value |
| `ExprTrees.RenderReduces` | cal.java:185-206 | a rendered expression, fed on a settled stack, leaves exactly its value |
| `ExprTrees.EvalRender` | cal.java:180-230 | every expression tree, written with the fewest parentheses precedence and left associativity need, evaluates to the tree's value or to its division-by-zero error |
| `Queues.Chunks` | cal.java:118-124 | the queues `addToQueueList` builds from a sequence (its properties are `ChunksFlatten` and `ChunksWellChunked`); no more queues than values, and none exactly for no values |
| `Queues.Width` | cal.java:245 | the effective queue size is at least 1, and is the capacity when that is at least 1 |
| `Queues.Appended` | cal.java:244-249 | appending keeps the flattened order with the value at the end; a new queue `[num]` is opened exactly when the list is empty or its last queue is full, otherwise the last queue is extended |
| `Queues.QueueList.constructor` | cal.java:114-116 | a new list of queues is empty |
| `Queues.QueueList.Add` | cal.java:244-249 | the new list is `Appended` of the old one; the flattened order grows by the value; well-chunkedness is preserved |
| `Queues.Partition` | cal.java:123-124 | adding the values one by one yields the chunking of the whole sequence |
| `Queues.PartitionInputs` | cal.java:118-122 | adding the numeric tokens one by one yields the chunking of the literals in order |
| `Queues.QueueMode` | cal.java:112-124 | the three lists are the chunkings of the literals, the even bucket and the odd bucket |
| `Queues.AppendedChunks` | cal.java:244-249 | adding one value to the chunking of xs gives the chunking of xs + [value] |
| `Queues.AppendedWellChunked` | cal.java:244-249 | adding keeps every queue non-empty and within capacity, with every queue but the last full |
| `Queues.ChunksFlatten` | cal.java:118-124 | concatenating the queues gives back the original sequence, in order |
| `Queues.ChunksWellChunked` | cal.java:118-124 | the chunking is well formed: queues non-empty, within capacity, all but the last full |
| `Queues.NonPositiveCapacity` | cal.java:245 | with a capacity below 1 every value gets its own queue |
| `Queues.FiveByTwo` | cal.java:118-122 | `[1,2,3,4,5]` with capacity 2 gives `[[1,2],[3,4],[5]]` |
| `FieldTypes.ParseInt` | dgfx8.java:1251 | `Integer.parseInt` succeeds exactly on an optional sign followed by at least one ASCII digit whose value fits in 32 bits; the result is the value of the digits, negated after a `-` |
| `FieldTypes.ParseIntExamples` | dgfx8.java:1251 | `+7` and `007` read as 7, `-12` as -12; a lone sign and a sign inside the digits are rejected |
| `FieldTypes.Digits` | dgfx8.java:1251 | the decimal digits of a natural number are non-empty and all digits |
| `FieldTypes.DigitsValueOf` | dgfx8.java:1251 | reading back the digits of n gives n |
| `FieldTypes.ParseIntToString` | dgfx8.java:1251 | parsing the decimal text of any 32-bit integer gives it back |
| `FieldTypes.Family` | dgfx8.java:1245-1265 | the case of the switch is chosen by the upper-cased type name, each family by exactly its two names |
| `FieldTypes.ConvertType` | dgfx8.java:1240-1267 | an empty value is null, and only it; for a non-empty value, VARCHAR/VARCHAR2 give the text itself; NUMBER/INT give the 32-bit `parseInt` of the value exactly when it parses and otherwise a number-format error with the value; DOUBLE/DOUBLE PRECISION the same with `parseDouble`; BOOLEAN/CHAR give T exactly for true/T, F exactly for a non-true false/F and otherwise the invalid-boolean error; any other name is reported with the name |
| `FieldTypes.IntToString` | dgfx8.java:1251 | the decimal text of an `int`: non-empty, all digits exactly when the number is not negative, and a `-` before digits when it is (its round trip is `ParseIntToString`) |
| `FieldTypes.ConvertIgnoresCase` | dgfx8.java:1245 | two type names equal but for case convert alike, the unsupported-type message aside |
| `FieldTypes.ConvertText` | dgfx8.java:1246-1248 | VARCHAR and VARCHAR2 return the value itself |
| `FieldTypes.ConvertBoolean` | dgfx8.java:1255-1263 | BOOLEAN and CHAR give T exactly for true/T, F exactly for false/F, in any case, and otherwise the invalid-boolean error |
| `FieldTypes.ConvertIntegerText` | dgfx8.java:1249-1251 | NUMBER and INT convert the decimal text of any 32-bit integer back to that integer |
| `FieldTypes.SqlType` | dgfx8.java:602-612 | the code is one of VARCHAR 12, NUMERIC 2, DOUBLE 8, CHAR 1, OTHER 1111, each chosen exactly by its names in any case |
| `FieldTypes.SqlTypeIgnoresCase` | dgfx8.java:603 | type names equal but for case get the same code |
| `FieldTypes.BaseType` | dgfx8.java:537 | fails exactly on a non-empty name made only of `(`; otherwise it is the trimmed text before the first `(`, holds no `(`, and is trimmed |
| `FieldTypes.BaseTypeOfArguments` | dgfx8.java:848 | the base type of `NAME(args)` is the trimmed name |
| `FieldTypes.BaseTypeWithoutArguments` | dgfx8.java:936 | a type name without `(` is its own base type once trimmed |
| `SqlText.Join` | dgfx8.java:336-342 | the text the first-field flag loops produce, fragments with a separator between each pair (its properties are the `Join*` lemmas below); it starts with the first fragment |
| `SqlText.CreateTableSql` | dgfx8.java:332-343 | the first-field flag loop writes `CREATE TABLE t (` then the definitions joined by `, ` then `)` |
| `SqlText.InsertSql` | dgfx8.java:502-516 | the loop writes the column names joined by `, ` and, in step, as many `?` joined by `, ` after ` VALUES (` |
| `SqlText.DeleteSql` | dgfx8.java:822-833 | the length test writes ` AND ` between conditions, never before the first: `DELETE FROM t WHERE c1 = ? AND c2 = ?` |
| `SqlText.JoinLength` | dgfx8.java:336-342 | the joined text is as long as its fragments and the separators between them |
| `SqlText.JoinPrefix` | dgfx8.java:336-342 | the text joined from the first fragments, then a separator, starts the joined text |
| `SqlText.JoinLast` | dgfx8.java:336-342 | the joined text ends with the last fragment |
| `SqlText.JoinFragment` | dgfx8.java:336-342 | fragment k sits in the joined text at its offset, unchanged |
| `SqlText.JoinSeparator` | dgfx8.java:336-342 | exactly one separator sits between fragments k and k+1 |
| `SqlText.PlaceholderCount` | dgfx8.java:503-515 | the placeholder list holds n markers |
| `SqlText.InsertMarkers` | dgfx8.java:502-516 | an INSERT whose table and column names hold no `?` has exactly one parameter marker per column, so the loop that binds one parameter per column fills them all |
| `SqlText.ColumnListUnmarked` | dgfx8.java:502-514 | the part before ` VALUES` holds no marker when the names hold none |
| `SqlText.NoMarkerInJoin` | dgfx8.java:505-513 | joining marker-free fragments with a marker-free separator adds no marker |
| `Forms.FieldsFrom` | dgfx8.java:270-291 | the loop over the field rows from row i on (its properties are `FieldsFromAccepts` and `FieldsFromRejects`); an accepted map extends the one built so far by one column per remaining row, and an empty-name error numbers a row from i on, counting from 1 |
| `Forms.Validate` | dgfx8.java:247-291 | the checks of the "Create Table" action (its properties are `ValidateAccepts` and `ValidateRejects`); an accepted definition is named by the non-empty, untaken, upper-cased trimmed table name and has one column per row, at least one |
| `Forms.ValidateDefinition` | dgfx8.java:246-291 | the loop with early returns gives exactly `Validate`'s verdict |
| `Forms.FieldsFromAccepts` | dgfx8.java:270-291 | from row i on, the loop accepts exactly when every row has a name and a type and no name repeats, and returns the rows' map |
| `Forms.FieldsFromRejects` | dgfx8.java:278-289 | a rejection names a row from i on with an empty name or no type, or two rows with one name |
| `Forms.ValidateAccepts` | dgfx8.java:246-291 | the form is accepted exactly when the upper-cased trimmed table name is non-empty and not taken, there is a row, every row has a name and a type, and the names are distinct; the definition is then that name with the rows' columns in order |
| `Forms.AcceptedKeysUnique` | dgfx8.java:286-290 | an accepted schema has non-empty, pairwise distinct column names |
| `Forms.ValidateRejects` | dgfx8.java:251-289 | each error is justified: empty table name, a taken name, no rows, or a named failing row |
| `JavaText.FirstIndex` | dgfx8.java:919 | the position of the first occurrence of a character, or the length when there is none; no earlier position holds it |
| `Forms.SplitCriteria` | dgfx8.java:914-925 | empty criteria and criteria without `=` are rejected, each exactly in its case; otherwise the field is the upper-cased trimmed text before the first `=` and the value the trimmed rest |
| `Forms.SplitJoinedCriteria` | dgfx8.java:919-925 | writing a normalised field name and a trimmed value as `FIELD=VALUE` and splitting gives them back, even when the value holds `=` |
| `Forms.SplitFieldIsKey` | dgfx8.java:924 | the field name split off holds no `=` and is already normalised |

## Left out

- The console loop, the mode menu and the printing in `cal.java` (`main`, `handleLinkedListMode`, `handleArrayListMode`, `printQueueList`, `printAsLinks`) are I/O only. `handleQueueMode` is modelled without its printing. Its evaluation of the tokens is `Evaluator.Evaluate`.
- The JavaFX forms, alerts and table views of `dgfx8.java` are left out. So are every JDBC call (connection, `getAllTableNames`, `getSchemaFromDatabase`, statement execution and parameter binding) and `ExecuteMultiSQL.java`. The table names the database reports are a parameter of `Forms.Validate`.
- IEEE 754 doubles are not modelled; numbers are exact reals. Rounding, infinities and NaN are left out, and so is `Double.parseDouble` on arbitrary text. The latter is a function parameter of `FieldTypes.ConvertType`.
- `Character.isDigit`, `Character.isWhitespace` and `toUpperCase` cover ASCII and the Java whitespace set only. Unicode digits and non-ASCII case mappings are not modelled.
- A Java `char` is a UTF-16 code unit, while a Dafny `char` is a Unicode scalar value. A character outside the Basic Multilingual Plane is one `char` here but two surrogate units in Java. So for such a character the `InvalidCharacter` error carries the whole character, where Java's message carries only its first surrogate.
- `toUpperCase()` without an argument uses the default locale. Under a Turkish locale `i` becomes the dotted capital `İ`, so a lower-case `int` or `varchar` type name or table name would not match. The model assumes a locale with the ASCII mapping.
- `FieldTypes.ConvertType`: a `null` value is not modelled, because every caller passes trimmed text.
- `FieldTypes.BaseType`: the ArrayIndexOutOfBounds that `split("\\(")[0]` throws on a name made only of `(` is modelled as `None`. The exception's message is not kept.
- `Queues.Appended`: the Java `Queue` objects are sequences; their identity and aliasing are not modelled.
- The number of queues (the rounded-up quotient of the length by the capacity) is not stated as a lemma. `Queues.ChunksWellChunked` gives the shape instead.
