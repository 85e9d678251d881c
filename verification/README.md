# Prerequisite parser: a verified model

`components/parser.ts` turns a course-prerequisite sentence such as
"CS 101 and (MATH 2413 or MATH 2414) with a grade of C or better" into a tree of
`and`/`or` nodes over courses, parenthesised groups and free-text requirements. It
works in two stages. First, a Chevrotain lexer with nine token patterns tries the
patterns in `allTokens` order at every offset; the first pattern that matches wins,
and whitespace and commas are dropped. Second, an embedded-actions parser with six
rules builds the tree, and `generateAnd`/`generateOr` collapse one-operand lists.

This project models both stages and proves what they guarantee:

- `Lexer.dfy` gives each pattern as a language and as a greedy matcher. Each matcher
  is proved to return the longest match. The scan is proved to follow the
  first-match rule, and the token stream to cover the input, with everything outside
  the tokens being whitespace or commas. The lexer's error path is proved unreachable.
- `Grammar.dfy` gives the six rules as functions over tokens and a cursor (the
  specification of the parser).
- `Parser.dfy` gives the `Calculator` class with its token vector, its cursor and
  its error list. Each rule is a method with the source's `MANY` loops and
  `OPTION`s, and each method is proved to agree with its rule function.
  `ParseInput` is proved equal to `Grammar.Parse`.
- `Ast.dfy` gives the tree, the collapse of `generateAnd`/`generateOr`, and the
  shapes each rule level returns. Those shapes have no `and`/`or` node with fewer
  than two operands, and `or` nodes sit below `and` nodes.
- `Unparse.dfy` writes a tree back as the tokens it came from. It proves that
  parsing and writing are inverse: a tree parses from a token sequence exactly when
  it has the grammar's shape and is written as that sequence. This fixes operand
  order, keeps course codes, grades and free text verbatim, and makes `or` bind
  tighter than `and`.
- `Properties.dfy` derives the consequences:
  - free text in a parsed tree holds no parenthesis, " and " or " or ";
  - parentheses in a parsed input nest: every prefix of its tokens has at least
    as many `(` as `)`, and the whole has as many of each;
  - worked token sequences for precedence, a graded group and each failure.

Points where the patterns behave differently from how they read at first
sight, all of which the model follows:

- The keywords `and` and `or` have no word boundary. `/and/` and `/or/` are tried
  before every pattern except whitespace and comma, so "orientation" lexes as `or`
  followed by free text (`Lexer.ScanKeyword`).
- The free-text pattern stops at a line terminator, because `.` does not match one.
  The next token there is whitespace.
- The grade pattern repeats its optional parts: `(?:minimum )*`, `(of )*`, `-*`,
  `\+*`, `( or (?:higher|better))*`. It does not allow at most one of each.
- Free text stops before " and " or " or " only when the text after it holds the
  whole keyword with both spaces. The lookahead sees past the match, so a trailing
  "foo and" at the end of the input is one free-text token.

## Model

| member | source | states |
|---|---|---|
| Lexer.Priority | components/parser.ts:31-41 | each token type sits at its own index in `allTokens` |
| Lexer.Skipped | components/parser.ts:22-28 | the two token types whose group is `Lexer.SKIPPED`: whitespace and comma |
| Lexer.IsUpper | components/parser.ts:15 | the characters `[A-Z]` matches |
| Lexer.IsDigit | components/parser.ts:15 | the characters `[0-9]` matches |
| Lexer.IsSpace | components/parser.ts:24 | the characters `\s` matches: the ECMAScript white space and line terminators |
| Lexer.IsLineTerminator | components/parser.ts:16 | the characters `.` does not match: `\n`, `\r`, U+2028 and U+2029 |
| Lexer.Blocked | components/parser.ts:16 | the lookahead `(?! and \| or \|\(\|\))` rejects an offset where " and ", " or ", `(` or `)` starts |
| Lexer.SpaceLang | components/parser.ts:24 | `/\s+/`: a non-empty run of `\s` characters |
| Lexer.LiteralLang | components/parser.ts:9-13 | `/and/`, `/or/`, `/\(/`, `/\)/` and `/,/` (line 28): exactly the literal |
| Lexer.CourseLang | components/parser.ts:15 | `[A-Z]+` followed by the course number |
| Lexer.CourseNumberLang | components/parser.ts:15 | ` [0-9][A-Z0-9][0-9]+`: a space, a digit, a capital or digit, then one or more digits |
| Lexer.GradeLang | components/parser.ts:19 | "with a " followed by the rest of the grade clause |
| Lexer.MinimumsLang | components/parser.ts:19 | `(?:minimum )*grade ` and what follows |
| Lexer.OfsLang | components/parser.ts:19 | `(of )*[ABC]` and what follows |
| Lexer.DashesLang | components/parser.ts:19 | `-*` and what follows |
| Lexer.PlusesLang | components/parser.ts:19 | `\+*` and what follows |
| Lexer.HigherLang | components/parser.ts:19 | `( or (?:higher\|better))*`, possibly empty |
| Lexer.RandomRequestLang | components/parser.ts:16 | one or more characters, none a line terminator and none at a blocked offset |
| Lexer.Lang | components/parser.ts:9-28 | the language of each of the nine patterns |
| Lexer.SpaceEnd | components/parser.ts:22-26 | the run of `\s` it ends is maximal: all spaces before the end, none at it |
| Lexer.DigitEnd | components/parser.ts:15 | the run of digits `[0-9]+` takes is maximal: all digits before the end, none at it |
| Lexer.CourseNumberEnd | components/parser.ts:15 | matches the course number part, and no longer match exists |
| Lexer.CourseEnd | components/parser.ts:15 | the match is in the course language, and every match of that language is no longer |
| Lexer.HigherEnd | components/parser.ts:19 | longest run of " or higher" / " or better" |
| Lexer.HigherAtNonSpace | components/parser.ts:19 | `( or ...)*` matches only the empty string at a character other than a space |
| Lexer.PlusesEnd | components/parser.ts:19 | longest match of `\+*( or ...)*` |
| Lexer.DashesEnd | components/parser.ts:19 | longest match of `-*\+*( or ...)*` |
| Lexer.OfsEnd | components/parser.ts:19 | longest match of `(of )*[ABC]...`, or none when the language has no match |
| Lexer.MinimumsEnd | components/parser.ts:19 | longest match of `(?:minimum )*grade ...`, or none |
| Lexer.GradeEnd | components/parser.ts:17-20 | longest match of the whole grade clause, or none |
| Lexer.RandomRequestEnd | components/parser.ts:16 | the free-text run is maximal: stops only at a blocked offset, a line terminator or the end |
| Lexer.MatchLength | components/parser.ts:9-28 | for every pattern, the length of its longest non-empty match (0 for none) |
| Lexer.LiteralLongest | components/parser.ts:9-13 | a literal pattern's match is its literal or nothing |
| Lexer.FirstMatch | components/parser.ts:31-44 | the first pattern in the list that matches: every earlier one matches nothing; `None` only when none matches |
| Lexer.SomePatternMatches | components/parser.ts:16 | at every offset some pattern matches, so lexing never fails |
| Lexer.Scan | components/parser.ts:31-44 | the lexer step returns the highest-priority matching type and its longest match |
| Lexer.FirstMatchWins | components/parser.ts:31-44 | the index found by `FirstMatch` satisfies the first-match rule |
| Lexer.ScanIsFirstMatch | components/parser.ts:31-44 | the first-match rule determines the step uniquely |
| Lexer.ScanKeyword | components/parser.ts:9-41 | at "and"/"or" the step is always the keyword, with no word boundary |
| Lexer.ScanParen | components/parser.ts:12-41 | a parenthesis is always a token of its own, of length 1 |
| Lexer.ScanCourse | components/parser.ts:15-41 | where a course code matches, the step takes the whole code as a `Course` token, never free text |
| Lexer.ScanGrade | components/parser.ts:17-41 | where a grade clause matches, the step takes the whole clause as a `Grade` token, never free text |
| Lexer.NoMatchAtParen | components/parser.ts:9-28 | no pattern other than the parentheses matches at a parenthesis |
| Lexer.TokenizeFrom | components/parser.ts:22-44 | the tokens are valid, non-skipped, in order, and everything between them is whitespace or comma |
| Lexer.ScannedTokenIsValid | components/parser.ts:31-44 | the text the winning pattern matched is a valid token |
| Lexer.PartitionSkip | components/parser.ts:22-28 | whitespace and comma matches add no token |
| Lexer.PartitionCons | components/parser.ts:31-44 | a valid token before a partition of the rest is a partition |
| Lexer.Tokenize | components/parser.ts:152 | `tokenize(text).tokens` partitions the whole text as above |
| Lexer.ValidTokenIsWellFormed | components/parser.ts:9-20 | a keyword or parenthesis token's image is its literal, and a grade image is non-empty |
| Lexer.TokensAreWellFormed | components/parser.ts:152 | every emitted token is well formed |
| Lexer.RandomRequestText | components/parser.ts:16 | free text holds no parenthesis and no " and " / " or " |
| Lexer.NoKeywordAt | components/parser.ts:16 | no offset inside free text starts " and " or " or " |
| Lexer.RandomRequestImage | components/parser.ts:16 | a RandomRequest token's image is non-empty and clean |
| Ast.Combine | components/parser.ts:48-57 | operands that are not themselves such nodes are exactly the operands of the result; no lone operand is created |
| Ast.AndLevelIsWellShaped | components/parser.ts:69-83 | what `andExpression` returns has no lone operand and is layered |
| Ast.OrLevelIsWellShaped | components/parser.ts:85-97 | what `orExpression` returns is also not an `and` node |
| Ast.AtomicLevelIsWellShaped | components/parser.ts:99-112 | an atomic expression is neither an `and` nor an `or` node |
| Grammar.At | components/parser.ts:73-135 | the `LA(1)` test behind each `MANY`, `OPTION` and `OR` choice: a next token exists and has the given type |
| Grammar.AndRule | components/parser.ts:69-83 | success consumes at least one token and returns an and-level tree |
| Grammar.AndTail | components/parser.ts:73-82 | the loop returns an and-level tree within the input |
| Grammar.OrRule | components/parser.ts:85-97 | success consumes at least one token and returns an or-level tree |
| Grammar.OrTail | components/parser.ts:90-96 | the loop returns an or-level tree within the input |
| Grammar.AtomicRule | components/parser.ts:99-112 | success consumes a token and returns an atomic tree |
| Grammar.CourseRule | components/parser.ts:114-125 | success consumes a token and returns a course |
| Grammar.ParenRule | components/parser.ts:127-140 | success returns a group |
| Grammar.ParseTokens | components/parser.ts:64-67 | a successful parse is and-level |
| Grammar.Parse | components/parser.ts:151-161 | a successful parse has no lone operand and is layered |
| Parser.Calculator.constructor | components/parser.ts:153-154 | setting the input resets the cursor and the errors |
| Parser.Calculator.Next | components/parser.ts:73-135 | the same `LA(1)` test on the parser's token vector at its cursor |
| Parser.Calculator.Consume | components/parser.ts:76 | `CONSUME` takes the next token exactly when its type matches, else fails and leaves the cursor |
| Parser.Calculator.Expression | components/parser.ts:64-67 | no error is recorded exactly when the token parse succeeds, and then the result is its tree |
| Parser.Calculator.AndExpression | components/parser.ts:69-83 | outcome and cursor agree with `Grammar.AndRule` |
| Parser.Calculator.OrExpression | components/parser.ts:85-97 | outcome and cursor agree with `Grammar.OrRule` |
| Parser.Calculator.AtomicBooleanExpression | components/parser.ts:99-112 | outcome and cursor agree with `Grammar.AtomicRule` |
| Parser.Calculator.CourseExpression | components/parser.ts:114-125 | outcome and cursor agree with `Grammar.CourseRule` |
| Parser.Calculator.ParenthesisExpression | components/parser.ts:127-140 | outcome and cursor agree with `Grammar.ParenRule` |
| Parser.ParseInput | components/parser.ts:151-161 | the result is `Grammar.Parse(text)`: a tree, or failure when any error was recorded |
| Unparse.RenderCombine | components/parser.ts:48-57 | collapsing does not change how the operands are written |
| Unparse.AndRuleSpells | components/parser.ts:69-83 | what `andExpression` consumed is exactly the writing of the tree it returned |
| Unparse.AndTailSpells | components/parser.ts:73-82 | the same for the `and` loop, given the operands read so far |
| Unparse.OrRuleSpells | components/parser.ts:85-97 | what `orExpression` consumed is exactly the writing of its tree |
| Unparse.OrTailSpells | components/parser.ts:90-96 | the same for the `or` loop |
| Unparse.GradeSpells | components/parser.ts:119-121 | a grade token is spelled by its grade suffix |
| Unparse.GroupSpells | components/parser.ts:131-138 | brackets, inner tree and grade spell the group |
| Unparse.ParenRuleSpells | components/parser.ts:127-140 | what `parenthesisExpression` consumed is exactly the writing of its group |
| Unparse.AtomicRuleSpells | components/parser.ts:99-125 | what `atomicBooleanExpression` consumed is exactly the writing of its tree |
| Unparse.AndTailStop | components/parser.ts:82 | with no `And` next, the loop returns the collapsed operands |
| Unparse.OrTailStop | components/parser.ts:96 | with no `Or` next, the loop returns the collapsed operands |
| Unparse.AndRuleReads | components/parser.ts:69-83 | the writing of an and-level tree, followed by no `And`/`Or`/`Grade`, parses back to that tree |
| Unparse.AndRuleReadsOperand | components/parser.ts:82 | a lone operand comes back unwrapped |
| Unparse.AndNodeHead | components/parser.ts:72 | the first operand of a written `and` node is read by `orExpression` |
| Unparse.AndRuleReadsNode | components/parser.ts:69-83 | a written `and` node parses back to the same node |
| Unparse.AndTailLoop | components/parser.ts:73-80 | the loop appends, in order, the operands it reads |
| Unparse.AndNodeRest | components/parser.ts:73-82 | after the first operand, the loop reads the written rest of an `and` node and returns the node |
| Unparse.AndTailReads | components/parser.ts:73-80 | the written rest of an `and` node is read operand by operand |
| Unparse.OrRuleReads | components/parser.ts:85-97 | the writing of an or-level tree, followed by no `Or`/`Grade`, parses back to that tree |
| Unparse.OrRuleReadsOperand | components/parser.ts:96 | a lone operand comes back unwrapped |
| Unparse.OrNodeHead | components/parser.ts:89 | the first operand of a written `or` node is read by `atomicBooleanExpression` |
| Unparse.OrRuleReadsNode | components/parser.ts:85-97 | a written `or` node parses back to the same node |
| Unparse.OrTailLoop | components/parser.ts:90-94 | the loop appends, in order, the operands it reads |
| Unparse.OrNodeRest | components/parser.ts:90-96 | after the first operand, the loop reads the written rest of an `or` node and returns the node |
| Unparse.OrTailReads | components/parser.ts:90-94 | the written rest of an `or` node is read operand by operand |
| Unparse.AtomicRuleReads | components/parser.ts:99-112 | the writing of an atomic tree parses back to that tree |
| Unparse.CourseReads | components/parser.ts:114-125 | a written course, followed by no grade, parses back with its code and grade |
| Unparse.GroupReads | components/parser.ts:127-140 | a written group parses back with its inner tree and grade |
| Unparse.ParseTokensIsRenderInverse | components/parser.ts:64-83 | the top rule returns `e` exactly when `e` is and-level and the tokens are its writing |
| Unparse.ParseIsRenderInverse | components/parser.ts:151-161 | `parseInput(text)` returns `e` exactly when `e` is and-level and the tokens of `text` are its writing |
| Properties.SpelledSpecialsClean | components/parser.ts:107-108 | free-text leaves of a tree spelled by clean tokens are clean |
| Properties.ParsedSpecialsAreClean | components/parser.ts:16 | every free-text leaf of a parsed tree is non-empty and has no parenthesis, " and " or " or " |
| Properties.NestedAppend | components/parser.ts:127-140 | two nested token sequences in a row are nested |
| Properties.NestedWrap | components/parser.ts:131-133 | a nested sequence between `(` and `)` is nested |
| Properties.RenderNested | components/parser.ts:127-140 | the writing of every tree has nested parentheses |
| Properties.JoinedNested | components/parser.ts:73-80 | operands joined by a keyword keep their parentheses nested |
| Properties.TrailingNested | components/parser.ts:90-94 | the operands after the first, each behind its keyword, keep them nested |
| Properties.ParsedTokensNest | components/parser.ts:64-83 | tokens the top rule accepts have nested parentheses |
| Properties.ParsedParensNest | components/parser.ts:151-161 | an input that `parseInput` accepts has nested parentheses, so a `)` before its `(`, or an unclosed `(`, fails |
| Properties.StrayCloseFails | components/parser.ts:64-67 | "CS 101) or (CS 102", as many `(` as `)` but not nested, fails |
| Properties.OrBindsTighter | components/parser.ts:69-97 | "A and B or C" parses as `And(A, Or(B, C))` |
| Properties.AndBindsLooser | components/parser.ts:69-97 | "A or B and C" parses as `And(Or(A, B), C)` |
| Properties.GroupTakesGrade | components/parser.ts:127-140 | "(A or B) with a grade of C" is a group carrying that grade |
| Properties.UnclosedGroupFails | components/parser.ts:133 | a group with no `)` fails |
| Properties.LeftoverTokenFails | components/parser.ts:155-158 | a token left after the top rule fails |
| Properties.MissingOperandFails | components/parser.ts:76-79 | `and` with no right operand fails |
| Properties.NoAlternativeFails | components/parser.ts:99-112 | a grade with no course, and no tokens at all, fail |

## Left out

- `prettyPrint` (lines 163-168) only logs and calls `parseInput`, so console output is not modelled.
- Chevrotain's internals are not modelled: grammar recording, `performSelfAnalysis`, error recovery and the text of error messages. Any recognition exception is one failure, and tokens left over are a second kind of error.
- The module-level singletons `CalculatorLexer` and `parser` are not modelled. Each `ParseInput` builds a fresh `Calculator`, which is what the `input` setter's reset gives.
- The thrown `Error` of line 158 is a `Failure` result.
- `parseInput`'s result is the tree itself. Its JSON object shapes are listed in `Ast.Expr` but not serialized.
- Strings are sequences of Dafny characters. JavaScript strings are UTF-16 code units, so offsets of text beyond the Basic Multilingual Plane are not modelled.
- The lexer's error list is not modelled: `Lexer.SomePatternMatches` proves that its error path (no pattern matches) is never taken.
- Ast.Combine: requires at least one operand. `generateAnd`/`generateOr` also return the bare array for a list of length 0 or 1, but lines 82 and 96 never pass them one and the operand lists always start with one operand, so that branch is not modelled.
- The worked examples in `Properties` are token sequences. No concrete sentence is worked through the lexer; the lexer is covered by its general lemmas.
