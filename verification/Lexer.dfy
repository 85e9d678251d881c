/** The lexer of components/parser.ts: nine token patterns, tried in the order of
    `allTokens` at the current offset; the first pattern that matches wins, and the
    WhiteSpace and Comma tokens are dropped (their group is SKIPPED).

    Each regular expression of lines 9-28 is given twice: once as a language (a
    predicate saying which slices `s[i..j]` it matches, written as a right-linear
    grammar that follows the regular expression piece by piece) and once as a
    hand-written greedy matcher. Each matcher is proved to return the LONGEST
    non-empty prefix in its language; for these nine expressions that is the match a
    backtracking JavaScript engine finds first, because every quantifier is greedy
    and no shorter choice can be extended past the point where the greedy one stops. */
module Lexer {

  import opened Wrappers

  /** The token types of lines 9-28. */
  datatype TokenType =
    | WhiteSpace | Comma | And | Or | Course | Grade | RandomRequest | LParen | RParen

  /** `allTokens`, lines 31-41: the order in which the patterns are tried. */
  const AllTokens: seq<TokenType> :=
    [WhiteSpace, Comma, And, Or, Course, Grade, RandomRequest, LParen, RParen]

  /** The position of a token type in `allTokens`. */
  function Priority(t: TokenType): (p: nat)
    ensures p < |AllTokens| && AllTokens[p] == t
  {
    match t
    case WhiteSpace => 0
    case Comma => 1
    case And => 2
    case Or => 3
    case Course => 4
    case Grade => 5
    case RandomRequest => 6
    case LParen => 7
    case RParen => 8
  }

  /** Token types whose group is `Lexer.SKIPPED` (lines 22-28). */
  predicate Skipped(t: TokenType) {
    t == WhiteSpace || t == Comma
  }

  /** A token: its type, the text it matched (`image`) and where that text starts. */
  datatype Token = Token(tokenType: TokenType, image: string, startOffset: nat)

  // ---------------------------------------------------------------------------
  // Character classes

  /** `\s` of a JavaScript regular expression. */
  predicate IsSpace(c: char) {
    || c in {'\t', '\n', '\U{000B}', '\U{000C}', '\r', ' ', '\U{00A0}', '\U{1680}'}
    || c in {'\U{2028}', '\U{2029}', '\U{202F}', '\U{205F}', '\U{3000}', '\U{FEFF}'}
    || '\U{2000}' <= c <= '\U{200A}'
  }

  /** The characters that `.` of a JavaScript regular expression does not match. */
  predicate IsLineTerminator(c: char) {
    c in {'\n', '\r', '\U{2028}', '\U{2029}'}
  }

  predicate IsUpper(c: char) {
    'A' <= c <= 'Z'
  }

  predicate IsDigit(c: char) {
    '0' <= c <= '9'
  }

  /** `s` holds `lit` at offset `i`. */
  predicate StartsWith(s: string, i: nat, lit: string) {
    i + |lit| <= |s| && s[i..i + |lit|] == lit
  }

  /** The negative lookahead `(?! and | or |\(|\))` of line 16, at offset `k` of the
      whole input (the lookahead sees past the end of the match). */
  predicate Blocked(s: string, k: nat) {
    StartsWith(s, k, " and ") || StartsWith(s, k, " or ") || StartsWith(s, k, "(") || StartsWith(s, k, ")")
  }

  /** `lit` occurs somewhere in `w`. */
  ghost predicate Occurs(lit: string, w: string) {
    exists k: nat :: StartsWith(w, k, lit)
  }

  lemma StartsWithHead(s: string, i: nat, lit: string)
    requires |lit| > 0
    ensures StartsWith(s, i, lit) ==> s[i] == lit[0]
  {
    if StartsWith(s, i, lit) {
      assert s[i..i + |lit|][0] == s[i];
    }
  }

  lemma StartsWithChar(s: string, k: nat, c: char)
    requires k < |s|
    ensures StartsWith(s, k, [c]) <==> s[k] == c
  {
    assert s[k..k + 1] == [s[k]];
  }

  lemma SliceOfSlice(s: string, i: nat, j: nat, a: nat, b: nat)
    requires i <= j <= |s| && a <= b <= j - i
    ensures s[i..j][a..b] == s[i + a..i + b]
  {
    assert forall m :: 0 <= m < b - a ==> s[i..j][a..b][m] == s[i + a..i + b][m];
  }

  // ---------------------------------------------------------------------------
  // The languages of the nine patterns: which slices s[i..j] each one matches

  /** `/\s+/` (line 24). */
  ghost predicate SpaceLang(s: string, i: nat, j: nat) {
    i < j <= |s| && forall k :: i <= k < j ==> IsSpace(s[k])
  }

  /** A literal pattern: `/and/`, `/or/`, `/\(/`, `/\)/`, `/,/`. */
  ghost predicate LiteralLang(s: string, i: nat, j: nat, lit: string) {
    j == i + |lit| && StartsWith(s, i, lit)
  }

  /** `[A-Z]+ [0-9][A-Z0-9][0-9]+` (line 15), one capital letter at a time. */
  ghost predicate CourseLang(s: string, i: nat, j: nat)
    decreases j - i
  {
    i < j <= |s| && IsUpper(s[i]) && (CourseLang(s, i + 1, j) || CourseNumberLang(s, i + 1, j))
  }

  /** ` [0-9][A-Z0-9][0-9]+`: what follows the capital letters of a course. */
  ghost predicate CourseNumberLang(s: string, i: nat, j: nat) {
    && i + 4 <= j <= |s|
    && s[i] == ' ' && IsDigit(s[i + 1]) && (IsUpper(s[i + 2]) || IsDigit(s[i + 2]))
    && forall k :: i + 3 <= k < j ==> IsDigit(s[k])
  }

  /** `with a (?:minimum )*grade (of )*[ABC]-*\+*( or (?:higher|better))*` (line 19). */
  ghost predicate GradeLang(s: string, i: nat, j: nat) {
    StartsWith(s, i, "with a ") && MinimumsLang(s, i + 7, j)
  }

  /** `(?:minimum )*grade (of )*[ABC]-*\+*( or (?:higher|better))*` */
  ghost predicate MinimumsLang(s: string, i: nat, j: nat)
    decreases |s| - i
  {
    || (StartsWith(s, i, "minimum ") && MinimumsLang(s, i + 8, j))
    || (StartsWith(s, i, "grade ") && OfsLang(s, i + 6, j))
  }

  /** `(of )*[ABC]-*\+*( or (?:higher|better))*` */
  ghost predicate OfsLang(s: string, i: nat, j: nat)
    decreases |s| - i
  {
    || (StartsWith(s, i, "of ") && OfsLang(s, i + 3, j))
    || (i < j <= |s| && s[i] in {'A', 'B', 'C'} && DashesLang(s, i + 1, j))
  }

  /** `-*\+*( or (?:higher|better))*` */
  ghost predicate DashesLang(s: string, i: nat, j: nat)
    decreases |s| - i
  {
    || (i < j <= |s| && s[i] == '-' && DashesLang(s, i + 1, j))
    || PlusesLang(s, i, j)
  }

  /** `\+*( or (?:higher|better))*` */
  ghost predicate PlusesLang(s: string, i: nat, j: nat)
    decreases |s| - i
  {
    || (i < j <= |s| && s[i] == '+' && PlusesLang(s, i + 1, j))
    || HigherLang(s, i, j)
  }

  /** `( or (?:higher|better))*` */
  ghost predicate HigherLang(s: string, i: nat, j: nat)
    decreases |s| - i
  {
    || i == j <= |s|
    || ((StartsWith(s, i, " or higher") || StartsWith(s, i, " or better")) && HigherLang(s, i + 10, j))
  }

  /** `((?! and | or |\(|\)).)+` (line 16). */
  ghost predicate RandomRequestLang(s: string, i: nat, j: nat) {
    i < j <= |s| && forall k :: i <= k < j ==> !Blocked(s, k) && !IsLineTerminator(s[k])
  }

  /** The language of each token type's pattern. */
  ghost predicate Lang(t: TokenType, s: string, i: nat, j: nat) {
    match t
    case WhiteSpace => SpaceLang(s, i, j)
    case Comma => LiteralLang(s, i, j, ",")
    case And => LiteralLang(s, i, j, "and")
    case Or => LiteralLang(s, i, j, "or")
    case Course => CourseLang(s, i, j)
    case Grade => GradeLang(s, i, j)
    case RandomRequest => RandomRequestLang(s, i, j)
    case LParen => LiteralLang(s, i, j, "(")
    case RParen => LiteralLang(s, i, j, ")")
  }

  /** `n` is the length of the longest non-empty prefix of `s[i..]` that the pattern
      of `t` matches, and 0 when it matches none. */
  ghost predicate Longest(t: TokenType, s: string, i: nat, n: nat) {
    && i + n <= |s|
    && (n > 0 ==> Lang(t, s, i, i + n))
    && forall j: nat :: i < j <= |s| && Lang(t, s, i, j) ==> j <= i + n
  }

  /** The pattern of `t` matches no non-empty prefix of `s[i..]`. */
  ghost predicate NoMatch(t: TokenType, s: string, i: nat) {
    forall j: nat :: i < j <= |s| ==> !Lang(t, s, i, j)
  }

  // ---------------------------------------------------------------------------
  // Greedy matchers

  /** End of the run of `\s` characters starting at `i`. */
  function SpaceEnd(s: string, i: nat): (e: nat)
    requires i <= |s|
    decreases |s| - i
    ensures i <= e <= |s|
    ensures forall k :: i <= k < e ==> IsSpace(s[k])
    ensures e < |s| ==> !IsSpace(s[e])
  {
    if i < |s| && IsSpace(s[i]) then SpaceEnd(s, i + 1) else i
  }

  /** End of the run of digits starting at `i`. */
  function DigitEnd(s: string, i: nat): (e: nat)
    requires i <= |s|
    decreases |s| - i
    ensures i <= e <= |s|
    ensures forall k :: i <= k < e ==> IsDigit(s[k])
    ensures e < |s| ==> !IsDigit(s[e])
  {
    if i < |s| && IsDigit(s[i]) then DigitEnd(s, i + 1) else i
  }

  /** ` [0-9][A-Z0-9][0-9]+` at `i`; the digit run is taken whole. */
  function CourseNumberEnd(s: string, i: nat): (r: Option<nat>)
    requires i <= |s|
    ensures r.Some? ==> r.value <= |s| && CourseNumberLang(s, i, r.value)
    ensures forall j: nat :: CourseNumberLang(s, i, j) ==> r.Some? && j <= r.value
  {
    if && i + 3 < |s|
       && s[i] == ' ' && IsDigit(s[i + 1]) && (IsUpper(s[i + 2]) || IsDigit(s[i + 2]))
       && IsDigit(s[i + 3])
    then Some(DigitEnd(s, i + 3))
    else None
  }

  /** `[A-Z]+ [0-9][A-Z0-9][0-9]+` at `i`: all capitals, then the number. */
  function CourseEnd(s: string, i: nat): (r: Option<nat>)
    requires i <= |s|
    decreases |s| - i
    ensures r.Some? ==> i < r.value <= |s| && CourseLang(s, i, r.value)
    ensures forall j: nat :: CourseLang(s, i, j) ==> r.Some? && j <= r.value
  {
    if i < |s| && IsUpper(s[i]) then
      if i + 1 < |s| && IsUpper(s[i + 1]) then CourseEnd(s, i + 1) else CourseNumberEnd(s, i + 1)
    else
      None
  }

  function HigherEnd(s: string, i: nat): (e: nat)
    requires i <= |s|
    decreases |s| - i
    ensures i <= e <= |s| && HigherLang(s, i, e)
    ensures forall j: nat :: HigherLang(s, i, j) ==> j <= e
  {
    if StartsWith(s, i, " or higher") || StartsWith(s, i, " or better") then HigherEnd(s, i + 10) else i
  }

  function PlusesEnd(s: string, i: nat): (e: nat)
    requires i <= |s|
    decreases |s| - i
    ensures i <= e <= |s| && PlusesLang(s, i, e)
    ensures forall j: nat :: PlusesLang(s, i, j) ==> j <= e
  {
    if i < |s| && s[i] == '+' then
      HigherAtNonSpace(s, i);
      PlusesEnd(s, i + 1)
    else
      HigherEnd(s, i)
  }

  /** `( or (?:higher|better))*` matches only the empty string at a character other
      than a space. */
  lemma HigherAtNonSpace(s: string, i: nat)
    requires i < |s| && s[i] != ' '
    ensures forall j: nat :: HigherLang(s, i, j) ==> j == i
  {
    StartsWithHead(s, i, " or higher");
    StartsWithHead(s, i, " or better");
  }

  function DashesEnd(s: string, i: nat): (e: nat)
    requires i <= |s|
    decreases |s| - i
    ensures i <= e <= |s| && DashesLang(s, i, e)
    ensures forall j: nat :: DashesLang(s, i, j) ==> j <= e
  {
    if i < |s| && s[i] == '-' then
      HigherAtNonSpace(s, i);
      DashesEnd(s, i + 1)
    else
      PlusesEnd(s, i)
  }

  function OfsEnd(s: string, i: nat): (r: Option<nat>)
    requires i <= |s|
    decreases |s| - i
    ensures r.Some? ==> i < r.value <= |s| && OfsLang(s, i, r.value)
    ensures forall j: nat :: OfsLang(s, i, j) ==> r.Some? && j <= r.value
  {
    if StartsWith(s, i, "of ") then OfsEnd(s, i + 3)
    else if i < |s| && s[i] in {'A', 'B', 'C'} then Some(DashesEnd(s, i + 1))
    else None
  }

  function MinimumsEnd(s: string, i: nat): (r: Option<nat>)
    requires i <= |s|
    decreases |s| - i
    ensures r.Some? ==> i < r.value <= |s| && MinimumsLang(s, i, r.value)
    ensures forall j: nat :: MinimumsLang(s, i, j) ==> r.Some? && j <= r.value
  {
    if StartsWith(s, i, "minimum ") then
      StartsWithHead(s, i, "minimum ");
      StartsWithHead(s, i, "grade ");
      MinimumsEnd(s, i + 8)
    else if StartsWith(s, i, "grade ") then OfsEnd(s, i + 6)
    else None
  }

  function GradeEnd(s: string, i: nat): (r: Option<nat>)
    requires i <= |s|
    ensures r.Some? ==> i < r.value <= |s| && GradeLang(s, i, r.value)
    ensures forall j: nat :: GradeLang(s, i, j) ==> r.Some? && j <= r.value
  {
    if StartsWith(s, i, "with a ") then MinimumsEnd(s, i + 7) else None
  }

  /** End of the run of characters, from `i`, that `.` matches and where the
      lookahead of line 16 lets the match go on. */
  function RandomRequestEnd(s: string, i: nat): (e: nat)
    requires i <= |s|
    decreases |s| - i
    ensures i <= e <= |s|
    ensures forall k :: i <= k < e ==> !Blocked(s, k) && !IsLineTerminator(s[k])
    ensures e < |s| ==> Blocked(s, e) || IsLineTerminator(s[e])
  {
    if i < |s| && !Blocked(s, i) && !IsLineTerminator(s[i]) then RandomRequestEnd(s, i + 1) else i
  }

  function EndLength(r: Option<nat>, i: nat): nat {
    if r.Some? && r.value >= i then r.value - i else 0
  }

  function LiteralLength(s: string, i: nat, lit: string): nat {
    if StartsWith(s, i, lit) then |lit| else 0
  }

  /** How much the pattern of `t` matches at `i` (0: no match). */
  function MatchLength(t: TokenType, s: string, i: nat): (n: nat)
    requires i <= |s|
    ensures Longest(t, s, i, n)
  {
    match t
    case WhiteSpace => SpaceLongest(s, i); SpaceEnd(s, i) - i
    case Comma => LiteralLongest(t, s, i, ","); LiteralLength(s, i, ",")
    case And => LiteralLongest(t, s, i, "and"); LiteralLength(s, i, "and")
    case Or => LiteralLongest(t, s, i, "or"); LiteralLength(s, i, "or")
    case Course => EndLongest(t, s, i, CourseEnd(s, i)); EndLength(CourseEnd(s, i), i)
    case Grade => EndLongest(t, s, i, GradeEnd(s, i)); EndLength(GradeEnd(s, i), i)
    case RandomRequest => RandomRequestLongest(s, i); RandomRequestEnd(s, i) - i
    case LParen => LiteralLongest(t, s, i, "("); LiteralLength(s, i, "(")
    case RParen => LiteralLongest(t, s, i, ")"); LiteralLength(s, i, ")")
  }

  lemma SpaceLongest(s: string, i: nat)
    requires i <= |s|
    ensures Longest(WhiteSpace, s, i, SpaceEnd(s, i) - i)
  {
  }

  lemma RandomRequestLongest(s: string, i: nat)
    requires i <= |s|
    ensures Longest(RandomRequest, s, i, RandomRequestEnd(s, i) - i)
  {
  }

  lemma LiteralLongest(t: TokenType, s: string, i: nat, lit: string)
    requires i <= |s| && |lit| > 0
    requires forall j :: Lang(t, s, i, j) <==> LiteralLang(s, i, j, lit)
    ensures Longest(t, s, i, LiteralLength(s, i, lit))
  {
  }

  lemma EndLongest(t: TokenType, s: string, i: nat, r: Option<nat>)
    requires i <= |s|
    requires r.Some? ==> i < r.value <= |s| && Lang(t, s, i, r.value)
    requires forall j: nat :: Lang(t, s, i, j) ==> r.Some? && j <= r.value
    ensures Longest(t, s, i, EndLength(r, i))
  {
  }

  /** The index of the first of `patterns` that matches at `i`, as Chevrotain's lexer
      tries them (first match, not longest match, across patterns). */
  function FirstMatch(patterns: seq<TokenType>, s: string, i: nat): (r: Option<nat>)
    requires i <= |s|
    ensures r.Some? ==> r.value < |patterns| && MatchLength(patterns[r.value], s, i) > 0
    ensures r.Some? ==> forall m :: 0 <= m < r.value ==> NoMatch(patterns[m], s, i)
    ensures r.None? ==> forall m :: 0 <= m < |patterns| ==> NoMatch(patterns[m], s, i)
  {
    if patterns == [] then None
    else if MatchLength(patterns[0], s, i) > 0 then Some(0)
    else
      match FirstMatch(patterns[1..], s, i)
      case None => None
      case Some(k) => Some(k + 1)
  }

  /** At every offset some pattern matches: a character that is not `\s`, `(` or `)`
      starts a RandomRequest, since a blocked position starts with a space or a
      parenthesis and every line terminator is `\s`. So the lexer's error path
      (no pattern matches) is never taken. */
  lemma SomePatternMatches(s: string, i: nat)
    requires i < |s|
    ensures FirstMatch(AllTokens, s, i).Some?
  {
    var t := if IsSpace(s[i]) then WhiteSpace
             else if s[i] == '(' then LParen
             else if s[i] == ')' then RParen
             else RandomRequest;
    assert Lang(t, s, i, i + 1);
    assert AllTokens[Priority(t)] == t;
  }

  /** `t` is the type of the first pattern in `allTokens` order that matches at `i`,
      and `n` the length it matches. */
  ghost predicate FirstMatchAt(s: string, i: nat, t: TokenType, n: nat) {
    && n > 0
    && Longest(t, s, i, n)
    && forall u :: Priority(u) < Priority(t) ==> NoMatch(u, s, i)
  }

  /** One step of the lexer at offset `i`: the winning type and its length. */
  function Scan(s: string, i: nat): (r: (TokenType, nat))
    requires i < |s|
    ensures FirstMatchAt(s, i, r.0, r.1)
  {
    SomePatternMatches(s, i);
    var k := FirstMatch(AllTokens, s, i).value;
    FirstMatchWins(s, i, k);
    (AllTokens[k], MatchLength(AllTokens[k], s, i))
  }

  /** The first pattern in `allTokens` order that matches is the first match. */
  lemma FirstMatchWins(s: string, i: nat, k: nat)
    requires i < |s| && FirstMatch(AllTokens, s, i) == Some(k)
    ensures FirstMatchAt(s, i, AllTokens[k], MatchLength(AllTokens[k], s, i))
  {
    assert Priority(AllTokens[k]) == k;
    forall u | Priority(u) < Priority(AllTokens[k])
      ensures NoMatch(u, s, i)
    {
      assert AllTokens[Priority(u)] == u;
    }
  }

  /** The lexer's step is determined by the first-match rule: whatever type and
      length satisfy it are what `Scan` returns. */
  lemma ScanIsFirstMatch(s: string, i: nat, t: TokenType, n: nat)
    requires i < |s| && FirstMatchAt(s, i, t, n)
    ensures Scan(s, i) == (t, n)
  {
    var (t', n') := Scan(s, i);
    assert Lang(t', s, i, i + n') && Lang(t, s, i, i + n);
    assert Priority(t') == Priority(t);
    assert AllTokens[Priority(t)] == t && AllTokens[Priority(t')] == t';
    assert Lang(t, s, i, i + n) && Lang(t, s, i, i + n');
  }

  /** `and` and `or` are matched wherever their letters start, with no word
      boundary: "orientation" at a token boundary is the keyword `or` followed by
      more text. */
  lemma ScanKeyword(s: string, i: nat)
    requires i < |s|
    ensures StartsWith(s, i, "and") ==> Scan(s, i) == (And, 3)
    ensures StartsWith(s, i, "or") ==> Scan(s, i) == (Or, 2)
  {
    StartsWithHead(s, i, "and");
    StartsWithHead(s, i, "or");
    StartsWithHead(s, i, ",");
    if StartsWith(s, i, "and") {
      assert forall j: nat :: i < j <= |s| ==> !SpaceLang(s, i, j);
      ScanIsFirstMatch(s, i, And, 3);
    }
    if StartsWith(s, i, "or") {
      assert forall j: nat :: i < j <= |s| ==> !SpaceLang(s, i, j);
      ScanIsFirstMatch(s, i, Or, 2);
    }
  }

  /** Where the course pattern matches, the lexer takes the whole course code: no
      earlier pattern matches at a capital letter, and the free-text pattern comes
      later. */
  lemma ScanCourse(s: string, i: nat)
    requires i < |s| && MatchLength(Course, s, i) > 0
    ensures Scan(s, i) == (Course, MatchLength(Course, s, i))
  {
    var n := MatchLength(Course, s, i);
    assert CourseLang(s, i, i + n);
    StartsWithHead(s, i, ",");
    StartsWithHead(s, i, "and");
    StartsWithHead(s, i, "or");
    forall u | Priority(u) < Priority(Course)
      ensures NoMatch(u, s, i)
    {
      assert u in {WhiteSpace, Comma, And, Or};
    }
    ScanIsFirstMatch(s, i, Course, n);
  }

  /** Where the grade pattern matches, the lexer takes the whole grade clause. */
  lemma ScanGrade(s: string, i: nat)
    requires i < |s| && MatchLength(Grade, s, i) > 0
    ensures Scan(s, i) == (Grade, MatchLength(Grade, s, i))
  {
    var n := MatchLength(Grade, s, i);
    assert GradeLang(s, i, i + n);
    StartsWithHead(s, i, "with a ");
    StartsWithHead(s, i, ",");
    StartsWithHead(s, i, "and");
    StartsWithHead(s, i, "or");
    forall u | Priority(u) < Priority(Grade)
      ensures NoMatch(u, s, i)
    {
      assert u in {WhiteSpace, Comma, And, Or, Course};
    }
    ScanIsFirstMatch(s, i, Grade, n);
  }

  /** A parenthesis is always a token of its own: the free-text pattern refuses to
      start at one, and no earlier pattern can. */
  lemma ScanParen(s: string, i: nat)
    requires i < |s|
    ensures s[i] == '(' ==> Scan(s, i) == (LParen, 1)
    ensures s[i] == ')' ==> Scan(s, i) == (RParen, 1)
  {
    StartsWithChar(s, i, '(');
    StartsWithChar(s, i, ')');
    if s[i] == '(' || s[i] == ')' {
      forall u | u != LParen && u != RParen
        ensures NoMatch(u, s, i)
      {
        NoMatchAtParen(s, i, u);
      }
      if s[i] == '(' {
        ScanIsFirstMatch(s, i, LParen, 1);
      } else {
        ScanIsFirstMatch(s, i, RParen, 1);
      }
    }
  }

  /** No pattern other than the two parentheses matches at a parenthesis. */
  lemma NoMatchAtParen(s: string, i: nat, u: TokenType)
    requires i < |s| && (s[i] == '(' || s[i] == ')') && u != LParen && u != RParen
    ensures NoMatch(u, s, i)
  {
    match u
    case WhiteSpace =>
    case Comma => StartsWithHead(s, i, ",");
    case And => StartsWithHead(s, i, "and");
    case Or => StartsWithHead(s, i, "or");
    case Course =>
    case Grade => StartsWithHead(s, i, "with a ");
    case RandomRequest =>
      StartsWithChar(s, i, '(');
      StartsWithChar(s, i, ')');
      assert Blocked(s, i);
  }

  predicate IsSkipChar(c: char) {
    IsSpace(c) || c == ','
  }

  function End(t: Token): nat {
    t.startOffset + |t.image|
  }

  /** A token the lexer may emit for `s`: not skipped, its image the text of `s` at
      its offset, and its type the first pattern that matches there. */
  ghost predicate ValidToken(s: string, t: Token) {
    && !Skipped(t.tokenType)
    && End(t) <= |s|
    && t.image == s[t.startOffset..End(t)]
    && FirstMatchAt(s, t.startOffset, t.tokenType, |t.image|)
  }

  /** `toks` are valid tokens of `s`, in order, at or after `i`, and every character
      of `s[i..]` outside them is whitespace or a comma. */
  ghost predicate Partition(s: string, i: nat, toks: seq<Token>) {
    && (forall t <- toks :: i <= t.startOffset && ValidToken(s, t))
    && InOrder(toks)
    && GapsSkipped(s, i, toks)
  }

  predicate InOrder(toks: seq<Token>) {
    forall k :: 0 <= k < |toks| - 1 ==> End(toks[k]) <= toks[k + 1].startOffset
  }

  /** Every character of `s[i..]` before, between or after `toks` is whitespace or
      a comma. */
  predicate GapsSkipped(s: string, i: nat, toks: seq<Token>) {
    && (forall p :: i <= p < |s| && (toks == [] || p < toks[0].startOffset) ==> IsSkipChar(s[p]))
    && (forall k, p :: 0 <= k < |toks| - 1 && End(toks[k]) <= p < toks[k + 1].startOffset && p < |s| ==> IsSkipChar(s[p]))
    && (toks != [] ==> forall p :: End(toks[|toks| - 1]) <= p < |s| ==> IsSkipChar(s[p]))
  }

  /** The tokens of `s[i..]`. */
  function TokenizeFrom(s: string, i: nat): (toks: seq<Token>)
    requires i <= |s|
    decreases |s| - i
    ensures Partition(s, i, toks)
  {
    if i == |s| then []
    else
      var (t, n) := Scan(s, i);
      var rest := TokenizeFrom(s, i + n);
      if Skipped(t) then
        PartitionSkip(s, i, t, n, rest);
        rest
      else
        var tok := Token(t, s[i..i + n], i);
        ScannedTokenIsValid(s, i, t, n);
        PartitionCons(s, tok, rest);
        [tok] + rest
  }

  /** The text the winning pattern matched, with its type and offset, is a valid
      token. */
  lemma ScannedTokenIsValid(s: string, i: nat, t: TokenType, n: nat)
    requires i < |s| && !Skipped(t) && FirstMatchAt(s, i, t, n)
    ensures i + n <= |s|
    ensures ValidToken(s, Token(t, s[i..i + n], i)) && End(Token(t, s[i..i + n], i)) == i + n
  {
  }

  /** Text a skipped pattern matched extends a partition to the left. */
  lemma PartitionSkip(s: string, i: nat, t: TokenType, n: nat, rest: seq<Token>)
    requires Skipped(t) && n > 0 && Longest(t, s, i, n)
    requires Partition(s, i + n, rest)
    ensures Partition(s, i, rest)
  {
    assert Lang(t, s, i, i + n);
    forall p | i <= p < i + n
      ensures IsSkipChar(s[p])
    {
      if t == Comma {
        assert s[i..i + 1] == ",";
        assert s[i] == s[i..i + 1][0];
      }
    }
  }

  /** A valid token followed by a partition of the rest is a partition. */
  lemma PartitionCons(s: string, tok: Token, rest: seq<Token>)
    requires ValidToken(s, tok)
    requires Partition(s, End(tok), rest)
    ensures Partition(s, tok.startOffset, [tok] + rest)
  {
    var toks := [tok] + rest;
    assert forall t <- toks :: t == tok || t in rest;
    assert rest != [] ==> End(tok) <= rest[0].startOffset;
    InOrderCons(tok, rest);
    GapsCons(s, tok, rest);
  }

  lemma InOrderCons(tok: Token, rest: seq<Token>)
    requires InOrder(rest) && (rest != [] ==> End(tok) <= rest[0].startOffset)
    ensures InOrder([tok] + rest)
  {
    var toks := [tok] + rest;
    forall k | 0 <= k < |toks| - 1
      ensures End(toks[k]) <= toks[k + 1].startOffset
    {
      if k > 0 {
        assert toks[k] == rest[k - 1] && toks[k + 1] == rest[k];
      }
    }
  }

  lemma GapsCons(s: string, tok: Token, rest: seq<Token>)
    requires GapsSkipped(s, End(tok), rest) && End(tok) <= |s|
    ensures GapsSkipped(s, tok.startOffset, [tok] + rest)
  {
    var toks := [tok] + rest;
    forall k, p | 0 <= k < |toks| - 1 && End(toks[k]) <= p < toks[k + 1].startOffset && p < |s|
      ensures IsSkipChar(s[p])
    {
      if k > 0 {
        assert toks[k] == rest[k - 1] && toks[k + 1] == rest[k];
      }
    }
    if rest != [] {
      assert toks[|toks| - 1] == rest[|rest| - 1];
    }
  }

  /** What the parser relies on of a token's image: a Grade clause is never empty,
      and keywords and parentheses are their literal text. */
  predicate WellFormed(t: Token) {
    && (t.tokenType == Grade ==> t.image != [])
    && (t.tokenType == And ==> t.image == "and")
    && (t.tokenType == Or ==> t.image == "or")
    && (t.tokenType == LParen ==> t.image == "(")
    && (t.tokenType == RParen ==> t.image == ")")
  }

  lemma ValidTokenIsWellFormed(s: string, t: Token)
    requires ValidToken(s, t)
    ensures WellFormed(t)
  {
    assert Lang(t.tokenType, s, t.startOffset, End(t));
  }

  /** Every token the lexer emits is well formed. */
  lemma TokensAreWellFormed(text: string)
    ensures forall t <- Tokenize(text) :: WellFormed(t)
  {
    var toks := Tokenize(text);
    forall t <- toks
      ensures WellFormed(t)
    {
      ValidTokenIsWellFormed(text, t);
    }
  }

  /** `CalculatorLexer.tokenize(text).tokens` (lines 44, 152). */
  function Tokenize(text: string): (toks: seq<Token>)
    ensures Partition(text, 0, toks)
  {
    TokenizeFrom(text, 0)
  }

  /** The text a RandomRequest matches contains none of " and ", " or ", "(" and ")". */
  lemma RandomRequestText(s: string, i: nat, j: nat)
    requires RandomRequestLang(s, i, j)
    ensures forall k :: i <= k < j ==> s[k] != '(' && s[k] != ')'
    ensures !Occurs(" and ", s[i..j]) && !Occurs(" or ", s[i..j])
  {
    forall k | i <= k < j
      ensures s[k] != '(' && s[k] != ')'
    {
      assert !Blocked(s, k);
      StartsWithChar(s, k, '(');
      StartsWithChar(s, k, ')');
    }
    forall k: nat
      ensures !StartsWith(s[i..j], k, " and ") && !StartsWith(s[i..j], k, " or ")
    {
      NoKeywordAt(s, i, j, k);
    }
  }

  /** Inside a RandomRequest match, no offset starts " and " or " or ": the
      lookahead refused each of them. */
  lemma NoKeywordAt(s: string, i: nat, j: nat, k: nat)
    requires RandomRequestLang(s, i, j)
    ensures !StartsWith(s[i..j], k, " and ") && !StartsWith(s[i..j], k, " or ")
  {
    if k < j - i {
      assert !Blocked(s, i + k);
      if k + 5 <= j - i {
        SliceOfSlice(s, i, j, k, k + 5);
      }
      if k + 4 <= j - i {
        SliceOfSlice(s, i, j, k, k + 4);
      }
    }
  }

  /** The image of a RandomRequest token is non-empty and contains none of " and ",
      " or ", "(" and ")". */
  lemma RandomRequestImage(s: string, t: Token)
    requires ValidToken(s, t) && t.tokenType == RandomRequest
    ensures t.image != []
    ensures '(' !in t.image && ')' !in t.image
    ensures !Occurs(" and ", t.image) && !Occurs(" or ", t.image)
  {
    var o, n := t.startOffset, |t.image|;
    assert Lang(RandomRequest, s, o, o + n);
    RandomRequestText(s, o, o + n);
  }
}
