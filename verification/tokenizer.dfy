/**
 * The tokenizer: one left-to-right pass over the trimmed input that turns it
 * into keywords, identifiers, numbers, quoted strings, operators and
 * punctuation, always followed by a single EOF token.
 *
 * `Lex` is the reference definition: `LexFrom(s, i)` takes the token that
 * starts at position `i` (if any) and recurses from the position where it
 * ends. The `Tokenize` method is the scanning loop over an index `i`, and
 * is proved to produce `Lex` of the trimmed input followed by EOF. The lemmas say what `Lex` produces: token
 * shapes, maximal digit and word runs, quoted text, and what is skipped.
 * Character classes are ASCII.
 */
module Tokenizer {
  import opened Values

  datatype TokenType =
    | KeywordToken
    | IdentifierToken
    | NumberToken
    | StringToken
    | OperatorToken
    | CommaToken
    | LeftParenToken
    | RightParenToken
    | EOFToken

  datatype Token = Token(kind: TokenType, value: string)

  /** The token that ends every token sequence. */
  const EOF: Token := Token(EOFToken, "")

  // ---------------------------------------------------------------------
  // Character classes (ASCII)
  // ---------------------------------------------------------------------

  /** Space, tab, newline, vertical tab, form feed, carriage return. */
  predicate IsSpace(c: char) { c == ' ' || '\t' <= c <= '\r' }

  predicate IsDigit(c: char) { '0' <= c <= '9' }

  predicate IsLetter(c: char) { 'a' <= c <= 'z' || 'A' <= c <= 'Z' }

  predicate IsQuote(c: char) { c == '\'' || c == '"' }

  predicate StartsOperator(c: char) { c == '=' || c == '!' || c == '>' || c == '<' }

  predicate StartsWord(c: char) { IsLetter(c) || c == '_' }

  predicate InWord(c: char) { IsLetter(c) || IsDigit(c) || c == '_' || c == '.' }

  /** A character that is whitespace or starts no token; the scanner steps over it. */
  predicate Ignored(c: char)
  {
    IsSpace(c) ||
    !(IsQuote(c) || StartsOperator(c) || c == ',' || c == '*' || c == '(' || c == ')' || IsDigit(c) || StartsWord(c))
  }

  /** ASCII upper-casing of one character. */
  function UpperChar(c: char): char
  {
    if 'a' <= c <= 'z' then (c as int - 32) as char else c
  }

  /** ASCII upper-casing of a string. */
  function Upper(s: string): string
  {
    seq(|s|, i requires 0 <= i < |s| => UpperChar(s[i]))
  }

  /** Text without lower-case letters is its own upper-casing. */
  lemma UpperKeeps(s: string)
    requires forall k :: 0 <= k < |s| ==> !('a' <= s[k] <= 'z')
    ensures Upper(s) == s
  {
    assert forall k :: 0 <= k < |s| ==> Upper(s)[k] == s[k];
  }

  /** Upper-casing twice is upper-casing once. */
  lemma UpperIdempotent(s: string)
    ensures Upper(Upper(s)) == Upper(s)
  {
    assert forall i :: 0 <= i < |s| ==> Upper(Upper(s))[i] == Upper(s)[i];
  }

  /** The reserved words; a word is a keyword when its upper-cased form is one of them. */
  const Keywords: set<string> := {
    "CREATE", "TABLE", "INSERT", "INTO",
    "VALUES", "SELECT", "FROM", "WHERE",
    "UPDATE", "SET", "DELETE", "INNER",
    "JOIN", "ON", "AND", "OR",
    "PRIMARY", "KEY", "UNIQUE", "NOT",
    "NULL", "INT", "STRING", "BOOL"
  }

  predicate IsKeyword(s: string)
  {
    s in Keywords
  }

  // ---------------------------------------------------------------------
  // Trimming
  // ---------------------------------------------------------------------

  /** The number of whitespace characters at the front of `s`. */
  function LeadingSpaces(s: string): (n: nat)
    ensures n <= |s|
    ensures forall k :: 0 <= k < n ==> IsSpace(s[k])
    ensures n == |s| || !IsSpace(s[n])
  {
    if s == [] || !IsSpace(s[0]) then 0 else 1 + LeadingSpaces(s[1..])
  }

  /** The number of whitespace characters at the end of `s`. */
  function TrailingSpaces(s: string): (n: nat)
    ensures n <= |s|
    ensures forall k :: |s| - n <= k < |s| ==> IsSpace(s[k])
    ensures n == |s| || !IsSpace(s[|s| - 1 - n])
  {
    if s == [] || !IsSpace(s[|s| - 1]) then 0 else 1 + TrailingSpaces(s[..|s| - 1])
  }

  /**
   * `s` without its leading and trailing whitespace: empty exactly when `s`
   * is all whitespace, and otherwise starting and ending with a non-space.
   */
  function TrimSpace(s: string): (r: string)
    ensures |r| <= |s|
    ensures r == [] <==> forall k :: 0 <= k < |s| ==> IsSpace(s[k])
    ensures r != [] ==> !IsSpace(r[0]) && !IsSpace(r[|r| - 1])
  {
    var a := LeadingSpaces(s);
    var b := TrailingSpaces(s[a..]);
    s[a..|s| - b]
  }

  /** Trimming is idempotent. */
  lemma TrimSpaceIdempotent(s: string)
    ensures TrimSpace(TrimSpace(s)) == TrimSpace(s)
  {
    var r := TrimSpace(s);
    if r != [] {
      assert LeadingSpaces(r) == 0;
      assert TrailingSpaces(r) == 0;
      assert r[0..|r|] == r;
    }
  }

  // ---------------------------------------------------------------------
  // Runs of characters
  // ---------------------------------------------------------------------

  /** The first position at or after `j` that holds `q`, or the end of `s`. */
  function QuoteEnd(s: string, j: nat, q: char): (e: nat)
    requires j <= |s|
    ensures j <= e <= |s|
    ensures forall k :: j <= k < e ==> s[k] != q
    ensures e == |s| || s[e] == q
    decreases |s| - j
  {
    if j == |s| || s[j] == q then j else QuoteEnd(s, j + 1, q)
  }

  /** The end of the run of digits that starts at `j`. */
  function DigitEnd(s: string, j: nat): (e: nat)
    requires j <= |s|
    ensures j <= e <= |s|
    ensures forall k :: j <= k < e ==> IsDigit(s[k])
    ensures e == |s| || !IsDigit(s[e])
    decreases |s| - j
  {
    if j == |s| || !IsDigit(s[j]) then j else DigitEnd(s, j + 1)
  }

  /** The end of the run of word characters (letters, digits, `_`, `.`) that starts at `j`. */
  function WordEnd(s: string, j: nat): (e: nat)
    requires j <= |s|
    ensures j <= e <= |s|
    ensures forall k :: j <= k < e ==> InWord(s[k])
    ensures e == |s| || !InWord(s[e])
    decreases |s| - j
  {
    if j == |s| || !InWord(s[j]) then j else WordEnd(s, j + 1)
  }

  // ---------------------------------------------------------------------
  // The reference lexer
  // ---------------------------------------------------------------------

  /** A word is a keyword token when its upper-cased form is reserved, otherwise an identifier; its case is kept. */
  function WordToken(w: string): Token
  {
    Token(if IsKeyword(Upper(w)) then KeywordToken else IdentifierToken, w)
  }

  /**
   * What the scanner does at position `i`: the token it emits (None for
   * whitespace and unrecognised characters) and the position it continues
   * from. A quoted string ends after its closing quote, or one position past
   * the end of the input when the quote is never closed.
   */
  function TokenAt(s: string, i: nat): (r: (Option<Token>, nat))
    requires i < |s|
    ensures i < r.1 <= |s| + 1
  {
    if IsSpace(s[i]) then (None, i + 1)
    else if IsQuote(s[i]) then
      var e := QuoteEnd(s, i + 1, s[i]);
      (Some(Token(StringToken, s[i + 1..e])), e + 1)
    else if StartsOperator(s[i]) then
      var e := if i + 1 < |s| && s[i + 1] == '=' then i + 2 else i + 1;
      (Some(Token(OperatorToken, s[i..e])), e)
    else if s[i] == ',' then (Some(Token(CommaToken, ",")), i + 1)
    else if s[i] == '*' then (Some(Token(IdentifierToken, "*")), i + 1)
    else if s[i] == '(' then (Some(Token(LeftParenToken, "(")), i + 1)
    else if s[i] == ')' then (Some(Token(RightParenToken, ")")), i + 1)
    else if IsDigit(s[i]) then
      var e := DigitEnd(s, i);
      (Some(Token(NumberToken, s[i..e])), e)
    else if StartsWord(s[i]) then
      var e := WordEnd(s, i);
      (Some(WordToken(s[i..e])), e)
    else (None, i + 1)
  }

  function Emitted(t: Option<Token>): seq<Token>
  {
    if t.Some? then [t.value] else []
  }

  /** The tokens of `s` from position `i` on: the token there, then the tokens from where it ends. */
  function LexFrom(s: string, i: nat): seq<Token>
    decreases |s| + 1 - i
  {
    if i >= |s| then []
    else
      var (t, next) := TokenAt(s, i);
      Emitted(t) + LexFrom(s, next)
  }

  /** The tokens of `s`, without the final EOF. */
  function Lex(s: string): seq<Token>
  {
    LexFrom(s, 0)
  }

  /** The whole token sequence of an input: the tokens of the trimmed input, then EOF. */
  function Tokens(input: string): seq<Token>
  {
    Lex(TrimSpace(input)) + [EOF]
  }

  // ---------------------------------------------------------------------
  // The scanning loop
  // ---------------------------------------------------------------------

  /** Scans the quoted string whose opening quote is `s[i]`, up to the next identical quote or the end. */
  method ScanQuoted(s: string, i: nat) returns (token: Token, next: nat)
    requires i < |s| && IsQuote(s[i])
    ensures TokenAt(s, i) == (Some(token), next)
  {
    var quote := s[i];
    var j := i + 1;
    var start := j;
    while j < |s| && s[j] != quote
      invariant start <= j <= |s|
      invariant QuoteEnd(s, start, quote) == QuoteEnd(s, j, quote)
      decreases |s| - j
    {
      j := j + 1;
    }
    token := Token(StringToken, s[start..j]);
    next := j + 1;
  }

  /** Scans the run of digits starting at `s[i]`. */
  method ScanDigits(s: string, i: nat) returns (token: Token, j: nat)
    requires i < |s| && IsDigit(s[i])
    ensures TokenAt(s, i) == (Some(token), j)
  {
    j := i;
    while j < |s| && IsDigit(s[j])
      invariant i <= j <= |s|
      invariant DigitEnd(s, i) == DigitEnd(s, j)
      decreases |s| - j
    {
      j := j + 1;
    }
    token := Token(NumberToken, s[i..j]);
  }

  /** Scans the word starting at `s[i]` and types it by its upper-cased form. */
  method ScanWord(s: string, i: nat) returns (token: Token, j: nat)
    requires i < |s| && StartsWord(s[i])
    ensures TokenAt(s, i) == (Some(token), j)
  {
    j := i;
    while j < |s| && (IsLetter(s[j]) || IsDigit(s[j]) || s[j] == '_' || s[j] == '.')
      invariant i <= j <= |s|
      invariant WordEnd(s, i) == WordEnd(s, j)
      decreases |s| - j
    {
      j := j + 1;
    }
    var value := s[i..j];
    var tokenType := IdentifierToken;
    if IsKeyword(Upper(value)) {
      tokenType := KeywordToken;
    }
    token := Token(tokenType, value);
  }

  /**
   * One pass of the scanning loop at position `i`: the token it appends, if
   * any, and the position the loop continues from.
   */
  method ScanAt(s: string, i: nat) returns (token: Option<Token>, next: nat)
    requires i < |s|
    ensures TokenAt(s, i) == (token, next)
  {
    if IsSpace(s[i]) {
      return None, i + 1;
    }
    if s[i] == '\'' || s[i] == '"' {
      var quoted;
      quoted, next := ScanQuoted(s, i);
      return Some(quoted), next;
    }
    if s[i] == '=' || s[i] == '!' || s[i] == '>' || s[i] == '<' {
      next := i + 1;
      if next < |s| && s[next] == '=' {
        next := next + 1;
      }
      return Some(Token(OperatorToken, s[i..next])), next;
    }
    token, next := ScanOther(s, i);
  }

  /** The rest of one pass: punctuation, numbers, words, and characters that are skipped. */
  method ScanOther(s: string, i: nat) returns (token: Option<Token>, next: nat)
    requires i < |s| && !IsSpace(s[i]) && !IsQuote(s[i]) && !StartsOperator(s[i])
    ensures TokenAt(s, i) == (token, next)
  {
    if s[i] == ',' {
      return Some(Token(CommaToken, ",")), i + 1;
    }
    if s[i] == '*' {
      return Some(Token(IdentifierToken, "*")), i + 1;
    }
    if s[i] == '(' {
      return Some(Token(LeftParenToken, "(")), i + 1;
    }
    if s[i] == ')' {
      return Some(Token(RightParenToken, ")")), i + 1;
    }
    if IsDigit(s[i]) {
      var number;
      number, next := ScanDigits(s, i);
      return Some(number), next;
    }
    if IsLetter(s[i]) || s[i] == '_' {
      var word;
      word, next := ScanWord(s, i);
      return Some(word), next;
    }
    return None, i + 1;
  }

  lemma Regroup(a: seq<Token>, b: seq<Token>, c: seq<Token>)
    ensures a + b + c == a + (b + c)
  {
  }

  /** Tokenize: the tokens of the trimmed input, in order, then EOF. */
  method Tokenize(input: string) returns (tokens: seq<Token>)
    ensures tokens == Tokens(input)
  {
    var s := TrimSpace(input);
    tokens := [];
    var i: nat := 0;
    while i < |s|
      invariant i <= |s| + 1
      invariant tokens + LexFrom(s, i) == Lex(s)
      decreases |s| + 1 - i
    {
      var token, next := ScanAt(s, i);
      assert LexFrom(s, i) == Emitted(token) + LexFrom(s, next);
      Regroup(tokens, Emitted(token), LexFrom(s, next));
      tokens := tokens + Emitted(token);
      i := next;
    }
    tokens := tokens + [EOF];
  }

  // ---------------------------------------------------------------------
  // What the lexer produces
  // ---------------------------------------------------------------------

  /** The operator spellings the lexer can produce. */
  const OperatorSpellings: set<string> := {"=", "!", ">", "<", "==", "!=", ">=", "<="}

  /** The shape of each kind of token the lexer produces. */
  predicate WellFormed(t: Token)
  {
    match t.kind
    case KeywordToken =>
      t.value != [] && StartsWord(t.value[0]) && (forall k :: 0 <= k < |t.value| ==> InWord(t.value[k]))
      && IsKeyword(Upper(t.value))
    case IdentifierToken =>
      t.value == "*" ||
      (t.value != [] && StartsWord(t.value[0]) && (forall k :: 0 <= k < |t.value| ==> InWord(t.value[k]))
       && !IsKeyword(Upper(t.value)))
    case NumberToken => t.value != [] && forall k :: 0 <= k < |t.value| ==> IsDigit(t.value[k])
    case StringToken => !('\'' in t.value && '"' in t.value)
    case OperatorToken => t.value in OperatorSpellings
    case CommaToken => t.value == ","
    case LeftParenToken => t.value == "("
    case RightParenToken => t.value == ")"
    case EOFToken => false
  }

  /** Every token the scanner emits is well formed, so none of them is EOF. */
  lemma TokenAtWellFormed(s: string, i: nat)
    requires i < |s|
    ensures TokenAt(s, i).0.Some? ==> WellFormed(TokenAt(s, i).0.value)
  {
    if IsSpace(s[i]) {
    } else if IsQuote(s[i]) {
      QuotedWellFormed(s, i);
    } else if StartsOperator(s[i]) {
      var e := if i + 1 < |s| && s[i + 1] == '=' then i + 2 else i + 1;
      assert s[i..e] == if e == i + 2 then [s[i], '='] else [s[i]];
    } else if IsDigit(s[i]) {
      NumberWellFormed(s, i);
    } else if StartsWord(s[i]) {
      WordWellFormed(s, i);
    }
  }

  /** A quoted string's text does not contain its own quote character. */
  lemma QuotedWellFormed(s: string, i: nat)
    requires i < |s| && !IsSpace(s[i]) && IsQuote(s[i])
    ensures WellFormed(TokenAt(s, i).0.value)
  {
    var e := QuoteEnd(s, i + 1, s[i]);
    var v := s[i + 1..e];
    assert TokenAt(s, i).0.value == Token(StringToken, v);
    assert s[i] !in v by {
      assert forall k :: 0 <= k < |v| ==> v[k] == s[i + 1 + k];
    }
  }

  lemma NumberWellFormed(s: string, i: nat)
    requires i < |s| && IsDigit(s[i])
    ensures WellFormed(TokenAt(s, i).0.value)
  {
    var e := DigitEnd(s, i);
    assert TokenAt(s, i).0.value == Token(NumberToken, s[i..e]);
    assert forall k :: 0 <= k < e - i ==> s[i..e][k] == s[i + k];
  }

  lemma WordWellFormed(s: string, i: nat)
    requires i < |s| && StartsWord(s[i]) && !IsDigit(s[i])
    ensures WellFormed(TokenAt(s, i).0.value)
  {
    var e := WordEnd(s, i);
    assert TokenAt(s, i).0.value == WordToken(s[i..e]);
    assert forall k :: 0 <= k < e - i ==> s[i..e][k] == s[i + k];
  }

  /** Every token the lexer produces from position `i` on is well formed; in particular none of them is EOF. */
  lemma {:induction false} LexFromWellFormed(s: string, i: nat)
    ensures forall k :: 0 <= k < |LexFrom(s, i)| ==> WellFormed(LexFrom(s, i)[k])
    decreases |s| + 1 - i
  {
    if i < |s| {
      TokenAtWellFormed(s, i);
      LexFromWellFormed(s, TokenAt(s, i).1);
    }
  }

  /** The token sequence ends with exactly one EOF, with an empty value, and every earlier token is well formed. */
  lemma TokensEndWithEOF(input: string)
    ensures |Tokens(input)| >= 1
    ensures Tokens(input)[|Tokens(input)| - 1] == EOF
    ensures forall k :: 0 <= k < |Tokens(input)| - 1 ==> WellFormed(Tokens(input)[k]) && Tokens(input)[k].kind != EOFToken
  {
    var s := TrimSpace(input);
    LexFromWellFormed(s, 0);
    assert forall k :: 0 <= k < |Tokens(input)| - 1 ==> Tokens(input)[k] == Lex(s)[k];
  }

  /** No character yields more than one token. */
  lemma {:induction false} LexFromLength(s: string, i: nat)
    ensures |LexFrom(s, i)| <= |s| - i || (i > |s| && LexFrom(s, i) == [])
    decreases |s| + 1 - i
  {
    if i < |s| {
      LexFromLength(s, TokenAt(s, i).1);
    }
  }

  /** Whitespace and unrecognised characters produce no token. */
  lemma {:induction false} LexSkips(s: string, i: nat, j: nat)
    requires i <= j <= |s|
    requires forall k :: i <= k < j ==> Ignored(s[k])
    ensures LexFrom(s, i) == LexFrom(s, j)
    decreases j - i
  {
    if i < j {
      LexSkipsOne(s, i);
      LexSkips(s, i + 1, j);
    }
  }

  /** One ignored character produces nothing and the scan resumes just after it. */
  lemma LexSkipsOne(s: string, i: nat)
    requires i < |s| && Ignored(s[i])
    ensures LexFrom(s, i) == LexFrom(s, i + 1)
  {
    assert TokenAt(s, i) == (None, i + 1);
  }

  /** A quoted string is its text between the opening quote and the next identical quote, quotes excluded. */
  lemma LexQuoted(s: string, i: nat, j: nat)
    requires i < j < |s| && IsQuote(s[i]) && s[j] == s[i]
    requires forall k :: i < k < j ==> s[k] != s[i]
    ensures LexFrom(s, i) == [Token(StringToken, s[i + 1..j])] + LexFrom(s, j + 1)
  {
    assert QuoteEnd(s, i + 1, s[i]) == j;
    assert TokenAt(s, i) == (Some(Token(StringToken, s[i + 1..j])), j + 1);
  }

  /** An unterminated quote takes the rest of the (trimmed) input as its text, and nothing follows it. */
  lemma LexUnterminated(s: string, i: nat)
    requires i < |s| && IsQuote(s[i])
    requires forall k :: i < k < |s| ==> s[k] != s[i]
    ensures LexFrom(s, i) == [Token(StringToken, s[i + 1..])]
  {
    assert QuoteEnd(s, i + 1, s[i]) == |s|;
    assert s[i + 1..|s|] == s[i + 1..];
    assert TokenAt(s, i) == (Some(Token(StringToken, s[i + 1..])), |s| + 1);
  }

  /** A number token is the whole run of digits, which is never split. */
  lemma LexNumber(s: string, i: nat, j: nat)
    requires i < j <= |s| && forall k :: i <= k < j ==> IsDigit(s[k])
    requires j == |s| || !IsDigit(s[j])
    ensures LexFrom(s, i) == [Token(NumberToken, s[i..j])] + LexFrom(s, j)
  {
    assert DigitEnd(s, i) == j;
    assert TokenAt(s, i) == (Some(Token(NumberToken, s[i..j])), j);
  }

  /** A minus sign is skipped, so `-` followed by digits lexes as the unsigned number. */
  lemma LexNoNegativeNumbers(s: string, i: nat, j: nat)
    requires i + 1 < j <= |s| && s[i] == '-' && forall k :: i + 1 <= k < j ==> IsDigit(s[k])
    requires j == |s| || !IsDigit(s[j])
    ensures LexFrom(s, i) == [Token(NumberToken, s[i + 1..j])] + LexFrom(s, j)
  {
    LexSkips(s, i, i + 1);
    LexNumber(s, i + 1, j);
  }

  /** A word is the whole run of word characters, typed by its upper-cased form and kept in its own case. */
  lemma LexWord(s: string, i: nat, j: nat)
    requires i < j <= |s| && StartsWord(s[i]) && forall k :: i <= k < j ==> InWord(s[k])
    requires j == |s| || !InWord(s[j])
    ensures LexFrom(s, i) == [WordToken(s[i..j])] + LexFrom(s, j)
    ensures WordToken(s[i..j]).kind == KeywordToken <==> IsKeyword(Upper(s[i..j]))
  {
    assert WordEnd(s, i) == j;
    assert TokenAt(s, i) == (Some(WordToken(s[i..j])), j);
  }
}
