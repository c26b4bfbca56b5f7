/**
 * The terminals of the W3C RDF 1.1 N-Quads grammar as the hand-written
 * `Tokenizer` reads them, written as functions of the input and the reader's
 * cursor and mark. Module NQuadsTokenizer holds the imperative reader and
 * tokenizer, proved to follow these functions.
 *
 * The input is a sequence of UTF-16 code units, as `java.io.Reader.read`
 * returns them; reading at the end yields -1.
 */
module NQuadsLexer {
  import opened Results

  /** A UTF-16 code unit. */
  newtype Unit = x: int | 0 <= x < 0x1_0000

  /** What `read` returns at the end of the input. */
  const EOF: int := -1

  datatype TokenType =
    | LangTag
    | IriRef
    | StringLiteralQuote
    | BlankNodeLabel
    | WhiteSpace
    | LiteralDataType
    | EndOfStatement
    | EndOfLine
    | EndOfInput

  /** A token; only the four terminals with text carry a value. */
  datatype Token = Token(kind: TokenType, value: Option<seq<Unit>>)

  const EOI := Token(EndOfInput, None)
  const EOS := Token(EndOfStatement, None)
  const EOL := Token(EndOfLine, None)
  const WS := Token(WhiteSpace, None)
  const DATATYPE := Token(LiteralDataType, None)

  /** `NQuadsReaderError` raised by `unexpected`: the offending character, or -1 at the end of input. */
  datatype LexError = Unexpected(actual: int)

  // ----- Character classes of the grammar -----

  predicate IsWhitespace(c: int) { c == 0x20 || c == 0x09 }
  predicate IsEol(c: int) { c == 0x0A || c == 0x0D }
  predicate IsAsciiAlpha(c: int) { 'A' as int <= c <= 'Z' as int || 'a' as int <= c <= 'z' as int }
  predicate IsDigit(c: int) { '0' as int <= c <= '9' as int }
  predicate IsAsciiAlphaNum(c: int) { IsAsciiAlpha(c) || IsDigit(c) }

  /** PN_CHARS_BASE; its range beyond 0xFFFF holds no single code unit. */
  predicate IsPnCharsBase(c: int) {
    || IsAsciiAlpha(c)
    || 0x00C0 <= c <= 0x00D6 || 0x00D8 <= c <= 0x00F6 || 0x00F8 <= c <= 0x02FF
    || 0x0370 <= c <= 0x037D || 0x037F <= c <= 0x1FFF || 0x200C <= c <= 0x200D
    || 0x2070 <= c <= 0x218F || 0x2C00 <= c <= 0x2FEF || 0x3001 <= c <= 0xD7FF
    || 0xF900 <= c <= 0xFDCF || 0xFDF0 <= c <= 0xFFFD
  }

  /** PN_CHARS_U, with `:` as in BLANK_NODE_LABEL's first character. */
  predicate IsPnCharsU(c: int) { IsPnCharsBase(c) || c == '_' as int || c == ':' as int }

  predicate IsPnChars(c: int) {
    IsPnCharsU(c) || c == '-' as int || IsDigit(c) || c == 0x00B7 || 0x0300 <= c <= 0x036F || 0x203F <= c <= 0x2040
  }

  /** Characters an IRIREF may not contain. */
  predicate IsIriForbidden(c: int) {
    || 0x00 <= c <= 0x20
    || c == '<' as int || c == '"' as int || c == '{' as int || c == '}' as int
    || c == '|' as int || c == '^' as int || c == '`' as int || c == '\\' as int
  }

  /** The characters a backslash may escape inside a string literal; `u` and `U` start a Unicode escape. */
  predicate IsEscape(c: int) {
    c in {'t' as int, 'b' as int, 'n' as int, 'r' as int, 'f' as int, '\'' as int, '"' as int, '\\' as int, 'u' as int, 'U' as int}
  }

  /** The characters `doRead` recognises as the start of a token. */
  predicate IsTokenStart(c: int) {
    IsWhitespace(c) || IsEol(c) || c in {'<' as int, '"' as int, '.' as int, '@' as int, '_' as int, '^' as int}
  }

  /** The classes the lexing loops run over. */
  datatype CharClass = Blank | LineEnd | Alpha | AlphaNumDash | PnCharsDot

  predicate InClass(k: CharClass, c: int) {
    match k
    case Blank => IsWhitespace(c)
    case LineEnd => IsEol(c)
    case Alpha => IsAsciiAlpha(c)
    case AlphaNumDash => IsAsciiAlphaNum(c) || c == '-' as int
    case PnCharsDot => IsPnChars(c) || c == '.' as int
  }

  // ----- The reader -----

  /** `read` at position `i`. */
  function CharAt(input: seq<Unit>, i: nat): int {
    if i < |input| then input[i] as int else EOF
  }

  /** The end of the maximal run of class `k` starting at `i`. */
  function RunEnd(input: seq<Unit>, i: nat, k: CharClass): (j: nat)
    requires i <= |input|
    ensures i <= j <= |input|
    ensures forall m :: i <= m < j ==> InClass(k, input[m] as int)
    ensures j == |input| || !InClass(k, input[j] as int)
    decreases |input| - i
  {
    if i < |input| && InClass(k, input[i] as int) then RunEnd(input, i + 1, k) else i
  }

  /** A token with the reader's cursor and mark after it. */
  datatype Scan = Scan(token: Token, pos: nat, mark: nat)

  predicate InBounds(input: seq<Unit>, sc: Scan) {
    sc.pos <= |input| && sc.mark <= |input|
  }

  /** `readIriRef` after the `<`: the position of the closing `>`. */
  function IriEnd(input: seq<Unit>, i: nat): (r: Result<nat, LexError>)
    requires i <= |input|
    ensures r.Ok? ==> i <= r.value < |input| && input[r.value] == '>' as Unit
    decreases |input| - i
  {
    if i == |input| then Err(Unexpected(EOF))
    else if input[i] == '>' as Unit then Ok(i)
    else if IsIriForbidden(input[i] as int) then Err(Unexpected(input[i] as int))
    else IriEnd(input, i + 1)
  }

  /** `readString` after the opening quote: the position of the closing quote. */
  function StringEnd(input: seq<Unit>, i: nat): (r: Result<nat, LexError>)
    requires i <= |input|
    ensures r.Ok? ==> i <= r.value < |input| && input[r.value] == '"' as Unit
    decreases |input| - i
  {
    if i == |input| then Err(Unexpected(EOF))
    else
      var c := input[i] as int;
      if c == '"' as int then Ok(i)
      else if c == 0x0A || c == 0x0D then Err(Unexpected(c))
      else if c == '\\' as int then
        var d := CharAt(input, i + 1);
        if IsEscape(d) then StringEnd(input, i + 2) else Err(Unexpected(d))
      else StringEnd(input, i + 1)
  }

  /** `readIriRef` after the `<`: the text up to the `>`, which is consumed. */
  function IriRefAt(input: seq<Unit>, i: nat, mark: nat): (r: Result<Scan, LexError>)
    requires i <= |input| && mark <= |input|
    ensures r.Ok? ==> InBounds(input, r.value)
  {
    var j :- IriEnd(input, i);
    Ok(Scan(Token(IriRef, Some(input[i..j])), j + 1, mark))
  }

  /** `readString` after the opening quote: the text up to the closing quote, which is consumed. */
  function StringAt(input: seq<Unit>, i: nat, mark: nat): (r: Result<Scan, LexError>)
    requires i <= |input| && mark <= |input|
    ensures r.Ok? ==> InBounds(input, r.value)
  {
    var j :- StringEnd(input, i);
    Ok(Scan(Token(StringLiteralQuote, Some(input[i..j])), j + 1, mark))
  }

  /** `readLangTag` after the `@`. */
  function LangTagAt(input: seq<Unit>, a: nat, mark: nat): (r: Result<Scan, LexError>)
    requires a <= |input|
    ensures r.Ok? ==> InBounds(input, r.value)
  {
    var c := CharAt(input, a);
    if !IsAsciiAlpha(c) then Err(Unexpected(c))
    else TagLetters(input, a)
  }

  /** The letters of a tag whose first letter is at `a`. */
  function TagLetters(input: seq<Unit>, a: nat): (r: Result<Scan, LexError>)
    requires a < |input|
    ensures r.Ok? ==> InBounds(input, r.value)
  {
    var b := RunEnd(input, a + 1, Alpha);
    if b == |input| then Err(Unexpected(EOF))
    else TagRest(input, a, b)
  }

  /** The rest of `readLangTag`: the tag begun at `a` continues at `b` with letters, digits and dashes. */
  function TagRest(input: seq<Unit>, a: nat, b: nat): (r: Result<Scan, LexError>)
    requires a < b < |input|
    ensures r.Ok? ==> InBounds(input, r.value)
  {
    var e := RunEnd(input, b, AlphaNumDash);
    if e == |input| then Err(Unexpected(EOF))
    else Ok(Scan(Token(LangTag, Some(input[a..e])), e, e))
  }

  /** `readBlankNode` after the `_`. */
  function BlankNodeAt(input: seq<Unit>, a: nat, mark: nat): (r: Result<Scan, LexError>)
    requires a <= |input|
    ensures r.Ok? ==> InBounds(input, r.value)
  {
    var c := CharAt(input, a);
    if c != ':' as int then Err(Unexpected(c))
    else
      var d := CharAt(input, a + 1);
      if (!IsPnCharsU(d) && !IsDigit(d)) || d == EOF then Err(Unexpected(d))
      else LabelRest(input, a + 1)
  }

  /** A label whose first character is at `a`: PN_CHARS and dots up to the character that ends it. */
  function LabelRest(input: seq<Unit>, a: nat): (r: Result<Scan, LexError>)
    requires a < |input|
    ensures r.Ok? ==> InBounds(input, r.value)
  {
    var e := RunEnd(input, a + 1, PnCharsDot);
    if e == |input| then Err(Unexpected(EOF))
    else Ok(Scan(Token(BlankNodeLabel, Some(input[a..e])), e, e))
  }

  /** `doRead` with the reader at `pos` and its mark at `mark`. */
  function Lex(input: seq<Unit>, pos: nat, mark: nat): (r: Result<Scan, LexError>)
    requires pos <= |input| && mark <= |input|
    ensures r.Ok? ==> InBounds(input, r.value)
    ensures r.Ok? && r.value.token == EOI ==> pos == |input| && r.value.pos == pos && r.value.mark == mark
    ensures r.Ok? && r.value.token != EOI ==> r.value.pos > pos
  {
    if pos == |input| then Ok(Scan(EOI, pos, mark))
    else
      var c := input[pos] as int;
      var i := pos + 1;
      if IsWhitespace(c) then
        var j := RunEnd(input, i, Blank);
        Ok(Scan(WS, j, j))
      else if c == '<' as int then IriRefAt(input, i, mark)
      else if c == '"' as int then StringAt(input, i, mark)
      else if c == '.' as int then Ok(Scan(EOS, i, mark))
      else if IsEol(c) then
        var j := RunEnd(input, i, LineEnd);
        Ok(Scan(EOL, j, j))
      else if c == '@' as int then LangTagAt(input, i, mark)
      else if c == '_' as int then BlankNodeAt(input, i, mark)
      else if c == '^' as int then
        if CharAt(input, i) == '^' as int then Ok(Scan(DATATYPE, i + 1, mark))
        else Err(Unexpected(CharAt(input, i)))
      else Err(Unexpected(c))
  }

  // ----- The tokenizer -----

  /** The reader's cursor and mark, and the lookahead `next` (None while null). */
  datatype TokState = TokState(pos: nat, mark: nat, next: Option<Token>)

  predicate ValidState(input: seq<Unit>, s: TokState) {
    s.pos <= |input| && s.mark <= |input|
  }

  /** A method's return value with the tokenizer state after it. */
  datatype Answer<+T> = Answer(value: T, st: TokState)

  function FromScan(sc: Scan): TokState {
    TokState(sc.pos, sc.mark, Some(sc.token))
  }

  /** `hasNext`: reads a token into the empty lookahead, then asks whether it is not the end. */
  function HasNext(input: seq<Unit>, s: TokState): (r: Result<Answer<bool>, LexError>)
    requires ValidState(input, s)
    ensures r.Ok? ==> ValidState(input, r.value.st) && r.value.st.next.Some?
    ensures r.Ok? ==> (r.value.value <==> r.value.st.next.value.kind != EndOfInput)
  {
    if s.next.None? then
      var sc :- Lex(input, s.pos, s.mark);
      Ok(Answer(sc.token.kind != EndOfInput, FromScan(sc)))
    else Ok(Answer(s.next.value.kind != EndOfInput, s))
  }

  /** `next`: unless at the end, reads a new token into the lookahead and returns it. */
  function Next(input: seq<Unit>, s: TokState): (r: Result<Answer<Token>, LexError>)
    requires ValidState(input, s)
    ensures r.Ok? ==> ValidState(input, r.value.st) && r.value.st.next == Some(r.value.value)
  {
    var h :- HasNext(input, s);
    if !h.value then Ok(Answer(h.st.next.value, h.st))
    else
      var sc :- Lex(input, h.st.pos, h.st.mark);
      Ok(Answer(sc.token, FromScan(sc)))
  }

  /** `token`: the lookahead, read first if empty. */
  function Current(input: seq<Unit>, s: TokState): (r: Result<Answer<Token>, LexError>)
    requires ValidState(input, s)
    ensures r.Ok? ==> ValidState(input, r.value.st) && r.value.st.next == Some(r.value.value)
  {
    var h :- HasNext(input, s);
    Ok(Answer(h.st.next.value, h.st))
  }

  /** `accept`: advances past the current token when it has kind `t`. */
  function Accept(input: seq<Unit>, s: TokState, t: TokenType): (r: Result<Answer<bool>, LexError>)
    requires ValidState(input, s)
    ensures r.Ok? ==> ValidState(input, r.value.st)
  {
    var c :- Current(input, s);
    if c.value.kind == t then
      var n :- Next(input, c.st);
      Ok(Answer(true, n.st))
    else Ok(Answer(false, c.st))
  }
}
