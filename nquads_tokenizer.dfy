/**
 * The N-Quads `Tokenizer` as the source writes it: a class holding a reader
 * and the one-token lookahead `next`, whose methods read the input code unit
 * by code unit, marking and resetting the reader to push back the character
 * that ends a run. Every method is proved to follow the functions of module
 * NQuadsLexer.
 */
module NQuadsTokenizer {
  import opened Results
  import opened NQuadsLexer

  /** The `BufferedReader`: the input, its cursor and the position `mark` saved. */
  class Reader {
    const input: seq<Unit>
    var pos: nat
    var markPos: nat

    predicate Valid()
      reads this
    {
      pos <= |input| && markPos <= |input|
    }

    constructor(input: seq<Unit>)
      ensures this.input == input && pos == 0 && markPos == 0
    {
      this.input := input;
      pos := 0;
      markPos := 0;
    }

    /** `read`: the code unit at the cursor, or -1 at the end, where the cursor stays. */
    method Read() returns (ch: int)
      requires Valid()
      modifies this
      ensures Valid() && markPos == old(markPos)
      ensures ch == CharAt(input, old(pos))
      ensures pos == if old(pos) < |input| then old(pos) + 1 else old(pos)
    {
      if pos < |input| {
        ch := input[pos] as int;
        pos := pos + 1;
      } else {
        ch := EOF;
      }
    }

    /** `mark(1)`. */
    method Mark()
      requires Valid()
      modifies this
      ensures Valid() && pos == old(pos) && markPos == pos
    {
      markPos := pos;
    }

    /** `reset`: back to the marked position. */
    method Reset()
      requires Valid()
      modifies this
      ensures Valid() && pos == old(markPos) && markPos == old(markPos)
    {
      pos := markPos;
    }
  }

  /** A scan succeeded exactly when the specification's did, with the same token, cursor and mark. */
  ghost predicate ScanAgrees(spec: Result<Scan, LexError>, r: Result<Token, LexError>, pos: nat, mark: nat) {
    match spec
    case Ok(sc) => r == Ok(sc.token) && pos == sc.pos && mark == sc.mark
    case Err(e) => r == Err(e)
  }

  /** A tokenizer call answered as the specification did, and left the state it gives. */
  ghost predicate Agrees<T>(spec: Result<Answer<T>, LexError>, r: Result<T, LexError>, st: TokState) {
    match spec
    case Ok(a) => r == Ok(a.value) && st == a.st
    case Err(e) => r == Err(e)
  }

  class Tokenizer {
    const reader: Reader
    /** The lookahead token; None while the source's field is null. */
    var next: Option<Token>

    predicate Valid()
      reads this, reader
    {
      reader.Valid()
    }

    /** The state the functions of NQuadsLexer speak about. */
    function State(): TokState
      reads this, reader
    {
      TokState(reader.pos, reader.markPos, next)
    }

    constructor(input: seq<Unit>)
      ensures fresh(reader) && reader.input == input && Valid()
      ensures State() == TokState(0, 0, None)
    {
      reader := new Reader(input);
      next := None;
    }

    /** `next`. */
    method Next() returns (r: Result<Token, LexError>)
      requires Valid()
      modifies this, reader
      ensures Valid()
      ensures Agrees(NQuadsLexer.Next(reader.input, old(State())), r, State())
    {
      var h := HasNext();
      if h.Err? {
        return Err(h.error);
      }
      if !h.value {
        return Ok(next.value);
      }
      var t := DoRead();
      if t.Err? {
        return Err(t.error);
      }
      next := Some(t.value);
      return Ok(t.value);
    }

    /** `token`: the lookahead, read first when empty. */
    method Token() returns (r: Result<NQuadsLexer.Token, LexError>)
      requires Valid()
      modifies this, reader
      ensures Valid()
      ensures Agrees(Current(reader.input, old(State())), r, State())
    {
      var h := HasNext();
      if h.Err? {
        return Err(h.error);
      }
      return Ok(next.value);
    }

    /** `accept`. */
    method Accept(t: TokenType) returns (r: Result<bool, LexError>)
      requires Valid()
      modifies this, reader
      ensures Valid()
      ensures Agrees(NQuadsLexer.Accept(reader.input, old(State()), t), r, State())
    {
      var c := Token();
      if c.Err? {
        return Err(c.error);
      }
      if c.value.kind == t {
        var n := Next();
        if n.Err? {
          return Err(n.error);
        }
        return Ok(true);
      }
      return Ok(false);
    }

    /** `hasNext`. */
    method HasNext() returns (r: Result<bool, LexError>)
      requires Valid()
      modifies this, reader
      ensures Valid()
      ensures Agrees(NQuadsLexer.HasNext(reader.input, old(State())), r, State())
    {
      if next.None? {
        var t := DoRead();
        if t.Err? {
          return Err(t.error);
        }
        next := Some(t.value);
      }
      return Ok(next.value.kind != EndOfInput);
    }

    /** `doRead`: dispatches on the first character. */
    method DoRead() returns (r: Result<NQuadsLexer.Token, LexError>)
      requires Valid()
      modifies reader
      ensures Valid()
      ensures ScanAgrees(Lex(reader.input, old(reader.pos), old(reader.markPos)), r, reader.pos, reader.markPos)
    {
      var ch := reader.Read();
      if ch == EOF {
        return Ok(EOI);
      }
      if IsWhitespace(ch) {
        var t := SkipWhitespaces();
        return Ok(t);
      }
      if ch == '<' as int {
        r := ReadIriRef();
        return;
      }
      if ch == '"' as int {
        r := ReadString();
        return;
      }
      if ch == '.' as int {
        return Ok(EOS);
      }
      if IsEol(ch) {
        var t := SkipEol();
        return Ok(t);
      }
      if ch == '@' as int {
        r := ReadLangTag();
        return;
      }
      if ch == '_' as int {
        r := ReadBlankNode();
        return;
      }
      if ch == '^' as int {
        ch := reader.Read();
        if '^' as int != ch {
          return Err(Unexpected(ch));
        }
        return Ok(DATATYPE);
      }
      return Err(Unexpected(ch));
    }

    /** `skipWhitespaces`, after the first blank: the run is consumed and its end marked. */
    method SkipWhitespaces() returns (t: NQuadsLexer.Token)
      requires Valid()
      modifies reader
      ensures Valid() && t == WS
      ensures reader.pos == reader.markPos == RunEnd(reader.input, old(reader.pos), Blank)
    {
      ghost var k := reader.pos;
      reader.Mark();
      var ch := reader.Read();
      while IsWhitespace(ch)
        invariant reader.Valid() && old(reader.pos) <= k <= |reader.input|
        invariant reader.markPos == k && ch == CharAt(reader.input, k)
        invariant reader.pos == if k < |reader.input| then k + 1 else k
        invariant RunEnd(reader.input, k, Blank) == RunEnd(reader.input, old(reader.pos), Blank)
        decreases |reader.input| - k
      {
        k := k + 1;
        reader.Mark();
        ch := reader.Read();
      }
      reader.Reset();
      return WS;
    }

    /** `skipEol`, after the first line end: the run is consumed and its end marked. */
    method SkipEol() returns (t: NQuadsLexer.Token)
      requires Valid()
      modifies reader
      ensures Valid() && t == EOL
      ensures reader.pos == reader.markPos == RunEnd(reader.input, old(reader.pos), LineEnd)
    {
      ghost var k := reader.pos;
      reader.Mark();
      var ch := reader.Read();
      while IsEol(ch)
        invariant reader.Valid() && old(reader.pos) <= k <= |reader.input|
        invariant reader.markPos == k && ch == CharAt(reader.input, k)
        invariant reader.pos == if k < |reader.input| then k + 1 else k
        invariant RunEnd(reader.input, k, LineEnd) == RunEnd(reader.input, old(reader.pos), LineEnd)
        decreases |reader.input| - k
      {
        k := k + 1;
        reader.Mark();
        ch := reader.Read();
      }
      reader.Reset();
      return EOL;
    }

    /** `readIriRef`, after the `<`. */
    method ReadIriRef() returns (r: Result<NQuadsLexer.Token, LexError>)
      requires Valid()
      modifies reader
      ensures Valid()
      ensures ScanAgrees(IriRefAt(reader.input, old(reader.pos), old(reader.markPos)), r, reader.pos, reader.markPos)
    {
      ghost var i := reader.pos;
      ghost var k := i;
      var value: seq<Unit> := [];
      var ch := reader.Read();
      while ch != '>' as int && ch != EOF
        invariant reader.Valid() && i <= k <= |reader.input| && reader.markPos == old(reader.markPos)
        invariant ch == CharAt(reader.input, k)
        invariant reader.pos == if k < |reader.input| then k + 1 else k
        invariant value == reader.input[i..k]
        invariant IriEnd(reader.input, k) == IriEnd(reader.input, i)
        decreases |reader.input| - k
      {
        if IsIriForbidden(ch) {
          return Err(Unexpected(ch));
        }
        value := value + [ch as Unit];
        k := k + 1;
        ch := reader.Read();
      }
      if ch == EOF {
        return Err(Unexpected(ch));
      }
      return Ok(NQuadsLexer.Token.Token(IriRef, Some(value)));
    }

    /** `readString`, after the opening quote; escapes are kept as written. */
    method ReadString() returns (r: Result<NQuadsLexer.Token, LexError>)
      requires Valid()
      modifies reader
      ensures Valid()
      ensures ScanAgrees(StringAt(reader.input, old(reader.pos), old(reader.markPos)), r, reader.pos, reader.markPos)
    {
      ghost var i := reader.pos;
      ghost var k := i;
      var value: seq<Unit> := [];
      var ch := reader.Read();
      while ch != '"' as int && ch != EOF
        invariant reader.Valid() && i <= k <= |reader.input| && reader.markPos == old(reader.markPos)
        invariant ch == CharAt(reader.input, k)
        invariant reader.pos == if k < |reader.input| then k + 1 else k
        invariant value == reader.input[i..k]
        invariant StringEnd(reader.input, k) == StringEnd(reader.input, i)
        decreases |reader.input| - k
      {
        if ch == 0x22 || ch == 0x0A || ch == 0x0D {
          return Err(Unexpected(ch));
        }
        if ch == '\\' as int {
          value := value + [ch as Unit];
          k := k + 1;
          ch := reader.Read();
          if !IsEscape(ch) {
            return Err(Unexpected(ch));
          }
        }
        value := value + [ch as Unit];
        k := k + 1;
        ch := reader.Read();
      }
      if ch == EOF {
        return Err(Unexpected(ch));
      }
      return Ok(NQuadsLexer.Token.Token(StringLiteralQuote, Some(value)));
    }

    /** `readLangTag`, after the `@`. */
    method ReadLangTag() returns (r: Result<NQuadsLexer.Token, LexError>)
      requires Valid()
      modifies reader
      ensures Valid()
      ensures ScanAgrees(LangTagAt(reader.input, old(reader.pos), old(reader.markPos)), r, reader.pos, reader.markPos)
    {
      var value: seq<Unit> := [];
      var ch := reader.Read();
      if !IsAsciiAlpha(ch) || ch == EOF {
        return Err(Unexpected(ch));
      }
      value := value + [ch as Unit];
      r := ReadTagLetters(old(reader.pos), value);
    }

    /** `readLangTag` after the first letter: the loop over letters. */
    method ReadTagLetters(ghost a: nat, value0: seq<Unit>) returns (r: Result<NQuadsLexer.Token, LexError>)
      requires Valid() && a < |reader.input| && reader.pos == a + 1
      requires value0 == reader.input[a..a + 1]
      modifies reader
      ensures Valid()
      ensures ScanAgrees(TagLetters(reader.input, a), r, reader.pos, reader.markPos)
    {
      var value := value0;
      ghost var k := a + 1;
      reader.Mark();
      var ch := reader.Read();
      while IsAsciiAlpha(ch)
        invariant reader.Valid() && a < k <= |reader.input|
        invariant reader.markPos == k && ch == CharAt(reader.input, k)
        invariant reader.pos == if k < |reader.input| then k + 1 else k
        invariant value == reader.input[a..k]
        invariant RunEnd(reader.input, k, Alpha) == RunEnd(reader.input, a + 1, Alpha)
        decreases |reader.input| - k
      {
        value := value + [ch as Unit];
        k := k + 1;
        reader.Mark();
        ch := reader.Read();
      }
      assert k == RunEnd(reader.input, a + 1, Alpha);
      if ch == EOF {
        return Err(Unexpected(ch));
      }
      r := ReadSubtags(a, value, ch);
    }

    /** The rest of `readLangTag`: letters, digits and dashes up to the character that ends the tag. */
    method ReadSubtags(ghost a: nat, value0: seq<Unit>, ch0: int) returns (r: Result<NQuadsLexer.Token, LexError>)
      requires Valid() && a < reader.markPos < |reader.input|
      requires ch0 == CharAt(reader.input, reader.markPos) && reader.pos == reader.markPos + 1
      requires value0 == reader.input[a..reader.markPos]
      modifies reader
      ensures Valid()
      ensures ScanAgrees(TagRest(reader.input, a, old(reader.markPos)), r, reader.pos, reader.markPos)
    {
      ghost var b := reader.markPos;
      ghost var k := b;
      var value := value0;
      var ch := ch0;
      var delim := false;
      while IsAsciiAlphaNum(ch) || ch == '-' as int
        invariant reader.Valid() && b <= k <= |reader.input|
        invariant reader.markPos == k && ch == CharAt(reader.input, k)
        invariant reader.pos == if k < |reader.input| then k + 1 else k
        invariant value == reader.input[a..k]
        invariant RunEnd(reader.input, k, AlphaNumDash) == RunEnd(reader.input, b, AlphaNumDash)
        invariant delim ==> ch == '-' as int
        decreases |reader.input| - k
      {
        value := value + [ch as Unit];
        k := k + 1;
        reader.Mark();
        ch := reader.Read();
        delim := ch == '-' as int;
      }
      if ch == EOF || delim {
        return Err(Unexpected(ch));
      }
      reader.Reset();
      return Ok(NQuadsLexer.Token.Token(LangTag, Some(value)));
    }

    /** `readBlankNode`, after the `_`. */
    method ReadBlankNode() returns (r: Result<NQuadsLexer.Token, LexError>)
      requires Valid()
      modifies reader
      ensures Valid()
      ensures ScanAgrees(BlankNodeAt(reader.input, old(reader.pos), old(reader.markPos)), r, reader.pos, reader.markPos)
    {
      var value: seq<Unit> := [];
      var ch := reader.Read();
      if ch != ':' as int || ch == EOF {
        return Err(Unexpected(ch));
      }
      ch := reader.Read();
      if (!IsPnCharsU(ch) && !IsDigit(ch)) || ch == EOF {
        return Err(Unexpected(ch));
      }
      value := value + [ch as Unit];
      r := ReadLabelRest(old(reader.pos) + 1, value);
    }

    /** `readBlankNode` after the label's first character: the loop over PN_CHARS and dots. */
    method ReadLabelRest(ghost a: nat, value0: seq<Unit>) returns (r: Result<NQuadsLexer.Token, LexError>)
      requires Valid() && a < |reader.input| && reader.pos == a + 1
      requires value0 == reader.input[a..a + 1]
      modifies reader
      ensures Valid()
      ensures ScanAgrees(LabelRest(reader.input, a), r, reader.pos, reader.markPos)
    {
      var value := value0;
      ghost var k := a + 1;
      reader.Mark();
      var ch := reader.Read();
      var delim := false;
      while IsPnChars(ch) || ch == '.' as int
        invariant reader.Valid() && a < k <= |reader.input|
        invariant reader.markPos == k && ch == CharAt(reader.input, k)
        invariant reader.pos == if k < |reader.input| then k + 1 else k
        invariant value == reader.input[a..k]
        invariant RunEnd(reader.input, k, PnCharsDot) == RunEnd(reader.input, a + 1, PnCharsDot)
        invariant delim ==> ch == '.' as int
        decreases |reader.input| - k
      {
        value := value + [ch as Unit];
        k := k + 1;
        reader.Mark();
        ch := reader.Read();
        delim := ch == '.' as int;
      }
      assert k == RunEnd(reader.input, a + 1, PnCharsDot);
      if ch == EOF || delim {
        return Err(Unexpected(ch));
      }
      reader.Reset();
      return Ok(NQuadsLexer.Token.Token(BlankNodeLabel, Some(value)));
    }
  }
}
