/** Properties of the N-Quads terminals as module NQuadsLexer reads them. */
module NQuadsProps {
  import opened Results
  import opened NQuadsLexer

  // ----- White space and line ends -----

  /** A maximal run of spaces and tabs is one `WS` token; the character after it is left unread. */
  lemma WhitespaceRun(input: seq<Unit>, pos: nat, mark: nat)
    requires pos < |input| && mark <= |input| && IsWhitespace(input[pos] as int)
    ensures Lex(input, pos, mark).Ok?
    ensures var sc := Lex(input, pos, mark).value;
      && sc.token == WS && sc.mark == sc.pos && pos < sc.pos
      && (forall m :: pos <= m < sc.pos ==> IsWhitespace(input[m] as int))
      && (sc.pos == |input| || !IsWhitespace(input[sc.pos] as int))
  {
  }

  /** A maximal run of line feeds and carriage returns is one `EOL` token. */
  lemma EolRun(input: seq<Unit>, pos: nat, mark: nat)
    requires pos < |input| && mark <= |input| && IsEol(input[pos] as int)
    ensures Lex(input, pos, mark).Ok?
    ensures var sc := Lex(input, pos, mark).value;
      && sc.token == EOL && sc.mark == sc.pos && pos < sc.pos
      && (forall m :: pos <= m < sc.pos ==> IsEol(input[m] as int))
      && (sc.pos == |input| || !IsEol(input[sc.pos] as int))
  {
  }

  /** `.` ends a statement, `^^` is the datatype marker, and nothing else unlisted starts a token. */
  lemma Punctuation(input: seq<Unit>, pos: nat, mark: nat)
    requires pos < |input| && mark <= |input|
    ensures input[pos] == '.' as Unit ==> Lex(input, pos, mark) == Ok(Scan(EOS, pos + 1, mark))
    ensures input[pos] == '^' as Unit ==>
      Lex(input, pos, mark) == if CharAt(input, pos + 1) == '^' as int then Ok(Scan(DATATYPE, pos + 2, mark))
        else Err(Unexpected(CharAt(input, pos + 1)))
    ensures !IsTokenStart(input[pos] as int) ==> Lex(input, pos, mark) == Err(Unexpected(input[pos] as int))
  {
  }

  // ----- IRIREF -----

  /** Text an IRI token may hold. */
  predicate IriText(v: seq<Unit>) {
    forall i :: 0 <= i < |v| ==> !IsIriForbidden(v[i] as int) && v[i] != '>' as Unit
  }

  /** Scanning skips over permitted text. */
  lemma {:induction false} IriEndSkips(input: seq<Unit>, i: nat, k: nat)
    requires i <= k <= |input| && IriText(input[i..k])
    ensures IriEnd(input, i) == IriEnd(input, k)
    decreases k - i
  {
    if i < k {
      assert input[i..k][0] == input[i];
      assert input[i + 1..k] == input[i..k][1..];
      IriEndSkips(input, i + 1, k);
    }
  }

  lemma {:induction false} IriEndText(input: seq<Unit>, i: nat)
    requires i <= |input| && IriEnd(input, i).Ok?
    ensures IriText(input[i..IriEnd(input, i).value])
    decreases |input| - i
  {
    if input[i] != '>' as Unit {
      IriEndText(input, i + 1);
      var j := IriEnd(input, i).value;
      assert input[i..j] == [input[i]] + input[i + 1..j];
    }
  }

  /** An IRI token holds exactly the text between `<` and `>`. */
  lemma IriRoundTrip(input: seq<Unit>, pos: nat, v: seq<Unit>, mark: nat)
    requires IriText(v) && mark <= |input|
    requires pos + |v| + 1 < |input| && input[pos + 1..pos + 1 + |v|] == v
    requires input[pos] == '<' as Unit && input[pos + 1 + |v|] == '>' as Unit
    ensures Lex(input, pos, mark) == Ok(Scan(Token(IriRef, Some(v)), pos + |v| + 2, mark))
  {
    IriEndSkips(input, pos + 1, pos + 1 + |v|);
  }

  /** Whatever an IRI token holds was between `<` and `>`, and is permitted text. */
  lemma IriSound(input: seq<Unit>, pos: nat, mark: nat)
    requires pos <= |input| && mark <= |input|
    requires Lex(input, pos, mark).Ok? && Lex(input, pos, mark).value.token.kind == IriRef
    ensures var sc := Lex(input, pos, mark).value;
      && input[pos] == '<' as Unit && input[sc.pos - 1] == '>' as Unit
      && sc.token.value == Some(input[pos + 1..sc.pos - 1])
      && IriText(input[pos + 1..sc.pos - 1])
  {
    IriEndText(input, pos + 1);
  }

  /** A forbidden character inside the brackets is reported; so is a missing `>`. */
  lemma IriErrors(input: seq<Unit>, pos: nat, k: nat, mark: nat)
    requires pos < k <= |input| && mark <= |input| && input[pos] == '<' as Unit
    requires IriText(input[pos + 1..k])
    ensures k < |input| && IsIriForbidden(input[k] as int) ==> Lex(input, pos, mark) == Err(Unexpected(input[k] as int))
    ensures k == |input| ==> Lex(input, pos, mark) == Err(Unexpected(EOF))
  {
    IriEndSkips(input, pos + 1, k);
  }

  // ----- STRING_LITERAL_QUOTE -----

  /** Text a string token may hold: no bare quote or line end, and every backslash starts an escape. */
  predicate WellEscaped(v: seq<Unit>) {
    EscapedBetween(v, 0, |v|)
  }

  /** `s[i..k]` is well escaped, read in place. */
  predicate EscapedBetween(s: seq<Unit>, i: nat, k: nat)
    requires i <= k <= |s|
    decreases k - i
  {
    if i == k then true
    else if s[i] == '\\' as Unit then i + 1 < k && IsEscape(s[i + 1] as int) && EscapedBetween(s, i + 2, k)
    else s[i] != '"' as Unit && s[i] != 0x0A && s[i] != 0x0D && EscapedBetween(s, i + 1, k)
  }

  /** Reading in place and reading the slice agree. */
  lemma {:induction false} EscapedSlice(s: seq<Unit>, i: nat, m: nat, k: nat)
    requires i <= m <= k <= |s|
    ensures EscapedBetween(s, m, k) == EscapedBetween(s[i..k], m - i, k - i)
    decreases k - m
  {
    if m < k {
      var t := s[i..k];
      assert t[m - i] == s[m];
      if m + 1 < k {
        assert t[m - i + 1] == s[m + 1];
      }
      if s[m] == '\\' as Unit {
        if m + 2 <= k {
          EscapedSlice(s, i, m + 2, k);
        }
      } else {
        EscapedSlice(s, i, m + 1, k);
      }
    }
  }

  lemma {:induction false} StringEndSkips(input: seq<Unit>, i: nat, k: nat)
    requires i <= k <= |input| && EscapedBetween(input, i, k)
    ensures StringEnd(input, i) == StringEnd(input, k)
    decreases k - i
  {
    if i < k {
      if input[i] == '\\' as Unit {
        StringEndSkips(input, i + 2, k);
      } else {
        StringEndSkips(input, i + 1, k);
      }
    }
  }

  lemma {:induction false} StringEndText(input: seq<Unit>, i: nat)
    requires i <= |input| && StringEnd(input, i).Ok?
    ensures EscapedBetween(input, i, StringEnd(input, i).value)
    decreases |input| - i
  {
    if input[i] == '\\' as Unit {
      StringEndText(input, i + 2);
    } else if input[i] != '"' as Unit {
      StringEndText(input, i + 1);
    }
  }

  /** A string token holds the text between the quotes, escapes kept verbatim. */
  lemma StringRoundTrip(input: seq<Unit>, pos: nat, v: seq<Unit>, mark: nat)
    requires WellEscaped(v) && mark <= |input|
    requires pos + |v| + 1 < |input| && input[pos + 1..pos + 1 + |v|] == v
    requires input[pos] == '"' as Unit && input[pos + 1 + |v|] == '"' as Unit
    ensures Lex(input, pos, mark) == Ok(Scan(Token(StringLiteralQuote, Some(v)), pos + |v| + 2, mark))
  {
    var j := pos + 1 + |v|;
    EscapedSlice(input, pos + 1, pos + 1, j);
    StringEndSkips(input, pos + 1, j);
    assert Lex(input, pos, mark) == StringAt(input, pos + 1, mark);
  }

  /** Whatever a string token holds was between the quotes, and is well escaped. */
  lemma StringSound(input: seq<Unit>, pos: nat, mark: nat)
    requires pos <= |input| && mark <= |input|
    requires Lex(input, pos, mark).Ok? && Lex(input, pos, mark).value.token.kind == StringLiteralQuote
    ensures var sc := Lex(input, pos, mark).value;
      && input[pos] == '"' as Unit && input[sc.pos - 1] == '"' as Unit
      && sc.token.value == Some(input[pos + 1..sc.pos - 1])
      && WellEscaped(input[pos + 1..sc.pos - 1])
  {
    StringEndText(input, pos + 1);
    var j := StringEnd(input, pos + 1).value;
    EscapedSlice(input, pos + 1, pos + 1, j);
  }

  /**
   * A backslash before anything but an escape character is reported; so is a
   * bare line feed or carriage return, and a missing closing quote.
   */
  lemma StringErrors(input: seq<Unit>, pos: nat, k: nat, mark: nat)
    requires pos < k <= |input| && mark <= |input| && input[pos] == '"' as Unit
    requires WellEscaped(input[pos + 1..k])
    ensures k < |input| && input[k] == '\\' as Unit && !IsEscape(CharAt(input, k + 1)) ==>
      Lex(input, pos, mark) == Err(Unexpected(CharAt(input, k + 1)))
    ensures k < |input| && (input[k] == 0x0A || input[k] == 0x0D) ==>
      Lex(input, pos, mark) == Err(Unexpected(input[k] as int))
    ensures k == |input| ==> Lex(input, pos, mark) == Err(Unexpected(EOF))
  {
    EscapedSlice(input, pos + 1, pos + 1, k);
    StringEndSkips(input, pos + 1, k);
  }

  // ----- LANGTAG -----

  /**
   * A language tag token holds what follows `@`: an ASCII letter, then letters,
   * digits and dashes. The character after it is left unread for the next token.
   */
  lemma LangTagShape(input: seq<Unit>, pos: nat, mark: nat)
    requires pos <= |input| && mark <= |input|
    requires Lex(input, pos, mark).Ok? && Lex(input, pos, mark).value.token.kind == LangTag
    ensures var sc := Lex(input, pos, mark).value;
      && input[pos] == '@' as Unit
      && sc.token.value == Some(input[pos + 1..sc.pos])
      && pos + 1 < sc.pos < |input| && sc.mark == sc.pos
      && IsAsciiAlpha(input[pos + 1] as int)
      && (forall m :: pos + 1 <= m < sc.pos ==> InClass(AlphaNumDash, input[m] as int))
      && !InClass(AlphaNumDash, input[sc.pos] as int)
  {
    var a := pos + 1;
    var b := RunEnd(input, a + 1, Alpha);
    var e := RunEnd(input, b, AlphaNumDash);
    assert forall m :: a < m < b ==> InClass(Alpha, input[m] as int);
  }

  /** A tag that runs to the end of the input is an error. */
  lemma LangTagAtEnd(input: seq<Unit>, pos: nat, mark: nat)
    requires pos < |input| && mark <= |input| && input[pos] == '@' as Unit
    requires forall m :: pos < m < |input| ==> InClass(AlphaNumDash, input[m] as int)
    ensures Lex(input, pos, mark).Err?
  {
    var a := pos + 1;
    if IsAsciiAlpha(CharAt(input, a)) {
      var b := RunEnd(input, a + 1, Alpha);
      if b < |input| {
        var e := RunEnd(input, b, AlphaNumDash);
        assert e == |input|;
      }
    }
  }

  /** A dash that ends a tag is not rejected: `@en-` followed by a space is the tag `en-`. */
  lemma LangTagTrailingDash()
    ensures var input: seq<Unit> := [0x40, 0x65, 0x6E, 0x2D, 0x20];  // "@en- "
      Lex(input, 0, 0) == Ok(Scan(Token(LangTag, Some([0x65, 0x6E, 0x2D])), 4, 4))
  {
    var input: seq<Unit> := [0x40, 0x65, 0x6E, 0x2D, 0x20];
    assert RunEnd(input, 2, Alpha) == 3;
    assert RunEnd(input, 3, AlphaNumDash) == 4;
    assert input[1..4] == [0x65, 0x6E, 0x2D];
  }

  // ----- BLANK_NODE_LABEL -----

  /**
   * A blank node token holds what follows `_:`: a PN_CHARS_U character or a
   * digit, then PN_CHARS and dots. The character after it is left unread.
   */
  lemma BlankNodeShape(input: seq<Unit>, pos: nat, mark: nat)
    requires pos <= |input| && mark <= |input|
    requires Lex(input, pos, mark).Ok? && Lex(input, pos, mark).value.token.kind == BlankNodeLabel
    ensures var sc := Lex(input, pos, mark).value;
      && input[pos] == '_' as Unit && input[pos + 1] == ':' as Unit
      && sc.token.value == Some(input[pos + 2..sc.pos])
      && pos + 2 < sc.pos < |input| && sc.mark == sc.pos
      && (IsPnCharsU(input[pos + 2] as int) || IsDigit(input[pos + 2] as int))
      && (forall m :: pos + 2 < m < sc.pos ==> InClass(PnCharsDot, input[m] as int))
      && !InClass(PnCharsDot, input[sc.pos] as int)
  {
  }

  /** A label that runs to the end of the input is an error. */
  lemma BlankNodeAtEnd(input: seq<Unit>, pos: nat, mark: nat)
    requires pos < |input| && mark <= |input| && input[pos] == '_' as Unit
    requires forall m :: pos + 2 < m < |input| ==> InClass(PnCharsDot, input[m] as int)
    ensures Lex(input, pos, mark).Err?
  {
    if pos + 2 < |input| {
      assert RunEnd(input, pos + 3, PnCharsDot) == |input|;
    }
  }

  /** A label's trailing dot is not rejected: `_:b0.` takes the statement's `.` into the label. */
  lemma BlankNodeSwallowsDot()
    ensures var input: seq<Unit> := [0x5F, 0x3A, 0x62, 0x30, 0x2E, 0x20];  // "_:b0. "
      Lex(input, 0, 0) == Ok(Scan(Token(BlankNodeLabel, Some([0x62, 0x30, 0x2E])), 5, 5))
  {
    var input: seq<Unit> := [0x5F, 0x3A, 0x62, 0x30, 0x2E, 0x20];
    assert RunEnd(input, 3, PnCharsDot) == 5;
    assert input[2..5] == [0x62, 0x30, 0x2E];
  }

  // ----- The tokenizer -----

  /** Once the lookahead is the end of input, nothing reads further and the end is returned. */
  lemma EndOfInputSticky(input: seq<Unit>, s: TokState)
    requires ValidState(input, s) && s.next == Some(EOI)
    ensures HasNext(input, s) == Ok(Answer(false, s))
    ensures Next(input, s) == Ok(Answer(EOI, s))
    ensures Current(input, s) == Ok(Answer(EOI, s))
  {
  }

  /** At the end of the input the lookahead becomes the end of input, with the reader unmoved. */
  lemma EndOfInputReached(input: seq<Unit>, s: TokState)
    requires ValidState(input, s) && s.next.None? && s.pos == |input|
    ensures Next(input, s) == Ok(Answer(EOI, s.(next := Some(EOI))))
    ensures HasNext(input, s) == Ok(Answer(false, s.(next := Some(EOI))))
  {
  }

  /** `token` is a peek: asking again returns the same token and changes nothing. */
  lemma PeekIdempotent(input: seq<Unit>, s: TokState)
    requires ValidState(input, s) && Current(input, s).Ok?
    ensures Current(input, Current(input, s).value.st) == Current(input, s)
    ensures s.next.Some? ==> Current(input, s) == Ok(Answer(s.next.value, s))
  {
  }

  /** `accept(t)` answers whether the current token has kind `t`, and advances exactly then. */
  lemma AcceptAdvancesIff(input: seq<Unit>, s: TokState, t: TokenType)
    requires ValidState(input, s) && Accept(input, s, t).Ok?
    ensures var c := Current(input, s).value;
      var a := Accept(input, s, t).value;
      && (a.value <==> c.value.kind == t)
      && (!a.value ==> a.st == c.st)
      && (a.value ==> Next(input, c.st).Ok? && a.st == Next(input, c.st).value.st)
  {
  }

  /**
   * On a fresh tokenizer `next` fills the empty lookahead through `hasNext` and
   * then reads again: the first token is skipped.
   */
  lemma FirstNextSkipsToken(input: seq<Unit>, pos: nat, mark: nat)
    requires pos <= |input| && mark <= |input|
    requires Lex(input, pos, mark).Ok? && Lex(input, pos, mark).value.token != EOI
    ensures var first := Lex(input, pos, mark).value;
      Next(input, TokState(pos, mark, None)) ==
        match Lex(input, first.pos, first.mark)
        case Err(err) => Err(err)
        case Ok(second) => Ok(Answer(second.token, FromScan(second)))
  {
  }

  /** On `<a>.` the first `next` returns the end of the statement, not the IRI. */
  lemma FirstNextExample()
    ensures var input: seq<Unit> := [0x3C, 0x61, 0x3E, 0x2E];  // "<a>."
      Next(input, TokState(0, 0, None)) == Ok(Answer(EOS, TokState(4, 0, Some(EOS))))
  {
    var input: seq<Unit> := [0x3C, 0x61, 0x3E, 0x2E];
    assert IriEnd(input, 1) == Ok(2);
    assert input[1..2] == [0x61];
    assert Lex(input, 0, 0) == Ok(Scan(Token(IriRef, Some([0x61])), 3, 0));
  }
}
