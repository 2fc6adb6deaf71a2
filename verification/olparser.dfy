/** The parser of the configuration language (`ol.c`): values, fields and
    blocks over the token stream, with one token of lookahead. */
module OlParser {
  import opened Results
  import opened OlReader
  import opened OlValues
  import opened OlLexer

  /** The parser state of `ParseCxt`: the current token and the reader
      positioned after it. */
  datatype PState = PState(tok: Token, p: Reader)

  /** A measure that consuming any token other than end-of-file decreases. */
  function Rank(s: PState): nat {
    Size(s.p) + (if s.tok.EofTok? then 0 else 1)
  }

  /** `isSymbol`. */
  predicate IsSym(s: PState, c: int) {
    s.tok.SymTok? && s.tok.sym == c
  }

  /** Drop the current token and read the next (`eatSymbol`, and the
      `nextToken` after a value is taken). */
  function Eat(s: PState): (r: Result<PState, SyntaxError>)
    requires Valid(s.p)
    ensures r.Ok? ==> Valid(r.value.p) && Rank(r.value) <= Size(s.p)
  {
    match NextToken(s.p)
    case Err(e) => Err(e)
    case Ok((t, q)) => Ok(PState(t, q))
  }

  /** `parseValue`: a braced block, or the value the current token holds. */
  function ParseValue(s: PState): (r: Result<(Value, PState), SyntaxError>)
    requires Valid(s.p)
    ensures r.Ok? ==> Valid(r.value.1.p) && Rank(r.value.1) < Rank(s)
    ensures !IsSym(s, '{' as int) && !s.tok.ValTok? ==> r == Err(SyntaxError(s.tok.loc, ExpectedValue))
    ensures s.tok.ValTok? ==> r == (match Eat(s) case Ok(s1) => Ok((s.tok.val, s1)) case Err(e) => Err(e))
    ensures r.Ok? && IsSym(s, '{' as int) ==> r.value.0.Block?
    decreases Rank(s), 0
  {
    if IsSym(s, '{' as int) then
      match Eat(s)
      case Err(e) => Err(e)
      case Ok(s1) =>
        match ParseBlock(s1)
        case Err(e) => Err(e)
        case Ok((fields, s2)) =>
          if !IsSym(s2, '}' as int) then Err(SyntaxError(s2.tok.loc, ExpectedCloseBrace))
          else
            match Eat(s2)
            case Err(e) => Err(e)
            case Ok(s3) => Ok((Block(fields), s3))
    else if s.tok.ValTok? then
      match Eat(s)
      case Err(e) => Err(e)
      case Ok(s1) => Ok((s.tok.val, s1))
    else Err(SyntaxError(s.tok.loc, ExpectedValue))
  }

  /** `parseField`: a value, and if `'='` follows, a second value; the
      first is then the key. */
  function ParseField(s: PState): (r: Result<(Field, PState), SyntaxError>)
    requires Valid(s.p)
    ensures r.Ok? ==> Valid(r.value.1.p) && Rank(r.value.1) < Rank(s)
    ensures r.Ok? ==> ParseValue(s).Ok?
    ensures r.Ok? ==> var (v1, s1) := ParseValue(s).value;
      if IsSym(s1, '=' as int) then r.value.0.key == Some(v1)
      else r.value.0 == Field(None, v1) && r.value.1 == s1
    decreases Rank(s), 1
  {
    match ParseValue(s)
    case Err(e) => Err(e)
    case Ok((v1, s1)) =>
      if IsSym(s1, '=' as int) then
        match Eat(s1)
        case Err(e) => Err(e)
        case Ok(s2) =>
          match ParseValue(s2)
          case Err(e) => Err(e)
          case Ok((v2, s3)) => Ok((Field(Some(v1), v2), s3))
      else Ok((Field(None, v1), s1))
  }

  /** Whether a block ends at the current token. */
  predicate AtBlockEnd(s: PState) {
    IsSym(s, '}' as int) || s.tok.EofTok?
  }

  /** The optional `','` or `';'` after a field of a block. */
  function SkipSeparator(s: PState): (r: Result<PState, SyntaxError>)
    requires Valid(s.p)
    ensures r.Ok? ==> Valid(r.value.p) && Rank(r.value) <= Rank(s)
    ensures !IsSym(s, ',' as int) && !IsSym(s, ';' as int) ==> r == Ok(s)
    ensures IsSym(s, ',' as int) || IsSym(s, ';' as int) ==> r == Eat(s)
  {
    if IsSym(s, ',' as int) || IsSym(s, ';' as int) then
      assert Rank(s) == Size(s.p) + 1;
      Eat(s)
    else Ok(s)
  }

  /** `parseBlock`: fields up to `'}'` or end of file, each optionally
      followed by `','` or `';'`. */
  function ParseBlock(s: PState): (r: Result<(seq<Field>, PState), SyntaxError>)
    requires Valid(s.p)
    ensures r.Ok? ==> Valid(r.value.1.p) && Rank(r.value.1) <= Rank(s)
    ensures r.Ok? ==> AtBlockEnd(r.value.1)
    ensures AtBlockEnd(s) ==> r == Ok(([], s))
    decreases Rank(s), 2
  {
    if AtBlockEnd(s) then Ok(([], s))
    else
      match ParseField(s)
      case Err(e) => Err(e)
      case Ok((f, s1)) =>
        match SkipSeparator(s1)
        case Err(e) => Err(e)
        case Ok(s2) =>
          match ParseBlock(s2)
          case Err(e) => Err(e)
          case Ok((fs, s3)) => Ok(([f] + fs, s3))
  }

  /** The body of `ol_parseFile` from an opened reader: a block that must
      run to the end of the file. Nothing but white space is the empty
      block, and a `'}'` with no block open is an unexpected token. */
  function ParseFrom(p: Reader): (r: Result<seq<Field>, SyntaxError>)
    requires Valid(p)
    ensures Span(Stream(p), IsSpace) == |Stream(p)| ==> r == Ok([])
    ensures NextToken(p).Ok? && NextToken(p).value.0 == SymTok(NextToken(p).value.0.loc, '}' as int) ==>
      r == Err(SyntaxError(NextToken(p).value.0.loc, UnexpectedToken))
  {
    match NextToken(p)
    case Err(e) => Err(e)
    case Ok((t, q)) =>
      match ParseBlock(PState(t, q))
      case Err(e) => Err(e)
      case Ok((fields, s)) =>
        if !s.tok.EofTok? then Err(SyntaxError(s.tok.loc, UnexpectedToken)) else Ok(fields)
  }

  /** A reader whose current character is a `'\r'` yields it as a symbol,
      where a block expects a value. */
  lemma CRFirst(p: Reader)
    requires Valid(p) && p.cur == CR
    ensures ParseFrom(p) == Err(SyntaxError(p.loc, ExpectedValue))
  {
    var s := PState(SymTok(p.loc, CR), NextChar(p));
    CRToken(p);
    assert ParseValue(s) == Err(SyntaxError(p.loc, ExpectedValue));
    assert ParseBlock(s) == Err(SyntaxError(p.loc, ExpectedValue));
  }

  /** A `'\r'` is not white space, so it is the next token, as a symbol. */
  lemma CRToken(p: Reader)
    requires Valid(p) && p.cur == CR
    ensures NextToken(p) == Ok((SymTok(p.loc, CR), NextChar(p)))
  {
    assert SkipSpace(p) == p;
  }

  /** `ol_parseFile` as written, with the first character not normalised:
      a file that starts with `'\r'` fails where its first value should be. */
  function ParseFileAsWritten(file: seq<int>): (r: Result<seq<Field>, SyntaxError>)
    requires Bytes(file)
    ensures file != [] && file[0] == CR ==> r == Err(SyntaxError(Loc(1, 1), ExpectedValue))
  {
    var p := OpenAsWritten(file);
    if file != [] && file[0] == CR then StreamHead(p); CRFirst(p); ParseFrom(p)
    else ParseFrom(p)
  }

  /** `ol_parseFile` with every line break normalised. It agrees with the
      program as written unless the file starts with a line break, and a
      file of white space is the empty block. */
  function ParseFile(file: seq<int>): (r: Result<seq<Field>, SyntaxError>)
    requires Bytes(file)
    ensures file == [] || (file[0] != CR && file[0] != NL) ==> r == ParseFileAsWritten(file)
    ensures Span(Normalize(file), IsSpace) == |Normalize(file)| ==> r == Ok([])
  {
    if file == [] || (file[0] != CR && file[0] != NL) then OpenAgree(file); ParseFrom(Open(file))
    else ParseFrom(Open(file))
  }

  /** A file that is a single CRLF line break: as written, the `'\r'` is
      lexed as a symbol and the parse fails where a value is expected; with
      the first character normalised the file is an empty block. */
  lemma LeadingCRLF()
    ensures ParseFileAsWritten([CR, NL]).Err?
    ensures ParseFile([CR, NL]) == Ok([])
  {
    var p := OpenAsWritten([CR, NL]);
    assert p == Reader(Loc(1, 1), CR, NL, []);
    assert SkipSpace(p) == p;
    var t := NextToken(p);
    assert t.Ok? && t.value.0 == SymTok(Loc(1, 1), CR);
    var s := PState(t.value.0, t.value.1);
    assert ParseValue(s).Err?;
    assert ParseField(s).Err?;
    assert ParseBlock(s).Err?;
    var o := Open([CR, NL]);
    assert o == Reader(Loc(1, 1), NL, EOF, []);
    var o1 := NextChar(o);
    assert o1.cur == EOF;
    assert SkipSpace(o1) == o1;
    assert SkipSpace(o) == o1;
    assert NextToken(o) == Ok((EofTok(o1.loc), o1));
  }
}
