/** Printing and reading back: a block of fields written out as text (one
    space before every token, and after each field a `,`, a `;` or
    nothing) is read back by the parser as the same fields.

    The proof has two layers.  The parser layer works on the token sequence
    alone: if the tokens read from a parser state are those of a written
    value (field, block), `ParseValue` (`ParseField`, `ParseBlock`) returns
    the value it means.  The lexer layer shows that the text of each token
    is read back as that token. */
module OlRoundTrip {
  import opened Results
  import opened Numeric
  import opened OlReader
  import opened OlValues
  import opened OlLexer
  import opened OlParser
  import opened OlNumbers

  // ---------------------------------------------------------------- tokens without locations

  datatype Tok = V(v: Value) | S(sym: int) | E

  function Strip(t: Token): Tok {
    match t
    case ValTok(_, v) => V(v)
    case SymTok(_, c) => S(c)
    case EofTok(_) => E
  }

  /** The tokens read from `s` on, the current one first, are exactly
      `toks`, the last of which is the end of the file. */
  predicate Yields(s: PState, toks: seq<Tok>)
    requires Valid(s.p)
    decreases |toks|
  {
    && |toks| > 0
    && Strip(s.tok) == toks[0]
    && if toks[0] == E then |toks| == 1
       else Eat(s).Ok? && Yields(Eat(s).value, toks[1..])
  }

  const LBrace: int := '{' as int
  const RBrace: int := '}' as int
  const Equals: int := '=' as int
  const Semi: int := ';' as int
  const Comma: int := ',' as int

  // ---------------------------------------------------------------- written values

  /** What follows a field in a block: `,`, `;` or nothing. */
  datatype Sep = CommaSep | SemiSep | NoSep

  /** A value as it is written: a block records the separator after each
      of its fields. */
  datatype WValue = WAtom(v: Value) | WBlock(fields: seq<WField>)
  datatype WField = WField(key: Option<WValue>, value: WValue, sep: Sep)

  /** The value a written value stands for: separators are dropped. */
  function Meaning(w: WValue): Value
    decreases w, 0
  {
    match w
    case WAtom(v) => v
    case WBlock(fs) => Block(FieldsMeaning(fs))
  }

  function FieldMeaning(f: WField): Field
    decreases f, 1
  {
    Field(if f.key.Some? then Some(Meaning(f.key.value)) else None, Meaning(f.value))
  }

  function FieldsMeaning(fs: seq<WField>): (r: seq<Field>)
    ensures |r| == |fs|
    decreases fs, 2
  {
    if fs == [] then [] else [FieldMeaning(fs[0])] + FieldsMeaning(fs[1..])
  }

  /** The tokens of a separator, a written value, a field and a list of
      fields. */
  function SepToks(c: Sep): seq<Tok> {
    match c
    case CommaSep => [S(Comma)]
    case SemiSep => [S(Semi)]
    case NoSep => []
  }

  function ValueToks(w: WValue): seq<Tok>
    decreases w, 0
  {
    match w
    case WBlock(fs) => [S(LBrace)] + FieldsToks(fs) + [S(RBrace)]
    case WAtom(v) => [V(v)]
  }

  function FieldToks(f: WField): seq<Tok>
    decreases f, 1
  {
    (if f.key.Some? then ValueToks(f.key.value) + [S(Equals)] else []) + ValueToks(f.value)
  }

  function FieldsToks(fs: seq<WField>): seq<Tok>
    decreases fs, 2
  {
    if fs == [] then [] else FieldToks(fs[0]) + SepToks(fs[0].sep) + FieldsToks(fs[1..])
  }

  // ---------------------------------------------------------------- the parser layer

  lemma YieldsTail(s: PState, toks: seq<Tok>)
    requires Valid(s.p) && Yields(s, toks)
    ensures |toks| > 0 && Strip(s.tok) == toks[0]
    ensures toks[0] != E ==> Eat(s).Ok? && Yields(Eat(s).value, toks[1..])
  {
  }

  lemma BlockSplit(fs: seq<WField>, rest: seq<Tok>)
    ensures ValueToks(WBlock(fs)) + rest == [S(LBrace)] + (FieldsToks(fs) + ([S(RBrace)] + rest))
  {
  }

  lemma KeyedSplit(f: WField, rest: seq<Tok>)
    requires f.key.Some?
    ensures FieldToks(f) + rest == ValueToks(f.key.value) + ([S(Equals)] + (ValueToks(f.value) + rest))
  {
  }

  lemma Assoc<T>(a: seq<T>, b: seq<T>, c: seq<T>)
    ensures (a + b) + c == a + (b + c)
  {
  }

  lemma ConsSplit(fs: seq<WField>, rest: seq<Tok>)
    requires fs != []
    ensures FieldsToks(fs) + rest == FieldToks(fs[0]) + (SepToks(fs[0].sep) + (FieldsToks(fs[1..]) + rest))
  {
    var a, b, c := FieldToks(fs[0]), SepToks(fs[0].sep), FieldsToks(fs[1..]);
    assert FieldsToks(fs) == (a + b) + c;
    Assoc(a + b, c, rest);
    Assoc(a, b, c + rest);
  }

  /** A symbol token, then `xs`. */
  lemma YieldsSym(s: PState, c: int, xs: seq<Tok>)
    requires Valid(s.p) && Yields(s, [S(c)] + xs)
    ensures IsSym(s, c) && Eat(s).Ok? && Yields(Eat(s).value, xs)
  {
    assert ([S(c)] + xs)[1..] == xs;
  }

  lemma YieldsCons(s: PState, t: Tok, rest: seq<Tok>)
    requires Valid(s.p) && Strip(s.tok) == t && t != E
    requires Eat(s).Ok? && Yields(Eat(s).value, rest)
    ensures Yields(s, [t] + rest)
  {
    assert ([t] + rest)[1..] == rest;
  }

  /** One step of `parseValue` on a block. */
  lemma BlockValueStep(s: PState)
    requires Valid(s.p) && IsSym(s, LBrace) && Eat(s).Ok?
    requires ParseBlock(Eat(s).value).Ok?
    requires var s2 := ParseBlock(Eat(s).value).value.1; IsSym(s2, RBrace) && Eat(s2).Ok?
    ensures var (fs, s2) := ParseBlock(Eat(s).value).value;
      ParseValue(s) == Ok((Block(fs), Eat(s2).value))
  {
  }

  /** One step of `parseField` without a key. */
  lemma BareFieldStep(s: PState)
    requires Valid(s.p) && ParseValue(s).Ok? && !IsSym(ParseValue(s).value.1, Equals)
    ensures ParseField(s) == Ok((Field(None, ParseValue(s).value.0), ParseValue(s).value.1))
  {
  }

  /** One step of `parseField` with a key. */
  lemma KeyedFieldStep(s: PState)
    requires Valid(s.p) && ParseValue(s).Ok?
    requires var s1 := ParseValue(s).value.1;
      IsSym(s1, Equals) && Eat(s1).Ok? && ParseValue(Eat(s1).value).Ok?
    ensures var (k, s1) := ParseValue(s).value;
      var (v, s3) := ParseValue(Eat(s1).value).value;
      ParseField(s) == Ok((Field(Some(k), v), s3))
  {
  }

  /** One step of `parseBlock`: a field, its optional separator, and the
      rest of the block. */
  lemma BlockConsStep(s: PState)
    requires Valid(s.p) && !AtBlockEnd(s) && ParseField(s).Ok?
    requires var s1 := ParseField(s).value.1;
      SkipSeparator(s1).Ok? && ParseBlock(SkipSeparator(s1).value).Ok?
    ensures var (f, s1) := ParseField(s).value;
      var (fs, s3) := ParseBlock(SkipSeparator(s1).value).value;
      ParseBlock(s) == Ok(([f] + fs, s3))
  {
  }

  lemma {:induction false} ParseValueToks(s: PState, w: WValue, rest: seq<Tok>)
    requires Valid(s.p) && Yields(s, ValueToks(w) + rest)
    ensures ParseValue(s).Ok? && ParseValue(s).value.0 == Meaning(w)
    ensures Yields(ParseValue(s).value.1, rest)
    decreases w, 0
  {
    if w.WBlock? {
      BlockToks(s, w.fields, rest);
    } else {
      var toks := ValueToks(w) + rest;
      YieldsTail(s, toks);
      assert toks[1..] == rest;
    }
  }

  lemma {:induction false} BlockToks(s: PState, fs: seq<WField>, rest: seq<Tok>)
    requires Valid(s.p) && Yields(s, ValueToks(WBlock(fs)) + rest)
    ensures ParseValue(s).Ok? && ParseValue(s).value.0 == Block(FieldsMeaning(fs))
    ensures Yields(ParseValue(s).value.1, rest)
    decreases fs, 3
  {
    var after := [S(RBrace)] + rest;
    var inner := FieldsToks(fs) + after;
    BlockSplit(fs, rest);
    YieldsSym(s, LBrace, inner);
    var s1 := Eat(s).value;
    ParseBlockToks(s1, fs, after);
    YieldsSym(ParseBlock(s1).value.1, RBrace, rest);
    BlockValueStep(s);
  }

  lemma {:induction false} ParseFieldToks(s: PState, f: WField, rest: seq<Tok>)
    requires Valid(s.p) && Yields(s, FieldToks(f) + rest)
    requires rest != [] && rest[0] != S(Equals)
    ensures ParseField(s).Ok? && ParseField(s).value.0 == FieldMeaning(f)
    ensures Yields(ParseField(s).value.1, rest)
    decreases f, 1
  {
    if f.key.Some? {
      KeyedFieldToks(s, f, rest);
    } else {
      assert FieldToks(f) == ValueToks(f.value);
      ParseValueToks(s, f.value, rest);
      YieldsTail(ParseValue(s).value.1, rest);
      BareFieldStep(s);
    }
  }

  lemma {:induction false} KeyedFieldToks(s: PState, f: WField, rest: seq<Tok>)
    requires f.key.Some?
    requires Valid(s.p) && Yields(s, FieldToks(f) + rest)
    ensures ParseField(s).Ok? && ParseField(s).value.0 == FieldMeaning(f)
    ensures Yields(ParseField(s).value.1, rest)
    decreases f, 0
  {
    var after := [S(Equals)] + (ValueToks(f.value) + rest);
    KeyedSplit(f, rest);
    ParseValueToks(s, f.key.value, after);
    EqualsValueToks(ParseValue(s).value.1, f.value, rest);
    KeyedFieldStep(s);
  }

  /** `= value`, as after the key of a field. */
  lemma {:induction false} EqualsValueToks(s: PState, w: WValue, rest: seq<Tok>)
    requires Valid(s.p) && Yields(s, [S(Equals)] + (ValueToks(w) + rest))
    ensures IsSym(s, Equals) && Eat(s).Ok?
    ensures ParseValue(Eat(s).value).Ok? && ParseValue(Eat(s).value).value.0 == Meaning(w)
    ensures Yields(ParseValue(Eat(s).value).value.1, rest)
    decreases w, 1
  {
    YieldsSym(s, Equals, ValueToks(w) + rest);
    ParseValueToks(Eat(s).value, w, rest);
  }

  /** The first token of a field opens a block or carries a value. */
  lemma FirstToks(f: WField)
    ensures FieldToks(f) != []
    ensures FieldToks(f)[0] == S(LBrace) || FieldToks(f)[0].V?
  {
    var w := if f.key.Some? then f.key.value else f.value;
    assert ValueToks(w)[0] == S(LBrace) || ValueToks(w)[0].V?;
  }

  /** Fields and then `rest` start with a field's first token, or with the
      first token of `rest` when there are no fields. */
  lemma FieldsFirst(fs: seq<WField>, rest: seq<Tok>)
    requires rest != []
    ensures FieldsToks(fs) + rest != []
    ensures var t := (FieldsToks(fs) + rest)[0];
      t == S(LBrace) || t.V? || (fs == [] && t == rest[0])
  {
    if fs == [] {
      assert FieldsToks(fs) + rest == rest;
    } else {
      FirstToks(fs[0]);
      ConsSplit(fs, rest);
    }
  }

  lemma {:induction false} ParseBlockToks(s: PState, fs: seq<WField>, rest: seq<Tok>)
    requires Valid(s.p) && Yields(s, FieldsToks(fs) + rest)
    requires rest != [] && (rest[0] == S(RBrace) || rest[0] == E)
    ensures ParseBlock(s).Ok? && ParseBlock(s).value.0 == FieldsMeaning(fs)
    ensures Yields(ParseBlock(s).value.1, rest)
    decreases fs, 2
  {
    if fs == [] {
      assert FieldsToks(fs) + rest == rest;
      YieldsTail(s, rest);
    } else {
      ConsBlockToks(s, fs, rest);
    }
  }

  lemma {:induction false} ConsBlockToks(s: PState, fs: seq<WField>, rest: seq<Tok>)
    requires Valid(s.p) && Yields(s, FieldsToks(fs) + rest) && fs != []
    requires rest != [] && (rest[0] == S(RBrace) || rest[0] == E)
    ensures ParseBlock(s).Ok? && ParseBlock(s).value.0 == FieldsMeaning(fs)
    ensures Yields(ParseBlock(s).value.1, rest)
    decreases fs, 1
  {
    var f := fs[0];
    var after := SepToks(f.sep) + (FieldsToks(fs[1..]) + rest);
    ConsSplit(fs, rest);
    assert !AtBlockEnd(s) by {
      FirstToks(f);
      YieldsTail(s, FieldToks(f) + after);
    }
    AfterField(f.sep, fs[1..], rest);
    ParseFieldToks(s, f, after);
    var s1 := ParseField(s).value.1;
    if f.sep == NoSep {
      assert after == FieldsToks(fs[1..]) + rest;
      NoSepBlockToks(s1, fs[1..], rest);
    } else {
      var sym := if f.sep == CommaSep then Comma else Semi;
      assert after == [S(sym)] + (FieldsToks(fs[1..]) + rest);
      SymSepBlockToks(s1, sym, fs[1..], rest);
    }
    BlockConsStep(s);
  }

  /** What follows a field in a block never starts with `=`. */
  lemma AfterField(c: Sep, fs: seq<WField>, rest: seq<Tok>)
    requires rest != [] && (rest[0] == S(RBrace) || rest[0] == E)
    ensures var a := SepToks(c) + (FieldsToks(fs) + rest); a != [] && a[0] != S(Equals)
  {
    FieldsFirst(fs, rest);
    if c == NoSep {
      assert SepToks(c) + (FieldsToks(fs) + rest) == FieldsToks(fs) + rest;
    }
  }

  /** `,` or `;` and the remaining fields of a block. */
  lemma {:induction false} SymSepBlockToks(s: PState, sym: int, fs: seq<WField>, rest: seq<Tok>)
    requires sym == Comma || sym == Semi
    requires Valid(s.p) && Yields(s, [S(sym)] + (FieldsToks(fs) + rest))
    requires rest != [] && (rest[0] == S(RBrace) || rest[0] == E)
    ensures Eat(s).Ok? && SkipSeparator(s) == Eat(s)
    ensures var s2 := Eat(s).value;
      && ParseBlock(s2).Ok? && ParseBlock(s2).value.0 == FieldsMeaning(fs)
      && Yields(ParseBlock(s2).value.1, rest)
    decreases fs, 3
  {
    YieldsSym(s, sym, FieldsToks(fs) + rest);
    ParseBlockToks(Eat(s).value, fs, rest);
  }

  /** The remaining fields of a block with no separator before them. */
  lemma {:induction false} NoSepBlockToks(s: PState, fs: seq<WField>, rest: seq<Tok>)
    requires Valid(s.p) && Yields(s, FieldsToks(fs) + rest)
    requires rest != [] && (rest[0] == S(RBrace) || rest[0] == E)
    ensures SkipSeparator(s) == Ok(s)
    ensures ParseBlock(s).Ok? && ParseBlock(s).value.0 == FieldsMeaning(fs)
    ensures Yields(ParseBlock(s).value.1, rest)
    decreases fs, 3
  {
    FieldsFirst(fs, rest);
    YieldsTail(s, FieldsToks(fs) + rest);
    ParseBlockToks(s, fs, rest);
  }

  /** A whole file whose tokens are those of `fs` parses to the fields `fs`
      stands for. */
  lemma ParseFromToks(p: Reader, fs: seq<WField>)
    requires Valid(p) && NextToken(p).Ok?
    requires Yields(PState(NextToken(p).value.0, NextToken(p).value.1), FieldsToks(fs) + [E])
    ensures ParseFrom(p) == Ok(FieldsMeaning(fs))
  {
    var s := PState(NextToken(p).value.0, NextToken(p).value.1);
    ParseBlockToks(s, fs, [E]);
    YieldsTail(ParseBlock(s).value.1, [E]);
  }

  // ---------------------------------------------------------------- the text of a token

  /** An identifier as the lexer stores it: lower-case letters and digits,
      starting with a letter. */
  predicate CanonicalIdent(s: seq<int>) {
    && s != []
    && IsLower(s[0])
    && forall i :: 0 <= i < |s| ==> IsLower(s[i]) || IsDigit(s[i])
  }

  /** The bytes a string literal escapes with a backslash: the quote, the
      backslash itself, and 0xFF, which the reader would take for `EOF`. */
  predicate NeedsEscape(c: int) {
    c == '"' as int || c == '\\' as int || c == 0xFF
  }

  function Escape(s: seq<int>): (r: seq<int>)
    decreases s
  {
    if s == [] then []
    else (if NeedsEscape(s[0]) then ['\\' as int, s[0]] else [s[0]]) + Escape(s[1..])
  }

  /** The tokens the printer writes: decimal numbers in range, canonical
      identifiers, strings of bytes without `'\r'` (the reader would turn
      one into a line break even after a backslash) and the five symbols of
      block syntax. */
  predicate Lexable(t: Tok) {
    match t
    case V(Dec(n)) => InU64(n)
    case V(Ident(s)) => CanonicalIdent(s)
    case V(Str(s)) => Bytes(s) && CR !in s && 0 !in s
    case S(c) => c == LBrace || c == RBrace || c == Equals || c == Semi || c == Comma
    case _ => false
  }

  function Text(t: Tok): seq<int>
    requires Lexable(t)
  {
    match t
    case V(Dec(n)) => DecimalDigits(n)
    case V(Ident(s)) => s
    case V(Str(s)) => ['"' as int] + (Escape(s) + ['"' as int])
    case S(c) => [c]
  }

  /** The text of a token list, one space before each token. */
  function Render(toks: seq<Tok>): seq<int>
    requires forall t :: t in toks ==> Lexable(t)
    decreases toks
  {
    if toks == [] then [] else [' ' as int] + Text(toks[0]) + Render(toks[1..])
  }

  // ---------------------------------------------------------------- the lexer layer

  lemma {:induction false} SpanAll(s: seq<int>, tail: seq<int>, f: int -> bool)
    requires forall i :: 0 <= i < |s| ==> f(s[i])
    requires tail == [] || !f(tail[0])
    ensures Span(s + tail, f) == |s|
    decreases s
  {
    if s == [] {
      assert s + tail == tail;
    } else {
      assert (s + tail)[1..] == s[1..] + tail;
      SpanAll(s[1..], tail, f);
    }
  }

  lemma {:induction false} DigitSpanAll(d: seq<int>, tail: seq<int>)
    requires forall i :: 0 <= i < |d| ==> IsDigit(d[i])
    requires tail == [] || tail[0] == ' ' as int
    ensures DigitSpan(d + tail, DecNum) == |d|
    ensures Without(d, '_' as int) == d
    decreases d
  {
    if d == [] {
      assert d + tail == tail;
    } else {
      assert (d + tail)[1..] == d[1..] + tail;
      DigitSpanAll(d[1..], tail);
    }
  }

  lemma {:induction false} CanonFixed(s: seq<int>)
    requires forall i :: 0 <= i < |s| ==> IsLower(s[i]) || IsDigit(s[i])
    ensures Canon(s) == s
    decreases s
  {
    if s != [] {
      CanonFixed(s[1..]);
    }
  }

  /** The raw lookahead byte `'x'` is also the second character of the
      stream. */
  lemma XLookahead(p: Reader)
    requires Valid(p) && p.cur != EOF && p.next == 'x' as int
    ensures |Stream(p)| >= 2 && Stream(p)[1] == 'x' as int
  {
  }

  /** A stream that starts with `c`: the reader stands on `c`, and one step
      leaves the rest. */
  lemma StreamCons(p: Reader, c: int, t: seq<int>)
    requires Valid(p) && Stream(p) == [c] + t
    ensures p.cur == c && c != EOF
    ensures Stream(NextChar(p)) == t
  {
    StreamHead(p);
    NextCharStream(p);
    assert ([c] + t)[1..] == t;
  }

  /** A decimal numeral followed by a space or the end is read back as its
      number. */
  lemma LexDec(q: Reader, n: int, tail: seq<int>)
    requires Valid(q) && InU64(n)
    requires Stream(q) == DecimalDigits(n) + tail
    requires tail == [] || tail[0] == ' ' as int
    ensures ParseNumber(q).Ok? && Strip(ParseNumber(q).value.0) == V(Dec(n))
    ensures Stream(ParseNumber(q).value.1) == tail
  {
    var d := DecimalDigits(n);
    StreamHead(q);
    assert !IsSign(q.cur);
    assert Stream(q)[..0] == [];
    if q.next == 'x' as int {
      XLookahead(q);
      assert false;
    }
    DigitSpanAll(d, tail);
    assert Stream(q)[..|d|] == d;
    assert '.' as int !in d;
    DecimalRoundTrip(n);
  }

  /** A canonical identifier followed by a space or the end is read back. */
  lemma LexIdent(q: Reader, s: seq<int>, tail: seq<int>)
    requires Valid(q) && CanonicalIdent(s)
    requires Stream(q) == s + tail
    requires tail == [] || tail[0] == ' ' as int
    ensures ParseIdent(q).Ok? && Strip(ParseIdent(q).value.0) == V(Ident(s))
    ensures Stream(ParseIdent(q).value.1) == tail
  {
    SpanAll(s, tail, IsIdentChar);
    assert Stream(q)[..|s|] == s;
    CanonFixed(s);
  }

  lemma ScanQuoteStep(p: Reader, quote: int, start: Loc)
    requires Valid(p) && IsQuote(quote) && p.cur == quote
    ensures ScanString(p, quote, start) == Ok(([], NextChar(p)))
  {
  }

  lemma ScanPlainStep(p: Reader, quote: int, start: Loc)
    requires Valid(p) && IsQuote(quote) && IsByte(p.cur)
    requires p.cur != quote && p.cur != 0xFF && p.cur != '\\' as int
    requires ScanString(NextChar(p), quote, start).Ok?
    ensures var (s, q) := ScanString(NextChar(p), quote, start).value;
      ScanString(p, quote, start) == Ok(([p.cur] + s, q))
  {
  }

  lemma ScanEscStep(p: Reader, quote: int, start: Loc)
    requires Valid(p) && IsQuote(quote) && p.cur == '\\' as int
    requires NextChar(p).cur != EOF
    requires ScanString(NextChar(NextChar(p)), quote, start).Ok?
    ensures var (s, q) := ScanString(NextChar(NextChar(p)), quote, start).value;
      ScanString(p, quote, start) == Ok(([NextChar(p).cur] + s, q))
  {
  }

  /** A string whose first byte is written as it is. */
  lemma EscapeConsPlain(s: seq<int>, tail: seq<int>)
    requires s != [] && !NeedsEscape(s[0])
    ensures Escape(s) + tail == [s[0]] + (Escape(s[1..]) + tail)
  {
    Assoc([s[0]], Escape(s[1..]), tail);
  }

  /** A string whose first byte is written after a backslash. */
  lemma EscapeConsEsc(s: seq<int>, tail: seq<int>)
    requires s != [] && NeedsEscape(s[0])
    ensures Escape(s) + tail == ['\\' as int] + ([s[0]] + (Escape(s[1..]) + tail))
  {
    var e := Escape(s[1..]);
    assert Escape(s) == ['\\' as int] + [s[0]] + e;
    Assoc(['\\' as int] + [s[0]], e, tail);
    Assoc(['\\' as int], [s[0]], e + tail);
  }

  /** An escaped string followed by the closing quote is read back, and the
      reader stops after the quote. */
  lemma {:induction false} ScanEscaped(p: Reader, s: seq<int>, start: Loc, tail: seq<int>)
    requires Valid(p) && Bytes(s)
    requires Stream(p) == Escape(s) + (['"' as int] + tail)
    ensures ScanString(p, '"' as int, start).Ok?
    ensures ScanString(p, '"' as int, start).value.0 == s
    ensures Stream(ScanString(p, '"' as int, start).value.1) == tail
    decreases s
  {
    var quote := '"' as int;
    if s == [] {
      assert Escape(s) + ([quote] + tail) == [quote] + tail;
      StreamCons(p, quote, tail);
      ScanQuoteStep(p, quote, start);
    } else {
      var c := s[0];
      var after := Escape(s[1..]) + ([quote] + tail);
      assert Bytes(s[1..]) && IsByte(c);
      if NeedsEscape(c) {
        EscapeConsEsc(s, [quote] + tail);
        StreamCons(p, '\\' as int, [c] + after);
        var p1 := NextChar(p);
        StreamCons(p1, c, after);
        ScanEscaped(NextChar(p1), s[1..], start, tail);
        ScanEscStep(p, quote, start);
      } else {
        EscapeConsPlain(s, [quote] + tail);
        StreamCons(p, c, after);
        ScanEscaped(NextChar(p), s[1..], start, tail);
        ScanPlainStep(p, quote, start);
      }
    }
  }

  /** A quoted, escaped string is read back. */
  lemma LexStr(q: Reader, s: seq<int>, tail: seq<int>)
    requires Valid(q) && Bytes(s)
    requires Stream(q) == ['"' as int] + (Escape(s) + ['"' as int]) + tail
    ensures ParseString(q).Ok? && Strip(ParseString(q).value.0) == V(Str(s))
    ensures Stream(ParseString(q).value.1) == tail
  {
    var inner := Escape(s) + (['"' as int] + tail);
    Assoc(['"' as int], Escape(s) + ['"' as int], tail);
    Assoc(Escape(s), ['"' as int], tail);
    StreamCons(q, '"' as int, inner);
    ScanEscaped(NextChar(q), s, q.loc, tail);
  }

  /** The dispatch of `nextToken` on the first characters of printed
      tokens. */
  lemma DispatchCases(q: Reader)
    requires Valid(q) && !IsSpace(q.cur)
    ensures IsDigit(q.cur) ==> Dispatch(q) == ParseNumber(q)
    ensures q.cur == '"' as int ==> Dispatch(q) == ParseString(q)
    ensures IsLower(q.cur) ==> Dispatch(q) == ParseIdent(q)
    ensures q.cur in {LBrace, RBrace, Equals, Semi, Comma} ==> Dispatch(q) == Ok((SymTok(q.loc, q.cur), NextChar(q)))
  {
  }

  /** The text of a token is not empty and does not start with whitespace. */
  lemma TextStart(t: Tok)
    requires Lexable(t)
    ensures Text(t) != [] && !IsSpace(Text(t)[0])
  {
    if t.V? && t.v.Dec? {
      assert IsDigit(Text(t)[0]);
    }
  }

  /** One space before `x`, and `x` does not start with whitespace: the
      whitespace loop stops at `x`. */
  lemma SpaceThen(p: Reader, x: seq<int>)
    requires Valid(p) && Stream(p) == [' ' as int] + x
    requires x != [] && !IsSpace(x[0])
    ensures Stream(SkipSpace(p)) == x
  {
    SpanAll([' ' as int], x, IsSpace);
    assert Stream(p)[1..] == x;
  }

  /** The text of a token is read back as that token. */
  lemma LexOne(p: Reader, t: Tok, tail: seq<int>)
    requires Valid(p) && Lexable(t)
    requires Stream(p) == [' ' as int] + (Text(t) + tail)
    requires tail == [] || tail[0] == ' ' as int
    ensures NextToken(p).Ok? && Strip(NextToken(p).value.0) == t
    ensures Stream(NextToken(p).value.1) == tail
  {
    TextStart(t);
    SpaceThen(p, Text(t) + tail);
    var q := SkipSpace(p);
    StreamHead(q);
    assert NextToken(p) == Dispatch(q);
    DispatchCases(q);
    match t
    case V(Dec(n)) => LexDec(q, n, tail);
    case V(Ident(s)) => LexIdent(q, s, tail);
    case V(Str(s)) => LexStr(q, s, tail);
    case S(c) => StreamCons(q, c, tail);
  }

  lemma RenderCons(toks: seq<Tok>)
    requires toks != [] && forall t :: t in toks ==> Lexable(t)
    ensures Render(toks) == [' ' as int] + (Text(toks[0]) + Render(toks[1..]))
    ensures var r := Render(toks[1..]); r == [] || r[0] == ' ' as int
    ensures toks + [E] == [toks[0]] + (toks[1..] + [E])
  {
    var t := toks[1..];
    assert Render(toks) == [' ' as int] + Text(toks[0]) + Render(t);
    Assoc([' ' as int], Text(toks[0]), Render(t));
    if t != [] {
      assert Render(t) == [' ' as int] + Text(t[0]) + Render(t[1..]);
    }
    assert toks == [toks[0]] + t;
    Assoc([toks[0]], t, [E]);
  }

  /** A rendered token list is read back as those tokens, then the end of
      the file. */
  lemma {:induction false} LexAll(p: Reader, toks: seq<Tok>)
    requires Valid(p) && forall t :: t in toks ==> Lexable(t)
    requires Stream(p) == Render(toks)
    ensures NextToken(p).Ok?
    ensures Yields(PState(NextToken(p).value.0, NextToken(p).value.1), toks + [E])
    decreases toks
  {
    if toks == [] {
      assert Span(Stream(p), IsSpace) == |Stream(p)|;
      assert toks + [E] == [E];
    } else {
      RenderCons(toks);
      LexOne(p, toks[0], Render(toks[1..]));
      var q := NextToken(p).value.1;
      LexAll(q, toks[1..]);
      YieldsCons(PState(NextToken(p).value.0, q), toks[0], toks[1..] + [E]);
    }
  }

  // ---------------------------------------------------------------- printing a block

  /** The values the printer can write: decimal numbers, canonical
      identifiers and strings without `'\r'`, and blocks of them.
      Hexadecimal and floating-point values are not printed. */
  predicate Printable(w: WValue)
    decreases w, 0
  {
    match w
    case WAtom(Dec(n)) => InU64(n)
    case WAtom(Ident(s)) => CanonicalIdent(s)
    case WAtom(Str(s)) => Bytes(s) && CR !in s && 0 !in s
    case WBlock(fs) => PrintableFields(fs)
    case _ => false
  }

  predicate PrintableField(f: WField)
    decreases f, 1
  {
    (f.key.Some? ==> Printable(f.key.value)) && Printable(f.value)
  }

  predicate PrintableFields(fs: seq<WField>)
    decreases fs, 2
  {
    fs != [] ==> PrintableField(fs[0]) && PrintableFields(fs[1..])
  }

  lemma {:induction false} ValueToksLexable(w: WValue)
    requires Printable(w)
    ensures forall t :: t in ValueToks(w) ==> Lexable(t)
    decreases w, 0
  {
    if w.WBlock? {
      FieldsToksLexable(w.fields);
    }
  }

  lemma {:induction false} FieldToksLexable(f: WField)
    requires PrintableField(f)
    ensures forall t :: t in FieldToks(f) ==> Lexable(t)
    decreases f, 1
  {
    if f.key.Some? {
      ValueToksLexable(f.key.value);
    }
    ValueToksLexable(f.value);
  }

  lemma {:induction false} FieldsToksLexable(fs: seq<WField>)
    requires PrintableFields(fs)
    ensures forall t :: t in FieldsToks(fs) ==> Lexable(t)
    decreases fs, 2
  {
    if fs != [] {
      FieldToksLexable(fs[0]);
      FieldsToksLexable(fs[1..]);
    }
  }

  /** Bytes without `'\r'`: text the reader delivers unchanged. */
  predicate Clean(s: seq<int>) {
    Bytes(s) && CR !in s
  }

  lemma CleanCat(a: seq<int>, b: seq<int>)
    requires Clean(a) && Clean(b)
    ensures Clean(a + b)
  {
    assert forall i :: 0 <= i < |a + b| ==> (a + b)[i] == (if i < |a| then a[i] else b[i - |a|]);
  }

  lemma {:induction false} EscapeClean(s: seq<int>)
    requires Clean(s)
    ensures Clean(Escape(s))
    decreases s
  {
    if s != [] {
      EscapeClean(s[1..]);
      var x := if NeedsEscape(s[0]) then ['\\' as int, s[0]] else [s[0]];
      assert Clean(x);
      CleanCat(x, Escape(s[1..]));
    }
  }

  lemma TextClean(t: Tok)
    requires Lexable(t)
    ensures Clean(Text(t))
  {
    match t
    case V(Dec(n)) =>
      var d := DecimalDigits(n);
      assert forall i :: 0 <= i < |d| ==> IsDigit(d[i]);
    case V(Ident(s)) =>
    case V(Str(s)) =>
      EscapeClean(s);
      CleanCat(Escape(s), ['"' as int]);
      CleanCat(['"' as int], Escape(s) + ['"' as int]);
    case S(c) =>
  }

  /** Rendered text is bytes without `'\r'`. */
  lemma {:induction false} RenderClean(toks: seq<Tok>)
    requires forall t :: t in toks ==> Lexable(t)
    ensures Clean(Render(toks))
    decreases toks
  {
    if toks != [] {
      RenderCons(toks);
      RenderClean(toks[1..]);
      TextClean(toks[0]);
      CleanCat(Text(toks[0]), Render(toks[1..]));
      CleanCat([' ' as int], Text(toks[0]) + Render(toks[1..]));
    }
  }

  /** The text of a list of written fields. */
  function RenderFile(fs: seq<WField>): (r: seq<int>)
    requires PrintableFields(fs)
    ensures Bytes(r) && CR !in r
    ensures r == [] || r[0] == ' ' as int
  {
    FieldsToksLexable(fs);
    RenderClean(FieldsToks(fs));
    Render(FieldsToks(fs))
  }

  /** Printing a list of fields, with any choice of separators, and parsing
      the text gives back the fields the written form stands for. */
  lemma RoundTrip(fs: seq<WField>)
    requires PrintableFields(fs)
    ensures ParseFile(RenderFile(fs)) == Ok(FieldsMeaning(fs))
  {
    var file := RenderFile(fs);
    NormalizeWithoutCR(file);
    var p := Open(file);
    FieldsToksLexable(fs);
    LexAll(p, FieldsToks(fs));
    ParseFromToks(p, fs);
  }

  /** Rendered text starts with a space, so `ol_parseFile` as written reads
      it back the same way. */
  lemma RoundTripAsWritten(fs: seq<WField>)
    requires PrintableFields(fs)
    ensures ParseFileAsWritten(RenderFile(fs)) == Ok(FieldsMeaning(fs))
  {
    var file := RenderFile(fs);
    OpenAgree(file);
    RoundTrip(fs);
  }
}
