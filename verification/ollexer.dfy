/** The tokenizer of the configuration language (`ol.c`): identifiers,
    numbers, quoted strings and one-character symbols, read from the
    normalised character stream of `OlReader`. */
module OlLexer {
  import opened Results
  import opened Numeric
  import opened OlReader
  import opened OlValues

  /** A token with the location of its first character. */
  datatype Token = ValTok(loc: Loc, val: Value) | SymTok(loc: Loc, sym: int) | EofTok(loc: Loc)

  /** The syntax errors the C code reports (before calling `exit`). */
  datatype SyntaxErrorKind =
    | ExpectedIdentifier
    | IdentifierStartsWithDigit
    | ExpectedNumber
    | ExpectedString
    | MissingClosingQuote
    | ExpectedValue
    | ExpectedCloseBrace
    | UnexpectedToken

  datatype SyntaxError = SyntaxError(loc: Loc, kind: SyntaxErrorKind)

  // ---------------------------------------------------------------- character classes

  predicate IsDigit(c: int) { '0' as int <= c <= '9' as int }
  predicate IsUpper(c: int) { 'A' as int <= c <= 'Z' as int }
  predicate IsLower(c: int) { 'a' as int <= c <= 'z' as int }
  predicate IsLetter(c: int) { IsLower(c) || IsUpper(c) }
  predicate IsHexLetter(c: int) {
    ('a' as int <= c <= 'f' as int) || ('A' as int <= c <= 'F' as int)
  }
  predicate IsIdentChar(c: int) {
    IsLetter(c) || IsDigit(c) || c == '_' as int || c == '-' as int
  }
  predicate IsSpace(c: int) { c == ' ' as int || c == '\t' as int || c == NL }
  predicate IsSign(c: int) { c == '+' as int || c == '-' as int }
  predicate IsQuote(c: int) { c == '"' as int || c == '\'' as int }

  /** The length of the longest prefix of `s` whose characters satisfy `f`. */
  function Span(s: seq<int>, f: int -> bool): (n: nat)
    ensures n <= |s|
    ensures forall i :: 0 <= i < n ==> f(s[i])
    ensures n < |s| ==> !f(s[n])
  {
    if s != [] && f(s[0]) then 1 + Span(s[1..], f) else 0
  }

  /** `s` without the occurrences of `c`. */
  function Without(s: seq<int>, c: int): (r: seq<int>)
    ensures |r| <= |s|
    ensures forall i :: 0 <= i < |r| ==> r[i] != c
  {
    if s == [] then [] else (if s[0] == c then [] else [s[0]]) + Without(s[1..], c)
  }

  // ---------------------------------------------------------------- identifiers

  function Lower(c: int): int {
    if IsUpper(c) then c + ('a' as int - 'A' as int) else c
  }

  /** The spelling an identifier is stored under: ASCII letters lowercased,
      `'_'` and `'-'` dropped. */
  function Canon(s: seq<int>): (r: seq<int>)
    ensures |r| <= |s|
  {
    if s == [] then []
    else
      var c := s[0];
      (if c == '_' as int || c == '-' as int then [] else [Lower(c)]) + Canon(s[1..])
  }

  lemma IdentStep(c: int, t: seq<int>)
    requires IsIdentChar(c)
    ensures var k := Span(t, IsIdentChar);
      && Span([c] + t, IsIdentChar) == 1 + k
      && ([c] + t)[1 + k..] == t[k..]
      && Canon(([c] + t)[..1 + k]) == (if c == '_' as int || c == '-' as int then [] else [Lower(c)]) + Canon(t[..k])
  {
    var k := Span(t, IsIdentChar);
    assert ([c] + t)[1..] == t;
    assert ([c] + t)[..1 + k][1..] == t[..k];
  }

  /** The loop of `parseIdent`: consume identifier characters and collect
      their canonical spelling. */
  function ScanIdent(p: Reader): (r: (seq<int>, Reader))
    requires Valid(p)
    ensures Valid(r.1) && Size(r.1) <= Size(p)
    ensures IsIdentChar(p.cur) ==> Size(r.1) < Size(p)
    ensures var n := Span(Stream(p), IsIdentChar);
      Stream(r.1) == Stream(p)[n..] && r.0 == Canon(Stream(p)[..n])
    decreases Size(p)
  {
    StreamHead(p);
    if IsIdentChar(p.cur) then
      var c := p.cur;
      var q := NextChar(p);
      NextCharStream(p);
      var (s, q') := ScanIdent(q);
      IdentStep(c, Stream(q));
      (if c == '_' as int || c == '-' as int then s else [Lower(c)] + s, q')
    else
      ([], p)
  }

  /** The identifier the stream of `p` starts with. */
  function IdentAt(p: Reader): seq<int> {
    Canon(Stream(p)[..Span(Stream(p), IsIdentChar)])
  }

  /** `parseIdent`: an identifier must keep at least one character after
      canonicalisation, and must not start with a digit. */
  function ParseIdent(p: Reader): (r: Result<(Token, Reader), SyntaxError>)
    requires Valid(p)
    ensures r.Ok? ==> Valid(r.value.1) && Size(r.value.1) < Size(p)
    ensures r.Ok? ==> Stream(r.value.1) == Stream(p)[Span(Stream(p), IsIdentChar)..]
    ensures var name := IdentAt(p);
      && (name == [] <==> r == Err(SyntaxError(p.loc, ExpectedIdentifier)))
      && (name != [] && IsDigit(name[0]) <==> r == Err(SyntaxError(p.loc, IdentifierStartsWithDigit)))
      && (r.Ok? <==> name != [] && !IsDigit(name[0]))
      && (r.Ok? ==> r.value.0 == ValTok(p.loc, Ident(name)))
  {
    var (name, q) := ScanIdent(p);
    StreamHead(p);
    if name == [] then Err(SyntaxError(p.loc, ExpectedIdentifier))
    else if IsDigit(name[0]) then Err(SyntaxError(p.loc, IdentifierStartsWithDigit))
    else Ok((ValTok(p.loc, Ident(name)), q))
  }

  // ---------------------------------------------------------------- numbers

  /** The value of a digit character: `a`-`f` and `A`-`F` are 10 to 15, any
      other character counts as `c - '0'`. */
  function DigitValue(c: int): int {
    if 'a' as int <= c <= 'f' as int then c - 'a' as int + 10
    else if 'A' as int <= c <= 'F' as int then c - 'A' as int + 10
    else c - '0' as int
  }

  /** The loop of `parseInt` from an accumulated `result`: multiply by the
      base, add the digit, both in `uint64_t`. */
  function ParseIntFrom(result: int, s: seq<int>, base: int): (r: int)
    requires InU64(result)
    ensures InU64(r)
    decreases s
  {
    if s == [] then result
    else ParseIntFrom(U64(U64(result * base) + DigitValue(s[0])), s[1..], base)
  }

  /** `parseInt`. */
  function ParseInt(s: seq<int>, base: int): (r: int)
    ensures InU64(r)
  {
    ParseIntFrom(0, s, base)
  }

  /** Read from the last digit back, each digit scales the value of the
      earlier ones by the base and adds itself, in `uint64_t`. */
  lemma ParseIntLast(s: seq<int>, base: int)
    ensures s == [] ==> ParseInt(s, base) == 0
    ensures s != [] ==>
      ParseInt(s, base) == U64(U64(ParseInt(s[..|s| - 1], base) * base) + DigitValue(s[|s| - 1]))
  {
    if s != [] {
      ParseIntSnoc(0, s[..|s| - 1], s[|s| - 1], base);
      assert s[..|s| - 1] + [s[|s| - 1]] == s;
    }
  }

  /** One more digit at the end of the loop's input is one more round. */
  lemma {:induction false} ParseIntSnoc(acc: int, s: seq<int>, c: int, base: int)
    requires InU64(acc)
    ensures ParseIntFrom(acc, s + [c], base) == U64(U64(ParseIntFrom(acc, s, base) * base) + DigitValue(c))
    decreases s
  {
    if s != [] {
      assert (s + [c])[0] == s[0] && (s + [c])[1..] == s[1..] + [c];
      ParseIntSnoc(U64(U64(acc * base) + DigitValue(s[0])), s[1..], c, base);
    } else {
      assert [c][1..] == [];
    }
  }

  /** The three kinds of number literal. */
  datatype NumKind = DecNum | HexNum | FpNum

  /** The characters the digit loop of `parseNumber` accepts: digits and
      `'_'` always, hex letters in a hex literal, `'.'` in a decimal one. */
  predicate Accepts(kind: NumKind, c: int) {
    || IsDigit(c)
    || (kind == HexNum && IsHexLetter(c))
    || (kind == DecNum && c == '.' as int)
    || c == '_' as int
  }

  /** The kind after reading `c`: the first `'.'` makes a decimal literal
      floating point. */
  function KindAfterChar(kind: NumKind, c: int): NumKind {
    if c == '.' as int then FpNum else kind
  }

  /** The length of the literal the digit loop reads from `s`. */
  function DigitSpan(s: seq<int>, kind: NumKind): (n: nat)
    ensures n <= |s|
    decreases s
  {
    if s != [] && Accepts(kind, s[0]) then 1 + DigitSpan(s[1..], KindAfterChar(kind, s[0])) else 0
  }

  /** The kind a literal ends with: a decimal literal containing `'.'` is
      floating point. */
  function KindAfter(kind: NumKind, s: seq<int>): NumKind {
    if kind == DecNum && '.' as int in s then FpNum else kind
  }

  lemma {:induction false} DigitStep(c: int, t: seq<int>, kind: NumKind)
    requires Accepts(kind, c)
    ensures var k := DigitSpan(t, KindAfterChar(kind, c));
      && DigitSpan([c] + t, kind) == 1 + k
      && ([c] + t)[1 + k..] == t[k..]
      && Without(([c] + t)[..1 + k], '_' as int) == (if c == '_' as int then [] else [c]) + Without(t[..k], '_' as int)
      && KindAfter(kind, ([c] + t)[..1 + k]) == KindAfter(KindAfterChar(kind, c), t[..k])
  {
    var k := DigitSpan(t, KindAfterChar(kind, c));
    var u := [c] + t;
    assert u[0] == c && u[1..] == t;
    assert DigitSpan(u, kind) == 1 + k;
    var w := u[..1 + k];
    assert w == [c] + t[..k];
    assert w[0] == c && w[1..] == t[..k];
    assert Without(w, '_' as int) == (if c == '_' as int then [] else [c]) + Without(t[..k], '_' as int);
    assert ('.' as int in w) <==> (c == '.' as int || '.' as int in t[..k]);
  }

  /** The digit loop of `parseNumber`: collect the accepted characters
      except `'_'`, switching to floating point at a `'.'`. */
  function ScanDigits(p: Reader, kind: NumKind): (r: (seq<int>, NumKind, Reader))
    requires Valid(p)
    ensures Valid(r.2) && Size(r.2) <= Size(p)
    ensures var n := DigitSpan(Stream(p), kind);
      && Stream(r.2) == Stream(p)[n..]
      && r.0 == Without(Stream(p)[..n], '_' as int)
      && r.1 == KindAfter(kind, Stream(p)[..n])
    decreases Size(p)
  {
    StreamHead(p);
    if Accepts(kind, p.cur) then
      var c := p.cur;
      var q := NextChar(p);
      NextCharStream(p);
      var (ds, k, q') := ScanDigits(q, KindAfterChar(kind, c));
      DigitStep(c, Stream(q), kind);
      (if c == '_' as int then ds else [c] + ds, k, q')
    else
      ([], kind, p)
  }

  lemma {:induction false} SignStep(c: int, t: seq<int>)
    requires IsSign(c)
    ensures var k := Span(t, IsSign);
      && Span([c] + t, IsSign) == 1 + k
      && ([c] + t)[1 + k..] == t[k..]
      && SignOf(Count(([c] + t)[..1 + k], '-' as int))
         == (if c == '-' as int then -1 else 1) * SignOf(Count(t[..k], '-' as int))
  {
    var k := Span(t, IsSign);
    var u := [c] + t;
    assert u[0] == c && u[1..] == t;
    assert Span(u, IsSign) == 1 + k;
    var w := u[..1 + k];
    assert w[0] == c && w[1..] == t[..k];
    assert Count(w, '-' as int) == (if c == '-' as int then 1 else 0) + Count(t[..k], '-' as int);
    SignFlip(Count(t[..k], '-' as int));
  }

  /** The sign after `minuses` occurrences of `'-'`. */
  function SignOf(minuses: nat): int {
    if minuses % 2 == 1 then -1 else 1
  }

  lemma SignFlip(k: nat)
    ensures SignOf(k + 1) == -SignOf(k)
  {
  }

  /** The sign loop of `parseNumber`: each `'-'` flips the sign, so the sign
      is negative exactly when the leading run of signs holds an odd number
      of `'-'`. */
  function ScanSign(p: Reader): (r: (int, Reader))
    requires Valid(p)
    ensures Valid(r.1) && Size(r.1) <= Size(p)
    ensures var n := Span(Stream(p), IsSign);
      && Stream(r.1) == Stream(p)[n..]
      && r.0 == SignOf(Count(Stream(p)[..n], '-' as int))
    decreases Size(p)
  {
    StreamHead(p);
    if IsSign(p.cur) then
      var c := p.cur;
      var q := NextChar(p);
      NextCharStream(p);
      var (sign, q') := ScanSign(q);
      SignStep(c, Stream(q));
      (if c == '-' as int then -sign else sign, q')
    else
      (1, p)
  }

  /** The value a number literal stores: the sign times the parsed digits,
      in `uint64_t` for the integer kinds. */
  function NumberValue(kind: NumKind, sign: int, digits: seq<int>): Value {
    match kind
    case DecNum => Dec(U64(sign * ParseInt(digits, 10)))
    case HexNum => Hex(U64(sign * ParseInt(digits, 16)))
    case FpNum => Fp(sign, digits)
  }

  /** Whether the reader stands on a `0x` prefix; the C code tests the raw
      lookahead byte. */
  predicate HexPrefix(p: Reader) {
    p.cur == '0' as int && p.next == 'x' as int
  }

  /** Whether a text starts with the prefix `0x`. */
  predicate HexStart(t: seq<int>) {
    |t| >= 2 && t[0] == '0' as int && t[1] == 'x' as int
  }

  /** The reference reading of a number literal at the start of `s`: a run
      of signs, an optional `0x`, then the longest run the digit loop
      accepts.  There is none when the collected digits are empty or do not
      start with a decimal digit.  Gives the value and the number of
      characters read. */
  function NumberLiteral(s: seq<int>): (r: Option<(Value, nat)>)
    ensures r.Some? ==> r.value.1 <= |s|
  {
    var n := Span(s, IsSign);
    var hex := HexStart(s[n..]);
    var m := if hex then n + 2 else n;
    var kind := if hex then HexNum else DecNum;
    var k := DigitSpan(s[m..], kind);
    var digits := Without(s[m..][..k], '_' as int);
    if digits == [] || !IsDigit(digits[0]) then None
    else Some((NumberValue(KindAfter(kind, s[m..][..k]), SignOf(Count(s[..n], '-' as int)), digits), m + k))
  }

  /** The C code tests the raw lookahead byte for the `x` of `0x`; since
      only line breaks are folded, that is the second character of the
      stream. */
  lemma HexPrefixStream(q: Reader)
    requires Valid(q)
    ensures HexPrefix(q) <==> HexStart(Stream(q))
  {
    StreamHead(q);
    if q.cur != EOF && q.next != EOF {
      var raw := Raw(q);
      assert raw[0] == q.next;
      if |raw| >= 2 && ((raw[0] == CR && raw[1] == NL) || (raw[0] == NL && raw[1] == CR)) {
        assert Normalize(raw)[0] == NL;
      } else if raw[0] == CR {
        assert Normalize(raw)[0] == NL;
      } else {
        assert Normalize(raw)[0] == q.next;
      }
    }
  }

  /** The optional `0x` of `parseNumber`: when the current character and
      the raw lookahead byte spell it, both are skipped. */
  function SkipHexPrefix(q: Reader): (r: (bool, Reader))
    requires Valid(q)
    ensures r.0 == HexPrefix(q) && r.0 == HexStart(Stream(q))
    ensures Valid(r.1) && Size(r.1) <= Size(q)
    ensures Stream(r.1) == if r.0 then Stream(q)[2..] else Stream(q)
  {
    HexPrefixStream(q);
    if HexPrefix(q) then
      NextCharStream(q);
      NextCharStream(NextChar(q));
      assert Stream(q)[1..][1..] == Stream(q)[2..];
      (true, NextChar(NextChar(q)))
    else
      (false, q)
  }

  /** `parseNumber`: signs, an optional `0x` prefix, then the digit loop.
      The collected digits must be non-empty and start with a digit. */
  function ParseNumber(p: Reader): (r: Result<(Token, Reader), SyntaxError>)
    requires Valid(p)
    ensures r.Ok? ==> Valid(r.value.1) && Size(r.value.1) < Size(p)
    ensures r.Err? ==> r.error == SyntaxError(p.loc, ExpectedNumber)
    ensures r.Ok? ==> r.value.0.ValTok? && r.value.0.loc == p.loc
    ensures r.Ok? ==> KindOf(r.value.0.val) in {DecKind, HexKind, FpKind}
    ensures r.Ok? && HexPrefix(ScanSign(p).1) ==> r.value.0.val.Hex?
  {
    var (sign, q1) := ScanSign(p);
    var (hex, q2) := SkipHexPrefix(q1);
    var (digits, kind, q3) := ScanDigits(q2, if hex then HexNum else DecNum);
    if digits == [] || !IsDigit(digits[0]) then Err(SyntaxError(p.loc, ExpectedNumber))
    else
      assert Size(q3) < Size(p) by {
        ScanDigitsProgress(q2, if hex then HexNum else DecNum);
      }
      Ok((ValTok(p.loc, NumberValue(kind, sign, digits)), q3))
  }

  /** The reference literal agrees with a result built from its parts. */
  lemma NumberLiteralParts(s: seq<int>, n: nat, hex: bool, m: nat, kind: NumKind, k: nat, sign: int,
                           d: (seq<int>, NumKind, Reader), loc: Loc, r: Result<(Token, Reader), SyntaxError>)
    requires n == Span(s, IsSign) && hex == HexStart(s[n..])
    requires m == (if hex then n + 2 else n) && kind == (if hex then HexNum else DecNum)
    requires m <= |s| && k == DigitSpan(s[m..], kind)
    requires d.0 == Without(s[m..][..k], '_' as int) && d.1 == KindAfter(kind, s[m..][..k])
    requires Stream(d.2) == s[m + k..]
    requires sign == SignOf(Count(s[..n], '-' as int))
    requires r == if d.0 == [] || !IsDigit(d.0[0]) then Err(SyntaxError(loc, ExpectedNumber))
                  else Ok((ValTok(loc, NumberValue(d.1, sign, d.0)), d.2))
    ensures var l := NumberLiteral(s);
      && (r.Ok? <==> l.Some?)
      && (r.Ok? ==> r.value.0.val == l.value.0 && Stream(r.value.1) == s[l.value.1..])
  {
  }

  /** The digit loop started where the reference literal's digits start
      reads the reference literal's digits. */
  lemma DigitLoopRead(s: seq<int>, n: nat, hex: bool, m: nat, kind: NumKind, sign: int,
                      q2: Reader, d: (seq<int>, NumKind, Reader), loc: Loc, r: Result<(Token, Reader), SyntaxError>)
    requires n == Span(s, IsSign) && hex == HexStart(s[n..])
    requires m == (if hex then n + 2 else n) && kind == (if hex then HexNum else DecNum)
    requires m <= |s| && Valid(q2) && Stream(q2) == s[m..] && d == ScanDigits(q2, kind)
    requires sign == SignOf(Count(s[..n], '-' as int))
    requires r == if d.0 == [] || !IsDigit(d.0[0]) then Err(SyntaxError(loc, ExpectedNumber))
                  else Ok((ValTok(loc, NumberValue(d.1, sign, d.0)), d.2))
    ensures var l := NumberLiteral(s);
      && (r.Ok? <==> l.Some?)
      && (r.Ok? ==> r.value.0.val == l.value.0 && Stream(r.value.1) == s[l.value.1..])
  {
    var k := DigitSpan(s[m..], kind);
    assert s[m..][k..] == s[m + k..];
    NumberLiteralParts(s, n, hex, m, kind, k, sign, d, loc, r);
  }

  /** `parseNumber` reads exactly the reference literal: it fails exactly
      when the collected digits are empty or do not start with a decimal
      digit, and otherwise stores the sign times the digits' value (modulo
      2^64 for the integer kinds) and resumes after the literal. */
  lemma ParseNumberReads(p: Reader)
    requires Valid(p)
    ensures var r, l := ParseNumber(p), NumberLiteral(Stream(p));
      && (r.Ok? <==> l.Some?)
      && (r.Ok? ==> r.value.0.val == l.value.0 && Stream(r.value.1) == Stream(p)[l.value.1..])
  {
    var s := Stream(p);
    var n := Span(s, IsSign);
    var (sign, q1) := ScanSign(p);
    var (hex, q2) := SkipHexPrefix(q1);
    var m := if hex then n + 2 else n;
    assert m <= |s| && Stream(q2) == s[m..] by {
      if hex {
        assert s[n..][2..] == s[n + 2..];
      }
    }
    var kind := if hex then HexNum else DecNum;
    DigitLoopRead(s, n, hex, m, kind, sign, q2, ScanDigits(q2, kind), p.loc, ParseNumber(p));
  }

  /** The digit loop only returns characters it has consumed. */
  lemma ScanDigitsProgress(p: Reader, kind: NumKind)
    requires Valid(p)
    ensures ScanDigits(p, kind).0 != [] ==> Size(ScanDigits(p, kind).2) < Size(p)
  {
  }

  // ---------------------------------------------------------------- strings

  /** The reference reading of a string body: `s` is what follows the
      opening quote.  A backslash is dropped and the character after it kept
      as it is; the body ends at the first unescaped `quote`, and there is
      none if the text runs out first or meets the byte 0xFF (which a signed
      `char` cannot tell from `EOF`).  Gives the text and the number of
      characters read, closing quote included. */
  function Literal(s: seq<int>, quote: int): (r: Option<(seq<int>, nat)>)
    ensures r.Some? ==> 0 < r.value.1 <= |s|
    decreases |s|
  {
    if s == [] then None
    else if s[0] == quote then Some(([], 1))
    else if s[0] == 0xFF then None
    else if s[0] == '\\' as int then
      if |s| < 2 then None
      else match Literal(s[2..], quote)
        case None => None
        case Some((t, n)) => Some(([s[1]] + t, n + 2))
    else match Literal(s[1..], quote)
      case None => None
      case Some((t, n)) => Some(([s[0]] + t, n + 1))
  }

  /** The loop of `parseString`, at character `c` = the current character.
      The C code holds `c` in a `char`, so on a platform where `char` is
      signed the byte 0xFF compares equal to `EOF` and also ends the file.
      After a backslash the next character is taken as it is. */
  function ScanString(p: Reader, quote: int, start: Loc): (r: Result<(seq<int>, Reader), SyntaxError>)
    requires Valid(p) && IsQuote(quote)
    ensures r.Ok? ==> Valid(r.value.1) && Size(r.value.1) < Size(p)
    ensures r.Err? ==> r.error == SyntaxError(start, MissingClosingQuote)
    ensures var l := Literal(Stream(p), quote);
      && (r.Ok? <==> l.Some?)
      && (r.Ok? ==> r.value.0 == l.value.0 && Stream(r.value.1) == Stream(p)[l.value.1..])
    decreases Size(p)
  {
    var c := p.cur;
    StreamHead(p);
    if c == quote then
      NextCharStream(p);
      Ok(([], NextChar(p)))
    else if c == EOF || c == 0xFF then Err(SyntaxError(start, MissingClosingQuote))
    else
      NextCharStream(p);
      var p1 := if c == '\\' as int then NextChar(p) else p;
      StreamHead(p1);
      if p1.cur == EOF then
        // The escaped "character" is EOF: the C code appends it and meets
        // EOF again on the next round.
        Err(SyntaxError(start, MissingClosingQuote))
      else
        NextCharStream(p1);
        ScanStep(Stream(p), if c == '\\' as int then 2 else 1);
        match ScanString(NextChar(p1), quote, start)
        case Err(e) => Err(e)
        case Ok((s, q)) => Ok(([p1.cur] + s, q))
  }

  /** Dropping `k` characters and then `n` more drops `k + n`. */
  lemma ScanStep(s: seq<int>, k: nat)
    requires k <= |s|
    ensures forall n :: 0 <= n <= |s| - k ==> s[k..][n..] == s[k + n..]
  {
  }

  /** `parseString`: the current character must be a quote; the string runs
      to the next unescaped occurrence of the same quote. */
  function ParseString(p: Reader): (r: Result<(Token, Reader), SyntaxError>)
    requires Valid(p)
    ensures r.Ok? ==> Valid(r.value.1) && Size(r.value.1) < Size(p)
    ensures !IsQuote(p.cur) ==> r == Err(SyntaxError(p.loc, ExpectedString))
    ensures IsQuote(p.cur) && r.Err? ==> r.error == SyntaxError(p.loc, MissingClosingQuote)
    ensures r.Ok? ==> r.value.0.ValTok? && r.value.0.loc == p.loc && r.value.0.val.Str?
    ensures IsQuote(p.cur) ==> var l := Literal(Stream(p)[1..], p.cur);
      && (r.Ok? <==> l.Some?)
      && (r.Ok? ==> r.value.0.val.str == l.value.0 && Stream(r.value.1) == Stream(p)[1 + l.value.1..])
  {
    var quote := p.cur;
    StreamHead(p);
    if !IsQuote(quote) then Err(SyntaxError(p.loc, ExpectedString))
    else
      NextCharStream(p);
      ScanStep(Stream(p), 1);
      match ScanString(NextChar(p), quote, p.loc)
      case Err(e) => Err(e)
      case Ok((s, q)) => Ok((ValTok(p.loc, Str(s)), q))
  }

  // ---------------------------------------------------------------- tokens

  /** The whitespace loop of `nextToken`. */
  function SkipSpace(p: Reader): (r: Reader)
    requires Valid(p)
    ensures Valid(r) && Size(r) <= Size(p)
    ensures Stream(r) == Stream(p)[Span(Stream(p), IsSpace)..]
    decreases Size(p)
  {
    StreamHead(p);
    if IsSpace(p.cur) then
      NextCharStream(p);
      var q := NextChar(p);
      assert Stream(p) == [p.cur] + Stream(q);
      SpaceStep(p.cur, Stream(q));
      SkipSpace(q)
    else
      p
  }

  lemma SpaceStep(c: int, t: seq<int>)
    requires IsSpace(c)
    ensures Span([c] + t, IsSpace) == 1 + Span(t, IsSpace)
    ensures ([c] + t)[1 + Span(t, IsSpace)..] == t[Span(t, IsSpace)..]
  {
    assert ([c] + t)[1..] == t;
  }

  /** The dispatch of `nextToken` on the first character after whitespace:
      a number, a string, an identifier, the end of the file, or a
      one-character symbol. */
  function Dispatch(q: Reader): (r: Result<(Token, Reader), SyntaxError>)
    requires Valid(q) && !IsSpace(q.cur)
    ensures r.Ok? ==> Valid(r.value.1) && Size(r.value.1) <= Size(q)
    ensures r.Ok? && !r.value.0.EofTok? ==> Size(r.value.1) < Size(q)
    ensures r.Ok? && r.value.0.EofTok? ==> Stream(r.value.1) == []
    ensures (q.cur == EOF) <==> (r.Ok? && r.value.0.EofTok?)
    ensures r.Ok? && r.value.0.ValTok? ==> !r.value.0.val.Block?
  {
    var c := q.cur;
    StreamHead(q);
    if c == EOF then
      Ok((EofTok(q.loc), q))
    else if IsDigit(c) || c == '.' as int || IsSign(c) then ParseNumber(q)
    else if IsQuote(c) then ParseString(q)
    else if IsLetter(c) || c == '_' as int then ParseIdent(q)
    else Ok((SymTok(q.loc, c), NextChar(q)))
  }

  /** `nextToken`: skip whitespace, then dispatch on the first character.
      The end of the file is reached exactly when only whitespace is left. */
  function NextToken(p: Reader): (r: Result<(Token, Reader), SyntaxError>)
    requires Valid(p)
    ensures r.Ok? ==> Valid(r.value.1) && Size(r.value.1) <= Size(p)
    ensures r.Ok? && !r.value.0.EofTok? ==> Size(r.value.1) < Size(p)
    ensures r.Ok? && r.value.0.EofTok? ==> Stream(r.value.1) == []
    ensures (Span(Stream(p), IsSpace) == |Stream(p)|) <==> (r.Ok? && r.value.0.EofTok?)
    ensures r.Ok? && r.value.0.ValTok? ==> !r.value.0.val.Block?
  {
    var q := SkipSpace(p);
    StreamHead(q);
    Dispatch(q)
  }
}
