/** The character reader of the configuration language (`ol.c`): one
    character of lookahead over a byte file, with every line break
    (`"\r\n"`, `"\n\r"` or a lone `'\r'`) read as a single `'\n'`, and the
    line and column of the current character.

    The file is a sequence of bytes; `fgetc` returns the next byte or `EOF`
    (-1) once the file is exhausted, and keeps returning `EOF` after that. */
module OlReader {

  const EOF: int := -1
  const NL: int := 10
  const CR: int := 13

  predicate IsByte(c: int) { 0 <= c < 256 }

  predicate Bytes(s: seq<int>) {
    forall i :: 0 <= i < |s| ==> IsByte(s[i])
  }

  /** A line and a column, both counted from 1. */
  datatype Loc = Loc(line: int, col: int)

  /** The reader of `ParseCxt`: the location of the current character, the
      current character, one raw byte of lookahead, and the unread file. */
  datatype Reader = Reader(loc: Loc, cur: int, next: int, rest: seq<int>)

  /** `fgetc` on the unread part of the file. */
  function Fgetc(rest: seq<int>): (int, seq<int>) {
    if rest == [] then (EOF, []) else (rest[0], rest[1..])
  }

  /** What a reader can hold: bytes or `EOF`, and once `EOF` has been read
      there is nothing after it. */
  predicate Valid(p: Reader) {
    && Bytes(p.rest)
    && (IsByte(p.cur) || p.cur == EOF)
    && (IsByte(p.next) || p.next == EOF)
    && (p.next == EOF ==> p.rest == [])
    && (p.cur == EOF ==> p.next == EOF)
  }

  /** The raw bytes not yet turned into the current character. */
  function Raw(p: Reader): seq<int> {
    if p.next == EOF then [] else [p.next] + p.rest
  }

  /** A measure that every step of the reader short of `EOF` decreases. */
  function Size(p: Reader): nat {
    |p.rest| + (if p.next == EOF then 0 else 1) + (if p.cur == EOF then 0 else 1)
  }

  /** The reference reading of a byte string: each of `"\r\n"`, `"\n\r"` and
      a lone `'\r'` becomes one `'\n'`, scanning from the left. */
  function Normalize(s: seq<int>): (r: seq<int>)
    ensures |r| <= |s|
  {
    if s == [] then []
    else if |s| >= 2 && ((s[0] == CR && s[1] == NL) || (s[0] == NL && s[1] == CR)) then
      [NL] + Normalize(s[2..])
    else if s[0] == CR then [NL] + Normalize(s[1..])
    else [s[0]] + Normalize(s[1..])
  }

  /** The characters the reader will still deliver, the current one first. */
  function Stream(p: Reader): seq<int> {
    if p.cur == EOF then [] else [p.cur] + Normalize(Raw(p))
  }

  /** The location of the character after `c`. */
  function StepLoc(loc: Loc, c: int): Loc {
    if c == NL then Loc(loc.line + 1, 1) else Loc(loc.line, loc.col + 1)
  }

  /** `nextChar`: advance the location past the current character, take the
      lookahead byte as the new current character, and fold a line break
      into one `'\n'`. */
  function NextChar(p: Reader): (r: Reader)
    ensures p.cur == NL ==> r.loc == Loc(p.loc.line + 1, 1)
    ensures p.cur != NL ==> r.loc == Loc(p.loc.line, p.loc.col + 1)
    ensures r.cur != CR
    ensures Valid(p) ==> Valid(r)
    ensures Valid(p) && p.cur != EOF ==> Size(r) < Size(p)
    ensures Valid(p) && p.cur == EOF ==> r.cur == EOF && Size(r) == 0
  {
    var loc := StepLoc(p.loc, p.cur);
    var c := p.next;
    var (n1, rest1) := Fgetc(p.rest);
    if (c == CR && n1 == NL) || (c == NL && n1 == CR) then
      var (n2, rest2) := Fgetc(rest1);
      Reader(loc, NL, n2, rest2)
    else if c == CR then Reader(loc, NL, n1, rest1)
    else Reader(loc, c, n1, rest1)
  }

  /** The reader delivers exactly the normalised file: a step drops the
      current character from the stream and changes nothing else in it. */
  lemma NextCharStream(p: Reader)
    requires Valid(p) && p.cur != EOF
    ensures Stream(NextChar(p)) == Stream(p)[1..]
  {
    var r := NextChar(p);
    if p.next != EOF {
      var s := Raw(p);
      assert s[1..] == p.rest;
      if |s| >= 2 {
        assert s[2..] == p.rest[1..];
        if !((s[0] == CR && s[1] == NL) || (s[0] == NL && s[1] == CR)) {
          assert Raw(r) == p.rest;
        } else {
          assert Raw(r) == p.rest[1..];
        }
      }
    }
  }

  /** The location reached from `loc` by reading the characters `s`. */
  function Walk(loc: Loc, s: seq<int>): Loc
    decreases s
  {
    if s == [] then loc else Walk(StepLoc(loc, s[0]), s[1..])
  }

  function Count(s: seq<int>, c: int): nat {
    if s == [] then 0 else (if s[0] == c then 1 else 0) + Count(s[1..], c)
  }

  lemma {:induction false} WalkAppend(loc: Loc, a: seq<int>, b: seq<int>)
    ensures Walk(loc, a + b) == Walk(Walk(loc, a), b)
    decreases a
  {
    if a == [] {
      assert a + b == b;
    } else {
      assert (a + b)[1..] == a[1..] + b;
      WalkAppend(StepLoc(loc, a[0]), a[1..], b);
    }
  }

  /** Line tracking: the line number grows by one for each `'\n'` read. */
  lemma {:induction false} WalkLines(loc: Loc, s: seq<int>)
    ensures Walk(loc, s).line == loc.line + Count(s, NL)
    decreases s
  {
    if s != [] {
      WalkLines(StepLoc(loc, s[0]), s[1..]);
    }
  }

  /** Column tracking: after a line with no `'\n'` the column has grown by
      its length. */
  lemma {:induction false} WalkColumns(loc: Loc, s: seq<int>)
    requires Count(s, NL) == 0
    ensures Walk(loc, s) == Loc(loc.line, loc.col + |s|)
    decreases s
  {
    if s != [] {
      WalkColumns(StepLoc(loc, s[0]), s[1..]);
    }
  }

  /** The first character of the stream is the current one. */
  lemma StreamHead(p: Reader)
    ensures p.cur == EOF ==> Stream(p) == []
    ensures p.cur != EOF ==> |Stream(p)| > 0 && Stream(p)[0] == p.cur
  {
  }

  /** One step of `Advance`: the rest of the stream and the rest of the
      walk both continue from the reader after one `nextChar`. */
  lemma AdvanceStep(p: Reader, n: nat)
    requires Valid(p) && 0 < n <= |Stream(p)|
    ensures p.cur != EOF && Valid(NextChar(p)) && Size(NextChar(p)) < Size(p)
    ensures n - 1 <= |Stream(NextChar(p))|
    ensures Stream(NextChar(p))[n - 1..] == Stream(p)[n..]
    ensures Walk(NextChar(p).loc, Stream(NextChar(p))[..n - 1]) == Walk(p.loc, Stream(p)[..n])
  {
    StreamHead(p);
    NextCharStream(p);
    var s, q := Stream(p), NextChar(p);
    assert q.loc == StepLoc(p.loc, p.cur);
    var w := s[..n];
    assert w[0] == p.cur && w[1..] == Stream(q)[..n - 1];
  }

  /** `n` steps of the reader. */
  function Advance(p: Reader, n: nat): (r: Reader)
    requires Valid(p) && n <= |Stream(p)|
    ensures Valid(r) && Size(r) <= Size(p)
    ensures Stream(r) == Stream(p)[n..]
    ensures r.loc == Walk(p.loc, Stream(p)[..n])
    decreases n
  {
    if n == 0 then p
    else
      AdvanceStep(p, n);
      Advance(NextChar(p), n - 1)
  }

  /** The location after reading `n` characters: one line further per
      `'\n'` among them. */
  lemma AdvanceLines(p: Reader, n: nat)
    requires Valid(p) && n <= |Stream(p)|
    ensures Advance(p, n).loc.line == p.loc.line + Count(Stream(p)[..n], NL)
  {
    WalkLines(p.loc, Stream(p)[..n]);
  }

  /** `Normalize` never produces a carriage return. */
  lemma {:induction false} NormalizeNoCR(s: seq<int>)
    ensures forall i :: 0 <= i < |Normalize(s)| ==> Normalize(s)[i] != CR
  {
    if s != [] {
      if |s| >= 2 && ((s[0] == CR && s[1] == NL) || (s[0] == NL && s[1] == CR)) {
        NormalizeNoCR(s[2..]);
      } else {
        NormalizeNoCR(s[1..]);
      }
    }
  }

  /** A file without carriage returns is read as it is. */
  lemma {:induction false} NormalizeWithoutCR(s: seq<int>)
    requires forall i :: 0 <= i < |s| ==> s[i] != CR
    ensures Normalize(s) == s
  {
    if s != [] {
      NormalizeWithoutCR(s[1..]);
    }
  }

  /** Normalising twice changes nothing more. */
  lemma NormalizeIdempotent(s: seq<int>)
    ensures Normalize(Normalize(s)) == Normalize(s)
  {
    NormalizeNoCR(s);
    NormalizeWithoutCR(Normalize(s));
  }

  /** `ol_parseFile` as written: the first two bytes are read straight into
      the current character and the lookahead, so the first character is
      not normalised. */
  function OpenAsWritten(file: seq<int>): (r: Reader)
    requires Bytes(file)
    ensures Valid(r) && r.loc == Loc(1, 1)
    ensures file != [] ==> Stream(r) == [file[0]] + Normalize(file[1..])
    ensures file == [] ==> Stream(r) == []
  {
    var (c0, rest0) := Fgetc(file);
    var (c1, rest1) := Fgetc(rest0);
    var r := Reader(Loc(1, 1), c0, c1, rest1);
    assert file != [] ==> Raw(r) == file[1..];
    r
  }

  /** The opening the rest of the model uses: the first byte goes through
      `nextChar` like every other, starting from a column before the first so
      that the first character sits at line 1, column 1. */
  function Open(file: seq<int>): (r: Reader)
    requires Bytes(file)
    ensures Valid(r) && r.loc == Loc(1, 1)
    ensures Stream(r) == Normalize(file)
  {
    var (c0, rest0) := Fgetc(file);
    var start := Reader(Loc(1, 0), 0, c0, rest0);
    NextCharStream(start);
    assert Raw(start) == file;
    NextChar(start)
  }

  /** The two openings agree unless the file starts with a line break that
      `nextChar` would fold. */
  lemma OpenAgree(file: seq<int>)
    requires Bytes(file)
    requires file == [] || (file[0] != CR && file[0] != NL)
    ensures OpenAsWritten(file) == Open(file)
  {
  }

  /** A file that begins with a carriage return is read differently by the
      two openings: as written, the `'\r'` survives as the first character. */
  lemma OpenKeepsLeadingCR()
    ensures OpenAsWritten([CR, NL]).cur == CR
    ensures Open([CR, NL]).cur == NL && Stream(Open([CR, NL])) == [NL]
  {
    assert Normalize([CR, NL]) == [NL] + Normalize([]);
  }
}
