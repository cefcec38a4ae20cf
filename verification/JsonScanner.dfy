/** The first phase of the reader: characters to tokens, with their places in the document. */
module JsonScanner {
  import opened Decimal
  import opened Options

  // ---------- Places ----------

  /** Zero-based line, offset in the line, and offset in the document. */
  datatype Location = Location(line: nat, lineOffset: nat, docOffset: nat)

  function Advance(loc: Location, c: char): Location {
    if c == '\n' then Location(loc.line + 1, 0, loc.docOffset + 1)
    else Location(loc.line, loc.lineOffset + 1, loc.docOffset + 1)
  }

  /** Where the reader is after p characters. */
  function PlaceOf(text: string, p: nat): Location
    requires p <= |text|
  {
    if p == 0 then Location(0, 0, 0) else Advance(PlaceOf(text, p - 1), text[p - 1])
  }

  function Newlines(s: string): nat {
    if s == [] then 0 else Newlines(s[..|s| - 1]) + (if s[|s| - 1] == '\n' then 1 else 0)
  }

  /** The three offsets count newlines, characters since the last newline, and characters. */
  lemma {:induction false} PlaceMeaning(text: string, p: nat)
    requires p <= |text|
    ensures var loc := PlaceOf(text, p);
            && loc.line == Newlines(text[..p]) && loc.docOffset == p && loc.lineOffset <= p
            && (forall i | p - loc.lineOffset <= i < p :: text[i] != '\n')
            && (loc.lineOffset < p ==> text[p - loc.lineOffset - 1] == '\n')
  {
    if p > 0 {
      PlaceMeaning(text, p - 1);
      assert text[..p][..p - 1] == text[..p - 1];
    }
  }

  /** The document, and how far it has been read. */
  class InputStream {
    const text: string
    var pos: nat
    var location: Location

    predicate Valid()
      reads this
    {
      pos <= |text| && location == PlaceOf(text, pos)
    }

    constructor (text: string)
      ensures this.text == text && pos == 0 && Valid()
    {
      this.text := text;
      pos := 0;
      location := Location(0, 0, 0);
    }

    predicate EOS()
      requires Valid()
      reads this
    {
      pos == |text|
    }

    function Peek(): char
      requires Valid() && !EOS()
      reads this
    {
      text[pos]
    }

    method Get() returns (c: char)
      requires Valid() && !EOS()
      modifies this
      ensures Valid() && c == text[old(pos)] && pos == old(pos) + 1
    {
      c := text[pos];
      pos := pos + 1;
      location := Location(location.line, location.lineOffset, location.docOffset + 1);
      if c == '\n' {
        location := Location(location.line + 1, 0, location.docOffset);
      } else {
        location := Location(location.line, location.lineOffset + 1, location.docOffset);
      }
    }
  }

  // ---------- Tokens ----------

  datatype Kind =
    | ObjectBegin | ObjectEnd | ArrayBegin | ArrayEnd | NextElement | MemberAssign
    | StringToken | NumberToken | DoubleToken | BooleanToken | NullToken

  datatype Token = Token(kind: Kind, value: string, begin: Location, end: Location)

  /** The six characters of white space, by their codes. */
  const BLANKS: seq<char> := [' ', 9 as char, 10 as char, 11 as char, 12 as char, 13 as char]

  /** What a match yields: a value and the position behind it, or the position where the exception is raised. */
  datatype Match<T> = Hit(value: T, next: nat) | Miss(at: nat)

  /** `MatchExpectedString`: a character that differs is still consumed. */
  function Expect(text: string, p: nat, expected: string): (m: Match<()>)
    requires p <= |text|
    ensures m.Hit? <==> p + |expected| <= |text| && text[p..p + |expected|] == expected
    ensures if m.Hit? then m.next == p + |expected| else p <= m.at <= |text|
    decreases |expected|
  {
    if expected == [] then Hit((), p)
    else if p == |text| then Miss(p)
    else if text[p] != expected[0] then Miss(p + 1)
    else
      assert p + |expected| <= |text| ==>
          text[p..p + |expected|] == [text[p]] + text[p + 1..p + |expected|] && expected == [expected[0]] + expected[1..];
      Expect(text, p + 1, expected[1..])
  }

  /** The character that an escape stands for. */
  function Escaped(c: char): Option<char> {
    match c
    case '/' => Some('/')
    case '"' => Some('"')
    case '\\' => Some('\\')
    case 'b' => Some(8 as char)
    case 'f' => Some(12 as char)
    case 'n' => Some('\n')
    case 'r' => Some('\r')
    case 't' => Some('\t')
    case _ => None
  }

  /** The loop of `MatchString` from p on, with the characters collected so far, and the closing quote. */
  function StringBody(text: string, p: nat, seen: string): (m: Match<string>)
    requires p <= |text|
    ensures if m.Hit? then p < m.next <= |text| else p <= m.at <= |text|
    decreases |text| - p
  {
    if p == |text| then Miss(p)
    else if text[p] == '"' then Hit(seen, p + 1)
    else if text[p] == '\\' && p + 1 < |text| then
      match Escaped(text[p + 1])
      case Some(c) => StringBody(text, p + 2, seen + [c])
      case None => Miss(p + 2)
    else StringBody(text, p + 1, seen + [text[p]])
  }

  /** The set of `MatchNumber`; it also holds the terminator of the literal it is made from. */
  predicate IsNumeric(c: char) {
    c in "0123456789.eE-+" || c == 0 as char
  }

  /** The longest run of such characters. */
  function NumberEnd(text: string, p: nat): (e: nat)
    requires p <= |text|
    ensures p <= e <= |text|
    ensures forall i | p <= i < e :: IsNumeric(text[i])
    ensures e < |text| ==> !IsNumeric(text[e])
    decreases |text| - p
  {
    if p < |text| && IsNumeric(text[p]) then NumberEnd(text, p + 1) else p
  }

  predicate StartsNumber(c: char) {
    c == '-' || IsDigit(c)
  }

  function NumberKind(value: string): Kind {
    if '.' in value then DoubleToken else NumberToken
  }

  /** Tokens that are always spelled the same, by their first character. */
  function Fixed(c: char): Option<(Kind, string)> {
    match c
    case '{' => Some((ObjectBegin, "{"))
    case '}' => Some((ObjectEnd, "}"))
    case '[' => Some((ArrayBegin, "["))
    case ']' => Some((ArrayEnd, "]"))
    case ',' => Some((NextElement, ","))
    case ':' => Some((MemberAssign, ":"))
    case 't' => Some((BooleanToken, "true"))
    case 'f' => Some((BooleanToken, "false"))
    case 'n' => Some((NullToken, "null"))
    case _ => None
  }

  function TokenAt(text: string, kind: Kind, value: string, p: nat, e: nat): Token
    requires p <= |text| && e <= |text|
  {
    Token(kind, value, PlaceOf(text, p), PlaceOf(text, e))
  }

  /** The token that begins at p. */
  function ScanOne(text: string, p: nat): (m: Match<Token>)
    requires p < |text|
    ensures if m.Hit? then p < m.next <= |text| else p <= m.at <= |text|
  {
    var c := text[p];
    match Fixed(c)
    case Some((kind, spelling)) =>
      (match Expect(text, p, spelling)
       case Hit(_, e) => Hit(TokenAt(text, kind, spelling, p, e), e)
       case Miss(at) => Miss(at))
    case None =>
      if c == '"' then
        match StringBody(text, p + 1, [])
        case Hit(v, e) => Hit(TokenAt(text, StringToken, v, p, e), e)
        case Miss(at) => Miss(at)
      else if StartsNumber(c) then
        var e := NumberEnd(text, p);
        Hit(TokenAt(text, NumberKind(text[p..e]), text[p..e], p, e), e)
      else Miss(p)
  }

  datatype Scanned = Tokens(tokens: seq<Token>) | ScanError(at: Location)

  /** `Scan` from p on, with the tokens found so far. */
  function ScanFrom(text: string, p: nat, found: seq<Token>): Scanned
    requires p <= |text|
    decreases |text| - p
  {
    var b := SkipSpace(text, p);
    if b == |text| then Tokens(found)
    else
      match ScanOne(text, b)
      case Hit(token, e) => ScanFrom(text, e, found + [token])
      case Miss(at) => ScanError(PlaceOf(text, at))
  }

  // ---------- The scanner ----------

  /** A scan error is raised where the stream stands. */
  datatype Outcome<T> = Done(value: T) | Failed(at: Location)

  method EatWhiteSpace(stream: InputStream)
    requires stream.Valid()
    modifies stream
    ensures stream.Valid() && stream.pos == SkipSpace(stream.text, old(stream.pos))
  {
    while !stream.EOS() && IsSpace(stream.Peek())
      invariant stream.Valid() && SkipSpace(stream.text, stream.pos) == SkipSpace(stream.text, old(stream.pos))
      decreases |stream.text| - stream.pos
    {
      var _ := stream.Get();
    }
  }

  method MatchExpectedString(stream: InputStream, expected: string) returns (r: Outcome<string>)
    requires stream.Valid()
    modifies stream
    ensures stream.Valid()
    ensures match Expect(stream.text, old(stream.pos), expected)
            case Hit(_, e) => r == Done(expected) && stream.pos == e
            case Miss(at) => stream.pos == at && r == Failed(stream.location)
  {
    hide PlaceOf, Expect;
    var i := 0;
    assert expected[0..] == expected;
    while i < |expected|
      invariant stream.Valid() && i <= |expected|
      invariant Expect(stream.text, stream.pos, expected[i..]) == Expect(stream.text, old(stream.pos), expected)
    {
      ExpectFrom(stream.text, stream.pos, expected, i);
      if stream.EOS() {
        return Failed(stream.location);
      }
      var c := stream.Get();
      if c != expected[i] {
        return Failed(stream.location);
      }
      i := i + 1;
    }
    ExpectFrom(stream.text, stream.pos, expected, i);
    r := Done(expected);
  }

  lemma ExpectFrom(text: string, p: nat, expected: string, i: nat)
    requires p <= |text| && i <= |expected|
    ensures Expect(text, p, expected[i..])
            == if i == |expected| then Hit((), p)
               else if p == |text| then Miss(p)
               else if text[p] != expected[i] then Miss(p + 1)
               else Expect(text, p + 1, expected[i + 1..])
  {
    if i < |expected| {
      assert expected[i..][1..] == expected[i + 1..];
    }
  }

  method MatchString(stream: InputStream) returns (r: Outcome<string>)
    requires stream.Valid() && !stream.EOS() && stream.Peek() == '"'
    modifies stream
    ensures stream.Valid()
    ensures match StringBody(stream.text, old(stream.pos) + 1, [])
            case Hit(v, e) => r == Done(v) && stream.pos == e
            case Miss(at) => stream.pos == at && r == Failed(stream.location)
  {
    r := MatchExpectedString(stream, "\"");
    var s: string := [];
    while !stream.EOS() && stream.Peek() != '"'
      invariant stream.Valid()
      invariant StringBody(stream.text, stream.pos, s) == StringBody(stream.text, old(stream.pos) + 1, [])
      decreases |stream.text| - stream.pos
    {
      var c := stream.Get();
      if c == '\\' && !stream.EOS() {
        c := stream.Get();
        match Escaped(c)
        case Some(e) => s := s + [e];
        case None => return Failed(stream.location);
      } else {
        s := s + [c];
      }
    }
    r := MatchExpectedString(stream, "\"");
    if r.Done? {
      r := Done(s);
    }
  }

  method MatchNumber(stream: InputStream) returns (s: string)
    requires stream.Valid()
    modifies stream
    ensures stream.Valid() && stream.pos == NumberEnd(stream.text, old(stream.pos))
    ensures s == stream.text[old(stream.pos)..stream.pos]
  {
    hide IsNumeric, PlaceOf;
    s := [];
    while !stream.EOS() && IsNumeric(stream.Peek())
      invariant stream.Valid() && old(stream.pos) <= stream.pos
      invariant s == stream.text[old(stream.pos)..stream.pos]
      invariant NumberEnd(stream.text, stream.pos) == NumberEnd(stream.text, old(stream.pos))
      decreases |stream.text| - stream.pos
    {
      var c := stream.Get();
      s := s + [c];
      assert stream.text[old(stream.pos)..stream.pos] == stream.text[old(stream.pos)..stream.pos - 1] + [c];
    }
  }

  /** One pass of the loop of `Scan`, behind the white space. */
  method ScanToken(stream: InputStream) returns (r: Outcome<Token>)
    requires stream.Valid() && !stream.EOS()
    modifies stream
    ensures stream.Valid()
    ensures match ScanOne(stream.text, old(stream.pos))
            case Hit(token, e) => r == Done(token) && stream.pos == e
            case Miss(at) => stream.pos == at && r == Failed(stream.location)
  {
    hide StringBody, NumberEnd, Expect, PlaceOf;
    var begin := stream.location;
    var c := stream.Peek();
    var kind: Kind;
    var value: Outcome<string>;
    match Fixed(c) {
      case Some((k, spelling)) =>
        kind := k;
        value := MatchExpectedString(stream, spelling);
      case None =>
        if c == '"' {
          kind := StringToken;
          value := MatchString(stream);
        } else if StartsNumber(c) {
          var number := MatchNumber(stream);
          kind := NumberKind(number);
          value := Done(number);
        } else {
          return Failed(stream.location);
        }
    }
    match value
    case Done(v) => r := Done(Token(kind, v, begin, stream.location));
    case Failed(at) => r := Failed(at);
  }

  /** `Scan`: every pass consumes at least one character. */
  method Scan(stream: InputStream) returns (r: Scanned)
    requires stream.Valid()
    modifies stream
    ensures r == ScanFrom(stream.text, old(stream.pos), [])
  {
    hide ScanOne;
    var tokens: seq<Token> := [];
    while true
      invariant stream.Valid()
      invariant ScanFrom(stream.text, stream.pos, tokens) == ScanFrom(stream.text, old(stream.pos), [])
      decreases |stream.text| - stream.pos
    {
      EatWhiteSpace(stream);
      if stream.EOS() {
        return Tokens(tokens);
      }
      var token := ScanToken(stream);
      match token
      case Done(t) => tokens := tokens + [t];
      case Failed(at) => return ScanError(at);
    }
  }

  // ---------- What an accepted document looks like ----------

  /** The value of the characters between the quotes; None where a quote or an unknown escape stands among them. */
  function Unescaped(body: string): Option<string>
    decreases |body|
  {
    if body == [] then Some([])
    else if body[0] == '"' then None
    else if body[0] == '\\' then
      if |body| == 1 || Escaped(body[1]) == None || Unescaped(body[2..]) == None then None
      else Some([Escaped(body[1]).value] + Unescaped(body[2..]).value)
    else if Unescaped(body[1..]) == None then None
    else Some([body[0]] + Unescaped(body[1..]).value)
  }

  /** The lexemes of each kind of token, and the value each carries. */
  predicate Spells(kind: Kind, value: string, lexeme: string) {
    match kind
    case StringToken =>
      |lexeme| >= 2 && lexeme[0] == '"' == lexeme[|lexeme| - 1] && Unescaped(lexeme[1..|lexeme| - 1]) == Some(value)
    case NumberToken => NumberLexeme(lexeme) && value == lexeme && '.' !in lexeme
    case DoubleToken => NumberLexeme(lexeme) && value == lexeme && '.' in lexeme
    case _ => lexeme != "" && Fixed(lexeme[0]) == Some((kind, lexeme)) && value == lexeme
  }

  predicate NumberLexeme(lexeme: string) {
    lexeme != "" && StartsNumber(lexeme[0]) && forall c | c in lexeme :: IsNumeric(c)
  }

  predicate AllSpace(s: string) {
    forall c | c in s :: IsSpace(c)
  }

  /** The token takes up text[b..e], and a number goes on as far as it can. */
  predicate Occupies(text: string, token: Token, b: nat, e: nat) {
    && b < e <= |text|
    && token == TokenAt(text, token.kind, token.value, b, e)
    && Spells(token.kind, token.value, text[b..e])
    && (token.kind.NumberToken? || token.kind.DoubleToken? ==> e == |text| || !IsNumeric(text[e]))
  }

  /** The tokens lie in text[p..q] in order, without overlap, and with only white space in front of each. */
  predicate Tiles(text: string, p: nat, tokens: seq<Token>, q: nat)
    decreases |tokens|
  {
    if tokens == [] then p == q <= |text|
    else
      var b, e := tokens[0].begin.docOffset, tokens[0].end.docOffset;
      && p <= b && Occupies(text, tokens[0], b, e)
      && AllSpace(text[p..b])
      && Tiles(text, e, tokens[1..], q)
  }

  /** The whole document: tokens, and white space behind the last. */
  ghost predicate Document(text: string, tokens: seq<Token>) {
    exists q: nat :: Tiles(text, 0, tokens, q) && q <= |text| && AllSpace(text[q..])
  }
}
