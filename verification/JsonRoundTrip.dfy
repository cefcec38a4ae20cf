/** Reading what the writer writes, and writing what the reader reads. */
module JsonRoundTrip {
  import opened Decimal
  import opened Options
  import opened JsonTree
  import opened JsonScanner
  import opened JsonTiling
  import opened JsonParser
  import opened JsonGrammar
  import opened JsonWriter

  // ---------- The reader ----------

  datatype ReadResult = Tree(t: Json) | ScanFailure(at: Location) | ParseFailure(why: Failure)

  /** Both phases of the reader. */
  function Read(text: string): ReadResult {
    match ScanFrom(text, 0, [])
    case ScanError(at) => ScanFailure(at)
    case Tokens(ts) =>
      match ParseAll(ts)
      case Parsed(t, _) => Tree(t)
      case Rejected(why) => ParseFailure(why)
  }

  /** `Read_i`, for a document of any type */
  method ReadDocument(text: string) returns (r: ReadResult)
    ensures r == Read(text)
  {
    hide ScanFrom, ParseValue;
    var inputStream := new InputStream(text);
    var scanned := Scan(inputStream);
    if scanned.ScanError? {
      return ScanFailure(scanned.at);
    }
    var tokenStream := new TokenStream(scanned.tokens);
    var parsed := ParseUnknown(tokenStream);
    if parsed.Err? {
      return ParseFailure(parsed.why);
    }
    if !tokenStream.EOS() {
      return ParseFailure(Unexpected(tokenStream.Peek()));
    }
    r := Tree(parsed.value);
  }

  /** A text reads as t exactly when its tokens, with white space around them, are the derivation of t. */
  lemma ReadIff(text: string, t: Json)
    ensures Read(text) == Tree(t)
            <==> WellFormed(t) && exists ts :: Document(text, ts) && Derives(ts, 0, Yield(t), |ts|)
  {
    hide ScanFrom, Document, Derives, Yield, WellFormed, ParseValue;
    if Read(text) == Tree(t) {
      var ts := ScanFrom(text, 0, []).tokens;
      ScanIff(text, ts);
      ParseIff(ts, t);
    }
    if WellFormed(t) && exists ts :: Document(text, ts) && Derives(ts, 0, Yield(t), |ts|) {
      var ts :| Document(text, ts) && Derives(ts, 0, Yield(t), |ts|);
      ScanIff(text, ts);
      ParseIff(ts, t);
    }
  }

  // ---------- Pieces of a text ----------

  predicate At(text: string, p: nat, s: string) {
    p + |s| <= |text| && text[p..p + |s|] == s
  }

  lemma AtSplit(text: string, p: nat, a: string, b: string)
    requires At(text, p, a + b)
    ensures At(text, p, a) && At(text, p + |a|, b) && |a + b| == |a| + |b|
  {
    var s := text[p..p + |a + b|];
    SubSlice(text, p, p + |a + b|, 0, |a|);
    SubSlice(text, p, p + |a + b|, |a|, |a + b|);
    assert s[0..|a|] == a && s[|a|..|a + b|] == b;
  }

  /** A number may end here. */
  predicate Ends(text: string, p: nat) {
    p < |text| ==> !IsNumeric(text[p])
  }

  /** Text from p to q with the derivation y. */
  predicate Tiled(text: string, p: nat, ts: seq<Token>, q: nat, y: seq<Terminal>) {
    Tiles(text, p, ts, q) && Derives(ts, 0, y, |ts|)
  }

  lemma Follow(text: string, p: nat, a: seq<Token>, q: nat, y: seq<Terminal>, b: seq<Token>, r: nat, z: seq<Terminal>)
    requires Tiled(text, p, a, q, y) && Tiled(text, q, b, r, z)
    ensures Tiled(text, p, a + b, r, y + z)
  {
    hide Tiles, Fits;
    TilesConcat(text, p, a, q, b, r);
    var ts, x := a + b, y + z;
    forall i | 0 <= i < |x|
      ensures Fits(ts[0 + i], x[i])
    {
      if i < |a| {
        assert Fits(a[0 + i], y[i]);
      } else {
        assert Fits(b[0 + (i - |a|)], z[i - |a|]);
      }
    }
  }

  lemma Spaced(text: string, p: nat, space: string, ts: seq<Token>, q: nat, y: seq<Terminal>)
    requires At(text, p, space) && AllSpace(space) && y != [] && Tiled(text, p + |space|, ts, q, y)
    ensures Tiled(text, p, ts, q, y)
  {
    hide Tiles, AllSpace;
    SpaceThenTiles(text, p, p + |space|, ts, q);
  }

  lemma Single(text: string, p: nat, lexeme: string, kind: Kind, value: string, t: Terminal) returns (ts: seq<Token>)
    requires At(text, p, lexeme) && lexeme != "" && Spells(kind, value, lexeme)
    requires kind.NumberToken? || kind.DoubleToken? ==> Ends(text, p + |lexeme|)
    requires Fits(TokenAt(text, kind, value, p, p + |lexeme|), t)
    ensures Tiled(text, p, ts, p + |lexeme|, [t])
  {
    hide Tiles, Fits, Spells, PlaceOf, IsNumeric;
    var token := TokenAt(text, kind, value, p, p + |lexeme|);
    ts := [token];
    OneTile(text, kind, value, p, p + |lexeme|);
    DerivesOne(ts, 0, t, 1);
  }

  lemma Punctuation(text: string, p: nat, kind: Kind, value: string) returns (ts: seq<Token>)
    requires At(text, p, value) && value != "" && Fixed(value[0]) == Some((kind, value))
    ensures Tiled(text, p, ts, p + |value|, [Punct(kind)])
  {
    hide Tiles, PlaceOf, Derives, IsNumeric, Fixed;
    FirstCharacters(value[0]);
    ts := Single(text, p, value, kind, value, Punct(kind));
  }

  // ---------- Lexemes ----------

  /** Escaping and unescaping. */
  lemma {:induction false} QuotedUnescapes(s: string)
    ensures Unescaped(Quoted(s)) == Some(s)
  {
    if s != "" {
      QuotedUnescapes(s[1..]);
      EscapeUndone(s[0], Quoted(s[1..]));
      assert [s[0]] + s[1..] == s;
    }
  }

  lemma EscapeShape(c: char)
    ensures var e := EscapeOf(c);
            if |e| == 2 then e[0] == '\\' && Escaped(e[1]) == Some(c)
            else e == [c] && c != '"' && c != '\\'
  {
  }

  lemma EscapeUndone(c: char, rest: string)
    requires Unescaped(rest).Some?
    ensures Unescaped(EscapeOf(c) + rest) == Some([c] + Unescaped(rest).value)
  {
    hide EscapeOf, Escaped;
    EscapeShape(c);
    var e := EscapeOf(c);
    var body := e + rest;
    assert body[0] == e[0] && body[|e|..] == rest;
    if |e| == 2 {
      assert body[1] == e[1];
    }
  }

  lemma StringSpells(s: string)
    ensures Spells(StringToken, s, StringText(s)) && StringText(s) != ""
  {
    hide Unescaped, Quoted;
    QuotedUnescapes(s);
    var lexeme := StringText(s);
    assert lexeme[1..|lexeme| - 1] == Quoted(s);
  }

  lemma PrintedDigits(n: int)
    ensures var s, q := IntText(n), if n < 0 then 1 else 0;
            && q < |s| && (q == 1 ==> s[0] == '-') && s[q..] == Digits(if n < 0 then -n else n)
            && forall i | q <= i < |s| :: IsDigit(s[i])
  {
    hide Digits, IsDigit;
    var s, q := IntText(n), if n < 0 then 1 else 0;
    var digits := Digits(if n < 0 then -n else n);
    assert s[q..] == digits;
    forall i | q <= i < |s|
      ensures IsDigit(s[i])
    {
      assert s[i] == digits[i - q] && digits[i - q] in digits;
    }
  }

  /** Printing and parsing an int. */
  lemma IntSpells(n: int)
    requires INT_MIN <= n <= INT_MAX
    ensures IntText(n) != "" && Spells(NumberToken, IntText(n), IntText(n)) && NumberValue(IntText(n)) == Some(n)
  {
    hide Digits, Value, RunEnd, IsDigit, NumberLexeme, NumberValue;
    var s, q := IntText(n), if n < 0 then 1 else 0;
    PrintedDigits(n);
    DigitsAreNumeric(s, q);
    DigitsParse(s, q);
    ValueOfDigits(if n < 0 then -n else n);
  }

  /** The only sign a token can have in front is a minus. */
  lemma DigitsParse(s: string, q: nat)
    requires q <= 1 && q < |s| && (q == 1 ==> s[0] == '-') && forall i | q <= i < |s| :: IsDigit(s[i])
    ensures forall c | c in s[q..] :: IsDigit(c)
    ensures var v: int := Value(s[q..]); NumberValue(s) == Some(Clamp(if q == 1 then -v else v))
  {
    hide Value;
    RunEndAll(s, q);
    assert s[q..|s|] == s[q..];
  }

  lemma DigitsAreNumeric(s: string, q: nat)
    requires q <= 1 && q < |s| && (q == 1 ==> s[0] == '-') && forall i | q <= i < |s| :: IsDigit(s[i])
    ensures NumberLexeme(s) && '.' !in s
  {
    assert forall i | 0 <= i < |s| :: IsNumeric(s[i]) && s[i] != '.';
  }

  lemma TabsAreSpace(d: nat)
    ensures |Tabs(d)| == d && AllSpace(Tabs(d)) && AllSpace("\n") && AllSpace(" ") && AllSpace("")
  {
  }

  // ---------- Lines ----------

  lemma LineParts(text: string, p: nat, tabs: string, item: string, more: bool, rest: string)
    requires At(text, p, tabs + item + Comma(more) + "\n" + rest)
    ensures var q := p + |tabs| + |item|;
            && At(text, p, tabs) && At(text, p + |tabs|, item) && Ends(text, q)
            && if more then At(text, q, ",") && At(text, q + 1, "\n") && At(text, q + 2, rest)
               else At(text, q, "\n") && At(text, q + 1, rest)
  {
    hide At;
    AtSplit(text, p, tabs + item + Comma(more) + "\n", rest);
    AtSplit(text, p, tabs + item + Comma(more), "\n");
    AtSplit(text, p, tabs + item, Comma(more));
    AtSplit(text, p, tabs, item);
    AtEnds(text, p + |tabs| + |item|);
  }

  lemma AtEnds(text: string, q: nat)
    requires At(text, q, ",") || At(text, q, "\n")
    ensures Ends(text, q)
  {
    var s := text[q..q + 1];
    assert s[0] == text[q];
  }

  /** An item on a line of its own, a comma, and the lines behind it. */
  lemma JoinLine(text: string, p: nat, d: nat, item: string, rest: string,
                 a: seq<Token>, y: seq<Terminal>, b: seq<Token>, q: nat, z: seq<Terminal>)
    returns (ts: seq<Token>)
    requires At(text, p, Tabs(d) + item + Comma(true) + "\n" + rest) && y != [] && z != []
    requires Tiled(text, p + d, a, p + d + |item|, y) && Tiled(text, p + d + |item| + 2, b, q, z)
    ensures Tiled(text, p, ts, q, y + [Punct(NextElement)] + z)
  {
    hide At, Tiled, AllSpace;
    var e := p + d + |item|;
    LineParts(text, p, Tabs(d), item, true, rest);
    TabsAreSpace(d);
    Spaced(text, p, Tabs(d), a, e, y);
    var comma := Punctuation(text, e, NextElement, ",");
    Spaced(text, e + 1, "\n", b, q, z);
    Follow(text, p, a, e, y, comma, e + 1, [Punct(NextElement)]);
    Follow(text, p, a + comma, e + 1, y + [Punct(NextElement)], b, q, z);
    ts := a + comma + b;
  }

  /** Brackets around lines that are one step deeper. */
  lemma Enclose(text: string, p: nat, open: Kind, o: string, lines: string, d: nat, close: Kind, c: string,
                body: seq<Token>, q: nat, y: seq<Terminal>)
    returns (ts: seq<Token>)
    requires |o| == |c| == 1 && Fixed(o[0]) == Some((open, o)) && Fixed(c[0]) == Some((close, c)) && y != []
    requires At(text, p, o + "\n" + lines + Tabs(d) + c)
    requires Tiled(text, p + 2, body, q, y) && q + 1 == p + 2 + |lines| && At(text, q, "\n")
    ensures Tiled(text, p, ts, p + |o + "\n" + lines + Tabs(d) + c|, [Punct(open)] + y + [Punct(close)])
  {
    hide At, Tiled, AllSpace, Fixed;
    AtSplit(text, p, o + "\n" + lines + Tabs(d), c);
    AtSplit(text, p, o + "\n" + lines, Tabs(d));
    AtSplit(text, p, o + "\n", lines);
    AtSplit(text, p, o, "\n");
    TabsAreSpace(d);
    var begin := Punctuation(text, p, open, o);
    var end := Punctuation(text, q + 1 + d, close, c);
    Spaced(text, p + 1, "\n", body, q, y);
    Spaced(text, q + 1, Tabs(d), end, q + 2 + d, [Punct(close)]);
    Spaced(text, q, "\n", end, q + 2 + d, [Punct(close)]);
    Follow(text, p, begin, p + 1, [Punct(open)], body, q, y);
    Follow(text, p, begin + body, q, [Punct(open)] + y, end, q + 2 + d, [Punct(close)]);
    ts := begin + body + end;
  }

  // ---------- The text of a tree is tiled by its derivation ----------

  lemma {:induction false} TreeTiles(text: string, p: nat, t: Json, d: nat) returns (ts: seq<Token>)
    requires At(text, p, Text(t, d)) && WellFormed(t) && Ends(text, p + |Text(t, d)|)
    ensures Tiled(text, p, ts, p + |Text(t, d)|, Yield(t))
    decreases t, 2
  {
    hide *;
    match t
    case Arr(es) => ts := ArrayTiles(text, p, es, d);
    case Obj(ms) => ts := ObjectTiles(text, p, ms, d);
    case _ => ts := AtomTiles(text, p, t, d);
  }

  lemma AtomTiles(text: string, p: nat, t: Json, d: nat) returns (ts: seq<Token>)
    requires At(text, p, Text(t, d)) && WellFormed(t) && Ends(text, p + |Text(t, d)|) && !t.Arr? && !t.Obj?
    ensures Tiled(text, p, ts, p + |Text(t, d)|, Yield(t))
  {
    hide At, Tiled, Spells, Ends, IntText, StringText, PlaceOf, NumberValue;
    match t
    case Null =>
      WordsSpell();
      ts := Single(text, p, "null", NullToken, "null", AnyNull);
    case Bool(b) =>
      WordsSpell();
      ts := Single(text, p, Text(t, d), BooleanToken, Text(t, d), AnyBoolean(b));
    case Number(n) =>
      IntSpells(n);
      ts := Single(text, p, IntText(n), NumberToken, IntText(n), AnyNumber(n));
    case Str(s) =>
      StringSpells(s);
      ts := Single(text, p, StringText(s), StringToken, s, AnyString(s));
  }

  lemma WordsSpell()
    ensures Spells(NullToken, "null", "null")
    ensures Spells(BooleanToken, "true", "true") && Spells(BooleanToken, "false", "false")
    ensures "false" != "true"
  {
    assert "false"[0] == 'f';
  }

  lemma {:induction false} ArrayTiles(text: string, p: nat, es: seq<Json>, d: nat) returns (ts: seq<Token>)
    requires At(text, p, Text(Arr(es), d)) && WellFormed(Arr(es))
    ensures Tiled(text, p, ts, p + |Text(Arr(es), d)|, Yield(Arr(es)))
    decreases es, 1
  {
    hide At, Tiled, ElementLines, Tabs, Fixed;
    Brackets();
    if es == [] {
      assert "[]" == "[" + "]";
      AtSplit(text, p, "[", "]");
      ts := Pair(text, p, ArrayBegin, "[", ArrayEnd, "]");
    } else {
      var lines := ElementLines(es, d + 1);
      assert "[\n" == "[" + "\n";
      AtSplit(text, p, "[" + "\n" + lines + Tabs(d), "]");
      AtSplit(text, p, "[" + "\n" + lines, Tabs(d));
      AtSplit(text, p, "[" + "\n", lines);
      var body, q := ElementsTile(text, p + 2, es, d + 1);
      ts := Enclose(text, p, ArrayBegin, "[", lines, d, ArrayEnd, "]", body, q, YieldElements(es));
    }
  }

  lemma Brackets()
    ensures Fixed('[') == Some((ArrayBegin, "[")) && Fixed(']') == Some((ArrayEnd, "]"))
    ensures Fixed('{') == Some((ObjectBegin, "{")) && Fixed('}') == Some((ObjectEnd, "}"))
    ensures Fixed(',') == Some((NextElement, ",")) && Fixed(':') == Some((MemberAssign, ":"))
  {
  }

  /** An empty container. */
  lemma Pair(text: string, p: nat, open: Kind, o: string, close: Kind, c: string) returns (ts: seq<Token>)
    requires |o| == |c| == 1 && Fixed(o[0]) == Some((open, o)) && Fixed(c[0]) == Some((close, c))
    requires At(text, p, o) && At(text, p + 1, c)
    ensures Tiled(text, p, ts, p + 2, [Punct(open)] + [] + [Punct(close)])
  {
    hide At, Tiled, Fixed;
    var begin := Punctuation(text, p, open, o);
    var end := Punctuation(text, p + 1, close, c);
    Follow(text, p, begin, p + 1, [Punct(open)], end, p + 2, [Punct(close)]);
    assert [Punct(open)] + [] + [Punct(close)] == [Punct(open)] + [Punct(close)];
    ts := begin + end;
  }

  lemma {:induction false} ElementsTile(text: string, p: nat, es: seq<Json>, d: nat) returns (ts: seq<Token>, q: nat)
    requires es != [] && At(text, p, ElementLines(es, d)) && forall e | e in es :: WellFormed(e)
    ensures Tiled(text, p, ts, q, YieldElements(es)) && At(text, q, "\n") && q + 1 == p + |ElementLines(es, d)|
    decreases es, 0
  {
    hide At, Tiled, Text, Tabs, WellFormed, Yield, AllSpace;
    var item, rest, more := Text(es[0], d), ElementLines(es[1..], d), |es| > 1;
    assert |Tabs(d)| == d by { TabsAreSpace(d); }
    LineParts(text, p, Tabs(d), item, more, rest);
    assert es[0] in es;
    ts := TreeTiles(text, p + d, es[0], d);
    if more {
      var b;
      b, q := ElementsTile(text, p + d + |item| + 2, es[1..], d);
      ts := JoinLine(text, p, d, item, rest, ts, Yield(es[0]), b, q, YieldElements(es[1..]));
    } else {
      q := p + d + |item|;
      TabsAreSpace(d);
      Spaced(text, p, Tabs(d), ts, q, Yield(es[0]));
      assert rest == "";
    }
  }

  lemma {:induction false} ObjectTiles(text: string, p: nat, ms: seq<Member>, d: nat) returns (ts: seq<Token>)
    requires At(text, p, Text(Obj(ms), d)) && WellFormed(Obj(ms))
    ensures Tiled(text, p, ts, p + |Text(Obj(ms), d)|, Yield(Obj(ms)))
    decreases ms, 1
  {
    hide At, Tiled, MemberLines, Tabs, Fixed;
    Brackets();
    if ms == [] {
      assert "{}" == "{" + "}";
      AtSplit(text, p, "{", "}");
      ts := Pair(text, p, ObjectBegin, "{", ObjectEnd, "}");
    } else {
      var lines := MemberLines(ms, d + 1);
      assert "{\n" == "{" + "\n";
      AtSplit(text, p, "{" + "\n" + lines + Tabs(d), "}");
      AtSplit(text, p, "{" + "\n" + lines, Tabs(d));
      AtSplit(text, p, "{" + "\n", lines);
      var body, q := MembersTile(text, p + 2, ms, d + 1);
      ts := Enclose(text, p, ObjectBegin, "{", lines, d, ObjectEnd, "}", body, q, YieldMembers(ms));
    }
  }

  lemma {:induction false} MemberTiles(text: string, p: nat, m: Member, d: nat) returns (ts: seq<Token>)
    requires At(text, p, MemberText(m, d)) && WellFormed(m.value) && Ends(text, p + |MemberText(m, d)|)
    ensures Tiled(text, p, ts, p + |MemberText(m, d)|, YieldMember(m))
    decreases m, 0
  {
    hide At, Tiled, Text, StringText, WellFormed, Yield, AllSpace, Ends, Spells, PlaceOf, Fixed;
    var name, value := StringText(m.name), Text(m.value, d);
    var e, end := p + |name|, p + |MemberText(m, d)|;
    AtSplit(text, p, name + " : ", value);
    AtSplit(text, p, name, " : ");
    assert " : " == " " + (":" + " ");
    AtSplit(text, e, " ", ":" + " ");
    AtSplit(text, e + 1, ":", " ");
    StringSpells(m.name);
    Brackets();
    TabsAreSpace(0);
    var a := Single(text, p, name, StringToken, m.name, AnyString(m.name));
    var b := Punctuation(text, e + 1, MemberAssign, ":");
    var c := TreeTiles(text, e + 3, m.value, d);
    Spaced(text, e, " ", b, e + 2, [Punct(MemberAssign)]);
    Spaced(text, e + 2, " ", c, end, Yield(m.value));
    Follow(text, p, a, e, [AnyString(m.name)], b, e + 2, [Punct(MemberAssign)]);
    Follow(text, p, a + b, e + 2, [AnyString(m.name)] + [Punct(MemberAssign)], c, end, Yield(m.value));
    ts := a + b + c;
    assert [AnyString(m.name)] + [Punct(MemberAssign)] == [AnyString(m.name), Punct(MemberAssign)];
  }

  lemma {:induction false} MembersTile(text: string, p: nat, ms: seq<Member>, d: nat) returns (ts: seq<Token>, q: nat)
    requires ms != [] && At(text, p, MemberLines(ms, d)) && forall m | m in ms :: WellFormed(m.value)
    ensures Tiled(text, p, ts, q, YieldMembers(ms)) && At(text, q, "\n") && q + 1 == p + |MemberLines(ms, d)|
    decreases ms, 0
  {
    hide At, Tiled, MemberText, Tabs, WellFormed, YieldMember, AllSpace;
    var item, rest, more := MemberText(ms[0], d), MemberLines(ms[1..], d), |ms| > 1;
    assert |Tabs(d)| == d by { TabsAreSpace(d); }
    LineParts(text, p, Tabs(d), item, more, rest);
    assert ms[0] in ms;
    ts := MemberTiles(text, p + d, ms[0], d);
    if more {
      var b;
      b, q := MembersTile(text, p + d + |item| + 2, ms[1..], d);
      ts := JoinLine(text, p, d, item, rest, ts, YieldMember(ms[0]), b, q, YieldMembers(ms[1..]));
    } else {
      q := p + d + |item|;
      TabsAreSpace(d);
      Spaced(text, p, Tabs(d), ts, q, YieldMember(ms[0]));
      assert rest == "";
    }
  }

  // ---------- Round trips ----------

  /**
   * Reading what the writer prints, from any depth, gives the tree back exactly when its numbers are ints and the
   * names within each of its objects differ.
   */
  lemma RoundTrip(t: Json, d: nat)
    ensures Read(Text(t, d)) == Tree(t) <==> WellFormed(t)
  {
    hide Text, WellFormed, Document, Derives, Yield, Read, AllSpace, Tiles;
    var text := Text(t, d);
    ReadIff(text, t);
    if WellFormed(t) {
      assert text[0..0 + |text|] == text;
      var ts := TreeTiles(text, 0, t, d);
      assert text[|text|..] == "";
      assert AllSpace("") by { TabsAreSpace(0); }
      DocumentOf(text, ts, |text|);
    }
  }

  lemma DocumentOf(text: string, ts: seq<Token>, q: nat)
    requires Tiles(text, 0, ts, q) && q <= |text| && AllSpace(text[q..])
    ensures Document(text, ts)
  {
  }

  /** Whatever text the reader accepts, writing its tree and reading that again changes nothing. */
  lemma ReadStable(text: string, t: Json, d: nat)
    requires Read(text) == Tree(t)
    ensures WellFormed(t) && Read(Text(t, d)) == Tree(t)
  {
    hide Text, WellFormed, Document, Derives, Yield, Read;
    ReadIff(text, t);
    RoundTrip(t, d);
  }

  /** No two such trees are written alike, whatever the depths. */
  lemma WriterInjective(t: Json, d: nat, u: Json, e: nat)
    requires WellFormed(t) && WellFormed(u) && Text(t, d) == Text(u, e)
    ensures t == u
  {
    hide Text, WellFormed, Read;
    RoundTrip(t, d);
    RoundTrip(u, e);
  }
}
