/** What the reader makes of numbers: when a token parses, when it reads as what it denotes, and what it does otherwise. */
module JsonNumbers {
  import opened Decimal
  import opened Options
  import opened JsonTree
  import opened JsonScanner
  import opened JsonTiling
  import opened JsonParser
  import opened JsonGrammar
  import opened JsonRoundTrip

  // ---------- Tokens ----------

  /** The length of the sign. */
  function SignLength(token: string): (n: nat)
    ensures n <= 1 && n <= |token|
  {
    if token != "" && (token[0] == '-' || token[0] == '+') then 1 else 0
  }

  /** At most a sign, and digits only behind it. */
  predicate SignedDigits(token: string) {
    forall i | SignLength(token) <= i < |token| :: IsDigit(token[i])
  }

  /** The integer that sign and digits denote. */
  function Denoted(token: string): int
    requires SignedDigits(token)
  {
    var digits := token[SignLength(token)..];
    var v: int := Value(digits);
    if token != "" && token[0] == '-' then -v else v
  }

  /** A token parses exactly when it is a sign, or none, and digits. */
  lemma ParsesIff(token: string)
    ensures NumberValue(token).Some? <==> SignedDigits(token)
  {
    hide Value;
    if SignedDigits(token) {
      RunEndAll(token, SignLength(token));
    }
  }

  lemma ValueClamped(token: string)
    requires SignedDigits(token)
    ensures NumberValue(token) == Some(Clamp(Denoted(token)))
  {
    hide Value, Clamp;
    var q := SignLength(token);
    RunEndAll(token, q);
    assert token[q..|token|] == token[q..];
  }

  /** A token with digits gives the integer it denotes exactly when an int can hold that, and the nearest int otherwise. */
  lemma DenotedIff(token: string)
    requires SignedDigits(token) && SignLength(token) < |token|
    ensures NumberValue(token) == Some(Denoted(token)) <==> -0x8000_0000 <= Denoted(token) <= 0x7fff_ffff
    ensures Denoted(token) < -0x8000_0000 ==> NumberValue(token) == Some(-0x8000_0000)
    ensures Denoted(token) > 0x7fff_ffff ==> NumberValue(token) == Some(0x7fff_ffff)
  {
    hide Denoted, NumberValue, SignedDigits;
    ValueClamped(token);
  }

  // ---------- Documents of one number ----------

  /** A document that is one number token, with a point or without. */
  lemma OneNumberRead(text: string)
    requires NumberLexeme(text)
    ensures var token := TokenAt(text, NumberKind(text), text, 0, |text|);
            Read(text) == match NumberValue(text)
                          case Some(n) => Tree(Json.Number(n))
                          case None => ParseFailure(BadNumber(token))
  {
    hide NumberValue, NumberLexeme, Tiles, ScanFrom, PlaceOf, AllSpace, IsNumeric, Occupies;
    assert text != "" by { NotEmpty(text); }
    if '.' in text {
      DoubleNeverParses(text);
    }
    var token := TokenAt(text, NumberKind(text), text, 0, |text|);
    assert text[0..|text|] == text && text[|text|..] == "";
    OneTile(text, NumberKind(text), text, 0, |text|);
    TabsAreSpace(0);
    ScanComplete(text, 0, [token], |text|, []);
    assert [] + [token] == [token];
  }

  lemma NotEmpty(text: string)
    requires NumberLexeme(text)
    ensures text != ""
  {
  }

  /** Sign and digits read as the integer they denote exactly when an int can hold it. */
  lemma NumberReadIff(text: string)
    requires NumberLexeme(text) && SignedDigits(text) && SignLength(text) < |text|
    ensures Read(text) == Tree(Json.Number(Denoted(text))) <==> -0x8000_0000 <= Denoted(text) <= 0x7fff_ffff
  {
    hide NumberLexeme, Denoted, NumberValue, Read;
    NoPoint(text);
    OneNumberRead(text);
    DenotedIff(text);
    ParsesIff(text);
  }

  lemma NoPoint(text: string)
    requires SignedDigits(text)
    ensures '.' !in text
  {
    assert forall i | 0 <= i < |text| :: text[i] != '.';
  }

  /** A minus sign alone reads as zero. */
  lemma LoneMinus()
    ensures NumberLexeme("-") && SignedDigits("-") && NumberValue("-") == Some(0)
    ensures Read("-") == Tree(Json.Number(0))
  {
    hide Read;
    assert SignLength("-") == 1 && "-"[1..] == "";
    ValueClamped("-");
    OneNumberRead("-");
  }

  /** Any integer written in decimal reads as the nearest int. */
  lemma PrintedRead(n: int)
    ensures Read(IntText(n)) == Tree(Json.Number(if n < -0x8000_0000 then -0x8000_0000 else if n > 0x7fff_ffff then 0x7fff_ffff else n))
  {
    hide Read, NumberValue, Digits, Value, IsDigit, NumberLexeme;
    var s, q := IntText(n), if n < 0 then 1 else 0;
    PrintedDigits(n);
    DigitsAreNumeric(s, q);
    DigitsParse(s, q);
    ValueOfDigits(if n < 0 then -n else n);
    OneNumberRead(s);
  }

  /** The least integer too large for an int reads as the largest int. */
  lemma OneTooMany()
    ensures IntText(0x8000_0000) == "2147483648" && Read("2147483648") == Tree(Json.Number(0x7fff_ffff))
  {
    hide Read;
    assert Digits(2) == "2" && Digits(21) == "21" && Digits(214) == "214";
    assert Digits(2147) == "2147" && Digits(21474) == "21474";
    assert Digits(214748) == "214748" && Digits(2147483) == "2147483";
    assert Digits(21474836) == "21474836" && Digits(214748364) == "214748364";
    PrintedRead(0x8000_0000);
  }

  /** What a number is made of besides digits joins a number in front of it, and the document is rejected for the number. */
  lemma CharacterJoins(number: string, c: char)
    requires NumberLexeme(number) && (c in ".eE+-" || c == 0 as char)
    ensures var text := number + [c];
            Read(text) == ParseFailure(BadNumber(TokenAt(text, NumberKind(text), text, 0, |text|)))
  {
    hide Read, NumberValue, StartsNumber, PlaceOf, NumberKind;
    var text := number + [c];
    assert text[0] == number[0];
    assert forall x | x in text :: x in number || x == c;
    assert text[|number|] == c && !IsDigit(c);
    ParsesIff(text);
    OneNumberRead(text);
  }

  /** So does a terminator. */
  lemma TerminatorJoins(number: string)
    requires NumberLexeme(number)
    ensures var text := number + [0 as char];
            Read(text) == ParseFailure(BadNumber(TokenAt(text, NumberKind(text), text, 0, |text|)))
  {
    hide Read, NumberLexeme, PlaceOf, NumberKind;
    CharacterJoins(number, 0 as char);
  }

  // ---------- Doubles ----------

  /** A number with a point anywhere in a document, and the document is rejected. */
  lemma PointRejected(text: string, i: nat)
    requires ScanFrom(text, 0, []).Tokens? && i < |ScanFrom(text, 0, []).tokens|
    requires var token := ScanFrom(text, 0, []).tokens[i]; token.kind in [NumberToken, DoubleToken] && '.' in token.value
    ensures Read(text).ParseFailure?
  {
    hide ScanFrom, ParseAll;
    ScannedNumbers(text, i);
    DoublesRejected(ScanFrom(text, 0, []).tokens, i);
  }

  predicate DoublesFail(ts: seq<Token>) {
    forall i | 0 <= i < |ts| && ts[i].kind == DoubleToken :: NumberValue(ts[i].value) == None
  }

  predicate MakesDouble<T>(r: Parse<T>) {
    r.Rejected? && r.why.DoubleElement?
  }

  lemma {:induction false} ValueMakesNone(ts: seq<Token>, p: nat)
    requires DoublesFail(ts)
    ensures !MakesDouble(ParseValue(ts, p))
    decreases |ts| - p, 1
  {
    hide NumberValue, ParseElements, ParseMembers;
    if p < |ts| {
      ElementsMakeNone(ts, p + 1, []);
      MembersMakeNone(ts, p + 1, []);
    }
  }

  lemma {:induction false} ElementsMakeNone(ts: seq<Token>, p: nat, found: seq<Json>)
    requires DoublesFail(ts)
    ensures !MakesDouble(ParseElements(ts, p, found))
    decreases |ts| - p, 2
  {
    hide DoublesFail, ParseValue;
    ValueMakesNone(ts, p);
    var v := ParseValue(ts, p);
    if v.Parsed? && NextIs(ts, v.next, NextElement) {
      ElementsMakeNone(ts, v.next + 1, found + [v.value]);
    }
  }

  lemma {:induction false} MembersMakeNone(ts: seq<Token>, p: nat, found: seq<Member>)
    requires DoublesFail(ts)
    ensures !MakesDouble(ParseMembers(ts, p, found))
    decreases |ts| - p, 2
  {
    hide DoublesFail, ParseValue, HasName;
    if p + 2 <= |ts| {
      ValueMakesNone(ts, p + 2);
    }
    var m := ParseMember(ts, p);
    if m.Parsed? && NextIs(ts, m.next, NextElement) {
      MembersMakeNone(ts, m.next + 1, found + [m.value]);
    }
  }

  /** No document makes the program build a double: a token with a point is never consumed whole. */
  lemma NoDoubleElement(text: string)
    ensures Read(text).ParseFailure? ==> !Read(text).why.DoubleElement?
  {
    hide ScanFrom, ParseValue, NumberValue;
    var scanned := ScanFrom(text, 0, []);
    if scanned.Tokens? {
      forall i | 0 <= i < |scanned.tokens| && scanned.tokens[i].kind == DoubleToken
        ensures NumberValue(scanned.tokens[i].value) == None
      {
        ScannedNumbers(text, i);
        DoubleNeverParses(scanned.tokens[i].value);
      }
      ValueMakesNone(scanned.tokens, 0);
    }
  }
}
