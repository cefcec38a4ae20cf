/** Strings and words letter by letter: how they are escaped, what escapes are read, and where a scan fails in them. */
module JsonStrings {
  import opened Decimal
  import opened Options
  import opened JsonTree
  import opened JsonScanner
  import opened JsonTiling
  import opened JsonParser
  import opened JsonGrammar
  import opened JsonWriter
  import opened JsonLayout
  import opened JsonPretty
  import opened JsonRoundTrip
  import opened JsonSpacing

  // ---------- Writing ----------

  /** The characters that are escaped, and the letters they are escaped by. */
  const RAW: seq<char> := ['"', '\\', 8 as char, 12 as char, 10 as char, 13 as char, 9 as char]
  const LETTERS := "\"\\bfnrt"

  lemma {:induction false} QuotedConcat(a: string, b: string)
    ensures Quoted(a + b) == Quoted(a) + Quoted(b)
    decreases |a|
  {
    hide EscapeOf;
    if a == "" {
      assert a + b == b;
    } else {
      assert (a + b)[1..] == a[1..] + b;
      QuotedConcat(a[1..], b);
    }
  }

  /** Each of the seven characters is written as a backslash and its letter, every other as it is. */
  lemma CharacterWritten(a: string, c: char, b: string, i: nat)
    ensures i < 7 && c == RAW[i] ==> Quoted(a + [c] + b) == Quoted(a) + ['\\', LETTERS[i]] + Quoted(b)
    ensures c !in RAW ==> Quoted(a + [c] + b) == Quoted(a) + [c] + Quoted(b)
  {
    hide Quoted;
    QuotedConcat(a + [c], b);
    QuotedConcat(a, [c]);
    OneQuoted(c);
    EscapesListed(c, i);
  }

  lemma OneQuoted(c: char)
    ensures Quoted([c]) == EscapeOf(c)
  {
    assert [c][1..] == "";
    assert EscapeOf(c) + "" == EscapeOf(c);
  }

  lemma EscapesListed(c: char, i: nat)
    ensures i < 7 && c == RAW[i] ==> EscapeOf(c) == ['\\', LETTERS[i]]
    ensures c !in RAW ==> EscapeOf(c) == [c]
  {
    if i < 7 && c == RAW[i] {
      assert i == 0 || i == 1 || i == 2 || i == 3 || i == 4 || i == 5 || i == 6;
    }
    assert RAW[0] == '"' && RAW[1] == '\\' && RAW[2] == 8 as char && RAW[3] == 12 as char && RAW[4] == 10 as char
        && RAW[5] == 13 as char && RAW[6] == 9 as char;
  }

  // ---------- Reading ----------

  /** The letters that may follow a backslash, and what each stands for. */
  const ESCAPES := "/\"\\bfnrt"
  const MEANT: seq<char> := ['/', '"', '\\', 8 as char, 12 as char, 10 as char, 13 as char, 9 as char]

  lemma MeaningsListed(c: char, i: nat)
    ensures i < 8 && c == ESCAPES[i] ==> Escaped(c) == Some(MEANT[i])
    ensures c !in ESCAPES <==> Escaped(c) == None
  {
    if i < 8 && c == ESCAPES[i] {
      assert i == 0 || i == 1 || i == 2 || i == 3 || i == 4 || i == 5 || i == 6 || i == 7;
    }
    assert ESCAPES[0] == '/' && ESCAPES[1] == '"' && ESCAPES[2] == '\\' && ESCAPES[3] == 'b' && ESCAPES[4] == 'f'
        && ESCAPES[5] == 'n' && ESCAPES[6] == 'r' && ESCAPES[7] == 't';
  }

  lemma {:induction false} UnescapedConcat(a: string, b: string)
    requires Unescaped(a).Some?
    ensures Unescaped(a + b) == if Unescaped(b).None? then None else Some(Unescaped(a).value + Unescaped(b).value)
    decreases |a|
  {
    hide Escaped;
    var s := a + b;
    if a == "" {
      assert s == b;
      assert Unescaped(b).Some? ==> [] + Unescaped(b).value == Unescaped(b).value;
    } else if a[0] == '\\' {
      assert s[0] == a[0] && s[1] == a[1] && s[2..] == a[2..] + b;
      UnescapedConcat(a[2..], b);
      Prepended([Escaped(a[1]).value], a[2..], b);
    } else {
      assert s[0] == a[0] && s[1..] == a[1..] + b;
      UnescapedConcat(a[1..], b);
      Prepended([a[0]], a[1..], b);
    }
  }

  lemma Prepended(x: string, a: string, b: string)
    requires Unescaped(a).Some?
    ensures Unescaped(b).Some? ==> x + (Unescaped(a).value + Unescaped(b).value) == x + Unescaped(a).value + Unescaped(b).value
  {
    hide Unescaped;
  }

  lemma OneEscape(c: char, i: nat)
    requires i < 8 && c == ESCAPES[i]
    ensures Unescaped(['\\', c]) == Some([MEANT[i]])
  {
    MeaningsListed(c, i);
    assert ['\\', c][2..] == "";
    assert [MEANT[i]] + "" == [MEANT[i]];
  }

  lemma OneRaw(c: char)
    requires c != '"' && c != '\\'
    ensures Unescaped([c]) == Some([c])
  {
    assert [c][1..] == "" && [c] + "" == [c];
  }

  /** A document that is one string, with what its characters stand for. */
  lemma StringRead(body: string)
    requires Unescaped(body).Some?
    ensures Read("\"" + body + "\"") == Tree(Str(Unescaped(body).value))
  {
    hide Unescaped, Tiles, AllSpace, Derives, Yield, Read, PlaceOf, Spells, ScanFrom, Document;
    var text, v := "\"" + body + "\"", Unescaped(body).value;
    assert text[1..|text| - 1] == body;
    StringLexemeOf(text, v);
    assert text[0..|text|] == text && text[|text|..] == "";
    OneTile(text, StringToken, v, 0, |text|);
    TabsAreSpace(0);
    var token := TokenAt(text, StringToken, v, 0, |text|);
    DocumentOf(text, [token], |text|);
    StringDerives([token], v);
    ReadIff(text, Str(v));
  }

  lemma StringLexemeOf(text: string, v: string)
    requires |text| >= 2 && text[0] == '"' == text[|text| - 1] && Unescaped(text[1..|text| - 1]) == Some(v)
    ensures Spells(StringToken, v, text)
  {
  }

  lemma StringDerives(ts: seq<Token>, v: string)
    requires |ts| == 1 && ts[0].kind == StringToken && ts[0].value == v
    ensures Derives(ts, 0, Yield(Str(v)), 1) && WellFormed(Str(v))
  {
    DerivesOne(ts, 0, AnyString(v), 1);
  }

  /** Each of the eight escapes, the slash among them, wherever it stands in a string. */
  lemma EscapeRead(a: string, c: char, b: string, i: nat)
    requires i < 8 && c == ESCAPES[i] && Unescaped(a).Some? && Unescaped(b).Some?
    ensures Read("\"" + (a + (['\\', c] + b)) + "\"") == Tree(Str(Unescaped(a).value + ([MEANT[i]] + Unescaped(b).value)))
  {
    hide Unescaped, Read;
    OneEscape(c, i);
    UnescapedConcat(['\\', c], b);
    UnescapedConcat(a, ['\\', c] + b);
    StringRead(a + (['\\', c] + b));
  }

  /** Any other character stands for itself, line breaks and control characters among them. */
  lemma RawRead(a: string, c: char, b: string)
    requires c != '"' && c != '\\' && Unescaped(a).Some? && Unescaped(b).Some?
    ensures Read("\"" + (a + ([c] + b)) + "\"") == Tree(Str(Unescaped(a).value + ([c] + Unescaped(b).value)))
  {
    hide Unescaped, Read;
    OneRaw(c);
    UnescapedConcat([c], b);
    UnescapedConcat(a, [c] + b);
    StringRead(a + ([c] + b));
  }

  // ---------- Where a scan fails ----------

  /** In a word it fails behind the first character that differs, or where the text ends. */
  lemma {:induction false} WordMiss(text: string, p: nat, word: string) returns (k: nat)
    requires p <= |text| && Expect(text, p, word).Miss?
    ensures k < |word| && p + k <= |text| && text[p..p + k] == word[..k]
    ensures var at := Expect(text, p, word).at;
            if p + k == |text| then at == |text| else text[p + k] != word[k] && at == p + k + 1
    decreases |word|
  {
    if p == |text| || text[p] != word[0] {
      k := 0;
      assert text[p..p] == word[..0];
    } else {
      k := WordMiss(text, p + 1, word[1..]);
      assert text[p..p + 1 + k] == [text[p]] + text[p + 1..p + 1 + k] && word[..1 + k] == [word[0]] + word[1..][..k];
      k := k + 1;
    }
  }

  /**
   * In a string it fails behind an escape that is none of the eight, or where the text ends without a closing quote; what
   * stands in front of that is in order.
   */
  lemma {:induction false} StringMiss(text: string, p: nat, seen: string) returns (b: nat)
    requires p <= |text| && StringBody(text, p, seen).Miss?
    ensures p <= b <= |text| && Unescaped(text[p..b]).Some?
    ensures var at := StringBody(text, p, seen).at;
            || (b + 1 < |text| && at == b + 2 && text[b] == '\\' && text[b + 1] !in ESCAPES)
            || (at == |text| && (b == |text| || (b + 1 == |text| && text[b] == '\\')))
    decreases |text| - p
  {
    hide Escaped;
    if p == |text| {
      b := p;
      assert text[p..p] == "";
    } else if text[p] == '\\' && p + 1 < |text| {
      MeaningsListed(text[p + 1], 0);
      if Escaped(text[p + 1]).None? {
        b := p;
        assert text[p..p] == "";
      } else {
        b := StringMiss(text, p + 2, seen + [Escaped(text[p + 1]).value]);
        var s := text[p..b];
        assert s[0] == text[p] && s[1] == text[p + 1] && s[2..] == text[p + 2..b];
      }
    } else if text[p] == '\\' {
      b := p;
      assert text[p..p] == "";
      AtTheEnd(text, seen + [text[p]]);
    } else {
      b := StringMiss(text, p + 1, seen + [text[p]]);
      var s := text[p..b];
      assert s[0] == text[p] && s[1..] == text[p + 1..b];
    }
  }

  lemma AtTheEnd(text: string, seen: string)
    ensures StringBody(text, |text|, seen) == Miss(|text|)
  {
  }

  /** The characters that a token can begin with. */
  predicate StartsToken(c: char) {
    c in "{}[],:\"tfn-0123456789"
  }

  /** The words that a scan expects, by their first letters. */
  const WORDS := ["true", "false", "null"]

  /**
   * Why a document does not scan: tokens up to m, white space up to b, and there a character that begins no token, a word
   * that goes wrong, or a string that has a wrong escape or no end; the failure names the place given.
   */
  lemma ScanFailureMeans(text: string) returns (ts: seq<Token>, m: nat, b: nat, at: nat)
    requires Read(text).ScanFailure?
    ensures Tiles(text, 0, ts, m) && m <= b < |text| && (forall c | c in text[m..b] :: c in BLANKS)
    ensures at <= |text| && Read(text) == ScanFailure(PlaceOf(text, at))
    ensures || (at == b && text[b] !in BLANKS && !StartsToken(text[b]))
            || (exists w | w in WORDS :: text[b] == w[0] && Expect(text, b, w) == Miss(at))
            || (text[b] == '"' && StringBody(text, b + 1, []) == Miss(at))
  {
    hide ScanFrom, Tiles, AllSpace, PlaceOf, ParseAll, StringBody, Expect;
    ts, m, b := FailingPlace(text, 0, []);
    var one := ScanOne(text, b);
    at := one.at;
    BlankIsSpace(text[m..b]);
    Misses(text, b);
  }

  lemma {:induction false} FailingPlace(text: string, p: nat, found: seq<Token>) returns (ts: seq<Token>, m: nat, b: nat)
    requires p <= |text| && ScanFrom(text, p, found).ScanError?
    ensures Tiles(text, p, ts, m) && m <= b < |text| && AllSpace(text[m..b]) && !IsSpace(text[b])
    ensures ScanOne(text, b).Miss? && ScanFrom(text, p, found) == ScanError(PlaceOf(text, ScanOne(text, b).at))
    decreases |text| - p
  {
    hide ScanOne, AllSpace, Occupies, SkipSpace, PlaceOf;
    var c := SkipSpace(text, p);
    SkipSpaceStops(text, p);
    var one := ScanOne(text, c);
    if one.Miss? {
      ts, m, b := [], p, c;
    } else {
      ScanOneSound(text, c);
      TokenPlaces(text, one.value, c, one.next);
      var rest;
      rest, m, b := FailingPlace(text, one.next, found + [one.value]);
      ts := [one.value] + rest;
      assert ts[1..] == rest;
    }
  }

  lemma Misses(text: string, b: nat)
    requires b < |text| && !IsSpace(text[b]) && ScanOne(text, b).Miss?
    ensures var at := ScanOne(text, b).at;
            || (at == b && text[b] !in BLANKS && !StartsToken(text[b]))
            || (exists w | w in WORDS :: text[b] == w[0] && Expect(text, b, w) == Miss(at))
            || (text[b] == '"' && StringBody(text, b + 1, []) == Miss(at))
  {
    hide *;
    BlankCharacter(text[b]);
    WordsListed(text[b]);
    MissCases(text, b);
    if OneLetterWord(text[b]) {
      OneLetter(text, b);
    }
  }

  predicate OneLetterWord(c: char) {
    c in "{}[],:"
  }

  /** A miss is one of a fixed spelling, of a string, or of a character that begins nothing. */
  lemma MissCases(text: string, b: nat)
    requires b < |text| && ScanOne(text, b).Miss?
    ensures var at := ScanOne(text, b).at;
            || (Fixed(text[b]).Some? && Expect(text, b, Fixed(text[b]).value.1) == Miss(at))
            || (text[b] == '"' && StringBody(text, b + 1, []) == Miss(at))
            || (Fixed(text[b]).None? && text[b] != '"' && !StartsNumber(text[b]) && at == b)
  {
    hide StringBody, PlaceOf, Fixed, StartsNumber, NumberEnd, Expect;
  }

  lemma WordsListed(c: char)
    ensures Fixed(c).None? && c != '"' && !StartsNumber(c) ==> !StartsToken(c)
    ensures Fixed(c).Some? ==> if OneLetterWord(c) then Fixed(c).value.1 == [c]
                               else Fixed(c).value.1 in WORDS && Fixed(c).value.1 != "" && Fixed(c).value.1[0] == c
    ensures forall w | w in WORDS :: w != ""
  {
    DigitsListed(c);
    FixedListed(c);
    assert WORDS[0] in WORDS && WORDS[1] in WORDS && WORDS[2] in WORDS;
    assert forall w | w in WORDS :: w == WORDS[0] || w == WORDS[1] || w == WORDS[2];
  }

  lemma OneLetter(text: string, b: nat)
    requires b < |text|
    ensures Expect(text, b, [text[b]]).Hit?
  {
    assert text[b..b + 1] == [text[b]];
  }

  lemma FixedListed(c: char)
    ensures Fixed(c).Some? <==> c in "{}[],:tfn"
    ensures c in "{}[],:" ==> Fixed(c).value.1 == [c]
    ensures (c == 't' ==> Fixed(c).value.1 == "true") && (c == 'f' ==> Fixed(c).value.1 == "false")
    ensures c == 'n' ==> Fixed(c).value.1 == "null"
  {
  }
}
