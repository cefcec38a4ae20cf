/** The scanner accepts exactly the documents that its tokens tile, and yields exactly those tokens. */
module JsonTiling {
  import opened Decimal
  import opened Options
  import opened JsonScanner

  lemma SubSlice(s: string, b: nat, e: nat, i: nat, j: nat)
    requires b <= e <= |s| && i <= j <= e - b
    ensures s[b..e][i..j] == s[b + i..b + j]
  {
    var x, y := s[b..e][i..j], s[b + i..b + j];
    assert forall k | 0 <= k < j - i :: x[k] == y[k];
  }

  // ---------- White space ----------

  lemma {:induction false} SkipSpaceStops(s: string, p: nat)
    requires p <= |s|
    ensures AllSpace(s[p..SkipSpace(s, p)])
    ensures SkipSpace(s, p) < |s| ==> !IsSpace(s[SkipSpace(s, p)])
    decreases |s| - p
  {
    if p < |s| && IsSpace(s[p]) {
      SkipSpaceStops(s, p + 1);
      assert s[p..SkipSpace(s, p)] == [s[p]] + s[p + 1..SkipSpace(s, p)];
    }
  }

  lemma {:induction false} SkipSpaceFinds(s: string, p: nat, b: nat)
    requires p <= b <= |s| && AllSpace(s[p..b]) && (b < |s| ==> !IsSpace(s[b]))
    ensures SkipSpace(s, p) == b
    decreases b - p
  {
    if p < b {
      assert s[p] == s[p..b][0] && s[p..b][1..] == s[p + 1..b];
      SkipSpaceFinds(s, p + 1, b);
    }
  }

  // ---------- Strings and numbers ----------

  lemma {:induction false} BodySound(text: string, p: nat, seen: string)
    requires p <= |text| && StringBody(text, p, seen).Hit?
    ensures var m := StringBody(text, p, seen);
            text[m.next - 1] == '"' && Unescaped(text[p..m.next - 1]).Some?
            && m.value == seen + Unescaped(text[p..m.next - 1]).value
    decreases |text| - p
  {
    hide Escaped;
    var m := StringBody(text, p, seen);
    var body := text[p..m.next - 1];
    if text[p] == '"' {
      assert body == [];
    } else if text[p] == '\\' && p + 1 < |text| {
      BodySound(text, p + 2, seen + [Escaped(text[p + 1]).value]);
      assert body[0] == '\\' && body[1] == text[p + 1] && body[2..] == text[p + 2..m.next - 1];
    } else {
      BodySound(text, p + 1, seen + [text[p]]);
      assert body[0] == text[p] && body[1..] == text[p + 1..m.next - 1];
    }
  }

  lemma {:induction false} BodyComplete(text: string, p: nat, e: nat, seen: string)
    requires p <= e < |text| && text[e] == '"' && Unescaped(text[p..e]).Some?
    ensures StringBody(text, p, seen) == Hit(seen + Unescaped(text[p..e]).value, e + 1)
    decreases e - p
  {
    hide Escaped;
    var body := text[p..e];
    if p < e {
      assert body[0] == text[p];
      if text[p] == '\\' {
        assert body[1] == text[p + 1] && body[2..] == text[p + 2..e];
        var x := Escaped(text[p + 1]).value;
        BodyComplete(text, p + 2, e, seen + [x]);
        assert seen + [x] + Unescaped(text[p + 2..e]).value == seen + ([x] + Unescaped(text[p + 2..e]).value);
      } else {
        assert body[1..] == text[p + 1..e];
        BodyComplete(text, p + 1, e, seen + [text[p]]);
        assert seen + [text[p]] + Unescaped(text[p + 1..e]).value == seen + ([text[p]] + Unescaped(text[p + 1..e]).value);
      }
    } else {
      assert body == [] && seen + [] == seen;
    }
  }

  lemma {:induction false} NumberComplete(text: string, p: nat, e: nat)
    requires p <= e <= |text| && (forall i | p <= i < e :: IsNumeric(text[i])) && (e == |text| || !IsNumeric(text[e]))
    ensures NumberEnd(text, p) == e
    decreases e - p
  {
    if p < e {
      NumberComplete(text, p + 1, e);
    }
  }

  lemma FirstCharacters(c: char)
    ensures Fixed(c).Some? ==> !IsSpace(c) && c != '"' && !StartsNumber(c)
    ensures Fixed(c).Some? ==> Fixed(c).value.1 != "" && Fixed(c).value.1[0] == c
    ensures Fixed(c).Some? ==> Fixed(c).value.0 !in [StringToken, NumberToken, DoubleToken]
    ensures StartsNumber(c) ==> IsNumeric(c) && !IsSpace(c) && c != '"'
  {
  }

  // ---------- One token ----------

  lemma StringSound(text: string, p: nat)
    requires p < |text| && text[p] == '"' && StringBody(text, p + 1, []).Hit?
    ensures var m := StringBody(text, p + 1, []); Spells(StringToken, m.value, text[p..m.next])
  {
    hide StringBody, Unescaped;
    var m := StringBody(text, p + 1, []);
    BodySound(text, p + 1, []);
    Inside(text, p, m.next);
    var v := Unescaped(text[p + 1..m.next - 1]).value;
    assert m.value == [] + v == v;
  }

  lemma FixedSound(text: string, p: nat)
    requires p < |text| && Fixed(text[p]).Some?
    requires var spelling := Fixed(text[p]).value.1; p + |spelling| <= |text| && text[p..p + |spelling|] == spelling
    ensures var (kind, spelling) := Fixed(text[p]).value;
            Occupies(text, TokenAt(text, kind, spelling, p, p + |spelling|), p, p + |spelling|)
  {
    hide Fixed, PlaceOf, IsNumeric, StartsNumber, Unescaped;
    FirstCharacters(text[p]);
    assert Fixed(text[p]).value.1[0] == text[p];
  }

  /** A run of numeric characters with a proper start is the lexeme of a number. */
  lemma RunIsLexeme(text: string, p: nat, e: nat)
    requires p < e <= |text| && StartsNumber(text[p]) && forall i | p <= i < e :: IsNumeric(text[i])
    ensures NumberLexeme(text[p..e]) && Spells(NumberKind(text[p..e]), text[p..e], text[p..e])
  {
    hide IsNumeric, StartsNumber, Unescaped;
    var s := text[p..e];
    assert s[0] == text[p] && forall k | 0 <= k < |s| :: s[k] == text[p + k];
  }

  lemma NumberSound(text: string, p: nat)
    requires p < |text| && StartsNumber(text[p])
    ensures var e := NumberEnd(text, p);
            && p < e
            && Occupies(text, TokenAt(text, NumberKind(text[p..e]), text[p..e], p, e), p, e)
  {
    hide NumberEnd, PlaceOf, IsNumeric, StartsNumber, Spells;
    FirstCharacters(text[p]);
    NumberLongest(text, p);
    RunIsLexeme(text, p, NumberEnd(text, p));
  }

  lemma ScanOneSound(text: string, p: nat)
    requires p < |text| && ScanOne(text, p).Hit?
    ensures var m := ScanOne(text, p); Occupies(text, m.value, p, m.next)
  {
    hide StringBody, NumberEnd, PlaceOf, Fixed, IsNumeric, StartsNumber, Spells, Expect, NumberKind;
    if Fixed(text[p]).Some? {
      FixedSound(text, p);
    } else if text[p] == '"' {
      StringSound(text, p);
    } else {
      NumberSound(text, p);
    }
  }

  lemma Inside(text: string, b: nat, e: nat)
    requires b + 2 <= e <= |text|
    ensures var lexeme := text[b..e];
            lexeme[0] == text[b] && lexeme[|lexeme| - 1] == text[e - 1] && lexeme[1..|lexeme| - 1] == text[b + 1..e - 1]
  {
    SubSlice(text, b, e, 1, e - b - 1);
  }

  lemma NumberLongest(text: string, p: nat)
    requires p < |text| && IsNumeric(text[p])
    ensures p < NumberEnd(text, p)
  {
  }

  lemma StringShape(value: string, lexeme: string)
    requires Spells(StringToken, value, lexeme)
    ensures |lexeme| >= 2 && lexeme[0] == '"' == lexeme[|lexeme| - 1]
    ensures Unescaped(lexeme[1..|lexeme| - 1]) == Some(value)
  {
    hide Unescaped;
  }

  lemma StringComplete(text: string, value: string, b: nat, e: nat)
    requires b < e <= |text| && Spells(StringToken, value, text[b..e])
    ensures text[b] == '"' && StringBody(text, b + 1, []) == Hit(value, e)
  {
    hide *;
    StringShape(value, text[b..e]);
    Inside(text, b, e);
    BodyComplete(text, b + 1, e - 1, []);
    assert [] + value == value;
  }

  lemma NumberTokenComplete(text: string, b: nat, e: nat)
    requires b < e <= |text| && NumberLexeme(text[b..e]) && (e == |text| || !IsNumeric(text[e]))
    ensures StartsNumber(text[b]) && NumberEnd(text, b) == e
  {
    hide IsNumeric, StartsNumber, NumberEnd;
    var lexeme := text[b..e];
    assert forall i | b <= i < e :: text[i] == lexeme[i - b] && text[i] in lexeme;
    NumberComplete(text, b, e);
  }

  lemma ScanOneComplete(text: string, token: Token, b: nat, e: nat)
    requires Occupies(text, token, b, e)
    ensures ScanOne(text, b) == Hit(token, e) && !IsSpace(text[b])
  {
    hide StringBody, NumberEnd, PlaceOf, Fixed, IsNumeric, StartsNumber, Unescaped, IsSpace;
    var c := text[b];
    assert text[b..e][0] == c;
    FirstCharacters(c);
    QuoteApart();
    match token.kind
    case StringToken => StringComplete(text, token.value, b, e);
    case NumberToken => NumberTokenComplete(text, b, e);
    case DoubleToken => NumberTokenComplete(text, b, e);
    case _ =>
  }

  lemma QuoteApart()
    ensures Fixed('"') == None && !StartsNumber('"') && !IsSpace('"')
  {
  }

  // ---------- The whole document ----------

  lemma {:induction false} ScanSound(text: string, p: nat, found: seq<Token>) returns (rest: seq<Token>, q: nat)
    requires p <= |text| && ScanFrom(text, p, found).Tokens?
    ensures ScanFrom(text, p, found).tokens == found + rest
    ensures Tiles(text, p, rest, q) && q <= |text| && AllSpace(text[q..])
    decreases |text| - p
  {
    hide ScanOne, AllSpace, Occupies, SkipSpace;
    var b := SkipSpace(text, p);
    SkipSpaceStops(text, p);
    if b == |text| {
      rest, q := [], p;
      assert text[p..] == text[p..b];
    } else {
      var m := ScanOne(text, b);
      ScanOneSound(text, b);
      var more;
      more, q := ScanSound(text, m.next, found + [m.value]);
      rest := [m.value] + more;
      TokenPlaces(text, m.value, b, m.next);
      assert rest[1..] == more;
    }
  }

  lemma TokenPlaces(text: string, token: Token, b: nat, e: nat)
    requires Occupies(text, token, b, e)
    ensures token.begin.docOffset == b < e == token.end.docOffset <= |text|
  {
    hide Spells;
    PlaceMeaning(text, b);
    PlaceMeaning(text, e);
  }

  lemma {:induction false} ScanComplete(text: string, p: nat, tokens: seq<Token>, q: nat, found: seq<Token>)
    requires p <= |text| && Tiles(text, p, tokens, q) && q <= |text| && AllSpace(text[q..])
    ensures ScanFrom(text, p, found) == Tokens(found + tokens)
    decreases |tokens|
  {
    hide ScanOne, AllSpace, Occupies, SkipSpace;
    if tokens == [] {
      assert text[p..] == text[p..|text|];
      SkipSpaceFinds(text, p, |text|);
    } else {
      var b, e := tokens[0].begin.docOffset, tokens[0].end.docOffset;
      TokenPlaces(text, tokens[0], b, e);
      ScanOneComplete(text, tokens[0], b, e);
      SkipSpaceFinds(text, p, b);
      ScanComplete(text, e, tokens[1..], q, found + [tokens[0]]);
      assert found + [tokens[0]] + tokens[1..] == found + tokens;
    }
  }

  /**
   * Scanning a text yields these tokens exactly when they tile it: in order, disjoint, each spelled as its kind
   * demands and at the place it records, with nothing but white space between, before and behind.
   */
  lemma ScanIff(text: string, tokens: seq<Token>)
    ensures ScanFrom(text, 0, []) == Tokens(tokens) <==> Document(text, tokens)
  {
    hide ScanFrom, Tiles, AllSpace;
    if ScanFrom(text, 0, []) == Tokens(tokens) {
      var rest, q := ScanSound(text, 0, []);
      assert [] + rest == rest;
    }
    if Document(text, tokens) {
      var q: nat :| Tiles(text, 0, tokens, q) && q <= |text| && AllSpace(text[q..]);
      ScanComplete(text, 0, tokens, q, []);
      assert [] + tokens == tokens;
    }
  }

  // ---------- Putting tilings together ----------

  lemma {:induction false} TilesConcat(text: string, p: nat, a: seq<Token>, q: nat, b: seq<Token>, r: nat)
    requires Tiles(text, p, a, q) && Tiles(text, q, b, r)
    ensures Tiles(text, p, a + b, r)
    decreases |a|
  {
    hide Occupies, AllSpace;
    if a == [] {
      assert a + b == b;
    } else {
      assert (a + b)[1..] == a[1..] + b;
      TilesConcat(text, a[0].end.docOffset, a[1..], q, b, r);
    }
  }

  /** White space in front of a tiling belongs to it. */
  lemma SpaceThenTiles(text: string, p: nat, b: nat, tokens: seq<Token>, q: nat)
    requires p <= b <= |text| && AllSpace(text[p..b]) && tokens != [] && Tiles(text, b, tokens, q)
    ensures Tiles(text, p, tokens, q)
  {
    hide Occupies;
    var c := tokens[0].begin.docOffset;
    TokenPlaces(text, tokens[0], c, tokens[0].end.docOffset);
    assert text[p..c] == text[p..b] + text[b..c];
  }

  /** A single token where it stands. */
  lemma OneTile(text: string, kind: Kind, value: string, b: nat, e: nat)
    requires b < e <= |text| && Spells(kind, value, text[b..e])
    requires kind.NumberToken? || kind.DoubleToken? ==> e == |text| || !IsNumeric(text[e])
    ensures Tiles(text, b, [TokenAt(text, kind, value, b, e)], e)
  {
    hide Spells;
    var token := TokenAt(text, kind, value, b, e);
    TokenPlaces(text, token, b, e);
    assert text[b..b] == [];
    assert [token][1..] == [];
  }

  /** Every token of a tiling is spelled as its kind demands. */
  lemma {:induction false} TilesSpelled(text: string, p: nat, tokens: seq<Token>, q: nat, i: nat)
    requires Tiles(text, p, tokens, q) && i < |tokens|
    ensures exists b: nat, e: nat :: b < e <= |text| && Spells(tokens[i].kind, tokens[i].value, text[b..e])
    decreases |tokens|
  {
    hide Spells, AllSpace;
    if i > 0 {
      TilesSpelled(text, tokens[0].end.docOffset, tokens[1..], q, i - 1);
    }
  }

  /** Numbers are told from doubles by the point. */
  lemma ScannedNumbers(text: string, i: nat)
    requires ScanFrom(text, 0, []).Tokens? && i < |ScanFrom(text, 0, []).tokens|
    ensures var token := ScanFrom(text, 0, []).tokens[i];
            token.kind == DoubleToken <==> token.kind in [NumberToken, DoubleToken] && '.' in token.value
  {
    hide ScanFrom, Tiles, AllSpace, NumberLexeme;
    var tokens := ScanFrom(text, 0, []).tokens;
    var rest, q := ScanSound(text, 0, []);
    assert [] + rest == rest;
    TilesSpelled(text, 0, tokens, q, i);
  }

  lemma {:induction false} TilesPlaced(text: string, x: nat, ts: seq<Token>, q: nat, i: nat)
    requires Tiles(text, x, ts, q) && i < |ts|
    ensures var b, e := ts[i].begin.docOffset, ts[i].end.docOffset;
            && x <= b < e <= |text| && ts[i].begin == PlaceOf(text, b) && ts[i].end == PlaceOf(text, e)
            && Spells(ts[i].kind, ts[i].value, text[b..e])
    decreases |ts|
  {
    hide PlaceOf, Spells, AllSpace, IsNumeric;
    if i > 0 {
      TilesPlaced(text, ts[0].end.docOffset, ts[1..], q, i - 1);
    }
  }

  /** Each token of a document carries the line, the column and the offset of its first character and of its end. */
  lemma ScannedPlaces(text: string, i: nat)
    requires ScanFrom(text, 0, []).Tokens? && i < |ScanFrom(text, 0, []).tokens|
    ensures var token := ScanFrom(text, 0, []).tokens[i];
            var b, e := token.begin.docOffset, token.end.docOffset;
            && b < e <= |text| && token.begin == PlaceOf(text, b) && token.end == PlaceOf(text, e)
            && Spells(token.kind, token.value, text[b..e])
  {
    hide ScanFrom, Tiles, AllSpace, Spells, PlaceOf;
    var tokens := ScanFrom(text, 0, []).tokens;
    var rest, q := ScanSound(text, 0, []);
    assert [] + rest == rest;
    TilesPlaced(text, 0, tokens, q, i);
  }
}
