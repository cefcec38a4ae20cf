/** White space between tokens: which characters it is made of, and that it never changes what is read. */
module JsonSpacing {
  import opened Decimal
  import opened Options
  import opened JsonTree
  import opened JsonScanner
  import opened JsonTiling
  import opened JsonParser
  import opened JsonGrammar
  import opened JsonWriter
  import opened JsonLayout
  import opened JsonPretty
  import opened JsonRoundTrip

  predicate Blank(s: string) {
    forall c | c in s :: c in BLANKS
  }

  lemma BlankIsSpace(s: string)
    ensures AllSpace(s) <==> Blank(s)
  {
    forall c: char
      ensures IsSpace(c) <==> c in BLANKS
    {
      BlankCharacter(c);
    }
  }

  lemma BlankCharacter(c: char)
    ensures IsSpace(c) <==> c in BLANKS
    ensures c in BLANKS ==> !IsNumeric(c)
  {
  }

  // ---------- Tokens of a changed text ----------

  predicate SameTokens(a: seq<Token>, b: seq<Token>) {
    |a| == |b| && forall i | 0 <= i < |a| :: a[i].kind == b[i].kind && a[i].value == b[i].value
  }

  lemma SameDerives(a: seq<Token>, b: seq<Token>, y: seq<Terminal>)
    requires SameTokens(a, b) && Derives(a, 0, y, |a|)
    ensures Derives(b, 0, y, |b|)
  {
    forall i | 0 <= i < |y|
      ensures Fits(b[0 + i], y[i])
    {
      assert Fits(a[0 + i], y[i]);
    }
  }

  lemma {:induction false} PlaceKept(text: string, text': string, p: nat)
    requires p <= |text| && p <= |text'| && text[..p] == text'[..p]
    ensures PlaceOf(text, p) == PlaceOf(text', p)
  {
    if p > 0 {
      assert text[p - 1] == text[..p][p - 1] && text'[p - 1] == text'[..p][p - 1];
      assert text[..p][..p - 1] == text[..p - 1] && text'[..p][..p - 1] == text'[..p - 1];
      PlaceKept(text, text', p - 1);
    }
  }

  predicate IsNumber(token: Token) {
    token.kind.NumberToken? || token.kind.DoubleToken?
  }

  /** A token in front of the place where two texts part. */
  lemma OccupiesKept(text: string, text': string, p: nat, token: Token, b: nat, e: nat)
    requires Occupies(text, token, b, e) && e <= p <= |text| && p <= |text'| && text[..p] == text'[..p]
    requires e == p && IsNumber(token) ==> e == |text'| || !IsNumeric(text'[e])
    ensures Occupies(text', token, b, e)
  {
    hide Spells, PlaceOf, IsNumeric;
    SameBelow(text, text', p);
    PlaceKept(text, text', b);
    PlaceKept(text, text', e);
    assert text[b..e] == text'[b..e];
  }

  lemma SameBelow(text: string, text': string, p: nat)
    requires p <= |text| && p <= |text'| && text[..p] == text'[..p]
    ensures forall k | 0 <= k < p :: text[k] == text'[k]
    ensures forall k: nat | k <= p :: text[..k] == text'[..k]
  {
    assert forall k | 0 <= k < p :: text[k] == text[..p][k] && text'[k] == text'[..p][k];
  }

  lemma {:induction false} TilesKept(text: string, text': string, p: nat, x: nat, ts: seq<Token>, m: nat)
    requires Tiles(text, x, ts, m) && m <= p <= |text| && p <= |text'| && text[..p] == text'[..p]
    requires ts != [] && m == p && IsNumber(ts[|ts| - 1]) ==> p == |text'| || !IsNumeric(text'[p])
    ensures Tiles(text', x, ts, m)
    decreases |ts|
  {
    hide Occupies, AllSpace, IsNumeric;
    if ts != [] {
      var b, e := ts[0].begin.docOffset, ts[0].end.docOffset;
      TokenPlaces(text, ts[0], b, e);
      TilesForward(text, e, ts[1..], m);
      assert ts[1..] != [] ==> ts[1..][|ts| - 2] == ts[|ts| - 1];
      OccupiesKept(text, text', p, ts[0], b, e);
      SameBelow(text, text', p);
      assert text[x..b] == text'[x..b];
      TilesKept(text, text', p, e, ts[1..], m);
    }
  }

  lemma {:induction false} TilesForward(text: string, x: nat, ts: seq<Token>, m: nat)
    requires Tiles(text, x, ts, m)
    ensures x <= m <= |text| && (ts != [] ==> x < m)
    decreases |ts|
  {
    hide Occupies, AllSpace;
    if ts != [] {
      TokenPlaces(text, ts[0], ts[0].begin.docOffset, ts[0].end.docOffset);
      TilesForward(text, ts[0].end.docOffset, ts[1..], m);
    }
  }

  /** Behind the place where a text was pushed back by n, the tokens are the same, n further on. */
  lemma {:induction false} TilesMoved(text: string, text': string, p: nat, n: nat, x: nat, ts: seq<Token>, q: nat)
    returns (ts': seq<Token>)
    requires p <= x && Tiles(text, x, ts, q) && p <= |text| && |text'| == |text| + n && text'[p + n..] == text[p..]
    ensures SameTokens(ts, ts') && Tiles(text', x + n, ts', q + n)
    decreases |ts|
  {
    hide Occupies, AllSpace;
    ts' := [];
    if ts != [] {
      var b, e := ts[0].begin.docOffset, ts[0].end.docOffset;
      TokenPlaces(text, ts[0], b, e);
      var rest := TilesMoved(text, text', p, n, e, ts[1..], q);
      var moved := OccupiesMoved(text, text', p, n, ts[0], b, e);
      TokenPlaces(text', moved, b + n, e + n);
      SliceMoved(text, text', p, n, x, b);
      ts' := [moved] + rest;
      assert ts'[1..] == rest;
    }
  }

  lemma SliceMoved(text: string, text': string, p: nat, n: nat, b: nat, e: nat)
    requires p <= b <= e <= |text| && |text'| == |text| + n && text'[p + n..] == text[p..]
    ensures text'[b + n..e + n] == text[b..e] && (e < |text| ==> text'[e + n] == text[e])
  {
    assert forall k | p <= k < |text| :: text'[k + n] == text'[p + n..][k - p] && text[k] == text[p..][k - p];
  }

  lemma OccupiesMoved(text: string, text': string, p: nat, n: nat, token: Token, b: nat, e: nat) returns (moved: Token)
    requires Occupies(text, token, b, e) && p <= b && |text'| == |text| + n && text'[p + n..] == text[p..]
    ensures Occupies(text', moved, b + n, e + n) && moved.kind == token.kind && moved.value == token.value
  {
    hide Spells, PlaceOf, IsNumeric;
    SliceMoved(text, text', p, n, b, e);
    moved := TokenAt(text', token.kind, token.value, b + n, e + n);
  }

  // ---------- White space anywhere between the tokens ----------

  /** The place lies in no token. */
  predicate Between(ts: seq<Token>, p: nat) {
    forall i | 0 <= i < |ts| :: !(ts[i].begin.docOffset < p < ts[i].end.docOffset)
  }

  /** The tokens in front of such a place, and those behind it. */
  lemma {:induction false} TilesSplit(text: string, x: nat, ts: seq<Token>, q: nat, p: nat) returns (k: nat, m: nat)
    requires Tiles(text, x, ts, q) && x <= p && Between(ts, p)
    ensures k <= |ts| && Tiles(text, x, ts[..k], m) && Tiles(text, m, ts[k..], q) && m <= p
    ensures k < |ts| ==> p <= ts[k].begin.docOffset
    ensures x <= m
    decreases |ts|
  {
    hide Occupies, AllSpace;
    k, m := 0, x;
    TilesForward(text, x, ts, q);
    assert ts[0..] == ts && ts[..0] == [];
    if ts != [] && ts[0].begin.docOffset < p {
      var e := ts[0].end.docOffset;
      TokenPlaces(text, ts[0], ts[0].begin.docOffset, e);
      assert Between(ts[1..], p) by { assert forall i | 0 <= i < |ts| - 1 :: ts[1..][i] == ts[i + 1]; }
      k, m := TilesSplit(text, e, ts[1..], q, p);
      assert ts[..k + 1][1..] == ts[1..][..k] && ts[..k + 1][0] == ts[0] && ts[k + 1..] == ts[1..][k..];
      assert k < |ts| - 1 ==> ts[1..][k] == ts[k + 1];
      k := k + 1;
    }
  }

  /** Where the tokens behind the place begin, or the white space at the end. */
  lemma SpaceBefore(text: string, m: nat, ts: seq<Token>, q: nat, p: nat)
    requires Tiles(text, m, ts, q) && m <= p <= |text| && q <= |text| && AllSpace(text[q..])
    requires ts != [] ==> p <= ts[0].begin.docOffset
    ensures AllSpace(text[m..p])
    ensures if ts == [] then AllSpace(text[p..]) else Tiles(text, p, ts, q)
  {
    hide Occupies;
    if ts == [] {
      SpaceSplit(text, m, p, |text|);
      assert text[m..] == text[m..|text|] && text[p..] == text[p..|text|];
    } else {
      var b := ts[0].begin.docOffset;
      TokenPlaces(text, ts[0], b, ts[0].end.docOffset);
      SpaceSplit(text, m, p, b);
    }
  }

  lemma SpaceSplit(text: string, m: nat, p: nat, b: nat)
    requires m <= p <= b <= |text|
    ensures AllSpace(text[m..b]) <==> AllSpace(text[m..p]) && AllSpace(text[p..b])
  {
    assert text[m..b] == text[m..p] + text[p..b];
  }

  /** A text with more in it at p. */
  function Inserted(text: string, p: nat, s: string): (r: string)
    requires p <= |text|
    ensures |r| == |text| + |s| && r[..p] == text[..p] && r[p..p + |s|] == s && r[p + |s|..] == text[p..]
  {
    text[..p] + s + text[p..]
  }

  /**
   * White space, a run of any of its six characters, in front of, behind or between the tokens of a document does not
   * change the tree that is read.
   */
  lemma BlanksIgnored(text: string, t: Json, p: nat, s: string)
    requires Read(text) == Tree(t) && p <= |text| && Between(ScanFrom(text, 0, []).tokens, p)
    requires forall c | c in s :: c in BLANKS
    ensures Read(Inserted(text, p, s)) == Tree(t)
  {
    hide ScanFrom, Tiles, AllSpace, Derives, Yield, WellFormed, ParseValue, Inserted, Between, IsNumeric, Document;
    var text' := Inserted(text, p, s);
    if s == "" {
      assert text' == text by { NothingInserted(text, p); }
    } else {
      var ts := ScanFrom(text, 0, []).tokens;
      ScanIff(text, ts);
      ParseIff(ts, t);
      var q := DocumentEnd(text, ts);
      var ts' := InsertedTiles(text, p, s, ts, q);
      SameDerives(ts, ts', Yield(t));
      ReadIff(text', t);
    }
  }

  lemma DocumentEnd(text: string, ts: seq<Token>) returns (q: nat)
    requires Document(text, ts)
    ensures Tiles(text, 0, ts, q) && q <= |text| && AllSpace(text[q..])
  {
    hide Tiles, AllSpace;
    q :| Tiles(text, 0, ts, q) && q <= |text| && AllSpace(text[q..]);
  }

  lemma NothingInserted(text: string, p: nat)
    requires p <= |text|
    ensures Inserted(text, p, "") == text
  {
  }

  lemma InsertedTiles(text: string, p: nat, s: string, ts: seq<Token>, q: nat) returns (ts': seq<Token>)
    requires Tiles(text, 0, ts, q) && q <= |text| && AllSpace(text[q..])
    requires p <= |text| && Between(ts, p) && s != "" && Blank(s)
    ensures SameTokens(ts, ts') && Document(Inserted(text, p, s), ts')
  {
    hide Tiles, AllSpace, Occupies, Inserted, Between, IsNumeric, PlaceOf, Spells;
    var text', n := Inserted(text, p, s), |s|;
    BlankIsSpace(s);
    var k, m := TilesSplit(text, 0, ts, q, p);
    SpaceBefore(text, m, ts[k..], q, p);
    assert text'[p] == s[0] && s[0] in s by { assert text'[p] == text'[p..p + n][0]; }
    BlankCharacter(s[0]);
    TilesKept(text, text', p, 0, ts[..k], m);
    SameBelow(text, text', p);
    assert text'[m..p] == text[m..p];
    SpaceSplit(text', m, p, p + n);
    assert ts == ts[..k] + ts[k..];
    if k == |ts| {
      assert ts[..k] == ts;
      ts' := ts;
      SpaceBehind(text, text', p, n, ts, m);
    } else {
      ts' := MovedBehind(text, text', p, n, ts[..k], m, ts[k..], q);
    }
  }

  /** Nothing but white space follows. */
  lemma SpaceBehind(text: string, text': string, p: nat, n: nat, ts: seq<Token>, m: nat)
    requires p <= |text| && |text'| == |text| + n && text'[p + n..] == text[p..] && AllSpace(text[p..])
    requires m <= p && Tiles(text', 0, ts, m) && AllSpace(text'[m..p + n])
    ensures Document(text', ts)
  {
    hide Tiles, AllSpace;
    assert text'[p + n..|text'|] == text[p..] && text'[m..] == text'[m..|text'|];
    SpaceSplit(text', m, p + n, |text'|);
    DocumentOf(text', ts, m);
  }

  /** Tokens follow, further back than they were. */
  lemma MovedBehind(text: string, text': string, p: nat, n: nat, a: seq<Token>, m: nat, b: seq<Token>, q: nat)
    returns (ts': seq<Token>)
    requires p <= |text| && |text'| == |text| + n && text'[p + n..] == text[p..]
    requires m <= p && Tiles(text', 0, a, m) && AllSpace(text'[m..p + n])
    requires b != [] && Tiles(text, p, b, q) && q <= |text| && AllSpace(text[q..])
    ensures SameTokens(a + b, ts') && Document(text', ts')
  {
    hide Tiles, AllSpace;
    TilesForward(text, p, b, q);
    var rest := TilesMoved(text, text', p, n, p, b, q);
    SpaceThenTiles(text', m, p + n, rest, q + n);
    TilesConcat(text', 0, a, m, rest, q + n);
    ts' := a + rest;
    SliceMoved(text, text', p, n, q, |text|);
    assert text'[q + n..] == text'[q + n..|text| + n] && text[q..] == text[q..|text|];
    DocumentOf(text', ts', q + n);
  }

  // ---------- Any other character between the tokens ----------

  lemma {:induction false} ScanTiled(text: string, x: nat, ts: seq<Token>, m: nat, found: seq<Token>)
    requires Tiles(text, x, ts, m) && x <= |text|
    ensures m <= |text| && ScanFrom(text, x, found) == ScanFrom(text, m, found + ts)
    decreases |ts|
  {
    hide ScanOne, AllSpace, Occupies, SkipSpace;
    if ts == [] {
      assert found + ts == found;
    } else {
      var b, e := ts[0].begin.docOffset, ts[0].end.docOffset;
      TokenPlaces(text, ts[0], b, e);
      ScanOneComplete(text, ts[0], b, e);
      SkipSpaceFinds(text, x, b);
      ScanTiled(text, e, ts[1..], m, found + [ts[0]]);
      assert found + [ts[0]] + ts[1..] == found + ts;
    }
  }

  /** A number ends at this place. */
  predicate NumberEndsAt(ts: seq<Token>, p: nat) {
    exists i | 0 <= i < |ts| :: IsNumber(ts[i]) && ts[i].end.docOffset == p
  }

  /**
   * A character that is not white space and begins no token makes the scan fail there, unless it stands directly behind
   * a number and is one of those that a number is made of.
   */
  lemma StrayCharacter(text: string, p: nat, c: char)
    requires ScanFrom(text, 0, []).Tokens? && p <= |text| && Between(ScanFrom(text, 0, []).tokens, p)
    requires c !in BLANKS && c !in "{}[],:\"tfn-0123456789"
    requires NumberEndsAt(ScanFrom(text, 0, []).tokens, p) ==> c !in ".eE+" && c != 0 as char
    ensures Read(Inserted(text, p, [c])) == ScanFailure(PlaceOf(Inserted(text, p, [c]), p))
  {
    hide ScanFrom, Tiles, AllSpace, Inserted, Between, ParseAll, PlaceOf, NumberEndsAt;
    var text', ts := Inserted(text, p, [c]), ScanFrom(text, 0, []).tokens;
    var rest, q := ScanSound(text, 0, []);
    assert [] + rest == rest;
    var k, m := TilesSplit(text, 0, ts, q, p);
    SpaceBefore(text, m, ts[k..], q, p);
    assert text'[p] == c by { assert text'[p] == text'[p..p + 1][0]; }
    Misfit(c);
    if k > 0 && IsNumber(ts[k - 1]) && m == p {
      LastEnds(text, 0, ts[..k], m);
      assert NumberEndsAt(ts, p) by { EndsHere(ts, k - 1, p); }
    }
    TilesKept(text, text', p, 0, ts[..k], m);
    SameBelow(text, text', p);
    assert text'[m..p] == text[m..p];
    ScanTiled(text', 0, ts[..k], m, []);
    SkipSpaceFinds(text', m, p);
    ScanStops(text', m, p, [] + ts[..k]);
  }

  lemma EndsHere(ts: seq<Token>, i: nat, p: nat)
    requires i < |ts| && IsNumber(ts[i]) && ts[i].end.docOffset == p
    ensures NumberEndsAt(ts, p)
  {
  }

  lemma {:induction false} LastEnds(text: string, x: nat, ts: seq<Token>, m: nat)
    requires Tiles(text, x, ts, m) && ts != []
    ensures ts[|ts| - 1].end.docOffset == m
    decreases |ts|
  {
    hide Occupies, AllSpace;
    if |ts| > 1 {
      LastEnds(text, ts[0].end.docOffset, ts[1..], m);
    } else {
      assert ts[1..] == [];
    }
  }

  /** Characters that begin no token. */
  lemma Misfit(c: char)
    requires c !in BLANKS && c !in "{}[],:\"tfn-0123456789"
    ensures Fixed(c) == None && c != '"' && !StartsNumber(c) && !IsSpace(c)
    ensures c !in ".eE+" && c != 0 as char ==> !IsNumeric(c)
  {
    BlankCharacter(c);
    assert IsDigit(c) ==> c in "0123456789" by { DigitsListed(c); }
  }

  lemma DigitsListed(c: char)
    ensures IsDigit(c) <==> c in "0123456789"
  {
    if IsDigit(c) {
      assert c == "0123456789"[c as int - '0' as int];
    }
  }

  lemma ScanStops(text: string, m: nat, p: nat, found: seq<Token>)
    requires m <= p < |text| && SkipSpace(text, m) == p
    requires Fixed(text[p]) == None && text[p] != '"' && !StartsNumber(text[p])
    ensures ScanFrom(text, m, found) == ScanError(PlaceOf(text, p))
  {
    hide PlaceOf, SkipSpace, Fixed, StartsNumber;
  }

  // ---------- A tree's tokens, however they are spaced ----------

  /** Tokens as the writer spells them, with a gap in front of each and one behind the last. */
  function Weave(y: seq<Terminal>, gaps: seq<string>): string
    requires |gaps| == |y| + 1
    decreases |y|
  {
    if y == [] then gaps[0] else gaps[0] + (Lexeme(y[0]) + Weave(y[1..], gaps[1..]))
  }

  predicate AllBlank(gaps: seq<string>) {
    forall g | g in gaps :: Blank(g)
  }

  function KindOf(x: Terminal): Kind {
    match x
    case Punct(kind) => kind
    case AnyString(_) => StringToken
    case AnyNumber(_) => NumberToken
    case AnyBoolean(_) => BooleanToken
    case AnyNull => NullToken
  }

  function ValueOf(x: Terminal): string {
    if x.AnyString? then x.s else Lexeme(x)
  }

  predicate InRange(y: seq<Terminal>) {
    forall x | x in y && x.AnyNumber? :: INT_MIN <= x.n <= INT_MAX
  }

  lemma LexemeSpells(text: string, x: Terminal, b: nat, e: nat)
    requires Proper([x]) && InRange([x]) && b <= |text| && e <= |text|
    ensures Lexeme(x) != "" && Spells(KindOf(x), ValueOf(x), Lexeme(x))
    ensures Fits(TokenAt(text, KindOf(x), ValueOf(x), b, e), x)
  {
    hide PlaceOf, IntText, StringText, NumberValue, Unescaped;
    assert x in [x];
    match x
    case AnyString(s) => StringSpells(s);
    case AnyNumber(n) => IntSpells(n);
    case Punct(_) => Brackets();
    case _ => WordsSpell();
  }

  /** A number may end where a gap, or a bracket, comma or colon, or nothing follows. */
  lemma WeaveEnds(y: seq<Terminal>, gaps: seq<string>)
    requires |gaps| == |y| + 1 && AllBlank(gaps) && Proper(y) && (y != [] ==> y[0].Punct?)
    ensures var w := Weave(y, gaps); w != "" ==> !IsNumeric(w[0])
  {
    hide IsNumeric;
    assert gaps[0] in gaps;
    if gaps[0] != "" {
      assert Weave(y, gaps)[0] == gaps[0][0] && gaps[0][0] in gaps[0];
      BlankCharacter(gaps[0][0]);
    } else if y != [] {
      assert y[0] in y;
      PunctNotNumeric(y[0].kind);
    }
  }

  lemma PunctNotNumeric(kind: Kind)
    requires kind in [ObjectBegin, ObjectEnd, ArrayBegin, ArrayEnd, NextElement, MemberAssign]
    ensures Lexeme(Punct(kind)) != "" && !IsNumeric(Lexeme(Punct(kind))[0])
  {
  }

  lemma {:induction false} WeaveTiles(text: string, x: nat, y: seq<Terminal>, gaps: seq<string>) returns (ts: seq<Token>, q: nat)
    requires |gaps| == |y| + 1 && At(text, x, Weave(y, gaps)) && x + |Weave(y, gaps)| == |text|
    requires AllBlank(gaps) && Proper(y) && Apart(y) && InRange(y)
    ensures Tiled(text, x, ts, q, y) && q <= |text| && AllSpace(text[q..])
    decreases |y|
  {
    hide Tiled, At, AllSpace, Lexeme, Proper, Apart, InRange, IsNumeric, Spells, Fits, PlaceOf;
    assert gaps[0] in gaps;
    BlankIsSpace(gaps[0]);
    if y == [] {
      ts, q := [], x;
      NothingTiled(text, x);
      WholeRest(text, x, gaps[0]);
    } else {
      var l, rest := Lexeme(y[0]), Weave(y[1..], gaps[1..]);
      var b := x + |gaps[0]|;
      RowTail(y, gaps);
      AtSplit(text, x, gaps[0], l + rest);
      AtSplit(text, b, l, rest);
      LexemeSpells(text, y[0], b, b + |l|);
      if y[0].AnyNumber? {
        WeaveEnds(y[1..], gaps[1..]);
        EndsBefore(text, b + |l|, rest);
      }
      var one := Single(text, b, l, KindOf(y[0]), ValueOf(y[0]), y[0]);
      Spaced(text, x, gaps[0], one, b + |l|, [y[0]]);
      var more;
      more, q := WeaveTiles(text, b + |l|, y[1..], gaps[1..]);
      Follow(text, x, one, b + |l|, [y[0]], more, q, y[1..]);
      ts := one + more;
      assert y == [y[0]] + y[1..];
    }
  }

  lemma NothingTiled(text: string, x: nat)
    requires x <= |text|
    ensures Tiled(text, x, [], x, [])
  {
  }

  lemma WholeRest(text: string, x: nat, s: string)
    requires At(text, x, s) && x + |s| == |text|
    ensures x <= |text| && text[x..] == s
  {
  }

  lemma EndsBefore(text: string, p: nat, rest: string)
    requires At(text, p, rest) && p + |rest| == |text| && (rest != "" ==> !IsNumeric(rest[0]))
    ensures Ends(text, p)
  {
    if rest != "" {
      assert text[p] == text[p..p + |rest|][0];
    }
  }

  lemma RowTail(y: seq<Terminal>, gaps: seq<string>)
    requires |gaps| == |y| + 1 && y != [] && AllBlank(gaps) && Proper(y) && Apart(y) && InRange(y)
    ensures Proper([y[0]]) && InRange([y[0]]) && Proper(y[1..]) && Apart(y[1..]) && InRange(y[1..]) && AllBlank(gaps[1..])
    ensures y[0].AnyNumber? && |y| > 1 ==> y[1..][0].Punct?
  {
    ProperFirst(y);
    assert forall x | x in y[1..] :: x in y;
    assert forall g | g in gaps[1..] :: g in gaps;
    assert forall i | 0 <= i < |y| - 1 :: y[1..][i] == y[i + 1];
    assert y[0] in y;
  }

  lemma {:induction false} TreeInRange(t: Json)
    requires WellFormed(t)
    ensures InRange(Yield(t))
    decreases t, 1
  {
    match t
    case Arr(es) => ElementsInRange(es);
    case Obj(ms) => MembersInRange(ms);
    case _ =>
  }

  lemma {:induction false} ElementsInRange(es: seq<Json>)
    requires forall e | e in es :: WellFormed(e)
    ensures InRange(YieldElements(es))
    decreases es, 0
  {
    hide Yield, WellFormed;
    if es != [] {
      assert es[0] in es && forall e | e in es[1..] :: e in es;
      TreeInRange(es[0]);
      ElementsInRange(es[1..]);
    }
  }

  lemma {:induction false} MembersInRange(ms: seq<Member>)
    requires forall m | m in ms :: WellFormed(m.value)
    ensures InRange(YieldMembers(ms))
    decreases ms, 0
  {
    hide Yield, WellFormed;
    if ms != [] {
      assert ms[0] in ms && forall m | m in ms[1..] :: m in ms;
      TreeInRange(ms[0].value);
      MembersInRange(ms[1..]);
    }
  }

  /** The tokens of a well-formed tree read as that tree, whatever white space, or none, stands around them. */
  lemma SpacedRead(t: Json, gaps: seq<string>)
    requires WellFormed(t) && |gaps| == |Yield(t)| + 1
    requires forall g, c | g in gaps && c in g :: c in BLANKS
    ensures Read(Weave(Yield(t), gaps)) == Tree(t)
  {
    hide Yield, WellFormed, Weave, Tiles, AllSpace, Derives, Read, Depths, NestedFrom, Proper, Apart, InRange, Document;
    var text := Weave(Yield(t), gaps);
    TreeFramed(t);
    TreeInRange(t);
    assert AllBlank(gaps);
    assert text[0..0 + |text|] == text;
    var ts, q := WeaveTiles(text, 0, Yield(t), gaps);
    DocumentOf(text, ts, q);
    ReadIff(text, t);
  }

  // ---------- Lines that end in carriage return and newline ----------

  /** Every newline as carriage return and newline. */
  function Crlf(s: string): string {
    if s == "" then "" else (if s[0] == '\n' then "\r\n" else [s[0]]) + Crlf(s[1..])
  }

  lemma {:induction false} CrlfConcat(a: string, b: string)
    ensures Crlf(a + b) == Crlf(a) + Crlf(b)
    decreases |a|
  {
    if a == "" {
      assert a + b == b;
    } else {
      assert (a + b)[1..] == a[1..] + b;
      CrlfConcat(a[1..], b);
    }
  }

  lemma {:induction false} CrlfOneLine(s: string)
    requires OneLine(s)
    ensures Crlf(s) == s
  {
    if s != "" {
      assert s[0] in s && forall c | c in s[1..] :: c in s;
      CrlfOneLine(s[1..]);
      assert [s[0]] + s[1..] == s;
    }
  }

  lemma {:induction false} CrlfBlank(s: string)
    requires Blank(s)
    ensures Blank(Crlf(s))
  {
    if s != "" {
      assert s[0] in s && forall c | c in s[1..] :: c in s;
      CrlfBlank(s[1..]);
    }
  }

  lemma GapBlank(x: Terminal, y: Terminal, e: int)
    ensures Blank(Gap(x, y, e))
  {
    var g := Gap(x, y, e);
    assert forall k | 0 <= k < |g| :: g[k] == ' ' || g[k] == '\n' || g[k] == '\t';
  }

  lemma {:induction false} CrlfLayout(y: seq<Terminal>, depth: int) returns (gaps: seq<string>)
    requires y != [] && Proper(y)
    ensures |gaps| == |y| + 1 && gaps[0] == "" && AllBlank(gaps) && Crlf(Layout(y, depth)) == Weave(y, gaps)
    decreases |y|
  {
    hide Crlf, Lexeme, Gap, Proper, Blank, OneLine;
    ProperFirst(y);
    LexemeShape(y[0]);
    CrlfOneLine(Lexeme(y[0]));
    var l := Lexeme(y[0]);
    if |y| == 1 {
      gaps := ["", ""];
      assert Blank("") by { NothingBlank(); }
      assert y[1..] == [] && gaps[1..] == [""];
      assert "" + (l + "") == l;
    } else {
      var e := depth + Depth(y[0]);
      var g, tail := Gap(y[0], y[1], e), y[1..];
      var rest := CrlfLayout(tail, e);
      GapBlank(y[0], y[1], e);
      CrlfBlank(g);
      CrlfConcat(l + g, Layout(tail, e));
      CrlfConcat(l, g);
      gaps := [""] + ([Crlf(g)] + rest[1..]);
      assert gaps[1..] == [Crlf(g)] + rest[1..];
      assert AllBlank(gaps) by { BlankRow(Crlf(g), rest); }
      FirstGap(tail, rest, Crlf(g));
      assert "" + (l + (Crlf(g) + Weave(tail, rest))) == l + Crlf(g) + Weave(tail, rest);
    }
  }

  lemma NothingBlank()
    ensures Blank("")
  {
  }

  lemma BlankRow(g: string, rest: seq<string>)
    requires Blank(g) && rest != [] && AllBlank(rest)
    ensures AllBlank([""] + ([g] + rest[1..]))
  {
    hide Blank;
    NothingBlank();
    assert forall h | h in rest[1..] :: h in rest;
  }

  lemma FirstGap(y: seq<Terminal>, gaps: seq<string>, g: string)
    requires |gaps| == |y| + 1 && gaps[0] == ""
    ensures Weave(y, [g] + gaps[1..]) == g + Weave(y, gaps)
  {
    hide Lexeme;
    assert ([g] + gaps[1..])[1..] == gaps[1..];
    if y != [] {
      var rest := Lexeme(y[0]) + Weave(y[1..], gaps[1..]);
      assert "" + rest == rest;
    } else {
      assert g + "" == g;
    }
  }

  /** A written tree whose lines end in carriage return and newline reads as that tree. */
  lemma CrlfRead(t: Json, d: nat)
    requires WellFormed(t)
    ensures Read(Crlf(Text(t, d))) == Tree(t)
  {
    hide Yield, WellFormed, Weave, Layout, Text, Crlf, Read, Depths, NestedFrom, Proper, Apart;
    TextIsLayout(t, d);
    TreeFramed(t);
    var gaps := CrlfLayout(Yield(t), d);
    assert forall g, c | g in gaps && c in g :: c in BLANKS;
    SpacedRead(t, gaps);
  }
}
