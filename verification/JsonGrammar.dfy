/** The parser accepts exactly the token sequences that the grammar derives from trees with distinct names. */
module JsonGrammar {
  import opened Options
  import opened JsonTree
  import opened JsonScanner
  import opened JsonParser

  // ---------- The grammar ----------

  /** What a position in a derivation demands of the token there. */
  datatype Terminal = Punct(kind: Kind) | AnyString(s: string) | AnyNumber(n: int) | AnyBoolean(b: bool) | AnyNull

  predicate Fits(token: Token, t: Terminal) {
    match t
    case Punct(kind) => token.kind == kind
    case AnyString(s) => token.kind == StringToken && token.value == s
    case AnyNumber(n) => token.kind == NumberToken && NumberValue(token.value) == Some(n)
    case AnyBoolean(b) => token.kind == BooleanToken && b == (token.value == "true")
    case AnyNull => token.kind == NullToken
  }

  /** The derivation of a tree: commas between, none behind the last. */
  function Yield(t: Json): (y: seq<Terminal>)
    ensures y != [] && (y[0].Punct? ==> y[0].kind == ObjectBegin || y[0].kind == ArrayBegin)
    decreases t, 0
  {
    match t
    case Null => [AnyNull]
    case Bool(b) => [AnyBoolean(b)]
    case Number(n) => [AnyNumber(n)]
    case Str(s) => [AnyString(s)]
    case Arr(es) => [Punct(ArrayBegin)] + YieldElements(es) + [Punct(ArrayEnd)]
    case Obj(ms) => [Punct(ObjectBegin)] + YieldMembers(ms) + [Punct(ObjectEnd)]
  }

  function YieldElements(es: seq<Json>): (y: seq<Terminal>)
    ensures es != [] ==> y != []
    decreases es
  {
    if es == [] then []
    else if |es| == 1 then Yield(es[0])
    else Yield(es[0]) + [Punct(NextElement)] + YieldElements(es[1..])
  }

  function YieldMember(m: Member): (y: seq<Terminal>)
    ensures y != []
    decreases m
  {
    [AnyString(m.name), Punct(MemberAssign)] + Yield(m.value)
  }

  function YieldMembers(ms: seq<Member>): (y: seq<Terminal>)
    ensures ms != [] ==> y != []
    decreases ms
  {
    if ms == [] then []
    else if |ms| == 1 then YieldMember(ms[0])
    else YieldMember(ms[0]) + [Punct(NextElement)] + YieldMembers(ms[1..])
  }

  /** The tokens from p to q are a derivation. */
  predicate Derives(ts: seq<Token>, p: nat, y: seq<Terminal>, q: nat) {
    q == p + |y| <= |ts| && forall i | 0 <= i < |y| :: Fits(ts[p + i], y[i])
  }

  lemma DerivesConcat(ts: seq<Token>, p: nat, a: seq<Terminal>, q: nat, b: seq<Terminal>, r: nat)
    requires Derives(ts, p, a, q) && Derives(ts, q, b, r)
    ensures Derives(ts, p, a + b, r)
  {
    hide Fits;
    var y := a + b;
    forall i | 0 <= i < |y|
      ensures Fits(ts[p + i], y[i])
    {
      if i >= |a| {
        assert Fits(ts[q + (i - |a|)], b[i - |a|]);
      }
    }
  }

  lemma DerivesSplit(ts: seq<Token>, p: nat, a: seq<Terminal>, b: seq<Terminal>, r: nat)
    requires Derives(ts, p, a + b, r)
    ensures Derives(ts, p, a, p + |a|) && Derives(ts, p + |a|, b, r) && p + |a| + |b| == r <= |ts|
  {
    hide Fits;
    var y := a + b;
    forall i | 0 <= i < |a|
      ensures Fits(ts[p + i], a[i])
    {
      assert Fits(ts[p + i], y[i]);
    }
    forall i | 0 <= i < |b|
      ensures Fits(ts[p + |a| + i], b[i])
    {
      assert Fits(ts[p + (|a| + i)], y[|a| + i]);
    }
  }

  lemma DerivesOne(ts: seq<Token>, p: nat, t: Terminal, q: nat)
    ensures Derives(ts, p, [t], q) <==> q == p + 1 <= |ts| && Fits(ts[p], t)
  {
    hide Fits;
    if Derives(ts, p, [t], q) {
      assert Fits(ts[p + 0], [t][0]);
    }
    if q == p + 1 <= |ts| && Fits(ts[p], t) {
      assert forall i | 0 <= i < 1 :: Fits(ts[p + i], [t][i]);
    }
  }

  /** Brackets around a derivation. */
  lemma Bracketed(ts: seq<Token>, p: nat, open: Kind, y: seq<Terminal>, close: Kind, q: nat)
    requires q > 0
    ensures Derives(ts, p, [Punct(open)] + y + [Punct(close)], q)
            <==> NextIs(ts, p, open) && Derives(ts, p + 1, y, q - 1) && NextIs(ts, q - 1, close)
  {
    hide Fits, Derives;
    var front, all := [Punct(open)] + y, [Punct(open)] + y + [Punct(close)];
    if Derives(ts, p, all, q) {
      DerivesSplit(ts, p, front, [Punct(close)], q);
      DerivesSplit(ts, p, [Punct(open)], y, q - 1);
      DerivesOne(ts, p, Punct(open), p + 1);
      DerivesOne(ts, q - 1, Punct(close), q);
      FitsPunct(ts[p], open);
      FitsPunct(ts[q - 1], close);
    }
    if NextIs(ts, p, open) && Derives(ts, p + 1, y, q - 1) && NextIs(ts, q - 1, close) {
      FitsPunct(ts[p], open);
      FitsPunct(ts[q - 1], close);
      DerivesOne(ts, p, Punct(open), p + 1);
      DerivesOne(ts, q - 1, Punct(close), q);
      DerivesConcat(ts, p, [Punct(open)], p + 1, y, q - 1);
      DerivesConcat(ts, p, front, q - 1, [Punct(close)], q);
    }
  }

  // ---------- Soundness ----------

  /** Appending to a list that is not empty puts a comma in between. */
  lemma {:induction false} YieldElementsAppend(es: seq<Json>, e: Json)
    requires es != []
    ensures YieldElements(es + [e]) == YieldElements(es) + [Punct(NextElement)] + Yield(e)
    decreases |es|
  {
    hide Yield;
    var all := es + [e];
    assert all[1..] == es[1..] + [e];
    if |es| == 1 {
      assert all[1..] == [e];
    } else {
      YieldElementsAppend(es[1..], e);
    }
  }

  lemma {:induction false} YieldMembersAppend(ms: seq<Member>, m: Member)
    requires ms != []
    ensures YieldMembers(ms + [m]) == YieldMembers(ms) + [Punct(NextElement)] + YieldMember(m)
    decreases |ms|
  {
    hide YieldMember;
    var all := ms + [m];
    assert all[1..] == ms[1..] + [m];
    if |ms| == 1 {
      assert all[1..] == [m];
    } else {
      YieldMembersAppend(ms[1..], m);
    }
  }

  lemma {:induction false} ValueSound(ts: seq<Token>, p: nat)
    requires ParseValue(ts, p).Parsed?
    ensures var r := ParseValue(ts, p); Derives(ts, p, Yield(r.value), r.next) && WellFormed(r.value)
    decreases |ts| - p, 1
  {
    hide Derives, ParseMembers, ParseElements;
    var r := ParseValue(ts, p);
    match ts[p].kind
    case ObjectBegin =>
      if p + 1 < |ts| && ts[p + 1].kind != ObjectEnd {
        MembersSound(ts, p + 1, [], p + 1);
      } else {
        NothingDerives(ts, p + 1);
      }
      Bracketed(ts, p, ObjectBegin, YieldMembers(r.value.members), ObjectEnd, r.next);
    case ArrayBegin =>
      if p + 1 < |ts| && ts[p + 1].kind != ArrayEnd {
        ElementsSound(ts, p + 1, [], p + 1);
      } else {
        NothingDerives(ts, p + 1);
      }
      Bracketed(ts, p, ArrayBegin, YieldElements(r.value.elements), ArrayEnd, r.next);
    case StringToken => DerivesOne(ts, p, Yield(r.value)[0], p + 1);
    case NumberToken => DerivesOne(ts, p, Yield(r.value)[0], p + 1);
    case BooleanToken => DerivesOne(ts, p, Yield(r.value)[0], p + 1);
    case NullToken => DerivesOne(ts, p, Yield(r.value)[0], p + 1);
    case _ =>
  }

  lemma NothingDerives(ts: seq<Token>, p: nat)
    ensures Derives(ts, p, [], p) <==> p <= |ts|
  {
  }

  /** found has been taken from start on, with a comma behind it. */
  lemma {:induction false} ElementsSound(ts: seq<Token>, p: nat, found: seq<Json>, start: nat)
    requires ParseElements(ts, p, found).Parsed? && forall e | e in found :: WellFormed(e)
    requires if found == [] then p == start
             else start < p <= |ts| && Derives(ts, start, YieldElements(found), p - 1) && ts[p - 1].kind == NextElement
    ensures var r := ParseElements(ts, p, found);
            Derives(ts, start, YieldElements(r.value), r.next) && (forall e | e in r.value :: WellFormed(e)) && r.value != []
    decreases |ts| - p, 2
  {
    hide Fits, WellFormed, Derives, ParseValue, Yield;
    var v := ParseValue(ts, p);
    ValueSound(ts, p);
    var all := found + [v.value];
    if found == [] {
      assert all == [v.value];
    } else {
      YieldElementsAppend(found, v.value);
      FitsPunct(ts[p - 1], NextElement);
      DerivesOne(ts, p - 1, Punct(NextElement), p);
      DerivesConcat(ts, start, YieldElements(found), p - 1, [Punct(NextElement)], p);
      DerivesConcat(ts, start, YieldElements(found) + [Punct(NextElement)], p, Yield(v.value), v.next);
    }
    if NextIs(ts, v.next, NextElement) {
      ElementsSound(ts, v.next + 1, all, start);
    }
  }

  lemma FitsPunct(token: Token, kind: Kind)
    ensures Fits(token, Punct(kind)) <==> token.kind == kind
  {
  }

  lemma {:induction false} MemberSound(ts: seq<Token>, p: nat)
    requires ParseMember(ts, p).Parsed?
    ensures var r := ParseMember(ts, p); Derives(ts, p, YieldMember(r.value), r.next) && WellFormed(r.value.value)
    decreases |ts| - p, 1
  {
    var r := ParseMember(ts, p);
    ValueSound(ts, p + 2);
    hide Yield;
    var head := [AnyString(ts[p].value), Punct(MemberAssign)];
    assert Derives(ts, p, head, p + 2);
    DerivesConcat(ts, p, head, p + 2, Yield(r.value.value), r.next);
  }

  lemma {:induction false} MembersSound(ts: seq<Token>, p: nat, found: seq<Member>, start: nat)
    requires ParseMembers(ts, p, found).Parsed? && UniqueNames(found) && forall m | m in found :: WellFormed(m.value)
    requires if found == [] then p == start
             else start < p <= |ts| && Derives(ts, start, YieldMembers(found), p - 1) && ts[p - 1].kind == NextElement
    ensures var r := ParseMembers(ts, p, found);
            Derives(ts, start, YieldMembers(r.value), r.next) && UniqueNames(r.value)
            && (forall m | m in r.value :: WellFormed(m.value)) && r.value != []
    decreases |ts| - p, 2
  {
    hide Fits, WellFormed, Derives, ParseMember, YieldMember;
    var v := ParseMember(ts, p);
    MemberSound(ts, p);
    var all := found + [v.value];
    if found == [] {
      assert all == [v.value];
    } else {
      YieldMembersAppend(found, v.value);
      FitsPunct(ts[p - 1], NextElement);
      DerivesOne(ts, p - 1, Punct(NextElement), p);
      DerivesConcat(ts, start, YieldMembers(found), p - 1, [Punct(NextElement)], p);
      DerivesConcat(ts, start, YieldMembers(found) + [Punct(NextElement)], p, YieldMember(v.value), v.next);
    }
    if NextIs(ts, v.next, NextElement) {
      MembersSound(ts, v.next + 1, all, start);
    }
  }

  // ---------- Completeness ----------

  lemma {:induction false} ValueComplete(ts: seq<Token>, p: nat, t: Json, q: nat)
    requires Derives(ts, p, Yield(t), q) && WellFormed(t)
    ensures ParseValue(ts, p) == Parsed(t, q)
    decreases t, 2
  {
    hide *;
    match t
    case Arr(es) => ArrayComplete(ts, p, es, q);
    case Obj(ms) => ObjectComplete(ts, p, ms, q);
    case _ => AtomComplete(ts, p, t, q);
  }

  lemma AtomComplete(ts: seq<Token>, p: nat, t: Json, q: nat)
    requires Derives(ts, p, Yield(t), q) && WellFormed(t) && !t.Arr? && !t.Obj?
    ensures ParseValue(ts, p) == Parsed(t, q)
  {
    hide Derives;
    DerivesOne(ts, p, Yield(t)[0], q);
    assert Yield(t) == [Yield(t)[0]];
  }

  lemma {:induction false} ArrayComplete(ts: seq<Token>, p: nat, es: seq<Json>, q: nat)
    requires Derives(ts, p, Yield(Arr(es)), q) && WellFormed(Arr(es))
    ensures ParseValue(ts, p) == Parsed(Arr(es), q)
    decreases es, 1
  {
    hide Derives, Fits, ParseElements, ParseMembers, YieldElements;
    DerivesSome(ts, p, Yield(Arr(es)), q);
    Bracketed(ts, p, ArrayBegin, YieldElements(es), ArrayEnd, q);
    if es == [] {
      EmptyYields(ts, p + 1, q - 1);
    } else {
      ElementsComplete(ts, p + 1, [], es, q - 1);
      FirstOfElements(ts, p + 1, es, q - 1);
      assert [] + es == es;
    }
  }

  lemma {:induction false} ObjectComplete(ts: seq<Token>, p: nat, ms: seq<Member>, q: nat)
    requires Derives(ts, p, Yield(Obj(ms)), q) && WellFormed(Obj(ms))
    ensures ParseValue(ts, p) == Parsed(Obj(ms), q)
    decreases ms, 1
  {
    hide Derives, Fits, ParseElements, ParseMembers, YieldMembers;
    DerivesSome(ts, p, Yield(Obj(ms)), q);
    Bracketed(ts, p, ObjectBegin, YieldMembers(ms), ObjectEnd, q);
    if ms == [] {
      EmptyYields(ts, p + 1, q - 1);
    } else {
      assert [] + ms == ms;
      MembersComplete(ts, p + 1, [], ms, q - 1);
      FirstOfMembers(ts, p + 1, ms, q - 1);
    }
  }

  lemma EmptyYields(ts: seq<Token>, p: nat, q: nat)
    ensures Derives(ts, p, YieldElements([]), q) ==> q == p
    ensures Derives(ts, p, YieldMembers([]), q) ==> q == p
  {
  }

  lemma DerivesSome(ts: seq<Token>, p: nat, y: seq<Terminal>, q: nat)
    requires Derives(ts, p, y, q) && y != []
    ensures p < q <= |ts| && Fits(ts[p], y[0])
  {
    assert Fits(ts[p + 0], y[0]);
  }

  /** An array's first element does not begin with the closing bracket. */
  lemma FirstOfElements(ts: seq<Token>, p: nat, es: seq<Json>, q: nat)
    requires es != [] && Derives(ts, p, YieldElements(es), q)
    ensures p < q <= |ts| && ts[p].kind != ArrayEnd
  {
    hide Derives;
    var y := YieldElements(es);
    assert y != [] && y[0] == Yield(es[0])[0];
    DerivesSome(ts, p, y, q);
  }

  lemma FirstOfMembers(ts: seq<Token>, p: nat, ms: seq<Member>, q: nat)
    requires ms != [] && Derives(ts, p, YieldMembers(ms), q)
    ensures p < q <= |ts| && ts[p].kind != ObjectEnd
  {
    hide Derives;
    var y, m := YieldMembers(ms), YieldMember(ms[0]);
    assert m[0] == AnyString(ms[0].name);
    assert y != [] && y[0] == m[0];
    DerivesSome(ts, p, y, q);
  }

  lemma {:induction false} ElementsComplete(ts: seq<Token>, p: nat, found: seq<Json>, es: seq<Json>, q: nat)
    requires es != [] && Derives(ts, p, YieldElements(es), q) && (forall e | e in es :: WellFormed(e))
    requires !NextIs(ts, q, NextElement)
    ensures ParseElements(ts, p, found) == Parsed(found + es, q)
    decreases es, 0
  {
    hide Derives, Fits, Yield, WellFormed, ParseValue;
    var e := es[0];
    assert e in es;
    if |es| == 1 {
      ValueComplete(ts, p, e, q);
      assert es == [e];
    } else {
      var y, rest := Yield(e), YieldElements(es[1..]);
      var m := p + |y|;
      DerivesSplit(ts, p, y + [Punct(NextElement)], rest, q);
      DerivesSplit(ts, p, y, [Punct(NextElement)], m + 1);
      DerivesOne(ts, m, Punct(NextElement), m + 1);
      FitsPunct(ts[m], NextElement);
      ValueComplete(ts, p, e, m);
      ElementsComplete(ts, m + 1, found + [e], es[1..], q);
      assert found + [e] + es[1..] == found + es;
    }
  }

  lemma {:induction false} MemberComplete(ts: seq<Token>, p: nat, m: Member, q: nat)
    requires Derives(ts, p, YieldMember(m), q) && WellFormed(m.value)
    ensures ParseMember(ts, p) == Parsed(m, q)
    decreases m, 0
  {
    hide WellFormed, ParseValue;
    var head := [AnyString(m.name), Punct(MemberAssign)];
    DerivesSplit(ts, p, head, Yield(m.value), q);
    assert Fits(ts[p + 0], head[0]) && Fits(ts[p + 1], head[1]);
    ValueComplete(ts, p + 2, m.value, q);
  }

  lemma {:induction false} MembersComplete(ts: seq<Token>, p: nat, found: seq<Member>, ms: seq<Member>, q: nat)
    requires ms != [] && Derives(ts, p, YieldMembers(ms), q) && (forall m | m in ms :: WellFormed(m.value))
    requires UniqueNames(found + ms) && !NextIs(ts, q, NextElement)
    ensures ParseMembers(ts, p, found) == Parsed(found + ms, q)
    decreases ms, 0
  {
    hide Derives, Fits, YieldMember, WellFormed, ParseMember;
    var m := ms[0];
    assert m in ms;
    assert (found + ms)[|found|] == m;
    assert !HasName(found, m.name) by {
      assert forall i | 0 <= i < |found| :: (found + ms)[i] == found[i];
    }
    if |ms| == 1 {
      MemberComplete(ts, p, m, q);
      assert ms == [m];
    } else {
      var y, rest := YieldMember(m), YieldMembers(ms[1..]);
      var k := p + |y|;
      DerivesSplit(ts, p, y + [Punct(NextElement)], rest, q);
      DerivesSplit(ts, p, y, [Punct(NextElement)], k + 1);
      DerivesOne(ts, k, Punct(NextElement), k + 1);
      FitsPunct(ts[k], NextElement);
      MemberComplete(ts, p, m, k);
      assert found + [m] + ms[1..] == found + ms;
      MembersComplete(ts, k + 1, found + [m], ms[1..], q);
    }
  }

  // ---------- The parser is the grammar ----------

  /**
   * The parser takes a token sequence entirely and returns t exactly when the sequence is the derivation of t and t is
   * well formed; so trailing commas, leftovers and repeated names are rejected, and no sequence has two readings.
   */
  lemma ParseIff(ts: seq<Token>, t: Json)
    ensures ParseAll(ts) == Parsed(t, |ts|) <==> Derives(ts, 0, Yield(t), |ts|) && WellFormed(t)
  {
    hide Derives, Yield, WellFormed, ParseValue;
    if ParseAll(ts) == Parsed(t, |ts|) {
      ValueSound(ts, 0);
    }
    if Derives(ts, 0, Yield(t), |ts|) && WellFormed(t) {
      ValueComplete(ts, 0, t, |ts|);
    }
  }

  // ---------- Doubles ----------

  lemma {:induction false} NoDoubleYields(t: Json)
    ensures Punct(DoubleToken) !in Yield(t)
    decreases t, 1
  {
    match t
    case Arr(es) => NoDoubleInElements(es);
    case Obj(ms) => NoDoubleInMembers(ms);
    case _ =>
  }

  lemma {:induction false} NoDoubleInElements(es: seq<Json>)
    ensures Punct(DoubleToken) !in YieldElements(es)
    decreases es, 0
  {
    hide Yield;
    if es != [] {
      NoDoubleYields(es[0]);
      NoDoubleInElements(es[1..]);
    }
  }

  lemma {:induction false} NoDoubleInMembers(ms: seq<Member>)
    ensures Punct(DoubleToken) !in YieldMembers(ms)
    decreases ms, 0
  {
    hide Yield;
    if ms != [] {
      NoDoubleYields(ms[0].value);
      NoDoubleInMembers(ms[1..]);
    }
  }

  lemma NoDoubleFits(ts: seq<Token>, y: seq<Terminal>)
    requires Derives(ts, 0, y, |ts|) && Punct(DoubleToken) !in y
    ensures forall i | 0 <= i < |ts| :: ts[i].kind != DoubleToken
  {
    forall i | 0 <= i < |ts|
      ensures ts[i].kind != DoubleToken
    {
      assert Fits(ts[0 + i], y[i]) && y[i] in y;
    }
  }

  /** One number with a fraction anywhere, and the whole document is refused. */
  lemma DoublesRejected(ts: seq<Token>, i: nat)
    requires i < |ts| && ts[i].kind == DoubleToken
    ensures ParseAll(ts).Rejected?
  {
    hide Yield, WellFormed, ParseValue, Derives;
    if ParseAll(ts).Parsed? {
      var t := ParseAll(ts).value;
      ParseIff(ts, t);
      NoDoubleYields(t);
      NoDoubleFits(ts, Yield(t));
    }
  }
}
