/** What a rejected document is rejected for: the first place where it cannot be continued. */
module JsonBlame {
  import opened Options
  import opened JsonTree
  import opened JsonScanner
  import opened JsonParser
  import opened JsonGrammar

  // ---------- Where the parser gives up ----------

  /** The index of the token at which the parse of a value fails; the number of tokens when they end too early. */
  function ValueBlame(ts: seq<Token>, p: nat): nat
    decreases |ts| - p, 1
  {
    if p >= |ts| then p
    else
      match ts[p].kind
      case ObjectBegin =>
        if p + 1 < |ts| && ts[p + 1].kind != ObjectEnd then
          match ParseMembers(ts, p + 1, [])
          case Parsed(_, q) => q
          case Rejected(_) => MembersBlame(ts, p + 1, [])
        else p + 1
      case ArrayBegin =>
        if p + 1 < |ts| && ts[p + 1].kind != ArrayEnd then
          match ParseElements(ts, p + 1, [])
          case Parsed(_, q) => q
          case Rejected(_) => ElementsBlame(ts, p + 1, [])
        else p + 1
      case _ => p
  }

  function ElementsBlame(ts: seq<Token>, p: nat, found: seq<Json>): nat
    decreases |ts| - p, 2
  {
    match ParseValue(ts, p)
    case Rejected(_) => ValueBlame(ts, p)
    case Parsed(e, q) => if NextIs(ts, q, NextElement) then ElementsBlame(ts, q + 1, found + [e]) else q
  }

  function MemberBlame(ts: seq<Token>, p: nat): nat
    decreases |ts| - p, 2
  {
    if !NextIs(ts, p, StringToken) then p
    else if !NextIs(ts, p + 1, MemberAssign) then p + 1
    else ValueBlame(ts, p + 2)
  }

  function MembersBlame(ts: seq<Token>, p: nat, found: seq<Member>): nat
    decreases |ts| - p, 3
  {
    match ParseMember(ts, p)
    case Rejected(_) => MemberBlame(ts, p)
    case Parsed(m, q) =>
      if HasName(found, m.name) then p
      else if NextIs(ts, q, NextElement) then MembersBlame(ts, q + 1, found + [m])
      else q
  }

  // ---------- The failure names that token ----------

  /** The failure names the token at k, or says that the tokens end there. */
  predicate Names(ts: seq<Token>, why: Failure, k: nat) {
    && k <= |ts|
    && if k == |ts| then why == if ts == [] then NoTokens else EndOfTokens(ts[|ts| - 1])
       else
         || why == Unexpected(ts[k])
         || (why == BadNumber(ts[k]) && ts[k].kind in [NumberToken, DoubleToken] && NumberValue(ts[k].value) == None)
         || (why == DoubleElement(ts[k]) && ts[k].kind == DoubleToken)
         || (why == DuplicateName(ts[k]) && ts[k].kind == StringToken)
  }

  lemma AcceptNames<T>(ts: seq<Token>, p: nat, kind: Kind, value: T)
    requires p <= |ts| && Accept(ts, p, kind, value).Rejected?
    ensures Names(ts, Accept(ts, p, kind, value).why, p)
  {
  }

  lemma {:induction false} ValueNames(ts: seq<Token>, p: nat)
    requires p <= |ts| && ParseValue(ts, p).Rejected?
    ensures p <= ValueBlame(ts, p) && Names(ts, ParseValue(ts, p).why, ValueBlame(ts, p))
    decreases |ts| - p, 1
  {
    hide ParseElements, ParseMembers, ElementsBlame, MembersBlame, NumberValue, Accept, Names;
    if p < |ts| {
      match ts[p].kind
      case ObjectBegin =>
        ObjectUnfolds(ts, p);
        if p + 1 < |ts| && ts[p + 1].kind != ObjectEnd {
          var r := ParseMembers(ts, p + 1, []);
          if r.Rejected? {
            MembersName(ts, p + 1, []);
          } else {
            AcceptNames(ts, r.next, ObjectEnd, Obj(r.value));
          }
        } else {
          AcceptNames(ts, p + 1, ObjectEnd, Obj([]));
        }
      case ArrayBegin =>
        ArrayUnfolds(ts, p);
        if p + 1 < |ts| && ts[p + 1].kind != ArrayEnd {
          var r := ParseElements(ts, p + 1, []);
          if r.Rejected? {
            ElementsName(ts, p + 1, []);
          } else {
            AcceptNames(ts, r.next, ArrayEnd, Arr(r.value));
          }
        } else {
          AcceptNames(ts, p + 1, ArrayEnd, Arr([]));
        }
      case _ => OwnName(ts, p);
    } else {
      OwnName(ts, p);
    }
  }

  lemma OwnName(ts: seq<Token>, p: nat)
    requires p <= |ts| && ParseValue(ts, p).Rejected?
    requires p < |ts| ==> !ts[p].kind.ObjectBegin? && !ts[p].kind.ArrayBegin?
    ensures ValueBlame(ts, p) == p && Names(ts, ParseValue(ts, p).why, p)
  {
    hide NumberValue;
  }

  lemma {:induction false} ElementsName(ts: seq<Token>, p: nat, found: seq<Json>)
    requires p <= |ts| && ParseElements(ts, p, found).Rejected?
    ensures p <= ElementsBlame(ts, p, found) && Names(ts, ParseElements(ts, p, found).why, ElementsBlame(ts, p, found))
    decreases |ts| - p, 2
  {
    hide ParseValue, ValueBlame, Names;
    var v := ParseValue(ts, p);
    if v.Rejected? {
      ValueNames(ts, p);
    } else {
      ElementsName(ts, v.next + 1, found + [v.value]);
    }
  }

  lemma {:induction false} MemberNames(ts: seq<Token>, p: nat)
    requires p <= |ts| && ParseMember(ts, p).Rejected?
    ensures p <= MemberBlame(ts, p) && Names(ts, ParseMember(ts, p).why, MemberBlame(ts, p))
    decreases |ts| - p, 1
  {
    hide ParseValue, ValueBlame, Names, Accept;
    if !NextIs(ts, p, StringToken) {
      AcceptNames(ts, p, StringToken, ());
    } else if !NextIs(ts, p + 1, MemberAssign) {
      AcceptNames(ts, p + 1, MemberAssign, ());
    } else {
      ValueNames(ts, p + 2);
    }
  }

  lemma {:induction false} MembersName(ts: seq<Token>, p: nat, found: seq<Member>)
    requires p <= |ts| && ParseMembers(ts, p, found).Rejected?
    ensures p <= MembersBlame(ts, p, found) && Names(ts, ParseMembers(ts, p, found).why, MembersBlame(ts, p, found))
    decreases |ts| - p, 2
  {
    hide ParseMember, MemberBlame, HasName;
    var m := ParseMember(ts, p);
    if m.Rejected? {
      MemberNames(ts, p);
    } else if HasName(found, m.value.name) {
      MemberNamed(ts, p);
    } else {
      MembersName(ts, m.next + 1, found + [m.value]);
    }
  }

  // ---------- Nothing behind that token can help ----------

  lemma DerivesKept(ts: seq<Token>, us: seq<Token>, p: nat, y: seq<Terminal>, q: nat)
    requires Derives(ts, p, y, q) && q <= |us| && us[..q] == ts[..q]
    ensures Derives(us, p, y, q)
  {
    hide Fits;
    forall i | 0 <= i < |y|
      ensures Fits(us[p + i], y[i])
    {
      assert us[p + i] == us[..q][p + i] && ts[p + i] == ts[..q][p + i];
    }
  }

  /** A value that was parsed is parsed whatever follows it. */
  lemma ValueKept(ts: seq<Token>, us: seq<Token>, p: nat)
    requires ParseValue(ts, p).Parsed?
    requires var q := ParseValue(ts, p).next; q <= |us| && us[..q] == ts[..q]
    ensures ParseValue(us, p) == ParseValue(ts, p)
  {
    hide ParseValue, Derives, Yield, WellFormed;
    var r := ParseValue(ts, p);
    ValueSound(ts, p);
    DerivesKept(ts, us, p, Yield(r.value), r.next);
    ValueComplete(us, p, r.value, r.next);
  }

  lemma MemberKept(ts: seq<Token>, us: seq<Token>, p: nat)
    requires ParseMember(ts, p).Parsed?
    requires var q := ParseMember(ts, p).next; q <= |us| && us[..q] == ts[..q]
    ensures ParseMember(us, p) == ParseMember(ts, p)
  {
    hide ParseValue;
    Below(ts, us, ParseMember(ts, p).next);
    ValueKept(ts, us, p + 2);
  }

  lemma Below(ts: seq<Token>, us: seq<Token>, q: nat)
    requires q <= |ts| && q <= |us| && us[..q] == ts[..q]
    ensures forall k | 0 <= k < q :: us[k] == ts[k]
    ensures forall k: nat | k <= q :: us[..k] == ts[..k]
  {
    assert forall k | 0 <= k < q :: us[k] == us[..q][k] && ts[k] == ts[..q][k];
  }

  /** The two agree up to the token at k, inclusive. */
  predicate Alike(ts: seq<Token>, us: seq<Token>, k: nat) {
    k < |ts| && k < |us| && us[..k + 1] == ts[..k + 1]
  }

  lemma {:induction false} ElementsKept(ts: seq<Token>, us: seq<Token>, p: nat, found: seq<Json>)
    requires ParseElements(ts, p, found).Parsed? && Alike(ts, us, ParseElements(ts, p, found).next)
    ensures ParseElements(us, p, found) == ParseElements(ts, p, found)
    decreases |ts| - p
  {
    hide ParseValue;
    var v := ParseValue(ts, p);
    Below(ts, us, ParseElements(ts, p, found).next + 1);
    ValueKept(ts, us, p);
    if NextIs(ts, v.next, NextElement) {
      ElementsKept(ts, us, v.next + 1, found + [v.value]);
    }
  }

  lemma {:induction false} MembersKept(ts: seq<Token>, us: seq<Token>, p: nat, found: seq<Member>)
    requires ParseMembers(ts, p, found).Parsed? && Alike(ts, us, ParseMembers(ts, p, found).next)
    ensures ParseMembers(us, p, found) == ParseMembers(ts, p, found)
    decreases |ts| - p
  {
    hide ParseMember, HasName;
    var m := ParseMember(ts, p);
    Below(ts, us, ParseMembers(ts, p, found).next + 1);
    MemberKept(ts, us, p);
    if NextIs(ts, m.next, NextElement) {
      MembersKept(ts, us, m.next + 1, found + [m.value]);
    }
  }

  /** Rejected like the other, and for the same reason unless that is a name used twice, which shows only behind its value. */
  predicate FailsToo<T(==)>(r: Parse<T>, other: Parse<T>) {
    r.Rejected? && other.Rejected? && (!other.why.DuplicateName? ==> r == other)
  }

  /** A value fails on any tokens that agree up to the one it fails at. */
  lemma {:induction false} ValueFails(ts: seq<Token>, us: seq<Token>, p: nat)
    requires p <= |ts| && ParseValue(ts, p).Rejected? && Alike(ts, us, ValueBlame(ts, p))
    ensures FailsToo(ParseValue(us, p), ParseValue(ts, p))
    decreases |ts| - p, 1
  {
    hide ParseElements, ParseMembers, ElementsBlame, MembersBlame, NumberValue;
    ValueNames(ts, p);
    Below(ts, us, ValueBlame(ts, p) + 1);
    if ts[p].kind == ObjectBegin {
      ObjectUnfolds(ts, p);
      ObjectUnfolds(us, p);
      if p + 1 < |ts| && ts[p + 1].kind != ObjectEnd {
        if ParseMembers(ts, p + 1, []).Rejected? {
          MembersName(ts, p + 1, []);
          MembersFail(ts, us, p + 1, []);
        } else {
          MembersKept(ts, us, p + 1, []);
        }
      }
    } else if ts[p].kind == ArrayBegin {
      ArrayUnfolds(ts, p);
      ArrayUnfolds(us, p);
      if p + 1 < |ts| && ts[p + 1].kind != ArrayEnd {
        if ParseElements(ts, p + 1, []).Rejected? {
          ElementsName(ts, p + 1, []);
          ElementsFail(ts, us, p + 1, []);
        } else {
          ElementsKept(ts, us, p + 1, []);
        }
      }
    }
  }

  lemma {:induction false} ElementsFail(ts: seq<Token>, us: seq<Token>, p: nat, found: seq<Json>)
    requires p <= |ts| && ParseElements(ts, p, found).Rejected? && Alike(ts, us, ElementsBlame(ts, p, found))
    ensures FailsToo(ParseElements(us, p, found), ParseElements(ts, p, found))
    decreases |ts| - p, 2
  {
    hide ParseValue, ValueBlame;
    ElementsName(ts, p, found);
    var v := ParseValue(ts, p);
    if v.Rejected? {
      ValueFails(ts, us, p);
    } else {
      ElementsName(ts, v.next + 1, found + [v.value]);
      Below(ts, us, ElementsBlame(ts, p, found) + 1);
      ValueKept(ts, us, p);
      ElementsFail(ts, us, v.next + 1, found + [v.value]);
    }
  }

  lemma {:induction false} MemberFails(ts: seq<Token>, us: seq<Token>, p: nat)
    requires p <= |ts| && ParseMember(ts, p).Rejected? && Alike(ts, us, MemberBlame(ts, p))
    ensures FailsToo(ParseMember(us, p), ParseMember(ts, p))
    decreases |ts| - p, 1
  {
    hide ParseValue, ValueBlame;
    MemberNames(ts, p);
    Below(ts, us, MemberBlame(ts, p) + 1);
    if NextIs(ts, p, StringToken) && NextIs(ts, p + 1, MemberAssign) {
      ValueNames(ts, p + 2);
      ValueFails(ts, us, p + 2);
    }
  }

  lemma MemberNamed(ts: seq<Token>, p: nat)
    requires ParseMember(ts, p).Parsed?
    ensures p < |ts| && ParseMember(ts, p).value.name == ts[p].value && ts[p].kind == StringToken
  {
    hide ParseValue;
  }

  lemma {:induction false} MembersFail(ts: seq<Token>, us: seq<Token>, p: nat, found: seq<Member>)
    requires p <= |ts| && ParseMembers(ts, p, found).Rejected? && Alike(ts, us, MembersBlame(ts, p, found))
    ensures FailsToo(ParseMembers(us, p, found), ParseMembers(ts, p, found))
    decreases |ts| - p, 2
  {
    hide ParseMember, MemberBlame, HasName;
    MembersName(ts, p, found);
    Below(ts, us, MembersBlame(ts, p, found) + 1);
    var m := ParseMember(ts, p);
    if m.Rejected? {
      MemberFails(ts, us, p);
    } else if HasName(found, m.value.name) {
      MemberNamed(ts, p);
      if ParseMember(us, p).Parsed? {
        MemberNamed(us, p);
      }
    } else {
      MembersName(ts, m.next + 1, found + [m.value]);
      MemberKept(ts, us, p);
      MembersFail(ts, us, m.next + 1, found + [m.value]);
    }
  }

  // ---------- The tokens in front of it can be continued ----------

  function Spare(kind: Kind, value: string): Token {
    Token(kind, value, Location(0, 0, 0), Location(0, 0, 0))
  }

  /** The first k tokens, and others behind them. */
  function Continued(ts: seq<Token>, k: nat, rest: seq<Token>): (us: seq<Token>)
    requires k <= |ts|
    ensures |us| == k + |rest| && us[..k] == ts[..k] && us[k..] == rest
  {
    ts[..k] + rest
  }

  lemma DerivesContinued(ts: seq<Token>, k: nat, rest: seq<Token>, p: nat, y: seq<Terminal>, q: nat)
    requires k <= |ts| && Derives(ts, p, y, q) && q <= k
    ensures Derives(Continued(ts, k, rest), p, y, q)
  {
    hide Derives;
    Below(ts, Continued(ts, k, rest), k);
    DerivesKept(ts, Continued(ts, k, rest), p, y, q);
  }

  /** One more token that fits. */
  lemma OneMore(ts: seq<Token>, k: nat, rest: seq<Token>, p: nat, y: seq<Terminal>, token: Token, x: Terminal)
    requires k <= |ts| && Derives(Continued(ts, k, rest), p, y, k + |rest|) && Fits(token, x)
    ensures Derives(Continued(ts, k, rest + [token]), p, y + [x], k + |rest| + 1)
  {
    hide Derives, Fits;
    var us, more := Continued(ts, k, rest), Continued(ts, k, rest + [token]);
    assert more == us + [token];
    assert more[..|us|] == us[..|us|];
    DerivesKept(us, more, p, y, |us|);
    DerivesOne(more, |us|, x, |us| + 1);
    DerivesConcat(more, p, y, |us|, [x], |us| + 1);
  }

  lemma SparesFit()
    ensures Fits(Spare(NullToken, "null"), AnyNull) && Fits(Spare(StringToken, ""), AnyString(""))
    ensures forall kind: Kind :: Fits(Spare(kind, ""), Punct(kind))
  {
  }

  lemma NothingYet(ts: seq<Token>, k: nat)
    requires k <= |ts|
    ensures Derives(Continued(ts, k, []), k, [], k)
  {
  }

  /** A closing bracket behind what a bracket encloses. */
  lemma Close(ts: seq<Token>, k: nat, rest: seq<Token>, p: nat, open: Kind, y: seq<Terminal>, close: Kind)
    requires p < k <= |ts| && ts[p].kind == open && Derives(Continued(ts, k, rest), p + 1, y, k + |rest|)
    ensures Derives(Continued(ts, k, rest + [Spare(close, "")]), p, [Punct(open)] + y + [Punct(close)], k + |rest| + 1)
  {
    hide Derives, Fits;
    SparesFit();
    var us := Continued(ts, k, rest);
    Below(ts, us, k);
    FitsPunct(us[p], open);
    DerivesOne(us, p, Punct(open), p + 1);
    DerivesConcat(us, p, [Punct(open)], p + 1, y, k + |rest|);
    OneMore(ts, k, rest, p, [Punct(open)] + y, Spare(close, ""), Punct(close));
  }

  /** Where the parse of a value fails, what was taken so far begins the derivation of some tree. */
  lemma {:induction false} ValueBegun(ts: seq<Token>, p: nat) returns (rest: seq<Token>, t: Json)
    requires p <= |ts| && ParseValue(ts, p).Rejected?
    ensures var k := ValueBlame(ts, p);
            p <= k <= |ts| && rest != [] && Derives(Continued(ts, k, rest), p, Yield(t), k + |rest|)
    decreases |ts| - p, 1
  {
    hide ParseElements, ParseMembers, ElementsBlame, MembersBlame, NumberValue, Derives, Fits, Continued, YieldElements,
         YieldMembers;
    SparesFit();
    ValueNames(ts, p);
    assert ValueBlame(ts, p) <= |ts| by { NamesBound(ts, ParseValue(ts, p).why, ValueBlame(ts, p)); }
    if p < |ts| && ts[p].kind == ArrayBegin {
      rest, t := ArrayBegun(ts, p);
    } else if p < |ts| && ts[p].kind == ObjectBegin {
      rest, t := ObjectBegun(ts, p);
    } else {
      rest, t := [] + [Spare(NullToken, "null")], Null;
      NothingYet(ts, p);
      OneMore(ts, p, [], p, [], Spare(NullToken, "null"), AnyNull);
      assert [] + [AnyNull] == Yield(Null);
    }
  }

  lemma NamesBound(ts: seq<Token>, why: Failure, k: nat)
    requires Names(ts, why, k)
    ensures k <= |ts|
  {
  }

  lemma {:induction false} ArrayBegun(ts: seq<Token>, p: nat) returns (rest: seq<Token>, t: Json)
    requires p < |ts| && ParseValue(ts, p).Rejected? && ts[p].kind == ArrayBegin
    ensures var k := ValueBlame(ts, p);
            p <= k <= |ts| && rest != [] && Derives(Continued(ts, k, rest), p, Yield(t), k + |rest|)
    decreases |ts| - p, 0
  {
    hide ParseElements, ElementsBlame, Derives, Fits, Continued, YieldElements, Names;
    var es: seq<Json>, front: seq<Token>, k := [], [], ValueBlame(ts, p);
    ArrayUnfolds(ts, p);
    if p + 1 < |ts| && ts[p + 1].kind != ArrayEnd {
      if ParseElements(ts, p + 1, []).Rejected? {
        front, es := ElementsBegun(ts, p + 1, [], p + 1);
      } else {
        es := ParseElements(ts, p + 1, []).value;
        ElementsSound(ts, p + 1, [], p + 1);
        DerivesContinued(ts, k, [], p + 1, YieldElements(es), k);
      }
    } else {
      NothingYet(ts, p + 1);
      EmptyRows();
    }
    Close(ts, k, front, p, ArrayBegin, YieldElements(es), ArrayEnd);
    rest, t := front + [Spare(ArrayEnd, "")], Arr(es);
  }

  lemma EmptyRows()
    ensures YieldElements([]) == [] && YieldMembers([]) == []
  {
  }

  lemma {:induction false} ObjectBegun(ts: seq<Token>, p: nat) returns (rest: seq<Token>, t: Json)
    requires p < |ts| && ParseValue(ts, p).Rejected? && ts[p].kind == ObjectBegin
    ensures var k := ValueBlame(ts, p);
            p <= k <= |ts| && rest != [] && Derives(Continued(ts, k, rest), p, Yield(t), k + |rest|)
    decreases |ts| - p, 0
  {
    hide ParseMembers, MembersBlame, Derives, Fits, Continued, YieldMembers, Names;
    var ms: seq<Member>, front: seq<Token>, k := [], [], ValueBlame(ts, p);
    ObjectUnfolds(ts, p);
    if p + 1 < |ts| && ts[p + 1].kind != ObjectEnd {
      if ParseMembers(ts, p + 1, []).Rejected? {
        front, ms := MembersBegun(ts, p + 1, [], p + 1);
      } else {
        ms := ParseMembers(ts, p + 1, []).value;
        MembersSound(ts, p + 1, [], p + 1);
        DerivesContinued(ts, k, [], p + 1, YieldMembers(ms), k);
      }
    } else {
      NothingYet(ts, p + 1);
      EmptyRows();
    }
    Close(ts, k, front, p, ObjectBegin, YieldMembers(ms), ObjectEnd);
    rest, t := front + [Spare(ObjectEnd, "")], Obj(ms);
  }

  /** As in soundness: found has been taken from start on, with a comma behind it. */
  lemma {:induction false} ElementsBegun(ts: seq<Token>, p: nat, found: seq<Json>, start: nat)
    returns (rest: seq<Token>, es: seq<Json>)
    requires p <= |ts| && ParseElements(ts, p, found).Rejected? && forall e | e in found :: WellFormed(e)
    requires if found == [] then p == start
             else start < p <= |ts| && Derives(ts, start, YieldElements(found), p - 1) && ts[p - 1].kind == NextElement
    ensures var k := ElementsBlame(ts, p, found);
            start <= k <= |ts| && es != [] && Derives(Continued(ts, k, rest), start, YieldElements(es), k + |rest|)
    decreases |ts| - p, 2
  {
    hide Fits, WellFormed, Derives, ParseValue, Yield, ValueBlame, Continued;
    var v := ParseValue(ts, p);
    if v.Rejected? {
      var e;
      rest, e := ValueBegun(ts, p);
      es := found + [e];
      if found == [] {
        assert es == [e];
      } else {
        JoinElement(ts, ValueBlame(ts, p), rest, start, p, found, e);
      }
    } else {
      ValueSound(ts, p);
      var all := found + [v.value];
      if found == [] {
        assert all == [v.value];
      } else {
        JoinTaken(ts, start, p, found, v.value, v.next);
      }
      rest, es := ElementsBegun(ts, v.next + 1, all, start);
    }
  }

  /** An element behind a comma, in a continuation. */
  lemma JoinElement(ts: seq<Token>, k: nat, rest: seq<Token>, start: nat, p: nat, found: seq<Json>, e: Json)
    requires start < p <= k <= |ts| && found != []
    requires Derives(ts, start, YieldElements(found), p - 1) && ts[p - 1].kind == NextElement
    requires Derives(Continued(ts, k, rest), p, Yield(e), k + |rest|)
    ensures Derives(Continued(ts, k, rest), start, YieldElements(found + [e]), k + |rest|)
  {
    hide *;
    var us := Continued(ts, k, rest);
    Below(ts, us, k);
    DerivesContinued(ts, k, rest, start, YieldElements(found), p - 1);
    JoinTaken(us, start, p, found, e, k + |rest|);
  }

  lemma JoinTaken(ts: seq<Token>, start: nat, p: nat, found: seq<Json>, e: Json, q: nat)
    requires start < p <= |ts| && found != [] && Derives(ts, start, YieldElements(found), p - 1)
    requires ts[p - 1].kind == NextElement && Derives(ts, p, Yield(e), q)
    ensures Derives(ts, start, YieldElements(found + [e]), q)
  {
    hide Derives, Yield, Fits, YieldElements;
    YieldElementsAppend(found, e);
    FitsPunct(ts[p - 1], NextElement);
    DerivesOne(ts, p - 1, Punct(NextElement), p);
    DerivesConcat(ts, start, YieldElements(found), p - 1, [Punct(NextElement)], p);
    DerivesConcat(ts, start, YieldElements(found) + [Punct(NextElement)], p, Yield(e), q);
  }

  lemma {:induction false} MemberBegun(ts: seq<Token>, p: nat) returns (rest: seq<Token>, m: Member)
    requires p <= |ts| && ParseMember(ts, p).Rejected?
    ensures var k := MemberBlame(ts, p);
            p <= k <= |ts| && Derives(Continued(ts, k, rest), p, YieldMember(m), k + |rest|)
    decreases |ts| - p, 1
  {
    hide ParseValue, ValueBlame, Derives, Fits, Continued, Yield;
    if !NextIs(ts, p, StringToken) {
      rest, m := FreshMember(ts, p);
    } else {
      var name := ts[p].value;
      NothingYet(ts, p);
      NameTaken(ts, p);
      if !NextIs(ts, p + 1, MemberAssign) {
        SparesFit();
        var v := Spare(NullToken, "null");
        DerivesContinued(ts, p + 1, [], p, [AnyString(name)], p + 1);
        OneMore(ts, p + 1, [], p, [AnyString(name)], Spare(MemberAssign, ""), Punct(MemberAssign));
        OneMore(ts, p + 1, [] + [Spare(MemberAssign, "")], p, [AnyString(name)] + [Punct(MemberAssign)], v, AnyNull);
        rest, m := ([] + [Spare(MemberAssign, "")]) + [v], Member(name, Null);
        MemberRow(name);
      } else {
        var t;
        rest, t := ValueBegun(ts, p + 2);
        m := Member(name, t);
        var k := ValueBlame(ts, p + 2);
        HeadTaken(ts, p);
        DerivesContinued(ts, k, rest, p, [AnyString(name), Punct(MemberAssign)], p + 2);
        DerivesConcat(Continued(ts, k, rest), p, [AnyString(name), Punct(MemberAssign)], p + 2, Yield(t), k + |rest|);
      }
    }
  }

  lemma NameTaken(ts: seq<Token>, p: nat)
    requires NextIs(ts, p, StringToken)
    ensures Derives(ts, p, [AnyString(ts[p].value)], p + 1)
  {
    DerivesOne(ts, p, AnyString(ts[p].value), p + 1);
  }

  lemma HeadTaken(ts: seq<Token>, p: nat)
    requires NextIs(ts, p, StringToken) && NextIs(ts, p + 1, MemberAssign)
    ensures Derives(ts, p, [AnyString(ts[p].value), Punct(MemberAssign)], p + 2)
  {
    hide Derives;
    NameTaken(ts, p);
    DerivesOne(ts, p + 1, Punct(MemberAssign), p + 2);
    DerivesConcat(ts, p, [AnyString(ts[p].value)], p + 1, [Punct(MemberAssign)], p + 2);
    assert [AnyString(ts[p].value)] + [Punct(MemberAssign)] == [AnyString(ts[p].value), Punct(MemberAssign)];
  }

  lemma MemberRow(name: string)
    ensures YieldMember(Member(name, Null)) == [AnyString(name)] + [Punct(MemberAssign)] + [AnyNull]
  {
  }

  /** A whole member of spare tokens. */
  lemma FreshMember(ts: seq<Token>, p: nat) returns (rest: seq<Token>, m: Member)
    requires p <= |ts|
    ensures Derives(Continued(ts, p, rest), p, YieldMember(m), p + |rest|)
  {
    hide Derives, Fits, Continued;
    SparesFit();
    var name, colon, v := Spare(StringToken, ""), Spare(MemberAssign, ""), Spare(NullToken, "null");
    NothingYet(ts, p);
    OneMore(ts, p, [], p, [], name, AnyString(""));
    OneMore(ts, p, [] + [name], p, [] + [AnyString("")], colon, Punct(MemberAssign));
    OneMore(ts, p, [] + [name] + [colon], p, [] + [AnyString("")] + [Punct(MemberAssign)], v, AnyNull);
    rest, m := [] + [name] + [colon] + [v], Member("", Null);
    MemberRow("");
    assert [] + [AnyString("")] == [AnyString("")];
  }

  lemma {:induction false} MembersBegun(ts: seq<Token>, p: nat, found: seq<Member>, start: nat)
    returns (rest: seq<Token>, ms: seq<Member>)
    requires p <= |ts| && ParseMembers(ts, p, found).Rejected?
    requires UniqueNames(found) && forall m | m in found :: WellFormed(m.value)
    requires if found == [] then p == start
             else start < p <= |ts| && Derives(ts, start, YieldMembers(found), p - 1) && ts[p - 1].kind == NextElement
    ensures var k := MembersBlame(ts, p, found);
            start <= k <= |ts| && ms != [] && Derives(Continued(ts, k, rest), start, YieldMembers(ms), k + |rest|)
    decreases |ts| - p, 2
  {
    hide Fits, WellFormed, Derives, ParseMember, YieldMember, MemberBlame, Continued;
    var v := ParseMember(ts, p);
    if v.Rejected? || HasName(found, v.value.name) {
      var m;
      if v.Rejected? {
        rest, m := MemberBegun(ts, p);
      } else {
        rest, m := FreshMember(ts, p);
      }
      ms := found + [m];
      if found == [] {
        assert ms == [m];
      } else {
        JoinMember(ts, MembersBlame(ts, p, found), rest, start, p, found, m);
      }
    } else {
      MemberSound(ts, p);
      var all := found + [v.value];
      if found == [] {
        assert all == [v.value];
      } else {
        JoinTakenMember(ts, start, p, found, v.value, v.next);
      }
      rest, ms := MembersBegun(ts, v.next + 1, all, start);
    }
  }

  lemma JoinMember(ts: seq<Token>, k: nat, rest: seq<Token>, start: nat, p: nat, found: seq<Member>, m: Member)
    requires start < p <= k <= |ts| && found != []
    requires Derives(ts, start, YieldMembers(found), p - 1) && ts[p - 1].kind == NextElement
    requires Derives(Continued(ts, k, rest), p, YieldMember(m), k + |rest|)
    ensures Derives(Continued(ts, k, rest), start, YieldMembers(found + [m]), k + |rest|)
  {
    hide *;
    var us := Continued(ts, k, rest);
    Below(ts, us, k);
    DerivesContinued(ts, k, rest, start, YieldMembers(found), p - 1);
    JoinTakenMember(us, start, p, found, m, k + |rest|);
  }

  lemma JoinTakenMember(ts: seq<Token>, start: nat, p: nat, found: seq<Member>, m: Member, q: nat)
    requires start < p <= |ts| && found != [] && Derives(ts, start, YieldMembers(found), p - 1)
    requires ts[p - 1].kind == NextElement && Derives(ts, p, YieldMember(m), q)
    ensures Derives(ts, start, YieldMembers(found + [m]), q)
  {
    hide Derives, YieldMember, Fits, YieldMembers;
    YieldMembersAppend(found, m);
    FitsPunct(ts[p - 1], NextElement);
    DerivesOne(ts, p - 1, Punct(NextElement), p);
    DerivesConcat(ts, start, YieldMembers(found), p - 1, [Punct(NextElement)], p);
    DerivesConcat(ts, start, YieldMembers(found) + [Punct(NextElement)], p, YieldMember(m), q);
  }

  // ---------- All tokens ----------

  /** The first k tokens begin a derivation of some tree. */
  ghost predicate Begins(ts: seq<Token>, k: nat)
    requires k <= |ts|
  {
    exists rest: seq<Token>, t: Json :: Derives(Continued(ts, k, rest), 0, Yield(t), k + |rest|)
  }

  /** Where the parse of all tokens fails. */
  function Blame(ts: seq<Token>): nat {
    match ParseValue(ts, 0)
    case Rejected(_) => ValueBlame(ts, 0)
    case Parsed(_, q) => q
  }

  /**
   * A rejected row of tokens is rejected for the first token that it cannot be continued with: the tokens in front of it
   * begin a derivation; no row that goes on with it is accepted, and any fails for the same reason, unless that is a name
   * used twice in one object.  If every token can be continued with, the failure says that they end too early.
   */
  lemma FirstMisfit(ts: seq<Token>)
    requires ParseAll(ts).Rejected?
    ensures var k := Blame(ts); k <= |ts| && Names(ts, ParseAll(ts).why, k) && Begins(ts, k)
  {
    hide ParseValue, ValueBlame, Derives, Yield, Names, Begins, Continued;
    var r := ParseValue(ts, 0);
    if r.Rejected? {
      ValueNames(ts, 0);
      NamesBound(ts, r.why, ValueBlame(ts, 0));
      var rest, t := ValueBegun(ts, 0);
      BeginsBy(ts, ValueBlame(ts, 0), rest, t);
    } else {
      var rest: seq<Token> := [];
      ValueSound(ts, 0);
      DerivesContinued(ts, r.next, rest, 0, Yield(r.value), r.next);
      BeginsBy(ts, r.next, rest, r.value);
      NamesLeftover(ts, r.next);
    }
  }

  lemma BeginsBy(ts: seq<Token>, k: nat, rest: seq<Token>, t: Json)
    requires k <= |ts| && Derives(Continued(ts, k, rest), 0, Yield(t), k + |rest|)
    ensures Begins(ts, k)
  {
    hide Derives, Yield, Continued;
  }

  lemma NamesLeftover(ts: seq<Token>, k: nat)
    requires k < |ts|
    ensures Names(ts, Unexpected(ts[k]), k)
  {
  }

  lemma NothingHelps(ts: seq<Token>, us: seq<Token>)
    requires ParseAll(ts).Rejected? && Alike(ts, us, Blame(ts))
    ensures FailsToo(ParseAll(us), ParseAll(ts))
  {
    hide ParseValue, ValueBlame;
    Below(ts, us, Blame(ts) + 1);
    if ParseValue(ts, 0).Rejected? {
      ValueFails(ts, us, 0);
    } else {
      ValueKept(ts, us, 0);
    }
  }
}
