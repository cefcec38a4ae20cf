/** The layout of written text as a function of its tokens: what stands between two of them, and how deep. */
module JsonPretty {
  import opened Decimal
  import opened JsonTree
  import opened JsonScanner
  import opened JsonGrammar
  import opened JsonWriter
  import opened JsonLayout

  // ---------- Pretty-printing a row of tokens ----------

  /** How the writer spells a token. */
  function Lexeme(x: Terminal): string {
    match x
    case Punct(ObjectBegin) => "{"
    case Punct(ObjectEnd) => "}"
    case Punct(ArrayBegin) => "["
    case Punct(ArrayEnd) => "]"
    case Punct(NextElement) => ","
    case Punct(MemberAssign) => ":"
    case Punct(_) => ""
    case AnyString(s) => StringText(s)
    case AnyNumber(n) => IntText(n)
    case AnyBoolean(b) => if b then "true" else "false"
    case AnyNull => "null"
  }

  predicate Opens(x: Terminal) {
    x == Punct(ObjectBegin) || x == Punct(ArrayBegin)
  }

  predicate Closes(x: Terminal) {
    x == Punct(ObjectEnd) || x == Punct(ArrayEnd)
  }

  /** The brackets that a token opens, less those it closes. */
  function Depth(x: Terminal): int {
    if Opens(x) then 1 else if Closes(x) then -1 else 0
  }

  function Depths(y: seq<Terminal>): int {
    if y == [] then 0 else Depth(y[0]) + Depths(y[1..])
  }

  /** A new line at this depth. */
  function NewLine(depth: int): (s: string)
    ensures |s| == 1 + (if depth > 0 then depth else 0)
    ensures s[0] == '\n' && forall i | 1 <= i < |s| :: s[i] == '\t'
  {
    "\n" + TabRun(if depth > 0 then depth else 0)
  }

  /**
   * What stands between two tokens, with depth brackets open behind the first: nothing inside empty brackets and in
   * front of a comma, a new line behind an opening bracket or a comma and, one step less deep, in front of a closing
   * bracket, and one blank on either side of a colon.
   */
  function Gap(x: Terminal, y: Terminal, depth: int): string {
    if Opens(x) && Closes(y) then ""
    else if Opens(x) then NewLine(depth)
    else if Closes(y) then NewLine(depth - 1)
    else if y == Punct(NextElement) then ""
    else if x == Punct(NextElement) then NewLine(depth)
    else " "
  }

  /** The tokens in a row, with depth brackets open in front of them. */
  function Layout(y: seq<Terminal>, depth: int): string {
    if y == [] then ""
    else if |y| == 1 then Lexeme(y[0])
    else Lexeme(y[0]) + Gap(y[0], y[1], depth + Depth(y[0])) + Layout(y[1..], depth + Depth(y[0]))
  }

  // ---------- Rows put together ----------

  lemma {:induction false} DepthsConcat(a: seq<Terminal>, b: seq<Terminal>)
    ensures Depths(a + b) == Depths(a) + Depths(b)
    decreases |a|
  {
    hide Depth;
    if a == [] {
      assert a + b == b;
    } else {
      assert (a + b)[1..] == a[1..] + b;
      DepthsConcat(a[1..], b);
    }
  }

  lemma DepthsOne(x: Terminal)
    ensures Depths([x]) == Depth(x)
  {
    assert [x][1..] == [];
  }

  lemma LayoutStep(x: Terminal, y: seq<Terminal>, depth: int)
    requires y != []
    ensures Layout([x] + y, depth) == Lexeme(x) + Gap(x, y[0], depth + Depth(x)) + Layout(y, depth + Depth(x))
  {
    hide Lexeme, Gap, Depth;
    assert ([x] + y)[1..] == y;
  }

  lemma {:induction false} LayoutConcat(a: seq<Terminal>, b: seq<Terminal>, depth: int)
    requires a != [] && b != []
    ensures var e := depth + Depths(a);
            Layout(a + b, depth) == Layout(a, depth) + Gap(a[|a| - 1], b[0], e) + Layout(b, e)
    decreases |a|
  {
    hide Lexeme, Gap, Depth, Depths, Layout;
    if |a| == 1 {
      assert a == [a[0]];
      DepthsOne(a[0]);
      LayoutOne(a[0], depth);
      LayoutStep(a[0], b, depth);
    } else {
      var x, rest := a[0], a[1..];
      assert a == [x] + rest && a + b == [x] + (rest + b);
      DepthsConcat([x], rest);
      DepthsOne(x);
      LayoutConcat(rest, b, depth + Depth(x));
      LayoutStep(x, rest, depth);
      LayoutStep(x, rest + b, depth);
      Regrouped5(Lexeme(x), Gap(x, rest[0], depth + Depth(x)), Layout(rest, depth + Depth(x)),
                 Gap(a[|a| - 1], b[0], depth + Depths(a)), Layout(b, depth + Depths(a)));
    }
  }

  lemma Regrouped5(a: string, b: string, c: string, x: string, y: string)
    ensures a + b + (c + x + y) == a + b + c + x + y
  {
  }

  lemma LayoutOne(x: Terminal, depth: int)
    ensures Layout([x], depth) == Lexeme(x)
  {
  }

  // ---------- Rows of a tree ----------

  /** Never are more brackets closed than opened, with depth open in front. */
  predicate NestedFrom(y: seq<Terminal>, depth: int) {
    depth >= 0 && (y == [] || NestedFrom(y[1..], depth + Depth(y[0])))
  }

  /** Every token has a spelling. */
  predicate Proper(y: seq<Terminal>) {
    forall x | x in y :: x.Punct? ==> x.kind in [ObjectBegin, ObjectEnd, ArrayBegin, ArrayEnd, NextElement, MemberAssign]
  }

  lemma ProperConcat(a: seq<Terminal>, b: seq<Terminal>)
    ensures Proper(a + b) <==> Proper(a) && Proper(b)
  {
    var y := a + b;
    assert forall x | x in a :: x in y;
    assert forall x | x in b :: x in y;
  }

  lemma NestedTwo(y: seq<Terminal>, depth: int)
    requires |y| >= 2 && NestedFrom(y, depth)
    ensures var e := depth + Depth(y[0]); NestedFrom(y[1..], e) && e >= 0 && e + Depth(y[1]) >= 0
  {
    hide Depth;
    assert y[1..][0] == y[1];
    assert NestedFrom(y[1..][1..], depth + Depth(y[0]) + Depth(y[1]));
  }

  /** No number stands directly in front of another word. */
  predicate Apart(y: seq<Terminal>) {
    forall i | 0 <= i < |y| - 1 && y[i].AnyNumber? :: y[i + 1].Punct?
  }

  lemma ApartConcat(a: seq<Terminal>, b: seq<Terminal>)
    requires Apart(a) && Apart(b) && (a != [] && b != [] && a[|a| - 1].AnyNumber? ==> b[0].Punct?)
    ensures Apart(a + b)
  {
    var y := a + b;
    forall i | 0 <= i < |y| - 1 && y[i].AnyNumber?
      ensures y[i + 1].Punct?
    {
      if i >= |a| {
        assert y[i] == b[i - |a|] && y[i + 1] == b[i + 1 - |a|];
      }
    }
  }

  lemma {:induction false} NestedConcat(a: seq<Terminal>, b: seq<Terminal>, depth: int)
    requires NestedFrom(a, depth) && NestedFrom(b, depth + Depths(a))
    ensures NestedFrom(a + b, depth)
    decreases |a|
  {
    hide Depth;
    if a == [] {
      assert a + b == b;
    } else {
      assert (a + b)[1..] == a[1..] + b;
      NestedConcat(a[1..], b, depth + Depth(a[0]));
    }
  }

  lemma {:induction false} NestedDeeper(y: seq<Terminal>, depth: int, more: nat)
    requires NestedFrom(y, depth)
    ensures NestedFrom(y, depth + more)
    decreases |y|
  {
    hide Depth;
    if y != [] {
      NestedDeeper(y[1..], depth + Depth(y[0]), more);
    }
  }

  lemma NestedOne(x: Terminal, depth: int)
    requires depth >= 0 && depth + Depth(x) >= 0
    ensures NestedFrom([x], depth)
  {
    hide Depth;
    assert [x][1..] == [];
  }

  /** A tree's row is balanced, and neither begins with a closing bracket or comma nor ends with an opening one or comma. */
  predicate Framed(y: seq<Terminal>) {
    && y != [] && Depths(y) == 0 && NestedFrom(y, 0) && Proper(y) && Apart(y)
    && !Closes(y[0]) && y[0] != Punct(NextElement) && y[0] != Punct(MemberAssign)
    && !Opens(y[|y| - 1]) && y[|y| - 1] != Punct(NextElement) && y[|y| - 1] != Punct(MemberAssign)
  }

  lemma {:induction false} TreeFramed(t: Json)
    ensures Framed(Yield(t))
    decreases t, 1
  {
    hide Depths;
    match t
    case Arr(es) =>
      if es == [] {
        BracketsFramed(ArrayBegin, [], ArrayEnd);
      } else {
        ElementsFramed(es);
        BracketsFramed(ArrayBegin, YieldElements(es), ArrayEnd);
      }
    case Obj(ms) =>
      if ms == [] {
        BracketsFramed(ObjectBegin, [], ObjectEnd);
      } else {
        MembersFramed(ms);
        BracketsFramed(ObjectBegin, YieldMembers(ms), ObjectEnd);
      }
    case _ =>
      DepthsOne(Yield(t)[0]);
      NestedOne(Yield(t)[0], 0);
  }

  lemma BracketsFramed(open: Kind, y: seq<Terminal>, close: Kind)
    requires Opens(Punct(open)) && Closes(Punct(close)) && (y == [] || Framed(y))
    ensures Framed([Punct(open)] + y + [Punct(close)])
  {
    hide Depths, NestedFrom, Proper, Apart;
    ApartFew(Punct(open));
    ApartFew(Punct(close));
    ApartConcat([Punct(open)], y);
    ApartConcat([Punct(open)] + y, [Punct(close)]);
    assert Proper([]) && Proper([Punct(open)]) && Proper([Punct(close)]) by { BracketsProper(open, close); }
    ProperConcat([Punct(open)] + y, [Punct(close)]);
    ProperConcat([Punct(open)], y);
    DepthsConcat([Punct(open)] + y, [Punct(close)]);
    DepthsConcat([Punct(open)], y);
    DepthsOne(Punct(open));
    DepthsOne(Punct(close));
    NothingNested();
    NestedOne(Punct(open), 0);
    NestedOne(Punct(close), 1);
    NestedDeeper(y, 0, 1);
    NestedConcat([Punct(open)], y, 0);
    NestedConcat([Punct(open)] + y, [Punct(close)], 0);
  }

  lemma BracketsProper(open: Kind, close: Kind)
    requires Opens(Punct(open)) && Closes(Punct(close))
    ensures Proper([]) && Proper([Punct(open)]) && Proper([Punct(close)])
  {
  }

  lemma ApartFew(x: Terminal)
    ensures Apart([]) && Apart([x])
  {
  }

  lemma CommaProper()
    ensures Proper([Punct(NextElement)])
  {
  }

  lemma NothingNested()
    ensures Depths([]) == 0 && NestedFrom([], 0)
  {
  }

  /** Framed rows with a comma between them. */
  lemma CommaFramed(a: seq<Terminal>, b: seq<Terminal>)
    requires Framed(a) && Framed(b)
    ensures Framed(a + [Punct(NextElement)] + b)
  {
    hide Depths, NestedFrom, Proper, Apart;
    ApartFew(Punct(NextElement));
    ApartConcat(a, [Punct(NextElement)]);
    ApartConcat(a + [Punct(NextElement)], b);
    CommaProper();
    ProperConcat(a + [Punct(NextElement)], b);
    ProperConcat(a, [Punct(NextElement)]);
    DepthsConcat(a + [Punct(NextElement)], b);
    DepthsConcat(a, [Punct(NextElement)]);
    DepthsOne(Punct(NextElement));
    NestedOne(Punct(NextElement), 0);
    NestedConcat(a, [Punct(NextElement)], 0);
    NestedConcat(a + [Punct(NextElement)], b, 0);
  }

  lemma {:induction false} ElementsFramed(es: seq<Json>)
    requires es != []
    ensures Framed(YieldElements(es))
    decreases es, 0
  {
    hide Framed, Yield;
    TreeFramed(es[0]);
    if |es| > 1 {
      ElementsFramed(es[1..]);
      CommaFramed(Yield(es[0]), YieldElements(es[1..]));
    }
  }

  lemma ApartHead(name: string)
    ensures Apart([AnyString(name), Punct(MemberAssign)])
  {
  }

  lemma {:induction false} MemberFramed(m: Member)
    ensures Framed(YieldMember(m))
    decreases m, 0
  {
    hide Depths, NestedFrom, Apart;
    var head := [AnyString(m.name), Punct(MemberAssign)];
    TreeFramed(m.value);
    ApartHead(m.name);
    ApartConcat(head, Yield(m.value));
    DepthsConcat(head, Yield(m.value));
    assert head == [AnyString(m.name)] + [Punct(MemberAssign)];
    DepthsConcat([AnyString(m.name)], [Punct(MemberAssign)]);
    DepthsOne(AnyString(m.name));
    DepthsOne(Punct(MemberAssign));
    NestedOne(AnyString(m.name), 0);
    NestedOne(Punct(MemberAssign), 0);
    NestedConcat([AnyString(m.name)], [Punct(MemberAssign)], 0);
    NestedConcat(head, Yield(m.value), 0);
  }

  lemma {:induction false} MembersFramed(ms: seq<Member>)
    requires ms != []
    ensures Framed(YieldMembers(ms))
    decreases ms, 0
  {
    hide Framed, YieldMember;
    MemberFramed(ms[0]);
    if |ms| > 1 {
      MembersFramed(ms[1..]);
      CommaFramed(YieldMember(ms[0]), YieldMembers(ms[1..]));
    }
  }

  // ---------- The writer is the pretty-printer ----------

  /** Rows with a comma between them: the comma ends the line. */
  lemma CommaLayout(a: seq<Terminal>, b: seq<Terminal>, k: nat)
    requires Framed(a) && Framed(b)
    ensures Layout(a + [Punct(NextElement)] + b, k) == Layout(a, k) + "," + NewLine(k) + Layout(b, k)
  {
    hide Layout, Depths, NewLine, NestedFrom, Proper;
    var comma := [Punct(NextElement)];
    LayoutConcat(a + comma, b, k);
    LayoutConcat(a, comma, k);
    DepthsConcat(a, comma);
    DepthsOne(comma[0]);
    LayoutOne(comma[0], k);
    assert Layout(a, k) + "" == Layout(a, k);
  }

  /** Brackets around a row: new lines on both sides. */
  lemma BracketsLayout(open: Kind, y: seq<Terminal>, close: Kind, k: nat)
    requires Opens(Punct(open)) && Closes(Punct(close)) && Framed(y)
    ensures Layout([Punct(open)] + y + [Punct(close)], k)
            == Lexeme(Punct(open)) + NewLine(k + 1) + Layout(y, k + 1) + NewLine(k) + Lexeme(Punct(close))
  {
    hide Layout, Depths, NewLine, Lexeme;
    var front := [Punct(open)] + y;
    LayoutConcat(front, [Punct(close)], k);
    LayoutStep(Punct(open), y, k);
    DepthsConcat([Punct(open)], y);
    DepthsOne(Punct(open));
    LayoutOne(Punct(close), k + 1);
  }

  lemma EmptyLayout(open: Kind, close: Kind, k: nat)
    requires Opens(Punct(open)) && Closes(Punct(close))
    ensures Layout([Punct(open)] + [] + [Punct(close)], k) == Lexeme(Punct(open)) + Lexeme(Punct(close))
  {
    hide Layout, Lexeme;
    assert [Punct(open)] + [] == [Punct(open)];
    LayoutStep(Punct(open), [Punct(close)], k);
    LayoutOne(Punct(close), k + 1);
    assert Lexeme(Punct(open)) + "" == Lexeme(Punct(open));
  }

  /** The recursive writer prints a tree's tokens with exactly these gaps, at any depth. */
  lemma {:induction false} TextIsLayout(t: Json, d: nat)
    ensures Text(t, d) == Layout(Yield(t), d)
    decreases t, 2
  {
    hide *;
    match t
    case Arr(es) => ArrayIsLayout(es, d);
    case Obj(ms) => ObjectIsLayout(ms, d);
    case _ => AtomIsLayout(t, d);
  }

  lemma AtomIsLayout(t: Json, d: nat)
    requires !t.Arr? && !t.Obj?
    ensures Text(t, d) == Layout(Yield(t), d)
  {
    hide StringText, IntText;
    LayoutOne(Yield(t)[0], d);
  }

  lemma {:induction false} ArrayIsLayout(es: seq<Json>, d: nat)
    ensures Text(Arr(es), d) == Layout(Yield(Arr(es)), d)
    decreases es, 1
  {
    hide Tabs, Layout, Framed, NewLine, ElementLines, YieldElements;
    if es == [] {
      NothingYielded();
      EmptyLayout(ArrayBegin, ArrayEnd, d);
    } else {
      ElementsFramed(es);
      ElementsLaid(es, d + 1);
      BracketsLayout(ArrayBegin, YieldElements(es), ArrayEnd, d);
      Unwrapped("[", Layout(YieldElements(es), d + 1), "]", d);
      assert "[\n" == "[" + "\n";
    }
  }

  lemma {:induction false} ObjectIsLayout(ms: seq<Member>, d: nat)
    ensures Text(Obj(ms), d) == Layout(Yield(Obj(ms)), d)
    decreases ms, 1
  {
    hide Tabs, Layout, Framed, NewLine, MemberLines, YieldMembers;
    if ms == [] {
      NothingYielded();
      EmptyLayout(ObjectBegin, ObjectEnd, d);
    } else {
      MembersFramed(ms);
      MembersLaid(ms, d + 1);
      BracketsLayout(ObjectBegin, YieldMembers(ms), ObjectEnd, d);
      Unwrapped("{", Layout(YieldMembers(ms), d + 1), "}", d);
      assert "{\n" == "{" + "\n";
    }
  }

  lemma NothingYielded()
    ensures YieldElements([]) == [] && YieldMembers([]) == []
  {
  }

  lemma NewLineIs(d: nat)
    ensures NewLine(d) == "\n" + Tabs(d)
  {
    TabsAreTabs(d);
  }

  /** A row between brackets, as the writer puts it: line ends behind the bracket and behind the row. */
  lemma Unwrapped(open: string, row: string, close: string, d: nat)
    ensures open + NewLine(d + 1) + row + NewLine(d) + close == (open + "\n") + (Tabs(d + 1) + row + "\n") + Tabs(d) + close
  {
    hide NewLine, Tabs;
    NewLineIs(d);
    NewLineIs(d + 1);
  }

  lemma {:induction false} ElementsLaid(es: seq<Json>, k: nat)
    requires es != []
    ensures ElementLines(es, k) == Tabs(k) + Layout(YieldElements(es), k) + "\n"
    decreases es, 0
  {
    hide Tabs, Layout, Framed, NewLine, Text, Yield, Line;
    var rest := es[1..];
    TextIsLayout(es[0], k);
    TreeFramed(es[0]);
    if |es| > 1 {
      ElementsFramed(rest);
      ElementsLaid(rest, k);
      CommaLayout(Yield(es[0]), YieldElements(rest), k);
    } else {
      assert ElementLines(rest, k) == "";
    }
    LaidLine(Text(es[0], k), Layout(YieldElements(rest), k), k, |es| > 1);
  }

  /** One line in front of the others. */
  lemma LaidLine(item: string, rest: string, k: nat, more: bool)
    ensures if more then Line(item, k, true) + (Tabs(k) + rest + "\n") == Tabs(k) + (item + "," + NewLine(k) + rest) + "\n"
            else Line(item, k, false) + "" == Tabs(k) + item + "\n"
  {
    hide Tabs, NewLine;
    NewLineIs(k);
    assert item + "" == item;
  }

  lemma {:induction false} MemberLaid(m: Member, k: nat)
    ensures MemberText(m, k) == Layout(YieldMember(m), k)
    decreases m, 0
  {
    hide Layout, Framed, Text, StringText, Depths;
    var name, colon, value := AnyString(m.name), Punct(MemberAssign), Yield(m.value);
    TextIsLayout(m.value, k);
    FramedFirst(m.value);
    assert [name, colon] + value == [name] + ([colon] + value);
    LayoutStep(name, [colon] + value, k);
    LayoutStep(colon, value, k);
    ColonSpaced(StringText(m.name), Text(m.value, k));
  }

  lemma FramedFirst(t: Json)
    ensures !Closes(Yield(t)[0]) && Yield(t)[0] != Punct(NextElement)
  {
    TreeFramed(t);
  }

  lemma ColonSpaced(name: string, value: string)
    ensures name + " " + (":" + " " + value) == name + " : " + value
  {
  }

  lemma {:induction false} MembersLaid(ms: seq<Member>, k: nat)
    requires ms != []
    ensures MemberLines(ms, k) == Tabs(k) + Layout(YieldMembers(ms), k) + "\n"
    decreases ms, 0
  {
    hide Tabs, Layout, Framed, NewLine, MemberText, YieldMember, Line;
    var rest := ms[1..];
    MemberLaid(ms[0], k);
    MemberFramed(ms[0]);
    if |ms| > 1 {
      MembersFramed(rest);
      MembersLaid(rest, k);
      CommaLayout(YieldMember(ms[0]), YieldMembers(rest), k);
    } else {
      assert MemberLines(rest, k) == "";
    }
    LaidLine(MemberText(ms[0], k), Layout(YieldMembers(rest), k), k, |ms| > 1);
  }

  // ---------- Character by character ----------

  /** Whether a character stands outside strings, inside one, or behind a backslash inside one. */
  datatype Mode = Outside | Inside | Escape

  function NextMode(m: Mode, c: char): Mode {
    match m
    case Outside => if c == '"' then Inside else Outside
    case Inside => if c == '\\' then Escape else if c == '"' then Outside else Inside
    case Escape => Inside
  }

  function Change(m: Mode, c: char): int {
    if !m.Outside? then 0 else if c == '[' || c == '{' then 1 else if c == ']' || c == '}' then -1 else 0
  }

  function ModeAfter(s: string, m: Mode): Mode {
    if s == "" then m else ModeAfter(s[1..], NextMode(m, s[0]))
  }

  /** Brackets opened outside strings, less those closed. */
  function OpenAfter(s: string, m: Mode): int {
    if s == "" then 0 else Change(m, s[0]) + OpenAfter(s[1..], NextMode(m, s[0]))
  }

  lemma {:induction false} AfterConcat(a: string, b: string, m: Mode)
    ensures ModeAfter(a + b, m) == ModeAfter(b, ModeAfter(a, m))
    ensures OpenAfter(a + b, m) == OpenAfter(a, m) + OpenAfter(b, ModeAfter(a, m))
    decreases |a|
  {
    hide NextMode, Change;
    if a == "" {
      assert a + b == b;
    } else {
      assert (a + b)[1..] == a[1..] + b;
      AfterConcat(a[1..], b, NextMode(m, a[0]));
    }
  }

  /** Neither quotes nor brackets. */
  predicate Plain(s: string) {
    forall c | c in s :: c !in "\"[]{}"
  }

  lemma {:induction false} AfterPlain(s: string)
    requires Plain(s)
    ensures ModeAfter(s, Outside) == Outside && OpenAfter(s, Outside) == 0
  {
    if s != "" {
      assert s[0] in s && forall c | c in s[1..] :: c in s;
      AfterPlain(s[1..]);
    }
  }

  lemma {:induction false} AfterQuoted(s: string)
    ensures ModeAfter(Quoted(s), Inside) == Inside && OpenAfter(Quoted(s), Inside) == 0
  {
    hide EscapeOf, ModeAfter, OpenAfter;
    if s == "" {
      AfterNothing(Inside);
    } else {
      AfterEscape(s[0]);
      AfterQuoted(s[1..]);
      AfterConcat(EscapeOf(s[0]), Quoted(s[1..]), Inside);
    }
  }

  lemma AfterNothing(m: Mode)
    ensures ModeAfter("", m) == m && OpenAfter("", m) == 0
  {
  }

  lemma AfterOne(c: char, m: Mode)
    ensures ModeAfter([c], m) == NextMode(m, c) && OpenAfter([c], m) == Change(m, c)
  {
    assert [c][1..] == "";
  }

  lemma AfterEscape(c: char)
    ensures ModeAfter(EscapeOf(c), Inside) == Inside && OpenAfter(EscapeOf(c), Inside) == 0
  {
    hide ModeAfter, OpenAfter;
    var e := EscapeOf(c);
    if |e| == 2 {
      assert e == [e[0]] + [e[1]];
      AfterOne(e[0], Inside);
      AfterOne(e[1], Escape);
      AfterConcat([e[0]], [e[1]], Inside);
    } else {
      AfterOne(c, Inside);
    }
  }

  lemma AfterString(s: string)
    ensures ModeAfter(StringText(s), Outside) == Outside && OpenAfter(StringText(s), Outside) == 0
  {
    hide ModeAfter, OpenAfter, Quoted;
    AfterQuoted(s);
    AfterOne('"', Outside);
    AfterOne('"', Inside);
    AfterConcat("\"", Quoted(s), Outside);
    AfterConcat("\"" + Quoted(s), "\"", Outside);
  }

  /** A spelled token is one line, begins with a character that is not white space, and counts as its depth. */
  lemma LexemeShape(x: Terminal)
    requires Proper([x])
    ensures var l := Lexeme(x);
            && l != "" && OneLine(l) && l[0] !in BLANKS && (l[0] == ']' || l[0] == '}' <==> Closes(x))
            && ModeAfter(l, Outside) == Outside && OpenAfter(l, Outside) == Depth(x)
  {
    hide ModeAfter, OpenAfter, Quoted, IntText, Lexeme;
    match x
    case AnyString(s) =>
      StringsOneLine(s);
      AfterString(s);
      StringLexeme(s);
    case AnyNumber(n) =>
      NumberShape(n);
      AfterPlain(IntText(n));
      NumberLexemeIs(n);
    case Punct(kind) => PunctShape(kind);
    case _ => WordShape(x);
  }

  lemma StringLexeme(s: string)
    ensures Lexeme(AnyString(s)) == StringText(s) && StringText(s) != "" && StringText(s)[0] == '"'
  {
    hide Quoted;
  }

  lemma NumberLexemeIs(n: int)
    ensures Lexeme(AnyNumber(n)) == IntText(n)
  {
  }

  lemma PunctShape(kind: Kind)
    requires Proper([Punct(kind)])
    ensures var l := Lexeme(Punct(kind));
            && |l| == 1 && OneLine(l) && l[0] !in BLANKS && (l[0] == ']' || l[0] == '}' <==> Closes(Punct(kind)))
            && ModeAfter(l, Outside) == Outside && OpenAfter(l, Outside) == Depth(Punct(kind))
  {
    hide ModeAfter, OpenAfter;
    assert Punct(kind) in [Punct(kind)];
    var l := Lexeme(Punct(kind));
    assert l == [l[0]];
    AfterOne(l[0], Outside);
  }

  lemma WordShape(x: Terminal)
    requires x.AnyBoolean? || x.AnyNull?
    ensures var l := Lexeme(x);
            && l != "" && OneLine(l) && l[0] in "tfn" && !Closes(x) && Depth(x) == 0
            && ModeAfter(l, Outside) == Outside && OpenAfter(l, Outside) == 0
  {
    hide ModeAfter, OpenAfter;
    AfterPlain(Lexeme(x));
  }

  lemma NumberShape(n: int)
    ensures var s := IntText(n); s != "" && OneLine(s) && Plain(s) && s[0] !in BLANKS && s[0] != ']' && s[0] != '}'
  {
    hide Digits;
    var digits := Digits(if n < 0 then -n else n);
    assert digits[0] in digits;
    assert forall c | c in IntText(n) :: c in digits || c == '-';
  }

  lemma GapShape(x: Terminal, y: Terminal, e: int)
    requires e >= 0 && e + Depth(y) >= 0
    ensures var g := Gap(x, y, e);
            && ModeAfter(g, Outside) == Outside && OpenAfter(g, Outside) == 0
            && (forall k | 1 <= k < |g| :: g[k] == '\t')
            && (g != "" && g[0] == '\n' ==> |g| - 1 == e - (if Closes(y) then 1 else 0))
  {
    hide ModeAfter, OpenAfter;
    var g := Gap(x, y, e);
    assert forall k | 0 <= k < |g| :: g[k] in " \n\t";
    AfterPlain(g);
  }

  lemma {:induction false} LineOfLayout(y: seq<Terminal>, depth: int, i: nat) returns (j: nat)
    requires y != [] && Proper(y) && NestedFrom(y, depth)
    requires i < |Layout(y, depth)| && Layout(y, depth)[i] == '\n'
    ensures var s := Layout(y, depth);
            && i < j < |s| && (forall k | i < k < j :: s[k] == '\t') && s[j] !in BLANKS
            && ModeAfter(s[..i], Outside) == Outside
            && j - i - 1 == depth + OpenAfter(s[..i], Outside) - (if s[j] == ']' || s[j] == '}' then 1 else 0)
    decreases |y|
  {
    hide *;
    var x := y[0];
    var l := Lexeme(x);
    ProperFirst(y);
    LexemeShape(x);
    j := 0;
    if |y| == 1 {
      assert y == [x];
      LayoutOne(x, depth);
      assert l + "" == l;
      NotInLexeme(l, "", i);
      assert false;
    } else {
      var tail, e := y[1..], depth + Depth(x);
      var g, rest := Gap(x, tail[0], e), Layout(tail, e);
      assert y == [x] + tail && y[1] == tail[0];
      LayoutStep(x, tail, depth);
      ProperFirst(tail);
      NestedTwo(y, depth);
      LexemeShape(tail[0]);
      GapShape(x, tail[0], e);
      FirstOfLayout(tail, e);
      NotInLexeme(l, g + rest, i);
      assert l + g + rest == l + (g + rest);
      if i < |l| + |g| {
        j := LineInGap(l, g, rest, i);
      } else {
        assert (l + g + rest)[i] == rest[i - |l| - |g|];
        var k := LineOfLayout(tail, e, i - |l| - |g|);
        j := |l| + |g| + k;
        LineBehind(l + g, rest, i - |l| - |g|, k);
        AfterBehind(l, g, rest[..i - |l| - |g|]);
      }
    }
  }

  lemma NotInLexeme(l: string, tail: string, i: nat)
    requires OneLine(l) && i < |l + tail| && (l + tail)[i] == '\n'
    ensures i >= |l|
  {
    assert forall k | 0 <= k < |l| :: (l + tail)[k] == l[k] && l[k] in l;
  }

  lemma ProperFirst(y: seq<Terminal>)
    requires y != [] && Proper(y)
    ensures Proper([y[0]]) && Proper(y[1..])
  {
    assert y == [y[0]] + y[1..];
    ProperConcat([y[0]], y[1..]);
  }

  lemma LineInGap(l: string, g: string, rest: string, i: nat) returns (j: nat)
    requires |l| <= i < |l| + |g| && (l + g + rest)[i] == '\n' && rest != "" && forall k | 1 <= k < |g| :: g[k] == '\t'
    ensures var s := l + g + rest;
            && i == |l| && j == |l| + |g| && g[0] == '\n' && s[..i] == l && s[j] == rest[0]
            && forall k | i < k < j :: s[k] == '\t'
  {
    var s := l + g + rest;
    assert forall k | |l| <= k < |l| + |g| :: s[k] == g[k - |l|];
    j := |l| + |g|;
  }

  /** A line in the second part of a text. */
  lemma LineBehind(front: string, rest: string, i: nat, j: nat)
    requires i < j < |rest| && forall k | i < k < j :: rest[k] == '\t'
    ensures var s, n := front + rest, |front|;
            && (forall k | n + i < k < n + j :: s[k] == '\t') && s[n + j] == rest[j] && s[..n + i] == front + rest[..i]
  {
    var s, n := front + rest, |front|;
    forall k | n + i < k < n + j
      ensures s[k] == '\t'
    {
      assert s[k] == rest[k - n];
    }
  }

  lemma AfterBehind(l: string, g: string, prefix: string)
    requires ModeAfter(l, Outside) == Outside == ModeAfter(g, Outside) && OpenAfter(g, Outside) == 0
    ensures ModeAfter((l + g) + prefix, Outside) == ModeAfter(prefix, Outside)
    ensures OpenAfter((l + g) + prefix, Outside) == OpenAfter(l, Outside) + OpenAfter(prefix, Outside)
  {
    hide ModeAfter, OpenAfter;
    AfterConcat(l, g, Outside);
    AfterConcat(l + g, prefix, Outside);
  }

  lemma FirstOfLayout(y: seq<Terminal>, depth: int)
    requires y != [] && Lexeme(y[0]) != ""
    ensures Layout(y, depth) != "" && Layout(y, depth)[0] == Lexeme(y[0])[0]
  {
    hide Lexeme, Gap;
  }

  /**
   * Behind every newline of a written tree stand as many tabs as brackets are open there outside strings, counted from
   * the depth given, one fewer when the line begins by closing; and then a character that is not white space.
   */
  lemma LinesIndented(t: Json, d: nat, i: nat) returns (j: nat)
    requires i < |Text(t, d)| && Text(t, d)[i] == '\n'
    ensures var s := Text(t, d);
            && i < j < |s| && (forall k | i < k < j :: s[k] == '\t') && s[j] !in BLANKS
            && ModeAfter(s[..i], Outside) == Outside
            && j - i - 1 == d + OpenAfter(s[..i], Outside) - (if s[j] == ']' || s[j] == '}' then 1 else 0)
  {
    hide Text, Layout, Yield, NestedFrom, Depths, Proper, ModeAfter, OpenAfter;
    TextIsLayout(t, d);
    TreeFramed(t);
    NestedDeeper(Yield(t), 0, d);
    j := LineOfLayout(Yield(t), d, i);
  }
}
