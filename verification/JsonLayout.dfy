/** The layout of written text: one indentation for a whole subtree. */
module JsonLayout {
  import opened Decimal
  import opened JsonTree
  import opened JsonWriter

  /** n tab characters. */
  function TabRun(n: nat): (s: string)
    ensures |s| == n && forall i | 0 <= i < n :: s[i] == '\t'
  {
    seq(n, _ => '\t')
  }

  /** The writer indents with tabs. */
  lemma TabsAreTabs(d: nat)
    ensures Tabs(d) == TabRun(d)
  {
    assert forall i | 0 <= i < d :: Tabs(d)[i] == '\t';
  }

  /** d more tabs at the start of every line but the first. */
  function Indent(s: string, d: nat): string {
    if s == "" then "" else (if s[0] == '\n' then "\n" + TabRun(d) else [s[0]]) + Indent(s[1..], d)
  }

  lemma {:induction false} IndentConcat(a: string, b: string, d: nat)
    ensures Indent(a + b, d) == Indent(a, d) + Indent(b, d)
    decreases |a|
  {
    hide TabRun;
    if a == "" {
      assert a + b == b;
    } else {
      assert (a + b)[1..] == a[1..] + b;
      IndentConcat(a[1..], b, d);
    }
  }

  predicate OneLine(s: string) {
    '\n' !in s
  }

  lemma {:induction false} IndentOneLine(s: string, d: nat)
    requires OneLine(s)
    ensures Indent(s, d) == s
  {
    hide TabRun;
    if s != "" {
      assert s[0] in s && forall c | c in s[1..] :: c in s;
      IndentOneLine(s[1..], d);
      assert [s[0]] + s[1..] == s;
    }
  }

  lemma IndentNewline(d: nat)
    ensures Indent("\n", d) == "\n" + Tabs(d)
  {
    TabsAreTabs(d);
    assert "\n"[1..] == "";
  }

  /** A string is written on one line, whatever characters it holds. */
  lemma {:induction false} StringsOneLine(s: string)
    ensures OneLine(Quoted(s)) && OneLine(StringText(s))
  {
    hide EscapeOf;
    if s != "" {
      EscapesOneLine(s[0]);
      StringsOneLine(s[1..]);
    }
  }

  lemma EscapesOneLine(c: char)
    ensures OneLine(EscapeOf(c))
  {
  }

  lemma AtomsOneLine(t: Json, k: nat)
    requires !t.Arr? && !t.Obj?
    ensures OneLine(Text(t, k))
  {
    hide Digits, Quoted;
    match t
    case Str(s) => StringsOneLine(s);
    case Number(n) => assert '\n' !in Digits(if n < 0 then -n else n);
    case _ =>
  }

  lemma TabsOneLine(j: nat, k: nat)
    ensures OneLine(Tabs(j)) && Tabs(j) + Tabs(k) == Tabs(j + k) == Tabs(k) + Tabs(j)
  {
  }

  /** Tabs, an item and a comma on a line of their own, and the lines behind. */
  lemma ShiftLine(k: nat, d: nat, item: string, item': string, more: bool, rest: string, rest': string)
    requires Indent(item, d) == item' && Tabs(d) + Indent(rest, d) == rest' + Tabs(d)
    ensures Tabs(d) + Indent(Tabs(k) + item + Comma(more) + "\n" + rest, d)
            == Tabs(k + d) + item' + Comma(more) + "\n" + rest' + Tabs(d)
  {
    hide Tabs, Indent;
    var a, b, c := Tabs(k), Tabs(k) + item, Tabs(k) + item + Comma(more);
    TabsOneLine(k, d);
    IndentConcat(c + "\n", rest, d);
    IndentConcat(c, "\n", d);
    IndentConcat(b, Comma(more), d);
    IndentConcat(a, item, d);
    IndentOneLine(a, d);
    IndentOneLine(Comma(more), d);
    IndentNewline(d);
    Regrouped(Tabs(d), a, item', Comma(more), Indent(rest, d), rest');
  }

  lemma Regrouped(t: string, a: string, item: string, comma: string, r: string, rest: string)
    requires t + r == rest + t
    ensures t + (a + item + comma + ("\n" + t) + r) == t + a + item + comma + "\n" + rest + t
  {
    assert t + (a + item + comma + ("\n" + t) + r) == t + a + item + comma + "\n" + (t + r);
  }

  /** Brackets, and lines one step deeper between them. */
  lemma ShiftBrackets(k: nat, d: nat, o: string, lines: string, lines': string, c: string)
    requires OneLine(o) && OneLine(c) && Tabs(d) + Indent(lines, d) == lines' + Tabs(d)
    ensures Indent(o + "\n" + lines + Tabs(k) + c, d) == o + "\n" + lines' + Tabs(k + d) + c
  {
    hide Tabs, Indent, OneLine;
    TabsOneLine(k, d);
    IndentConcat(o + "\n" + lines + Tabs(k), c, d);
    IndentConcat(o + "\n" + lines, Tabs(k), d);
    IndentConcat(o + "\n", lines, d);
    IndentConcat(o, "\n", d);
    IndentOneLine(o, d);
    IndentOneLine(c, d);
    IndentOneLine(Tabs(k), d);
    IndentNewline(d);
    Rebracketed(Tabs(d), Tabs(k), o, Indent(lines, d), lines', c);
  }

  lemma Rebracketed(t: string, u: string, o: string, r: string, lines: string, c: string)
    requires t + r == lines + t
    ensures o + ("\n" + t) + r + u + c == o + "\n" + lines + (t + u) + c
  {
    assert o + ("\n" + t) + r + u + c == o + "\n" + (t + r) + u + c;
  }

  /** Writing a subtree d steps deeper is writing it and indenting every further line by d tabs. */
  lemma {:induction false} DeeperIsIndented(t: Json, k: nat, d: nat)
    ensures Indent(Text(t, k), d) == Text(t, k + d)
    decreases t, 1
  {
    hide Indent, Tabs, ElementLines, MemberLines;
    match t
    case Arr(es) =>
      ShiftElements(es, k + 1, d);
      BracketsOneLine(d);
      if es != [] {
        assert "[\n" == "[" + "\n";
        ShiftBrackets(k, d, "[", ElementLines(es, k + 1), ElementLines(es, k + 1 + d), "]");
      }
    case Obj(ms) =>
      ShiftMembers(ms, k + 1, d);
      BracketsOneLine(d);
      if ms != [] {
        assert "{\n" == "{" + "\n";
        ShiftBrackets(k, d, "{", MemberLines(ms, k + 1), MemberLines(ms, k + 1 + d), "}");
      }
    case _ =>
      AtomsOneLine(t, k);
      IndentOneLine(Text(t, k), d);
  }

  lemma BracketsOneLine(d: nat)
    ensures OneLine("[") && OneLine("]") && OneLine("{") && OneLine("}")
    ensures Indent("[]", d) == "[]" && Indent("{}", d) == "{}"
  {
    IndentOneLine("[]", d);
    IndentOneLine("{}", d);
  }

  lemma {:induction false} ShiftElements(es: seq<Json>, k: nat, d: nat)
    ensures Tabs(d) + Indent(ElementLines(es, k), d) == ElementLines(es, k + d) + Tabs(d)
    decreases es, 0
  {
    hide Tabs, Text, Comma;
    if es != [] {
      DeeperIsIndented(es[0], k, d);
      ShiftElements(es[1..], k, d);
      ShiftLine(k, d, Text(es[0], k), Text(es[0], k + d), |es| > 1,
                ElementLines(es[1..], k), ElementLines(es[1..], k + d));
    }
  }

  lemma {:induction false} ShiftMembers(ms: seq<Member>, k: nat, d: nat)
    ensures Tabs(d) + Indent(MemberLines(ms, k), d) == MemberLines(ms, k + d) + Tabs(d)
    decreases ms, 0
  {
    hide Tabs, Text, Comma, StringText, MemberText;
    if ms != [] {
      ShiftMember(ms[0], k, d);
      ShiftMembers(ms[1..], k, d);
      ShiftLine(k, d, MemberText(ms[0], k), MemberText(ms[0], k + d), |ms| > 1,
                MemberLines(ms[1..], k), MemberLines(ms[1..], k + d));
    }
  }

  lemma {:induction false} ShiftMember(m: Member, k: nat, d: nat)
    ensures Indent(MemberText(m, k), d) == MemberText(m, k + d)
    decreases m, 0
  {
    hide Indent, StringText, Text;
    DeeperIsIndented(m.value, k, d);
    StringsOneLine(m.name);
    IndentConcat(StringText(m.name) + " : ", Text(m.value, k), d);
    IndentOneLine(StringText(m.name) + " : ", d);
  }
}
