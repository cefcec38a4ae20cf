/** The writer: an element tree as indented text. */
module JsonWriter {
  import opened Decimal
  import opened JsonTree

  // ---------- The text of a tree ----------

  function EscapeOf(c: char): (e: string)
    ensures e != ""
  {
    if c == '"' then "\\\""
    else if c == '\\' then "\\\\"
    else if c == 8 as char then "\\b"
    else if c == 12 as char then "\\f"
    else if c == '\n' then "\\n"
    else if c == '\r' then "\\r"
    else if c == '\t' then "\\t"
    else [c]
  }

  function Quoted(s: string): string {
    if s == "" then "" else EscapeOf(s[0]) + Quoted(s[1..])
  }

  function StringText(s: string): string {
    "\"" + Quoted(s) + "\""
  }

  function Tabs(d: nat): string {
    seq(d, _ => '\t')
  }

  function Comma(more: bool): string {
    if more then "," else ""
  }

  /** A line at depth d, with a comma if more follows. */
  function Line(item: string, d: nat, more: bool): string {
    Tabs(d) + item + Comma(more) + "\n"
  }

  /** The text of a tree whose first line stands at depth d. */
  function Text(t: Json, d: nat): string
    decreases t, 0
  {
    match t
    case Null => "null"
    case Bool(b) => if b then "true" else "false"
    case Number(n) => IntText(n)
    case Str(s) => StringText(s)
    case Arr(es) => if es == [] then "[]" else "[\n" + ElementLines(es, d + 1) + Tabs(d) + "]"
    case Obj(ms) => if ms == [] then "{}" else "{\n" + MemberLines(ms, d + 1) + Tabs(d) + "}"
  }

  /** One line for each element, with a comma behind all but the last. */
  function ElementLines(es: seq<Json>, d: nat): string
    decreases es
  {
    if es == [] then ""
    else Line(Text(es[0], d), d, |es| > 1) + ElementLines(es[1..], d)
  }

  function MemberText(m: Member, d: nat): string
    decreases m
  {
    StringText(m.name) + " : " + Text(m.value, d)
  }

  function MemberLines(ms: seq<Member>, d: nat): string
    decreases ms
  {
    if ms == [] then ""
    else Line(MemberText(ms[0], d), d, |ms| > 1) + MemberLines(ms[1..], d)
  }

  // ---------- The writer itself ----------

  class Writer {
    var out: string
    var tabDepth: nat

    constructor ()
      ensures out == "" && tabDepth == 0
    {
      out, tabDepth := "", 0;
    }

    method Put(s: string)
      modifies `out
      ensures out == old(out) + s
    {
      out := out + s;
    }

    /** `Write_i(const UnknownElement&)`: the text is appended, and the depth is as it was. */
    method Write(t: Json)
      modifies this
      ensures out == old(out) + Text(t, tabDepth) && tabDepth == old(tabDepth)
      decreases t, 1
    {
      match t
      case Null => Put("null");
      case Bool(b) => Put(if b then "true" else "false");
      case Number(n) => Put(IntText(n));
      case Str(s) => WriteString(s);
      case Arr(es) => WriteArray(es);
      case Obj(ms) => WriteObject(ms);
    }

    method WriteString(s: string)
      modifies `out
      ensures out == old(out) + StringText(s)
    {
      hide Quoted, EscapeOf;
      Put("\"");
      ghost var start := out;
      var i := 0;
      assert s[0..] == s;
      while i < |s|
        invariant i <= |s| && out + Quoted(s[i..]) == start + Quoted(s)
      {
        ghost var was := out;
        QuotedFrom(s, i);
        Put(EscapeOf(s[i]));
        Regroup(was, EscapeOf(s[i]), Quoted(s[i + 1..]));
        i := i + 1;
      }
      QuotedFrom(s, i);
      assert out + "" == out;
      Put("\"");
      Surround(old(out), "\"", Quoted(s), "\"");
    }

    /** A comma, if more follows, and the end of the line. */
    method EndLine(more: bool)
      modifies `out
      ensures out == old(out) + Comma(more) + "\n"
    {
      if more {
        Put(",");
      } else {
        assert out + "" == out;
      }
      Put("\n");
    }

    /** One pass of the loop over the elements of an array. */
    method WriteElement(e: Json, more: bool)
      modifies this
      ensures out == old(out) + Line(Text(e, tabDepth), tabDepth, more) && tabDepth == old(tabDepth)
      decreases e, 2
    {
      hide *;
      ghost var was, item := out, Text(e, tabDepth);
      Put(Tabs(tabDepth));
      Write(e);
      EndLine(more);
      LineOf(was, item, tabDepth, more);
    }

    method WriteArray(es: seq<Json>)
      modifies this
      ensures out == old(out) + Text(Arr(es), tabDepth) && tabDepth == old(tabDepth)
      decreases es
    {
      hide *;
      ArrayText(es, tabDepth);
      if es == [] {
        Put("[]");
        return;
      }
      Put("[\n");
      ghost var start, d := out, tabDepth;
      tabDepth := tabDepth + 1;
      var i := 0;
      assert es[0..] == es;
      while i < |es|
        invariant i <= |es| && tabDepth == d + 1
        invariant out + ElementLines(es[i..], d + 1) == start + ElementLines(es, d + 1)
      {
        ElementLinesFrom(es, i, d + 1);
        Regroup(out, Line(Text(es[i], d + 1), d + 1, i + 1 != |es|), ElementLines(es[i + 1..], d + 1));
        WriteElement(es[i], i + 1 != |es|);
        i := i + 1;
      }
      ElementLinesFrom(es, i, d + 1);
      assert out + "" == out;
      tabDepth := tabDepth - 1;
      Put(Tabs(tabDepth) + "]");
      Surround(old(out), "[\n", ElementLines(es, d + 1), Tabs(d) + "]");
    }

    /** One pass of the loop over the members of an object. */
    method WriteMember(m: Member, more: bool)
      modifies this
      ensures out == old(out) + Line(MemberText(m, tabDepth), tabDepth, more) && tabDepth == old(tabDepth)
      decreases m
    {
      hide *;
      ghost var was, item := out, MemberText(m, tabDepth);
      Put(Tabs(tabDepth));
      ghost var indented := out;
      WriteString(m.name);
      Put(" : ");
      Write(m.value);
      NameAndValue(indented, m, tabDepth);
      EndLine(more);
      LineOf(was, item, tabDepth, more);
    }

    method WriteObject(ms: seq<Member>)
      modifies this
      ensures out == old(out) + Text(Obj(ms), tabDepth) && tabDepth == old(tabDepth)
      decreases ms
    {
      hide *;
      ObjectText(ms, tabDepth);
      if ms == [] {
        Put("{}");
        return;
      }
      Put("{\n");
      ghost var start, d := out, tabDepth;
      tabDepth := tabDepth + 1;
      var i := 0;
      assert ms[0..] == ms;
      while i < |ms|
        invariant i <= |ms| && tabDepth == d + 1
        invariant out + MemberLines(ms[i..], d + 1) == start + MemberLines(ms, d + 1)
      {
        MemberLinesFrom(ms, i, d + 1);
        Regroup(out, Line(MemberText(ms[i], d + 1), d + 1, i + 1 != |ms|), MemberLines(ms[i + 1..], d + 1));
        WriteMember(ms[i], i + 1 != |ms|);
        i := i + 1;
      }
      MemberLinesFrom(ms, i, d + 1);
      assert out + "" == out;
      tabDepth := tabDepth - 1;
      Put(Tabs(tabDepth) + "}");
      Surround(old(out), "{\n", MemberLines(ms, d + 1), Tabs(d) + "}");
    }
  }

  // ---------- Unfolding, and the regrouping of strings ----------

  lemma QuotedFrom(s: string, i: nat)
    requires i <= |s|
    ensures Quoted(s[i..]) == if i == |s| then "" else EscapeOf(s[i]) + Quoted(s[i + 1..])
  {
    hide EscapeOf;
    if i < |s| {
      assert s[i..][1..] == s[i + 1..];
    }
  }

  lemma ElementLinesFrom(es: seq<Json>, i: nat, d: nat)
    requires i <= |es|
    ensures ElementLines(es[i..], d)
            == if i == |es| then ""
               else Line(Text(es[i], d), d, i + 1 != |es|) + ElementLines(es[i + 1..], d)
  {
    hide Line, Text;
    if i < |es| {
      assert es[i..][1..] == es[i + 1..];
    }
  }

  lemma MemberLinesFrom(ms: seq<Member>, i: nat, d: nat)
    requires i <= |ms|
    ensures MemberLines(ms[i..], d)
            == if i == |ms| then ""
               else Line(MemberText(ms[i], d), d, i + 1 != |ms|) + MemberLines(ms[i + 1..], d)
  {
    hide Line, MemberText;
    if i < |ms| {
      assert ms[i..][1..] == ms[i + 1..];
    }
  }

  lemma NameAndValue(s: string, m: Member, d: nat)
    ensures s + StringText(m.name) + " : " + Text(m.value, d) == s + MemberText(m, d)
  {
    hide StringText, Text;
  }

  lemma LineOf(was: string, item: string, d: nat, more: bool)
    ensures was + Tabs(d) + item + Comma(more) + "\n" == was + Line(item, d, more)
  {
    hide Tabs, Comma;
  }

  lemma Regroup(a: string, b: string, c: string)
    ensures a + b + c == a + (b + c)
  {
  }

  lemma Surround(a: string, b: string, c: string, d: string)
    ensures a + b + c + d == a + (b + c + d)
  {
  }

  lemma ArrayText(es: seq<Json>, d: nat)
    ensures Text(Arr(es), d) == if es == [] then "[]" else "[\n" + ElementLines(es, d + 1) + Tabs(d) + "]"
  {
  }

  lemma ObjectText(ms: seq<Member>, d: nat)
    ensures Text(Obj(ms), d) == if ms == [] then "{}" else "{\n" + MemberLines(ms, d + 1) + Tabs(d) + "}"
  {
  }

  /** `Writer::Write` */
  method WriteText(t: Json) returns (text: string)
    ensures text == Text(t, 0)
  {
    var writer := new Writer();
    writer.Write(t);
    text := writer.out;
    assert "" + text == text;
  }
}
