/** The second phase of the reader: tokens to an element tree, by recursive descent. */
module JsonParser {
  import opened Decimal
  import opened Options
  import opened JsonTree
  import opened JsonScanner

  // ---------- Numbers ----------

  function Clamp(n: int): int {
    if n < INT_MIN then INT_MIN else if n > INT_MAX then INT_MAX else n
  }

  /**
   * `>>` into an int, and the test that it consumed the whole token.  Out of range it saturates, and without a digit
   * it gives 0, as the standard library prescribes; the program looks at neither failure.
   */
  function NumberValue(token: string): Option<int> {
    var signed := token != "" && (token[0] == '-' || token[0] == '+');
    var q := if signed then 1 else 0;
    var e := RunEnd(token, q);
    if e < |token| then None
    else
      var v: int := Value(token[q..e]);
      Some(Clamp(if signed && token[0] == '-' then -v else v))
  }

  /** What the program calls a double never parses: the point is left unread. */
  lemma DoubleNeverParses(token: string)
    requires '.' in token
    ensures NumberValue(token) == None
  {
    var i :| 0 <= i < |token| && token[i] == '.';
  }

  // ---------- The parser as a function ----------

  /** `DoubleElement` stands for the double that the program would make here; it is not part of the tree. */
  datatype Failure =
    | DoubleElement(token: Token)
    | NoTokens | EndOfTokens(last: Token) | Unexpected(token: Token) | BadNumber(token: Token) | DuplicateName(token: Token)

  datatype Parse<T> = Parsed(value: T, next: nat) | Rejected(why: Failure)

  function AtEnd(ts: seq<Token>): Failure {
    if ts == [] then NoTokens else EndOfTokens(ts[|ts| - 1])
  }

  /** `MatchExpectedToken` */
  function Accept<T>(ts: seq<Token>, p: nat, kind: Kind, value: T): (r: Parse<T>)
    ensures r.Parsed? <==> p < |ts| && ts[p].kind == kind
    ensures r.Parsed? ==> r == Parsed(value, p + 1)
  {
    if p >= |ts| then Rejected(AtEnd(ts))
    else if ts[p].kind != kind then Rejected(Unexpected(ts[p]))
    else Parsed(value, p + 1)
  }

  predicate NextIs(ts: seq<Token>, p: nat, kind: Kind) {
    p < |ts| && ts[p].kind == kind
  }

  function ParseValue(ts: seq<Token>, p: nat): (r: Parse<Json>)
    ensures r.Parsed? ==> p < r.next <= |ts|
    decreases |ts| - p, 1
  {
    if p >= |ts| then Rejected(AtEnd(ts))
    else
      match ts[p].kind
      case ObjectBegin =>
        if p + 1 < |ts| && ts[p + 1].kind != ObjectEnd then
          match ParseMembers(ts, p + 1, [])
          case Parsed(ms, q) => Accept(ts, q, ObjectEnd, Obj(ms))
          case Rejected(why) => Rejected(why)
        else Accept(ts, p + 1, ObjectEnd, Obj([]))
      case ArrayBegin =>
        if p + 1 < |ts| && ts[p + 1].kind != ArrayEnd then
          match ParseElements(ts, p + 1, [])
          case Parsed(es, q) => Accept(ts, q, ArrayEnd, Arr(es))
          case Rejected(why) => Rejected(why)
        else Accept(ts, p + 1, ArrayEnd, Arr([]))
      case StringToken => Parsed(Str(ts[p].value), p + 1)
      case NumberToken =>
        (match NumberValue(ts[p].value)
         case Some(n) => Parsed(Json.Number(n), p + 1)
         case None => Rejected(BadNumber(ts[p])))
      case DoubleToken =>
        (match NumberValue(ts[p].value)
         case Some(_) => Rejected(DoubleElement(ts[p]))
         case None => Rejected(BadNumber(ts[p])))
      case BooleanToken => Parsed(Bool(ts[p].value == "true"), p + 1)
      case NullToken => Parsed(Null, p + 1)
      case _ => Rejected(Unexpected(ts[p]))
  }

  /** The loop over the elements of an array, with those found so far. */
  function ParseElements(ts: seq<Token>, p: nat, found: seq<Json>): (r: Parse<seq<Json>>)
    ensures r.Parsed? ==> p < r.next <= |ts|
    decreases |ts| - p, 2
  {
    match ParseValue(ts, p)
    case Rejected(why) => Rejected(why)
    case Parsed(e, q) =>
      if NextIs(ts, q, NextElement) then ParseElements(ts, q + 1, found + [e]) else Parsed(found + [e], q)
  }

  /** Name, colon and value. */
  function ParseMember(ts: seq<Token>, p: nat): (r: Parse<Member>)
    ensures r.Parsed? ==> p < r.next <= |ts|
    decreases |ts| - p, 2
  {
    match Accept(ts, p, StringToken, ())
    case Rejected(why) => Rejected(why)
    case Parsed(_, _) =>
      match Accept(ts, p + 1, MemberAssign, ())
      case Rejected(why) => Rejected(why)
      case Parsed(_, _) =>
        match ParseValue(ts, p + 2)
        case Rejected(why) => Rejected(why)
        case Parsed(v, q) => Parsed(Member(ts[p].value, v), q)
  }

  /** The loop over the members of an object. */
  function ParseMembers(ts: seq<Token>, p: nat, found: seq<Member>): (r: Parse<seq<Member>>)
    ensures r.Parsed? ==> p < r.next <= |ts|
    decreases |ts| - p, 3
  {
    match ParseMember(ts, p)
    case Rejected(why) => Rejected(why)
    case Parsed(m, q) =>
      if HasName(found, m.name) then Rejected(DuplicateName(ts[p]))
      else if NextIs(ts, q, NextElement) then ParseMembers(ts, q + 1, found + [m])
      else Parsed(found + [m], q)
  }

  /** The second half of `Read_i`: nothing may follow the tree. */
  function ParseAll(ts: seq<Token>): Parse<Json> {
    match ParseValue(ts, 0)
    case Rejected(why) => Rejected(why)
    case Parsed(t, q) => if q < |ts| then Rejected(Unexpected(ts[q])) else Parsed(t, q)
  }

  // ---------- The parser itself ----------

  datatype Result<T> = Ok(value: T) | Err(why: Failure)

  class TokenStream {
    const tokens: seq<Token>
    var current: nat

    constructor (tokens: seq<Token>)
      ensures this.tokens == tokens && current == 0
    {
      this.tokens := tokens;
      current := 0;
    }

    predicate EOS()
      reads this
    {
      current >= |tokens|
    }

    function Peek(): Token
      requires !EOS()
      reads this
    {
      tokens[current]
    }

    method MatchExpectedToken(kind: Kind) returns (r: Result<string>)
      modifies this
      ensures match Accept(tokens, old(current), kind, ())
              case Parsed(_, q) => current == q && r == Ok(tokens[old(current)].value)
              case Rejected(why) => r == Err(why)
    {
      if EOS() {
        return Err(AtEnd(tokens));
      }
      var token := Peek();
      current := current + 1;
      r := if token.kind != kind then Err(Unexpected(token)) else Ok(token.value);
    }
  }

  /** A call of the parser leaves the cursor behind what it took, and returns what the function says. */
  ghost predicate Agrees<T(!new)>(stream: TokenStream, r: Result<T>, spec: Parse<T>)
    reads stream
  {
    match spec
    case Parsed(v, q) => r == Ok(v) && stream.current == q
    case Rejected(why) => r == Err(why)
  }

  /** `Parse(UnknownElement&)` */
  method ParseUnknown(stream: TokenStream) returns (r: Result<Json>)
    modifies stream
    ensures Agrees(stream, r, ParseValue(stream.tokens, old(stream.current)))
    decreases |stream.tokens| - stream.current, 2
  {
    if stream.EOS() {
      return Err(AtEnd(stream.tokens));
    }
    var token := stream.Peek();
    match token.kind {
      case ObjectBegin =>
        r := ParseObject(stream);
      case ArrayBegin =>
        r := ParseArray(stream);
      case StringToken =>
        var s := stream.MatchExpectedToken(StringToken);
        r := Ok(Str(s.value));
      case NumberToken =>
        var s := stream.MatchExpectedToken(NumberToken);
        match NumberValue(s.value) {
          case Some(n) => r := Ok(Json.Number(n));
          case None => r := Err(BadNumber(token));
        }
      case DoubleToken =>
        var s := stream.MatchExpectedToken(DoubleToken);
        match NumberValue(s.value) {
          case Some(_) => r := Err(DoubleElement(token));
          case None => r := Err(BadNumber(token));
        }
      case BooleanToken =>
        var s := stream.MatchExpectedToken(BooleanToken);
        r := Ok(Bool(s.value == "true"));
      case NullToken =>
        var s := stream.MatchExpectedToken(NullToken);
        r := Ok(Null);
      case _ =>
        r := Err(Unexpected(token));
    }
  }

  /** `Parse(Array&)` */
  method ParseArray(stream: TokenStream) returns (r: Result<Json>)
    requires NextIs(stream.tokens, stream.current, ArrayBegin)
    modifies stream
    ensures Agrees(stream, r, ParseValue(stream.tokens, old(stream.current)))
    decreases |stream.tokens| - stream.current, 1
  {
    hide ParseValue, ParseElements;
    ArrayUnfolds(stream.tokens, stream.current);
    ghost var start := stream.current + 1;
    var begin := stream.MatchExpectedToken(ArrayBegin);
    var elements: seq<Json> := [];
    var more := !stream.EOS() && stream.Peek().kind != ArrayEnd;
    ghost var looped := more;
    while more
      invariant looped || (stream.current == start && elements == [])
      invariant start <= stream.current
      invariant looped ==> ParseElements(stream.tokens, start, [])
                           == if more then ParseElements(stream.tokens, stream.current, elements)
                              else Parsed(elements, stream.current)
      decreases |stream.tokens| - stream.current, more
    {
      ElementsUnfold(stream.tokens, stream.current, elements);
      var e := ParseUnknown(stream);
      if e.Err? {
        return Err(e.why);
      }
      elements := elements + [e.value];
      more := !stream.EOS() && stream.Peek().kind == NextElement;
      if more {
        var comma := stream.MatchExpectedToken(NextElement);
      }
    }
    var end := stream.MatchExpectedToken(ArrayEnd);
    r := if end.Ok? then Ok(Arr(elements)) else Err(end.why);
  }

  /** The first part of the loop of `Parse(Object&)`: name, colon and value. */
  method ParseNameAndValue(stream: TokenStream) returns (r: Result<Member>)
    modifies stream
    ensures Agrees(stream, r, ParseMember(stream.tokens, old(stream.current)))
    decreases |stream.tokens| - stream.current, 3
  {
    var name := stream.MatchExpectedToken(StringToken);
    if name.Err? {
      return Err(name.why);
    }
    var assign := stream.MatchExpectedToken(MemberAssign);
    if assign.Err? {
      return Err(assign.why);
    }
    var value := ParseUnknown(stream);
    r := if value.Err? then Err(value.why) else Ok(Member(name.value, value.value));
  }

  /** `Parse(Object&)` */
  method ParseObject(stream: TokenStream) returns (r: Result<Json>)
    requires NextIs(stream.tokens, stream.current, ObjectBegin)
    modifies stream
    ensures Agrees(stream, r, ParseValue(stream.tokens, old(stream.current)))
    decreases |stream.tokens| - stream.current, 1
  {
    hide ParseMember, ParseValue, ParseMembers;
    ObjectUnfolds(stream.tokens, stream.current);
    ghost var start := stream.current + 1;
    var begin := stream.MatchExpectedToken(ObjectBegin);
    var obj := new Object();
    var more := !stream.EOS() && stream.Peek().kind != ObjectEnd;
    ghost var looped := more;
    while more
      invariant fresh(obj)
      invariant looped || (stream.current == start && obj.members == [])
      invariant start <= stream.current
      invariant looped ==> ParseMembers(stream.tokens, start, [])
                           == if more then ParseMembers(stream.tokens, stream.current, obj.members)
                              else Parsed(obj.members, stream.current)
      decreases |stream.tokens| - stream.current, more
    {
      MembersUnfold(stream.tokens, stream.current, obj.members);
      if stream.EOS() {
        MemberAtEnd(stream.tokens, stream.current);
        return Err(AtEnd(stream.tokens));
      }
      var nameToken := stream.Peek();
      var member := ParseNameAndValue(stream);
      if member.Err? {
        return Err(member.why);
      }
      var inserted := obj.Insert(member.value);
      if !inserted {
        return Err(DuplicateName(nameToken));
      }
      more := !stream.EOS() && stream.Peek().kind == NextElement;
      if more {
        var comma := stream.MatchExpectedToken(NextElement);
      }
    }
    var end := stream.MatchExpectedToken(ObjectEnd);
    r := if end.Ok? then Ok(Obj(obj.members)) else Err(end.why);
  }

  lemma MemberAtEnd(ts: seq<Token>, p: nat)
    requires p >= |ts|
    ensures ParseMember(ts, p) == Rejected(AtEnd(ts))
  {
  }

  // ---------- One level of the functions ----------

  lemma ArrayUnfolds(ts: seq<Token>, p: nat)
    requires NextIs(ts, p, ArrayBegin)
    ensures ParseValue(ts, p)
            == if p + 1 < |ts| && ts[p + 1].kind != ArrayEnd then
                 match ParseElements(ts, p + 1, [])
                 case Parsed(es, q) => Accept(ts, q, ArrayEnd, Arr(es))
                 case Rejected(why) => Rejected(why)
               else Accept(ts, p + 1, ArrayEnd, Arr([]))
  {
    hide ParseElements, Accept;
  }

  lemma ObjectUnfolds(ts: seq<Token>, p: nat)
    requires NextIs(ts, p, ObjectBegin)
    ensures ParseValue(ts, p)
            == if p + 1 < |ts| && ts[p + 1].kind != ObjectEnd then
                 match ParseMembers(ts, p + 1, [])
                 case Parsed(ms, q) => Accept(ts, q, ObjectEnd, Obj(ms))
                 case Rejected(why) => Rejected(why)
               else Accept(ts, p + 1, ObjectEnd, Obj([]))
  {
    hide ParseMembers, Accept;
  }

  lemma ElementsUnfold(ts: seq<Token>, p: nat, found: seq<Json>)
    ensures ParseElements(ts, p, found)
            == match ParseValue(ts, p)
               case Rejected(why) => Rejected(why)
               case Parsed(e, q) =>
                 if NextIs(ts, q, NextElement) then ParseElements(ts, q + 1, found + [e]) else Parsed(found + [e], q)
  {
    hide ParseValue, NextIs;
  }

  lemma MembersUnfold(ts: seq<Token>, p: nat, found: seq<Member>)
    ensures ParseMembers(ts, p, found)
            == match ParseMember(ts, p)
               case Rejected(why) => Rejected(why)
               case Parsed(m, q) =>
                 if HasName(found, m.name) then Rejected(DuplicateName(ts[p]))
                 else if NextIs(ts, q, NextElement) then ParseMembers(ts, q + 1, found + [m])
                 else Parsed(found + [m], q)
  {
    hide ParseMember, NextIs, HasName;
  }
}
