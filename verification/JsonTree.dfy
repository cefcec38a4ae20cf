/** The element tree: null, booleans, 32-bit numbers, strings, arrays and objects. */
module JsonTree {
  datatype Json =
    | Null
    | Bool(b: bool)
    | Number(n: int)
    | Str(s: string)
    | Arr(elements: seq<Json>)
    | Obj(members: seq<Member>)

  datatype Member = Member(name: string, value: Json)

  const INT_MIN := -0x8000_0000
  const INT_MAX := 0x7fff_ffff

  /** Some member has this name. */
  predicate HasName(members: seq<Member>, name: string) {
    exists i | 0 <= i < |members| :: members[i].name == name
  }

  predicate UniqueNames(members: seq<Member>) {
    forall i, j | 0 <= i < j < |members| :: members[i].name != members[j].name
  }

  /** Numbers fit an int, and within each object, at any depth, names differ. */
  predicate WellFormed(t: Json) {
    match t
    case Number(n) => INT_MIN <= n <= INT_MAX
    case Arr(es) => forall e | e in es :: WellFormed(e)
    case Obj(ms) => UniqueNames(ms) && forall m | m in ms :: WellFormed(m.value)
    case _ => true
  }

  // ---------- operator == ----------

  /** Types first, then values; containers element by element, in order. */
  predicate Equal(t: Json, u: Json)
    decreases t, 1
  {
    match (t, u)
    case (Null, Null) => true
    case (Bool(a), Bool(b)) => a == b
    case (Number(a), Number(b)) => a == b
    case (Str(a), Str(b)) => a == b
    case (Arr(a), Arr(b)) => EqualElements(a, b)
    case (Obj(a), Obj(b)) => EqualMembers(a, b)
    case _ => false
  }

  predicate EqualElements(a: seq<Json>, b: seq<Json>)
    decreases a, 0
  {
    if a == [] || b == [] then a == [] && b == []
    else Equal(a[0], b[0]) && EqualElements(a[1..], b[1..])
  }

  predicate EqualMembers(a: seq<Member>, b: seq<Member>)
    decreases a, 0
  {
    if a == [] || b == [] then a == [] && b == []
    else a[0].name == b[0].name && Equal(a[0].value, b[0].value) && EqualMembers(a[1..], b[1..])
  }

  /** The comparison of the program is equality of trees. */
  lemma {:induction false} EqualIff(t: Json, u: Json)
    ensures Equal(t, u) <==> t == u
    decreases t, 1
  {
    match (t, u)
    case (Arr(a), Arr(b)) => EqualElementsIff(a, b);
    case (Obj(a), Obj(b)) => EqualMembersIff(a, b);
    case _ =>
  }

  lemma {:induction false} EqualElementsIff(a: seq<Json>, b: seq<Json>)
    ensures EqualElements(a, b) <==> a == b
    decreases a, 0
  {
    if a != [] && b != [] {
      EqualIff(a[0], b[0]);
      EqualElementsIff(a[1..], b[1..]);
      assert a == [a[0]] + a[1..] && b == [b[0]] + b[1..];
    }
  }

  lemma {:induction false} EqualMembersIff(a: seq<Member>, b: seq<Member>)
    ensures EqualMembers(a, b) <==> a == b
    decreases a, 0
  {
    if a != [] && b != [] {
      EqualIff(a[0].value, b[0].value);
      EqualMembersIff(a[1..], b[1..]);
      assert a == [a[0]] + a[1..] && b == [b[0]] + b[1..];
    }
  }

  // ---------- Object ----------

  /** The member list of an object while it is being built. */
  class Object {
    var members: seq<Member>

    constructor ()
      ensures members == []
    {
      members := [];
    }

    /** `Find`: the first member of that name, or the end. */
    method Find(name: string) returns (at: nat)
      ensures at <= |members|
      ensures at < |members| <==> HasName(members, name)
      ensures at < |members| ==> members[at].name == name
      ensures forall i | 0 <= i < at :: members[i].name != name
    {
      at := 0;
      while at < |members| && members[at].name != name
        invariant at <= |members|
        invariant forall i | 0 <= i < at :: members[i].name != name
      {
        at := at + 1;
      }
    }

    /** `Insert` at the end, refused when the name is taken. */
    method Insert(m: Member) returns (ok: bool)
      modifies this
      ensures ok <==> !old(HasName(members, m.name))
      ensures members == if ok then old(members) + [m] else old(members)
      ensures old(UniqueNames(members)) ==> UniqueNames(members)
    {
      var at := Find(m.name);
      ok := at == |members|;
      if ok {
        members := members + [m];
      }
    }

    /** `operator[]`: the place of the member of that name, which is added as null if there is none. */
    method Index(name: string) returns (at: nat)
      modifies this
      ensures at < |members| && members[at].name == name
      ensures if old(HasName(members, name)) then members == old(members)
              else members == old(members) + [Member(name, Null)] && at == old(|members|)
      ensures old(UniqueNames(members)) ==> UniqueNames(members)
    {
      at := Find(name);
      if at == |members| {
        var ok := Insert(Member(name, Null));
      }
    }
  }
}
