/** A parsed JSON document (RFC 8259) and the few object accessors of the JSON
    library that the firmware calls. Parsing and pretty-printing themselves are
    not modelled: they appear as function parameters of the operations that use them. */
module Json {

  datatype Option<+T> = None | Some(value: T)

  /** The value kinds of the JSON library; an object keeps its members in insertion order. */
  datatype Json =
    | Null
    | Boolean(b: bool)
    | Number(num: real)
    | String(str: string)
    | Array(elems: seq<Json>)
    | Object(members: seq<(string, Json)>)

  type Members = seq<(string, Json)>

  /** The member names of an object, in order. */
  function Keys(members: Members): (ks: seq<string>)
    ensures |ks| == |members|
  {
    seq(|members|, i requires 0 <= i < |members| => members[i].0)
  }

  /** The keys of a non-empty object: the first name, then the keys of the rest. */
  lemma KeysCons(members: Members)
    requires members != []
    ensures Keys(members) == [members[0].0] + Keys(members[1..])
  {
  }

  /** The value stored under `name` (json_object_get_value): that of the first member
      with that name, or None when there is none. */
  function FindMember(members: Members, name: string): (r: Option<Json>)
    ensures r.None? <==> name !in Keys(members)
  {
    if members == [] then None
    else
      KeysCons(members);
      if members[0].0 == name then Some(members[0].1)
      else FindMember(members[1..], name)
  }

  /** The lookup answers with the value of the first member that carries the name. */
  lemma {:induction false} FindMemberFirst(members: Members, name: string, i: int)
    requires 0 <= i < |members| && members[i].0 == name
    requires forall j :: 0 <= j < i ==> members[j].0 != name
    ensures FindMember(members, name) == Some(members[i].1)
    decreases i
  {
    if i > 0 {
      assert members[0].0 != name;
      FindMemberFirst(members[1..], name, i - 1);
    }
  }

  /** json_object_get_number: the number stored under `name`, or 0 when the member
      is missing or holds something other than a number. */
  function GetNumber(members: Members, name: string): (n: real)
    ensures n != 0.0 ==> FindMember(members, name) == Some(Number(n))
    ensures FindMember(members, name).Some? && FindMember(members, name).value.Number? ==>
              n == FindMember(members, name).value.num
  {
    match FindMember(members, name)
    case Some(Number(n)) => n
    case _ => 0.0
  }

  /** json_object_get_object: the members of the object stored under `name`, or
      None (a NULL result) when the member is missing or is not an object. */
  function GetObject(members: Members, name: string): (r: Option<Members>)
    ensures r.Some? <==> FindMember(members, name).Some? && FindMember(members, name).value.Object?
    ensures r.Some? ==> FindMember(members, name) == Some(Object(r.value))
  {
    match FindMember(members, name)
    case Some(Object(inner)) => Some(inner)
    case _ => None
  }

  /** json_object_set_number: overwrite the value of the first member called `name`
      in place, or append a new member at the end when there is none. */
  function SetNumber(members: Members, name: string, n: real): (r: Members)
    ensures name !in Keys(members) ==> r == members + [(name, Number(n))]
    ensures name in Keys(members) ==> Keys(r) == Keys(members)
    ensures FindMember(r, name) == Some(Number(n))
  {
    if members == [] then [(name, Number(n))]
    else
      KeysCons(members);
      if members[0].0 == name then
        KeysCons([(name, Number(n))] + members[1..]);
        assert ([(name, Number(n))] + members[1..])[1..] == members[1..];
        [(name, Number(n))] + members[1..]
      else
        var rest := SetNumber(members[1..], name, n);
        KeysCons([members[0]] + rest);
        assert ([members[0]] + rest)[1..] == rest;
        assert name !in Keys(members[1..]) ==> [members[0]] + (members[1..] + [(name, Number(n))]) == members + [(name, Number(n))];
        [members[0]] + rest
  }

  /** Setting `name` leaves what every other name finds as it was. */
  lemma {:induction false} SetNumberFrame(members: Members, name: string, n: real, other: string)
    requires other != name
    ensures FindMember(SetNumber(members, name, n), other) == FindMember(members, other)
    decreases |members|
  {
    if members != [] && members[0].0 != name {
      var rest := SetNumber(members[1..], name, n);
      assert ([members[0]] + rest)[1..] == rest;
      SetNumberFrame(members[1..], name, n, other);
    }
  }

  /** Setting a first field whose name is new appends it before the remaining fields are set. */
  lemma SetNumbersStep(members: Members, fields: seq<(string, real)>)
    requires fields != [] && fields[0].0 !in Keys(members)
    ensures SetNumbers(members, fields) == SetNumbers(members + [(fields[0].0, Number(fields[0].1))], fields[1..])
  {
  }

  /** json_object_set_number applied once per field, in the order of `fields`. */
  function SetNumbers(members: Members, fields: seq<(string, real)>): Members
    decreases |fields|
  {
    if fields == [] then members
    else SetNumbers(SetNumber(members, fields[0].0, fields[0].1), fields[1..])
  }

  /** The members `fields` denote, in order, each holding its number. */
  function NumberMembers(fields: seq<(string, real)>): Members
  {
    seq(|fields|, i requires 0 <= i < |fields| => (fields[i].0, Number(fields[i].1)))
  }

  lemma NumberMembersCons(fields: seq<(string, real)>)
    requires fields != []
    ensures NumberMembers(fields) == [(fields[0].0, Number(fields[0].1))] + NumberMembers(fields[1..])
  {
  }

  /** No two fields share a name. */
  predicate DistinctNames(fields: seq<(string, real)>)
  {
    forall i, j :: 0 <= i < j < |fields| ==> fields[i].0 != fields[j].0
  }

  /** Setting fields with distinct new names appends them, in order, after the existing members. */
  lemma {:induction false} SetNumbersAppends(members: Members, fields: seq<(string, real)>)
    requires DistinctNames(fields)
    requires forall i :: 0 <= i < |fields| ==> fields[i].0 !in Keys(members)
    ensures SetNumbers(members, fields) == members + NumberMembers(fields)
    decreases |fields|
  {
    if fields != [] {
      var name, n := fields[0].0, fields[0].1;
      var next := members + [(name, Number(n))];
      SetNumbersStep(members, fields);
      KeysAppend(members, name, Number(n));
      forall i | 0 <= i < |fields| - 1
        ensures fields[1..][i].0 !in Keys(next)
      {
        assert fields[1..][i] == fields[i + 1];
      }
      DistinctNamesTail(fields);
      SetNumbersAppends(next, fields[1..]);
      NumberMembersCons(fields);
      assert members + NumberMembers(fields) == next + NumberMembers(fields[1..]);
    }
  }

  /** Appending a member appends its name to the keys. */
  lemma KeysAppend(members: Members, name: string, v: Json)
    ensures Keys(members + [(name, v)]) == Keys(members) + [name]
  {
  }

  /** Dropping the first field keeps the names distinct. */
  lemma DistinctNamesTail(fields: seq<(string, real)>)
    requires fields != [] && DistinctNames(fields)
    ensures DistinctNames(fields[1..])
  {
    forall i, j | 0 <= i < j < |fields| - 1
      ensures fields[1..][i].0 != fields[1..][j].0
    {
      assert fields[1..][i] == fields[i + 1] && fields[1..][j] == fields[j + 1];
    }
  }

  /** In members built from fields with distinct names, each name finds its own number. */
  lemma {:induction false} FindNumberMember(fields: seq<(string, real)>, i: int)
    requires DistinctNames(fields)
    requires 0 <= i < |fields|
    ensures FindMember(NumberMembers(fields), fields[i].0) == Some(Number(fields[i].1))
    decreases |fields|
  {
    NumberMembersCons(fields);
    var members := NumberMembers(fields);
    assert members[1..] == NumberMembers(fields[1..]);
    if i > 0 {
      assert fields[0].0 != fields[i].0;
      DistinctNamesTail(fields);
      FindNumberMember(fields[1..], i - 1);
    }
  }
}
