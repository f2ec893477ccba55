/** Parsed JSON values, as far as the adapters look at them. Text parsing and printing are not part of this model. */
module Json {
  import opened Wrappers

  /** The fields of an object are listed in the order in which the JSON library iterates over them. */
  datatype Json =
    | Null
    | Bool(b: bool)
    | Num(n: int)
    | Str(s: string)
    | Arr(items: seq<Json>)
    | Obj(fields: seq<(string, Json)>)

  function Lookup(fields: seq<(string, Json)>, name: string): Option<Json> {
    if fields == [] then None
    else if fields[0].0 == name then Some(fields[0].1)
    else Lookup(fields[1..], name)
  }

  /** `contains(name)` followed by `[name]`: only an object has members. */
  function Member(j: Json, name: string): Option<Json> {
    if j.Obj? then Lookup(j.fields, name) else None
  }

  /** The member, when it is there and holds a string. */
  function StringMember(j: Json, name: string): Option<string> {
    match Member(j, name)
    case Some(Str(s)) => Some(s)
    case _ => None
  }

  /** `j` is an object in which the first field called `name` has the value `v`. */
  ghost predicate HasField(j: Json, name: string, v: Json) {
    j.Obj? && exists p :: FirstField(j.fields, p, name) && j.fields[p].1 == v
  }

  ghost predicate FirstField(fields: seq<(string, Json)>, p: int, name: string) {
    0 <= p < |fields| && fields[p].0 == name && forall q :: 0 <= q < p ==> fields[q].0 != name
  }

  lemma {:induction false} LookupFindsFirst(fields: seq<(string, Json)>, name: string, p: nat)
    requires FirstField(fields, p, name)
    ensures Lookup(fields, name) == Some(fields[p].1)
    decreases |fields|
  {
    if p > 0 {
      LookupFindsFirst(fields[1..], name, p - 1);
    }
  }

  lemma {:induction false} FoundIsFirst(fields: seq<(string, Json)>, name: string) returns (p: nat)
    requires Lookup(fields, name).Some?
    ensures FirstField(fields, p, name)
    decreases |fields|
  {
    if fields[0].0 == name {
      p := 0;
    } else {
      p := FoundIsFirst(fields[1..], name);
      p := p + 1;
    }
  }

  /** A member is the value of the first field of that name. */
  lemma MemberIsField(j: Json, name: string, v: Json)
    ensures Member(j, name) == Some(v) <==> HasField(j, name, v)
  {
    if j.Obj? {
      if Lookup(j.fields, name).Some? {
        var p := FoundIsFirst(j.fields, name);
        LookupFindsFirst(j.fields, name, p);
      }
      if HasField(j, name, v) {
        var p :| FirstField(j.fields, p, name) && j.fields[p].1 == v;
        LookupFindsFirst(j.fields, name, p);
      }
    }
  }

  lemma StringMemberIsField(j: Json, name: string, s: string)
    ensures StringMember(j, name) == Some(s) <==> HasField(j, name, Str(s))
  {
    MemberIsField(j, name, Str(s));
  }

  /** What a range-based for loop over `j` visits: the items, the values, or a primitive value itself. */
  function Elements(j: Json): seq<Json> {
    match j
    case Null => []
    case Arr(items) => items
    case Obj(fields) => seq(|fields|, i requires 0 <= i < |fields| => fields[i].1)
    case _ => [j]
  }
}
