/** One service: HTTP handler, core and repository, and the PUT request by which a notifier reports a change. */
module EntityService {
  import opened Wrappers
  import opened Json
  import opened Repository

  // ---------- paths ----------

  predicate IsLineBreak(c: char) {
    c == '\n' || c == '\r'
  }

  predicate OneLine(s: string) {
    forall i :: 0 <= i < |s| ==> !IsLineBreak(s[i])
  }

  /** The regular expression "/(.*)/(.*)" matches the whole path with these two groups. */
  ghost predicate Matches(path: string, a: string, b: string) {
    path == "/" + a + "/" + b && OneLine(a) && OneLine(b)
  }

  /** Both groups are greedy, so the first one is as long as possible. */
  ghost predicate GreedyMatch(path: string, a: string, b: string) {
    Matches(path, a, b) && forall a', b' :: Matches(path, a', b') ==> |a'| <= |a|
  }

  /** The position of the last slash, or -1. */
  function LastSlash(s: string): (p: int)
    ensures -1 <= p < |s|
    ensures p >= 0 ==> s[p] == '/'
    ensures forall i :: p < i < |s| ==> s[i] != '/'
  {
    if s == "" then -1
    else if s[|s| - 1] == '/' then |s| - 1
    else LastSlash(s[..|s| - 1])
  }

  /** The text after the last slash of a one-line path that starts with another slash. */
  function ExtractId(path: string): Option<string> {
    var p := LastSlash(path);
    if p >= 1 && path[0] == '/' && OneLine(path) then Some(path[p + 1..]) else None
  }

  lemma MatchSplits(path: string, a: string, b: string)
    requires Matches(path, a, b)
    ensures OneLine(path) && |path| >= 2 && path[0] == '/' && path[|a| + 1] == '/' && path[|a| + 2..] == b
    ensures |a| + 1 <= LastSlash(path)
  {
    assert path[1..|a| + 1] == a && path[|a| + 2..] == b;
    forall i | 0 <= i < |path| ensures !IsLineBreak(path[i]) {
      if 1 <= i <= |a| {
        assert path[i] == a[i - 1];
      } else if i >= |a| + 2 {
        assert path[i] == b[i - |a| - 2];
      }
    }
  }

  /** What is extracted is the second group of a greedy match whose first group ends before the last slash. */
  lemma ExtractedIsGreedyMatch(path: string)
    requires ExtractId(path).Some?
    ensures GreedyMatch(path, path[1..LastSlash(path)], ExtractId(path).value)
  {
    var p := LastSlash(path);
    assert path == "/" + path[1..p] + "/" + path[p + 1..];
    assert Matches(path, path[1..p], path[p + 1..]);
    forall a', b' | Matches(path, a', b') ensures |a'| <= p - 1 {
      MatchSplits(path, a', b');
    }
  }

  lemma GreedyMatchIsExtracted(path: string, a: string, b: string)
    requires Matches(path, a, b)
    ensures ExtractId(path).Some? && (GreedyMatch(path, a, b) ==> ExtractId(path) == Some(b))
  {
    MatchSplits(path, a, b);
    if GreedyMatch(path, a, b) {
      ExtractedIsGreedyMatch(path);
      assert |path[1..LastSlash(path)]| <= |a|;
    }
  }

  /** The second group of the greedy match is what `ExtractId` returns, and it returns nothing when nothing matches. */
  lemma ExtractIdIsGreedyMatch(path: string)
    ensures forall b :: ExtractId(path) == Some(b) <==> exists a :: GreedyMatch(path, a, b)
    ensures ExtractId(path).None? <==> forall a, b :: !Matches(path, a, b)
  {
    if ExtractId(path).Some? {
      ExtractedIsGreedyMatch(path);
    }
    forall a, b | Matches(path, a, b)
      ensures ExtractId(path).Some? && (GreedyMatch(path, a, b) ==> ExtractId(path) == Some(b))
    {
      GreedyMatchIsExtracted(path, a, b);
    }
  }

  function NotificationPath(id: string): string {
    "/Entity/" + id
  }

  /** Ids that survive the path: no slash and no line break. */
  predicate PathSafe(id: string) {
    '/' !in id && OneLine(id)
  }

  /** The handler reads an id back from the notifier's path exactly when the id is path-safe. */
  lemma PathRoundTrip(id: string)
    ensures ExtractId(NotificationPath(id)) == Some(id) <==> PathSafe(id)
  {
    var path := NotificationPath(id);
    var p := LastSlash(path);
    assert path[8..] == id && path[7] == '/' && path[0] == '/';
    assert forall i :: 0 <= i < |id| ==> path[8 + i] == id[i];
    assert p >= 7;
    if PathSafe(id) {
      forall i | 0 <= i < |path| ensures !IsLineBreak(path[i]) {
        if i >= 8 {
          assert path[i] == id[i - 8];
        }
      }
    } else if OneLine(id) {
      var i :| 0 <= i < |id| && id[i] == '/';
      assert path[8 + i] == '/';
      assert |path[p + 1..]| < |id|;
    } else {
      var i :| 0 <= i < |id| && IsLineBreak(id[i]);
      assert IsLineBreak(path[8 + i]);
    }
  }

  // ---------- JSON ----------

  function ToJson(e: Entity): Json {
    Obj([("id", Str(e.id)), ("int_property", Num(e.int_property as int)), ("string_property", Str(e.string_property))])
  }

  /** The conversion of an integer to a 32-bit one keeps its low bits. */
  function Wrap32(n: int): (r: int32)
    ensures (n - r as int) % 0x1_0000_0000 == 0
  {
    var m := n % 0x1_0000_0000;
    if m < 0x8000_0000 then m as int32 else (m - 0x1_0000_0000) as int32
  }

  function IntMember(j: Json, name: string): Option<int32> {
    match Member(j, name)
    case Some(Num(n)) => Some(Wrap32(n))
    case Some(Bool(b)) => Some(if b then 1 else 0)
    case _ => None
  }

  /** None where a member is missing or has the wrong type, which throws. */
  function FromJson(j: Json): Option<Entity> {
    var id, s, n := StringMember(j, "id"), StringMember(j, "string_property"), IntMember(j, "int_property");
    if id.Some? && s.Some? && n.Some? then Some(Entity(id.value, s.value, n.value)) else None
  }

  lemma JsonRoundTrip(e: Entity)
    ensures FromJson(ToJson(e)) == Some(e)
  {
    var fields := ToJson(e).fields;
    assert Lookup(fields, "id") == Some(fields[0].1);
    assert Lookup(fields, "int_property") == Lookup(fields[1..], "int_property") == Some(fields[1].1);
    assert Lookup(fields, "string_property") == Lookup(fields[1..], "string_property");
    assert Lookup(fields[1..], "string_property") == Lookup(fields[2..], "string_property");
    assert fields[1..][1..] == fields[2..];
  }

  /** The members of a body as the entity of a request reads them: an integer by its low 32 bits, or a truth value. */
  ghost predicate Describes(j: Json, e: Entity) {
    && HasField(j, "id", Str(e.id))
    && HasField(j, "string_property", Str(e.string_property))
    && (|| (exists n :: HasField(j, "int_property", Num(n)) && (n - e.int_property as int) % 0x1_0000_0000 == 0)
        || (HasField(j, "int_property", Bool(true)) && e.int_property == 1)
        || (HasField(j, "int_property", Bool(false)) && e.int_property == 0))
  }

  lemma WrapIsUnique(n: int, r: int32)
    requires (n - r as int) % 0x1_0000_0000 == 0
    ensures Wrap32(n) == r
  {
    var d := (Wrap32(n) as int) - r as int;
    assert d == (n - r as int) - (n - Wrap32(n) as int);
    assert d % 0x1_0000_0000 == 0;
  }

  lemma IntMemberIsField(j: Json, name: string, r: int32)
    ensures IntMember(j, name) == Some(r) <==>
              || (exists n :: HasField(j, name, Num(n)) && (n - r as int) % 0x1_0000_0000 == 0)
              || (HasField(j, name, Bool(true)) && r == 1)
              || (HasField(j, name, Bool(false)) && r == 0)
  {
    if Member(j, name).Some? {
      MemberIsField(j, name, Member(j, name).value);
    }
    MemberIsField(j, name, Bool(true));
    MemberIsField(j, name, Bool(false));
    if exists n :: HasField(j, name, Num(n)) && (n - r as int) % 0x1_0000_0000 == 0 {
      var n :| HasField(j, name, Num(n)) && (n - r as int) % 0x1_0000_0000 == 0;
      MemberIsField(j, name, Num(n));
      WrapIsUnique(n, r);
    }
  }

  /** A body is read as an entity exactly when its fields describe it; otherwise reading it throws. */
  lemma FromJsonExactly(j: Json, e: Entity)
    ensures FromJson(j) == Some(e) <==> Describes(j, e)
  {
    StringMemberIsField(j, "id", e.id);
    StringMemberIsField(j, "string_property", e.string_property);
    IntMemberIsField(j, "int_property", e.int_property);
  }

  // ---------- one service ----------

  datatype Status = Ok | InvalidArgument | NotFound | OtherError

  /** How a call of the repository ends; a `Store` that throws may have been applied all the same. */
  datatype RepoFate = RepoReturns | RepoThrows(applied: bool)

  /** `notified` is how the notifier call would end, if the service has a notifier. */
  datatype Notifier = NoNotifier | WithNotifier(notified: bool)

  /** What a request meets behind the handler. */
  datatype Backend = Backend(repo: RepoFate, notifier: Notifier)

  predicate RouteMatches(path: string) {
    |path| >= 8 && path[..8] == "/Entity/" && OneLine(path[8..])
  }

  /** The route is "/Entity/(.*)". */
  lemma RouteExactly(path: string)
    ensures RouteMatches(path) <==> exists rest :: path == "/Entity/" + rest && OneLine(rest)
  {
    if RouteMatches(path) {
      assert path == "/Entity/" + path[8..];
    }
    forall rest | path == "/Entity/" + rest && OneLine(rest) ensures RouteMatches(path) {
      assert path[8..] == rest;
    }
  }

  /** The entity that a PUT request carries consistently, if it does. A body that is no JSON text is None. */
  function Carried(path: string, body: Option<Json>): Option<Entity> {
    if body.None? || FromJson(body.value).None? then None
    else
      var e := FromJson(body.value).value;
      if ExtractId(path) == Some(e.id) && e.id != "" then Some(e) else None
  }

  /** A PUT request to a service: the table afterwards and the status of the response. */
  function Put(table: Table, backend: Backend, path: string, body: Option<Json>): (Table, Status) {
    if !RouteMatches(path) then (table, NotFound)
    else if Carried(path, body).None? then (table, InvalidArgument)
    else
      (if backend.repo == RepoThrows(false) then table else Upsert(table, Carried(path, body).value),
       if backend.repo.RepoReturns? && backend.notifier != WithNotifier(false) then Ok else OtherError)
  }

  /** A GET request to a service whose repository throws or not. */
  function Get(table: Table, fails: bool, path: string): (Status, Option<Json>) {
    if !RouteMatches(path) then (NotFound, None)
    else
      match ExtractId(path)
      case None => (InvalidArgument, None)
      case Some(id) =>
        if id == "" then (InvalidArgument, None)
        else if fails then (OtherError, None)
        else match Row(table, id)
          case None => (NotFound, None)
          case Some(e) => (Ok, Some(ToJson(e)))
  }

  datatype CoreOutcome = Done | InvalidRepo | InvalidId | RepoThrew | NotifierThrew

  class Core {
    const repo: InMemoryRepo?
    const hasNotifier: bool

    ghost predicate Valid() reads this, repo {
      repo != null ==> repo.Valid()
    }

    constructor (repo: InMemoryRepo?, hasNotifier: bool)
      ensures this.repo == repo && this.hasNotifier == hasNotifier
    {
      this.repo, this.hasNotifier := repo, hasNotifier;
    }

    /**
     Stores first and notifies then. When the repository throws the notifier is not called; a notifier that throws does
     not undo the store.
     */
    method SetEntity(e: Entity, fate: RepoFate, notified: bool) returns (r: CoreOutcome)
      requires Valid()
      modifies repo
      ensures Valid()
      ensures r.InvalidRepo? <==> repo == null
      ensures repo != null ==> (r.InvalidId? <==> e.id == "")
      ensures repo != null ==> (r.RepoThrew? <==> e.id != "" && fate.RepoThrows?)
      ensures repo != null ==> (r.NotifierThrew? <==> e.id != "" && fate.RepoReturns? && hasNotifier && !notified)
      ensures repo != null ==>
        repo.data == if e.id == "" || fate == RepoThrows(false) then old(repo.data) else Upsert(old(repo.data), e)
    {
      if repo == null {
        return InvalidRepo;
      }
      if e.id == "" {
        return InvalidId;
      }
      if fate == RepoThrows(false) {
        return RepoThrew;
      }
      repo.Store(e);
      if fate.RepoThrows? {
        return RepoThrew;
      }
      if hasNotifier {
        if !notified {
          return NotifierThrew;
        }
      }
      r := Done;
    }

    method GetEntity(id: string, fails: bool) returns (r: CoreOutcome, e: Option<Entity>)
      requires Valid()
      ensures r == if repo == null then InvalidRepo
                   else if id == "" then InvalidId
                   else if fails then RepoThrew
                   else Done
      ensures e == if r.Done? then Row(repo.data, id) else None
    {
      if repo == null {
        return InvalidRepo, None;
      }
      if id == "" {
        return InvalidId, None;
      }
      if fails {
        return RepoThrew, None;
      }
      r := Done;
      e := repo.Retrieve(id);
    }
  }

  class HttpHandler {
    const api: Core

    constructor (api: Core)
      ensures this.api == api
    {
      this.api := api;
    }

    function Behind(fate: RepoFate, notified: bool): Backend {
      Backend(fate, if api.hasNotifier then WithNotifier(notified) else NoNotifier)
    }

    /** Exceptions become error statuses in the request handler's hooks. */
    method SetEntity(path: string, body: Option<Json>, fate: RepoFate, notified: bool) returns (status: Status)
      requires api.Valid() && RouteMatches(path)
      modifies api.repo
      ensures api.Valid()
      ensures api.repo == null ==>
        var entity := if body.Some? then FromJson(body.value) else None;
        var consistent := entity.Some? && ExtractId(path) == Some(entity.value.id);
        status == if consistent then OtherError else InvalidArgument
      ensures api.repo != null ==>
        (api.repo.data, status) == Put(old(api.repo.data), Behind(fate, notified), path, body)
    {
      if body.None? {
        return InvalidArgument;
      }
      var e := FromJson(body.value);
      if e.None? {
        return InvalidArgument;
      }
      var id := ExtractId(path);
      if id != Some(e.value.id) {
        return InvalidArgument;
      }
      var r := api.SetEntity(e.value, fate, notified);
      status := match r
        case Done => Ok
        case InvalidId => InvalidArgument
        case InvalidRepo => OtherError
        case RepoThrew => OtherError
        case NotifierThrew => OtherError;
    }

    method GetEntity(path: string, fails: bool) returns (status: Status, body: Option<Json>)
      requires api.Valid() && RouteMatches(path)
      ensures api.repo == null ==>
                (status, body) == (if ExtractId(path).None? then InvalidArgument else OtherError, None)
      ensures api.repo != null ==> (status, body) == Get(api.repo.data, fails, path)
    {
      var id := ExtractId(path);
      if id.None? {
        return InvalidArgument, None;
      }
      var r, e := api.GetEntity(id.value, fails);
      if r.InvalidId? {
        return InvalidArgument, None;
      }
      if r.InvalidRepo? || r.RepoThrew? {
        return OtherError, None;
      }
      if e.None? {
        return NotFound, None;
      }
      return Ok, Some(ToJson(e.value));
    }
  }

  /**
   A PUT, in terms of the request and of what it meets: it is accepted exactly when the body describes an entity with
   the non-empty id of the path and nothing throws behind the handler; it stores that entity unless the repository
   throws before storing; and a request that is no such PUT changes nothing.
   */
  lemma PutExactly(table: Table, backend: Backend, path: string, body: Option<Json>)
    ensures var r := Put(table, backend, path, body);
            && (r.1.Ok? <==> RouteMatches(path) && backend.repo.RepoReturns? && backend.notifier != WithNotifier(false)
                             && exists e :: Carries(path, body, e))
            && (r.1.NotFound? <==> !RouteMatches(path))
            && (r.1.InvalidArgument? <==> RouteMatches(path) && !exists e :: Carries(path, body, e))
            && (forall e :: RouteMatches(path) && Carries(path, body, e) ==>
                  r.0 == if backend.repo == RepoThrows(false) then table else table[e.id := e])
            && (!RouteMatches(path) || !(exists e :: Carries(path, body, e)) ==> r.0 == table)
  {
    forall e ensures Carries(path, body, e) <==> Carried(path, body) == Some(e) {
      if body.Some? {
        FromJsonExactly(body.value, e);
      }
    }
    if Carried(path, body).Some? {
      assert Carries(path, body, Carried(path, body).value);
    }
  }

  /** The body describes this entity, whose id is that of the path and not empty. */
  ghost predicate Carries(path: string, body: Option<Json>, e: Entity) {
    body.Some? && Describes(body.value, e) && ExtractId(path) == Some(e.id) && e.id != ""
  }

  /** A GET, in terms of the request and the table. */
  lemma GetExactly(table: Table, fails: bool, path: string)
    ensures !RouteMatches(path) ==> Get(table, fails, path) == (NotFound, None)
    ensures RouteMatches(path) && (ExtractId(path) == None || ExtractId(path) == Some("")) ==>
              Get(table, fails, path) == (InvalidArgument, None)
    ensures forall id :: RouteMatches(path) && ExtractId(path) == Some(id) && id != "" ==>
              Get(table, fails, path) ==
                if fails then (OtherError, None)
                else if id !in table then (NotFound, None)
                else (Ok, Some(Obj([("id", Str(table[id].id)),
                                    ("int_property", Num(table[id].int_property as int)),
                                    ("string_property", Str(table[id].string_property))])))
  {
  }

  /** A GET after an accepted PUT returns the entity of its body. */
  lemma PutThenGet(table: Table, backend: Backend, path: string, body: Option<Json>)
    requires Put(table, backend, path, body).1.Ok?
    ensures body.Some? && FromJson(body.value).Some?
    ensures Get(Put(table, backend, path, body).0, false, path) == (Ok, Some(ToJson(FromJson(body.value).value)))
  {
    var e := Carried(path, body).value;
    assert Row(Upsert(table, e), e.id) == Some(e);
  }

  /** A PUT, accepted or not, does not change what a GET for another id returns. */
  lemma PutFramesGet(table: Table, backend: Backend, path: string, body: Option<Json>, fails: bool, other: string)
    requires ExtractId(other) != ExtractId(path)
    ensures Get(Put(table, backend, path, body).0, fails, other) == Get(table, fails, other)
  {
    if RouteMatches(path) && Carried(path, body).Some? {
      var e := Carried(path, body).value;
      assert forall id :: id != e.id ==> Row(Upsert(table, e), id) == Row(table, id);
    }
  }

  /** Ids that a service takes from a notifier. */
  predicate Acceptable(id: string) {
    id != "" && PathSafe(id)
  }

  /** The notifier's PUT reaches a service's repository exactly when its id is acceptable; else it changes nothing. */
  lemma NotificationAccepted(table: Table, fate: RepoFate, e: Entity)
    ensures Put(table, Backend(fate, NoNotifier), NotificationPath(e.id), Some(ToJson(e))) ==
      if Acceptable(e.id) then
        (if fate == RepoThrows(false) then table else Upsert(table, e), if fate.RepoReturns? then Ok else OtherError)
      else (table, if OneLine(e.id) then InvalidArgument else NotFound)
  {
    JsonRoundTrip(e);
    PathRoundTrip(e.id);
    var path := NotificationPath(e.id);
    assert path[..8] == "/Entity/" && path[8..] == e.id;
  }
}
