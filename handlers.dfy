/**
 * The decisions the HTTP handlers take around the store: which request bodies
 * the validation middleware lets through (and with which name), how a search
 * query "key=value" is split, and which status code each store outcome gets.
 * Responses are modelled by their status code and the record list the store
 * holds afterwards; response bodies and logging are not.
 */
module Handlers {
  import opened Wrappers
  import opened Strings
  import opened Documents
  import opened ConfigStore

  const StatusOK := 200
  const StatusBadRequest := 400
  const StatusNotFound := 404
  const StatusConflict := 409

  datatype HttpMethod = MethodGet | MethodPost | MethodPut | MethodPatch | MethodDelete | OtherMethod(verb: string)

  /** A request body as the JSON decoder leaves it: undecodable, or a Config whose omitted fields are empty or nil. */
  datatype Body = Undecodable | Decoded(conf: Config)

  /** An error response: its status code and message. */
  datatype Rejection = Rejection(status: int, message: string)

  /** A handler's answer: the status code and the record list the store holds afterwards. */
  datatype Reply = Reply(status: int, db: seq<Config>)

  predicate IsUpdate(verb: HttpMethod)
  {
    verb == MethodPut || verb == MethodPatch
  }

  // ---------------------------------------------------------------------------
  // Validation middleware
  // ---------------------------------------------------------------------------

  /**
   * The body check run before creating, replacing or patching: an undecodable
   * body is refused; a POST needs a name and metadata; a PUT or PATCH needs
   * metadata, and a name only if it equals the path's; a PUT or PATCH body goes
   * on carrying the path's name. Every refusal is 400.
   */
  function ValidateConfig(verb: HttpMethod, body: Body, pathName: string): (r: Result<Config, Rejection>)
    ensures r.Failure? ==> r.error.status == StatusBadRequest
    ensures body.Undecodable? ==> r.Failure?
    ensures verb == MethodPost && body.Decoded? ==>
      (r.Success? <==> body.conf.name != "" && body.conf.metadata.Some?)
    ensures IsUpdate(verb) && body.Decoded? ==>
      (r.Success? <==> body.conf.metadata.Some? && (body.conf.name == "" || body.conf.name == pathName))
    ensures r.Success? && IsUpdate(verb) ==> r.value.name == pathName && r.value.metadata == body.conf.metadata
    ensures r.Success? && !IsUpdate(verb) ==> r.value == body.conf
  {
    match body
    case Undecodable => Failure(Rejection(StatusBadRequest, "Unable to unmarshal json"))
    case Decoded(conf) =>
      if verb == MethodPost && (conf.name == "" || conf.metadata.None?) then
        Failure(Rejection(StatusBadRequest, "Config name or metadata not specified"))
      else if IsUpdate(verb) then
        if conf.metadata.None? then
          Failure(Rejection(StatusBadRequest, "Config metadata not specified"))
        else if |conf.name| > 0 && conf.name != pathName then
          Failure(Rejection(StatusBadRequest, "URI name and config name are different"))
        else
          Success(conf.(name := pathName))
      else
        Success(conf)
  }

  // ---------------------------------------------------------------------------
  // Search query
  // ---------------------------------------------------------------------------

  /** A list joined with at least two pieces starts with its first two pieces and a separator between them. */
  lemma JoinStartsWithTwo(parts: seq<string>, sep: char)
    requires |parts| >= 2
    ensures var n := |parts[0]| + 1 + |parts[1]|;
      && n <= |Join(parts, sep)|
      && Join(parts, sep)[..n] == parts[0] + [sep] + parts[1]
      && (n < |Join(parts, sep)| ==> Join(parts, sep)[n] == sep)
  {
    var tail := Join(parts[1..], sep);
    assert Join(parts, sep) == parts[0] + [sep] + tail;
    assert parts[1..][0] == parts[1];
    if |parts| > 2 {
      assert tail == parts[1] + [sep] + Join(parts[2..], sep) by {
        assert parts[1..][1..] == parts[2..];
      }
    }
  }

  /**
   * The search handler's reading of the raw query: refused with 400 unless it
   * contains '='; otherwise the key is the text before the first '=' and the
   * value the text between the first and the second '=' (or the end).
   */
  function ParseSearch(rawQuery: string): (r: Result<(string, string), Rejection>)
    ensures r.Failure? <==> '=' !in rawQuery
    ensures r.Failure? ==> r.error == Rejection(StatusBadRequest, "Wrong query string")
    ensures r.Success? ==> '=' !in r.value.0 && '=' !in r.value.1
    ensures r.Success? ==>
      var n := |r.value.0| + 1 + |r.value.1|;
      && n <= |rawQuery|
      && rawQuery[..n] == r.value.0 + "=" + r.value.1
      && (n < |rawQuery| ==> rawQuery[n] == '=')
  {
    if '=' in rawQuery then
      var q := Split(rawQuery, '=');
      JoinStartsWithTwo(q, '=');
      assert q[0] in q && q[1] in q;
      Success((q[0], q[1]))
    else
      Failure(Rejection(StatusBadRequest, "Wrong query string"))
  }

  /** A query written as key=value, neither part containing '=', is read back as that key and value. */
  lemma ParseSearchRoundTrip(key: string, value: string)
    requires '=' !in key && '=' !in value
    ensures ParseSearch(key + "=" + value) == Success((key, value))
  {
    var q := [key, value];
    assert Join(q, '=') == key + "=" + value by {
      assert q[1..] == [value];
    }
    SplitJoin(q, '=');
  }

  // ---------------------------------------------------------------------------
  // Handlers
  // ---------------------------------------------------------------------------

  /** GET /configs/{name}: 200 when the record exists, 404 otherwise. */
  function ServeGetConfig(db: seq<Config>, name: string): (status: int)
    ensures status == StatusNotFound <==> Absent(db, name)
    ensures status == StatusOK <==> !Absent(db, name)
  {
    match Get(db, name)
    case Success(_) => StatusOK
    case Failure(_) => StatusNotFound
  }

  /** POST /configs: 400 for a refused body, 409 when the name is taken, otherwise 200 and the record appended. */
  function ServeAddConfig(db: seq<Config>, body: Body): (r: Reply)
    ensures r.status in {StatusOK, StatusBadRequest, StatusConflict}
    ensures r.status == StatusBadRequest <==> ValidateConfig(MethodPost, body, "").Failure?
    ensures r.status == StatusConflict <==> body.Decoded? && body.conf.name != "" && body.conf.metadata.Some? && !Absent(db, body.conf.name)
    ensures r.status == StatusOK ==> r.db == db + [body.conf]
    ensures r.status != StatusOK ==> r.db == db
  {
    match ValidateConfig(MethodPost, body, "")
    case Failure(rejection) => Reply(rejection.status, db)
    case Success(c) =>
      var s := Add(db, c);
      Reply(if s.status.Pass? then StatusOK else StatusConflict, s.db)
  }

  /** PUT /configs/{name}: 400 for a refused body, 404 when no record has the path's name, otherwise 200. */
  function ServePutConfig(db: seq<Config>, body: Body, pathName: string): (r: Reply)
    ensures r.status in {StatusOK, StatusBadRequest, StatusNotFound}
    ensures r.status == StatusBadRequest <==> ValidateConfig(MethodPut, body, pathName).Failure?
    ensures r.status == StatusNotFound <==> ValidateConfig(MethodPut, body, pathName).Success? && Absent(db, pathName)
    ensures |r.db| == |db| && forall j :: 0 <= j < |db| && db[j].name != pathName ==> r.db[j] == db[j]
    ensures r.status != StatusOK ==> r.db == db
    ensures r.status == StatusOK ==> r.db == Put(db, body.conf.(name := pathName)).db
    ensures r.status == StatusOK ==> Get(r.db, pathName) == Success(body.conf.(name := pathName))
  {
    match ValidateConfig(MethodPut, body, pathName)
    case Failure(rejection) => Reply(rejection.status, db)
    case Success(c) =>
      var s := Put(db, c);
      if s.status.Pass? then PutThenGet(db, c); Reply(StatusOK, s.db)
      else Reply(StatusNotFound, s.db)
  }

  /** PATCH /configs/{name}: 400 for a refused body, 404 when no record has the path's name, otherwise 200. */
  function ServePatchConfig(db: seq<Config>, body: Body, pathName: string): (r: Reply)
    ensures r.status in {StatusOK, StatusBadRequest, StatusNotFound}
    ensures r.status == StatusBadRequest <==> ValidateConfig(MethodPatch, body, pathName).Failure?
    ensures r.status == StatusNotFound <==> ValidateConfig(MethodPatch, body, pathName).Success? && Absent(db, pathName)
    ensures |r.db| == |db| && forall j :: 0 <= j < |db| && db[j].name != pathName ==> r.db[j] == db[j]
    ensures r.status != StatusOK ==> r.db == db
    ensures r.status == StatusOK ==> r.db == Patch(db, body.conf.(name := pathName)).db
    ensures r.status == StatusOK ==> Get(r.db, pathName).Success? && Get(r.db, pathName).value.name == pathName
  {
    match ValidateConfig(MethodPatch, body, pathName)
    case Failure(rejection) => Reply(rejection.status, db)
    case Success(c) =>
      var s := Patch(db, c);
      Reply(if s.status.Pass? then StatusOK else StatusNotFound, s.db)
  }

  /** DELETE /configs/{name}: always 200, whatever the store held. */
  function ServeDeleteConfig(db: seq<Config>, name: string): (r: Reply)
    ensures r.status == StatusOK
    ensures |r.db| == |db| - (if Absent(db, name) then 0 else 1)
    ensures r.db == Delete(db, name)
  {
    Reply(StatusOK, Delete(db, name))
  }

  /** Whatever the requests, the handlers keep names unique. */
  lemma {:induction false} HandlersPreserveUnique(db: seq<Config>, body: Body, name: string)
    requires Unique(db)
    ensures Unique(ServeAddConfig(db, body).db)
    ensures Unique(ServePutConfig(db, body, name).db)
    ensures Unique(ServePatchConfig(db, body, name).db)
    ensures Unique(ServeDeleteConfig(db, name).db)
  {
    DeletePreservesUnique(db, name);
    match ValidateConfig(MethodPost, body, "") {
      case Failure(_) =>
      case Success(c) => AddPreservesUnique(db, c);
    }
    match ValidateConfig(MethodPut, body, name) {
      case Failure(_) =>
      case Success(c) => PutPreservesUnique(db, c);
    }
    match ValidateConfig(MethodPatch, body, name) {
      case Failure(_) =>
      case Success(c) => PatchPreservesUnique(db, c);
    }
  }

  /** After a DELETE under unique names, a GET of the same name answers 404. */
  lemma DeleteThenGetNotFound(db: seq<Config>, name: string)
    requires Unique(db)
    ensures ServeGetConfig(ServeDeleteConfig(db, name).db, name) == StatusNotFound
  {
    DeleteThenGet(db, name);
  }

  /**
   * GET /search?key=value: 400 unless the raw query contains '='; otherwise the
   * records whose value at the dotted key reads as the value, in store order.
   */
  function ServeQueryConfigs(db: seq<Config>, rawQuery: string, raw: Doc -> string): (r: Result<seq<Config>, Rejection>)
    ensures r.Failure? <==> '=' !in rawQuery
    ensures r.Failure? ==> r.error.status == StatusBadRequest
    ensures r.Success? ==>
      var (key, value) := ParseSearch(rawQuery).value;
      r.value == Query(db, Split(key, '.'), value, raw) &&
      forall c :: c in r.value <==> c in db && Matches(c, Split(key, '.'), value, raw)
  {
    match ParseSearch(rawQuery)
    case Failure(rejection) => Failure(rejection)
    case Success((key, value)) =>
      QueryMembership(db, Split(key, '.'), value, raw);
      Success(Query(db, Split(key, '.'), value, raw))
  }
}
