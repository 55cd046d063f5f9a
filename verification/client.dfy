/**
 The `Seatable` client reduced to its observable behaviour: the requests it
 issues, the state it caches, and what `getTable` returns. Network replies are
 parameters; requests are returned as data instead of being sent.
 */
module Client {
  import opened Wrappers
  import opened Js
  import opened Schema
  import opened Tables
  import opened BaseIndex

  const TokenExchangeUrl: string := "https://cloud.seatable.io/api/v2.1/dtable/app-access-token/"
  const BaseUrlPrefix: string := "https://cloud.seatable.io/dtable-server/dtables/"
  /** `getBase`'s default `lang`. */
  const DefaultLang: string := "en"

  /** An HTTP GET: its URL and its `Authorization` header. */
  datatype Request = Request(url: string, authorization: string)

  /** The reply of the token-exchange endpoint. */
  datatype AuthReply = AuthReply(accessToken: string)

  /** A client instance: its configured token and the lazily cached `auth` and `base`. */
  datatype Seatable = Seatable(token: Value, auth: Option<AuthReply>, base: Option<Base>)

  /** What a client call leaves behind: the new client state, the requests issued, the result. */
  datatype Step<T> = Step(client: Seatable, requests: seq<Request>, result: Result<T, Error>)

  /** What `getTable` returns: the processed rows of a table, or `undefined`. */
  type TableData = Option<seq<Option<Record>>>

  /** The constructor: a falsy token throws before any request is made. */
  function NewClient(token: Value): (r: Result<Seatable, Error>)
    ensures r.Success? <==> Truthy(token)
    ensures r.Failure? ==> r.error == NoToken
    ensures r.Success? ==> r.value.token == token && r.value.auth.None? && r.value.base.None?
  {
    if !Truthy(token) then Failure(NoToken) else Success(Seatable(token, None, None))
  }

  /** The request `getAuth` issues. */
  function AuthRequest(c: Seatable): Request {
    Request(TokenExchangeUrl, "Token " + ToKey(c.token))
  }

  /** The request `getBase` issues once it holds an access token. */
  function BaseRequest(id: string, lang: string, accessToken: string): Request {
    Request(BaseUrlPrefix + id + "?lang=" + lang, "Token " + accessToken)
  }

  /**
   `getBase(id, lang)`: asks for an access token only when none is cached and
   caches the reply, fetches the base with the cached token, and replaces the
   client's base by the new one; when the document has no `tables` the call
   throws, the token stays cached and the previous base is kept.
   */
  function GetBase(c: Seatable, id: string, lang: string, reply: AuthReply, payload: Payload): (s: Step<Base>)
    requires PayloadWellTyped(payload)
    ensures s.client.token == c.token
    ensures c.auth.Some? ==> s.client.auth == c.auth && s.requests == [BaseRequest(id, lang, c.auth.value.accessToken)]
    ensures c.auth.None? ==> s.client.auth == Some(reply) && s.requests == [AuthRequest(c), BaseRequest(id, lang, reply.accessToken)]
    ensures s.result.Success? <==> payload.tables.Some?
    ensures s.result.Success? ==> s.client.base == Some(s.result.value) && s.result == NewBase(payload)
    ensures s.result.Failure? ==> s.client.base == c.base && s.result == Failure(MissingTables)
  {
    var authRequests := if c.auth.None? then [AuthRequest(c)] else [];
    var auth := if c.auth.None? then reply else c.auth.value;
    var requests := authRequests + [BaseRequest(id, lang, auth.accessToken)];
    match NewBase(payload)
    case Failure(e) => Step(c.(auth := Some(auth)), requests, Failure(e))
    case Success(b) => Step(c.(auth := Some(auth), base := Some(b)), requests, Success(b))
  }

  /** `tableByName[n] || tableById[n]`, then its `data`. */
  function LookupTable(b: Base, n: string): (d: TableData)
    ensures n in b.tableByName ==> d == Some(b.tableByName[n].data)
    ensures n !in b.tableByName && n in b.tableById ==> d == Some(b.tableById[n].data)
    ensures n !in b.tableByName && n !in b.tableById ==> d.None?
  {
    if n in b.tableByName then Some(b.tableByName[n].data)
    else if n in b.tableById then Some(b.tableById[n].data)
    else None
  }

  /**
   `getTable(n, baseId)`: fetches a base (with the default language) only when
   none is cached, then looks `n` up by name and then by id. Once a base is
   cached the call issues no request, leaves the client unchanged and ignores
   `baseId`.
   */
  function GetTable(c: Seatable, n: string, baseId: string, reply: AuthReply, payload: Payload): (s: Step<TableData>)
    requires c.base.None? ==> PayloadWellTyped(payload)
    ensures c.base.Some? ==> s.client == c && s.requests == [] && s.result == Success(LookupTable(c.base.value, n))
    ensures c.base.None? ==> s.requests == GetBase(c, baseId, DefaultLang, reply, payload).requests
    ensures c.base.None? ==> s.client == GetBase(c, baseId, DefaultLang, reply, payload).client
    ensures c.base.None? ==> (s.result.Success? <==> payload.tables.Some?)
    ensures c.base.None? && s.result.Failure? ==> s.result.error == GetBase(c, baseId, DefaultLang, reply, payload).result.error
    ensures s.result.Success? ==> s.client.base.Some? && s.result.value == LookupTable(s.client.base.value, n)
    ensures s.result.Failure? ==> c.base.None? && payload.tables.None?
  {
    if c.base.Some? then Step(c, [], Success(LookupTable(c.base.value, n)))
    else
      var g := GetBase(c, baseId, DefaultLang, reply, payload);
      match g.result
      case Failure(e) => Step(g.client, g.requests, Failure(e))
      case Success(b) => Step(g.client, g.requests, Success(LookupTable(b, n)))
  }

  /**
   On a new client the first `getTable` exchanges the token and fetches the
   base (two requests); a second `getTable`, whatever table and base id it
   names, issues no request and answers from the cached base.
   */
  lemma SecondGetTableIsCached(token: Value, n1: string, id1: string, n2: string, id2: string,
                               reply1: AuthReply, payload1: Payload, reply2: AuthReply, payload2: Payload)
    requires Truthy(token)
    requires PayloadWellTyped(payload1) && payload1.tables.Some?
    ensures var c := NewClient(token).value;
      var first := GetTable(c, n1, id1, reply1, payload1);
      var second := GetTable(first.client, n2, id2, reply2, payload2);
      && first.requests == [AuthRequest(c), BaseRequest(id1, DefaultLang, reply1.accessToken)]
      && first.result.Success?
      && second.requests == []
      && second.client == first.client
      && second.result == Success(LookupTable(NewBase(payload1).value, n2))
  {
  }

  /**
   What `getTable(n)` returns on a client without a base: the rows of the last
   fetched table named `n`; failing that, of the last table whose id is `n`;
   failing that, `undefined`.
   */
  lemma GetTableFindsLastTable(c: Seatable, n: string, baseId: string, reply: AuthReply, ts: seq<RawTable>)
    requires c.base.None?
    requires PayloadWellTyped(Payload(Some(ts)))
    ensures var r := GetTable(c, n, baseId, reply, Payload(Some(ts))).result;
      && r.Success?
      && (forall i | IsLastWithName(ts, i) && ts[i].name == n :: r.value == Some(ProcessTable(ts[i]).data))
      && ((forall i | 0 <= i < |ts| :: ts[i].name != n) ==>
            forall i | IsLastWithId(ts, i) && ts[i].id == n :: r.value == Some(ProcessTable(ts[i]).data))
      && ((forall i | 0 <= i < |ts| :: ts[i].name != n && ts[i].id != n) ==> r.value.None?)
  {
    var b := NewBase(Payload(Some(ts))).value;
    assert n in b.tableByName <==> exists i | 0 <= i < |ts| :: ts[i].name == n;
    assert n in b.tableById <==> exists i | 0 <= i < |ts| :: ts[i].id == n;
  }
}
