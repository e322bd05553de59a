/** The Google sign-in callback page: it reads `code` and `state` from the
    query, exchanges them at the backend over the public client and keeps
    the token it gets back. */
module OauthCallback {
  import opened Wrappers
  import opened Json
  import opened Js
  import opened Api
  import Text

  /** A query value as a condition: present and not empty. */
  predicate Present(v: Option<string>) {
    v.Some? && v.value != ""
  }

  /** The exchange address, with the two values interpolated as they are. */
  function ExchangeAddress(code: string, state: string): string {
    "/auth/google/callback?code=" + code + "&state=" + state
  }

  /** What `handleAuthCode` decides from the query. */
  datatype Callback = Missing | Exchange(code: string, state: string)

  function CallbackOf(query: seq<(string, string)>): (r: Callback)
    ensures r.Exchange? <==> Present(QueryGet(query, "code")) && Present(QueryGet(query, "state"))
    ensures r.Exchange? ==> QueryGet(query, "code") == Some(r.code) && QueryGet(query, "state") == Some(r.state)
  {
    var code := QueryGet(query, "code");
    var state := QueryGet(query, "state");
    if Present(code) && Present(state) then Exchange(code.value, state.value) else Missing
  }

  /** The token a reply hands over: `response.data.access_token` when it is
      truthy. A null body throws and the `catch` swallows it. */
  function TokenOf(reply: Reply): (t: Option<JsValue>)
    ensures t.Some? <==> reply.Response? && reply.data != JNull && Truthy(Own(reply.data, "access_token"))
    ensures t.Some? ==> t.value == Own(reply.data, "access_token") && Truthy(t.value)
  {
    match reply
    case Response(_, data) =>
      (match Get(Val(data), "access_token")
       case Done(t) => if Truthy(t) then Some(t) else None
       case Threw => None)
    case _ => None
  }

  /** `handleAuthCode` with `handleGoogleCallback`: only a query with both
      values reaches the backend, and only a truthy token is stored, after
      which the page moves to the root. The session state of the shell is
      not touched. */
  method HandleAuthCode(b: Browser, query: seq<(string, string)>, reply: Reply)
    modifies b
    ensures CallbackOf(query).Missing? ==>
              b.sent == old(b.sent) && b.storage == old(b.storage) && b.visited == old(b.visited)
    ensures var c := CallbackOf(query);
            c.Exchange? ==> b.sent == old(b.sent) + [Outgoing(Public, GET, ExchangeAddress(c.code, c.state), map[], old(b.storage))]
    ensures CallbackOf(query).Exchange? && TokenOf(reply).Some? ==>
              b.storage == Some(ToStorageString(TokenOf(reply).value)) && b.visited == old(b.visited) + ["/"]
    ensures CallbackOf(query).Missing? || TokenOf(reply).None? ==>
              b.storage == old(b.storage) && b.visited == old(b.visited)
  {
    var c := CallbackOf(query);
    if c.Missing? {
      return;
    }
    var _ := b.Send(Public, GET, ExchangeAddress(c.code, c.state), map[]);
    var t := TokenOf(reply);
    if t.Some? {
      b.SetToken(t.value);
      b.Navigate("/");
    }
  }

  /** A truthy token that is not an array is stored as a non-empty string,
      so the next `api` request carries it. An empty array is truthy but
      `String([])` is empty, and the interceptor would then send nothing. */
  lemma StoredTokenAuthenticates(t: JsValue)
    requires Truthy(t) && !t.j.JArray?
    ensures HasToken(Some(ToStorageString(t)))
  {
    match t.j
    case JInt(i) =>
      if i < 0 {
        assert Text.IntToString(i) == "-" + Text.NatToString(-i);
      } else {
        assert Text.IntToString(i) == Text.NatToString(i);
      }
    case JStr(_) =>
    case JObject(_) =>
  }

  /** The edge case above, shown. */
  lemma EmptyArrayTokenIsNotSent()
    ensures Truthy(Val(JArray([])))
    ensures !HasToken(Some(ToStorageString(Val(JArray([])))))
  {
    assert Text.JoinWith(",", []) == "";
  }
}
