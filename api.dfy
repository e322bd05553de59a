/** The two HTTP clients of the frontend and the browser state they touch.
    `api` runs a request interceptor that reads the stored token on every
    request and attaches it as a Bearer credential (section 2.1 of RFC 6750);
    `publicApi` has no interceptor. Both use the same base URL. The browser
    is the `localStorage` slot for the token, the log of requests sent and
    the log of in-app navigations. Server replies are inputs. */
module Api {
  import opened Wrappers
  import opened Json
  import opened Js

  const BaseUrl := "http://localhost:8080"
  const TokenKey := "access_token"

  /** `api` or `publicApi`. */
  datatype Client = Authenticated | Public

  datatype Verb = GET | POST

  /** A request as it leaves the browser, after the interceptors ran. */
  datatype Request = Request(baseUrl: string, verb: Verb, url: string,
                             headers: map<string, string>, body: map<string, string>)

  /** How a request ended: axios resolves with a 2xx response, rejects with
      `err.response` set on any other status, and rejects without one when
      no response came back. */
  datatype Reply = Response(status: int, data: Json) | ErrorResponse(status: int, data: Json) | NetworkError

  /** `err?.response?.data?.detail` in a `catch`: only a rejection that
      carries a response has one. */
  function ErrorDetail(reply: Reply): (detail: JsValue)
    ensures reply.ErrorResponse? && reply.data.JObject? && "detail" in reply.data.fields ==>
              detail == Val(reply.data.fields["detail"])
    ensures !reply.ErrorResponse? ==> detail == Undefined
  {
    if reply.ErrorResponse? then OptGet(Val(reply.data), "detail") else Undefined
  }

  /** A stored token the interceptor accepts: present and not empty. */
  predicate HasToken(stored: Option<string>) {
    stored.Some? && stored.value != ""
  }

  /** The request configuration the interceptor receives and returns. */
  class RequestConfig {
    var headers: map<string, string>

    constructor ()
      ensures headers == map[]
    {
      headers := map[];
    }
  }

  /** The interceptor of `api`: sets `Authorization` when a token is stored,
      and otherwise returns the configuration untouched. */
  method Intercept(config: RequestConfig, stored: Option<string>)
    modifies config
    ensures HasToken(stored) ==> config.headers == old(config.headers)["Authorization" := "Bearer " + stored.value]
    ensures !HasToken(stored) ==> config.headers == old(config.headers)
  {
    if HasToken(stored) {
      config.headers := config.headers["Authorization" := "Bearer " + stored.value];
    }
  }

  /** The request a client sends, given what storage holds at that moment. */
  function Outgoing(client: Client, verb: Verb, url: string, body: map<string, string>, stored: Option<string>): (r: Request)
    ensures r.baseUrl == BaseUrl && r.verb == verb && r.url == url && r.body == body
    ensures "Authorization" in r.headers <==> client == Authenticated && HasToken(stored)
    ensures "Authorization" in r.headers ==> r.headers["Authorization"] == "Bearer " + stored.value
    ensures r.headers.Keys <= {"Authorization"}
  {
    Request(BaseUrl, verb, url,
            if client == Authenticated && HasToken(stored) then map["Authorization" := "Bearer " + stored.value] else map[],
            body)
  }

  /** The browser state the handlers read and write. */
  class Browser {
    /** `localStorage.getItem("access_token")`: null is None. */
    var storage: Option<string>
    var sent: seq<Request>
    var visited: seq<string>

    constructor (stored: Option<string>)
      ensures storage == stored && sent == [] && visited == []
    {
      storage := stored;
      sent := [];
      visited := [];
    }

    /** `localStorage.setItem("access_token", v)`, which stores `String(v)`. */
    method SetToken(v: JsValue)
      modifies this`storage
      ensures storage == Some(ToStorageString(v))
    {
      storage := Some(ToStorageString(v));
    }

    /** `localStorage.removeItem("access_token")`. */
    method RemoveToken()
      modifies this`storage
      ensures storage == None
    {
      storage := None;
    }

    /** `navigate(path)`. */
    method Navigate(path: string)
      modifies this`visited
      ensures visited == old(visited) + [path]
    {
      visited := visited + [path];
    }

    /** Sends a request through a client. For `api` the interceptor reads
        the token now, not when the client was made. */
    method Send(client: Client, verb: Verb, url: string, body: map<string, string>) returns (req: Request)
      modifies this`sent
      ensures req == Outgoing(client, verb, url, body, storage)
      ensures sent == old(sent) + [req]
    {
      var config := new RequestConfig();
      if client == Authenticated {
        Intercept(config, storage);
      }
      req := Request(BaseUrl, verb, url, config.headers, body);
      sent := sent + [req];
    }
  }

  /** The credential follows the stored token from one request to the next:
      after the token changes, the next request of `api` carries the new one. */
  lemma TokenReadPerRequest(verb: Verb, url: string, body: map<string, string>, before: Option<string>, after: Option<string>)
    requires HasToken(before) && HasToken(after) && before != after
    ensures Outgoing(Authenticated, verb, url, body, before) != Outgoing(Authenticated, verb, url, body, after)
    ensures Outgoing(Authenticated, verb, url, body, after).headers["Authorization"] == "Bearer " + after.value
  {
    var h1 := Outgoing(Authenticated, verb, url, body, before).headers["Authorization"];
    var h2 := Outgoing(Authenticated, verb, url, body, after).headers["Authorization"];
    assert h1[7..] == before.value && h2[7..] == after.value;
  }
}
