/** The login form: the credential exchange over the public client, the
    mapping of the server's error codes to messages, the redirect of a
    signed-in visitor and the "verified" banner. */
module Login {
  import opened Wrappers
  import opened Json
  import opened Js
  import opened Api
  import opened App

  const NotFoundMessage := "Käyttäjää ei löydy"
  const InactiveMessage := "Käyttäjätili on passivoitu"
  const NotVerifiedMessage := "Sähköpostia ei ole vahvistettu"
  const WrongPasswordMessage := "Virheellinen salasana"
  const LoginFailedMessage := "Kirjautuminen epäonnistui"

  /** The detail codes the form recognises. */
  predicate KnownDetail(detail: JsValue) {
    detail in {Val(JStr("USER_NOT_FOUND")), Val(JStr("USER_INACTIVE")), Val(JStr("USER_NOT_VERIFIED")),
               Val(JStr("INVALID_PASSWORD"))}
  }

  /** The message for `err?.response?.data?.detail`: each known code has its
      own, everything else the generic one. */
  function ErrorMessage(detail: JsValue): (msg: string)
    ensures detail == Val(JStr("USER_NOT_FOUND")) <==> msg == NotFoundMessage
    ensures detail == Val(JStr("USER_INACTIVE")) <==> msg == InactiveMessage
    ensures detail == Val(JStr("USER_NOT_VERIFIED")) <==> msg == NotVerifiedMessage
    ensures detail == Val(JStr("INVALID_PASSWORD")) <==> msg == WrongPasswordMessage
    ensures !KnownDetail(detail) <==> msg == LoginFailedMessage
  {
    MessagesDistinct();
    if detail == Val(JStr("USER_NOT_FOUND")) then NotFoundMessage
    else if detail == Val(JStr("USER_INACTIVE")) then InactiveMessage
    else if detail == Val(JStr("USER_NOT_VERIFIED")) then NotVerifiedMessage
    else if detail == Val(JStr("INVALID_PASSWORD")) then WrongPasswordMessage
    else LoginFailedMessage
  }

  /** The five messages differ from one another. */
  lemma MessagesDistinct()
    ensures |{NotFoundMessage, InactiveMessage, NotVerifiedMessage, WrongPasswordMessage, LoginFailedMessage}| == 5
  {
    assert NotFoundMessage[8] == 'ä' && InactiveMessage[8] == 't';
    assert NotVerifiedMessage[0] == 'S' && WrongPasswordMessage[0] == 'V';
    assert LoginFailedMessage[1] == 'i' && NotFoundMessage[1] == 'ä' && InactiveMessage[1] == 'ä';
  }

  /** How `handleSubmit` ends. */
  datatype LoginResult = LoggedIn(token: JsValue) | LoginError(message: string)

  /** A resolved reply logs in with whatever `data.access_token` is; a null
      body throws inside the `try`, and that TypeError carries no response,
      so it ends like a network failure. A rejected reply is mapped by its
      detail. */
  function SubmitOutcome(reply: Reply): (r: LoginResult)
    ensures r.LoggedIn? <==> reply.Response? && reply.data != JNull
    ensures r.LoggedIn? ==> r.token == Own(reply.data, "access_token")
    ensures !r.LoggedIn? ==> r == LoginError(ErrorMessage(ErrorDetail(reply)))
    ensures reply.NetworkError? ==> r == LoginError(LoginFailedMessage)
  {
    match reply
    case Response(_, data) =>
      (match Get(Val(data), "access_token")
       case Done(t) => LoggedIn(t)
       case Threw => LoginError(ErrorMessage(ErrorDetail(reply))))
    case _ => LoginError(ErrorMessage(ErrorDetail(reply)))
  }

  /** The React state of the form that the handler writes. */
  class LoginForm {
    var error: string

    constructor ()
      ensures error == ""
    {
      error := "";
    }
  }

  /** `handleSubmit`: on success the token is stored, the session becomes
      `{email, token}` and the page moves to the dashboard; on failure only
      the error message changes. */
  method HandleSubmit(b: Browser, s: Session, form: LoginForm, email: string, password: string, reply: Reply)
    modifies b, s, form
    ensures b.sent == old(b.sent) + [Outgoing(Public, POST, "/auth/login", map["email" := email, "password" := password], old(b.storage))]
    ensures SubmitOutcome(reply).LoggedIn? ==>
              var t := SubmitOutcome(reply).token;
              b.storage == Some(ToStorageString(t)) && s.currentUser == Some(LoginUser(email, t))
              && b.visited == old(b.visited) + ["/dashboard"] && form.error == old(form.error)
    ensures SubmitOutcome(reply).LoginError? ==>
              form.error == SubmitOutcome(reply).message
              && b.storage == old(b.storage) && s.currentUser == old(s.currentUser) && b.visited == old(b.visited)
  {
    var _ := b.Send(Public, POST, "/auth/login", map["email" := email, "password" := password]);
    var outcome := SubmitOutcome(reply);
    if outcome.LoggedIn? {
      b.SetToken(outcome.token);
      s.currentUser := Some(LoginUser(email, outcome.token));
      b.Navigate("/dashboard");
    } else {
      form.error := outcome.message;
    }
  }

  /** The redirect effect: a signed-in visitor is sent to the dashboard. */
  function RedirectOf(user: Option<SessionUser>): (r: Option<string>)
    ensures r.Some? <==> user.Some?
    ensures r.Some? ==> r.value == "/dashboard"
  {
    if user.Some? then Some("/dashboard") else None
  }

  /** The effect as it runs. */
  method RedirectIfSignedIn(b: Browser, user: Option<SessionUser>)
    modifies b`visited
    ensures RedirectOf(user).Some? ==> b.visited == old(b.visited) + [RedirectOf(user).value]
    ensures RedirectOf(user).None? ==> b.visited == old(b.visited)
  {
    if user.Some? {
      b.Navigate("/dashboard");
    }
  }

  /** The "account verified" banner shows exactly when the first `verified`
      query parameter is "1". */
  function VerifiedBanner(query: seq<(string, string)>): (shown: bool)
    ensures shown <==> exists i :: 0 <= i < |query| && query[i] == ("verified", "1")
                                   && forall k :: 0 <= k < i ==> query[k].0 != "verified"
  {
    QueryGet(query, "verified") == Some("1")
  }
}
