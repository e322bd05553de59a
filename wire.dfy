/** The two sides of the HTTP contract put together: the reply each backend
    outcome becomes, and what the frontend handlers do with it. Each side is
    modelled as written; where they disagree, the lemmas here say what the
    visitor then sees. */
module Wire {
  import opened Wrappers
  import opened Python
  import opened Json
  import opened Api
  import Db
  import Auth
  import Otp
  import Login
  import Register

  /** The reply FastAPI sends for an exception that escapes a route:
      `{"detail": ...}` for an `HTTPException`, a plain-text 500 otherwise. */
  function ErrorReply(e: Exc): (r: Reply)
    ensures r.ErrorResponse? && r.status == StatusOf(e)
    ensures e.HTTPException? ==> r.data == JObject(map["detail" := JStr(e.detail)])
  {
    match e
    case HTTPException(status, detail) => ErrorResponse(status, JObject(map["detail" := JStr(detail)]))
    case _ => ErrorResponse(500, JStr("Internal Server Error"))
  }

  /** Every refusal of the login route reaches the form as its own message,
      never as the generic one. */
  lemma LoginRefusalsAgree(user: Option<Db.User>, password: string,
                           verifyAndUpdate: (string, string) -> (bool, Option<string>))
    requires Auth.DecideLogin(user, password, verifyAndUpdate).Deny?
    ensures var d := Auth.DecideLogin(user, password, verifyAndUpdate);
            var r := Login.SubmitOutcome(ErrorReply(HTTPException(d.status, d.detail)));
            r.LoginError? && r.message != Login.LoginFailedMessage
    ensures user.None? ==>
              Login.SubmitOutcome(ErrorReply(HTTPException(404, Auth.UserNotFound))) == Login.LoginError(Login.NotFoundMessage)
  {
    var d := Auth.DecideLogin(user, password, verifyAndUpdate);
    var reply := ErrorReply(HTTPException(d.status, d.detail));
    assert Api.ErrorDetail(reply) == Js.Val(JStr(d.detail));
    assert Login.KnownDetail(Js.Val(JStr(d.detail)));
  }

  /** Registering a taken address makes the page re-send the verification
      mail for it. */
  lemma TakenAddressResends(users: map<string, Db.User>, email: string, password: string, id: string, hashed: string)
    requires Auth.CreateUser(users, email, password, id, hashed).AlreadyExists?
    ensures var c := Auth.CreateUser(users, email, password, id, hashed);
            Register.RegisterStepOf(ErrorReply(HTTPException(400, Auth.RegisterErrorDetail(c)))) == Register.ResendVerification
  {
    var c := Auth.CreateUser(users, email, password, id, hashed);
    assert Api.ErrorDetail(ErrorReply(HTTPException(400, Auth.RegisterErrorDetail(c)))) == Js.Val(JStr(Auth.UserAlreadyExists));
  }

  /** The backend answers a rejected password with the plain detail
      "INVALID_PASSWORD", while the page looks for an object whose `code` is
      "REGISTER_INVALID_PASSWORD": the policy message is never shown and the
      visitor sees the generic failure. */
  lemma PolicyMessageNeverShown(users: map<string, Db.User>, email: string, password: string, id: string, hashed: string)
    requires Auth.CreateUser(users, email, password, id, hashed).PasswordRejected?
    ensures var c := Auth.CreateUser(users, email, password, id, hashed);
            Register.RegisterStepOf(ErrorReply(HTTPException(400, Auth.RegisterErrorDetail(c))))
              == Register.ShowError(Register.RegisterFailedMessage)
  {
    var c := Auth.CreateUser(users, email, password, id, hashed);
    var detail := Api.ErrorDetail(ErrorReply(HTTPException(400, Auth.RegisterErrorDetail(c))));
    assert detail == Js.Val(JStr(Auth.InvalidPassword));
    assert Auth.InvalidPassword != Auth.UserAlreadyExists by {
      assert |Auth.InvalidPassword| != |Auth.UserAlreadyExists|;
    }
    assert Js.OptGet(detail, "code") == Js.Undefined;
  }

  /** The backend confirms a correct code with `{"message": ...}`, while the
      page waits for `detail == "OTP_VERIFIED"`: a verified visitor stays on
      the code form. */
  lemma VerifiedCodeNeverNavigates(status: int)
    ensures Register.CodeStepOf(Response(status, JObject(map["message" := JStr(Otp.Verified)]))) == Register.Stay
  {
    var data := JObject(map["message" := JStr(Otp.Verified)]);
    assert Js.Own(data, "detail") == Js.Undefined;
  }

  /** A wrong or expired code reaches the page as its code message; an
      unknown address changes nothing on the page. */
  lemma CodeRefusalsAgree()
    ensures Register.CodeStepOf(ErrorReply(HTTPException(400, Otp.InvalidOrExpired))) == Register.ShowInvalidCode
    ensures Register.CodeStepOf(ErrorReply(HTTPException(404, Otp.UserNotFound))) == Register.Stay
  {
    assert Api.ErrorDetail(ErrorReply(HTTPException(404, Otp.UserNotFound))) == Js.Val(JStr(Otp.UserNotFound));
    assert Otp.UserNotFound != Otp.InvalidOrExpired by {
      assert |Otp.UserNotFound| != |Otp.InvalidOrExpired|;
    }
  }
}
