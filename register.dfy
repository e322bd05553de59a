/** The registration page: the account form, the fallback that re-sends the
    verification mail for an address already registered, and the one-time
    code step. */
module Register {
  import opened Wrappers
  import opened Json
  import opened Js
  import opened Api

  const PasswordPolicyMessage := "Salasana pitää olla vähintään 8 merkkiä pitkä"
  const RegisterFailedMessage := "Rekisteröinti epäonnistui"
  const InvalidCodeMessage := "Virheellinen tai vanhentunut varmennuskoodi"

  /** The React state of the page. */
  class RegisterPage {
    /** Whether the code form replaces the account form. */
    var verificationSent: bool
    var email: string
    var error: string

    constructor ()
      ensures !verificationSent && email == "" && error == ""
    {
      verificationSent := false;
      email := "";
      error := "";
    }
  }

  /** What the page renders below the error banner. */
  datatype Step = AccountForm | CodeForm

  function StepOf(verificationSent: bool): (v: Step)
    ensures v == CodeForm <==> verificationSent
  {
    if verificationSent then CodeForm else AccountForm
  }

  /** `sendVerificationEmail`: the code form opens only on a 202 reply;
      anything else, failures included, leaves the page as it was. */
  method SendVerificationEmail(b: Browser, page: RegisterPage, addr: string, reply: Reply)
    modifies b`sent, page
    ensures b.sent == old(b.sent) + [Outgoing(Public, POST, "/auth/request-verify-token", map["email" := addr], b.storage)]
    ensures reply.Response? && reply.status == 202 ==>
              page.verificationSent && page.email == addr && page.error == ""
    ensures !(reply.Response? && reply.status == 202) ==>
              page.verificationSent == old(page.verificationSent) && page.email == old(page.email)
              && page.error == old(page.error)
  {
    var _ := b.Send(Public, POST, "/auth/request-verify-token", map["email" := addr]);
    if reply.Response? && reply.status == 202 {
      page.verificationSent := true;
      page.email := addr;
      page.error := "";
    }
  }

  /** The two error messages of the account form differ. */
  lemma MessagesDistinct()
    ensures PasswordPolicyMessage != RegisterFailedMessage
  {
    assert |PasswordPolicyMessage| != |RegisterFailedMessage|;
  }

  /** What `handleRegister` does after the account request. */
  datatype RegisterStep = ShowCodeForm | ResendVerification | ShowError(message: string)

  /** Success opens the code form; a rejection naming an existing account
      re-sends the verification mail; a rejection whose detail is an object
      with the password-policy code shows the policy message; everything
      else shows the generic one. */
  function RegisterStepOf(reply: Reply): (r: RegisterStep)
    ensures r == ShowCodeForm <==> reply.Response?
    ensures r == ResendVerification <==> ErrorDetail(reply) == Val(JStr("REGISTER_USER_ALREADY_EXISTS"))
    ensures r == ShowError(PasswordPolicyMessage) <==>
              OptGet(ErrorDetail(reply), "code") == Val(JStr("REGISTER_INVALID_PASSWORD"))
    ensures r.ShowError? ==> r.message in {PasswordPolicyMessage, RegisterFailedMessage}
  {
    MessagesDistinct();
    if reply.Response? then ShowCodeForm
    else
      var detail := ErrorDetail(reply);
      if detail == Val(JStr("REGISTER_USER_ALREADY_EXISTS")) then ResendVerification
      else if OptGet(detail, "code") == Val(JStr("REGISTER_INVALID_PASSWORD")) then ShowError(PasswordPolicyMessage)
      else ShowError(RegisterFailedMessage)
  }

  /** `handleRegister`. `resendReply` is how the verification request ends
      when the fallback sends one. */
  method HandleRegister(b: Browser, page: RegisterPage, email: string, password: string, reply: Reply, resendReply: Reply)
    modifies b`sent, page
    ensures var register := Outgoing(Public, POST, "/auth/register-json", map["email" := email, "password" := password], b.storage);
            var resend := Outgoing(Public, POST, "/auth/request-verify-token", map["email" := email], b.storage);
            b.sent == old(b.sent) + [register] + (if RegisterStepOf(reply) == ResendVerification then [resend] else [])
    ensures RegisterStepOf(reply) == ShowCodeForm ==>
              page.verificationSent && page.email == email && page.error == ""
    ensures RegisterStepOf(reply) == ResendVerification && resendReply.Response? && resendReply.status == 202 ==>
              page.verificationSent && page.email == email && page.error == ""
    ensures RegisterStepOf(reply) == ResendVerification && !(resendReply.Response? && resendReply.status == 202) ==>
              page.verificationSent == old(page.verificationSent) && page.email == old(page.email)
              && page.error == old(page.error)
    ensures RegisterStepOf(reply).ShowError? ==>
              page.error == RegisterStepOf(reply).message
              && page.verificationSent == old(page.verificationSent) && page.email == old(page.email)
  {
    var _ := b.Send(Public, POST, "/auth/register-json", map["email" := email, "password" := password]);
    var step := RegisterStepOf(reply);
    match step
    case ShowCodeForm =>
      page.verificationSent := true;
      page.email := email;
      page.error := "";
    case ResendVerification =>
      SendVerificationEmail(b, page, email, resendReply);
    case ShowError(message) =>
      page.error := message;
  }

  /** What `handleOTPSubmit` does with the reply. */
  datatype CodeStep = GoToLogin | ShowInvalidCode | Stay

  /** A resolved reply whose body has detail "OTP_VERIFIED" leads to the
      login page with the banner; a rejection with the expired-code detail
      shows the code message; everything else, a null body included (it
      throws inside the `try`), changes nothing. */
  function CodeStepOf(reply: Reply): (r: CodeStep)
    ensures r == GoToLogin <==> reply.Response? && reply.data != JNull
                                && Own(reply.data, "detail") == Val(JStr("OTP_VERIFIED"))
    ensures r == ShowInvalidCode <==> ErrorDetail(reply) == Val(JStr("Invalid or expired OTP"))
  {
    match reply
    case Response(_, data) =>
      (match Get(Val(data), "detail")
       case Done(d) => if d == Val(JStr("OTP_VERIFIED")) then GoToLogin else Stay
       case Threw => Stay)
    case _ => if ErrorDetail(reply) == Val(JStr("Invalid or expired OTP")) then ShowInvalidCode else Stay
  }

  /** `handleOTPSubmit`: the code goes out with the address kept from the
      previous step. The stored token is never touched. */
  method HandleOtpSubmit(b: Browser, page: RegisterPage, otp: string, reply: Reply)
    modifies b`sent, b`visited, page`error
    ensures b.sent == old(b.sent) + [Outgoing(Public, POST, "/auth/verify-otp", map["email" := page.email, "otp" := otp], b.storage)]
    ensures b.storage == old(b.storage) && page.verificationSent == old(page.verificationSent)
    ensures CodeStepOf(reply) == GoToLogin ==> b.visited == old(b.visited) + ["/login?verified=1"]
    ensures CodeStepOf(reply) != GoToLogin ==> b.visited == old(b.visited)
    ensures CodeStepOf(reply) == ShowInvalidCode ==> page.error == InvalidCodeMessage
    ensures CodeStepOf(reply) != ShowInvalidCode ==> page.error == old(page.error)
  {
    var _ := b.Send(Public, POST, "/auth/verify-otp", map["email" := page.email, "otp" := otp]);
    match CodeStepOf(reply)
    case GoToLogin => b.Navigate("/login?verified=1");
    case ShowInvalidCode => page.error := InvalidCodeMessage;
    case Stay =>
  }
}
