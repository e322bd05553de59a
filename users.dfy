/** `UserManager`: the password policy, and what happens when a user asks for
    a verification code (a four-digit code, valid ten minutes, e-mailed and
    then saved). */
module Users {
  import opened Wrappers
  import opened Python
  import Text
  import Db

  const MinPasswordLength := 8
  const PasswordTooShort := "Password should be at least 8 characters"
  const PasswordContainsEmail := "Password should not contain e-mail"

  /** `validate_password`: None when the password is accepted, otherwise the
      reason of the InvalidPasswordException. The length rule is checked first. */
  function ValidatePassword(password: string, email: string): (reason: Option<string>)
    ensures reason.None? <==> |password| >= MinPasswordLength && !Text.IsSubstring(email, password)
    ensures reason == Some(PasswordTooShort) <==> |password| < MinPasswordLength
    ensures reason == Some(PasswordContainsEmail) <==>
              |password| >= MinPasswordLength && Text.IsSubstring(email, password)
  {
    if |password| < MinPasswordLength then Some(PasswordTooShort)
    else if Text.IsSubstring(email, password) then Some(PasswordContainsEmail)
    else None
  }

  /** Ten minutes, in the model's seconds. */
  const OtpLifetime := 600

  const SendFailed := "Failed to send email"

  /** A one-time code: exactly four decimal digits. */
  predicate IsOtp(otp: string) {
    |otp| == 4 && Text.AllDigits(otp)
  }

  /** The code built from four random choices among '0'..'9', each choice
      given as the index it picked. */
  function OtpFromChoices(choices: seq<nat>): (otp: string)
    requires |choices| == 4 && forall i :: 0 <= i < 4 ==> choices[i] < 10
    ensures IsOtp(otp)
    ensures forall i :: 0 <= i < 4 ==> otp[i] == "0123456789"[choices[i]]
  {
    seq(4, i requires 0 <= i < 4 => "0123456789"[choices[i]])
  }

  /** `on_after_request_verify` for the user filed under `email`: the code is
      e-mailed first, and only when that succeeds are the code and its
      expiration saved, together. `emailSent` is the outcome of the e-mail
      delivery. */
  method OnAfterRequestVerify(store: Db.UserStore, email: string, choices: seq<nat>, now: int,
                              emailSent: bool) returns (r: Outcome<()>)
    requires store.Valid() && email in store.users
    requires |choices| == 4 && forall i :: 0 <= i < 4 ==> choices[i] < 10
    modifies store
    ensures store.Valid()
    ensures !emailSent ==> r == Raised(HTTPException(500, SendFailed)) && store.users == old(store.users)
    ensures emailSent ==> r == Ok(())
    ensures emailSent ==> store.users == old(store.users)[email := old(store.users)[email].(
                            otp := Some(OtpFromChoices(choices)),
                            otpExpiration := Some(now + OtpLifetime))]
  {
    var user := store.users[email];
    var otp := OtpFromChoices(choices);
    var otpExpiration := now + OtpLifetime;
    if !emailSent {
      return Raised(HTTPException(500, SendFailed));
    }
    user := user.(otp := Some(otp), otpExpiration := Some(otpExpiration));
    store.users := store.users[email := user];
    r := Ok(());
  }
}
