/** `POST /auth/verify-otp`: look the user up by e-mail, check the code and
    its expiration, and mark the address verified. */
module Otp {
  import opened Wrappers
  import opened Python
  import Db

  const UserNotFound := "User not found"
  const InvalidOrExpired := "Invalid or expired OTP"
  const Verified := "Email verified successfully"

  /** The guard `user.otp != otp or user.otp_expiration < now`: true rejects
      the code. `or` stops at a mismatch, so the expiration is compared only
      for a matching code, and comparing a missing expiration with a time
      raises TypeError. An expiration equal to `now` is not rejected. */
  function OtpRejected(u: Db.User, otp: string, now: int): (r: Outcome<bool>)
    ensures r == Ok(true) <==>
              u.otp != Some(otp) || (u.otpExpiration.Some? && u.otpExpiration.value < now)
    ensures r == Ok(false) <==>
              u.otp == Some(otp) && u.otpExpiration.Some? && now <= u.otpExpiration.value
    ensures r.Raised? <==> u.otp == Some(otp) && u.otpExpiration.None?
    ensures r.Raised? ==> r.exc == Fault
  {
    if u.otp != Some(otp) then Ok(true)
    else if u.otpExpiration.None? then Raised(Fault)
    else Ok(u.otpExpiration.value < now)
  }

  /** For a record that keeps its otp pair, only the empty code can reach the
      faulting comparison. */
  lemma PairedRecordNeverFaults(u: Db.User, otp: string, now: int)
    requires Db.UserOtpPaired(u) && otp != ""
    ensures OtpRejected(u, otp, now).Ok?
  {
  }

  /** `verify_otp`, replying with the success message or raising. */
  method VerifyOtp(store: Db.UserStore, email: string, otp: string, now: int) returns (r: Outcome<string>)
    requires store.Valid()
    modifies store
    ensures store.Valid()
    ensures email !in old(store.users) ==>
              r == Raised(HTTPException(404, UserNotFound)) && store.users == old(store.users)
    ensures email in old(store.users) && OtpRejected(old(store.users)[email], otp, now) == Ok(true) ==>
              r == Raised(HTTPException(400, InvalidOrExpired)) && store.users == old(store.users)
    ensures email in old(store.users) && OtpRejected(old(store.users)[email], otp, now).Raised? ==>
              r == Raised(Fault) && store.users == old(store.users)
    ensures email in old(store.users) && OtpRejected(old(store.users)[email], otp, now) == Ok(false) ==>
              r == Ok(Verified)
              && store.users == old(store.users)[email := old(store.users)[email].(
                                   otp := None, otpExpiration := None, isVerified := true)]
  {
    if email !in store.users {
      return Raised(HTTPException(404, UserNotFound));
    }
    var user := store.users[email];
    var rejected := OtpRejected(user, otp, now);
    if rejected.Raised? {
      return Raised(Fault);
    }
    if rejected.value {
      return Raised(HTTPException(400, InvalidOrExpired));
    }
    user := user.(otp := None, otpExpiration := None, isVerified := true);
    store.users := store.users[email := user];
    r := Ok(Verified);
  }
}
