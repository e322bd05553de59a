/** The two stored documents: users, with the one-time-code pair and the
    validator that keeps it paired, and blood-pressure measurements, with
    their field constraints and defaults. Times are integer seconds. */
module Db {
  import opened Wrappers
  import opened Python

  /** A user document: the fastapi-users base fields the model uses, plus the
      one-time code and its expiration. */
  datatype User = User(
    id: string,
    email: string,
    hashedPassword: string,
    isActive: bool,
    isVerified: bool,
    isSuperuser: bool,
    otp: Option<string>,
    otpExpiration: Option<int>)

  /** Python truthiness of the `otp` field: None and "" are false. */
  predicate OtpTruthy(otp: Option<string>) {
    otp.Some? && otp.value != ""
  }

  /** The pairing the validator demands. An expiration is a datetime, and a
      datetime is always truthy, so for it truthy means present. */
  predicate OtpPaired(otp: Option<string>, otpExpiration: Option<int>) {
    OtpTruthy(otp) <==> otpExpiration.Some?
  }

  predicate UserOtpPaired(u: User) {
    OtpPaired(u.otp, u.otpExpiration)
  }

  const OtpWithoutExpiration := "If 'otp' is provided, 'otp_expiration' must also be provided."
  const ExpirationWithoutOtp := "If 'otp_expiration' is provided, 'otp' must also be provided."

  /** The two fields the before-validator reads from the raw input. */
  datatype OtpFields = OtpFields(otp: Option<string>, otpExpiration: Option<int>)

  /** `User.validate_otp_and_expiration`: rejects a truthy otp without an
      expiration, then an expiration without a truthy otp, and otherwise
      hands its input on unchanged. */
  function ValidateOtpAndExpiration(data: OtpFields): (r: Outcome<OtpFields>)
    ensures r.Ok? <==> OtpPaired(data.otp, data.otpExpiration)
    ensures r.Ok? ==> r.value == data
    ensures OtpTruthy(data.otp) && data.otpExpiration.None? ==>
              r == Raised(ValidationError(OtpWithoutExpiration))
    ensures !OtpTruthy(data.otp) && data.otpExpiration.Some? ==>
              r == Raised(ValidationError(ExpirationWithoutOtp))
  {
    if OtpTruthy(data.otp) && data.otpExpiration.None? then
      Raised(ValidationError(OtpWithoutExpiration))
    else if data.otpExpiration.Some? && !OtpTruthy(data.otp) then
      Raised(ValidationError(ExpirationWithoutOtp))
    else
      Ok(data)
  }

  /** A measurement document. */
  datatype Measurement = Measurement(
    id: string,
    userId: string,
    systolic: int,
    diastolic: int,
    pulse: int,
    timestamp: int,
    tags: seq<string>,
    notes: Option<string>)

  /** The `gt=0` constraints on the three readings. */
  predicate ValidMeasurement(m: Measurement) {
    m.systolic > 0 && m.diastolic > 0 && m.pulse > 0
  }

  const ReadingNotPositive := "Input should be greater than 0"

  /** Constructing a `Measurement`: the readings are validated, and an omitted
      timestamp, tag list or note takes its default (the current time, no
      tags, no note). */
  function NewMeasurement(id: string, userId: string, systolic: int, diastolic: int, pulse: int,
                          timestamp: Option<int>, now: int, tags: Option<seq<string>>,
                          notes: Option<string>): (r: Outcome<Measurement>)
    ensures r.Ok? <==> systolic > 0 && diastolic > 0 && pulse > 0
    ensures r.Raised? ==> r.exc == ValidationError(ReadingNotPositive)
    ensures r.Ok? ==> ValidMeasurement(r.value)
    ensures r.Ok? ==> r.value.systolic == systolic && r.value.diastolic == diastolic && r.value.pulse == pulse
    ensures r.Ok? ==> r.value.id == id && r.value.userId == userId
    ensures r.Ok? && timestamp.None? ==> r.value.timestamp == now
    ensures r.Ok? && timestamp.Some? ==> r.value.timestamp == timestamp.value
    ensures r.Ok? && tags.None? ==> r.value.tags == []
    ensures r.Ok? && tags.Some? ==> r.value.tags == tags.value
    ensures r.Ok? ==> r.value.notes == notes
  {
    if systolic > 0 && diastolic > 0 && pulse > 0 then
      Ok(Measurement(id, userId, systolic, diastolic, pulse, timestamp.GetOr(now), tags.GetOr([]), notes))
    else
      Raised(ValidationError(ReadingNotPositive))
  }

  /** The user collection, keyed by e-mail address. */
  class UserStore {
    var users: map<string, User>

    /** Every record is filed under its own address and keeps its otp pair. */
    ghost predicate Valid()
      reads this
    {
      forall e :: e in users ==> users[e].email == e && UserOtpPaired(users[e])
    }

    constructor ()
      ensures users == map[] && Valid()
    {
      users := map[];
    }
  }

  /** The measurement collection, in insertion order. */
  class MeasurementStore {
    var measurements: seq<Measurement>

    /** Every stored document passed the field constraints. */
    ghost predicate Valid()
      reads this
    {
      forall i :: 0 <= i < |measurements| ==> ValidMeasurement(measurements[i])
    }

    constructor ()
      ensures measurements == [] && Valid()
    {
      measurements := [];
    }

    /** `session.add` followed by `commit`: the document is appended, and
        the collection keeps holding only valid documents. */
    method Add(m: Measurement)
      requires Valid() && ValidMeasurement(m)
      modifies this
      ensures Valid() && measurements == old(measurements) + [m]
    {
      measurements := measurements + [m];
    }
  }
}
