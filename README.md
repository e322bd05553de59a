# Painepartneri blood-pressure tracker — a Dafny model of its core

Painepartneri stores blood-pressure readings for signed-in users. A FastAPI
backend keeps users and measurements and exports them as HL7 FHIR R4
resources. A React frontend handles sign-up, e-mail verification with a
four-digit code, login, logout, Google sign-in and a sortable history table.
This project models three parts of it and proves properties about them.

**FHIR serialiser and parser** (`fhir_resources.dfy`, `fhir_parse.dfy`,
`fhir_router.dfy`).
- A measurement becomes two `Observation` resources, following the FHIR R4
  Vital Signs profile:
  - a blood-pressure panel, LOINC 85354-9, with systolic (8480-6) and
    diastolic (8462-4) components in UCUM `mm[Hg]`;
  - a heart rate, LOINC 8867-4, in `/min`.
- The listing wraps these pairs in a `searchset` Bundle.
- The parser reads a panel and a heart rate back. The create route takes the
  first panel and the first heart rate of a Bundle, answers 400 when either is
  missing, stores the measurement and replies with a `collection` Bundle.
- JSON is a small datatype (`json.dfy`). The Python operations the parser
  relies on are written out: `dict.get` on a value that may not be a dict,
  `in`, subscripting, iteration over whatever `get` returned, and `int(...)`.
  A TypeError or AttributeError becomes an explicit `Raised(Fault)` outcome.
- The proofs include:
  - round trips from measurement to resource and back;
  - the None conditions of the parser and its missing-component 400;
  - the precedence rules of the heart-rate extractor;
  - a create request is aborted by a broken panel even when a later resource
    is valid;
  - posting back a reply or a listing stores the same readings.

**Account and code rules** (`db.dfy`, `users.dfy`, `otp.dfy`, `auth.dfy`).
- The user store is a class over a map from e-mail address to user record.
- The models cover:
  - the password policy;
  - issuing a four-digit code with a ten-minute expiry, saved together with
    its expiry only after the mail went out;
  - checking a code and marking the address verified;
  - the ordered login checks with the password-hash upgrade;
  - the mapping of registration failures to error codes;
  - the record validator that keeps a code and its expiry together;
  - the positivity constraints on readings.

**Frontend session and registration state machines** (`js.dfy`, `api.dfy`,
`route_guard.dfy`, `app.dfy`, `login.dfy`, `navbar.dfy`,
`oauth_callback.dfy`, `register.dfy`, `otp_form.dfy`, `history.dfy`).
- `localStorage` is an optional token slot on a `Browser` object. The browser
  also records every request sent and every in-app navigation.
- React state is held in class fields. Every server reply is an input: a
  resolved response, a rejection carrying a response, or a network failure.
- The two axios clients differ only in the request interceptor. It attaches a
  Bearer credential (section 2.1 of RFC 6750) read from storage at the moment
  of each request.
- JavaScript's truthiness, property access that throws on `null`, optional
  chaining, `String(...)` as `localStorage.setItem` applies it, and
  `URLSearchParams.get` are written out in `js.dfy`.

**Frontend against backend** (`wire.dfy`).
- A backend exception reaches the frontend as a rejected reply. The lemmas
  there show where the two sides agree, such as login refusals and a taken
  address.
- They also show the two places where the sides disagree. Each side is
  modelled as written:
  - the registration page looks for an object detail with code
    `REGISTER_INVALID_PASSWORD`, while the backend sends the plain string
    `INVALID_PASSWORD`, so the policy message never appears;
  - the page waits for `detail == "OTP_VERIFIED"`, while the backend
    confirms a code with `{"message": ...}`, so a verified visitor stays on
    the code form.

Other modelling notes:
- Times are integer seconds. ISO-8601 formatting and parsing are parameters:
  `iso` and a partial `parseIso`. So are the clock, the random code digits,
  password hashing, token issuing, the e-mail outcome, the locale date
  formatter and every server reply.
- The history table's date column compares the formatted date strings, not
  the instants. The model keeps that behaviour.

## Model

| member | source | states |
|---|---|---|
| Db.ValidateOtpAndExpiration | root/backend/app/db.py:26-36 | accepted exactly when a truthy code and an expiry are both present or both absent, returning the input unchanged; each lone field is rejected with its own message |
| Db.NewMeasurement | root/backend/app/db.py:53-60 | built exactly when systolic, diastolic and pulse are all positive, otherwise a validation error; keeps the given readings, owner and notes; a given timestamp and tag list are kept, and omitted ones default to now and to no tags |
| Db.MeasurementStore.Add | root/backend/app/routers/fhir.py:237-238 | the valid document is appended to the collection, which keeps holding only valid documents |
| Users.ValidatePassword | root/backend/app/users.py:60-72 | accepted iff at least 8 characters and not containing the e-mail; the length reason is given first, the e-mail reason only for a long-enough password |
| Users.OtpFromChoices | root/backend/app/users.py:88 | the code is exactly four decimal digits, digit i being the i-th random pick |
| Users.OnAfterRequestVerify | root/backend/app/users.py:83-94 | a failed mail raises 500 and leaves the store untouched; otherwise the code and an expiry 600 seconds after now are saved together and the store stays valid |
| Otp.OtpRejected | root/backend/app/routers/otp.py:19 | rejects iff the code differs or the expiry is strictly before now, so an expiry equal to now passes; a matching code with no expiry faults on the comparison |
| Otp.PairedRecordNeverFaults | root/backend/app/routers/otp.py:19-20 | for a record that keeps code and expiry together, a non-empty code never reaches the faulting comparison |
| Otp.VerifyOtp | root/backend/app/routers/otp.py:10-28 | unknown address: 404 and no change; rejected code: 400 and no change; success: code and expiry cleared, address verified, nothing else changed, store still valid |
| Auth.DecideLogin | root/backend/app/routers/auth.py:33-47 | access granted iff the user exists, is active, is verified and the password verifies; otherwise the first failing check in that order decides the 404/400 detail |
| Auth.LoginJson | root/backend/app/routers/auth.py:23-56 | a refusal raises its status and detail and leaves the store; acceptance replaces the stored hash only when the helper produced a new one |
| Auth.CreateUser | root/backend/app/routers/auth.py:71-72 | created iff the password passes the policy and the address is free; the policy is checked first; a new user is active, unverified and has no code |
| Auth.RegisterErrorDetail | root/backend/app/routers/auth.py:73-77 | a taken address maps to REGISTER_USER_ALREADY_EXISTS and a rejected password to INVALID_PASSWORD, and only so |
| Auth.RegisterJson | root/backend/app/routers/auth.py:64-77 | success inserts the created user and returns its id and e-mail; a failure raises 400 with the mapped detail and leaves the store |
| FhirResources.VitalCategory | root/backend/app/routers/fhir.py:17-28 | the category list holds exactly one concept, the `vital-signs` coding of the HL7 observation-category system; ObservationBpShape and ObservationHrShape state that both Observations carry it |
| FhirResources.BpComponent | root/backend/app/routers/fhir.py:49-83 | a component is a dict; its partner FhirParse.ReadBpComponent reads it back as exactly its reading |
| FhirResources.ObservationBp | root/backend/app/routers/fhir.py:31-85 | the panel is a dict; ObservationBpShape states its type, id, final status, vital-signs category, coding, components, time and subject, and FhirParse.BpRoundTrip parses it back to the measurement |
| FhirResources.ObservationHr | root/backend/app/routers/fhir.py:88-112 | the heart-rate resource is a dict; ObservationHrShape states its type, id, final status, vital-signs category, coding, quantity, time and subject, and FhirParse.HrRoundTrip extracts the pulse back |
| FhirResources.ObservationBpShape | root/backend/app/routers/fhir.py:31-85 | the panel resource is an Observation with the measurement's id, status `final`, the vital-signs category, the 85354-9 coding, systolic then diastolic components in mm[Hg], the ISO time and the patient reference, and no top-level value or note |
| FhirResources.ObservationHrShape | root/backend/app/routers/fhir.py:88-112 | the heart-rate resource has id `<id>-hr`, status `final`, the vital-signs category, the 8867-4 coding, the pulse as a /min quantity, the same time and patient, and no components or note |
| FhirParse.CodingFoundInMeaning | root/backend/app/routers/fhir.py:136-140 | a completed search answers true iff some coding has the system and code; it faults iff a non-dict comes before every match; a list of dicts never faults |
| FhirParse.FindCode | root/backend/app/routers/fhir.py:136-140 | the loop with its early return computes the coding search over whatever `coding` holds |
| FhirParse.ParsedBp | root/backend/app/routers/fhir.py:143-172 | None exactly for a non-Observation or a resource without the panel coding; a parsed panel always had both components read |
| FhirParse.ParseBpObservation | root/backend/app/routers/fhir.py:143-172 | the component loop, which updates systolic and diastolic as it goes, gives the same outcome as the parser's definition |
| FhirParse.ComponentHrFirstWins | root/backend/app/routers/fhir.py:185-190 | the component scan yields the first component giving a heart rate, every earlier one giving none; None iff no component gives one |
| FhirParse.ComponentHrNone | root/backend/app/routers/fhir.py:185-190 | the component scan gives None iff every component gives none |
| FhirParse.ComponentHrAt | root/backend/app/routers/fhir.py:185-190 | a component giving a heart rate after components that all gave none is the scan's answer |
| FhirParse.ComponentHrWitness | root/backend/app/routers/fhir.py:185-190 | a heart rate from the scan comes from some component, with every earlier component giving none |
| FhirParse.ExtractedHr | root/backend/app/routers/fhir.py:175-191 | a non-Observation gives None; a top-level heart-rate value wins over any component, and a failing read of it is the answer; without the top-level coding, and when the coding has no value, the component scan decides |
| FhirParse.ExtractHrFrom | root/backend/app/routers/fhir.py:175-191 | the loop with early returns gives the extractor's definition |
| FhirParse.CodesDistinct | root/backend/app/routers/fhir.py:41-98 | the four LOINC codes are pairwise distinct |
| FhirParse.SingleCoding | root/backend/app/routers/fhir.py:136-140 | a one-coding list matches exactly its own system and code |
| FhirParse.ReadBpComponent | root/backend/app/routers/fhir.py:152-157 | a built systolic or diastolic component sets exactly that reading to its value |
| FhirParse.BpComponentHasNoHr | root/backend/app/routers/fhir.py:185-190 | a blood-pressure component never yields a heart rate |
| FhirParse.BpComponentsRead | root/backend/app/routers/fhir.py:152-157 | the two built components read back as the systolic and diastolic values |
| FhirParse.BpPanelSteps | root/backend/app/routers/fhir.py:144-150 | a built panel passes the type and panel-coding checks and its components read back |
| FhirParse.BpPanelTime | root/backend/app/routers/fhir.py:160-164 | a built panel's time reads back as the measurement's time when the ISO text parses back |
| FhirParse.BpRoundTrip | root/backend/app/routers/fhir.py:143-172 | parsing a built panel gives back systolic, diastolic and the timestamp (when the ISO format parses back), with no notes |
| FhirParse.HrRoundTrip | root/backend/app/routers/fhir.py:175-183 | extracting from a built heart-rate resource gives back the pulse |
| FhirParse.HrSteps | root/backend/app/routers/fhir.py:175-183 | a built heart-rate resource is an Observation with the single heart-rate coding and the pulse quantity, as the extractor reads them |
| FhirParse.BpCarriesNoHr | root/backend/app/routers/fhir.py:175-191 | a built panel yields no heart rate |
| FhirParse.BpComponentsGiveNoHr | root/backend/app/routers/fhir.py:185-190 | the two built components give no heart rate to the component scan |
| FhirParse.HrIsNotPanel | root/backend/app/routers/fhir.py:143-149 | a built heart-rate resource is not a panel |
| FhirParse.UncodedReadingUnchanged | root/backend/app/routers/fhir.py:151-157 | a reading no component is coded for keeps its starting value through the loop |
| FhirParse.MissingComponentRejected | root/backend/app/routers/fhir.py:158-159 | a panel with no systolic or no diastolic component raises 400 "Missing systolic or diastolic component" |
| FhirRouter.ListShape | root/backend/app/routers/fhir.py:124-127 | the listing has two entries per measurement, its panel at 2k and its heart rate at 2k+1 |
| FhirRouter.ListAlternates | root/backend/app/routers/fhir.py:125-127 | entry 2k is the panel of measurement k under `urn:uuid:<id>`, entry 2k+1 its heart rate under `urn:uuid:<id>-hr` |
| FhirRouter.SearchBundle | root/backend/app/routers/fhir.py:128-133 | a searchset Bundle whose total is twice the number of measurements |
| FhirRouter.ListObservationsFhir | root/backend/app/routers/fhir.py:115-133 | the appending loop produces the searchset Bundle |
| FhirRouter.EntryResourcesOfDicts | root/backend/app/routers/fhir.py:203 | for dict entries the unwrapped list keeps every entry's `resource`, in order |
| FhirRouter.ScanIsFirstBpAndFirstHr | root/backend/app/routers/fhir.py:207-221 | the scan over resources picks the first panel that parses and the first heart rate found, skipping non-dicts and swallowing extractor faults |
| FhirRouter.BrokenPanelAborts | root/backend/app/routers/fhir.py:212-216 | a panel that raises before any panel was found aborts the request, whatever follows |
| FhirRouter.ScanResources | root/backend/app/routers/fhir.py:207-221 | the loop over the resources, parsing until a panel is found and extracting until a heart rate is found, gives the scan's outcome |
| FhirRouter.CreatedAborts | root/backend/app/routers/fhir.py:202-216 | an exception reading the resources or parsing a panel is the request's exception |
| FhirRouter.CreatedOfScan | root/backend/app/routers/fhir.py:223-236 | after the scan, no panel gives 400, no heart rate gives 400, and otherwise the measurement is built from what was found |
| FhirRouter.Created | root/backend/app/routers/fhir.py:194-247 | a created measurement is valid, owned by the caller, has the new id and no tags, holds the systolic, diastolic, time and notes of the panel and the pulse of the heart rate the scan found, and the reply is its collection Bundle; no panel gives 400 and a panel without a heart rate gives 400 |
| FhirRouter.CreateObservationFhir | root/backend/app/routers/fhir.py:194-247 | success appends exactly the created measurement and returns the reply; any failure leaves the store; the store stays valid |
| FhirRouter.CreateFromOwnReply | root/backend/app/routers/fhir.py:240-247 | posting back a create reply stores the same readings and time, under the new id, without tags or notes |
| FhirRouter.ListingResources | root/backend/app/routers/fhir.py:202-203 | the resources of a non-empty listing start with its first measurement's panel and heart rate |
| FhirRouter.CreateFromListing | root/backend/app/routers/fhir.py:202-226 | posting back a listing stores the first listed measurement's readings |
| FhirRouter.BothFound | root/backend/app/routers/fhir.py:207-236 | resources starting with a measurement's panel and heart rate create that measurement's readings |
| FhirRouter.LonePanelRejected | root/backend/app/routers/fhir.py:225-226 | a panel posted alone is refused with 400 "Heart rate (LOINC 8867-4) is required" |
| FhirRouter.LoneHeartRateRejected | root/backend/app/routers/fhir.py:223-224 | a heart rate posted alone is refused with 400 "No valid BP Observation (LOINC 85354-9) found" |
| Js.Get | root/frontend/src/Login.tsx:28 | property access throws exactly on undefined and null |
| Js.OptGet | root/frontend/src/Login.tsx:33 | optional access is the plain access where that does not throw, and undefined where it would |
| Js.ToStorageString | root/frontend/src/Login.tsx:28 | storage keeps "undefined" for undefined, "null" for null and a string as it is |
| Js.QueryGet | root/frontend/src/Login.tsx:22 | a query value is found iff the key occurs, and it is the value of the first occurrence |
| Api.ErrorDetail | root/frontend/src/Login.tsx:33 | only a rejection carrying a response has a detail, the body's `detail` field |
| Api.Intercept | root/frontend/src/api.ts:9-15 | sets Authorization to "Bearer " + token iff a non-empty token is stored, otherwise leaves the headers |
| Api.Outgoing | root/frontend/src/api.ts:3-19 | both clients use the same base URL; Authorization is present iff the client is `api` and a non-empty token is stored, and it is then the Bearer form of that token; no other header is added |
| Api.TokenReadPerRequest | root/frontend/src/api.ts:10 | a changed token changes the next request's credential: the interceptor reads storage per request |
| Api.Browser.SetToken | root/frontend/src/Login.tsx:28 | storage holds the string form of the value stored |
| Api.Browser.RemoveToken | root/frontend/src/App.tsx:43 | storage is emptied |
| Api.Browser.Navigate | root/frontend/src/Login.tsx:31 | the path is appended to the navigation log |
| Api.Browser.Send | root/frontend/src/api.ts:9-19 | the request sent is the client's request for the storage of that moment, appended to the log |
| RouteGuard.ProtectedRoute | root/frontend/src/ProtectedRoute.tsx:4-12 | children are rendered, unchanged, iff there is a user; otherwise a redirect to /login |
| App.Session.constructor | root/frontend/src/App.tsx:22 | the session starts without a user |
| App.BootstrapOf | root/frontend/src/App.tsx:25-50 | no token means nothing to check; the session is confirmed iff a resolved reply has a truthy body with a truthy email, which becomes the session email |
| App.VerifyToken | root/frontend/src/App.tsx:25-50 | no token: no request and no user; otherwise one `/users/me` request with the credential; a refusal clears user and token; afterwards a user implies a stored token |
| App.GuardedRoutes | root/frontend/src/App.tsx:63-77 | exactly /dashboard and /db-admin redirect a visitor without a session, to /login; /history renders unguarded |
| App.RootShowsHistoryIffSession | root/frontend/src/App.tsx:63-65 | the root shows the history iff there is a session |
| Login.ErrorMessage | root/frontend/src/Login.tsx:33-44 | each of the four backend codes gets its own message, and every other detail the generic one |
| Login.MessagesDistinct | root/frontend/src/Login.tsx:34-44 | the five messages are distinct |
| Login.SubmitOutcome | root/frontend/src/Login.tsx:26-45 | logged in iff the reply resolved with a non-null body, the token being its `access_token`; every failure maps its detail through the message table |
| Login.LoginForm.constructor | root/frontend/src/Login.tsx:13 | the form starts without an error |
| Login.HandleSubmit | root/frontend/src/Login.tsx:24-46 | posts the credentials on the public client; success stores the token, sets the user to the email and token, and goes to /dashboard; a failure only sets the message |
| Login.RedirectOf | root/frontend/src/Login.tsx:16-20 | a redirect happens iff there is a user, and it goes to /dashboard |
| Login.RedirectIfSignedIn | root/frontend/src/Login.tsx:16-20 | the effect navigates exactly as RedirectOf says |
| Login.VerifiedBanner | root/frontend/src/Login.tsx:22 | the banner shows iff the first `verified` parameter is "1" |
| Navbar.MenusFor | root/frontend/src/Navbar.tsx:14-30 | login and register links iff no session; new, history and db-admin links iff a session; three left links either way, two right links only without a session |
| Navbar.ShowsLogout | root/frontend/src/Navbar.tsx:79-83 | the logout button shows iff there is a session, iff the login link does not |
| Navbar.HandleLogout | root/frontend/src/Navbar.tsx:35-40 | user and token are cleared before the logout request, which therefore carries no credential; navigation to /login always follows |
| OauthCallback.CallbackOf | root/frontend/src/OauthCallback.tsx:11-20 | the exchange happens iff both `code` and `state` are present and non-empty, with their first values |
| OauthCallback.TokenOf | root/frontend/src/OauthCallback.tsx:29-42 | a token is taken iff the reply resolved with a non-null body whose `access_token` is truthy |
| OauthCallback.HandleAuthCode | root/frontend/src/OauthCallback.tsx:10-43 | without both values nothing happens; otherwise one public GET of the exchange address; a token is stored and / visited only when one came back |
| OauthCallback.StoredTokenAuthenticates | root/frontend/src/OauthCallback.tsx:34-35 | a truthy non-array token is stored non-empty, so `api` will send it |
| OauthCallback.EmptyArrayTokenIsNotSent | root/frontend/src/OauthCallback.tsx:34-35 | an empty-array token passes the truthiness check but is stored empty and never sent |
| Register.RegisterPage.constructor | root/frontend/src/Register.tsx:8-10 | the page starts on the account form with no email and no error |
| Register.StepOf | root/frontend/src/Register.tsx:87-91 | the code form shows iff verificationSent |
| Register.SendVerificationEmail | root/frontend/src/Register.tsx:19-30 | one request-verify-token POST; only a 202 opens the code form, remembers the address and clears the error; anything else changes nothing |
| Register.MessagesDistinct | root/frontend/src/Register.tsx:47-50 | the policy and generic messages differ |
| Register.RegisterStepOf | root/frontend/src/Register.tsx:42-52 | success opens the code form; a taken-address detail re-sends; a detail object with the policy code shows the policy message; anything else shows the generic one |
| Register.HandleRegister | root/frontend/src/Register.tsx:32-53 | one register POST, plus exactly one resend for the same email when the address is taken; the resend moves on only on 202; errors leave verificationSent and email |
| Register.CodeStepOf | root/frontend/src/Register.tsx:55-70 | goes to login iff a resolved non-null body has detail OTP_VERIFIED; shows the code message iff the rejection detail is "Invalid or expired OTP" |
| Register.HandleOtpSubmit | root/frontend/src/Register.tsx:55-70 | posts the remembered email with the code; navigates to /login?verified=1 or sets the code message as CodeStepOf says; the token and verificationSent never change |
| OtpForm.ConcatChars | root/frontend/src/OtpForm.tsx:28-42 | splitting a text into characters and joining them gives the text back |
| OtpForm.ConcatDigits | root/frontend/src/OtpForm.tsx:40 | joining digit cells gives digits |
| OtpForm.ConcatSingles | root/frontend/src/OtpForm.tsx:40 | joining one-character cells gives one character per cell, in order |
| OtpForm.FocusAt | root/frontend/src/OtpForm.tsx:14 | `inputsRef.current[k].focus()` succeeds iff position k is registered, focusing that element, and throws otherwise |
| OtpForm.InputFocus | root/frontend/src/OtpForm.tsx:13-15 | `handleInput` moves the focus iff the value is non-empty and a later position is registered, and then to the element at the next position |
| OtpForm.UnattachedRefs | root/frontend/src/OtpForm.tsx:6 | with `inputsRef.current` empty, typing never moves the focus and every `focus` call through it throws |
| OtpForm.AttachedRefsFocus | root/frontend/src/OtpForm.tsx:13-14 | with the four inputs registered in order, a non-empty value in cell i < 3 focuses cell i+1, and every cell can be focused |
| OtpForm.CodeForm.constructor | root/frontend/src/OtpForm.tsx:5-6 | four empty cells, an empty `inputsRef` array and no focus |
| OtpForm.CodeForm.AttachInputs | root/frontend/src/OtpForm.tsx:56-68 | the intended `ref` callbacks register input i at position i of `inputsRef` |
| OtpForm.CodeForm.HandleInput | root/frontend/src/OtpForm.tsx:8-16 | only cell i changes; the focus moves to the element registered after position i iff the value is non-empty and i is before the last registered position, and otherwise stays |
| OtpForm.CodeForm.OnChange | root/frontend/src/OtpForm.tsx:60-62 | the cell takes the typed text with non-digits removed, and the focus moves exactly as `handleInput` moves it for that text |
| OtpForm.CodeForm.HandleKeyDown | root/frontend/src/OtpForm.tsx:18-26 | Backspace/Delete on an empty cell after the first changes no cell and focuses the element registered before it, throwing with the focus unchanged when none is registered there; otherwise it clears the cell; other keys do nothing |
| OtpForm.CodeForm.HandlePaste | root/frontend/src/OtpForm.tsx:28-36 | a trimmed paste of exactly four ASCII digits fills the cells in order and submits as itself, then focuses the fourth registered element or throws with the focus unchanged when there is none; any other paste changes nothing |
| OtpForm.CodeForm.Submitted | root/frontend/src/OtpForm.tsx:38-42 | the submitted code is digits; with one digit per cell it is a four-digit code, cell by cell |
| History.Toggle | root/frontend/src/History.tsx:44-50 | the key becomes the clicked column; descending iff that column was ascending |
| History.ToggleAlternates | root/frontend/src/History.tsx:47-48 | a second click on the same column undoes the first; a new column sorts ascending first, then descending |
| History.Compare | root/frontend/src/History.tsx:52-57 | 1 iff the row goes after: a greater key ascending, a smaller key descending; -1 otherwise |
| History.CompareTies | root/frontend/src/History.tsx:53-56 | equal keys compare as -1 both ways |
| History.AfterAsymmetric | root/frontend/src/History.tsx:52-57 | no two rows are each placed after the other |
| History.Insert | root/frontend/src/History.tsx:52 | inserting keeps every row and keeps the order |
| History.SortBy | root/frontend/src/History.tsx:52 | the sorted copy is a permutation of the rows with no adjacent pair out of order |
| History.NewestFirstMeans | root/frontend/src/History.tsx:29 | newest-first order means non-increasing instants |
| History.ColumnOrderMeans | root/frontend/src/History.tsx:52-57 | a numeric column sorted ascending never decreases, descending never increases |
| History.Stamp | root/frontend/src/History.tsx:31-36 | every row gets the display date of its own instant and nothing else changes |
| History.StampKeepsNewestFirst | root/frontend/src/History.tsx:29-36 | adding dates keeps the newest-first order |
| History.HistoryPage.constructor | root/frontend/src/History.tsx:8-11 | no rows, sorted by date ascending |
| History.HistoryPage.GetMeasurements | root/frontend/src/History.tsx:26-42 | one authenticated GET; on success the rows are stored newest first with their dates; on failure nothing changes |
| History.HistoryPage.HandleMeasurementsSort | root/frontend/src/History.tsx:44-50 | the sort config becomes the toggle of the old one |
| History.HistoryPage.SortedMeasurements | root/frontend/src/History.tsx:52-57 | the table shows a permutation of the stored rows ordered by the current config |
| Text.Strip | root/frontend/src/OtpForm.tsx:30 | the result is the slice of the input left after removing every leading and every trailing white-space character: all removed characters are white space, and the result neither starts nor ends with one |
| Text.DigitsOnly | root/frontend/src/OtpForm.tsx:61 | the result is digits, no longer than the input, and the input itself when it was all digits |
| Text.DigitsOnlyCounts | root/frontend/src/OtpForm.tsx:61 | every digit of the input is kept exactly as often as it occurs, and nothing else is |
| Text.DigitsOnlyAppend | root/frontend/src/OtpForm.tsx:61 | filtering a concatenation concatenates the filtered parts, so the digits keep their order |
| Text.StrLessAsymmetric | root/frontend/src/History.tsx:54-56 | string `<` is asymmetric |
| Wire.ErrorReply | root/backend/app/routers/otp.py:15-16 | an escaped HTTPException reaches the client as a rejection with its status and `{"detail": ...}` |
| Wire.LoginRefusalsAgree | root/frontend/src/Login.tsx:33-41 | every login refusal of the backend reaches the form as its own message, never the generic one |
| Wire.TakenAddressResends | root/frontend/src/Register.tsx:44-45 | the backend's taken-address reply makes the page re-send the verification mail |
| Wire.PolicyMessageNeverShown | root/frontend/src/Register.tsx:46-47 | the backend's password-policy reply reaches the page as the generic failure, never the policy message |
| Wire.VerifiedCodeNeverNavigates | root/frontend/src/Register.tsx:61-62 | the backend's success body for a correct code leaves the page where it is |
| Wire.CodeRefusalsAgree | root/frontend/src/Register.tsx:64-66 | a wrong or expired code shows the code message; an unknown address changes nothing |

## Left out

- Database access (Beanie, Motor, SQLAlchemy) is a map or list field on a store class. The listing takes the query result, already filtered to the user and ordered by time, as its input. Case-insensitive e-mail lookup is not modelled.
- The fastapi-users internals of `user_manager.create` are not part of this model. Auth.CreateUser states the policy-then-uniqueness order that the library applies.
- E-mail delivery, randomness, the clock, hashing and JWT issuing are parameters: `emailSent`, digit choices, `now`, `verifyAndUpdate`, `writeToken`.
- Dates are integer seconds. `datetime.fromisoformat`, `isoformat` and the locale formatting in the history page are parameter functions. Naive and aware datetimes are not distinguished.
- FHIR quantities are integers. `int(...)` on strings, floats and booleans is not modelled: only JSON integers convert, anything else faults.
- The measurement's owner field is called `userId` throughout. The backend spells it both `user_id` and `userId`.
- FhirParse.ParsedBp: its contract states the None cases and that both readings were read. The timestamp, its 400 error and the notes are covered only by the definition and by FhirParse.BpRoundTrip.
- The builders never write `note`, so the notes path of the parser is modelled but no round trip covers it.
- The `GET /Patient/me` route and the plain measurement routes are not part of this model.
- JavaScript strings are sequences of code points here, not UTF-16 code units. String comparison in the date column is therefore by code point.
- `Array.prototype.sort` is replaced by a stable insertion sort. For rows whose keys tie, the table comparator answers -1 both ways (History.CompareTies), and a real engine may order them differently from the model.
- History.HistoryPage.GetMeasurements: the reply is taken as already-typed rows, or as a failure. A body that is not a list makes the in-place sort throw, which the handler catches, so it is folded into the failure case.
- Booleans, floats and built-in properties of strings and arrays (such as `length`) are not in the JSON value model.
- React scheduling, re-renders and effect re-runs are not modelled. Each handler is one sequential step with the server reply as input. The login page's redirect effect re-running after a successful login is not modelled.
- DOM focus is recorded as the index of the last cell focused, and each registered input element as the index of its cell. The `maxLength` limit of each code input is a browser behaviour and is not modelled, so a cell may hold more than one digit in the model.
- React's handling of an exception thrown by an event handler is not modelled: the handler returns `Threw`, and the state it set before throwing is kept.
- The wiring lemmas assume the account router is served under `/auth`. `root/backend/app/app.py:44-77` mounts neither that router nor the FHIR router, so as deployed from that file those paths would answer 404. Router mounting is not part of this model.
- Route paths are compared as written. React Router's case-insensitive and trailing-slash matching is not modelled.
- The OAuth callback interpolates `code` and `state` without URL encoding. The model does the same on decoded strings and does not model percent-encoding.
- Console logging and the presentation components are left out.

## Findings

| source | as written | input that shows it | evidently intended | confidence | as-written member | corrected member |
|---|---|---|---|---|---|---|
| root/frontend/src/OtpForm.tsx:6-34 | no input of the form is given a `ref`, so `inputsRef.current` stays the empty array: typing never moves the focus, and `focus` is called on `undefined`, throwing a TypeError, on Backspace in an empty later cell and after a four-digit paste | Backspace in an empty cell 1; pasting "1234" | each input registers itself at `inputsRef.current[index]`, so the focus moves to the next, previous or last cell | high, not executed | OtpForm.UnattachedRefs | OtpForm.CodeForm.AttachInputs |
