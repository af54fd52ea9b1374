/** The authentication server: OTP sign-up (send, then verify) over the
    pending-sign-up dictionary `tempUserStore`, password sign-in and Google
    find-or-create over the user list. bcrypt's hash and compare are function
    parameters; `Math.random()` and `Date.now()` are parameters too. */
module AuthServer {
  import opened Lists
  import opened Text

  /** A pending code lives `5 * 60 * 1000` milliseconds. */
  const OtpExpiryMs: int := 5 * 60 * 1000

  // The reply messages, as the routes send them.
  const UserExists: string := "User with this email or phone already exists."
  const SendFailed: string := "Failed to send OTP."
  const OtpSent: string := "OTP sent successfully (to terminal)."
  const SessionExpired: string := "Session expired."
  const OtpExpired: string := "OTP has expired."
  const InvalidOtp: string := "Invalid OTP."
  const AccountCreated: string := "Account created successfully!"
  const MissingCredentials: string := "Please provide email and password."
  const InvalidCredentials: string := "Invalid credentials."
  const SignInError: string := "Server error during sign-in."

  /** A record of `db.users` as this server writes it; a field the record
      does not have is `None` (JavaScript `undefined`, or `null` for the
      password of a Google account). */
  datatype Account = Account(
    id: string,
    googleId: Option<string>,
    email: Option<string>,
    fullName: Option<string>,
    phone: Option<string>,
    course: Option<string>,
    college: Option<string>,
    password: Option<string>)

  /** The body of `/api/signup-send-otp`. */
  datatype SignupForm = SignupForm(
    name: Option<string>,
    email: Option<string>,
    phone: Option<string>,
    course: Option<string>,
    college: Option<string>,
    password: Option<string>)

  /** An entry of `tempUserStore`. */
  datatype PendingSignup = PendingSignup(
    name: Option<string>,
    email: Option<string>,
    phone: Option<string>,
    course: Option<string>,
    college: Option<string>,
    password: string,
    otp: string,
    timestamp: int)

  /** HTTP status and message of a reply. */
  datatype Reply = Reply(status: nat, message: string)

  datatype SignInReply = SignedIn(id: string, email: Option<string>, fullName: Option<string>) | SignInFailed(reply: Reply)

  /** Google's profile: `profile.id`, `profile.emails[0].value`, `profile.displayName`. */
  datatype GoogleProfile = GoogleProfile(id: string, email: string, displayName: string)

  /** The property name a phone value becomes when it indexes `tempUserStore`:
      a missing phone is the key "undefined". */
  function Key(phone: Option<string>): string {
    if phone.Some? then phone.value else "undefined"
  }

  /** `Math.floor(100000 + Math.random() * 900000).toString()` for a draw `r` in [0, 1):
      six decimal digits whose value lies in [100000, 999999]. */
  function GenerateOtp(r: real): (otp: string)
    requires 0.0 <= r < 1.0
    ensures |otp| == 6 && AllDigits(otp)
    ensures 100000 <= DigitsValue(otp) <= 999999
    ensures ParseInt(otp) == Some(DigitsValue(otp))
  {
    var n := (100000.0 + r * 900000.0).Floor;
    assert 100000 <= n <= 999999;
    assert Pow10(5) == 100000 by {
      assert Pow10(2) == 100;
      assert Pow10(4) == 10000;
    }
    DecimalStringLength(n, 6);
    DecimalStringValue(n);
    ParseDecimalString(n);
    DecimalString(n)
  }

  /** `user.email === email || user.phone === phone`: undefined equals undefined. */
  predicate SameContact(u: Account, form: SignupForm) {
    u.email == form.email || u.phone == form.phone
  }

  /** The account `/api/signup-verify-otp` creates from a pending entry. */
  function AccountFrom(e: PendingSignup, id: string): Account {
    Account(id, None, e.email, e.name, e.phone, e.course, e.college, Some(e.password))
  }

  /** The send-time test applied to a pending entry: an account shares its email or its phone. */
  predicate PendingClashes(users: seq<Account>, e: PendingSignup) {
    exists u :: u in users && (u.email == e.email || u.phone == e.phone)
  }

  function EmailIs(email: string): Account -> bool {
    (u: Account) => u.email == Some(email)
  }

  function GoogleIdIs(id: string): Account -> bool {
    (u: Account) => u.googleId == Some(id)
  }

  class AuthStore {
    /** `db.users`. */
    var users: seq<Account>
    /** `tempUserStore`, keyed by phone. */
    var tempUserStore: map<string, PendingSignup>

    /** The server starts with the users already in the file and no pending sign-up. */
    constructor(existing: seq<Account>)
      ensures users == existing && tempUserStore == map[]
    {
      users := existing;
      tempUserStore := map[];
    }

    /** `POST /api/signup-send-otp`: refuse a known email or phone, otherwise
        store (overwriting) a pending entry for the phone, stamped `now`.
        Hashing a missing password throws, which the route reports as 500. */
    method SendOtp(form: SignupForm, r: real, hash: string -> string, now: int) returns (reply: Reply)
      requires 0.0 <= r < 1.0
      modifies this
      ensures users == old(users)
      ensures (exists u :: u in old(users) && SameContact(u, form)) ==>
                reply == Reply(400, UserExists)
                && tempUserStore == old(tempUserStore)
      ensures !(exists u :: u in old(users) && SameContact(u, form)) && form.password.None? ==>
                reply == Reply(500, SendFailed) && tempUserStore == old(tempUserStore)
      ensures !(exists u :: u in old(users) && SameContact(u, form)) && form.password.Some? ==>
                && reply == Reply(200, OtpSent)
                && tempUserStore == old(tempUserStore)[Key(form.phone) :=
                     PendingSignup(form.name, form.email, form.phone, form.course, form.college,
                                   hash(form.password.value), GenerateOtp(r), now)]
    {
      if exists u :: u in users && SameContact(u, form) {
        return Reply(400, UserExists);
      }
      var otp := GenerateOtp(r);
      if form.password.None? {
        return Reply(500, SendFailed);
      }
      var hashedPassword := hash(form.password.value);
      tempUserStore := tempUserStore[Key(form.phone) :=
        PendingSignup(form.name, form.email, form.phone, form.course, form.college, hashedPassword, otp, now)];
      reply := Reply(200, OtpSent);
    }

    /** `POST /api/signup-verify-otp`: missing entry, expired entry (deleted;
        exactly five minutes is still accepted), wrong code (entry kept), or
        success (one account appended, entry deleted). */
    method VerifyOtp(phone: Option<string>, otp: Option<string>, now: int, newId: string) returns (reply: Reply)
      modifies this
      ensures Key(phone) !in old(tempUserStore) ==>
                reply == Reply(400, SessionExpired)
                && users == old(users) && tempUserStore == old(tempUserStore)
      ensures Key(phone) in old(tempUserStore) ==>
                var e := old(tempUserStore)[Key(phone)];
                if now - e.timestamp > OtpExpiryMs then
                  && reply == Reply(400, OtpExpired)
                  && users == old(users) && tempUserStore == old(tempUserStore) - {Key(phone)}
                else if otp != Some(e.otp) then
                  && reply == Reply(400, InvalidOtp)
                  && users == old(users) && tempUserStore == old(tempUserStore)
                else
                  && reply == Reply(201, AccountCreated)
                  && users == old(users) + [AccountFrom(e, newId)]
                  && tempUserStore == old(tempUserStore) - {Key(phone)}
    {
      var key := Key(phone);
      if key !in tempUserStore {
        return Reply(400, SessionExpired);
      }
      var tempUser := tempUserStore[key];
      if now - tempUser.timestamp > OtpExpiryMs {
        tempUserStore := tempUserStore - {key};
        return Reply(400, OtpExpired);
      }
      if otp != Some(tempUser.otp) {
        return Reply(400, InvalidOtp);
      }
      users := users + [AccountFrom(tempUser, newId)];
      tempUserStore := tempUserStore - {key};
      reply := Reply(201, AccountCreated);
    }

    /** The verify step with the duplicate test repeated before the account is
        written, so that two pending sign-ups with one email cannot both become
        accounts. Missing, expired and wrong codes are handled as in `VerifyOtp`;
        a code that is good for a pending sign-up that now clashes with an
        account is refused and the entry deleted. */
    method VerifyOtpRechecked(phone: Option<string>, otp: Option<string>, now: int, newId: string)
      returns (reply: Reply)
      modifies this
      ensures Key(phone) !in old(tempUserStore) ==>
                reply == Reply(400, SessionExpired)
                && users == old(users) && tempUserStore == old(tempUserStore)
      ensures Key(phone) in old(tempUserStore) ==>
                var e := old(tempUserStore)[Key(phone)];
                if now - e.timestamp > OtpExpiryMs then
                  && reply == Reply(400, OtpExpired)
                  && users == old(users) && tempUserStore == old(tempUserStore) - {Key(phone)}
                else if otp != Some(e.otp) then
                  && reply == Reply(400, InvalidOtp)
                  && users == old(users) && tempUserStore == old(tempUserStore)
                else if PendingClashes(old(users), e) then
                  && reply == Reply(400, UserExists)
                  && users == old(users) && tempUserStore == old(tempUserStore) - {Key(phone)}
                else
                  && reply == Reply(201, AccountCreated)
                  && users == old(users) + [AccountFrom(e, newId)]
                  && tempUserStore == old(tempUserStore) - {Key(phone)}
      ensures reply.status == 201 ==>
                && |users| == |old(users)| + 1 && users[..|old(users)|] == old(users)
                && forall u :: u in old(users) ==> u.email != users[|old(users)|].email && u.phone != users[|old(users)|].phone
      ensures reply.status != 201 ==> users == old(users)
    {
      var key := Key(phone);
      if key !in tempUserStore {
        return Reply(400, SessionExpired);
      }
      var tempUser := tempUserStore[key];
      if now - tempUser.timestamp > OtpExpiryMs {
        tempUserStore := tempUserStore - {key};
        return Reply(400, OtpExpired);
      }
      if otp != Some(tempUser.otp) {
        return Reply(400, InvalidOtp);
      }
      if PendingClashes(users, tempUser) {
        tempUserStore := tempUserStore - {key};
        return Reply(400, UserExists);
      }
      users := users + [AccountFrom(tempUser, newId)];
      tempUserStore := tempUserStore - {key};
      reply := Reply(201, AccountCreated);
    }

    /** `POST /api/signin`: an unknown email and a wrong password get the same
        reply; an account without a password hash (a Google account) makes
        bcrypt throw, reported as 500. */
    method SignIn(email: Option<string>, password: Option<string>, compare: (string, string) -> bool)
      returns (r: SignInReply)
      ensures !Truthy(email) || !Truthy(password) ==>
                r == SignInFailed(Reply(400, MissingCredentials))
      ensures Truthy(email) && Truthy(password) ==>
                match FindIndex(users, EmailIs(email.value))
                case None => r == SignInFailed(Reply(400, InvalidCredentials))
                case Some(i) =>
                  if users[i].password.None? then r == SignInFailed(Reply(500, SignInError))
                  else if !compare(password.value, users[i].password.value) then
                    r == SignInFailed(Reply(400, InvalidCredentials))
                  else r == SignedIn(users[i].id, users[i].email, users[i].fullName)
      ensures r.SignedIn? ==> exists u :: u in users && u.id == r.id && u.email == email
                                && u.password.Some? && compare(password.value, u.password.value)
    {
      if !Truthy(email) || !Truthy(password) {
        return SignInFailed(Reply(400, MissingCredentials));
      }
      var found := FindIndex(users, EmailIs(email.value));
      if found.None? {
        return SignInFailed(Reply(400, InvalidCredentials));
      }
      var user := users[found.value];
      if user.password.None? {
        return SignInFailed(Reply(500, SignInError));
      }
      if !compare(password.value, user.password.value) {
        return SignInFailed(Reply(400, InvalidCredentials));
      }
      r := SignedIn(user.id, user.email, user.fullName);
    }

    /** The Google strategy's verify callback: the first account with this
        Google id is returned without a write; otherwise one passwordless
        account is appended. */
    method GoogleLogin(profile: GoogleProfile, newId: string) returns (user: Account)
      modifies this
      ensures tempUserStore == old(tempUserStore)
      ensures match FindIndex(old(users), GoogleIdIs(profile.id))
              case Some(i) => user == old(users)[i] && users == old(users)
              case None =>
                && user == Account(newId, Some(profile.id), Some(profile.email), Some(profile.displayName),
                                   None, None, None, None)
                && users == old(users) + [user]
      ensures user in users && user.googleId == Some(profile.id)
    {
      var found := FindIndex(users, GoogleIdIs(profile.id));
      if found.Some? {
        return users[found.value];
      }
      user := Account(newId, Some(profile.id), Some(profile.email), Some(profile.displayName), None, None, None, None);
      users := users + [user];
    }
  }

  /** Two sign-ups that share an email but not a phone both pass the send-time
      check, and verifying both writes two accounts with the same email. */
  method DuplicateEmailAsWritten(first: SignupForm, otherPhone: string, r: real, hash: string -> string, now: int)
    returns (accounts: seq<Account>)
    requires 0.0 <= r < 1.0
    requires first.phone.Some? && first.phone.value != otherPhone && first.password.Some?
    ensures |accounts| == 2
    ensures accounts[0].email == accounts[1].email == first.email
    ensures accounts[0].phone == first.phone && accounts[1].phone == Some(otherPhone)
  {
    var store := SendBoth(first, otherPhone, r, hash, now);
    var code := GenerateOtp(r);
    var reply := store.VerifyOtp(first.phone, Some(code), now, "first");
    assert |store.users| == 1 && store.users[0].email == first.email && store.users[0].phone == first.phone;
    assert otherPhone in store.tempUserStore;
    var pending := store.tempUserStore[otherPhone];
    assert pending.otp == code && pending.timestamp == now && pending.email == first.email;
    reply := store.VerifyOtp(Some(otherPhone), Some(code), now, "second");
    accounts := store.users;
  }

  /** The send step of the scenario above: both sign-ups are pending, under
      their own phones, with the same code. */
  method SendBoth(first: SignupForm, otherPhone: string, r: real, hash: string -> string, now: int)
    returns (store: AuthStore)
    requires 0.0 <= r < 1.0
    requires first.phone.Some? && first.phone.value != otherPhone && first.password.Some?
    ensures fresh(store) && store.users == []
    ensures first.phone.value in store.tempUserStore && otherPhone in store.tempUserStore
    ensures var e := store.tempUserStore[first.phone.value];
            e.otp == GenerateOtp(r) && e.timestamp == now && e.email == first.email && e.phone == first.phone
    ensures var e := store.tempUserStore[otherPhone];
            e.otp == GenerateOtp(r) && e.timestamp == now && e.email == first.email && e.phone == Some(otherPhone)
  {
    store := new AuthStore([]);
    var reply := store.SendOtp(first, r, hash, now);
    reply := store.SendOtp(first.(phone := Some(otherPhone)), r, hash, now);
  }

  /** A code is good for one account: after a successful verify the same
      phone meets "Session expired.". */
  method OtpIsSingleUse(store: AuthStore, form: SignupForm, r: real, hash: string -> string, now: int)
    returns (firstReply: Reply, secondReply: Reply)
    requires 0.0 <= r < 1.0
    requires !(exists u :: u in store.users && SameContact(u, form)) && form.password.Some?
    modifies store
    ensures firstReply == Reply(201, AccountCreated)
    ensures secondReply == Reply(400, SessionExpired)
  {
    var sent := store.SendOtp(form, r, hash, now);
    firstReply := store.VerifyOtp(form.phone, Some(GenerateOtp(r)), now + OtpExpiryMs, "first");
    secondReply := store.VerifyOtp(form.phone, Some(GenerateOtp(r)), now + OtpExpiryMs, "second");
  }
}
