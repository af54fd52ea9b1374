/** The file-backed attendance server: per-subject percentage and classes
    needed, sign-up and sign-in over the user list, and the add, remove and
    mark routes with the once-per-24-hours rule. The JSON file is the field
    `users` of `AttendanceStore`; a route that reads, changes and writes it
    back is one method. Percentages are exact rationals (`real`). */
module AttendanceBackend {
  import opened Lists
  import opened Text
  import opened Subjects

  // ---------------------------------------------------------------------------
  // Percentage and classes needed
  // ---------------------------------------------------------------------------

  /** `attendancePercentage`: 0 with no classes, else `attended / total * 100`. */
  function AttendancePercentage(attended: nat, total: nat): (pct: real)
    ensures total == 0 ==> pct == 0.0
    ensures total > 0 ==> pct * total as real == 100.0 * attended as real
    ensures attended <= total ==> 0.0 <= pct <= 100.0
  {
    if total == 0 then 0.0 else (attended as real / total as real) * 100.0
  }

  /** `Math.ceil` on an exact rational: the least integer not below `x`. */
  function Ceil(x: real): (c: int)
    ensures x <= c as real < x + 1.0
  {
    -((-x).Floor)
  }

  /** `n` more classes, all attended, bring the ratio to at least `target` percent. */
  predicate Reaches(attended: nat, total: nat, target: nat, n: nat) {
    100 * (attended + n) >= target * (total + n)
  }

  /** `classesNeededToReach(attended, total, target)` as written: return 0 when
      `attended / (total || 1)` already reaches `target / 100`, otherwise
      `max(0, ceil((target/100 * total - attended) / (1 - target/100)))`.
      Only targets below 100 are meaningful (the divisor would be zero). */
  function ClassesNeededToReach(attended: nat, total: nat, target: nat): nat
    requires target < 100
  {
    var targetFrac := target as real / 100.0;
    if attended as real / (if total == 0 then 1 else total) as real >= targetFrac then 0
    else
      var numerator := targetFrac * total as real - attended as real;
      var denom := 1.0 - targetFrac;
      var n := Ceil(numerator / denom);
      if n < 0 then 0 else n
  }

  /** The early-return test compares `100 * attended` with `target * (total || 1)`. */
  lemma AlreadyReachedIff(attended: nat, total: nat, target: nat)
    requires target < 100
    ensures var d := if total == 0 then 1 else total;
            (attended as real / d as real >= target as real / 100.0) <==> 100 * attended >= target * d
  {
    var d := if total == 0 then 1 else total;
    var q := attended as real / d as real;
    assert q * d as real == attended as real;
  }

  /** The rational the code takes the ceiling of is `(target*total - 100*attended) / (100 - target)`. */
  lemma NeededQuotient(attended: nat, total: nat, target: nat)
    requires target < 100
    ensures (target as real / 100.0 * total as real - attended as real) / (1.0 - target as real / 100.0)
            == (target * total - 100 * attended) as real / (100 - target) as real
  {
    var num := target as real / 100.0 * total as real - attended as real;
    var den := 1.0 - target as real / 100.0;
    assert num == (target * total - 100 * attended) as real / 100.0;
    assert den == (100 - target) as real / 100.0;
  }

  /** `n` reaches the target exactly when `n * (100 - target)` covers the shortfall. */
  lemma ReachesIff(attended: nat, total: nat, target: nat, n: nat)
    requires target < 100
    ensures Reaches(attended, total, target, n) <==>
            n as real >= (target * total - 100 * attended) as real / (100 - target) as real
  {
    var q := (target * total - 100 * attended) as real / (100 - target) as real;
    assert q * (100 - target) as real == (target * total - 100 * attended) as real;
    assert Reaches(attended, total, target, n) <==> n * (100 - target) >= target * total - 100 * attended;
    if n as real >= q {
      assert n as real * (100 - target) as real >= q * (100 - target) as real;
    } else {
      assert n as real * (100 - target) as real < q * (100 - target) as real;
    }
  }

  /** The result is the least number of consecutive attended classes that
      brings the ratio to the target. */
  lemma ClassesNeededIsLeast(attended: nat, total: nat, target: nat)
    requires target < 100
    ensures Reaches(attended, total, target, ClassesNeededToReach(attended, total, target))
    ensures forall m: nat :: m < ClassesNeededToReach(attended, total, target) ==>
              !Reaches(attended, total, target, m)
  {
    var n := ClassesNeededToReach(attended, total, target);
    AlreadyReachedIff(attended, total, target);
    NeededQuotient(attended, total, target);
    var q := (target * total - 100 * attended) as real / (100 - target) as real;
    ReachesIff(attended, total, target, n);
    forall m: nat | m < n ensures !Reaches(attended, total, target, m) {
      ReachesIff(attended, total, target, m);
    }
  }

  /** At the default target of 75 the answer is `3 * total - 4 * attended`
      whenever the ratio is below 75%, and 0 otherwise. */
  lemma ClassesNeededAt75(attended: nat, total: nat)
    ensures ClassesNeededToReach(attended, total, 75) ==
            if 4 * attended >= 3 * total then 0 else 3 * total - 4 * attended
  {
    var n := ClassesNeededToReach(attended, total, 75);
    ClassesNeededIsLeast(attended, total, 75);
    var k := if 4 * attended >= 3 * total then 0 else 3 * total - 4 * attended;
    assert Reaches(attended, total, 75, k);
    if k > 0 {
      assert !Reaches(attended, total, 75, k - 1);
    }
  }

  // ---------------------------------------------------------------------------
  // The once-per-24-hours rule
  // ---------------------------------------------------------------------------

  /** The mark route's rejection test: marked before, less than a day ago. */
  predicate MarkedWithinDay(s: Subject, now: int) {
    s.lastMarked.Some? && now - s.lastMarked.value < DayMs
  }

  /** `retryAfterMs`: the time still to wait, which is positive and ends exactly
      one day after the last mark. */
  function RetryAfterMs(s: Subject, now: int): (ms: int)
    requires MarkedWithinDay(s, now)
    ensures ms > 0
    ensures now + ms == s.lastMarked.value + DayMs
  {
    DayMs - (now - s.lastMarked.value)
  }

  // ---------------------------------------------------------------------------
  // Users, requests and replies
  // ---------------------------------------------------------------------------

  // The error messages, as the routes send them.
  const CredentialsRequired: string := "email and password required"
  const UserExists: string := "User already exists"
  const SigninFieldsRequired: string := "emailOrPhone and password required"
  const UserNotFound: string := "user not found"
  const InvalidCredentials: string := "invalid credentials"
  const SubjectNameRequired: string := "subject name required"
  const SubjectNotFound: string := "subject not found"
  const AlreadyMarked: string := "Already marked within last 24 hours"

  datatype User = User(
    id: string,
    name: string,
    email: string,
    phone: string,
    password: string,
    subjects: seq<Subject>)

  /** A refused request: HTTP status and message. */
  datatype Failure = Failure(status: nat, message: string)

  datatype Reply<T> = Ok(value: T) | Fail(failure: Failure)

  /** The body of `/api/auth/signup`; a field the client left out is `None`. */
  datatype SignupRequest = SignupRequest(
    name: Option<string>,
    email: Option<string>,
    phone: Option<string>,
    password: Option<string>)

  datatype SubjectStats = SubjectStats(subject: Subject, percentage: real, neededToReach75: nat)

  datatype Overall = Overall(totalClassesAll: nat, totalAttendedAll: nat, overallPct: real)

  datatype SubjectsView = SubjectsView(subjects: seq<SubjectStats>, overall: Overall)

  datatype MarkReply =
    | MarkedOk(subject: SubjectStats, overall: Overall)
    | TooSoon(failure: Failure, retryAfterMs: int)
    | MarkFailed(failure: Failure)

  function StatsOf(s: Subject): SubjectStats {
    SubjectStats(s, AttendancePercentage(s.attendedClasses, s.totalClasses),
                 ClassesNeededToReach(s.attendedClasses, s.totalClasses, 75))
  }

  /** The `overall` block: both sums and the percentage of the sums. */
  function OverallOf(ss: seq<Subject>): Overall {
    var total := TotalClassesAll(ss);
    var attended := TotalAttendedAll(ss);
    Overall(total, attended, AttendancePercentage(attended, total))
  }

  /** The overall percentage is 0 without classes and otherwise lies in [0, 100]
      when every subject is well formed. */
  lemma OverallBounds(ss: seq<Subject>)
    requires AllWellFormed(ss)
    ensures OverallOf(ss).totalAttendedAll <= OverallOf(ss).totalClassesAll
    ensures OverallOf(ss).totalClassesAll == 0 ==> OverallOf(ss).overallPct == 0.0
    ensures 0.0 <= OverallOf(ss).overallPct <= 100.0
  {
    AttendedWithinTotal(ss);
  }

  /** `u.email === email || (phone && u.phone === phone)`: the sign-up duplicate test. */
  predicate ClashesWith(u: User, email: string, phone: Option<string>) {
    u.email == email || (Truthy(phone) && u.phone == phone.value)
  }

  function UserIdIs(id: string): User -> bool {
    (u: User) => u.id == id
  }

  function SignsInAs(emailOrPhone: string): User -> bool {
    (u: User) => u.email == emailOrPhone || u.phone == emailOrPhone
  }

  /** Every stored subject of every user is well formed. */
  predicate StoreWellFormed(users: seq<User>) {
    forall u :: u in users ==> AllWellFormed(u.subjects)
  }

  /** Replacing one user's subjects by a well-formed list keeps the store well formed. */
  lemma ReplaceUserKeepsWellFormed(users: seq<User>, i: nat, ss: seq<Subject>)
    requires i < |users| && StoreWellFormed(users) && AllWellFormed(ss)
    ensures StoreWellFormed(users[i := users[i].(subjects := ss)])
  {
    var users' := users[i := users[i].(subjects := ss)];
    forall u | u in users' ensures AllWellFormed(u.subjects) {
      var k :| 0 <= k < |users'| && users'[k] == u;
      if k != i {
        assert u == users[k];
      }
    }
  }

  // ---------------------------------------------------------------------------
  // The store and its routes
  // ---------------------------------------------------------------------------

  class AttendanceStore {
    /** `db.users`. */
    var users: seq<User>

    /** A new database file holds `{ users: [] }`. */
    constructor()
      ensures users == []
    {
      users := [];
    }

    /** `POST /api/auth/signup`. `hash` stands for bcrypt. */
    method Signup(req: SignupRequest, hash: string -> string, newId: string) returns (r: Reply<User>)
      modifies this
      ensures !Truthy(req.email) || !Truthy(req.password) ==>
                r == Fail(Failure(400, CredentialsRequired)) && users == old(users)
      ensures Truthy(req.email) && Truthy(req.password)
              && (exists u :: u in old(users) && ClashesWith(u, req.email.value, req.phone)) ==>
                r == Fail(Failure(400, UserExists)) && users == old(users)
      ensures r.Ok? <==> Truthy(req.email) && Truthy(req.password)
                         && !(exists u :: u in old(users) && ClashesWith(u, req.email.value, req.phone))
      ensures r.Ok? ==>
                && r.value == User(newId, OrEmpty(req.name), req.email.value, OrEmpty(req.phone),
                                   hash(req.password.value), [])
                && users == old(users) + [r.value]
      ensures old(StoreWellFormed(users)) ==> StoreWellFormed(users)
    {
      if !Truthy(req.email) || !Truthy(req.password) {
        return Fail(Failure(400, CredentialsRequired));
      }
      var email := req.email.value;
      if exists u :: u in users && ClashesWith(u, email, req.phone) {
        return Fail(Failure(400, UserExists));
      }
      var newUser := User(newId, OrEmpty(req.name), email, OrEmpty(req.phone), hash(req.password.value), []);
      users := users + [newUser];
      r := Ok(newUser);
    }

    /** `POST /api/auth/signin`: the first user whose email or phone matches,
        then the password check. `compare` stands for bcrypt's compare. */
    method Signin(emailOrPhone: Option<string>, password: Option<string>, compare: (string, string) -> bool)
      returns (r: Reply<User>)
      ensures !Truthy(emailOrPhone) || !Truthy(password) ==>
                r == Fail(Failure(400, SigninFieldsRequired))
      ensures Truthy(emailOrPhone) && Truthy(password) ==>
                match FindIndex(users, SignsInAs(emailOrPhone.value))
                case None => r == Fail(Failure(400, UserNotFound))
                case Some(i) =>
                  r == if compare(password.value, users[i].password) then Ok(users[i])
                       else Fail(Failure(400, InvalidCredentials))
      ensures r.Ok? ==> r.value in users && compare(password.value, r.value.password)
    {
      if !Truthy(emailOrPhone) || !Truthy(password) {
        return Fail(Failure(400, SigninFieldsRequired));
      }
      var found := FindIndex(users, SignsInAs(emailOrPhone.value));
      if found.None? {
        return Fail(Failure(400, UserNotFound));
      }
      var user := users[found.value];
      if !compare(password.value, user.password) {
        return Fail(Failure(400, InvalidCredentials));
      }
      r := Ok(user);
    }

    /** `GET /api/user/subjects`: every subject with its percentage and classes
        needed, in stored order, and the overall block. */
    method ListSubjects(userId: string) returns (r: Reply<SubjectsView>)
      ensures FindIndex(users, UserIdIs(userId)).None? ==> r == Fail(Failure(404, UserNotFound))
      ensures FindIndex(users, UserIdIs(userId)).Some? ==>
                var ss := users[FindIndex(users, UserIdIs(userId)).value].subjects;
                && r.Ok?
                && |r.value.subjects| == |ss|
                && (forall k :: 0 <= k < |ss| ==> r.value.subjects[k] == StatsOf(ss[k]))
                && r.value.overall == OverallOf(ss)
    {
      var found := FindIndex(users, UserIdIs(userId));
      if found.None? {
        return Fail(Failure(404, UserNotFound));
      }
      var ss := users[found.value].subjects;
      var stats := seq(|ss|, k requires 0 <= k < |ss| => StatsOf(ss[k]));
      r := Ok(SubjectsView(stats, OverallOf(ss)));
    }

    /** `POST /api/user/subjects`: the name is checked before the user is looked
        up; the new subject goes to the end of the user's list. */
    method AddSubject(userId: string, name: Option<string>, newId: string) returns (r: Reply<Subject>)
      modifies this
      ensures !Truthy(name) ==> r == Fail(Failure(400, SubjectNameRequired)) && users == old(users)
      ensures Truthy(name) && FindIndex(old(users), UserIdIs(userId)).None? ==>
                r == Fail(Failure(404, UserNotFound)) && users == old(users)
      ensures Truthy(name) && FindIndex(old(users), UserIdIs(userId)).Some? ==>
                var i := FindIndex(old(users), UserIdIs(userId)).value;
                && r == Ok(NewSubject(newId, name.value))
                && users == old(users)[i := old(users)[i].(subjects := old(users)[i].subjects + [r.value])]
      ensures old(StoreWellFormed(users)) ==> StoreWellFormed(users)
    {
      if !Truthy(name) {
        return Fail(Failure(400, SubjectNameRequired));
      }
      var found := FindIndex(users, UserIdIs(userId));
      if found.None? {
        return Fail(Failure(404, UserNotFound));
      }
      var i := found.value;
      var subject := NewSubject(newId, name.value);
      ghost var before := users;
      users := users[i := users[i].(subjects := users[i].subjects + [subject])];
      if StoreWellFormed(before) {
        ReplaceUserKeepsWellFormed(before, i, before[i].subjects + [subject]);
      }
      r := Ok(subject);
    }

    /** `DELETE /api/user/subjects/:id`: keeps the subjects whose id differs;
        an unknown subject id is not an error. */
    method RemoveSubject(userId: string, id: string) returns (r: Reply<()>)
      modifies this
      ensures FindIndex(old(users), UserIdIs(userId)).None? ==>
                r == Fail(Failure(404, UserNotFound)) && users == old(users)
      ensures FindIndex(old(users), UserIdIs(userId)).Some? ==>
                var i := FindIndex(old(users), UserIdIs(userId)).value;
                && r == Ok(())
                && users == old(users)[i := old(users)[i].(subjects := Filter(old(users)[i].subjects, IdDiffers(id)))]
      ensures old(StoreWellFormed(users)) ==> StoreWellFormed(users)
    {
      var found := FindIndex(users, UserIdIs(userId));
      if found.None? {
        return Fail(Failure(404, UserNotFound));
      }
      var i := found.value;
      ghost var before := users;
      users := users[i := users[i].(subjects := Filter(users[i].subjects, IdDiffers(id)))];
      if StoreWellFormed(before) {
        assert before[i] in before;
        RemoveKeepsWellFormed(before[i].subjects, id);
        ReplaceUserKeepsWellFormed(before, i, Filter(before[i].subjects, IdDiffers(id)));
      }
      r := Ok(());
    }

    /** `POST /api/user/subjects/:id/mark`: the first subject with that id is
        marked unless it was marked less than a day ago. */
    method Mark(userId: string, sid: string, present: bool, now: int) returns (r: MarkReply)
      modifies this
      ensures FindIndex(old(users), UserIdIs(userId)).None? ==>
                r == MarkFailed(Failure(404, UserNotFound)) && users == old(users)
      ensures FindIndex(old(users), UserIdIs(userId)).Some? ==>
                var i := FindIndex(old(users), UserIdIs(userId)).value;
                var ss := old(users)[i].subjects;
                match FindIndex(ss, IdIs(sid))
                case None => r == MarkFailed(Failure(404, SubjectNotFound)) && users == old(users)
                case Some(j) =>
                  if MarkedWithinDay(ss[j], now) then
                    r == TooSoon(Failure(400, AlreadyMarked), RetryAfterMs(ss[j], now)) && users == old(users)
                  else
                    var ss' := ss[j := Marked(ss[j], present, now)];
                    && users == old(users)[i := old(users)[i].(subjects := ss')]
                    && r == MarkedOk(StatsOf(ss'[j]), OverallOf(ss'))
      ensures old(StoreWellFormed(users)) ==> StoreWellFormed(users)
    {
      var found := FindIndex(users, UserIdIs(userId));
      if found.None? {
        return MarkFailed(Failure(404, UserNotFound));
      }
      var i := found.value;
      var ss := users[i].subjects;
      var at := FindIndex(ss, IdIs(sid));
      if at.None? {
        return MarkFailed(Failure(404, SubjectNotFound));
      }
      var j := at.value;
      var subject := ss[j];
      if subject.lastMarked.Some? {
        var diffMs := now - subject.lastMarked.value;
        if diffMs < DayMs {
          return TooSoon(Failure(400, AlreadyMarked), DayMs - diffMs);
        }
      }
      subject := subject.(totalClasses := subject.totalClasses + 1);
      subject := subject.(attendedClasses := subject.attendedClasses + (if present then 1 else 0));
      subject := subject.(lastMarked := Some(now));
      assert !MarkedWithinDay(ss[j], now) && subject == Marked(ss[j], present, now);
      ghost var before := users;
      users := users[i := users[i].(subjects := ss[j := subject])];
      if StoreWellFormed(before) {
        assert before[i] in before && ss[j] in ss;
        ReplaceKeepsWellFormed(ss, j, subject);
        ReplaceUserKeepsWellFormed(before, i, ss[j := subject]);
      }
      r := MarkedOk(StatsOf(subject), OverallOf(ss[j := subject]));
    }
  }

  /** A successful mark moves the user's overall totals by exactly one class,
      and one attended class iff present. */
  lemma MarkMovesTotals(ss: seq<Subject>, j: nat, present: bool, now: int)
    requires j < |ss|
    ensures TotalClassesAll(ss[j := Marked(ss[j], present, now)]) == TotalClassesAll(ss) + 1
    ensures TotalAttendedAll(ss[j := Marked(ss[j], present, now)]) ==
            TotalAttendedAll(ss) + (if present then 1 else 0)
  {
    TotalsAfterReplace(ss, j, Marked(ss[j], present, now));
  }
}
