/** The admin routes that decide something: signup, login and course update.
    The Mongo collections become an in-memory store: a sequence of accounts
    in insertion order and a map from course id to course. */
module AdminApi {
  import opened Wrappers
  import opened JsString
  import opened CourseValidation
  import opened TokenAuth

  /** An admin document. A password left out of the signup body is stored
      as missing. */
  datatype Account = Account(username: string, password: Option<string>)

  /** A course document, as stored after the validation middleware let it
      through. */
  datatype Course = Course(title: string, description: string, price: real, imageLink: string, published: Option<bool>)

  /** The `:courseId` path parameter: an id that Mongoose can cast to an
      ObjectId, or one it cannot, which makes `findById` throw a CastError. */
  datatype CourseIdParam = CourseId(id: string) | MalformedId(raw: string)

  datatype SignupOutcome = Created | UsernameRejected
  datatype LoginOutcome = InvalidCredentials | UserDoesNotExist | LoggedIn(username: string)
  datatype UpdateOutcome = Updated | InvalidCourseId | InvalidCourseIdFormat

  /** The token check's refusals. */
  type AuthRefusal = o: AuthOutcome | o != Authenticated witness Unauthenticated

  /** The payload check's refusals. */
  type CheckFailure = c: Check | c != Pass witness Crash(Title)

  /** Outcome of `PUT /admin/courses/:courseId` with its two middlewares. */
  datatype PutOutcome = AuthFailed(auth: AuthRefusal) | PayloadRejected(check: CheckFailure) | Handled(update: UpdateOutcome)

  /** 200 for a created account, 403 for every refusal. */
  function SignupStatus(o: SignupOutcome): (code: nat)
    ensures code == 200 <==> o == Created
    ensures code == 200 || code == 403
  {
    if o == Created then 200 else 403
  }

  /** 200 with a token for a login, 401 for both refusals. */
  function LoginStatus(o: LoginOutcome): (code: nat)
    ensures code == 200 <==> o.LoggedIn?
    ensures code == 200 || code == 401
  {
    if o.LoggedIn? then 200 else 401
  }

  /** Each outcome of the update handler has its own status. */
  function UpdateStatus(o: UpdateOutcome): (code: nat)
    ensures code == 200 <==> o == Updated
    ensures code == 400 <==> o == InvalidCourseIdFormat
    ensures code == 401 <==> o == InvalidCourseId
  {
    match o
    case Updated => 200
    case InvalidCourseId => 401
    case InvalidCourseIdFormat => 400
  }

  /** The status the whole `PUT` route decides: the token check's own status,
      401 for a refused payload, or the handler's status. It is `None` when
      the payload check throws and the framework answers instead. Only an
      update gets 200, and every other decided status is a 4xx. */
  function PutStatus(o: PutOutcome): (code: Option<nat>)
    ensures o.AuthFailed? ==> code == Some(AuthStatus(o.auth))
    ensures o.PayloadRejected? && o.check.Invalid? ==> code == Some(InvalidStatus)
    ensures o.Handled? ==> code == Some(UpdateStatus(o.update))
    ensures code == Some(200) <==> o == Handled(Updated)
    ensures code.None? <==> o.PayloadRejected? && o.check.Crash?
    ensures code.Some? && code.value != 200 ==> 400 <= code.value < 500
  {
    match o
    case AuthFailed(auth) => Some(AuthStatus(auth))
    case PayloadRejected(check) => if check.Crash? then None else Some(InvalidStatus)
    case Handled(update) => Some(UpdateStatus(update))
  }

  /** `findOne({username})` finds a document. */
  predicate Registered(accounts: seq<Account>, username: string) {
    exists i :: 0 <= i < |accounts| && accounts[i].username == username
  }

  /** `findOne({username, password})` finds a document. */
  predicate HoldsPair(accounts: seq<Account>, username: string, password: string) {
    exists i :: 0 <= i < |accounts| && accounts[i] == Account(username, Some(password))
  }

  ghost predicate UniqueUsernames(accounts: seq<Account>) {
    forall i, j :: 0 <= i < j < |accounts| ==> accounts[i].username != accounts[j].username
  }

  /** The signup guard: the username must be given, must not be the single
      space `" "` (other blank names, such as `""`, pass), and must be new. */
  predicate SignupAllowed(accounts: seq<Account>, username: Option<string>): (b: bool)
    ensures b <==> username.Some? && username.value != " " &&
                   forall i :: 0 <= i < |accounts| ==> accounts[i].username != username.value
  {
    username.Some? && username.value != " " && !Registered(accounts, username.value)
  }

  /** A login header that is present and not all whitespace. */
  predicate Usable(v: Option<string>) {
    v.Some? && !IsBlank(v.value)
  }

  /** `POST /admin/login` with the `username` and `password` headers; `None`
      is a header the request does not carry. */
  function Login(accounts: seq<Account>, username: Option<string>, password: Option<string>): (r: LoginOutcome)
    ensures r == InvalidCredentials <==>
              !(username.Some? && HasVisibleChar(username.value) && password.Some? && HasVisibleChar(password.value))
    ensures r.LoggedIn? <==>
              r != InvalidCredentials && exists i :: 0 <= i < |accounts| && accounts[i] == Account(username.value, password)
    ensures r.LoggedIn? ==> r.username == username.value
  {
    if !Usable(username) || !Usable(password) then InvalidCredentials
    else if !HoldsPair(accounts, username.value, password.value) then UserDoesNotExist
    else LoggedIn(username.value)
  }

  /** Every stored course is one the validation middleware would let through. */
  ghost predicate CatalogValid(courses: map<string, Course>) {
    forall id :: id in courses ==> VerifyCourseDetails(PayloadOf(courses[id])) == Pass
  }

  function PayloadOf(c: Course): CoursePayload {
    CoursePayload(Some(c.title), Some(c.description), Some(c.price), Some(c.imageLink), c.published)
  }

  class AdminStore {
    var accounts: seq<Account>
    var courses: map<string, Course>

    ghost predicate Valid()
      reads this
    {
      UniqueUsernames(accounts) && CatalogValid(courses)
    }

    constructor ()
      ensures Valid() && accounts == [] && courses == map[]
    {
      accounts := [];
      courses := map[];
    }

    /** `POST /admin/signup`: refuse an `undefined` (`None`), single-space or
        taken username with 403; otherwise save exactly one new account. */
    method Signup(username: Option<string>, password: Option<string>) returns (r: SignupOutcome)
      modifies this
      ensures r == Created <==> SignupAllowed(old(accounts), username)
      ensures r == Created ==> accounts == old(accounts) + [Account(username.value, password)]
      ensures r == UsernameRejected ==> accounts == old(accounts)
      ensures courses == old(courses)
      ensures old(Valid()) ==> Valid()
    {
      if username.None? || username.value == " " || Registered(accounts, username.value) {
        return UsernameRejected;
      }
      accounts := accounts + [Account(username.value, password)];
      r := Created;
    }

    /** The handler of `PUT /admin/courses/:courseId`: fetch the course,
        overwrite its five fields and save it. */
    method UpdateCourse(courseId: CourseIdParam, title: string, description: string, price: real,
                        imageLink: string, published: Option<bool>) returns (r: UpdateOutcome)
      modifies this
      ensures r == InvalidCourseIdFormat <==> courseId.MalformedId?
      ensures r == InvalidCourseId <==> courseId.CourseId? && courseId.id !in old(courses)
      ensures r == Updated ==>
                courses == old(courses)[courseId.id := Course(title, description, price, imageLink, published)]
      ensures r != Updated ==> courses == old(courses)
      ensures courses.Keys == old(courses).Keys
      ensures accounts == old(accounts)
    {
      match courseId
      case MalformedId(_) =>
        r := InvalidCourseIdFormat;
      case CourseId(id) =>
        if id in courses {
          var course := courses[id];
          course := course.(title := title);
          course := course.(description := description);
          course := course.(price := price);
          course := course.(imageLink := imageLink);
          course := course.(published := published);
          courses := courses[id := course];
          r := Updated;
        } else {
          r := InvalidCourseId;
        }
    }

    /** The whole route: the token check, then the payload check, then the
        handler. Only a request that passes both checks reaches the store,
        so every stored course stays one the payload check accepts. */
    method PutCourse(authorization: Option<string>, verifies: string -> bool, courseId: CourseIdParam,
                     body: CoursePayload) returns (r: PutOutcome)
      modifies this
      ensures r.AuthFailed? <==> Authenticate(authorization, verifies) != Authenticated
      ensures r.AuthFailed? ==> r.auth == Authenticate(authorization, verifies)
      ensures r.PayloadRejected? <==>
                Authenticate(authorization, verifies) == Authenticated && VerifyCourseDetails(body) != Pass
      ensures r.PayloadRejected? ==> r.check == VerifyCourseDetails(body)
      ensures r.Handled? ==>
                (r.update == InvalidCourseIdFormat <==> courseId.MalformedId?) &&
                (r.update == InvalidCourseId <==> courseId.CourseId? && courseId.id !in old(courses))
      ensures !(r.Handled? && r.update == Updated) ==> courses == old(courses)
      ensures r.Handled? && r.update == Updated ==>
                courseId.CourseId? && courseId.id in old(courses) &&
                courses == old(courses)[courseId.id := Course(body.title.value, body.description.value,
                                                              body.price.value, body.imageLink.value, body.published)]
      ensures accounts == old(accounts)
      ensures old(Valid()) ==> Valid()
    {
      var auth := Authenticate(authorization, verifies);
      if auth != Authenticated {
        return AuthFailed(auth);
      }
      var check := VerifyCourseDetails(body);
      if check != Pass {
        return PayloadRejected(check);
      }
      AcceptedPayloadIsCourse(body);
      var u := UpdateCourse(courseId, body.title.value, body.description.value, body.price.value,
                            body.imageLink.value, body.published);
      r := Handled(u);
    }
  }

  /** A payload the check accepts carries all four fields, and it is the
      payload of the course built from them. */
  lemma AcceptedPayloadIsCourse(body: CoursePayload)
    requires VerifyCourseDetails(body) == Pass
    ensures body.title.Some? && body.description.Some? && body.price.Some? && body.imageLink.Some?
    ensures PayloadOf(Course(body.title.value, body.description.value, body.price.value,
                             body.imageLink.value, body.published)) == body
  {
    ReportsFirstFailure(body);
    assert CheckField(body, Title) == Pass && CheckField(body, Description) == Pass;
    assert CheckField(body, Price) == Pass && CheckField(body, ImageLink) == Pass;
  }

  /** An account that signup just saved logs in with the same non-blank
      username and password. */
  lemma SignupThenLogin(accounts: seq<Account>, username: string, password: string)
    requires SignupAllowed(accounts, Some(username))
    requires HasVisibleChar(username) && HasVisibleChar(password)
    ensures Login(accounts + [Account(username, Some(password))], Some(username), Some(password)) == LoggedIn(username)
  {
    var after := accounts + [Account(username, Some(password))];
    assert after[|accounts|] == Account(username, Some(password));
  }

  /** A signup the guard lets through keeps usernames unique, and the same
      username is refused the next time. */
  lemma SignupKeepsUsernamesUnique(accounts: seq<Account>, username: string, password: Option<string>)
    requires UniqueUsernames(accounts) && SignupAllowed(accounts, Some(username))
    ensures UniqueUsernames(accounts + [Account(username, password)])
    ensures !SignupAllowed(accounts + [Account(username, password)], Some(username))
  {
    var after := accounts + [Account(username, password)];
    assert after[|accounts|].username == username;
    forall i, j | 0 <= i < j < |after| ensures after[i].username != after[j].username {
      if j == |accounts| {
        assert after[i] == accounts[i];
      } else {
        assert after[i] == accounts[i] && after[j] == accounts[j];
      }
    }
  }

  /** Saving another account never takes a login away. */
  lemma SignupKeepsLogins(accounts: seq<Account>, added: Account, username: Option<string>, password: Option<string>)
    requires Login(accounts, username, password).LoggedIn?
    ensures Login(accounts + [added], username, password) == Login(accounts, username, password)
  {
    var i :| 0 <= i < |accounts| && accounts[i] == Account(username.value, password);
    assert (accounts + [added])[i] == accounts[i];
  }

  /** Signup accepts blank usernames other than `" "`, yet login refuses
      every blank username, so such an account can never log in. */
  lemma BlankAccountCannotLogIn(accounts: seq<Account>, username: string, password: Option<string>)
    requires forall i :: 0 <= i < |username| ==> IsJsSpace(username[i])
    ensures username != " " && !Registered(accounts, username) ==> SignupAllowed(accounts, Some(username))
    ensures Login(accounts + [Account(username, password)], Some(username), password) == InvalidCredentials
  {
  }
}
