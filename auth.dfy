/** The account routes of the relational backend (`POST /auth/signup`,
    `POST /auth/login`): the field checks in their order, the duplicate check, the
    model's validators, and the 7-day token with the public part of the user. */
module Auth {
  import opened Common
  import opened Models
  import opened Tables

  const MsgAllFieldsRequired: string := "모든 필드를 입력해주세요"
  const MsgPasswordTooShort: string := "비밀번호는 최소 6자 이상이어야 합니다"
  const MsgUserExists: string := "이미 존재하는 사용자입니다"
  const MsgInvalidInput: string := "입력 데이터가 올바르지 않습니다"
  const MsgSignupOk: string := "회원가입 성공"
  const MsgCredentialsRequired: string := "이메일과 비밀번호를 입력해주세요"
  const MsgBadCredentials: string := "이메일 또는 비밀번호가 잘못되었습니다"
  const MsgLoginOk: string := "로그인 성공"

  /** The signup route's own minimum password length (the model's validator also
      caps it at 100). */
  const MinPasswordLength: nat := 6

  /** `expiresIn: '7d'`, in seconds. */
  const TokenLifetime: nat := 7 * 24 * 60 * 60

  /** The claims of a signed token: `{ userId }` and its lifetime. The signature and
      the secret are not modelled. */
  datatype Token = Token(userId: int, expiresIn: nat)

  datatype AuthReply = AuthReply(message: string, token: Token, user: map<string, JsonValue>)

  /** The `user` object of a reply: `id`, `username` and `email`. */
  function PublicUser(u: User): map<string, JsonValue> {
    map["id" := JInt(u.id), "username" := JStr(u.username), "email" := JStr(u.email)]
  }

  /** The reply's user object is exactly the model's `toJSON`: every attribute but the
      password digest. */
  lemma PublicUserHidesPassword(u: User)
    ensures PublicUser(u) == Attributes(u) - {"password"}
    ensures "password" !in PublicUser(u)
  {
    assert PublicUser(u).Keys == (Attributes(u) - {"password"}).Keys;
  }

  /** `User.findOne({ where: { email } })`. */
  function FindByEmail(users: seq<User>, email: string): (r: Option<User>)
    ensures r.Some? ==> r.value in users && r.value.email == email
    ensures r.None? ==> forall u :: u in users ==> u.email != email
  {
    match FirstIndex(users, (u: User) => u.email == email)
    case None => None
    case Some(k) => Some(users[k])
  }

  /** `User.findOne({ where: { [Op.or]: [{ email }, { username }] } })` found a row. */
  predicate Taken(users: seq<User>, username: string, email: string) {
    exists u :: u in users && (u.email == email || u.username == username)
  }

  /** `POST /auth/signup`. In order: 400 when a field is missing or empty, 400 when the
      password is shorter than 6, 400 when a user has the email or the username, 400
      when the model's validators reject the plaintext fields; otherwise the user is
      stored with the hashed password and gets 201, a 7-day token for its id, and its
      public fields. */
  function Signup(db: Db, v: Validators, c: Crypto, username: Input, email: Input, password: Input)
    : (r: Step<AuthReply>)
    ensures r.out.Failure? ==> r.db == db && r.out.status == 400
    ensures !username.Truthy() || !email.Truthy() || !password.Truthy()
            ==> r.out == Failure(400, MsgAllFieldsRequired)
    ensures username.Truthy() && email.Truthy() && password.Truthy() && |password.s| < MinPasswordLength
            ==> r.out == Failure(400, MsgPasswordTooShort)
    ensures username.Truthy() && email.Truthy() && password.Truthy() && |password.s| >= MinPasswordLength
            && Taken(db.users, username.s, email.s)
            ==> r.out == Failure(400, MsgUserExists)
    ensures username.Truthy() && email.Truthy() && password.Truthy() && |password.s| >= MinPasswordLength
            && !Taken(db.users, username.s, email.s)
            ==> && (r.out.Success? <==> ValidUserFields(v, username.s, email.s, password.s))
                && (!ValidUserFields(v, username.s, email.s, password.s) ==> r.out == Failure(400, MsgInvalidInput))
    ensures r.out.Success? ==>
              var u := User(db.nextUserId, username.s, email.s, c.hash(password.s));
              && r.out.status == 201
              && !Taken(db.users, username.s, email.s)
              && ValidUserFields(v, username.s, email.s, password.s)
              && r.db == db.(users := db.users + [u], nextUserId := db.nextUserId + 1)
              && r.out.value == AuthReply(MsgSignupOk, Token(u.id, TokenLifetime), PublicUser(u))
  {
    if !username.Truthy() || !email.Truthy() || !password.Truthy() then
      Step(db, Failure(400, MsgAllFieldsRequired))
    else if |password.s| < MinPasswordLength then
      Step(db, Failure(400, MsgPasswordTooShort))
    else if Taken(db.users, username.s, email.s) then
      Step(db, Failure(400, MsgUserExists))
    else if !ValidUserFields(v, username.s, email.s, password.s) then
      Step(db, Failure(400, MsgInvalidInput))
    else
      var u := User(db.nextUserId, username.s, email.s, HashedOnCreate(c, password.s));
      Step(db.(users := db.users + [u], nextUserId := db.nextUserId + 1),
           Success(201, AuthReply(MsgSignupOk, Token(u.id, TokenLifetime), PublicUser(u))))
  }

  /** `POST /auth/login`: 400 when a field is missing or empty; an unknown email and a
      wrong password get the same 401; otherwise 200 with a 7-day token for the user
      whose stored digest matches. */
  function Login(db: Db, c: Crypto, email: Input, password: Input): (r: Outcome<AuthReply>)
    ensures !email.Truthy() || !password.Truthy() ==> r == Failure(400, MsgCredentialsRequired)
    ensures email.Truthy() && password.Truthy() && FindByEmail(db.users, email.s).None?
            ==> r == Failure(401, MsgBadCredentials)
    ensures r.Failure? && email.Truthy() && password.Truthy() ==> r == Failure(401, MsgBadCredentials)
    ensures email.Truthy() && password.Truthy() && FindByEmail(db.users, email.s).Some? ==>
              var u := FindByEmail(db.users, email.s).value;
              && (r.Success? <==> c.compare(password.s, u.password))
              && (r.Success? ==> r == Success(200, AuthReply(MsgLoginOk, Token(u.id, TokenLifetime), PublicUser(u))))
    ensures r.Success? ==> email.Truthy() && password.Truthy() && FindByEmail(db.users, email.s).Some?
  {
    if !email.Truthy() || !password.Truthy() then Failure(400, MsgCredentialsRequired)
    else match FindByEmail(db.users, email.s)
      case None => Failure(401, MsgBadCredentials)
      case Some(u) =>
        if !c.compare(password.s, u.password) then Failure(401, MsgBadCredentials)
        else Success(200, AuthReply(MsgLoginOk, Token(u.id, TokenLifetime), PublicUser(u)))
  }

  /** Signing up keeps the invariant: the new id is above every other, and the username
      and email were free and passed the validators. */
  lemma SignupPreservesInv(db: Db, v: Validators, c: Crypto, username: Input, email: Input, password: Input)
    requires Inv(db, v)
    ensures Inv(Signup(db, v, c, username, email, password).db, v)
  {
    var r := Signup(db, v, c, username, email, password);
    if r.out.Success? {
      var d := r.db;
      var u := d.users[|db.users|];
      forall i | 0 <= i < |db.users|
        ensures db.users[i].username != u.username && db.users[i].email != u.email
      {
        assert db.users[i] in db.users;
      }
      assert UsersOk(d, v);
    }
  }

  /** A user who has just signed up can log in with the same email and password, and
      gets a token for the new account (given that the hash verifies against its own
      plaintext). */
  lemma SignupThenLogin(db: Db, v: Validators, c: Crypto, username: Input, email: Input, password: Input)
    requires Signup(db, v, c, username, email, password).out.Success?
    requires password.Truthy() && c.compare(password.s, c.hash(password.s))
    ensures var r := Signup(db, v, c, username, email, password);
            Login(r.db, c, email, password) == Success(200, AuthReply(MsgLoginOk, r.out.value.token, r.out.value.user))
  {
    var r := Signup(db, v, c, username, email, password);
    var u := r.db.users[|db.users|];
    assert u in r.db.users;
    var found := FindByEmail(r.db.users, email.s);
    assert found.Some?;
    forall w | w in db.users ensures w.email != email.s {
      assert !(w.email == email.s || w.username == username.s);
    }
    assert found.value == u;
  }
}
