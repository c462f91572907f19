/**
 * Account rules of UserService over the users table: sign-up with its checks in order,
 * lookups, login by e-mail or nickname, and (de)activation. Password hashing is the
 * service's encoder, kept abstract as the pair encode / matches.
 */
module Accounts {
  import opened Wrappers
  import opened Text
  import opened Users

  datatype SignupRequest = SignupRequest(nickname: string, email: string, password: string, confirmPassword: string)
  datatype LoginRequest = LoginRequest(loginInfo: string, password: string)
  datatype UserResponse = UserResponse(userNo: int, nickname: string, email: Option<string>, userRole: Role,
                                       isActive: bool, createdAt: Timestamp, updatedAt: Timestamp)

  /** The IllegalArgumentExceptions the service throws, one per message. */
  datatype AccountError =
    | EmailInUse        // 이미 사용 중인 이메일입니다.
    | PasswordMismatch  // 비밀번호가 일치하지 않습니다.
    | NicknameInUse     // 이미 사용 중인 사용자닉네임입니다.
    | UserNotFound      // 사용자를 찾을 수 없습니다
    | UnknownLogin      // 사용자별명 또는 이메일이 올바르지 않습니다.
    | AccountInactive   // 비활성화된 계정입니다.
    | WrongPassword     // 비밀번호가 올바르지 않습니다.

  /** UserResponse.from: every field but the password. */
  function ResponseOf(u: User): (r: UserResponse)
    ensures r.userNo == u.userNo && r.nickname == u.nickname && r.email == u.email
    ensures r.userRole == u.userRole && r.isActive == u.isActive
    ensures r.createdAt == u.createdAt && r.updatedAt == u.updatedAt
  {
    UserResponse(u.userNo, u.nickname, u.email, u.userRole, u.isActive, u.createdAt, u.updatedAt)
  }

  /** findByEmail: the position of the user with e-mail e. */
  function EmailIndex(users: seq<User>, e: string): (r: Option<nat>)
    ensures r.None? <==> forall i :: 0 <= i < |users| ==> users[i].email != Some(e)
    ensures r.Some? ==> r.value < |users| && users[r.value].email == Some(e)
  {
    if users == [] then None
    else if users[|users| - 1].email == Some(e) then Some(|users| - 1)
    else EmailIndex(users[..|users| - 1], e)
  }

  /** findByNickname: the position of the user with nickname n. */
  function NicknameIndex(users: seq<User>, n: string): (r: Option<nat>)
    ensures r.None? <==> forall i :: 0 <= i < |users| ==> users[i].nickname != n
    ensures r.Some? ==> r.value < |users| && users[r.value].nickname == n
  {
    if users == [] then None
    else if users[|users| - 1].nickname == n then Some(|users| - 1)
    else NicknameIndex(users[..|users| - 1], n)
  }

  /** The table's constraints: ids assigned 1, 2, ... in order; e-mail present; e-mail and nickname unique. */
  predicate Consistent(users: seq<User>)
  {
    (forall i :: 0 <= i < |users| ==> users[i].userNo == i + 1 && users[i].email.Some?) &&
    (forall i, j :: 0 <= i < j < |users| ==>
       users[i].email != users[j].email && users[i].nickname != users[j].nickname)
  }

  /** The row signup saves. */
  function NewUser(users: seq<User>, req: SignupRequest, encode: string -> string, now: Timestamp): User
  {
    User(|users| + 1, req.nickname, Some(req.email), encode(req.password), USER, true, now, now)
  }

  /** login: e-mail lookup iff the login info contains "@", nickname lookup otherwise. */
  function LoginTarget(users: seq<User>, loginInfo: string): (r: Option<nat>)
    ensures r.Some? ==> r.value < |users|
    ensures '@' in loginInfo ==> r == EmailIndex(users, loginInfo)
    ensures '@' !in loginInfo ==> r == NicknameIndex(users, loginInfo)
  {
    ContainsChar(loginInfo, '@');
    if Contains(loginInfo, "@") then EmailIndex(users, loginInfo) else NicknameIndex(users, loginInfo)
  }

  /** login's checks, in order: unknown user, inactive account, wrong password. */
  function LoginResult(users: seq<User>, matches: (string, string) -> bool, req: LoginRequest): (r: Result<User, AccountError>)
    ensures r == Err(UnknownLogin) <==> LoginTarget(users, req.loginInfo).None?
    ensures r == Err(AccountInactive) <==>
      LoginTarget(users, req.loginInfo).Some? && !users[LoginTarget(users, req.loginInfo).value].isActive
    ensures r.Ok? <==>
      (LoginTarget(users, req.loginInfo).Some? &&
       users[LoginTarget(users, req.loginInfo).value].isActive &&
       matches(req.password, users[LoginTarget(users, req.loginInfo).value].password))
    ensures r.Ok? ==> r.value == users[LoginTarget(users, req.loginInfo).value]
  {
    match LoginTarget(users, req.loginInfo)
    case None => Err(UnknownLogin)
    case Some(i) =>
      if !users[i].isActive then Err(AccountInactive)
      else if !matches(req.password, users[i].password) then Err(WrongPassword)
      else Ok(users[i])
  }

  /** after is before with isActive set to flag on the user with e-mail e, and nothing else changed. */
  predicate ActiveSet(before: seq<User>, after: seq<User>, e: string, flag: bool)
  {
    |after| == |before| &&
    forall i :: 0 <= i < |before| ==>
      after[i] == if before[i].email == Some(e) then before[i].(isActive := flag) else before[i]
  }

  /** A user who has just signed up can log in with the e-mail and password, provided the
      encoder accepts its own encoding. */
  lemma LoginAfterSignup(users: seq<User>, req: SignupRequest, encode: string -> string,
                         matches: (string, string) -> bool, now: Timestamp)
    requires Consistent(users)
    requires EmailIndex(users, req.email).None? && '@' in req.email
    requires matches(req.password, encode(req.password))
    ensures var after := users + [NewUser(users, req, encode, now)];
      LoginResult(after, matches, LoginRequest(req.email, req.password)) == Ok(NewUser(users, req, encode, now))
  {
    var after := users + [NewUser(users, req, encode, now)];
    assert EmailIndex(after, req.email) == Some(|users|);
  }

  /** After deactivation, logging in with that e-mail is refused as inactive, whatever the password. */
  lemma DeactivatedCannotLogin(before: seq<User>, after: seq<User>, e: string,
                               matches: (string, string) -> bool, password: string)
    requires Consistent(before) && EmailIndex(before, e).Some? && '@' in e
    requires ActiveSet(before, after, e, false)
    ensures LoginResult(after, matches, LoginRequest(e, password)) == Err(AccountInactive)
  {
    var i := EmailIndex(before, e).value;
    assert after[i].email == Some(e);
    var j := EmailIndex(after, e).value;
    assert before[j].email == Some(e);
  }

  class UserService {
    const encode: string -> string
    const matches: (string, string) -> bool
    /** The users table, in id order. */
    var users: seq<User>

    ghost predicate Valid()
      reads this
    {
      Consistent(users)
    }

    constructor (encode: string -> string, matches: (string, string) -> bool)
      ensures Valid() && users == []
      ensures this.encode == encode && this.matches == matches
    {
      this.encode := encode;
      this.matches := matches;
      users := [];
    }

    /**
     * signup: rejects a taken e-mail, then a password differing from its confirmation,
     * then a taken nickname, saving nothing in each case; otherwise saves one active USER
     * whose password is the encoded one.
     */
    method Signup(req: SignupRequest, now: Timestamp) returns (r: Result<UserResponse, AccountError>)
      requires Valid()
      modifies this`users
      ensures Valid()
      ensures EmailIndex(old(users), req.email).Some? ==> r == Err(EmailInUse) && users == old(users)
      ensures EmailIndex(old(users), req.email).None? && req.password != req.confirmPassword ==>
        r == Err(PasswordMismatch) && users == old(users)
      ensures (EmailIndex(old(users), req.email).None? && req.password == req.confirmPassword &&
               NicknameIndex(old(users), req.nickname).Some?) ==>
        r == Err(NicknameInUse) && users == old(users)
      ensures r.Ok? ==>
        users == old(users) + [NewUser(old(users), req, encode, now)] &&
        r.value == ResponseOf(NewUser(old(users), req, encode, now))
      ensures r.Ok? <==>
        (EmailIndex(old(users), req.email).None? && req.password == req.confirmPassword &&
         NicknameIndex(old(users), req.nickname).None?)
    {
      if EmailIndex(users, req.email).Some? {
        return Err(EmailInUse);
      }
      if req.password != req.confirmPassword {
        return Err(PasswordMismatch);
      }
      if NicknameIndex(users, req.nickname).Some? {
        return Err(NicknameInUse);
      }
      var user := NewUser(users, req, encode, now);
      users := users + [user];
      return Ok(ResponseOf(user));
    }

    /** findByNickname: that user's data, or an error when no user has the nickname. */
    function FindByNickname(n: string): (r: Result<UserResponse, AccountError>)
      reads this
      ensures r.Err? <==> forall i :: 0 <= i < |users| ==> users[i].nickname != n
      ensures r.Err? ==> r.error == UserNotFound
      ensures r.Ok? ==> r.value.nickname == n && exists i :: 0 <= i < |users| && r.value == ResponseOf(users[i])
    {
      match NicknameIndex(users, n)
      case None => Err(UserNotFound)
      case Some(i) => Ok(ResponseOf(users[i]))
    }

    /** findByEmail: that user's data, or an error when no user has the e-mail. */
    function FindByEmail(e: string): (r: Result<UserResponse, AccountError>)
      reads this
      ensures r.Err? <==> forall i :: 0 <= i < |users| ==> users[i].email != Some(e)
      ensures r.Err? ==> r.error == UserNotFound
      ensures r.Ok? ==> r.value.email == Some(e) && exists i :: 0 <= i < |users| && r.value == ResponseOf(users[i])
    {
      match EmailIndex(users, e)
      case None => Err(UserNotFound)
      case Some(i) => Ok(ResponseOf(users[i]))
    }

    /** findAllActiveUsers: the active users, in table order. */
    function FindAllActiveUsers(): (r: seq<UserResponse>)
      reads this
      ensures forall x :: x in r ==> x.isActive
      ensures forall x :: x in r ==> exists i :: 0 <= i < |users| && users[i].isActive && x == ResponseOf(users[i])
      ensures forall i :: 0 <= i < |users| && users[i].isActive ==> ResponseOf(users[i]) in r
      ensures |r| <= |users|
    {
      ActiveResponses(users)
    }

    /** login: by e-mail iff the login info contains "@", then the three checks in order;
        it reads the table and never changes it. */
    function Login(req: LoginRequest): (r: Result<UserResponse, AccountError>)
      reads this
      ensures r.Ok? <==> LoginResult(users, matches, req).Ok?
      ensures r.Ok? ==> r.value == ResponseOf(LoginResult(users, matches, req).value) && r.value.isActive
      ensures r.Err? ==> r.error == LoginResult(users, matches, req).error
    {
      match LoginResult(users, matches, req)
      case Ok(u) => Ok(ResponseOf(u))
      case Err(e) => Err(e)
    }

    /** deactivateUser: only isActive of that user changes; an unknown e-mail fails and saves nothing. */
    method DeactivateUser(e: string) returns (r: Result<(), AccountError>)
      requires Valid()
      modifies this`users
      ensures Valid()
      ensures r.Err? <==> EmailIndex(old(users), e).None?
      ensures r.Err? ==> r.error == UserNotFound && users == old(users)
      ensures r.Ok? ==> ActiveSet(old(users), users, e, false)
    {
      r := SetActive(e, false);
    }

    /** activateUser: only isActive of that user changes; an unknown e-mail fails and saves nothing. */
    method ActivateUser(e: string) returns (r: Result<(), AccountError>)
      requires Valid()
      modifies this`users
      ensures Valid()
      ensures r.Err? <==> EmailIndex(old(users), e).None?
      ensures r.Err? ==> r.error == UserNotFound && users == old(users)
      ensures r.Ok? ==> ActiveSet(old(users), users, e, true)
    {
      r := SetActive(e, true);
    }

    /** findByEmail, setActive(flag), save. */
    method SetActive(e: string, flag: bool) returns (r: Result<(), AccountError>)
      requires Valid()
      modifies this`users
      ensures Valid()
      ensures r.Err? <==> EmailIndex(old(users), e).None?
      ensures r.Err? ==> r.error == UserNotFound && users == old(users)
      ensures r.Ok? ==> ActiveSet(old(users), users, e, flag)
    {
      var found := EmailIndex(users, e);
      if found.None? {
        return Err(UserNotFound);
      }
      var i := found.value;
      users := users[i := users[i].(isActive := flag)];
      return Ok(());
    }
  }

  function ActiveResponses(users: seq<User>): (r: seq<UserResponse>)
    ensures forall x :: x in r ==> x.isActive
    ensures forall x :: x in r ==> exists i :: 0 <= i < |users| && users[i].isActive && x == ResponseOf(users[i])
    ensures forall i :: 0 <= i < |users| && users[i].isActive ==> ResponseOf(users[i]) in r
    ensures |r| <= |users|
  {
    if users == [] then []
    else
      var rest := ActiveResponses(users[1..]);
      assert forall i :: 1 <= i < |users| ==> users[i] == users[1..][i - 1];
      if users[0].isActive then [ResponseOf(users[0])] + rest else rest
  }
}
