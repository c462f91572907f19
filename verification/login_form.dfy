/**
 * The login page's field rules and its submit gate. The login info is either an
 * e-mail or a nickname; the server picks its lookup by the presence of '@', and the
 * page's rules make that choice agree with the page's own classification.
 */
module Login {
  import opened Wrappers
  import opened Text
  import opened Patterns
  import Accounts
  import Users

  /** The minimum password length the page asks for. */
  const MinPasswordLength := 6

  /** What handleLogin posts. */
  datatype LoginPayload = LoginPayload(loginInfo: string, password: string, rememberMe: bool)

  /** validateLoginInfo: the trimmed value must be non-empty and then match the e-mail
      pattern or, failing that, the nickname pattern. The e-mail branch re-tests the same
      pattern, a test that cannot fail. */
  function ValidateLoginInfo(v: string): (r: bool)
    ensures r <==> EmailPattern(Trim(v)) || NicknamePattern(Trim(v))
  {
    var t := Trim(v);
    EmailPatternIff(t);
    if |t| == 0 then false
    else if IsEmail(t) then (if !IsEmail(t) then false else true)
    else NicknamePattern(t)
  }

  /** validatePassword: non-empty and at least six characters. */
  function ValidatePassword(p: string): (r: bool)
    ensures r <==> |p| >= MinPasswordLength
  {
    if |p| == 0 then false
    else if |p| < MinPasswordLength then false
    else true
  }

  /** handleLogin's gate: both validators run, and the request is sent only when both
      pass; it carries the trimmed login info and the password as typed. */
  function HandleLogin(loginInfo: string, password: string, rememberMe: bool): (r: Option<LoginPayload>)
    ensures r.Some? <==> ValidateLoginInfo(loginInfo) && |password| >= MinPasswordLength
    ensures r.Some? ==> r.value == LoginPayload(Trim(loginInfo), password, rememberMe)
    ensures r.Some? ==> 3 <= |r.value.loginInfo|
  {
    var infoOk := ValidateLoginInfo(loginInfo);
    var passwordOk := ValidatePassword(password);
    if !infoOk || !passwordOk then None
    else
      assert 3 <= |Trim(loginInfo)| by {
        var t := Trim(loginInfo);
        if EmailPattern(t) {
          var k, j :| EmailSplit(t, k, j);
        }
      }
      Some(LoginPayload(Trim(loginInfo), password, rememberMe))
  }

  /** For anything the page sends, the server's '@' test picks the e-mail lookup exactly
      when the page accepted the value as an e-mail, and the nickname lookup exactly when
      it accepted it as a nickname. */
  lemma LookupAgreesWithPage(users: seq<Users.User>, loginInfo: string, password: string, rememberMe: bool)
    requires HandleLogin(loginInfo, password, rememberMe).Some?
    ensures var info := HandleLogin(loginInfo, password, rememberMe).value.loginInfo;
      && (EmailPattern(info) ==> Accounts.LoginTarget(users, info) == Accounts.EmailIndex(users, info))
      && (!EmailPattern(info) ==> NicknamePattern(info) &&
                                  Accounts.LoginTarget(users, info) == Accounts.NicknameIndex(users, info))
  {
    var info := Trim(loginInfo);
    PatternsDisjoint(info);
  }
}
