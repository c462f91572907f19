/** UserInfoResponse: the user data sent to clients, without the password. */
module UserInfo {
  import opened Wrappers
  import opened Users
  import opened Masking

  datatype UserInfoResponse = UserInfoResponse(userNo: int, nickname: Option<string>, email: Option<string>,
                                               userRole: Role, isActive: bool,
                                               createdAt: Timestamp, updatedAt: Timestamp)

  /** from(User): copies the seven public fields and nothing else. */
  function From(u: User): (r: UserInfoResponse)
    ensures r.userNo == u.userNo && r.nickname == Some(u.nickname) && r.email == u.email
    ensures r.userRole == u.userRole && r.isActive == u.isActive
    ensures r.createdAt == u.createdAt && r.updatedAt == u.updatedAt
  {
    UserInfoResponse(u.userNo, Some(u.nickname), u.email, u.userRole, u.isActive, u.createdAt, u.updatedAt)
  }

  /** getMaskedEmail: "" for a null or empty e-mail; otherwise MaskEmail. */
  function MaskedEmail(r: UserInfoResponse): (s: string)
    ensures r.email == None || r.email == Some("") ==> s == ""
    ensures r.email.Some? ==> |s| == |r.email.value|
    ensures r.email.Some? && !Maskable(r.email.value) ==> s == r.email.value
  {
    match r.email
    case None => ""
    case Some(e) => if e == "" then "" else MaskEmail(e)
  }

  /** getMaskedNickname: "" for a null or empty nickname; otherwise MaskNickname. */
  function MaskedNickname(r: UserInfoResponse): (s: string)
    ensures r.nickname == None ==> s == ""
    ensures r.nickname.Some? ==> |s| == |r.nickname.value|
    ensures r.nickname.Some? && |r.nickname.value| <= 2 ==> s == r.nickname.value
  {
    match r.nickname
    case None => ""
    case Some(n) => if n == "" then "" else MaskNickname(n)
  }

  /** 홍길동 is shown as 홍*동. */
  lemma MaskedNicknameExample(u: User)
    requires u.nickname == "홍길동"
    ensures MaskedNickname(From(u)) == "홍*동"
  {
  }
}
