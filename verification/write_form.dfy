/**
 * The post-writing page: the title, content and category rules, and the submit gate
 * that builds the post from the trimmed inputs and the signed-in user's number.
 */
module Write {
  import opened Wrappers
  import opened Text

  const MinTitleLength := 2
  const MaxTitleLength := 200
  const MinContentLength := 10

  /** What handleSubmit posts. */
  datatype PostPayload = PostPayload(title: string, content: string, category: string, userNo: int)

  /** handleSubmit's outcomes: a field fails its rule, nobody is signed in, or the post
      is sent. */
  datatype SubmitOutcome = InvalidInput | LoginRequired | Post(payload: PostPayload)

  /** validateTitle: the trimmed title is non-empty and 2 to 200 characters long. */
  function ValidateTitle(title: string): (r: bool)
    ensures r <==> MinTitleLength <= |Trim(title)| <= MaxTitleLength
  {
    var t := Trim(title);
    if |t| == 0 then false
    else if |t| < MinTitleLength then false
    else if |t| > MaxTitleLength then false
    else true
  }

  /** validateContent: the trimmed content has at least ten characters; no upper bound. */
  function ValidateContent(content: string): (r: bool)
    ensures r <==> MinContentLength <= |Trim(content)|
  {
    var t := Trim(content);
    if |t| == 0 then false
    else if |t| < MinContentLength then false
    else true
  }

  /** validateCategory: a category is selected. */
  function ValidateCategory(category: string): (r: bool)
    ensures r <==> category != []
  {
    if |category| == 0 then false else true
  }

  /** The signed-in user's number as the page reads it from local storage: None when
      there is no user or no number; JavaScript treats the number 0 as missing too. */
  function SignedInUserNo(user: Option<Option<int>>): (r: Option<int>)
    ensures r.Some? <==> user.Some? && user.value.Some? && user.value.value != 0
    ensures r.Some? ==> r.value == user.value.value
  {
    match user
    case None => None
    case Some(no) =>
      match no
      case None => None
      case Some(n) => if n == 0 then None else Some(n)
  }

  /** handleSubmit: all three validators run, and only when all pass is the signed-in
      user checked; the post carries the trimmed title and content, the category as
      selected and the user's number. */
  function HandleSubmit(title: string, content: string, category: string, user: Option<Option<int>>): (r: SubmitOutcome)
    ensures r == InvalidInput <==> !(ValidateTitle(title) && ValidateContent(content) && ValidateCategory(category))
    ensures r == LoginRequired <==>
      ValidateTitle(title) && ValidateContent(content) && ValidateCategory(category) && SignedInUserNo(user).None?
    ensures r.Post? ==> r.payload == PostPayload(Trim(title), Trim(content), category, SignedInUserNo(user).value)
    ensures r.Post? ==>
      && MinTitleLength <= |r.payload.title| <= MaxTitleLength
      && MinContentLength <= |r.payload.content|
      && r.payload.category != []
      && r.payload.userNo != 0
  {
    var titleOk := ValidateTitle(title);
    var contentOk := ValidateContent(content);
    var categoryOk := ValidateCategory(category);
    if !titleOk || !contentOk || !categoryOk then InvalidInput
    else
      match SignedInUserNo(user)
      case None => LoginRequired
      case Some(n) => Post(PostPayload(Trim(title), Trim(content), category, n))
  }

  /** The sent title and content are already trimmed: trimming them again on the server
      changes nothing. */
  lemma PayloadTrimmed(title: string, content: string, category: string, user: Option<Option<int>>)
    requires HandleSubmit(title, content, category, user).Post?
    ensures var p := HandleSubmit(title, content, category, user).payload;
      Trim(p.title) == p.title && Trim(p.content) == p.content
  {
    TrimIdempotent(title);
    TrimIdempotent(content);
  }
}
