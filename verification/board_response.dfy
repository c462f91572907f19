/** BoardResponse: a board as sent to clients, with the author's e-mail masked. */
module BoardView {
  import opened Wrappers
  import opened BoardEntity

  datatype BoardResponse = BoardResponse(
    boardNo: int, title: string, content: Option<string>, category: Option<string>,
    authorNickname: Option<string>, authorMaskedEmail: Option<string>,
    viewCount: int, likeCount: int, commentCount: int, status: Option<BoardStatus>,
    createdAt: Timestamp, updatedAt: Timestamp)

  /** substring(0, maxLength) with a negative maxLength. */
  datatype PreviewError = StringIndexOutOfBounds

  /** The preview length used when none is given. */
  const DefaultPreviewLength := 100

  /** from(Board): copies the board and takes the author's nickname and masked e-mail from it. */
  function From(b: Board): (r: BoardResponse)
    reads b
    ensures r.boardNo == b.boardNo && r.title == b.title && r.content == Some(b.content)
    ensures r.category == b.category && r.status == b.status
    ensures r.viewCount == b.viewCount && r.likeCount == b.likeCount && r.commentCount == b.commentCount
    ensures r.createdAt == b.createdAt && r.updatedAt == b.updatedAt
    ensures r.authorNickname == b.AuthorNickname() && r.authorMaskedEmail == b.AuthorMaskedEmail()
  {
    BoardResponse(b.boardNo, b.title, Some(b.content), b.category, b.AuthorNickname(), b.AuthorMaskedEmail(),
                  b.viewCount, b.likeCount, b.commentCount, b.status, b.createdAt, b.updatedAt)
  }

  /**
   * getContentPreview(maxLength): "" for null or empty content, the content itself when it
   * fits, else its first maxLength characters and "...". A negative maxLength on non-empty
   * content makes substring throw.
   */
  function ContentPreview(r: BoardResponse, maxLength: int): (p: Result<string, PreviewError>)
    ensures r.content == None || r.content == Some("") ==> p == Ok("")
    ensures r.content.Some? && |r.content.value| <= maxLength ==> p == Ok(r.content.value)
    ensures r.content.Some? && 0 <= maxLength < |r.content.value| ==>
      p.Ok? && |p.value| == maxLength + 3 && p.value[..maxLength] == r.content.value[..maxLength] &&
      p.value[maxLength..] == "..."
    ensures p.Err? <==> r.content.Some? && r.content.value != "" && maxLength < 0
  {
    match r.content
    case None => Ok("")
    case Some(c) =>
      if c == "" then Ok("")
      else if |c| <= maxLength then Ok(c)
      else if maxLength < 0 then Err(StringIndexOutOfBounds)
      else Ok(c[..maxLength] + "...")
  }

  /** getContentPreview(): the preview at DefaultPreviewLength, which never fails. */
  function DefaultContentPreview(r: BoardResponse): (p: string)
    ensures ContentPreview(r, DefaultPreviewLength) == Ok(p)
    ensures |p| <= DefaultPreviewLength + 3
  {
    ContentPreview(r, DefaultPreviewLength).value
  }

  /** isActive: status is ACTIVE. */
  predicate IsActive(r: BoardResponse)
  {
    r.status == Some(ACTIVE)
  }

  /** isDeleted: status is DELETED. */
  predicate IsDeleted(r: BoardResponse)
  {
    r.status == Some(DELETED)
  }

  /** A response is never both active and deleted; with no status it is neither. */
  lemma ActiveExcludesDeleted(r: BoardResponse)
    ensures !(IsActive(r) && IsDeleted(r))
    ensures r.status == None ==> !IsActive(r) && !IsDeleted(r)
    ensures r.status.Some? ==> IsActive(r) != IsDeleted(r)
  {
    if r.status.Some? {
      match r.status.value
      case ACTIVE =>
      case DELETED =>
    }
  }
}
