/** The Comment entity. Its author reference is the field the source calls `nickname`. */
module CommentEntity {
  import opened Wrappers
  import opened Users
  import opened Masking
  import BoardEntity

  class Comment {
    var commentNo: int
    var content: string
    var author: Option<User>
    var boardNo: int
    var isActive: bool
    var createdAt: Timestamp
    var updatedAt: Timestamp

    /** A new comment: isActive is true by its builder default; auditing stamps the times. */
    constructor (content: string, author: Option<User>, boardNo: int, now: Timestamp)
      ensures this.content == content && this.author == author && this.boardNo == boardNo
      ensures isActive
      ensures createdAt == now && updatedAt == now
    {
      commentNo := 0;
      this.content := content;
      this.author := author;
      this.boardNo := boardNo;
      isActive := true;
      createdAt, updatedAt := now, now;
    }

    /** updateContent: content and updatedAt change, nothing else. */
    method UpdateContent(content: string, now: Timestamp)
      modifies this`content, this`updatedAt
      ensures this.content == content && updatedAt == now
    {
      this.content := content;
      updatedAt := now;
    }

    /** deactivate: isActive becomes false whatever it was; only updatedAt changes besides. */
    method Deactivate(now: Timestamp)
      modifies this`isActive, this`updatedAt
      ensures !isActive && updatedAt == now
    {
      isActive := false;
      updatedAt := now;
    }

    /** activate: isActive becomes true whatever it was; only updatedAt changes besides. */
    method Activate(now: Timestamp)
      modifies this`isActive, this`updatedAt
      ensures isActive && updatedAt == now
    {
      isActive := true;
      updatedAt := now;
    }

    /** getAuthorNickname: null exactly when there is no author. */
    function AuthorNickname(): (r: Option<string>)
      reads this
      ensures r == None <==> author == None
      ensures r.Some? ==> r.value == author.value.nickname
    {
      match author
      case None => None
      case Some(u) => Some(u.nickname)
    }

    /** getAuthorMaskedEmail: the same masking as Board's. */
    function AuthorMaskedEmail(): (r: Option<string>)
      reads this
      ensures r == BoardEntity.AuthorMaskedEmailOf(author)
      ensures r == None <==> author == None || author.value.email == None
    {
      match author
      case None => None
      case Some(u) =>
        match u.email
        case None => None
        case Some(e) => Some(MaskEmail(e))
    }
  }
}
