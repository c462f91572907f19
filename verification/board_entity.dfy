/** The Board entity: a post with its author, counters and two flags, status and isActive. */
module BoardEntity {
  import opened Wrappers
  import opened Users
  import opened Masking

  datatype BoardStatus = ACTIVE | DELETED

  /** getAuthorMaskedEmail without the receiver: null for a missing author or e-mail. */
  function AuthorMaskedEmailOf(author: Option<User>): (r: Option<string>)
    ensures r == None <==> author == None || author.value.email == None
    ensures r.Some? ==> r.value == MaskEmail(author.value.email.value)
  {
    match author
    case None => None
    case Some(u) =>
      match u.email
      case None => None
      case Some(e) => Some(MaskEmail(e))
  }

  class Board {
    var boardNo: int
    var title: string
    var content: string
    var category: Option<string>
    var author: Option<User>
    var viewCount: int
    var likeCount: int
    var commentCount: int
    var status: Option<BoardStatus>
    var isActive: bool
    var createdAt: Timestamp
    var updatedAt: Timestamp

    /** The board as BoardService builds it: counters 0, status ACTIVE, and isActive true by
        its builder default. Auditing stamps both timestamps. */
    constructor (title: string, content: string, category: Option<string>, author: Option<User>, now: Timestamp)
      ensures this.title == title && this.content == content && this.category == category && this.author == author
      ensures viewCount == 0 && likeCount == 0 && commentCount == 0
      ensures status == Some(ACTIVE) && isActive
      ensures createdAt == now && updatedAt == now
    {
      boardNo := 0;
      this.title := title;
      this.content := content;
      this.category := category;
      this.author := author;
      viewCount, likeCount, commentCount := 0, 0, 0;
      status := Some(ACTIVE);
      isActive := true;
      createdAt, updatedAt := now, now;
    }

    /** updateBoard: title, content, category and updatedAt change, nothing else. */
    method UpdateBoard(title: string, content: string, category: Option<string>, now: Timestamp)
      modifies this`title, this`content, this`category, this`updatedAt
      ensures this.title == title && this.content == content && this.category == category
      ensures updatedAt == now
    {
      this.title := title;
      this.content := content;
      this.category := category;
      updatedAt := now;
    }

    /** deactivate: isActive becomes false whatever it was; only updatedAt changes besides. */
    method Deactivate(now: Timestamp)
      modifies this`isActive, this`updatedAt
      ensures !isActive && updatedAt == now
    {
      isActive := false;
      updatedAt := now;
    }

    /** activate: isActive becomes true whatever it was; only updatedAt changes besides. */
    method Activate(now: Timestamp)
      modifies this`isActive, this`updatedAt
      ensures isActive && updatedAt == now
    {
      isActive := true;
      updatedAt := now;
    }

    /** getAuthorNickname: null exactly when there is no author. */
    function AuthorNickname(): (r: Option<string>)
      reads this
      ensures r == None <==> author == None
      ensures r.Some? ==> r.value == author.value.nickname
    {
      match author
      case None => None
      case Some(u) => Some(u.nickname)
    }

    /** getAuthorMaskedEmail. */
    function AuthorMaskedEmail(): (r: Option<string>)
      reads this
      ensures r == None <==> author == None || author.value.email == None
      ensures r.Some? ==> |r.value| == |author.value.email.value|
      ensures r.Some? && !Maskable(author.value.email.value) ==> r.value == author.value.email.value
    {
      AuthorMaskedEmailOf(author)
    }
  }
}
