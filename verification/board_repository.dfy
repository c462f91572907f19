/**
 * The board table as the repository's UPDATE and COUNT queries see it: a sequence of
 * rows, one per board, updated in place by board number.
 */
module BoardTable {
  import opened Wrappers
  import opened Seqs
  import opened Sorting

  /** The columns the repository's queries read or write. */
  datatype BoardRow = BoardRow(boardNo: int, category: string, authorNo: int, viewCount: int,
                               likeCount: int, commentCount: int, isActive: bool, createdAt: Timestamp)

  /** The modifying UPDATE queries, one per constructor. */
  datatype RowUpdate =
    | IncrementView | IncrementLike | DecrementLike | IncrementComment | DecrementComment
    | SetActive(value: bool)

  predicate NonNegative(row: BoardRow)
  {
    row.viewCount >= 0 && row.likeCount >= 0 && row.commentCount >= 0
  }

  /** One update applied to one row: an increment adds one, a decrement subtracts one only
      from a positive counter (its WHERE clause requires it), and the flag updates set
      isActive. */
  function Apply(u: RowUpdate, row: BoardRow): (r: BoardRow)
    ensures r.boardNo == row.boardNo && r.category == row.category && r.authorNo == row.authorNo
    ensures r.createdAt == row.createdAt
    ensures NonNegative(row) ==> NonNegative(r)
    ensures u.SetActive? ==> r.isActive == u.value && r.(isActive := row.isActive) == row
    ensures !u.SetActive? ==> r.isActive == row.isActive
    ensures u == IncrementView ==> r.viewCount == row.viewCount + 1 && r.(viewCount := row.viewCount) == row
    ensures u == IncrementLike ==> r.likeCount == row.likeCount + 1 && r.(likeCount := row.likeCount) == row
    ensures u == IncrementComment ==> r.commentCount == row.commentCount + 1 && r.(commentCount := row.commentCount) == row
    ensures u == DecrementLike ==>
      r.likeCount == (if row.likeCount > 0 then row.likeCount - 1 else row.likeCount) && r.(likeCount := row.likeCount) == row
    ensures u == DecrementComment ==>
      r.commentCount == (if row.commentCount > 0 then row.commentCount - 1 else row.commentCount) &&
      r.(commentCount := row.commentCount) == row
  {
    match u
    case IncrementView => row.(viewCount := row.viewCount + 1)
    case IncrementLike => row.(likeCount := row.likeCount + 1)
    case DecrementLike => if row.likeCount > 0 then row.(likeCount := row.likeCount - 1) else row
    case IncrementComment => row.(commentCount := row.commentCount + 1)
    case DecrementComment => if row.commentCount > 0 then row.(commentCount := row.commentCount - 1) else row
    case SetActive(v) => row.(isActive := v)
  }

  /** An increment undone by the matching decrement restores the row; a decrement at zero
      changes nothing. */
  lemma IncrementThenDecrement(row: BoardRow)
    requires NonNegative(row)
    ensures Apply(DecrementLike, Apply(IncrementLike, row)) == row
    ensures Apply(DecrementComment, Apply(IncrementComment, row)) == row
    ensures row.likeCount == 0 ==> Apply(DecrementLike, row) == row
    ensures row.commentCount == 0 ==> Apply(DecrementComment, row) == row
  {
  }

  /** Board numbers are unique and no counter is negative. */
  predicate Valid(rows: seq<BoardRow>)
  {
    (forall i, j :: 0 <= i < j < |rows| ==> rows[i].boardNo != rows[j].boardNo) &&
    forall i :: 0 <= i < |rows| ==> NonNegative(rows[i])
  }

  predicate HasBoard(rows: seq<BoardRow>, boardNo: int)
  {
    exists i :: 0 <= i < |rows| && rows[i].boardNo == boardNo
  }

  /** UPDATE ... WHERE b.boardNo = :boardNo: the update reaches the rows with that
      number, which on a valid table is at most one, and no other row. */
  function UpdateWhere(rows: seq<BoardRow>, boardNo: int, u: RowUpdate): (r: seq<BoardRow>)
    ensures |r| == |rows|
    ensures forall i :: 0 <= i < |r| ==> r[i] == if rows[i].boardNo == boardNo then Apply(u, rows[i]) else rows[i]
    ensures !HasBoard(rows, boardNo) ==> r == rows
    ensures Valid(rows) ==> Valid(r)
  {
    seq(|rows|, i requires 0 <= i < |rows| => if rows[i].boardNo == boardNo then Apply(u, rows[i]) else rows[i])
  }

  /** countByIsActive. */
  function CountByIsActive(rows: seq<BoardRow>, active: bool): (r: nat)
    ensures r <= |rows|
  {
    if rows == [] then 0
    else (if rows[0].isActive == active then 1 else 0) + CountByIsActive(rows[1..], active)
  }

  /** countByCategoryAndIsActive: never more than countByIsActive for the same flag. */
  function CountByCategoryAndIsActive(rows: seq<BoardRow>, category: string, active: bool): (r: nat)
    ensures r <= CountByIsActive(rows, active)
  {
    if rows == [] then 0
    else (if rows[0].category == category && rows[0].isActive == active then 1 else 0)
         + CountByCategoryAndIsActive(rows[1..], category, active)
  }

  /** countByAuthorAndIsActive: never more than countByIsActive for the same flag. */
  function CountByAuthorAndIsActive(rows: seq<BoardRow>, authorNo: int, active: bool): (r: nat)
    ensures r <= CountByIsActive(rows, active)
  {
    if rows == [] then 0
    else (if rows[0].authorNo == authorNo && rows[0].isActive == active then 1 else 0)
         + CountByAuthorAndIsActive(rows[1..], authorNo, active)
  }

  /** Every board is counted as active or as inactive, never both. */
  lemma {:induction false} CountPartition(rows: seq<BoardRow>)
    ensures CountByIsActive(rows, true) + CountByIsActive(rows, false) == |rows|
  {
    if rows != [] {
      CountPartition(rows[1..]);
    }
  }

  /** The update of a non-empty table is the update of its first row followed by the
      update of the rest. */
  lemma UpdateWhereCons(rows: seq<BoardRow>, boardNo: int, u: RowUpdate)
    requires rows != []
    ensures UpdateWhere(rows, boardNo, u)[0] == if rows[0].boardNo == boardNo then Apply(u, rows[0]) else rows[0]
    ensures UpdateWhere(rows, boardNo, u)[1..] == UpdateWhere(rows[1..], boardNo, u)
  {
    var r := UpdateWhere(rows, boardNo, u);
    var t := UpdateWhere(rows[1..], boardNo, u);
    forall i | 0 <= i < |t|
      ensures r[1..][i] == t[i]
    {
      assert rows[1..][i] == rows[i + 1];
    }
  }

  /** The rest of a valid table is valid and does not repeat the first row's number. */
  lemma ValidTail(rows: seq<BoardRow>)
    requires Valid(rows) && rows != []
    ensures Valid(rows[1..])
    ensures !HasBoard(rows[1..], rows[0].boardNo)
  {
    var t := rows[1..];
    assert forall i :: 0 <= i < |t| ==> t[i] == rows[i + 1];
  }

  /** Counter updates never change how many boards are active or inactive. */
  lemma {:induction false} CounterUpdateKeepsCounts(rows: seq<BoardRow>, boardNo: int, u: RowUpdate, active: bool)
    requires !u.SetActive?
    ensures CountByIsActive(UpdateWhere(rows, boardNo, u), active) == CountByIsActive(rows, active)
  {
    if rows != [] {
      CounterUpdateKeepsCounts(rows[1..], boardNo, u, active);
      UpdateWhereCons(rows, boardNo, u);
    }
  }

  /** Flipping the flag of a board that had the other value moves exactly that one board
      from one count to the other. */
  lemma {:induction false} SetActiveMovesCount(rows: seq<BoardRow>, k: nat, value: bool)
    requires Valid(rows) && k < |rows| && rows[k].isActive != value
    ensures var after := UpdateWhere(rows, rows[k].boardNo, SetActive(value));
      && CountByIsActive(after, value) == CountByIsActive(rows, value) + 1
      && CountByIsActive(after, !value) + 1 == CountByIsActive(rows, !value)
  {
    var b := rows[k].boardNo;
    UpdateWhereCons(rows, b, SetActive(value));
    ValidTail(rows);
    if k > 0 {
      assert rows[1..][k - 1] == rows[k];
      SetActiveMovesCount(rows[1..], k - 1, value);
    }
  }

  /** findPopularBoards' order: view count, then creation time, both descending. */
  function PopularKey(row: BoardRow): Key
  {
    Key(row.viewCount, row.createdAt)
  }

  /** The WHERE b.isActive = :isActive clause. */
  function ActiveIs(active: bool): BoardRow -> bool
  {
    (row: BoardRow) => row.isActive == active
  }

  lemma PopularPage(rows: seq<BoardRow>, active: bool, start: nat, size: nat)
    ensures var r := Window(SortDesc(Filter(rows, ActiveIs(active)), PopularKey), start, size);
      && (forall x :: x in r ==> x in rows && x.isActive == active)
      && SortedDesc(r, PopularKey)
      && IsSortedPage(r, Filter(rows, ActiveIs(active)), PopularKey, start, size)
  {
    SortedWindow(Filter(rows, ActiveIs(active)), PopularKey, start, size);
  }

  class BoardRepository {
    var rows: seq<BoardRow>

    constructor (rows: seq<BoardRow>)
      requires Valid(rows)
      ensures this.rows == rows
    {
      this.rows := rows;
    }

    /** Runs one UPDATE statement. */
    method Execute(boardNo: int, u: RowUpdate)
      requires Valid(rows)
      modifies this
      ensures Valid(rows)
      ensures rows == UpdateWhere(old(rows), boardNo, u)
    {
      rows := UpdateWhere(rows, boardNo, u);
    }

    method IncrementViewCount(boardNo: int)
      requires Valid(rows)
      modifies this
      ensures Valid(rows) && rows == UpdateWhere(old(rows), boardNo, IncrementView)
    {
      Execute(boardNo, IncrementView);
    }

    method IncrementLikeCount(boardNo: int)
      requires Valid(rows)
      modifies this
      ensures Valid(rows) && rows == UpdateWhere(old(rows), boardNo, IncrementLike)
    {
      Execute(boardNo, IncrementLike);
    }

    method DecrementLikeCount(boardNo: int)
      requires Valid(rows)
      modifies this
      ensures Valid(rows) && rows == UpdateWhere(old(rows), boardNo, DecrementLike)
    {
      Execute(boardNo, DecrementLike);
    }

    method IncrementCommentCount(boardNo: int)
      requires Valid(rows)
      modifies this
      ensures Valid(rows) && rows == UpdateWhere(old(rows), boardNo, IncrementComment)
    {
      Execute(boardNo, IncrementComment);
    }

    method DecrementCommentCount(boardNo: int)
      requires Valid(rows)
      modifies this
      ensures Valid(rows) && rows == UpdateWhere(old(rows), boardNo, DecrementComment)
    {
      Execute(boardNo, DecrementComment);
    }

    method UpdateIsActive(boardNo: int, isActive: bool)
      requires Valid(rows)
      modifies this
      ensures Valid(rows) && rows == UpdateWhere(old(rows), boardNo, SetActive(isActive))
    {
      Execute(boardNo, SetActive(isActive));
    }

    method DeactivateBoard(boardNo: int)
      requires Valid(rows)
      modifies this
      ensures Valid(rows) && rows == UpdateWhere(old(rows), boardNo, SetActive(false))
    {
      Execute(boardNo, SetActive(false));
    }

    method ActivateBoard(boardNo: int)
      requires Valid(rows)
      modifies this
      ensures Valid(rows) && rows == UpdateWhere(old(rows), boardNo, SetActive(true))
    {
      Execute(boardNo, SetActive(true));
    }

    /** findPopularBoards with a page request: only boards with the given flag, most viewed
        first and newest first among equals, at most one page of them. */
    function FindPopularBoards(active: bool, page: nat, size: nat): (r: seq<BoardRow>)
      reads this
      requires size >= 1
      ensures |r| <= size
      ensures forall x :: x in r ==> x in rows && x.isActive == active
      ensures SortedDesc(r, PopularKey)
      ensures IsSortedPage(r, Filter(rows, ActiveIs(active)), PopularKey, page * size, size)
    {
      var r := Window(SortDesc(Filter(rows, ActiveIs(active)), PopularKey), page * size, size);
      PopularPage(rows, active, page * size, size);
      r
    }
  }
}
