/**
 * The comment table as the repository's queries see it: rows carrying their board's
 * number, flipped active or inactive in bulk per board or one at a time.
 */
module CommentTable {
  import opened Wrappers
  import opened Seqs
  import opened Sorting

  datatype CommentRow = CommentRow(commentNo: int, boardNo: int, isActive: bool, createdAt: Timestamp)

  /** Which rows an UPDATE reaches: every comment of a board, or one comment. */
  datatype Target = AllOfBoard(boardNo: int) | OneComment(commentNo: int)

  predicate Hits(t: Target, row: CommentRow)
  {
    match t
    case AllOfBoard(b) => row.boardNo == b
    case OneComment(c) => row.commentNo == c
  }

  /** UPDATE Comment c SET c.isActive = value WHERE ...: the targeted rows take the value,
      every other row is left as it was. */
  function SetActiveWhere(rows: seq<CommentRow>, t: Target, value: bool): (r: seq<CommentRow>)
    ensures |r| == |rows|
    ensures forall i :: 0 <= i < |r| ==> r[i] == if Hits(t, rows[i]) then rows[i].(isActive := value) else rows[i]
  {
    seq(|rows|, i requires 0 <= i < |rows| => if Hits(t, rows[i]) then rows[i].(isActive := value) else rows[i])
  }

  /** countByBoardAndIsActive. */
  function CountByBoardAndIsActive(rows: seq<CommentRow>, boardNo: int, active: bool): (r: nat)
    ensures r <= |rows|
    ensures r == 0 <==> forall i :: 0 <= i < |rows| ==> !(rows[i].boardNo == boardNo && rows[i].isActive == active)
  {
    if rows == [] then 0
    else
      var rest := CountByBoardAndIsActive(rows[1..], boardNo, active);
      assert forall i :: 1 <= i < |rows| ==> rows[1..][i - 1] == rows[i];
      (if rows[0].boardNo == boardNo && rows[0].isActive == active then 1 else 0) + rest
  }

  /** After deactivateAllByBoardNo(b) board b has no active comment, and its inactive
      count is all of its comments. */
  lemma DeactivateAllLeavesNoneActive(rows: seq<CommentRow>, boardNo: int)
    ensures CountByBoardAndIsActive(SetActiveWhere(rows, AllOfBoard(boardNo), false), boardNo, true) == 0
    ensures CountByBoardAndIsActive(SetActiveWhere(rows, AllOfBoard(boardNo), true), boardNo, false) == 0
  {
  }

  /** A bulk update for one board leaves the counts of every other board unchanged. */
  lemma {:induction false} BulkUpdateIsolated(rows: seq<CommentRow>, b: int, other: int, value: bool, active: bool)
    requires b != other
    ensures CountByBoardAndIsActive(SetActiveWhere(rows, AllOfBoard(b), value), other, active)
         == CountByBoardAndIsActive(rows, other, active)
  {
    if rows != [] {
      BulkUpdateIsolated(rows[1..], b, other, value, active);
      assert SetActiveWhere(rows, AllOfBoard(b), value)[1..] == SetActiveWhere(rows[1..], AllOfBoard(b), value);
    }
  }

  function OfBoard(boardNo: int): CommentRow -> bool
  {
    (c: CommentRow) => c.boardNo == boardNo
  }

  function OfBoardWithFlag(boardNo: int, active: bool): CommentRow -> bool
  {
    (c: CommentRow) => c.boardNo == boardNo && c.isActive == active
  }

  /** ORDER BY createdAt ASC, as a descending sort on the negated time. */
  function Oldest(c: CommentRow): Key
  {
    Key(-c.createdAt, 0)
  }

  predicate OldestFirst(s: seq<CommentRow>)
  {
    forall i, j :: 0 <= i < j < |s| ==> s[i].createdAt <= s[j].createdAt
  }

  lemma OldestFirstOfSorted(s: seq<CommentRow>)
    requires SortedDesc(s, Oldest)
    ensures OldestFirst(s)
  {
    forall i, j | 0 <= i < j < |s|
      ensures s[i].createdAt <= s[j].createdAt
    {
      assert !KeyLess(Oldest(s[i]), Oldest(s[j]));
    }
  }

  class CommentRepository {
    var rows: seq<CommentRow>

    constructor (rows: seq<CommentRow>)
      ensures this.rows == rows
    {
      this.rows := rows;
    }

    method DeactivateAllByBoardNo(boardNo: int)
      modifies this
      ensures rows == SetActiveWhere(old(rows), AllOfBoard(boardNo), false)
    {
      rows := SetActiveWhere(rows, AllOfBoard(boardNo), false);
    }

    method ActivateAllByBoardNo(boardNo: int)
      modifies this
      ensures rows == SetActiveWhere(old(rows), AllOfBoard(boardNo), true)
    {
      rows := SetActiveWhere(rows, AllOfBoard(boardNo), true);
    }

    method DeactivateByCommentNo(commentNo: int)
      modifies this
      ensures rows == SetActiveWhere(old(rows), OneComment(commentNo), false)
    {
      rows := SetActiveWhere(rows, OneComment(commentNo), false);
    }

    method ActivateByCommentNo(commentNo: int)
      modifies this
      ensures rows == SetActiveWhere(old(rows), OneComment(commentNo), true)
    {
      rows := SetActiveWhere(rows, OneComment(commentNo), true);
    }

    /** findByBoardOrderByCreatedAtAsc: exactly the board's comments, oldest first. */
    function FindByBoardOrderByCreatedAtAsc(boardNo: int): (r: seq<CommentRow>)
      reads this
      ensures multiset(r) == multiset(Filter(rows, OfBoard(boardNo)))
      ensures forall x :: x in r <==> x in rows && x.boardNo == boardNo
      ensures OldestFirst(r)
    {
      var f := Filter(rows, OfBoard(boardNo));
      var r := SortDesc(f, Oldest);
      OldestFirstOfSorted(r);
      forall x
        ensures x in r <==> x in rows && x.boardNo == boardNo
      {
        assert x in r <==> x in multiset(r);
        assert x in f <==> x in multiset(f);
        assert OfBoard(boardNo)(x) <==> x.boardNo == boardNo;
      }
      r
    }

    /** findByBoardAndIsActiveOrderByCreatedAtAsc with a page request: one page of the
        board's comments with the given flag, oldest first. */
    function FindByBoardAndIsActiveOrderByCreatedAtAsc(boardNo: int, active: bool, page: nat, size: nat): (r: seq<CommentRow>)
      reads this
      requires size >= 1
      ensures |r| <= size
      ensures forall x :: x in r ==> x in rows && x.boardNo == boardNo && x.isActive == active
      ensures OldestFirst(r)
      ensures IsSortedPage(r, Filter(rows, OfBoardWithFlag(boardNo, active)), Oldest, page * size, size)
    {
      var sorted := SortDesc(Filter(rows, OfBoardWithFlag(boardNo, active)), Oldest);
      var r := Window(sorted, page * size, size);
      SortedWindow(Filter(rows, OfBoardWithFlag(boardNo, active)), Oldest, page * size, size);
      OldestFirstOfSorted(r);
      r
    }

  }
}
