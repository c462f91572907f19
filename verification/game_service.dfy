/**
 * The game leaderboard pipeline. Every game type has one leaderboard, a Redis sorted set
 * under the key "ranking:" + gameType mapping nicknames to scores. A submission is first
 * written to the game_scores table, then applied to the leaderboard, then optionally
 * published on the "game-scores" topic; reads come from the leaderboard and fall back to
 * the table.
 */
module GameRanking {
  import opened Wrappers
  import opened Seqs
  import opened Sorting
  import opened SortedSet

  /** A row of game_scores; id is assigned by the database (auto-increment). */
  datatype GameScore = GameScore(id: int, userId: int, nickname: string, score: int,
                                 gameType: string, createdAt: Timestamp)

  /** The message published on "game-scores". */
  datatype ScoreEvent = ScoreEvent(userId: int, nickname: string, score: int,
                                   gameType: string, timestamp: int)

  datatype RankingEntry = RankingEntry(nickname: string, score: int, rank: int, playedAt: Timestamp)

  /** What the database does with a save: stores it (stamping createdAt) or throws. */
  datatype StoreOutcome = Saved(createdAt: Timestamp) | StoreFails

  /** Where, if anywhere, a leaderboard update throws: at the ZADD or at the trim. */
  datatype CacheFault = Healthy | FailsOnAdd | FailsOnTrim

  /** The optional Kafka template: absent, accepting the send, or throwing. */
  datatype Broker = NotConfigured | Accepts | Rejects

  /** submitScore's outcome: returns normally, or throws "점수 제출에 실패했습니다.". */
  datatype Submission = Submitted | SubmissionFailed

  type Boards = map<string, seq<Member>>

  const KeyPrefix := "ranking:"

  function KeyOf(gameType: string): string
  {
    KeyPrefix + gameType
  }

  /** Distinct game types never share a key. */
  lemma KeyInjective(g1: string, g2: string)
    ensures KeyOf(g1) == KeyOf(g2) <==> g1 == g2
  {
    if KeyOf(g1) == KeyOf(g2) {
      assert g1 == KeyOf(g1)[|KeyPrefix|..];
      assert g2 == KeyOf(g2)[|KeyPrefix|..];
    }
  }

  predicate BoardsValid(boards: Boards)
  {
    forall k :: k in boards ==> Valid(boards[k])
  }

  /** The leaderboard of a game type; a missing key reads as the empty set. */
  function BoardOf(boards: Boards, gameType: string): (z: seq<Member>)
    requires BoardsValid(boards)
    ensures Valid(z)
  {
    if KeyOf(gameType) in boards then boards[KeyOf(gameType)] else []
  }

  /**
   * The cache after updateRankingDirectly / updateRanking: ZADD then trim on the game's
   * key; a throw at the ZADD leaves the cache as it was, a throw at the trim leaves the
   * added but untrimmed set. Either exception is caught and logged.
   */
  function UpdatedBoards(boards: Boards, gameType: string, nickname: string, score: int,
                         fault: CacheFault): (r: Boards)
    requires BoardsValid(boards)
    ensures BoardsValid(r)
    ensures fault == FailsOnAdd ==> r == boards
    ensures fault != FailsOnAdd ==> KeyOf(gameType) in r && r.Keys == boards.Keys + {KeyOf(gameType)}
    ensures fault == Healthy ==> |BoardOf(r, gameType)| <= Capacity
    ensures fault != FailsOnAdd ==>
      (Score(BoardOf(r, gameType), nickname) == Some(score) ||
       (fault == Healthy && Score(BoardOf(r, gameType), nickname) == None))
  {
    var key := KeyOf(gameType);
    var z := BoardOf(boards, gameType);
    match fault
    case FailsOnAdd => boards
    case FailsOnTrim => boards[key := Add(z, nickname, score)]
    case Healthy =>
      LastWriteWins(z, nickname, score);
      boards[key := Update(z, nickname, score)]
  }

  /** An update for one game type leaves every other game type's leaderboard untouched. */
  lemma UpdateIsolated(boards: Boards, gameType: string, nickname: string, score: int,
                       fault: CacheFault, other: string)
    requires BoardsValid(boards) && other != gameType
    ensures var r := UpdatedBoards(boards, gameType, nickname, score, fault);
      (KeyOf(other) in r <==> KeyOf(other) in boards) &&
      BoardOf(r, other) == BoardOf(boards, other)
  {
    KeyInjective(gameType, other);
  }

  /** A successful update applied twice equals it applied once. */
  lemma UpdateTwice(boards: Boards, gameType: string, nickname: string, score: int)
    requires BoardsValid(boards)
    ensures var once := UpdatedBoards(boards, gameType, nickname, score, Healthy);
      UpdatedBoards(once, gameType, nickname, score, Healthy) == once
  {
    var z := BoardOf(boards, gameType);
    UpdateIdempotent(z, nickname, score);
  }

  /** The ranking read from the leaderboard: ranks 1, 2, ... in ZREVRANGE order, the
      score looked up per member (0 if it has vanished). The source stamps each entry with
      LocalDateTime.now() as it builds it; the model gives all entries the one read time
      now. */
  function CacheRankings(z: seq<Member>, limit: int, now: Timestamp): (r: seq<RankingEntry>)
    ensures |r| == |ReverseRange(z, 0, limit - 1)|
    ensures forall i :: 0 <= i < |r| ==>
      r[i].nickname == ReverseRange(z, 0, limit - 1)[i].name && r[i].rank == i + 1 && r[i].playedAt == now
  {
    var top := ReverseRange(z, 0, limit - 1);
    seq(|top|, i requires 0 <= i < |top| =>
      RankingEntry(top[i].name, ScoreOrZero(z, top[i].name), i + 1, now))
  }

  function ScoreOrZero(z: seq<Member>, n: string): int
  {
    match Score(z, n)
    case Some(s) => s
    case None => 0
  }

  /** The WHERE gameType = :gameType clause. */
  function OfGame(gameType: string): GameScore -> bool
  {
    (x: GameScore) => x.gameType == gameType
  }

  /** The intended query behind findTopByGameTypeOrderByScoreDesc(gameType, PageRequest.of(0, limit)):
      the game's rows by descending score, the first limit of them, so exactly limit rows
      when the game has that many and all of them otherwise, and no row left out scores
      above a row returned. */
  function TopScores(scores: seq<GameScore>, gameType: string, limit: nat): (r: seq<GameScore>)
    ensures |r| == if limit < |Filter(scores, OfGame(gameType))| then limit else |Filter(scores, OfGame(gameType))|
    ensures forall x :: x in r ==> x in scores && x.gameType == gameType
    ensures SortedDesc(r, ByScore)
    ensures IsSortedPage(r, Filter(scores, OfGame(gameType)), ByScore, 0, limit)
    ensures forall x, y :: x in scores && x.gameType == gameType && x !in r && y in r ==> x.score <= y.score
  {
    var sorted := SortDesc(Filter(scores, OfGame(gameType)), ByScore);
    var r := Window(sorted, 0, limit);
    SortedWindow(Filter(scores, OfGame(gameType)), ByScore, 0, limit);
    WindowOfSorted(scores, gameType, sorted, r, limit);
    r
  }

  lemma WindowOfSorted(scores: seq<GameScore>, gameType: string, sorted: seq<GameScore>,
                       r: seq<GameScore>, limit: nat)
    requires multiset(sorted) == multiset(Filter(scores, OfGame(gameType)))
    requires SortedDesc(sorted, ByScore)
    requires r == Window(sorted, 0, limit)
    ensures forall x :: x in r ==> x in scores && x.gameType == gameType
    ensures forall x, y :: x in scores && x.gameType == gameType && x !in r && y in r ==> x.score <= y.score
  {
    var filtered := Filter(scores, OfGame(gameType));
    forall x | x in r
      ensures x in scores && x.gameType == gameType
    {
      var i :| 0 <= i < |r| && r[i] == x;
      assert sorted[i] == x;
      assert x in multiset(sorted);
      assert x in multiset(filtered);
      assert x in filtered;
    }
    PrefixIsTop(sorted, ByScore, limit);
    forall x, y | x in scores && x.gameType == gameType && x !in r && y in r
      ensures x.score <= y.score
    {
      assert OfGame(gameType)(x);
      assert x in filtered;
      assert x in multiset(filtered);
      assert x in sorted;
      assert !KeyLess(ByScore(y), ByScore(x));
    }
  }

  function ByScore(x: GameScore): Key
  {
    Key(x.score, 0)
  }

  function EntryOf(x: GameScore, rank: int): RankingEntry
  {
    RankingEntry(x.nickname, x.score, rank, x.createdAt)
  }

  /** The rows numbered from rank 1, in order. */
  function Ranked(top: seq<GameScore>): (r: seq<RankingEntry>)
    ensures |r| == |top|
    ensures forall i :: 0 <= i < |r| ==> r[i] == EntryOf(top[i], i + 1)
  {
    seq(|top|, i requires 0 <= i < |top| => EntryOf(top[i], i + 1))
  }

  /** Numbering rows sorted by score gives entries that never increase in score. */
  lemma RankedOrdered(top: seq<GameScore>)
    requires SortedDesc(top, ByScore)
    ensures forall i, j :: 0 <= i < j < |Ranked(top)| ==> Ranked(top)[i].score >= Ranked(top)[j].score
  {
    var r := Ranked(top);
    forall i, j | 0 <= i < j < |r|
      ensures r[i].score >= r[j].score
    {
      assert !KeyLess(ByScore(top[i]), ByScore(top[j]));
    }
  }

  /** x's entry appears in r at the rank of its position. */
  predicate Listed(r: seq<RankingEntry>, x: GameScore)
  {
    exists j :: 0 <= j < |r| && r[j] == EntryOf(x, j + 1)
  }

  /** getRankingsFromDatabase: PageRequest.of(0, limit) throws for limit < 1, and any
      failure is caught and yields the empty list. Otherwise the game's top limit rows,
      all of them if there are fewer, and no unlisted row of the game outscores a listed
      entry. */
  function StoreRankings(scores: seq<GameScore>, gameType: string, limit: int, dbUp: bool): (r: seq<RankingEntry>)
    ensures !dbUp || limit < 1 ==> r == []
    ensures limit >= 1 ==> |r| <= limit
    ensures dbUp && limit >= 1 ==>
      |r| == if limit < |Filter(scores, OfGame(gameType))| then limit else |Filter(scores, OfGame(gameType))|
    ensures forall i :: 0 <= i < |r| ==> r[i].rank == i + 1
    ensures forall i, j :: 0 <= i < j < |r| ==> r[i].score >= r[j].score
    ensures forall x, i :: x in scores && x.gameType == gameType && !Listed(r, x) && 0 <= i < |r| ==>
      x.score <= r[i].score
  {
    if !dbUp || limit < 1 then []
    else
      var top := TopScores(scores, gameType, limit);
      RankedOrdered(top);
      RankedTop(scores, gameType, top);
      Ranked(top)
  }

  /** Numbering keeps top-ness: a row of the game whose entry is not listed is in none of
      the numbered rows, so it scores no more than any entry. */
  lemma RankedTop(scores: seq<GameScore>, gameType: string, top: seq<GameScore>)
    requires forall x, y :: x in scores && x.gameType == gameType && x !in top && y in top ==> x.score <= y.score
    ensures forall x, i :: x in scores && x.gameType == gameType && !Listed(Ranked(top), x) && 0 <= i < |Ranked(top)| ==>
      x.score <= Ranked(top)[i].score
  {
    var r := Ranked(top);
    forall x, i | x in scores && x.gameType == gameType && !Listed(r, x) && 0 <= i < |r|
      ensures x.score <= r[i].score
    {
      assert forall j :: 0 <= j < |top| ==> r[j] == EntryOf(top[j], j + 1);
      assert x !in top;
      assert top[i] in top;
    }
  }

  /** The table path numbers exactly the top rows. */
  lemma StoreRankingsOfTop(scores: seq<GameScore>, gameType: string, limit: nat, rows: seq<GameScore>,
                           r: seq<RankingEntry>)
    requires limit >= 1
    requires rows == Window(SortDesc(Filter(scores, OfGame(gameType)), ByScore), 0, limit)
    requires |r| == |rows|
    requires forall j :: 0 <= j < |r| ==> r[j] == EntryOf(rows[j], j + 1)
    ensures r == StoreRankings(scores, gameType, limit, true)
  {
    assert rows == TopScores(scores, gameType, limit);
    assert r == Ranked(rows);
  }

  /** getTopRankings: the leaderboard when the read succeeds and is non-empty, the table otherwise. */
  function TopRankings(boards: Boards, scores: seq<GameScore>, gameType: string, limit: int,
                       cacheUp: bool, dbUp: bool, now: Timestamp): seq<RankingEntry>
    requires BoardsValid(boards)
  {
    var z := BoardOf(boards, gameType);
    if cacheUp && |ReverseRange(z, 0, limit - 1)| > 0 then CacheRankings(z, limit, now)
    else StoreRankings(scores, gameType, limit, dbUp)
  }

  /** The leaderboard path: entry i is the i-th ZREVRANGE member with its stored score,
      ranks run consecutively from 1 and scores never increase; for limit >= 1 exactly
      min(limit, |z|) entries come back, for limit == 0 the whole board; and no member left
      out scores above a listed entry. */
  lemma {:induction false} CacheRankingsOrdered(z: seq<Member>, limit: int, now: Timestamp)
    requires Valid(z)
    ensures var r := CacheRankings(z, limit, now);
      (forall i :: 0 <= i < |r| ==>
        r[i].nickname == ReverseRange(z, 0, limit - 1)[i].name &&
        r[i].score == ReverseRange(z, 0, limit - 1)[i].score) &&
      (forall i, j :: 0 <= i < j < |r| ==> r[i].score >= r[j].score) &&
      (limit >= 1 ==> |r| == if limit < |z| then limit else |z|) &&
      (limit == 0 ==> |r| == |z|) &&
      (forall i :: 0 <= i < |r| ==> Member(r[i].nickname, r[i].score) in z) &&
      (forall m, i :: m in z && (forall j :: 0 <= j < |r| ==> r[j].nickname != m.name) && 0 <= i < |r| ==>
        m.score <= r[i].score)
  {
    CacheEntries(z, limit, now);
    TopRange(z, limit);
    ReverseRangeTop(z, limit);
  }

  /** Entry i of the leaderboard path is the i-th ZREVRANGE member with its stored score. */
  lemma CacheEntries(z: seq<Member>, limit: int, now: Timestamp)
    requires Valid(z)
    ensures var top := ReverseRange(z, 0, limit - 1); var r := CacheRankings(z, limit, now);
      forall i :: 0 <= i < |r| ==> r[i].nickname == top[i].name && r[i].score == top[i].score
  {
    var top := ReverseRange(z, 0, limit - 1);
    var r := CacheRankings(z, limit, now);
    forall i | 0 <= i < |r|
      ensures r[i].nickname == top[i].name && r[i].score == top[i].score
    {
      assert top[i] in top;
      ScoreOfMember(z, top[i]);
    }
  }

  /** ZREVRANGE 0 (limit - 1) is a prefix of the board read from the top, so a member
      outside it scores no more than any member in it. */
  lemma ReverseRangeTop(z: seq<Member>, limit: int)
    requires Valid(z)
    ensures var top := ReverseRange(z, 0, limit - 1);
      forall m, i :: m in z && m !in top && 0 <= i < |top| ==> m.score <= top[i].score
  {
    var top := ReverseRange(z, 0, limit - 1);
    TopRange(z, limit);
    var rev := Reverse(z);
    forall m, i | m in z && m !in top && 0 <= i < |top|
      ensures m.score <= top[i].score
    {
      var p :| 0 <= p < |z| && z[p] == m;
      assert rev[|z| - 1 - p] == m;
      assert forall k :: 0 <= k < |top| ==> top[k] == rev[k];
      assert forall k :: 0 <= k < |top| ==> top[k] != m;
      assert top[i] == z[|z| - 1 - i];
      assert p < |z| - 1 - i;
      assert Below(z[p], z[|z| - 1 - i]);
    }
  }

  /** Whatever path is taken, ranks are 1..k in order and scores never increase; for
      limit >= 1 at most limit entries come back. */
  lemma TopRankingsOrdered(boards: Boards, scores: seq<GameScore>, gameType: string, limit: int,
                           cacheUp: bool, dbUp: bool, now: Timestamp)
    requires BoardsValid(boards)
    ensures var r := TopRankings(boards, scores, gameType, limit, cacheUp, dbUp, now);
      (forall i :: 0 <= i < |r| ==> r[i].rank == i + 1) &&
      (forall i, j :: 0 <= i < j < |r| ==> r[i].score >= r[j].score) &&
      (limit >= 1 ==> |r| <= limit)
  {
    CacheRankingsOrdered(BoardOf(boards, gameType), limit, now);
  }

  /** With the cache down or the game's leaderboard empty, the answer is the table's, and
      with the table down as well it is empty: getTopRankings never throws. */
  lemma Fallback(boards: Boards, scores: seq<GameScore>, gameType: string, limit: int,
                 cacheUp: bool, dbUp: bool, now: Timestamp)
    requires BoardsValid(boards)
    requires !cacheUp || BoardOf(boards, gameType) == []
    ensures TopRankings(boards, scores, gameType, limit, cacheUp, dbUp, now)
            == StoreRankings(scores, gameType, limit, dbUp)
    ensures !dbUp ==> TopRankings(boards, scores, gameType, limit, cacheUp, dbUp, now) == []
  {
  }

  /** e is, at the given rank, the entry of one of the game's rows. */
  predicate FromRow(scores: seq<GameScore>, gameType: string, e: RankingEntry, rank: int)
  {
    exists x :: x in scores && x.gameType == gameType && e == EntryOf(x, rank)
  }

  /** The table path lists the game's own rows, highest score first, ranked 1..k, each
      playedAt its row's createdAt. */
  lemma StoreRankingsFromRows(scores: seq<GameScore>, gameType: string, limit: int)
    requires limit >= 1
    ensures var r := StoreRankings(scores, gameType, limit, true);
      forall i :: 0 <= i < |r| ==> FromRow(scores, gameType, r[i], i + 1)
  {
    var top := TopScores(scores, gameType, limit);
    var r := StoreRankings(scores, gameType, limit, true);
    forall i | 0 <= i < |r|
      ensures FromRow(scores, gameType, r[i], i + 1)
    {
      assert top[i] in top;
      assert top[i] in scores && top[i].gameType == gameType && r[i] == EntryOf(top[i], i + 1);
    }
  }

  class GameService {
    /** The Redis leaderboards, by key. */
    var boards: Boards
    /** The game_scores table, in insertion order. */
    var scores: seq<GameScore>
    /** The messages accepted on "game-scores". */
    var published: seq<ScoreEvent>

    ghost predicate Valid()
      reads this
    {
      BoardsValid(boards) && forall i :: 0 <= i < |scores| ==> scores[i].id == i + 1
    }

    constructor ()
      ensures Valid()
      ensures boards == map[] && scores == [] && published == []
    {
      boards := map[];
      scores := [];
      published := [];
    }

    /** updateRankingDirectly / updateRanking: ZADD, then trim to the top Capacity. */
    method UpdateRankingDirectly(nickname: string, score: int, gameType: string, fault: CacheFault)
      requires Valid()
      modifies this`boards
      ensures Valid()
      ensures boards == UpdatedBoards(old(boards), gameType, nickname, score, fault)
    {
      var key := KeyOf(gameType);
      if fault == FailsOnAdd {
        return;
      }
      var added := Add(BoardOf(boards, gameType), nickname, score);
      if fault == FailsOnTrim {
        boards := boards[key := added];
        return;
      }
      boards := boards[key := Trim(added)];
    }

    /** updateRanking: the consumer-side update, the same ZADD and trim from an event. */
    method UpdateRanking(event: ScoreEvent, fault: CacheFault)
      requires Valid()
      modifies this`boards
      ensures Valid()
      ensures boards == UpdatedBoards(old(boards), event.gameType, event.nickname, event.score, fault)
    {
      UpdateRankingDirectly(event.nickname, event.score, event.gameType, fault);
    }

    /**
     * submitScore: appends exactly one row, then updates the leaderboard, then publishes
     * if a broker is configured. Only a failing save makes the call fail, and then
     * nothing changes; cache and broker failures are swallowed.
     */
    method SubmitScore(userId: int, nickname: string, score: int, gameType: string,
                       store: StoreOutcome, fault: CacheFault, broker: Broker, millis: int)
      returns (r: Submission)
      requires Valid()
      modifies this
      ensures Valid()
      ensures store == StoreFails ==>
        r == SubmissionFailed && scores == old(scores) && boards == old(boards) && published == old(published)
      ensures store.Saved? ==> r == Submitted
      ensures store.Saved? ==>
        scores == old(scores) + [GameScore(|old(scores)| + 1, userId, nickname, score, gameType, store.createdAt)]
      ensures store.Saved? ==> boards == UpdatedBoards(old(boards), gameType, nickname, score, fault)
      ensures store.Saved? ==>
        published == old(published) + (if broker == Accepts then [ScoreEvent(userId, nickname, score, gameType, millis)] else [])
    {
      if store == StoreFails {
        return SubmissionFailed;
      }
      scores := scores + [GameScore(|scores| + 1, userId, nickname, score, gameType, store.createdAt)];
      UpdateRankingDirectly(nickname, score, gameType, fault);
      if broker == Accepts {
        published := published + [ScoreEvent(userId, nickname, score, gameType, millis)];
      }
      return Submitted;
    }

    /** getRankingsFromDatabase. */
    method GetRankingsFromDatabase(gameType: string, limit: int, dbUp: bool) returns (r: seq<RankingEntry>)
      requires Valid()
      ensures r == StoreRankings(scores, gameType, limit, dbUp)
      ensures forall i :: 0 <= i < |r| ==> r[i].rank == i + 1
    {
      if !dbUp || limit < 1 {
        return [];
      }
      // The repository query: the game's rows by descending score, the first limit.
      var rows := Window(SortDesc(Filter(scores, OfGame(gameType)), ByScore), 0, limit);
      r := [];
      var rank := 1;
      var i := 0;
      while i < |rows|
        invariant 0 <= i <= |rows| && rank == i + 1 && |r| == i
        invariant forall j :: 0 <= j < i ==> r[j] == EntryOf(rows[j], j + 1)
      {
        r := r + [EntryOf(rows[i], rank)];
        rank := rank + 1;
        i := i + 1;
      }
      StoreRankingsOfTop(scores, gameType, limit, rows, r);
    }

    /** getTopRankings: never throws; see TopRankingsOrdered and Fallback. */
    method GetTopRankings(gameType: string, limit: int, cacheUp: bool, dbUp: bool, now: Timestamp)
      returns (r: seq<RankingEntry>)
      requires Valid()
      ensures r == TopRankings(boards, scores, gameType, limit, cacheUp, dbUp, now)
      ensures forall i :: 0 <= i < |r| ==> r[i].rank == i + 1
    {
      if cacheUp {
        var z := BoardOf(boards, gameType);
        var rankings := ReverseRange(z, 0, limit - 1);
        if |rankings| > 0 {
          r := [];
          var rank := 1;
          var i := 0;
          while i < |rankings|
            invariant 0 <= i <= |rankings| && rank == i + 1
            invariant r == CacheRankings(z, limit, now)[..i]
          {
            var nickname := rankings[i].name;
            var score := Score(z, nickname);
            r := r + [RankingEntry(nickname, if score.Some? then score.value else 0, rank, now)];
            rank := rank + 1;
            i := i + 1;
          }
          return;
        }
      }
      r := GetRankingsFromDatabase(gameType, limit, dbUp);
    }
  }
}
