/**
 * A Redis sorted set (ZSET) as Redis keeps it: the members in ascending order of
 * (score, member name), names compared byte-wise, which for UTF-8 text is code-point
 * order. Each name occurs at most once.
 */
module SortedSet {
  import opened Wrappers

  datatype Member = Member(name: string, score: int)

  /** Strict lexicographic order on names. */
  predicate LexLess(a: string, b: string)
    decreases |a|
  {
    if a == [] then b != []
    else if b == [] then false
    else if a[0] != b[0] then a[0] < b[0]
    else LexLess(a[1..], b[1..])
  }

  lemma {:induction false} LexIrreflexive(a: string)
    ensures !LexLess(a, a)
    decreases |a|
  {
    if a != [] {
      LexIrreflexive(a[1..]);
    }
  }

  lemma {:induction false} LexTransitive(a: string, b: string, c: string)
    requires LexLess(a, b) && LexLess(b, c)
    ensures LexLess(a, c)
    decreases |a|
  {
    if a != [] && a[0] == b[0] && b[0] == c[0] {
      LexTransitive(a[1..], b[1..], c[1..]);
    }
  }

  lemma {:induction false} LexTotal(a: string, b: string)
    requires a != b
    ensures LexLess(a, b) || LexLess(b, a)
    decreases |a|
  {
    if a != [] && b != [] && a[0] == b[0] {
      assert a == [a[0]] + a[1..] && b == [b[0]] + b[1..];
      LexTotal(a[1..], b[1..]);
    }
  }

  /** a ranks strictly lower than b. */
  predicate Below(a: Member, b: Member)
  {
    a.score < b.score || (a.score == b.score && LexLess(a.name, b.name))
  }

  lemma BelowIrreflexive(a: Member)
    ensures !Below(a, a)
  {
    LexIrreflexive(a.name);
  }

  lemma BelowTransitive(a: Member, b: Member, c: Member)
    requires Below(a, b) && Below(b, c)
    ensures Below(a, c)
  {
    if a.score == b.score && b.score == c.score {
      LexTransitive(a.name, b.name, c.name);
    }
  }

  lemma BelowAsymmetric(a: Member, b: Member)
    requires Below(a, b)
    ensures !Below(b, a)
  {
    if Below(b, a) {
      BelowTransitive(a, b, a);
      BelowIrreflexive(a);
    }
  }

  lemma BelowTotal(a: Member, b: Member)
    requires a.name != b.name
    ensures Below(a, b) || Below(b, a)
  {
    LexTotal(a.name, b.name);
  }

  /** Ascending by (score, name), and no name twice. */
  predicate Valid(z: seq<Member>)
  {
    (forall i, j :: 0 <= i < j < |z| ==> Below(z[i], z[j])) &&
    (forall i, j :: 0 <= i < j < |z| ==> z[i].name != z[j].name)
  }

  lemma ValidHead(z: seq<Member>)
    requires Valid(z) && z != []
    ensures Valid(z[1..])
    ensures forall m :: m in z[1..] ==> Below(z[0], m) && z[0].name != m.name
  {
    forall m | m in z[1..]
      ensures Below(z[0], m) && z[0].name != m.name
    {
      var k :| 0 <= k < |z[1..]| && z[1..][k] == m;
      assert z[k + 1] == m;
    }
  }

  lemma ValidCons(x: Member, r: seq<Member>)
    requires Valid(r)
    requires forall m :: m in r ==> Below(x, m) && x.name != m.name
    ensures Valid([x] + r)
  {
    var z := [x] + r;
    forall i, j | 0 <= i < j < |z|
      ensures Below(z[i], z[j]) && z[i].name != z[j].name
    {
      assert z[j] == r[j - 1];
      if i == 0 {
        assert r[j - 1] in r;
      } else {
        assert z[i] == r[i - 1];
      }
    }
  }

  /** Two members of a valid set with the same name are the same member. */
  lemma NameDetermines(z: seq<Member>, a: Member, b: Member)
    requires Valid(z) && a in z && b in z && a.name == b.name
    ensures a == b
  {
    var i :| 0 <= i < |z| && z[i] == a;
    var j :| 0 <= j < |z| && z[j] == b;
  }

  /** ZSCORE: the score stored for name n, if n is a member. */
  function Score(z: seq<Member>, n: string): (r: Option<int>)
    ensures r.None? <==> (forall m :: m in z ==> m.name != n)
    ensures r.Some? ==> Member(n, r.value) in z
  {
    if z == [] then None
    else
      assert z == [z[0]] + z[1..];
      if z[0].name == n then Some(z[0].score) else Score(z[1..], n)
  }

  /** In a valid set, a member's name looks up exactly its score. */
  lemma ScoreOfMember(z: seq<Member>, m: Member)
    requires Valid(z) && m in z
    ensures Score(z, m.name) == Some(m.score)
  {
    NameDetermines(z, m, Member(m.name, Score(z, m.name).value));
  }

  /** Removes the member named n, if there is one. */
  function Remove(z: seq<Member>, n: string): (r: seq<Member>)
    requires Valid(z)
    ensures Valid(r)
    ensures forall m :: m in r <==> m in z && m.name != n
    ensures |r| == if Score(z, n).Some? then |z| - 1 else |z|
  {
    if z == [] then []
    else
      ValidHead(z);
      assert z == [z[0]] + z[1..];
      if z[0].name == n then Remove(z[1..], n)
      else
        ValidCons(z[0], Remove(z[1..], n));
        [z[0]] + Remove(z[1..], n)
  }

  lemma InsertFront(z: seq<Member>, m: Member)
    requires Valid(z)
    requires forall x :: x in z ==> x.name != m.name
    requires z == [] || Below(m, z[0])
    ensures Valid([m] + z)
  {
    if z != [] {
      ValidHead(z);
      assert z == [z[0]] + z[1..];
      forall x | x in z
        ensures Below(m, x)
      {
        if x != z[0] {
          BelowTransitive(m, z[0], x);
        }
      }
    }
    ValidCons(m, z);
  }

  /** Places m, whose name is not yet a member, at its rank. */
  function Insert(z: seq<Member>, m: Member): (r: seq<Member>)
    requires Valid(z)
    requires forall x :: x in z ==> x.name != m.name
    ensures Valid(r)
    ensures forall x :: x in r <==> x in z || x == m
    ensures |r| == |z| + 1
  {
    if z == [] || Below(m, z[0]) then
      InsertFront(z, m);
      [m] + z
    else
      assert z == [z[0]] + z[1..];
      assert z[0] in z;
      BelowTotal(z[0], m);
      ValidHead(z);
      ValidCons(z[0], Insert(z[1..], m));
      [z[0]] + Insert(z[1..], m)
  }

  /** ZADD: sets n's score to s, whether or not n was a member and whatever its old score. */
  function Add(z: seq<Member>, n: string, s: int): (r: seq<Member>)
    requires Valid(z)
    ensures Valid(r)
    ensures forall x :: x in r <==> (x in z && x.name != n) || x == Member(n, s)
    ensures Score(r, n) == Some(s)
    ensures |r| == if Score(z, n).Some? then |z| else |z| + 1
  {
    var r := Insert(Remove(z, n), Member(n, s));
    ScoreOfMember(r, Member(n, s));
    r
  }

  /** Two valid sets with the same members are the same sequence. */
  lemma {:induction false} SameMembers(a: seq<Member>, b: seq<Member>)
    requires Valid(a) && Valid(b)
    requires forall m :: m in a <==> m in b
    ensures a == b
    decreases |a|
  {
    if a != [] {
      assert a[0] in b;
    }
    if b != [] {
      assert b[0] in a;
    }
    if a != [] {
      ValidHead(a);
      ValidHead(b);
      assert a == [a[0]] + a[1..] && b == [b[0]] + b[1..];
      assert a[0] in b && b[0] in a;
      if a[0] != b[0] {
        assert Below(b[0], a[0]) && Below(a[0], b[0]);
        BelowAsymmetric(a[0], b[0]);
      }
      BelowIrreflexive(a[0]);
      forall m
        ensures m in a[1..] <==> m in b[1..]
      {
        if m in a[1..] {
          assert Below(a[0], m);
          assert m in a && m != b[0];
        }
        if m in b[1..] {
          assert Below(b[0], m);
          assert m in b && m != a[0];
        }
      }
      SameMembers(a[1..], b[1..]);
    }
  }

  /** How many entries a leaderboard keeps. */
  const Capacity := 1000

  lemma ValidCut(z: seq<Member>, a: int, b: int)
    requires Valid(z) && 0 <= a <= b <= |z|
    ensures Valid(z[..a] + z[b..])
  {
    var r := z[..a] + z[b..];
    forall i | 0 <= i < |r|
      ensures r[i] == z[if i < a then i else i - a + b]
    {
    }
  }

  /**
   * ZREMRANGEBYRANK key start stop: removes the members of ranks start..stop inclusive,
   * rank 0 being the lowest. As in Redis, a negative index counts from the end, start is
   * then clamped to 0 and stop to the last rank, and an empty range removes nothing.
   */
  function RemoveRangeByRank(z: seq<Member>, start: int, stop: int): (r: seq<Member>)
    requires Valid(z)
    ensures Valid(r)
    ensures |r| <= |z|
    ensures forall m :: m in r ==> m in z
  {
    var len := |z|;
    var lo := if start < 0 then len + start else start;
    var hi := if stop < 0 then len + stop else stop;
    var lo' := if lo < 0 then 0 else lo;
    if lo' > hi || lo' >= len then z
    else
      var hi' := if hi >= len then len - 1 else hi;
      ValidCut(z, lo', hi' + 1);
      z[..lo'] + z[hi' + 1..]
  }

  /** The leaderboard trim `removeRange(key, 0, -1001)`: keeps the Capacity highest-ranked members. */
  function Trim(z: seq<Member>): (r: seq<Member>)
    requires Valid(z)
    ensures Valid(r)
    ensures |r| <= Capacity
    ensures |z| <= Capacity ==> r == z
    ensures |z| > Capacity ==> r == z[|z| - Capacity..]
    ensures forall m :: m in r ==> m in z
  {
    var r := RemoveRangeByRank(z, 0, -(Capacity + 1));
    assert |z| > Capacity ==> r == z[..0] + z[|z| - Capacity..];
    r
  }

  /** Every member the trim drops ranks below every member it keeps. */
  lemma TrimDropsLowest(z: seq<Member>)
    requires Valid(z)
    ensures forall x, y :: x in z && x !in Trim(z) && y in Trim(z) ==> Below(x, y)
  {
    if |z| > Capacity {
      var k := |z| - Capacity;
      forall x, y | x in z && x !in Trim(z) && y in Trim(z)
        ensures Below(x, y)
      {
        var i :| 0 <= i < |z| && z[i] == x;
        var j :| 0 <= j < |z[k..]| && z[k..][j] == y;
        assert z[k + j] == y;
      }
    }
  }

  /** The members from the highest rank down. */
  function Reverse(z: seq<Member>): (r: seq<Member>)
    ensures |r| == |z|
    ensures forall i :: 0 <= i < |z| ==> r[i] == z[|z| - 1 - i]
  {
    seq(|z|, i requires 0 <= i < |z| => z[|z| - 1 - i])
  }

  /**
   * ZREVRANGE key start stop: the members of ranks start..stop inclusive counted from the
   * highest, highest first, with the same index normalisation as RemoveRangeByRank.
   */
  function ReverseRange(z: seq<Member>, start: int, stop: int): (r: seq<Member>)
    ensures |r| <= |z|
    ensures forall m :: m in r ==> m in z
    ensures Valid(z) ==> forall i, j :: 0 <= i < j < |r| ==> Below(r[j], r[i])
  {
    var len := |z|;
    var lo := if start < 0 then len + start else start;
    var hi := if stop < 0 then len + stop else stop;
    var lo' := if lo < 0 then 0 else lo;
    if lo' > hi || lo' >= len then []
    else
      var hi' := if hi >= len then len - 1 else hi;
      ReverseSlice(z, lo', hi' + 1);
      Reverse(z)[lo'..hi' + 1]
  }

  /** A slice of the reversed set holds members of the set, highest first. */
  lemma ReverseSlice(z: seq<Member>, a: int, b: int)
    requires 0 <= a <= b <= |z|
    ensures forall m :: m in Reverse(z)[a..b] ==> m in z
    ensures Valid(z) ==> forall i, j :: 0 <= i < j < b - a ==> Below(Reverse(z)[a..b][j], Reverse(z)[a..b][i])
  {
    var r := Reverse(z)[a..b];
    var len := |z|;
    assert forall i :: 0 <= i < |r| ==> r[i] == z[len - 1 - (a + i)];
    forall m | m in r ensures m in z {
      var i :| 0 <= i < |r| && r[i] == m;
      assert z[len - 1 - (a + i)] == m;
    }
  }

  /**
   * The top-`limit` read `reverseRange(key, 0, limit - 1)`: for limit >= 1 the limit
   * highest-ranked members (all of them if fewer); for limit <= 0 the stop index is
   * negative and counts from the end, so all but the lowest -limit members come back,
   * and limit == 0 returns the whole set.
   */
  lemma TopRange(z: seq<Member>, limit: int)
    ensures limit >= 1 ==>
      ReverseRange(z, 0, limit - 1) == Reverse(z)[..if limit < |z| then limit else |z|]
    ensures limit <= 0 ==>
      ReverseRange(z, 0, limit - 1) == Reverse(z)[..if |z| + limit > 0 then |z| + limit else 0]
    ensures limit == 0 ==> ReverseRange(z, 0, limit - 1) == Reverse(z)
  {
  }

  /** The leaderboard update: ZADD, then the trim. */
  function Update(z: seq<Member>, n: string, s: int): (r: seq<Member>)
    requires Valid(z)
    ensures Valid(r)
    ensures |r| <= Capacity
  {
    Trim(Add(z, n, s))
  }

  /**
   * Last write wins: after the update n's score is s, even when s is lower than the old
   * score, unless the trim evicted n, which happens only when the board is full and
   * (n, s) ranks below every member kept.
   */
  lemma LastWriteWins(z: seq<Member>, n: string, s: int)
    requires Valid(z)
    ensures var u := Update(z, n, s);
      Score(u, n) == Some(s) ||
      (Score(u, n) == None && |u| == Capacity && forall m :: m in u ==> Below(Member(n, s), m))
  {
    var a := Add(z, n, s);
    var u := Trim(a);
    assert u == Update(z, n, s);
    var me := Member(n, s);
    if Score(u, n).Some? {
      var m := Member(n, Score(u, n).value);
      assert m in a;
    } else {
      assert me in a && me !in u;
      var i :| 0 <= i < |a| && a[i] == me;
      var k := |a| - Capacity;
      assert forall j :: 0 <= j < |a| && k <= j ==> a[j] in u;
      EvictedRanksLowest(a, i, k);
    }
  }

  /** A member below the cut point k ranks below every member from k on, and shares no
      name with them. */
  lemma EvictedRanksLowest(a: seq<Member>, i: int, k: int)
    requires Valid(a) && 0 <= i < k <= |a|
    ensures forall m :: m in a[k..] ==> Below(a[i], m) && m.name != a[i].name
  {
    forall m | m in a[k..]
      ensures Below(a[i], m) && m.name != a[i].name
    {
      var j :| 0 <= j < |a[k..]| && a[k..][j] == m;
      assert a[k + j] == m;
    }
  }

  /** Every other member keeps its score, unless the update filled the board and evicted it. */
  lemma OthersKeepScore(z: seq<Member>, n: string, s: int, other: string)
    requires Valid(z) && other != n
    ensures var u := Update(z, n, s);
      Score(u, other) == Score(z, other) || (Score(u, other) == None && |u| == Capacity)
  {
    var a := Add(z, n, s);
    var u := Trim(a);
    assert u == Update(z, n, s);
    if Score(u, other).Some? {
      var m := Member(other, Score(u, other).value);
      assert m in a;
      assert m in z;
      ScoreOfMember(z, m);
    } else if |a| <= Capacity {
      assert u == a;
    }
  }

  /**
   * Applying the same update twice leaves the board as applying it once, as happens
   * when a submission updates the cache directly and a consumer replays its event.
   */
  lemma UpdateIdempotent(z: seq<Member>, n: string, s: int)
    requires Valid(z)
    ensures Update(Update(z, n, s), n, s) == Update(z, n, s)
  {
    var u := Update(z, n, s);
    var me := Member(n, s);
    LastWriteWins(z, n, s);
    if Score(u, n) == Some(s) {
      var a2 := Add(u, n, s);
      forall x
        ensures x in a2 <==> x in u
      {
        if x in u && x.name == n {
          NameDetermines(u, x, me);
        }
      }
      SameMembers(a2, u);
    } else {
      var r := Remove(u, n);
      SameMembers(r, u);
      assert u[0] in u;
      assert Insert(u, me) == [me] + u;
      assert Add(u, n, s) == [me] + u;
      assert ([me] + u)[1..] == u;
    }
  }
}
