/**
 * The browser snake game: a grid of tileCountX by tileCountY cells, a snake of
 * contiguous cells (head first), a direction (dx, dy), one piece of food and a score.
 * Each timer tick calls Update; the arrow keys steer.
 */
module Snake {

  datatype Cell = Cell(x: int, y: int)

  datatype KeyName = ArrowUp | ArrowDown | ArrowLeft | ArrowRight | OtherKey

  const Start := Cell(10, 10)
  const PointsPerFood := 10
  /** generateFood gives up after this many random cells. */
  const MaxAttempts := 100

  /** Stationary, or one step along an axis. */
  predicate IsDirection(dx: int, dy: int)
  {
    (dx == 0 && -1 <= dy <= 1) || (dy == 0 && (dx == 1 || dx == -1))
  }

  predicate Adjacent(a: Cell, b: Cell)
  {
    (a.x == b.x && (a.y - b.y == 1 || b.y - a.y == 1)) ||
    (a.y == b.y && (a.x - b.x == 1 || b.x - a.x == 1))
  }

  /** Each segment touches the next one. */
  predicate Contiguous(s: seq<Cell>)
  {
    forall i :: 0 <= i < |s| - 1 ==> Adjacent(s[i], s[i + 1])
  }

  predicate Distinct(s: seq<Cell>)
  {
    forall i, j :: 0 <= i < j < |s| ==> s[i] != s[j]
  }

  /** The direction after a key press while playing: an arrow that would turn the snake
      straight back is ignored, any other key changes nothing. */
  function Steer(dx: int, dy: int, key: KeyName): (d: (int, int))
    requires IsDirection(dx, dy)
    ensures IsDirection(d.0, d.1)
    ensures d == (dx, dy) || d != (-dx, -dy)
    ensures key == OtherKey ==> d == (dx, dy)
  {
    match key
    case ArrowUp => if dy != 1 then (0, -1) else (dx, dy)
    case ArrowDown => if dy != -1 then (0, 1) else (dx, dy)
    case ArrowLeft => if dx != 1 then (-1, 0) else (dx, dy)
    case ArrowRight => if dx != -1 then (1, 0) else (dx, dy)
    case OtherKey => (dx, dy)
  }

  /** Two presses between ticks do turn the snake around: moving right, Up then Left
      leaves it moving left, so its head next steps onto its neck. */
  lemma TwoKeysReverse()
    ensures var d := Steer(1, 0, ArrowUp); Steer(d.0, d.1, ArrowLeft) == (-1, 0)
  {
  }

  /**
   * c is what generateFood picks from the random cells rolls: the first roll among the
   * first MaxAttempts not on the snake, or the last roll tried if every one of them is.
   */
  predicate ChosenFood(snake: seq<Cell>, rolls: seq<Cell>, c: Cell)
  {
    exists k :: 0 <= k < MaxAttempts && k < |rolls| && c == rolls[k] &&
      (forall i :: 0 <= i < k ==> rolls[i] in snake) &&
      (c !in snake || k == MaxAttempts - 1)
  }

  /** A new head next to the old one and off the body keeps the snake contiguous and
      free of repeated cells. */
  lemma PushHead(s: seq<Cell>, head: Cell)
    requires |s| >= 1 && Contiguous(s) && Distinct(s)
    requires Adjacent(head, s[0]) && head !in s[1..]
    ensures Contiguous([head] + s) && Distinct([head] + s)
  {
    var t := [head] + s;
    assert head != s[0];
    forall i, j | 0 <= i < j < |t| ensures t[i] != t[j] {
      if i == 0 {
        assert t[j] == s[j - 1];
        assert j - 1 == 0 || t[j] in s[1..];
      }
    }
  }

  /** Dropping the tail keeps the snake contiguous and free of repeated cells. */
  lemma DropTail(s: seq<Cell>)
    requires |s| >= 2 && Contiguous(s) && Distinct(s)
    ensures Contiguous(s[..|s| - 1]) && Distinct(s[..|s| - 1])
  {
  }

  class SnakeGame {
    const tileCountX: int
    const tileCountY: int
    var snake: seq<Cell>
    var food: Cell
    var dx: int
    var dy: int
    var score: int
    var isPlaying: bool

    predicate OnGrid(c: Cell)
      reads this
    {
      0 <= c.x < tileCountX && 0 <= c.y < tileCountY
    }

    /** What Math.floor(Math.random() * tileCount) can produce: enough cells for every attempt, all on the grid. */
    predicate RollsOk(rolls: seq<Cell>)
      reads this
    {
      |rolls| >= MaxAttempts && forall i :: 0 <= i < |rolls| ==> OnGrid(rolls[i])
    }

    /** Every segment lies inside the grid. */
    predicate InGrid()
      reads this
    {
      forall i :: 0 <= i < |snake| ==> OnGrid(snake[i])
    }

    /** The length grows by one per food eaten, exactly as the score grows by ten. */
    ghost predicate Valid()
      reads this
    {
      |snake| >= 1 && score == PointsPerFood * (|snake| - 1) &&
      IsDirection(dx, dy) && Contiguous(snake) && Distinct(snake)
    }

    /** The score is a non-negative multiple of ten, and the snake is one segment per
        ten points longer than at the start. */
    lemma ScoreCountsFood()
      requires Valid()
      ensures score >= 0 && score % PointsPerFood == 0
      ensures |snake| == 1 + score / PointsPerFood
    {
    }

    /** The chosen food is on the grid, and off the snake whenever some attempt found a free cell. */
    lemma ChosenFoodFree(rolls: seq<Cell>, c: Cell)
      requires RollsOk(rolls) && ChosenFood(snake, rolls, c)
      ensures OnGrid(c)
      ensures (exists i :: 0 <= i < MaxAttempts && rolls[i] !in snake) ==> c !in snake
    {
      var k :| 0 <= k < MaxAttempts && k < |rolls| && c == rolls[k] &&
        (forall i :: 0 <= i < k ==> rolls[i] in snake) && (c !in snake || k == MaxAttempts - 1);
      if exists i :: 0 <= i < MaxAttempts && rolls[i] !in snake {
        var i :| 0 <= i < MaxAttempts && rolls[i] !in snake;
        assert i >= k;
      }
    }

    constructor (tileCountX: int, tileCountY: int, rolls: seq<Cell>)
      requires |rolls| >= MaxAttempts
      requires forall i :: 0 <= i < |rolls| ==> 0 <= rolls[i].x < tileCountX && 0 <= rolls[i].y < tileCountY
      ensures this.tileCountX == tileCountX && this.tileCountY == tileCountY
      ensures Valid() && !isPlaying
      ensures snake == [Start] && dx == 0 && dy == 0 && score == 0
      ensures ChosenFood(snake, rolls, food) && OnGrid(food)
    {
      this.tileCountX := tileCountX;
      this.tileCountY := tileCountY;
      snake := [Start];
      dx, dy := 0, 0;
      score := 0;
      isPlaying := false;
      new;
      GenerateFood(rolls);
    }

    /** generateFood: up to MaxAttempts random cells, each checked against every segment. */
    method GenerateFood(rolls: seq<Cell>)
      requires RollsOk(rolls)
      modifies this`food
      ensures ChosenFood(snake, rolls, food) && OnGrid(food)
    {
      var newFood := rolls[0];
      var isColliding := true;
      var attempts := 0;
      while isColliding && attempts < MaxAttempts
        invariant 0 <= attempts <= MaxAttempts
        invariant isColliding ==> forall i :: 0 <= i < attempts ==> rolls[i] in snake
        invariant !isColliding ==> 0 < attempts && newFood == rolls[attempts - 1] && newFood !in snake &&
                                   forall i :: 0 <= i < attempts - 1 ==> rolls[i] in snake
        invariant isColliding && attempts > 0 ==> newFood == rolls[attempts - 1]
        invariant attempts == 0 ==> isColliding
        decreases MaxAttempts - attempts
      {
        newFood := rolls[attempts];
        isColliding := false;
        var j := 0;
        while j < |snake|
          invariant 0 <= j <= |snake|
          invariant !isColliding ==> newFood !in snake[..j]
          invariant isColliding ==> newFood in snake
        {
          if newFood == snake[j] {
            isColliding := true;
            break;
          }
          j := j + 1;
        }
        assert !isColliding ==> snake[..j] == snake;
        attempts := attempts + 1;
      }
      food := newFood;
      assert ChosenFood(snake, rolls, food) by {
        assert 0 <= attempts - 1 < MaxAttempts && food == rolls[attempts - 1];
      }
    }

    /** The arrow-key handler: ignored unless playing; otherwise Steer. */
    method KeyDown(key: KeyName)
      requires Valid()
      modifies this`dx, this`dy
      ensures Valid()
      ensures !isPlaying ==> dx == old(dx) && dy == old(dy)
      ensures isPlaying ==> (dx, dy) == Steer(old(dx), old(dy), key)
    {
      if !isPlaying {
        return;
      }
      match key {
        case ArrowUp =>
          if dy != 1 {
            dx, dy := 0, -1;
          }
        case ArrowDown =>
          if dy != -1 {
            dx, dy := 0, 1;
          }
        case ArrowLeft =>
          if dx != 1 {
            dx, dy := -1, 0;
          }
        case ArrowRight =>
          if dx != -1 {
            dx, dy := 1, 0;
          }
        case OtherKey =>
      }
    }

    /** startGame: a no-op while already playing. */
    method StartGame()
      modifies this`isPlaying
      ensures isPlaying
    {
      if isPlaying {
        return;
      }
      isPlaying := true;
    }

    /** pauseGame. */
    method PauseGame()
      modifies this`isPlaying
      ensures !isPlaying
    {
      isPlaying := false;
    }

    /** resetGame: stops play and restores the starting snake, direction and score. */
    method ResetGame(rolls: seq<Cell>)
      requires RollsOk(rolls)
      modifies this
      ensures Valid() && !isPlaying
      ensures snake == [Start] && dx == 0 && dy == 0 && score == 0
      ensures ChosenFood(snake, rolls, food) && OnGrid(food)
    {
      PauseGame();
      snake := [Start];
      dx, dy := 0, 0;
      score := 0;
      GenerateFood(rolls);
    }

    /** gameOver: play stops and nothing else changes. */
    method GameOver()
      modifies this`isPlaying
      ensures !isPlaying
    {
      isPlaying := false;
    }

    /** update's move once the head is known to be free: push the head; on the food keep
        the tail, score and choose new food, otherwise drop the tail. */
    method Advance(head: Cell, rolls: seq<Cell>)
      requires Valid() && RollsOk(rolls)
      requires OnGrid(head) && Adjacent(head, snake[0]) && head !in snake[1..]
      modifies this`snake, this`food, this`score
      ensures Valid()
      ensures old(InGrid()) ==> InGrid()
      ensures head == old(food) ==>
        snake == [head] + old(snake) && score == old(score) + PointsPerFood && ChosenFood(snake, rolls, food)
      ensures head != old(food) ==>
        snake == [head] + old(snake)[..|old(snake)| - 1] && score == old(score) && food == old(food)
    {
      var before := snake;
      PushHead(before, head);
      snake := [head] + snake;
      if head == food {
        score := score + PointsPerFood;
        GenerateFood(rolls);
      } else {
        DropTail([head] + before);
        snake := snake[..|snake| - 1];
        assert snake == [head] + before[..|before| - 1];
      }
    }

    /** update's self-collision scan: does the cell lie on a segment after the head? */
    method HitsBody(head: Cell) returns (hit: bool)
      requires |snake| >= 1
      ensures hit <==> head in snake[1..]
    {
      var i := 1;
      while i < |snake|
        invariant 1 <= i <= |snake|
        invariant head !in snake[1..i]
      {
        if head == snake[i] {
          assert snake[1..][i - 1] == head;
          return true;
        }
        i := i + 1;
      }
      assert snake[1..i] == snake[1..];
      return false;
    }

    /**
     * One tick. Nothing happens unless playing and moving. A head off the grid, or on
     * any segment after the head (the tail included), ends the game with the snake and
     * score as they were. Otherwise the head is pushed; on the food the snake keeps its
     * tail, scores ten and new food is chosen, else the tail is dropped.
     */
    method Update(rolls: seq<Cell>)
      requires Valid() && RollsOk(rolls)
      modifies this`snake, this`food, this`score, this`isPlaying
      ensures Valid()
      ensures old(InGrid()) ==> InGrid()
      ensures !old(isPlaying) || (dx == 0 && dy == 0) ==>
        snake == old(snake) && food == old(food) && score == old(score) && isPlaying == old(isPlaying)
      ensures old(isPlaying) && (dx != 0 || dy != 0) ==>
        var head := Cell(old(snake)[0].x + dx, old(snake)[0].y + dy);
        if !OnGrid(head) || head in old(snake)[1..] then
          !isPlaying && snake == old(snake) && score == old(score) && food == old(food)
        else if head == old(food) then
          isPlaying && snake == [head] + old(snake) && score == old(score) + PointsPerFood &&
          ChosenFood(snake, rolls, food)
        else
          isPlaying && snake == [head] + old(snake)[..|old(snake)| - 1] && score == old(score) &&
          food == old(food)
    {
      if !isPlaying {
        return;
      }
      if dx == 0 && dy == 0 {
        return;
      }
      var head := Cell(snake[0].x + dx, snake[0].y + dy);
      if head.x < 0 || head.x >= tileCountX || head.y < 0 || head.y >= tileCountY {
        GameOver();
        return;
      }
      var hit := HitsBody(head);
      if hit {
        GameOver();
        return;
      }
      assert Adjacent(head, snake[0]);
      Advance(head, rolls);
    }
  }
}
