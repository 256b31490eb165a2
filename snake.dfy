/** Snake on a 20 x 20 arena: one tick advances the head, checks walls and the body, and
    either grows onto the food or drops the tail. */
module Snake {

  const GridSize: int := 20

  /** A cell {x, y}, also used for the direction vector. */
  datatype Pos = Pos(x: int, y: int)

  datatype Status = Paused | Playing | GameOver

  /** The keys the key handler reacts to; every other key is OtherKey. */
  datatype Key = Space | ArrowUp | ArrowDown | ArrowLeft | ArrowRight | OtherKey

  const InitialSnake: seq<Pos> := [Pos(10, 10)]
  const InitialFood: Pos := Pos(15, 15)
  const InitialDirection: Pos := Pos(0, -1)

  predicate InBounds(p: Pos)
  {
    0 <= p.x < GridSize && 0 <= p.y < GridSize
  }

  /** One of the four unit steps. */
  predicate IsUnit(d: Pos)
  {
    d == Pos(0, -1) || d == Pos(0, 1) || d == Pos(-1, 0) || d == Pos(1, 0)
  }

  function Opposite(d: Pos): Pos
  {
    Pos(-d.x, -d.y)
  }

  /** Segments in bounds and pairwise distinct. */
  ghost predicate WellFormedSnake(snake: seq<Pos>)
  {
    && |snake| > 0
    && (forall i :: 0 <= i < |snake| ==> InBounds(snake[i]))
    && (forall i, j :: 0 <= i < j < |snake| ==> snake[i] != snake[j])
  }

  /** Cells one step apart horizontally or vertically. */
  predicate Orthogonal(a: Pos, b: Pos)
  {
    (a.x == b.x && (a.y - b.y == 1 || b.y - a.y == 1)) ||
    (a.y == b.y && (a.x - b.x == 1 || b.x - a.x == 1))
  }

  /** The head moved one step along the direction: for a unit direction, onto an orthogonal
      neighbour of the old head, from which the opposite direction leads back. */
  function NextHead(snake: seq<Pos>, direction: Pos): (h: Pos)
    requires |snake| > 0
    ensures h.x - snake[0].x == direction.x && h.y - snake[0].y == direction.y
    ensures IsUnit(direction) ==> Orthogonal(h, snake[0])
    ensures h.x + Opposite(direction).x == snake[0].x && h.y + Opposite(direction).y == snake[0].y
  {
    Pos(snake[0].x + direction.x, snake[0].y + direction.y)
  }

  /** `generateFood`'s do-while loop, with the random draws given in order: the first draw
      not on the snake. */
  method GenerateFood(currentSnake: seq<Pos>, draws: seq<Pos>) returns (food: Pos)
    requires exists i :: 0 <= i < |draws| && draws[i] !in currentSnake
    ensures food !in currentSnake
    ensures exists i :: 0 <= i < |draws| && food == draws[i]
              && forall j :: 0 <= j < i ==> draws[j] in currentSnake
  {
    var i := 0;
    food := draws[0];
    while food in currentSnake
      invariant 0 <= i < |draws| && food == draws[i]
      invariant forall j :: 0 <= j < i ==> draws[j] in currentSnake
      invariant exists k :: i <= k < |draws| && draws[k] !in currentSnake
      decreases |draws| - i
    {
      i := i + 1;
      food := draws[i];
    }
  }

  /** The key handler's direction rule: a vertical key only while moving horizontally, a
      horizontal key only while moving vertically. */
  function Steer(direction: Pos, key: Key): (r: Pos)
    ensures IsUnit(direction) ==> IsUnit(r) && r != Opposite(direction)
    ensures r == direction || (key == ArrowUp && r == Pos(0, -1) && direction.y == 0)
            || (key == ArrowDown && r == Pos(0, 1) && direction.y == 0)
            || (key == ArrowLeft && r == Pos(-1, 0) && direction.x == 0)
            || (key == ArrowRight && r == Pos(1, 0) && direction.x == 0)
  {
    match key
    case ArrowUp => if direction.y == 0 then Pos(0, -1) else direction
    case ArrowDown => if direction.y == 0 then Pos(0, 1) else direction
    case ArrowLeft => if direction.x == 0 then Pos(-1, 0) else direction
    case ArrowRight => if direction.x == 0 then Pos(1, 0) else direction
    case _ => direction
  }

  /** The rule compares against the pending direction, not the last step taken: two keys
      pressed between ticks turn an upward snake downward. */
  lemma TwoKeysReverse()
    ensures Steer(Steer(Pos(0, -1), ArrowLeft), ArrowDown) == Opposite(Pos(0, -1))
  {
  }

  class Game {
    var snake: seq<Pos>
    var food: Pos
    var direction: Pos
    var status: Status
    var score: nat

    ghost predicate Valid()
      reads this
    {
      && WellFormedSnake(snake)
      && InBounds(food)
      && food !in snake
      && IsUnit(direction)
      && score == 10 * (|snake| - 1)
    }

    /** The head enters the food on this tick. */
    predicate Eats()
      reads this
      requires |snake| > 0
    {
      var head := NextHead(snake, direction);
      InBounds(head) && head !in snake && head == food
    }

    constructor ()
      ensures Valid()
      ensures snake == InitialSnake && food == InitialFood && direction == InitialDirection
      ensures status == Paused && score == 0
    {
      snake := InitialSnake;
      food := InitialFood;
      direction := InitialDirection;
      status := Paused;
      score := 0;
    }

    /** `resetGame`. */
    method ResetGame()
      modifies this
      ensures Valid()
      ensures snake == InitialSnake && food == InitialFood && direction == InitialDirection
      ensures status == Paused && score == 0
    {
      snake := InitialSnake;
      food := InitialFood;
      direction := InitialDirection;
      status := Paused;
      score := 0;
    }

    /** `moveSnake`, one tick. The draws stand for the random cells `generateFood` tries when
        the snake eats; they are in the arena and one of them is free. */
    method MoveSnake(draws: seq<Pos>)
      requires Valid()
      requires forall i :: 0 <= i < |draws| ==> InBounds(draws[i])
      requires status == Playing && Eats() ==>
                 exists i :: 0 <= i < |draws| && draws[i] !in [food] + snake
      modifies this
      ensures Valid()
      ensures direction == old(direction)
      ensures old(status) != Playing ==>
                snake == old(snake) && food == old(food) && status == old(status) && score == old(score)
      ensures old(status) == Playing ==>
                var head := NextHead(old(snake), old(direction));
                if !InBounds(head) || head in old(snake) then
                  status == GameOver && snake == old(snake) && food == old(food) && score == old(score)
                else if head == old(food) then
                  status == Playing && snake == [head] + old(snake) && score == old(score) + 10
                  && food !in snake
                  && exists i :: 0 <= i < |draws| && food == draws[i]
                       && forall j :: 0 <= j < i ==> draws[j] in snake
                else
                  status == Playing && snake == [head] + old(snake)[..|old(snake)| - 1]
                  && |snake| == |old(snake)| && food == old(food) && score == old(score)
    {
      if status != Playing {
        return;
      }
      var head := NextHead(snake, direction);
      if !InBounds(head) {
        status := GameOver;
        return;
      }
      if head in snake {
        status := GameOver;
        return;
      }
      var newSnake := [head] + snake;
      if head == food {
        assert forall p :: p in [food] + snake <==> p in newSnake;
        score := score + 10;
        food := GenerateFood(newSnake, draws);
        snake := newSnake;
      } else {
        snake := newSnake[..|newSnake| - 1];
        assert snake == [head] + old(snake)[..|old(snake)| - 1];
      }
    }

    /** The key handler: Space starts a paused game; arrow keys steer, only while playing. */
    method KeyPress(key: Key)
      requires Valid()
      modifies this
      ensures Valid()
      ensures snake == old(snake) && food == old(food) && score == old(score)
      ensures old(status) == Paused && key == Space ==>
                status == Playing && direction == old(direction)
      ensures old(status) == Playing ==>
                status == Playing && direction == Steer(old(direction), key)
                && direction != Opposite(old(direction))
      ensures old(status) == GameOver || (old(status) == Paused && key != Space) ==>
                status == old(status) && direction == old(direction)
    {
      if status == Paused {
        if key == Space {
          status := Playing;
          return;
        }
      }
      if status != Playing {
        return;
      }
      direction := Steer(direction, key);
    }
  }
}
