/** The per-player snake game as values: the state record the server keeps for
    one client, and one tick of the simulation as a function of that record. */
module Game {
  import opened Grid

  /** The cell a snake starts from, and restarts from after a game over. */
  const Start: Cell := (5, 5)

  /** The state record of one player. `snake` is head-first; `direction` is the
      last accepted direction code. */
  datatype State = State(username: string, snake: seq<Cell>, score: nat, direction: string, food: Cell)

  /** The four direction codes a client may send. */
  predicate IsDirection(d: string) {
    d == "U" || d == "D" || d == "L" || d == "R"
  }

  /** `a` and `b` differ in exactly one coordinate, and there by exactly one. */
  predicate Adjacent(a: Cell, b: Cell) {
    (a.0 == b.0 && (a.1 - b.1 == 1 || b.1 - a.1 == 1)) ||
    (a.1 == b.1 && (a.0 - b.0 == 1 || b.0 - a.0 == 1))
  }

  /** The state a new session starts in, given the food cell chosen for it. */
  function InitialState(username: string, food: Cell): (r: State)
    ensures r.username == username && r.food == food && r.score == 0
    ensures r.snake == [Start] && IsDirection(r.direction)
    ensures NewHead(r) == (6, 5)
  {
    State(username, [Start], 0, "R", food)
  }

  /** The direction after receiving `data`: only an exact direction code
      replaces the current one. */
  function NextDirection(current: string, data: string): (r: string)
    ensures IsDirection(data) ==> r == data
    ensures r != current ==> r == data && IsDirection(data)
    ensures IsDirection(current) ==> IsDirection(r)
  {
    if IsDirection(data) then data else current
  }

  /** The cell one step from `head` in `direction`; U and D move along the
      second coordinate, L and R along the first. */
  function CalculateNewHead(head: Cell, direction: string): (r: Cell)
    ensures IsDirection(direction) <==> Adjacent(head, r)
    ensures !IsDirection(direction) ==> r == head
    ensures direction == "U" ==> r.0 == head.0 && r.1 < head.1
    ensures direction == "D" ==> r.0 == head.0 && r.1 > head.1
    ensures direction == "L" ==> r.1 == head.1 && r.0 < head.0
    ensures direction == "R" ==> r.1 == head.1 && r.0 > head.0
  {
    if direction == "U" then (head.0, head.1 - 1)
    else if direction == "D" then (head.0, head.1 + 1)
    else if direction == "L" then (head.0 - 1, head.1)
    else if direction == "R" then (head.0 + 1, head.1)
    else head
  }

  function Opposite(d: string): string
    requires IsDirection(d)
  {
    match d
    case "U" => "D"
    case "D" => "U"
    case "L" => "R"
    case _ => "L"
  }

  /** The move ends the game when the new head is a cell of the current snake
      (its tail included) or lies off the board. */
  function IsGameOver(newHead: Cell, snake: seq<Cell>, n: int): (over: bool)
    ensures over <==>
      (exists i :: 0 <= i < |snake| && snake[i] == newHead) ||
      newHead.0 < 0 || newHead.1 < 0 || n <= newHead.0 || n <= newHead.1
  {
    newHead in snake || !InBounds(newHead, n)
  }

  function NewHead(s: State): Cell
    requires |s.snake| >= 1
  {
    CalculateNewHead(s.snake[0], s.direction)
  }

  /** The tick from `s` resets the game. */
  predicate GameOver(s: State, n: int)
    requires |s.snake| >= 1
  {
    IsGameOver(NewHead(s), s.snake, n)
  }

  /** The tick from `s` moves the head onto the food. */
  predicate Eats(s: State, n: int)
    requires |s.snake| >= 1
  {
    !GameOver(s, n) && NewHead(s) == s.food
  }

  /** `choice` is a cell the food placer may return on the tick from `s`: on a
      game over it avoids the snake as it was before the reset, on eating it
      avoids the grown snake. On a plain move no food is placed. */
  predicate FoodChoiceOk(s: State, n: int, choice: Cell)
    requires |s.snake| >= 1
  {
    (GameOver(s, n) ==> InBounds(choice, n) && choice !in s.snake) &&
    (Eats(s, n) ==> InBounds(choice, n) && choice !in [NewHead(s)] + s.snake)
  }

  /** The food placer, if the tick from `s` runs it, has a free cell to find. */
  ghost predicate FoodPlaceable(s: State, n: int)
    requires |s.snake| >= 1
  {
    (GameOver(s, n) ==> HasFreeCell(s.snake, n)) &&
    (Eats(s, n) ==> HasFreeCell([NewHead(s)] + s.snake, n))
  }

  /** One tick, `choice` standing for the food placer's answer when it runs. */
  function Step(s: State, n: int, choice: Cell): (r: State)
    requires |s.snake| >= 1
    ensures |r.snake| >= 1
    ensures |r.snake| <= |s.snake| + 1
    ensures r.username == s.username && r.direction == s.direction
  {
    var h := NewHead(s);
    if IsGameOver(h, s.snake, n) then s.(snake := [Start], score := 0, food := choice)
    else if h == s.food then s.(snake := [h] + s.snake, score := s.score + 1, food := choice)
    else s.(snake := [h] + s.snake[..|s.snake| - 1])
  }

  /** `s` with the direction filter applied to the received `data`. */
  function Steer(s: State, data: string): (r: State)
    ensures r.username == s.username && r.snake == s.snake
    ensures r.score == s.score && r.food == s.food
    ensures IsDirection(data) ==> r.direction == data
    ensures !IsDirection(data) ==> r == s
  {
    s.(direction := NextDirection(s.direction, data))
  }

  /** `after` is a state one received message and one tick can lead to from `before`. */
  predicate Ticked(before: State, data: string, n: int, after: State) {
    && |before.snake| >= 1
    && after == Step(Steer(before, data), n, after.food)
    && FoodChoiceOk(Steer(before, data), n, after.food)
  }

  /** The invariant of a live state: a nonempty snake of distinct cells on the
      board, and food on the board. */
  predicate Inv(s: State, n: int) {
    |s.snake| >= 1 && Distinct(s.snake) && AllInBounds(s.snake, n) && InBounds(s.food, n)
  }

  /** The food is off the snake, except right after a reset whose food landed
      on the restart cell. */
  predicate FoodOk(s: State) {
    s.food !in s.snake || s.snake == [s.food]
  }

  // ---------------------------------------------------------------------------
  // Direction and movement

  lemma ReverseReturns(head: Cell, d: string)
    requires IsDirection(d)
    ensures CalculateNewHead(CalculateNewHead(head, d), Opposite(d)) == head
  {
  }

  /** Different direction codes lead to different cells. */
  lemma DirectionsDiffer(head: Cell, d1: string, d2: string)
    requires IsDirection(d1) && IsDirection(d2) && d1 != d2
    ensures CalculateNewHead(head, d1) != CalculateNewHead(head, d2)
  {
  }

  /** Turning back onto the cell the head just came from ends the game. */
  lemma ReversalCollides(snake: seq<Cell>, d: string, n: int)
    requires |snake| >= 2 && IsDirection(d)
    requires snake[0] == CalculateNewHead(snake[1], d)
    ensures IsGameOver(CalculateNewHead(snake[0], Opposite(d)), snake, n)
  {
  }

  /** A move onto the current tail cell ends the game, although a plain move
      would have vacated that cell. */
  lemma TailCollides(s: State, n: int, choice: Cell)
    requires |s.snake| >= 1 && NewHead(s) == s.snake[|s.snake| - 1]
    ensures GameOver(s, n)
    ensures Step(s, n, choice).snake == [Start]
  {
  }

  /** A message that is not a direction code changes nothing before the tick,
      which then advances in the old direction. */
  lemma IgnoredInputKeepsHeading(s: State, data: string, n: int, choice: Cell)
    requires |s.snake| >= 1 && !IsDirection(data)
    ensures Steer(s, data) == s
    ensures Step(Steer(s, data), n, choice) == Step(s, n, choice)
  {
  }

  // ---------------------------------------------------------------------------
  // The three outcomes of a tick

  lemma StepOnGameOver(s: State, n: int, choice: Cell)
    requires |s.snake| >= 1 && GameOver(s, n) && FoodChoiceOk(s, n, choice)
    ensures var r := Step(s, n, choice);
      && r.snake == [Start] && r.score == 0
      && r.username == s.username && r.direction == s.direction
      && InBounds(r.food, n) && r.food !in s.snake
  {
  }

  lemma StepOnEat(s: State, n: int, choice: Cell)
    requires |s.snake| >= 1 && Eats(s, n) && FoodChoiceOk(s, n, choice)
    ensures var r := Step(s, n, choice);
      && r.snake == [NewHead(s)] + s.snake && |r.snake| == |s.snake| + 1
      && r.score == s.score + 1
      && InBounds(r.food, n) && r.food !in r.snake
  {
  }

  lemma StepOnMove(s: State, n: int, choice: Cell)
    requires |s.snake| >= 1 && !GameOver(s, n) && !Eats(s, n)
    ensures var r := Step(s, n, choice);
      && r.snake == [NewHead(s)] + s.snake[..|s.snake| - 1] && |r.snake| == |s.snake|
      && r.score == s.score && r.food == s.food
      && (s.food !in s.snake ==> r.food !in r.snake)
  {
  }

  /** Without a game over, the snake grows by one cell exactly when the new head
      lands on the food, and otherwise keeps its length. */
  lemma StepGrowsIffEats(s: State, n: int, choice: Cell)
    requires |s.snake| >= 1 && !GameOver(s, n)
    ensures |Step(s, n, choice).snake| == |s.snake| + 1 <==> NewHead(s) == s.food
    ensures NewHead(s) != s.food ==> |Step(s, n, choice).snake| == |s.snake|
  {
  }

  /** The score goes up by one exactly when the food is eaten, drops to 0 on a
      game over and is otherwise kept. */
  lemma StepScore(s: State, n: int, choice: Cell)
    requires |s.snake| >= 1
    ensures Step(s, n, choice).score == s.score + 1 <==> Eats(s, n)
    ensures GameOver(s, n) ==> Step(s, n, choice).score == 0
    ensures !GameOver(s, n) && !Eats(s, n) ==> Step(s, n, choice).score == s.score
  {
  }

  /** After a game over the food is placed against the pre-reset snake, so it
      may land on the restart cell. */
  lemma ResetMayPlaceFoodOnStart()
    ensures var s := State("p", [(0, 0)], 3, "L", (1, 1));
      && GameOver(s, 20) && FoodChoiceOk(s, 20, Start)
      && Step(s, 20, Start).food in Step(s, 20, Start).snake
  {
  }

  // ---------------------------------------------------------------------------
  // Invariants

  lemma InitialInv(username: string, food: Cell, n: int)
    requires n > 5 && InBounds(food, n)
    ensures Inv(InitialState(username, food), n)
  {
  }

  /** A tick keeps the snake's cells distinct and on the board, and the food on
      the board, when the restart cell is on the board. */
  lemma StepPreservesInv(s: State, n: int, choice: Cell)
    requires n > 5 && Inv(s, n) && FoodChoiceOk(s, n, choice)
    ensures Inv(Step(s, n, choice), n)
  {
  }

  /** A live snake never holds more cells than the board has. */
  lemma SnakeFitsBoard(s: State, n: int)
    requires Inv(s, n)
    ensures |s.snake| <= n * n
  {
    assert InBounds(s.snake[0], n);
    LengthBound(s.snake, n);
  }

  /** A tick keeps the food off the snake, apart from a reset that puts the
      food on the single restart cell. */
  lemma StepKeepsFoodOk(s: State, n: int, choice: Cell)
    requires Inv(s, n) && FoodOk(s) && FoodChoiceOk(s, n, choice)
    ensures FoodOk(Step(s, n, choice))
  {
  }

  /** On a state that satisfies the invariant and leaves at least two cells of
      the board free, the food placer always has a free cell to find. */
  lemma {:induction false} RoomyStepIsPlaceable(s: State, n: int)
    requires Inv(s, n) && |s.snake| + 2 <= n * n
    ensures FoodPlaceable(s, n)
  {
    assert InBounds(s.snake[0], n);
    var nn: nat := n;
    if GameOver(s, n) {
      FreeCellWhenShort(s.snake, nn);
    }
    if Eats(s, n) {
      FreeCellWhenShort([NewHead(s)] + s.snake, nn);
    }
  }

  // ---------------------------------------------------------------------------
  // Scenarios

  /** A snake coiled in a square, heading into its own tail, is reset. */
  lemma CoiledSnakeResets()
    ensures var s := State("p", [(5, 5), (5, 6), (6, 6), (6, 5)], 4, "R", (0, 0));
      && GameOver(s, 20)
      && Step(s, 20, (1, 1)).snake == [Start] && Step(s, 20, (1, 1)).score == 0
  {
  }

  /** On a 20-cell board a head at (19, 10) moving right leaves the board. */
  lemma RightEdgeResets()
    ensures var s := State("p", [(19, 10)], 2, "R", (0, 0));
      && NewHead(s) == (20, 10) && GameOver(s, 20)
      && Step(s, 20, (1, 1)).snake == [Start] && Step(s, 20, (1, 1)).score == 0
  {
  }

  /** From the start cell, with food right of it, one tick eats the food. */
  lemma FirstBiteGrows(choice: Cell)
    requires FoodChoiceOk(State("p", [Start], 0, "R", (6, 5)), 20, choice)
    ensures var r := Step(State("p", [Start], 0, "R", (6, 5)), 20, choice);
      && r.snake == [(6, 5), (5, 5)] && r.score == 1
      && r.food != (6, 5) && r.food != (5, 5)
  {
  }
}
