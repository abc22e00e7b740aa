/** The server side of one game: the mutable state record of a player and the
    server operations that create it and advance it tick by tick. */
module Server {
  import opened Grid
  import opened Game

  /** The state record of one player, updated in place by the server. */
  class GameState {
    var username: string
    var snake: seq<Cell>
    var score: nat
    var direction: string
    var food: Cell

    constructor (username: string, food: Cell)
      ensures Model() == InitialState(username, food)
    {
      this.username := username;
      snake := [Start];
      score := 0;
      direction := "R";
      this.food := food;
    }

    /** The record as a value; this is also the whole document sent to the
        client after each tick. */
    function Model(): State
      reads this
    {
      State(username, snake, score, direction, food)
    }
  }

  class SnakeServer {
    /** The side of the square board. */
    const gridSize: int

    constructor (gridSize: int)
      ensures this.gridSize == gridSize
    {
      this.gridSize := gridSize;
    }

    /** Some cell of the board that is not in `snake`; which one is left open,
        as the source draws it at random. */
    method GenerateFoodPosition(snake: seq<Cell>) returns (p: Cell)
      requires HasFreeCell(snake, gridSize)
      ensures InBounds(p, gridSize) && p !in snake
    {
      ghost var free :| InBounds(free, gridSize) && free !in snake;
      assert free == (free.0, free.1);
      var x, y :| 0 <= x < gridSize && 0 <= y < gridSize && (x, y) !in snake;
      p := (x, y);
    }

    /** A fresh record for a newly connected player. */
    method NewGameState(username: string) returns (g: GameState)
      requires gridSize >= 1
      ensures fresh(g)
      ensures g.Model() == InitialState(username, g.food)
      ensures InBounds(g.food, gridSize) && g.food != Start
    {
      assert InBounds((0, 0), gridSize) && (0, 0) !in [Start];
      var food := GenerateFoodPosition([Start]);
      g := new GameState(username, food);
    }

    /** One tick: reset on a collision, otherwise move the head forward and
        either grow onto the food or drop the tail. */
    method UpdateSnake(g: GameState)
      requires |g.snake| >= 1 && FoodPlaceable(g.Model(), gridSize)
      modifies g
      ensures g.Model() == Step(old(g.Model()), gridSize, g.food)
      ensures FoodChoiceOk(old(g.Model()), gridSize, g.food)
    {
      var snake := g.snake;
      var head := snake[0];
      var direction := g.direction;
      var newHead := CalculateNewHead(head, direction);

      if IsGameOver(newHead, snake, gridSize) {
        g.snake := [Start];
        g.score := 0;
        // `snake` still holds the cells from before the reset
        g.food := GenerateFoodPosition(snake);
        return;
      }

      g.snake := [newHead] + g.snake;

      if newHead == g.food {
        g.score := g.score + 1;
        g.food := GenerateFoodPosition(g.snake);
      } else {
        g.snake := g.snake[..|g.snake| - 1];
      }
    }

    /** What the session does with one received message: take it as the new
        direction if it is exactly a direction code, then run one tick. */
    method ApplyMessage(g: GameState, data: string)
      requires |g.snake| >= 1 && FoodPlaceable(Steer(g.Model(), data), gridSize)
      modifies g
      ensures Ticked(old(g.Model()), data, gridSize, g.Model())
    {
      if IsDirection(data) {
        g.direction := data;
      }
      UpdateSnake(g);
    }

    /** One session: a fresh record for `username`, then one tick per received
        message until an empty message (the peer closed the stream). The model
        stops early once fewer than two board cells are free, where the food
        placer could face a full board. Returns the states sent back, one per tick. */
    method HandleClient(username: string, received: seq<string>) returns (sent: seq<State>)
      requires gridSize > 5
      ensures |sent| <= |received|
      ensures forall k :: 0 <= k < |sent| ==> received[k] != ""
      ensures |sent| < |received| && received[|sent|] != "" ==>
        |sent| > 0 && |sent[|sent| - 1].snake| + 2 > gridSize * gridSize
      ensures forall k :: 0 <= k < |sent| ==> Inv(sent[k], gridSize) && sent[k].username == username
      ensures forall k :: 0 <= k < |sent| ==> FoodOk(sent[k]) && IsDirection(sent[k].direction)
      ensures |sent| > 0 ==>
        exists food :: InBounds(food, gridSize) && food != Start &&
          Ticked(InitialState(username, food), received[0], gridSize, sent[0])
      ensures forall k :: 0 < k < |sent| ==> Ticked(sent[k - 1], received[k], gridSize, sent[k])
    {
      var g := NewGameState(username);
      ghost var initial := g.Model();
      InitialInv(username, g.food, gridSize);
      assert gridSize * gridSize >= 6 * gridSize;
      sent := [];
      var i := 0;
      while i < |received|
        invariant 0 <= i <= |received| && |sent| == i
        invariant Inv(g.Model(), gridSize) && g.username == username
        invariant forall k :: 0 <= k < i ==> received[k] != ""
        invariant FoodOk(g.Model()) && IsDirection(g.direction)
        invariant forall k :: 0 <= k < i ==> Inv(sent[k], gridSize) && sent[k].username == username
        invariant forall k :: 0 <= k < i ==> FoodOk(sent[k]) && IsDirection(sent[k].direction)
        invariant i == 0 ==> g.Model() == initial && |g.snake| == 1
        invariant i > 0 ==> sent[i - 1] == g.Model()
        invariant i > 0 ==> Ticked(initial, received[0], gridSize, sent[0])
        invariant forall k :: 0 < k < i ==> Ticked(sent[k - 1], received[k], gridSize, sent[k])
      {
        var data := received[i];
        if data == "" || |g.snake| + 2 > gridSize * gridSize {
          break;
        }
        ghost var before := g.Model();
        RoomyStepIsPlaceable(Steer(before, data), gridSize);
        ApplyMessage(g, data);
        StepPreservesInv(Steer(before, data), gridSize, g.food);
        StepKeepsFoodOk(Steer(before, data), gridSize, g.food);
        sent := sent + [g.Model()];
        i := i + 1;
      }
    }
  }
}
