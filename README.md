# Snake server: the per-player game simulation

This project models the core of a multiplayer snake server. For each connected
client, the server keeps one state record: the username, the snake as a head-first
list of board cells, the score, the last accepted direction code and the food
cell. On every tick it does four things:

1. It reads the client's message. If the message is exactly `U`, `D`, `L` or `R`,
   it replaces the direction.
2. It computes the next head cell.
3. It checks for a collision. A collision happens when the new head is a cell of
   the current snake or lies off the board. On a collision, the game resets in place.
4. If there is no collision, it moves the snake. Then either the snake eats the food
   and grows, or it drops its tail.

The model is split into three modules:

- `Grid` (grid.dfy): cells, bounds, distinctness, and the counting facts behind the
  food placer's termination. A list shorter than the board leaves a free cell.
- `Game` (game.dfy): the state record as a value (`State`) and one tick as a function
  `Step(s, n, choice)`. The argument `choice` stands for whatever the random food
  placer returns on that tick. The predicate `FoodChoiceOk` says which answers are
  legal. The lemmas about the three outcomes of a tick, the direction filter and the
  invariants are here.
- `Server` (server.dfy): the mutable record (class `GameState`) and the server
  operations (class `SnakeServer`). These are food placement by nondeterministic
  choice, creation of a record, the in-place tick `UpdateSnake`, the per-message step
  `ApplyMessage` and a whole session `HandleClient`. Each method that changes the
  record is proved against `Step`.

Cells are (x, y) pairs. `L` and `R` change the first component, which client.py:59
draws as x. `U` (minus one) and `D` (plus one) change the second component.

Two behaviours of the code are worth knowing:

- After a game over, the code places the food against the snake from before the
  reset. The food can therefore land on the restart cell (5, 5), which is then on the
  snake (`Game.ResetMayPlaceFoodOnStart`). The model claims "food not on the snake"
  only after eating, and after a plain move that started with the food off the snake.
  Every state a session sends has the food off the snake, or the snake is exactly
  [food] (`Game.StepKeepsFoodOk`).
- The self-collision test looks at the whole current snake, tail included. A move onto
  the current tail cell therefore ends the game, even though a plain move would have
  vacated that cell (`Game.TailCollides`). `Game.CoiledSnakeResets` shows this with a
  square of four distinct cells.

## Model

| member | source | states |
|---|---|---|
| `Server.SnakeServer.constructor` | server.py:17 | The server keeps the board side it was created with. |
| `Server.GameState.constructor` | server.py:47-54 | A new record has the given username and food, the snake [(5, 5)], score 0 and direction "R". |
| `Server.SnakeServer.NewGameState` | server.py:47-54 | A fresh record for the user: snake [(5, 5)], score 0, direction "R", and food on the board and not on (5, 5). |
| `Game.InitialState` | server.py:48-54 | The initial record has the given username and food, the snake [(5, 5)], score 0 and a valid direction, "R", so a first tick without input heads for (6, 5). |
| `Game.InitialInv` | server.py:47-54 | When (5, 5) is on the board, the initial state satisfies the live-state invariant: a nonempty snake of distinct on-board cells, with the food on the board. |
| `Server.SnakeServer.GenerateFoodPosition` | server.py:56-63 | Given that some board cell is free, it returns a cell with both coordinates in [0, gridSize) that is not in the given list. |
| `Grid.FreeCellWhenShort` | server.py:57-63 | A list with fewer than gridSize² entries leaves a free board cell, so the rejection loop has a cell to find. |
| `Game.SnakeFitsBoard` | server.py:100-105 | A live snake never holds more cells than the board has. |
| `Grid.LengthBound` | server.py:100-105 | A snake whose cells are distinct and on the board has at most gridSize² cells. |
| `Game.NextDirection` | server.py:33-34 | Only an exact direction code replaces the direction, and it always does. Any other message leaves the direction as it was, so a valid direction stays valid. |
| `Server.SnakeServer.ApplyMessage` | server.py:33-36 | One received message and one tick lead from the old record to the new one as `Ticked` describes: the direction filter, then `Step` with a legal food choice. |
| `Game.Steer` | server.py:33-34 | The direction filter changes only the direction. An exact direction code becomes the direction, and any other message leaves the record unchanged. |
| `Game.IgnoredInputKeepsHeading` | server.py:33-36 | A message that is not a direction code leaves the state unchanged before the tick, and the tick then moves in the old direction. |
| `Game.CalculateNewHead` | server.py:89-98 | For the four codes, the result is adjacent to the head. U and D keep x and lower or raise y. L and R keep y and lower or raise x. Any other code returns the head unchanged. It is adjacent exactly when the code is valid. |
| `Game.ReverseReturns` | server.py:89-98 | A step followed by a step in the opposite direction returns to the starting cell. |
| `Game.DirectionsDiffer` | server.py:89-98 | The four direction codes lead from one head to four different cells. |
| `Game.ReversalCollides` | server.py:89-105 | Turning back onto the cell the head just came from is a collision, so a reversal ends the game. |
| `Game.IsGameOver` | server.py:100-105 | The move ends the game exactly when the new head is a cell of the current snake, tail included, or lies off the board. |
| `Game.TailCollides` | server.py:71-78 | A move onto the current tail cell is a game over and resets the snake. |
| `Game.Step` | server.py:65-86 | A tick keeps the username and the direction, leaves a nonempty snake, and grows the snake by at most one cell. |
| `Server.SnakeServer.UpdateSnake` | server.py:65-86 | The record after the in-place tick is `Step` of the record before. A food cell placed on this tick is on the board and avoids the list the source passes to the placer. |
| `Game.StepOnGameOver` | server.py:71-78 | On a collision, the snake becomes [(5, 5)] and the score 0. Username and direction are kept. The new food is on the board and not among the pre-reset cells. |
| `Game.StepOnEat` | server.py:80-84 | When the new head is the food, the snake becomes the new head followed by the old snake, so it is one cell longer. The score rises by one, and the new food is on the board and off the grown snake. |
| `Game.StepOnMove` | server.py:80-86 | On a safe move that misses the food, the snake becomes the new head followed by the old snake without its last cell. Length, score and food are unchanged, and food that was off the snake stays off it. |
| `Game.StepGrowsIffEats` | server.py:80-86 | Without a collision, the snake grows by exactly one cell if and only if the new head is the food. Otherwise its length is unchanged. |
| `Game.StepScore` | server.py:76-83 | The score rises by exactly one if and only if the food is eaten. It becomes 0 on a collision and is otherwise kept. |
| `Game.ResetMayPlaceFoodOnStart` | server.py:75-77 | After a game over, a legal food choice can land on the restart cell, which is then on the snake. |
| `Game.StepPreservesInv` | server.py:65-105 | When (5, 5) is on the board, a tick keeps the snake's cells distinct, on the board and nonempty, and keeps the food on the board. |
| `Game.StepKeepsFoodOk` | server.py:71-86 | On a live state, a tick keeps the food off the snake. The one exception is a reset whose new food lands on the restart cell, where the snake is exactly [food]. |
| `Game.RoomyStepIsPlaceable` | server.py:71-84 | For a valid state with at least two free board cells, whichever placement the tick runs has a free cell to find. |
| `Game.CoiledSnakeResets` | server.py:100-105 | A snake coiled in a square and heading into its own tail is reset to [(5, 5)] with score 0. |
| `Game.RightEdgeResets` | server.py:100-105 | On a 20-cell board, a head at (19, 10) moving right reaches (20, 10), which is a game over. |
| `Game.FirstBiteGrows` | server.py:80-84 | From [(5, 5)] heading right, with food at (6, 5), one tick gives the snake [(6, 5), (5, 5)] and score 1. The new food is neither of those cells. |
| `Server.SnakeServer.HandleClient` | server.py:24-39 | A session sends one state per received message. It stops at the first empty message, or early once fewer than two board cells are free. Every state sent satisfies the invariant, keeps the username and has a valid direction. In every state sent, the food is off the snake, or the snake is exactly [food] right after such a reset. The first state is one tick from an initial state, and each later state is one tick from the state before it. |

## Left out

- Sockets, `recv`/`sendall`, connection acceptance, the thread per connection, the unused lock and the shared `running` flag are I/O and concurrency plumbing. A session's received messages are a parameter, and an empty message stands for the peer closing the stream.
- A connection reset ends a session with an exception. The model does not include this; a session ends only at an empty message or at the end of the given messages.
- The username and the per-tick messages are taken as strings. Decoding them and cutting them at 1024 bytes are left out. A message that is not valid UTF-8 makes `decode()` raise `UnicodeDecodeError` (server.py:24, 30). Only `ConnectionResetError` is caught (server.py:41), so such a message ends the session with an exception; the model does not include this.
- The 100 ms pause between ticks is timing, not logic.
- JSON serialisation is a library call. The model takes the whole state record (`GameState.Model`) as the document sent after each tick.
- The log lines are left out.
- The host and port arguments of the server are left out.
- All of client.py is left out: drawing, key polling, the receive thread and the connection setup.
- GenerateFoodPosition: the random number generator is replaced by a nondeterministic choice of a free cell. Uniformity is not modelled. The choice is proved to exist, not to be reached by the rejection loop.
- NewGameState: requires a board side of at least 1. On a smaller board the source's `random.randint(0, grid_size - 1)` raises `ValueError`, and the model does not cover that case.
- UpdateSnake: requires that the food placer, if this tick runs it, has a free cell. When the board is full, the source loops forever. On a board side below 1, the source raises `ValueError` instead. The model covers neither case.
- ApplyMessage: has the same requirement as UpdateSnake, for the same reasons.
- HandleClient: covers only boards wider than 5 cells. It stops early once fewer than two board cells are free. From that point the source goes on, and it hangs when the food placer faces a full board. The model does not cover ticks after that point.
