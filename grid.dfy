/** Cells of the square board and the counting facts the food placer relies on. */
module Grid {

  /** A board cell. Component 0 is the horizontal coordinate (drawn as x by the
      client), component 1 the vertical one. */
  type Cell = (int, int)

  /** Both coordinates lie in [0, n). */
  predicate InBounds(c: Cell, n: int) {
    0 <= c.0 < n && 0 <= c.1 < n
  }

  predicate AllInBounds(s: seq<Cell>, n: int) {
    forall i :: 0 <= i < |s| ==> InBounds(s[i], n)
  }

  /** No cell occurs twice in `s`. */
  predicate Distinct(s: seq<Cell>) {
    forall i, j :: 0 <= i < j < |s| ==> s[i] != s[j]
  }

  /** Some cell of the board is not in `s`: a rejection loop over the board
      that skips the cells of `s` has something to find. */
  ghost predicate HasFreeCell(s: seq<Cell>, n: int) {
    exists c :: InBounds(c, n) && c !in s
  }

  /** The cells (x, y) with 0 <= y < h. */
  function Column(x: int, h: nat): (r: set<Cell>)
    ensures forall c :: c in r <==> c.0 == x && 0 <= c.1 < h
    ensures |r| == h
  {
    if h == 0 then {} else Column(x, h - 1) + {(x, h - 1)}
  }

  /** The cells (x, y) with 0 <= x < w and 0 <= y < h. */
  function Rect(w: nat, h: nat): (r: set<Cell>)
    ensures forall c :: c in r <==> 0 <= c.0 < w && 0 <= c.1 < h
    ensures |r| == w * h
  {
    if w == 0 then {}
    else
      var left, col := Rect(w - 1, h), Column(w - 1, h);
      assert left !! col;
      assert (w - 1) * h + h == w * h;
      left + col
  }

  /** The set of cells listed in `s`. */
  function Elems(s: seq<Cell>): (r: set<Cell>)
    ensures forall c :: c in r <==> c in s
    ensures |r| <= |s|
    ensures Distinct(s) ==> |r| == |s|
  {
    if s == [] then {}
    else
      assert Distinct(s) ==> s[0] !in s[1..];
      {s[0]} + Elems(s[1..])
  }

  lemma {:induction false} SubsetCard(a: set<Cell>, b: set<Cell>)
    requires a <= b
    ensures |a| <= |b|
    decreases a
  {
    if a != {} {
      var x :| x in a;
      SubsetCard(a - {x}, b - {x});
    }
  }

  /** A snake whose cells are distinct and on the board has at most n * n cells. */
  lemma LengthBound(s: seq<Cell>, n: nat)
    requires Distinct(s) && AllInBounds(s, n)
    ensures |s| <= n * n
  {
    SubsetCard(Elems(s), Rect(n, n));
  }

  /** A list shorter than the board leaves a free cell (pigeonhole). */
  lemma FreeCellWhenShort(s: seq<Cell>, n: nat)
    requires |s| < n * n
    ensures HasFreeCell(s, n)
  {
    if !HasFreeCell(s, n) {
      assert Rect(n, n) <= Elems(s);
      SubsetCard(Rect(n, n), Elems(s));
      assert false;
    }
  }
}
