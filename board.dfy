/** The 3x3 board shared by the server (server/server.js) and the browser client (script.js). */
module Board {
  /** The two player symbols, written "X" and "O" in the source. */
  datatype Symbol = X | O

  /** A board cell: the empty string '' or a symbol. */
  datatype Cell = Empty | Mark(symbol: Symbol)

  /** Number of cells of a board. */
  const Cells: nat := 9

  /** The string the source compares and stores for a symbol. */
  function Text(s: Symbol): (t: string)
    ensures |t| == 1
    ensures t == "X" <==> s == X
    ensures t == "O" <==> s == O
  {
    match s
    case X => "X"
    case O => "O"
  }

  /** The symbol that moves after `s`. */
  function Other(s: Symbol): (r: Symbol)
    ensures r != s
  {
    if s == X then O else X
  }

  /** The board written as nine '' entries. */
  function EmptyBoard(): (b: seq<Cell>)
    ensures |b| == Cells
    ensures forall i :: 0 <= i < |b| ==> b[i] == Empty
  {
    [Empty, Empty, Empty, Empty, Empty, Empty, Empty, Empty, Empty]
  }

  /** How many cells of `b` hold `c`. */
  function Count(b: seq<Cell>, c: Cell): nat
  {
    if b == [] then 0 else (if b[0] == c then 1 else 0) + Count(b[1..], c)
  }

  /** A value that does not occur is counted zero times. */
  lemma {:induction false} CountAbsent(b: seq<Cell>, c: Cell)
    requires c !in b
    ensures Count(b, c) == 0
  {
    if b != [] {
      assert b[0] != c;
      assert forall x :: x in b[1..] ==> x in b;
      CountAbsent(b[1..], c);
    }
  }

  /** The empty board holds no mark. */
  lemma EmptyBoardUnmarked(s: Symbol)
    ensures Count(EmptyBoard(), Mark(s)) == 0
  {
    CountAbsent(EmptyBoard(), Mark(s));
  }

  /** Overwriting one cell moves one unit of count from the old value to the new one. */
  lemma {:induction false} CountUpdate(b: seq<Cell>, i: nat, v: Cell, c: Cell)
    requires i < |b|
    ensures Count(b[i := v], c) + (if b[i] == c then 1 else 0)
         == Count(b, c) + (if v == c then 1 else 0)
  {
    if i == 0 {
      assert b[i := v][1..] == b[1..];
    } else {
      assert b[i := v][1..] == b[1..][i - 1 := v];
      CountUpdate(b[1..], i - 1, v, c);
    }
  }
}
