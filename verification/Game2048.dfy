/**
 The 2048 game: the board is changed in place, pane by pane, each direction with loops over its own coordinates. The
 proofs see a pane as a place on a line, counted from the wall the tiles move to.
 */
module Game2048 {
  import opened GameLine
  import opened GameBoard

  datatype Key = Go(d: Direction) | Quit | Other

  /** The switch of play: wasd, hjkl, and the last byte of the arrow keys. */
  function KeyOf(ch: char): Key {
    if ch == 'a' || ch == 'h' || ch == 'D' then Go(Left)
    else if ch == 'd' || ch == 'l' || ch == 'C' then Go(Right)
    else if ch == 'w' || ch == 'k' || ch == 'A' then Go(Up)
    else if ch == 's' || ch == 'j' || ch == 'B' then Go(Down)
    else if ch == 'Q' || ch == 'q' then Quit
    else Other
  }

  lemma KeysByDirection(ch: char)
    ensures KeyOf(ch) == Go(Left) <==> ch in "ahD"
    ensures KeyOf(ch) == Go(Right) <==> ch in "dlC"
    ensures KeyOf(ch) == Go(Up) <==> ch in "wkA"
    ensures KeyOf(ch) == Go(Down) <==> ch in "sjB"
    ensures KeyOf(ch) == Quit <==> ch in "qQ"
  {
  }

  /** What one key makes of the board: a move, and a new tile exactly if the move changed something. */
  ghost predicate Played(g: Board, ch: char, g': Board)
    requires Square(g)
  {
    && Square(g')
    && match KeyOf(ch)
       case Go(d) =>
         var m := MoveAll(d == Left, View(d, g));
         if m == View(d, g) then View(d, g') == m else SpawnedOn(m, View(d, g'))
       case _ => g' == g
  }

  function Moves(keys: string): nat {
    if keys == "" then 0 else Moves(keys[..|keys| - 1]) + (if KeyOf(keys[|keys| - 1]).Go? then 1 else 0)
  }

  // ---------- the state of a merge pass over one line ----------

  /** Up to pane k the line is merged; so far `gained` points and `emptied` panes. */
  ghost predicate Merging(adjacent: bool, o: Line, s: Line, k: nat, gained: nat, emptied: nat) {
    && |o| == |s| == SIZE && k <= SIZE
    && (if adjacent then AdjacentAt(o, s, k, gained) else MergeAt(o, s, k, gained))
    && |Pack(s)| + emptied == |Pack(o)| && (emptied == 0 ==> s == o)
  }

  lemma MergingStart(adjacent: bool, o: Line)
    requires |o| == SIZE
    ensures Merging(adjacent, o, o, 0, 0, 0)
  {
    assert o[..0] == [] && o[0..] == o;
    assert Pack(o[..0]) == [];
  }

  lemma MergingSkips(adjacent: bool, o: Line, s: Line, k: nat, gained: nat, emptied: nat)
    requires Merging(adjacent, o, s, k, gained, emptied) && k < SIZE && s[k] == 0
    ensures Merging(adjacent, o, s, k + 1, gained, emptied)
  {
    hide Pack, MergeAt, AdjacentAt;
    if adjacent { AdjacentKeeps(o, s, k, gained); } else { MergeSkips(o, s, k, gained); }
  }

  lemma MergingDone(adjacent: bool, o: Line, s: Line, gained: nat, emptied: nat)
    requires Merging(adjacent, o, s, SIZE, gained, emptied)
    ensures LineMerged(adjacent, o, s) && gained == Gain(adjacent, o) && emptied == Emptied(adjacent, o)
  {
    assert s[..|s|] == s && s[|s|..] == [] && s + [] == s && Pack(s) + [] == Pack(s);
  }

  predicate Blank(g: Board)
    requires Square(g)
  {
    forall r, c :: 0 <= r < SIZE && 0 <= c < SIZE ==> g[r][c] == 0
  }

  /** Two panes of one line written. */
  lemma TwoSets(b: Board, s: Line, l: nat, k: nat, v: nat, i: nat)
    requires Square(b) && |s| == SIZE && l < SIZE && k < SIZE && i < SIZE
    ensures Set(Set(b[l := s], l, k, v), l, i, 0) == b[l := s[k := v][i := 0]]
  {
  }

  class Game {
    const board: array2<nat>
    const winFlag: nat
    var empty: int
    var score: nat
    var steps: nat
    var maxNumber: nat
    var oldRow: nat
    var oldCol: nat
    var over: bool
    ghost var twos: nat   // spawned so far
    ghost var fours: nat

    ghost predicate Shape() { board.Length0 == SIZE && board.Length1 == SIZE }

    function Row(r: nat): (s: Line)
      reads board
      requires Shape() && r < SIZE
      ensures |s| == SIZE && forall c :: 0 <= c < SIZE ==> s[c] == board[r, c]
    {
      [board[r, 0], board[r, 1], board[r, 2], board[r, 3]]
    }

    function Grid(): (g: Board)
      reads board
      requires Shape()
      ensures Square(g) && forall r, c :: 0 <= r < SIZE && 0 <= c < SIZE ==> g[r][c] == board[r, c]
    {
      [Row(0), Row(1), Row(2), Row(3)]
    }

    ghost function Lines(d: Direction): (b: Board)
      reads board
      requires Shape()
      ensures Square(b)
    {
      View(d, Grid())
    }

    function Pane(d: Direction, l: nat, k: nat): (v: nat)
      reads board
      requires Shape() && l < SIZE && k < SIZE
      ensures v == Lines(d)[l][k]
    {
      board[RowOf(d, l, k), ColOf(d, l, k)]
    }

    /** Empty panes counted, tiles powers of two, points accounted for, and the recorded maximum in its place. */
    ghost predicate Valid()
      reads this, board
    {
      Shape() && Books(Grid(), empty, score, twos, fours) && Tops(Grid(), maxNumber, winFlag)
    }

    /** initValue, on a board that is all zeros; it sets the win flag to 32. */
    constructor (win: nat)
      ensures Shape() && winFlag == win && Blank(Grid()) && empty == SIZE * SIZE && maxNumber == 2
      ensures score == 0 && steps == 0 && twos == 0 && fours == 0 && !over
    {
      winFlag, empty, score, steps, maxNumber, over := win, SIZE * SIZE, 0, 0, 2, false;
      oldRow, oldCol, twos, fours := 0, 0, 0, 0;
      board := new nat[SIZE, SIZE]((i, j) => 0);
    }

    /** The rest of init: one 2 somewhere. */
    method Init()
      requires Shape() && Blank(Grid()) && empty == SIZE * SIZE && maxNumber == 2
      requires score == 0 && twos == 0 && fours == 0 && IsPower(winFlag) && winFlag >= 8
      modifies this`empty, this`twos, board
      ensures Valid() && maxNumber < winFlag
    {
      hide Books, Tops, Row, Grid, IsPower;
      ghost var g := Grid();
      var col: nat :| col < SIZE;
      var row: nat :| row < SIZE;
      FirstTile(g, row, col, winFlag);
      board[row, col] := 2;
      SameBoard(Grid(), Set(g, row, col, 2));
      empty := empty - 1;
      twos := 1;
    }

    /** The tile at r2, c2 goes into the one at r, c. */
    method Join(r: nat, c: nat, r2: nat, c2: nat,
                ghost d: Direction, ghost l: nat, ghost k: nat, ghost i: nat, ghost b: Board, ghost s: Line)
      requires Shape() && l < SIZE && k < i < SIZE
      requires r == RowOf(d, l, k) && c == ColOf(d, l, k) && r2 == RowOf(d, l, i) && c2 == ColOf(d, l, i)
      requires Square(b) && |s| == SIZE && Lines(d) == b[l := s] && s[k] == s[i]
      modifies this`empty, this`score, board
      ensures Lines(d) == b[l := s[k := s[k] + s[i]][i := 0]]
      ensures score == old(score) + s[k] && empty == old(empty) + 1
    {
      hide View, Grid, Set, Row;
      assert board[r, c] == Pane(d, l, k) && board[r2, c2] == Pane(d, l, i);
      TwoSets(b, s, l, k, s[k] + s[i], i);
      score := score + board[r, c];
      Put(r, c, board[r, c] + board[r2, c2], d, l, k);
      Put(r2, c2, 0, d, l, i);
      empty := empty + 1;
    }

    /** The tile at r, c moves to the empty pane r2, c2 before it. */
    method Shift(r: nat, c: nat, r2: nat, c2: nat, ghost d: Direction, ghost l: nat, ghost i: nat, ghost b: Board,
                 ghost s: Line)
      requires Shape() && l < SIZE && 0 < i < SIZE
      requires r == RowOf(d, l, i) && c == ColOf(d, l, i) && r2 == RowOf(d, l, i - 1) && c2 == ColOf(d, l, i - 1)
      requires Square(b) && |s| == SIZE && Lines(d) == b[l := s]
      modifies board
      ensures Lines(d) == b[l := s[i - 1 := s[i]][i := 0]]
    {
      hide View, Grid, Set, Row;
      assert board[r, c] == Pane(d, l, i);
      TwoSets(b, s, l, i - 1, s[i], i);
      Put(r2, c2, board[r, c], d, l, i - 1);
      Put(r, c, 0, d, l, i);
    }

    /** One pane written, seen as a pane of a line. */
    method Put(r: nat, c: nat, v: nat, ghost d: Direction, ghost l: nat, ghost k: nat)
      requires Shape() && l < SIZE && k < SIZE && r == RowOf(d, l, k) && c == ColOf(d, l, k)
      modifies board
      ensures Lines(d) == Set(old(Lines(d)), l, k, v)
    {
      hide View, ViewLine, Row;
      ghost var g := Grid();
      SetView(d, g, l, k, v);
      board[r, c] := v;
      SameBoard(Grid(), Set(g, r, c, v));
    }

    /** moveLeft's merge pass on a row. The tile itself is not 0, so the scan never gets past its neighbour. */
    method MergeLeft(row: nat) returns (ghost s: Line)
      requires Shape() && row < SIZE
      modifies this`empty, this`score, board
      ensures |s| == SIZE && Lines(Left) == old(Lines(Left))[row := s] && LineMerged(true, old(Lines(Left))[row], s)
      ensures score == old(score) + Gain(true, old(Lines(Left))[row])
      ensures empty == old(empty) + Emptied(true, old(Lines(Left))[row])
    {
      hide Pack, Lines, Grid, Row, Gain, Emptied, LineMerged, Merging, AdjacentAt;
      ghost var b := Lines(Left);
      ghost var o := b[row];
      ghost var gained: nat, emptied: nat := 0, 0;
      s := o;
      MergingStart(true, o);
      var col := 0;
      while col < SIZE
        invariant 0 <= col <= SIZE && |s| == SIZE
        invariant Lines(Left) == b[row := s]
        invariant Merging(true, o, s, col, gained, emptied)
        invariant score == old(score) + gained && empty == old(empty) + emptied
        modifies this`empty, this`score, board
      {
        assert board[row, col] == Pane(Left, row, col);
        if board[row, col] == 0 {
          MergingSkips(true, o, s, col, gained, emptied);
          col := col + 1;
        } else {
          var i := col + 1;
          assert i < SIZE ==> board[row, i] == Pane(Left, row, i);
          if i < SIZE && board[row, col] == board[row, i] {
            AdjacentMergingJoins(o, s, col, gained, emptied);
            Join(row, col, row, i, Left, row, col, i, b, s);
            gained, emptied := gained + s[col], emptied + 1;
            s := s[col := s[col] + s[i]][i := 0];
          } else {
            AdjacentMergingKeeps(o, s, col, gained, emptied);
          }
          col := i;
        }
      }
      MergingDone(true, o, s, gained, emptied);
    }

    /** moveRight's merge pass on a row. */
    method MergeRight(row: nat) returns (ghost s: Line)
      requires Shape() && row < SIZE
      modifies this`empty, this`score, board
      ensures |s| == SIZE && Lines(Right) == old(Lines(Right))[row := s] && LineMerged(false, old(Lines(Right))[row], s)
      ensures score == old(score) + Gain(false, old(Lines(Right))[row])
      ensures empty == old(empty) + Emptied(false, old(Lines(Right))[row])
    {
      hide Pack, Lines, Grid, Row, Gain, Emptied, LineMerged, Merging, MergeAt;
      ghost var b := Lines(Right);
      ghost var o := b[row];
      ghost var gained: nat, emptied: nat := 0, 0;
      s := o;
      MergingStart(false, o);
      var col := SIZE - 1;
      while col >= 0
        invariant -1 <= col < SIZE && |s| == SIZE
        invariant Lines(Right) == b[row := s]
        invariant Merging(false, o, s, SIZE - 1 - col, gained, emptied)
        invariant score == old(score) + gained && empty == old(empty) + emptied
        modifies this`empty, this`score, board
      {
        assert board[row, col] == Pane(Right, row, SIZE - 1 - col);
        if board[row, col] == 0 {
          MergingSkips(false, o, s, SIZE - 1 - col, gained, emptied);
          col := col - 1;
        } else {
          var i := col - 1;
          while i >= 0 && board[row, i] == 0
            invariant -1 <= i < col && EmptyBetween(s, SIZE - 1 - col + 1, SIZE - 1 - i)
          {
            assert board[row, i] == Pane(Right, row, SIZE - 1 - i);
            i := i - 1;
          }
          assert i >= 0 ==> board[row, i] == Pane(Right, row, SIZE - 1 - i);
          if i >= 0 && board[row, col] == board[row, i] {
            MergingJoins(o, s, SIZE - 1 - col, SIZE - 1 - i, gained, emptied);
            Join(row, col, row, i, Right, row, SIZE - 1 - col, SIZE - 1 - i, b, s);
            gained, emptied := gained + s[SIZE - 1 - col], emptied + 1;
            s := s[SIZE - 1 - col := s[SIZE - 1 - col] + s[SIZE - 1 - i]][SIZE - 1 - i := 0];
          } else {
            MergingKeeps(o, s, SIZE - 1 - col, SIZE - 1 - i, gained, emptied);
          }
          col := i;
        }
      }
      MergingDone(false, o, s, gained, emptied);
    }

    /** moveUp's merge pass on a column. */
    method MergeUp(col: nat) returns (ghost s: Line)
      requires Shape() && col < SIZE
      modifies this`empty, this`score, board
      ensures |s| == SIZE && Lines(Up) == old(Lines(Up))[col := s] && LineMerged(false, old(Lines(Up))[col], s)
      ensures score == old(score) + Gain(false, old(Lines(Up))[col])
      ensures empty == old(empty) + Emptied(false, old(Lines(Up))[col])
    {
      hide Pack, Lines, Grid, Row, Gain, Emptied, LineMerged, Merging, MergeAt;
      ghost var b := Lines(Up);
      ghost var o := b[col];
      ghost var gained: nat, emptied: nat := 0, 0;
      s := o;
      MergingStart(false, o);
      var row := 0;
      while row < SIZE
        invariant 0 <= row <= SIZE && |s| == SIZE
        invariant Lines(Up) == b[col := s]
        invariant Merging(false, o, s, row, gained, emptied)
        invariant score == old(score) + gained && empty == old(empty) + emptied
        modifies this`empty, this`score, board
      {
        assert board[row, col] == Pane(Up, col, row);
        if board[row, col] == 0 {
          MergingSkips(false, o, s, row, gained, emptied);
          row := row + 1;
        } else {
          var i := row + 1;
          while i < SIZE && board[i, col] == 0
            invariant row < i <= SIZE && EmptyBetween(s, row + 1, i)
          {
            assert board[i, col] == Pane(Up, col, i);
            i := i + 1;
          }
          assert i < SIZE ==> board[i, col] == Pane(Up, col, i);
          if i < SIZE && board[row, col] == board[i, col] {
            MergingJoins(o, s, row, i, gained, emptied);
            Join(row, col, i, col, Up, col, row, i, b, s);
            gained, emptied := gained + s[row], emptied + 1;
            s := s[row := s[row] + s[i]][i := 0];
          } else {
            MergingKeeps(o, s, row, i, gained, emptied);
          }
          row := i;
        }
      }
      MergingDone(false, o, s, gained, emptied);
    }

    /** moveDown's merge pass on a column. */
    method MergeDown(col: nat) returns (ghost s: Line)
      requires Shape() && col < SIZE
      modifies this`empty, this`score, board
      ensures |s| == SIZE && Lines(Down) == old(Lines(Down))[col := s] && LineMerged(false, old(Lines(Down))[col], s)
      ensures score == old(score) + Gain(false, old(Lines(Down))[col])
      ensures empty == old(empty) + Emptied(false, old(Lines(Down))[col])
    {
      hide Pack, Lines, Grid, Row, Gain, Emptied, LineMerged, Merging, MergeAt;
      ghost var b := Lines(Down);
      ghost var o := b[col];
      ghost var gained: nat, emptied: nat := 0, 0;
      s := o;
      MergingStart(false, o);
      var row := SIZE - 1;
      while row >= 0
        invariant -1 <= row < SIZE && |s| == SIZE
        invariant Lines(Down) == b[col := s]
        invariant Merging(false, o, s, SIZE - 1 - row, gained, emptied)
        invariant score == old(score) + gained && empty == old(empty) + emptied
        modifies this`empty, this`score, board
      {
        assert board[row, col] == Pane(Down, col, SIZE - 1 - row);
        if board[row, col] == 0 {
          MergingSkips(false, o, s, SIZE - 1 - row, gained, emptied);
          row := row - 1;
        } else {
          var i := row - 1;
          while i >= 0 && board[i, col] == 0
            invariant -1 <= i < row && EmptyBetween(s, SIZE - 1 - row + 1, SIZE - 1 - i)
          {
            assert board[i, col] == Pane(Down, col, SIZE - 1 - i);
            i := i - 1;
          }
          assert i >= 0 ==> board[i, col] == Pane(Down, col, SIZE - 1 - i);
          if i >= 0 && board[row, col] == board[i, col] {
            MergingJoins(o, s, SIZE - 1 - row, SIZE - 1 - i, gained, emptied);
            Join(row, col, i, col, Down, col, SIZE - 1 - row, SIZE - 1 - i, b, s);
            gained, emptied := gained + s[SIZE - 1 - row], emptied + 1;
            s := s[SIZE - 1 - row := s[SIZE - 1 - row] + s[SIZE - 1 - i]][SIZE - 1 - i := 0];
          } else {
            MergingKeeps(o, s, SIZE - 1 - row, SIZE - 1 - i, gained, emptied);
          }
          row := i;
        }
      }
      MergingDone(false, o, s, gained, emptied);
    }

    /** The merge pass over the four lines. */
    method MergePass(d: Direction)
      requires Shape()
      modifies this`empty, this`score, board
      ensures var b := old(Lines(d)); forall l :: 0 <= l < SIZE ==> LineMerged(d == Left, b[l], Lines(d)[l])
      ensures score == old(score) + GainUpTo(d == Left, old(Lines(d)), SIZE)
      ensures empty == old(empty) + EmptiedUpTo(d == Left, old(Lines(d)), SIZE)
    {
      hide Lines, Grid, Row, Gain, Emptied, LineMerged;
      ghost var b := Lines(d);
      var l := 0;
      while l < SIZE
        invariant 0 <= l <= SIZE
        invariant forall m :: 0 <= m < l ==> LineMerged(d == Left, b[m], Lines(d)[m])
        invariant forall m :: l <= m < SIZE ==> Lines(d)[m] == b[m]
        invariant score == old(score) + GainUpTo(d == Left, b, l)
        invariant empty == old(empty) + EmptiedUpTo(d == Left, b, l)
        modifies this`empty, this`score, board
      {
        ghost var s;
        match d {
          case Left => s := MergeLeft(l);
          case Right => s := MergeRight(l);
          case Up => s := MergeUp(l);
          case Down => s := MergeDown(l);
        }
        l := l + 1;
      }
    }

    /** moveLeft's packing of one tile: it moves towards the wall while the pane before it is empty. */
    method PackLeftTile(row: nat, col: nat, ghost b: Board, ghost s: Line, ghost room: nat) returns (step: bool)
      requires Shape() && row < SIZE && col < SIZE && room <= col
      requires Square(b) && |s| == SIZE && Lines(Left) == b[row := s]
      requires EmptyBetween(s, room, col) && (room > 0 ==> s[room - 1] != 0)
      modifies board
      ensures Lines(Left) == b[row := s[col := 0][room := s[col]]]
      ensures step <==> room < col
    {
      hide View, Grid, Set, Row, Lines;
      step := false;
      assert s[col := 0][col := s[col]] == s;
      var i := col;
      assert i > 0 ==> board[row, i - 1] == Pane(Left, row, i - 1);
      while i > 0 && board[row, i - 1] == 0
        invariant room <= i <= col
        invariant Lines(Left) == b[row := s[col := 0][i := s[col]]]
        invariant step <==> i < col
        invariant i > 0 ==> board[row, i - 1] == Pane(Left, row, i - 1)
        modifies board
      {
        ghost var t: Line := s[col := 0][i := s[col]];
        Shift(row, i, row, i - 1, Left, row, i, b, t);
        assert t[i - 1 := s[col]][i := 0] == s[col := 0][i - 1 := s[col]];
        step := true;
        i := i - 1;
        assert i > 0 ==> board[row, i - 1] == Pane(Left, row, i - 1);
      }
    }

    method PackLeft(row: nat) returns (step: bool)
      requires Shape() && row < SIZE
      modifies board
      ensures var o := old(Lines(Left))[row];
        |Pack(o)| <= SIZE && Lines(Left) == old(Lines(Left))[row := Pad(Pack(o), SIZE)] && (step <==> Slides(o))
    {
      hide Pack, Pad, Lines, Grid, Row, Slides, Sliding;
      ghost var b := Lines(Left);
      ghost var o := b[row];
      ghost var s := o;
      SlidingStart(o);
      step := false;
      var col := 0;
      while col < SIZE
        invariant 0 <= col <= SIZE && |s| == SIZE
        invariant Lines(Left) == b[row := s]
        invariant Sliding(o, s, col, step)
        modifies board
      {
        assert board[row, col] == Pane(Left, row, col);
        if board[row, col] == 0 {
          SlidingEmpty(o, s, col, step);
        } else {
          ghost var room := SlidingTile(o, s, col, step);
          var moved := PackLeftTile(row, col, b, s, room);
          s := s[col := 0][room := s[col]];
          if moved { step := true; }
        }
        col := col + 1;
      }
      SlidingDone(o, s, step);
    }

    /** moveRight's packing of one tile: it moves towards the wall while the pane before it is empty. */
    method PackRightTile(row: nat, col: nat, ghost b: Board, ghost s: Line, ghost room: nat) returns (step: bool)
      requires Shape() && row < SIZE && col < SIZE && room <= SIZE - 1 - col
      requires Square(b) && |s| == SIZE && Lines(Right) == b[row := s]
      requires EmptyBetween(s, room, SIZE - 1 - col) && (room > 0 ==> s[room - 1] != 0)
      modifies board
      ensures Lines(Right) == b[row := s[SIZE - 1 - col := 0][room := s[SIZE - 1 - col]]]
      ensures step <==> room < SIZE - 1 - col
    {
      hide View, Grid, Set, Row, Lines;
      step := false;
      assert s[SIZE - 1 - col := 0][SIZE - 1 - col := s[SIZE - 1 - col]] == s;
      var i := col;
      assert i < SIZE - 1 ==> board[row, i + 1] == Pane(Right, row, SIZE - 1 - i - 1);
      while i < SIZE - 1 && board[row, i + 1] == 0
        invariant col <= i <= SIZE - 1 - room
        invariant Lines(Right) == b[row := s[SIZE - 1 - col := 0][SIZE - 1 - i := s[SIZE - 1 - col]]]
        invariant step <==> i > col
        invariant i < SIZE - 1 ==> board[row, i + 1] == Pane(Right, row, SIZE - 1 - i - 1)
        modifies board
      {
        ghost var t: Line := s[SIZE - 1 - col := 0][SIZE - 1 - i := s[SIZE - 1 - col]];
        Shift(row, i, row, i + 1, Right, row, SIZE - 1 - i, b, t);
        assert t[SIZE - 1 - i - 1 := s[SIZE - 1 - col]][SIZE - 1 - i := 0]
               == s[SIZE - 1 - col := 0][SIZE - 1 - i - 1 := s[SIZE - 1 - col]];
        step := true;
        i := i + 1;
        assert i < SIZE - 1 ==> board[row, i + 1] == Pane(Right, row, SIZE - 1 - i - 1);
      }
    }

    method PackRight(row: nat) returns (step: bool)
      requires Shape() && row < SIZE
      modifies board
      ensures var o := old(Lines(Right))[row];
        |Pack(o)| <= SIZE && Lines(Right) == old(Lines(Right))[row := Pad(Pack(o), SIZE)] && (step <==> Slides(o))
    {
      hide Pack, Pad, Lines, Grid, Row, Slides, Sliding;
      ghost var b := Lines(Right);
      ghost var o := b[row];
      ghost var s := o;
      SlidingStart(o);
      step := false;
      var col := SIZE - 1;
      while col >= 0
        invariant -1 <= col < SIZE && |s| == SIZE
        invariant Lines(Right) == b[row := s]
        invariant Sliding(o, s, SIZE - 1 - col, step)
        modifies board
      {
        assert board[row, col] == Pane(Right, row, SIZE - 1 - col);
        if board[row, col] == 0 {
          SlidingEmpty(o, s, SIZE - 1 - col, step);
        } else {
          ghost var room := SlidingTile(o, s, SIZE - 1 - col, step);
          var moved := PackRightTile(row, col, b, s, room);
          s := s[SIZE - 1 - col := 0][room := s[SIZE - 1 - col]];
          if moved { step := true; }
        }
        col := col - 1;
      }
      SlidingDone(o, s, step);
    }

    /** moveUp's packing of one tile: it moves towards the wall while the pane before it is empty. */
    method PackUpTile(row: nat, col: nat, ghost b: Board, ghost s: Line, ghost room: nat) returns (step: bool)
      requires Shape() && row < SIZE && col < SIZE && room <= row
      requires Square(b) && |s| == SIZE && Lines(Up) == b[col := s]
      requires EmptyBetween(s, room, row) && (room > 0 ==> s[room - 1] != 0)
      modifies board
      ensures Lines(Up) == b[col := s[row := 0][room := s[row]]]
      ensures step <==> room < row
    {
      hide View, Grid, Set, Row, Lines;
      step := false;
      assert s[row := 0][row := s[row]] == s;
      var i := row;
      assert i > 0 ==> board[i - 1, col] == Pane(Up, col, i - 1);
      while i > 0 && board[i - 1, col] == 0
        invariant room <= i <= row
        invariant Lines(Up) == b[col := s[row := 0][i := s[row]]]
        invariant step <==> i < row
        invariant i > 0 ==> board[i - 1, col] == Pane(Up, col, i - 1)
        modifies board
      {
        ghost var t: Line := s[row := 0][i := s[row]];
        Shift(i, col, i - 1, col, Up, col, i, b, t);
        assert t[i - 1 := s[row]][i := 0] == s[row := 0][i - 1 := s[row]];
        step := true;
        i := i - 1;
        assert i > 0 ==> board[i - 1, col] == Pane(Up, col, i - 1);
      }
    }

    method PackUp(col: nat) returns (step: bool)
      requires Shape() && col < SIZE
      modifies board
      ensures var o := old(Lines(Up))[col];
        |Pack(o)| <= SIZE && Lines(Up) == old(Lines(Up))[col := Pad(Pack(o), SIZE)] && (step <==> Slides(o))
    {
      hide Pack, Pad, Lines, Grid, Row, Slides, Sliding;
      ghost var b := Lines(Up);
      ghost var o := b[col];
      ghost var s := o;
      SlidingStart(o);
      step := false;
      var row := 0;
      while row < SIZE
        invariant 0 <= row <= SIZE && |s| == SIZE
        invariant Lines(Up) == b[col := s]
        invariant Sliding(o, s, row, step)
        modifies board
      {
        assert board[row, col] == Pane(Up, col, row);
        if board[row, col] == 0 {
          SlidingEmpty(o, s, row, step);
        } else {
          ghost var room := SlidingTile(o, s, row, step);
          var moved := PackUpTile(row, col, b, s, room);
          s := s[row := 0][room := s[row]];
          if moved { step := true; }
        }
        row := row + 1;
      }
      SlidingDone(o, s, step);
    }

    /** moveDown's packing of one tile: it moves towards the wall while the pane before it is empty. */
    method PackDownTile(row: nat, col: nat, ghost b: Board, ghost s: Line, ghost room: nat) returns (step: bool)
      requires Shape() && row < SIZE && col < SIZE && room <= SIZE - 1 - row
      requires Square(b) && |s| == SIZE && Lines(Down) == b[col := s]
      requires EmptyBetween(s, room, SIZE - 1 - row) && (room > 0 ==> s[room - 1] != 0)
      modifies board
      ensures Lines(Down) == b[col := s[SIZE - 1 - row := 0][room := s[SIZE - 1 - row]]]
      ensures step <==> room < SIZE - 1 - row
    {
      hide View, Grid, Set, Row, Lines;
      step := false;
      assert s[SIZE - 1 - row := 0][SIZE - 1 - row := s[SIZE - 1 - row]] == s;
      var i := row;
      assert i < SIZE - 1 ==> board[i + 1, col] == Pane(Down, col, SIZE - 1 - i - 1);
      while i < SIZE - 1 && board[i + 1, col] == 0
        invariant row <= i <= SIZE - 1 - room
        invariant Lines(Down) == b[col := s[SIZE - 1 - row := 0][SIZE - 1 - i := s[SIZE - 1 - row]]]
        invariant step <==> i > row
        invariant i < SIZE - 1 ==> board[i + 1, col] == Pane(Down, col, SIZE - 1 - i - 1)
        modifies board
      {
        ghost var t: Line := s[SIZE - 1 - row := 0][SIZE - 1 - i := s[SIZE - 1 - row]];
        Shift(i, col, i + 1, col, Down, col, SIZE - 1 - i, b, t);
        assert t[SIZE - 1 - i - 1 := s[SIZE - 1 - row]][SIZE - 1 - i := 0]
               == s[SIZE - 1 - row := 0][SIZE - 1 - i - 1 := s[SIZE - 1 - row]];
        step := true;
        i := i + 1;
        assert i < SIZE - 1 ==> board[i + 1, col] == Pane(Down, col, SIZE - 1 - i - 1);
      }
    }

    method PackDown(col: nat) returns (step: bool)
      requires Shape() && col < SIZE
      modifies board
      ensures var o := old(Lines(Down))[col];
        |Pack(o)| <= SIZE && Lines(Down) == old(Lines(Down))[col := Pad(Pack(o), SIZE)] && (step <==> Slides(o))
    {
      hide Pack, Pad, Lines, Grid, Row, Slides, Sliding;
      ghost var b := Lines(Down);
      ghost var o := b[col];
      ghost var s := o;
      SlidingStart(o);
      step := false;
      var row := SIZE - 1;
      while row >= 0
        invariant -1 <= row < SIZE && |s| == SIZE
        invariant Lines(Down) == b[col := s]
        invariant Sliding(o, s, SIZE - 1 - row, step)
        modifies board
      {
        assert board[row, col] == Pane(Down, col, SIZE - 1 - row);
        if board[row, col] == 0 {
          SlidingEmpty(o, s, SIZE - 1 - row, step);
        } else {
          ghost var room := SlidingTile(o, s, SIZE - 1 - row, step);
          var moved := PackDownTile(row, col, b, s, room);
          s := s[SIZE - 1 - row := 0][room := s[SIZE - 1 - row]];
          if moved { step := true; }
        }
        row := row - 1;
      }
      SlidingDone(o, s, step);
    }

    /** The packing pass over the four lines. */
    method PackPass(d: Direction) returns (step: bool)
      requires Shape()
      modifies board
      ensures forall l :: 0 <= l < SIZE ==> |Pack(old(Lines(d))[l])| <= SIZE
      ensures forall l :: 0 <= l < SIZE ==> Lines(d)[l] == Pad(Pack(old(Lines(d))[l]), SIZE)
      ensures step <==> exists l :: 0 <= l < SIZE && Slides(old(Lines(d))[l])
    {
      hide Pack, Pad, Lines, Grid, Row, Slides;
      ghost var b := Lines(d);
      step := false;
      var l := 0;
      while l < SIZE
        invariant 0 <= l <= SIZE
        invariant forall m :: 0 <= m < l ==> |Pack(b[m])| <= SIZE && Lines(d)[m] == Pad(Pack(b[m]), SIZE)
        invariant forall m :: l <= m < SIZE ==> Lines(d)[m] == b[m]
        invariant step <==> exists m :: 0 <= m < l && Slides(b[m])
        modifies board
      {
        var moved;
        match d {
          case Left => moved := PackLeft(l);
          case Right => moved := PackRight(l);
          case Up => moved := PackUp(l);
          case Down => moved := PackDown(l);
        }
        if moved { step := true; }
        l := l + 1;
      }
    }

    /** moveLeft, moveRight, moveUp, moveDown. */
    method Move(d: Direction) returns (step: bool)
      requires Shape()
      modifies this`empty, this`score, board
      ensures Lines(d) == MoveAll(d == Left, old(Lines(d)))
      ensures score == old(score) + GainUpTo(d == Left, old(Lines(d)), SIZE)
      ensures empty == old(empty) + EmptiedUpTo(d == Left, old(Lines(d)), SIZE)
      ensures empty != old(empty) || step <==> Grid() != old(Grid())
    {
      ghost var g := Grid();
      LinesOf(d);
      hide Lines, Grid, Row, GainUpTo, EmptiedUpTo, LineMerged, Pack, Slides, Moved, MoveAll;
      ghost var b := Lines(d);
      MergePass(d);
      ghost var m := Lines(d);
      SpawnTestSetUp(d == Left, b, m);
      step := PackPass(d);
      SpawnTestIsChange(d == Left, b, m, step);
      SameBoard(Lines(d), MoveAll(d == Left, b));
      LinesOf(d);
      SameViewSameBoard(d, g, Grid());
    }

    lemma LinesOf(d: Direction)
      requires Shape()
      ensures Lines(d) == View(d, Grid())
    {
    }

    method SetMaxNumber()
      requires Shape()
      modifies this`maxNumber
      ensures MaxUpdated(Grid(), old(maxNumber), maxNumber)
    {
      hide HasTile;
      var row := 0;
      while row < SIZE
        invariant 0 <= row <= SIZE && old(maxNumber) <= maxNumber
        invariant forall r, c :: 0 <= r < row && 0 <= c < SIZE ==> Grid()[r][c] <= maxNumber
        invariant maxNumber == old(maxNumber) || HasTile(Grid(), maxNumber)
        modifies this`maxNumber
      {
        var col := 0;
        while col < SIZE
          invariant 0 <= col <= SIZE && old(maxNumber) <= maxNumber
          invariant forall r, c :: 0 <= r < row && 0 <= c < SIZE ==> Grid()[r][c] <= maxNumber
          invariant forall c :: 0 <= c < col ==> Grid()[row][c] <= maxNumber
          invariant maxNumber == old(maxNumber) || HasTile(Grid(), maxNumber)
          modifies this`maxNumber
        {
          if maxNumber < board[row, col] {
            maxNumber := board[row, col];
            TileThere(Grid(), row, col);
          }
          col := col + 1;
        }
        row := row + 1;
      }
    }

    /** One for an empty pane on the board. */
    function FreeAt(row: int, col: int): nat
      reads board
      requires Shape()
    {
      if 0 <= row < SIZE && 0 <= col < SIZE && board[row, col] == 0 then 1 else 0
    }

    /** The empty panes around one; for the pane above, row 0 is never looked at. */
    function CountOne(row: nat, col: nat): nat
      reads board
      requires Shape() && row < SIZE && col < SIZE
    {
      (if row - 1 > 0 then FreeAt(row - 1, col) else 0) + FreeAt(row + 1, col)
      + FreeAt(row, col - 1) + FreeAt(row, col + 1)
      + FreeAt(row - 1, col - 1) + FreeAt(row - 1, col + 1) + FreeAt(row + 1, col - 1) + FreeAt(row + 1, col + 1)
    }

    /** The eight panes around, with the one above counted from the third row on only. */
    lemma CountOneIs(row: nat, col: nat)
      requires Shape() && row < SIZE && col < SIZE
      ensures CountOne(row, col) ==
        (if row >= 2 && board[row - 1, col] == 0 then 1 else 0)
        + (if row < 3 && board[row + 1, col] == 0 then 1 else 0)
        + (if col > 0 && board[row, col - 1] == 0 then 1 else 0)
        + (if col < 3 && board[row, col + 1] == 0 then 1 else 0)
        + (if row > 0 && col > 0 && board[row - 1, col - 1] == 0 then 1 else 0)
        + (if row > 0 && col < 3 && board[row - 1, col + 1] == 0 then 1 else 0)
        + (if row < 3 && col > 0 && board[row + 1, col - 1] == 0 then 1 else 0)
        + (if row < 3 && col < 3 && board[row + 1, col + 1] == 0 then 1 else 0)
    {
    }

    /** A pane the spawn may be redirected to. */
    predicate Better(row: nat, col: nat, r: nat, c: nat, lastRow: nat)
      reads this`oldCol, board
      requires Shape() && row < SIZE && col < SIZE && r < SIZE && c < SIZE
    {
      board[r, c] == 0 && CountOne(r, c) > CountOne(row, col) && lastRow != r && oldCol != c
    }

    /** Of the rows behind n up to r, and of row r up to c, no pane is better. */
    ghost predicate NoneBetter(n: int, row: nat, col: nat, r: nat, c: nat, lastRow: nat)
      reads this`oldCol, board
      requires Shape() && row < SIZE && col < SIZE
    {
      forall y, x :: 0 <= y < SIZE && 0 <= x < SIZE && n < y && (y < r || (y == r && x < c)) ==>
        !Better(row, col, y, x, lastRow)
    }

    lemma NoneYet(n: int, row: nat, col: nat, r: nat, lastRow: nat)
      requires Shape() && row < SIZE && col < SIZE && (r == 0 || r == n + 1)
      ensures NoneBetter(n, row, col, r, 0, lastRow)
    {
    }

    lemma StillNone(n: int, row: nat, col: nat, r: nat, c: nat, lastRow: nat)
      requires Shape() && row < SIZE && col < SIZE && r < SIZE && c < SIZE
      ensures NoneBetter(n, row, col, r, c + 1, lastRow) <==>
        NoneBetter(n, row, col, r, c, lastRow) && (n < r ==> !Better(row, col, r, c, lastRow))
      ensures c + 1 == SIZE ==>
        (NoneBetter(n, row, col, r + 1, 0, lastRow) <==> NoneBetter(n, row, col, r, c + 1, lastRow))
      ensures !NoneBetter(n, row, col, r, c + 1, lastRow) ==> !NoneBetter(n, row, col, r + 1, 0, lastRow)
    {
    }

    /** Redirects the spawn, and only to an empty pane with more empty panes around it, exactly if there is a pane for
        that. m_old_row takes both assignments of the source, so it ends as the column; m_old_col never changes. */
    method CountValue(row: nat, col: nat) returns (newRow: nat, newCol: nat)
      requires Shape() && row < SIZE && col < SIZE && board[row, col] == 0
      modifies this`oldRow
      ensures newRow < SIZE && newCol < SIZE && board[newRow, newCol] == 0
      ensures (newRow, newCol) == (row, col) <==> NoneBetter(-1, row, col, SIZE, 0, old(oldRow))
      ensures (newRow, newCol) == (row, col) ==> oldRow == old(oldRow)
      ensures (newRow, newCol) != (row, col) ==>
        && CountOne(newRow, newCol) > CountOne(row, col) && oldRow == newCol != oldCol
        && NoneBetter(newRow, row, col, SIZE, 0, oldRow)
    {
      hide CountOne, FreeAt, Better, NoneBetter;
      newRow, newCol := row, col;
      var max := CountOne(row, col);
      var r := 0;
      NoneYet(-1, row, col, 0, oldRow);
      while r < SIZE
        invariant 0 <= r <= SIZE && newRow < SIZE && newCol < SIZE && board[newRow, newCol] == 0
        invariant (newRow, newCol) == (row, col) <==> NoneBetter(-1, row, col, r, 0, old(oldRow))
        invariant (newRow, newCol) == (row, col) ==> oldRow == old(oldRow)
        invariant (newRow, newCol) != (row, col) ==>
          newRow < r && CountOne(newRow, newCol) > max && oldRow == newCol != oldCol
        invariant (newRow, newCol) != (row, col) ==> NoneBetter(newRow, row, col, r, 0, oldRow)
        modifies this`oldRow
      {
        var c := 0;
        while c < SIZE
          invariant 0 <= c <= SIZE && newRow < SIZE && newCol < SIZE && board[newRow, newCol] == 0
          invariant (newRow, newCol) == (row, col) <==> NoneBetter(-1, row, col, r, c, old(oldRow))
          invariant c == SIZE ==> ((newRow, newCol) == (row, col) <==> NoneBetter(-1, row, col, r + 1, 0, old(oldRow)))
          invariant (newRow, newCol) == (row, col) ==> oldRow == old(oldRow)
          invariant (newRow, newCol) != (row, col) ==>
            newRow < r && CountOne(newRow, newCol) > max && oldRow == newCol != oldCol
          invariant (newRow, newCol) != (row, col) ==> NoneBetter(newRow, row, col, r, c, oldRow)
          invariant c == SIZE && (newRow, newCol) != (row, col) ==> NoneBetter(newRow, row, col, r + 1, 0, oldRow)
          modifies this`oldRow
        {
          StillNone(-1, row, col, r, c, old(oldRow));
          StillNone(newRow, row, col, r, c, oldRow);
          BetterIs(row, col, r, c, oldRow);
          if board[r, c] == 0 && CountOne(r, c) > max && oldRow != r && oldCol != c {
            newRow, newCol := r, c;
            oldRow := r;
            oldRow := c;
            NoneYet(r, row, col, r + 1, oldRow);
            break;
          }
          c := c + 1;
        }
        r := r + 1;
      }
    }

    lemma BetterIs(row: nat, col: nat, r: nat, c: nat, lastRow: nat)
      requires Shape() && row < SIZE && col < SIZE && r < SIZE && c < SIZE
      ensures Better(row, col, r, c, lastRow) <==>
        board[r, c] == 0 && CountOne(r, c) > CountOne(row, col) && lastRow != r && oldCol != c
    {
    }

    /** The spawn: an empty pane found by trying at random, then possibly redirected; a 2 or a 4. */
    method Spawn() returns (ghost r: nat, ghost c: nat, ghost v: nat)
      requires Shape() && Total(Empty, Grid()) > 0
      modifies this`empty, this`oldRow, this`twos, this`fours, board
      ensures r < SIZE && c < SIZE && old(Grid())[r][c] == 0 && (v == 2 || v == 4)
      ensures Grid() == Set(old(Grid()), r, c, v) && empty == old(empty) - 1
      ensures twos == (if v == 2 then old(twos) + 1 else old(twos))
              && fours == (if v == 4 then old(fours) + 1 else old(fours))
    {
      hide Row, Grid;
      ghost var g := Grid();
      RoomIsAPane(g);
      ghost var r0, c0 :| 0 <= r0 < SIZE && 0 <= c0 < SIZE && g[r0][c0] == 0;
      assert board[r0, c0] == 0;
      var row, col :| 0 <= row < SIZE && 0 <= col < SIZE && board[row, col] == 0;
      row, col := CountValue(row, col);
      var number := *;
      if number != 1 { number := 3; }
      r, c, v := row, col, number + 1;
      board[row, col] := number + 1;
      SameBoard(Grid(), Set(g, row, col, number + 1));
      empty := empty - 1;
      if v == 2 { twos := twos + 1; } else { fours := fours + 1; }
    }

    method GameOver()
      modifies this`over
      ensures over
    {
      over := true;
    }

    /** What the loop of play does with a direction key, up to the spawn. */
    method MoveAndRecord(d: Direction) returns (step: bool)
      requires Valid() && maxNumber < winFlag
      modifies this`empty, this`score, this`steps, this`maxNumber, board
      ensures Shape() && Lines(d) == MoveAll(d == Left, old(Lines(d))) && steps == old(steps) + 1
      ensures Books(Grid(), empty, score, twos, fours) && Recorded(Grid(), maxNumber, winFlag)
      ensures empty != old(empty) || step <==> Grid() != old(Grid())
    {
      hide Grid, Row, View, Books, Tops, MaxUpdated, Recorded, MoveAll, GainUpTo, EmptiedUpTo;
      ghost var g := Grid();
      step := Move(d);
      SetMaxNumber();
      steps := steps + 1;
      MoveKeepsGame(d, g, Grid(), old(empty), old(score), twos, fours, old(maxNumber), maxNumber, winFlag);
    }

    /** One turn of the loop of play. */
    method Turn(ch: char)
      requires Valid() && maxNumber < winFlag && !over
      modifies this, board
      ensures Valid()
      ensures KeyOf(ch).Other? ==> Grid() == old(Grid()) && !over && steps == old(steps)
      ensures KeyOf(ch).Quit? ==> Grid() == old(Grid()) && over && steps == old(steps)
      ensures KeyOf(ch).Go? ==>
        var d := KeyOf(ch).d;
        var b := old(Lines(d));
        var m := MoveAll(d == Left, b);
        && steps == old(steps) + 1
        && (if m == b then Lines(d) == b else SpawnedOn(m, Lines(d)))
        && (over <==> Total(Empty, m) == 0)
    {
      hide Grid, Row, View, Books, Tops, Recorded, MoveAll, Total, SpawnedOn;
      ghost var g := Grid();
      var step, oldEmpty := false, empty;
      match KeyOf(ch) {
        case Other => return;
        case Quit => GameOver();
        case Go(d) =>
          step := MoveAndRecord(d);
          RoomAfterMove(d, g, Grid(), empty, score, twos, fours);
          RecordedIsTops(Grid(), maxNumber, winFlag);
      }
      if empty <= 0 { GameOver(); }
      ghost var g1 := Grid();
      if empty != oldEmpty || step {
        ghost var emptyBefore, twosBefore, foursBefore := empty, twos, fours;
        ghost var r, c, v := Spawn();
        SpawnKeepsGame(KeyOf(ch).d, g1, r, c, v, emptyBefore, score, twosBefore, foursBefore, maxNumber, winFlag);
      }
    }

    /** play: turns until the game is over or won. The boards between the turns are what the keys make of them, one by
        one. The win test is an equality, and no turn jumps over it. */
    method Play(keys: string) returns (used: nat, ghost boards: seq<Board>)
      requires Valid() && maxNumber < winFlag && !over
      modifies this, board
      ensures Valid() && used <= |keys| && steps == old(steps) + Moves(keys[..used])
      ensures |boards| == used + 1 && boards[0] == old(Grid()) && boards[used] == Grid()
      ensures forall i :: 0 <= i <= used ==> Square(boards[i])
      ensures forall i :: 0 <= i < used ==> Played(boards[i], keys[i], boards[i + 1])
      ensures used < |keys| ==> over || maxNumber == winFlag
      ensures over ==> used > 0 && match KeyOf(keys[used - 1])
        case Go(d) => Total(Empty, MoveAll(d == Left, View(d, boards[used - 1]))) == 0
        case Quit => true
        case Other => false
      ensures maxNumber == winFlag <==> HasTile(Grid(), winFlag)
      ensures !HasTile(Grid(), winFlag) ==> AtMost(Grid(), winFlag / 2)
    {
      hide Grid, Row, Books, Tops, HasTile, AtMost, Played, View, MoveAll, Total, SpawnedOn;
      used, boards := 0, [Grid()];
      while used < |keys|
        invariant 0 <= used <= |keys|
        invariant Valid() && maxNumber < winFlag && !over
        invariant steps == old(steps) + Moves(keys[..used])
        invariant |boards| == used + 1 && boards[0] == old(Grid()) && boards[used] == Grid()
        invariant forall i :: 0 <= i <= used ==> Square(boards[i])
        invariant forall i :: 0 <= i < used ==> Played(boards[i], keys[i], boards[i + 1])
        modifies this, board
      {
        ghost var g := Grid();
        Turn(keys[used]);
        IsPlayed(g, keys[used], Grid());
        boards := boards + [Grid()];
        assert keys[..used + 1][..used] == keys[..used];
        used := used + 1;
        MaxInRange(Grid(), maxNumber, winFlag);
        if over || maxNumber == winFlag { break; }
      }
      WinTestIsExact(Grid(), maxNumber, winFlag);
    }
  }

  lemma IsPlayed(g: Board, ch: char, g': Board)
    requires Square(g) && Square(g')
    requires !KeyOf(ch).Go? ==> g' == g
    requires KeyOf(ch).Go? ==>
      var d := KeyOf(ch).d;
      var m := MoveAll(d == Left, View(d, g));
      if m == View(d, g) then View(d, g') == m else SpawnedOn(m, View(d, g'))
    ensures Played(g, ch, g')
  {
  }

  lemma MaxInRange(g: Board, max: nat, win: nat)
    requires Square(g) && Tops(g, max, win)
    ensures max <= win
  {
  }

  /** The books of the first board. */
  lemma FirstTile(g: Board, row: nat, col: nat, win: nat)
    requires Square(g) && row < SIZE && col < SIZE && IsPower(win) && win >= 8
    requires Blank(g)
    ensures Books(Set(g, row, col, 2), SIZE * SIZE - 1, 0, 1, 0) && Tops(Set(g, row, col, 2), 2, win)
  {
    EmptyBoard(g);
    SpawnKeepsBooks(g, row, col, 2, SIZE * SIZE, 0, 0, 0);
    var g' := Set(g, row, col, 2);
    assert HasAtLeast(g'[row], 2) by { assert g'[row][col] == 2; }
    assert IsPower(1) && IsPower(2);
    hide Books, IsPower;
  }

  lemma EmptyBoard(g: Board)
    requires Square(g) && Blank(g)
    ensures Books(g, SIZE * SIZE, 0, 0, 0)
  {
    WorthOfTwo();
    hide Worth;
    TallyFour(Empty, g[0]); TallyFour(Empty, g[1]); TallyFour(Empty, g[2]); TallyFour(Empty, g[3]);
    TallyFour(Value, g[0]); TallyFour(Value, g[1]); TallyFour(Value, g[2]); TallyFour(Value, g[3]);
    TallyFour(Worth, g[0]); TallyFour(Worth, g[1]); TallyFour(Worth, g[2]); TallyFour(Worth, g[3]);
    hide Tally;
  }

  /** The two passes make the move. */
  lemma SpawnTestSetUp(adjacent: bool, b: Board, m: Board)
    requires Square(b) && Square(m) && forall l :: 0 <= l < SIZE ==> LineMerged(adjacent, b[l], m[l])
    ensures forall l :: 0 <= l < SIZE ==> |Pack(m[l])| <= SIZE && Pad(Pack(m[l]), SIZE) == MoveAll(adjacent, b)[l]
  {
    forall l | 0 <= l < SIZE ensures |Pack(m[l])| <= SIZE && Pad(Pack(m[l]), SIZE) == MoveAll(adjacent, b)[l] {
      LineChangedIff(adjacent, b[l], m[l]);
      hide Moved, Pack, Pad, LineMerged;
    }
  }

  // ---------- the state of the packing pass over one line ----------

  ghost predicate Sliding(o: Line, s: Line, k: nat, step: bool) {
    |o| == |s| == SIZE && k <= SIZE && PackedAt(o, s, k) && (step <==> s != o)
  }

  lemma SlidingStart(o: Line)
    requires |o| == SIZE
    ensures Sliding(o, o, 0, false)
  {
    assert Pack(o[..0]) == [] && Zeros(0) == [];
  }

  lemma SlidingEmpty(o: Line, s: Line, k: nat, step: bool)
    requires Sliding(o, s, k, step) && k < SIZE && s[k] == 0
    ensures Sliding(o, s, k + 1, step)
  {
    PackedStep(o, s, k);
  }

  /** A tile moves to the first empty pane; it moves at all only if there is one before it. */
  lemma SlidingTile(o: Line, s: Line, k: nat, step: bool) returns (room: nat)
    requires Sliding(o, s, k, step) && k < SIZE && s[k] != 0
    ensures room <= k && EmptyBetween(s, room, k) && (room > 0 ==> s[room - 1] != 0)
    ensures Sliding(o, s[k := 0][room := s[k]], k + 1, step || room < k)
  {
    room := |Pack(o[..k])|;
    RoomIsEmpty(o, s, k);
    PackedStep(o, s, k);
    PackedAtParts(o, s, k);
    hide Pack, PackedAt;
    if room == k { assert s[k := 0][room := s[k]] == s; }
  }

  /** Between the packed tiles and pane k there is nothing. */
  lemma RoomIsEmpty(o: Line, s: Line, k: nat)
    requires PackedAt(o, s, k) && k < |o|
    ensures var room := |Pack(o[..k])|; room <= k && EmptyBetween(s, room, k) && (room > 0 ==> s[room - 1] != 0)
  {
    var p := Pack(o[..k]);
    PackedAtParts(o, s, k);
    PadParts(p, k);
    hide Pack, PackedAt, Pad;
    forall n | |p| <= n < k ensures s[n] == 0 { assert s[n] == s[..k][n]; }
    if |p| > 0 { assert s[|p| - 1] == s[..k][|p| - 1] == p[|p| - 1] && p[|p| - 1] in p; }
  }

  lemma PackedAtParts(o: Line, s: Line, k: nat)
    requires PackedAt(o, s, k) && k < |o|
    ensures |Pack(o[..k])| <= k && s[..k] == Pad(Pack(o[..k]), k) && s[k] == o[k]
  {
    assert s[k] == s[k..][0] == o[k..][0] == o[k];
  }

  lemma PadParts(p: Line, n: nat)
    requires |p| <= n
    ensures forall i :: 0 <= i < |p| ==> Pad(p, n)[i] == p[i]
    ensures forall i :: |p| <= i < n ==> Pad(p, n)[i] == 0
  {
  }

  lemma SlidingDone(o: Line, s: Line, step: bool)
    requires Sliding(o, s, SIZE, step)
    ensures |Pack(o)| <= SIZE && s == Pad(Pack(o), SIZE) && (step <==> Slides(o))
  {
    assert o[..SIZE] == o && s[..SIZE] == s;
  }

  lemma MergingJoins(o: Line, s: Line, k: nat, i: nat, gained: nat, emptied: nat)
    requires Merging(false, o, s, k, gained, emptied)
    requires k < i < SIZE && s[k] != 0 && EmptyBetween(s, k + 1, i) && s[i] == s[k]
    ensures Merging(false, o, s[k := s[k] + s[i]][i := 0], i, gained + s[k], emptied + 1)
  {
    hide Pack, MergeAt, AdjacentAt, EmptyBetween;
    MergeJoins(o, s, k, i, gained);
  }

  lemma MergingKeeps(o: Line, s: Line, k: nat, i: nat, gained: nat, emptied: nat)
    requires Merging(false, o, s, k, gained, emptied)
    requires k < i <= SIZE && s[k] != 0 && EmptyBetween(s, k + 1, i) && (i < SIZE ==> s[i] != 0 && s[i] != s[k])
    ensures Merging(false, o, s, i, gained, emptied)
  {
    hide Pack, MergeAt, AdjacentAt, EmptyBetween;
    MergeKeeps(o, s, k, i, gained);
  }

  lemma AdjacentMergingJoins(o: Line, s: Line, k: nat, gained: nat, emptied: nat)
    requires Merging(true, o, s, k, gained, emptied) && k + 1 < SIZE && s[k] != 0 && s[k] == s[k + 1]
    ensures Merging(true, o, s[k := s[k] + s[k + 1]][k + 1 := 0], k + 1, gained + s[k], emptied + 1)
  {
    hide Pack, MergeAt, AdjacentAt;
    AdjacentJoins(o, s, k, gained);
  }

  lemma AdjacentMergingKeeps(o: Line, s: Line, k: nat, gained: nat, emptied: nat)
    requires Merging(true, o, s, k, gained, emptied) && k < SIZE && (k + 1 == SIZE || s[k] != s[k + 1])
    ensures Merging(true, o, s, k + 1, gained, emptied)
  {
    hide Pack, MergeAt, AdjacentAt;
    AdjacentKeeps(o, s, k, gained);
  }
}
