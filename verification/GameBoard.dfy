/**
 The 2048 board as a value: its lines in the four directions, what a move makes of it, and the books a turn keeps.
 */
module GameBoard {
  import opened GameLine

  const SIZE := 4

  datatype Direction = Left | Right | Up | Down

  type Board = seq<Line>

  predicate Square(b: Board) { |b| == SIZE && forall l :: 0 <= l < SIZE ==> |b[l]| == SIZE }

  // ---------- directions ----------

  /** Pane k, counted from the wall, of a line: its row and its column. */
  function RowOf(d: Direction, l: nat, k: nat): (r: nat)
    requires l < SIZE && k < SIZE
    ensures r < SIZE
  {
    match d case Left => l case Right => l case Up => k case Down => SIZE - 1 - k
  }

  function ColOf(d: Direction, l: nat, k: nat): (c: nat)
    requires l < SIZE && k < SIZE
    ensures c < SIZE
  {
    match d case Left => k case Right => SIZE - 1 - k case Up => l case Down => l
  }

  /** The lines of a board, each from its wall: rows from the left or from the right, columns from the top or from the
      bottom. */
  lemma Directions(g: Board, l: nat, k: nat)
    requires Square(g) && l < SIZE && k < SIZE
    ensures View(Left, g)[l][k] == g[l][k] && View(Right, g)[l][k] == g[l][SIZE - 1 - k]
    ensures View(Up, g)[l][k] == g[k][l] && View(Down, g)[l][k] == g[SIZE - 1 - k][l]
  {
  }

  /** And back. */
  function LineOf(d: Direction, r: nat, c: nat): (l: nat)
    requires r < SIZE && c < SIZE
    ensures l < SIZE
  {
    match d case Left => r case Right => r case Up => c case Down => c
  }

  function PosOf(d: Direction, r: nat, c: nat): (k: nat)
    requires r < SIZE && c < SIZE
    ensures k < SIZE && RowOf(d, LineOf(d, r, c), k) == r && ColOf(d, LineOf(d, r, c), k) == c
  {
    match d case Left => c case Right => SIZE - 1 - c case Up => r case Down => SIZE - 1 - r
  }

  lemma PaneAndBack(d: Direction, l: nat, k: nat)
    requires l < SIZE && k < SIZE
    ensures LineOf(d, RowOf(d, l, k), ColOf(d, l, k)) == l && PosOf(d, RowOf(d, l, k), ColOf(d, l, k)) == k
  {
  }

  function ViewLine(d: Direction, g: Board, l: nat): (s: Line)
    requires Square(g) && l < SIZE
    ensures |s| == SIZE && forall k :: 0 <= k < SIZE ==> s[k] == g[RowOf(d, l, k)][ColOf(d, l, k)]
  {
    [g[RowOf(d, l, 0)][ColOf(d, l, 0)], g[RowOf(d, l, 1)][ColOf(d, l, 1)],
     g[RowOf(d, l, 2)][ColOf(d, l, 2)], g[RowOf(d, l, 3)][ColOf(d, l, 3)]]
  }

  /** The rows of the board, as lines in direction d. */
  function View(d: Direction, g: Board): (b: Board)
    requires Square(g)
    ensures Square(b) && forall l, k :: 0 <= l < SIZE && 0 <= k < SIZE ==> b[l][k] == g[RowOf(d, l, k)][ColOf(d, l, k)]
  {
    [ViewLine(d, g, 0), ViewLine(d, g, 1), ViewLine(d, g, 2), ViewLine(d, g, 3)]
  }

  function Set(b: Board, l: nat, k: nat, v: nat): (r: Board)
    requires Square(b) && l < SIZE && k < SIZE
    ensures Square(r)
  {
    var s: Line := b[l][k := v];
    b[l := s]
  }

  /** Writing a pane of the board writes that pane of the lines, and no other. */
  lemma SetView(d: Direction, g: Board, l: nat, k: nat, v: nat)
    requires Square(g) && l < SIZE && k < SIZE
    ensures View(d, Set(g, RowOf(d, l, k), ColOf(d, l, k), v)) == Set(View(d, g), l, k, v)
  {
    hide View, ViewLine, Set, RowOf, ColOf;
    var b, b' := View(d, g), View(d, Set(g, RowOf(d, l, k), ColOf(d, l, k), v));
    forall m, n | 0 <= m < SIZE && 0 <= n < SIZE ensures b'[m][n] == Set(b, l, k, v)[m][n] {
      SetViewAt(d, g, l, k, v, m, n);
    }
    SameBoard(b', Set(b, l, k, v));
  }

  lemma SetViewAt(d: Direction, g: Board, l: nat, k: nat, v: nat, m: nat, n: nat)
    requires Square(g) && l < SIZE && k < SIZE && m < SIZE && n < SIZE
    ensures View(d, Set(g, RowOf(d, l, k), ColOf(d, l, k), v))[m][n] == Set(View(d, g), l, k, v)[m][n]
  {
    PaneAndBack(d, l, k);
    PaneAndBack(d, m, n);
    hide View, ViewLine;
  }

  lemma SameBoard(b: Board, b': Board)
    requires Square(b) && Square(b') && forall m, n :: 0 <= m < SIZE && 0 <= n < SIZE ==> b[m][n] == b'[m][n]
    ensures b == b'
  {
    forall m | 0 <= m < SIZE ensures b[m] == b'[m] { }
  }

  lemma SameViewSameBoard(d: Direction, g: Board, g': Board)
    requires Square(g) && Square(g')
    ensures View(d, g) == View(d, g') <==> g == g'
  {
    if View(d, g) == View(d, g') {
      forall r | 0 <= r < SIZE ensures g[r] == g'[r] {
        forall c | 0 <= c < SIZE ensures g[r][c] == g'[r][c] {
          assert View(d, g)[LineOf(d, r, c)][PosOf(d, r, c)] == g[r][c];
          assert View(d, g')[LineOf(d, r, c)][PosOf(d, r, c)] == g'[r][c];
        }
      }
    }
  }

  // ---------- sums over the board ----------

  function Total(f: nat -> nat, b: Board): nat
    requires Square(b)
  {
    Tally(f, b[0]) + Tally(f, b[1]) + Tally(f, b[2]) + Tally(f, b[3])
  }

  lemma TallyFour(f: nat -> nat, s: Line)
    requires |s| == SIZE
    ensures Tally(f, s) == f(s[0]) + f(s[1]) + f(s[2]) + f(s[3])
  {
    assert Tally(f, s[1..]) == f(s[1]) + Tally(f, s[2..]) by { assert s[1..][1..] == s[2..]; }
    assert Tally(f, s[2..]) == f(s[2]) + Tally(f, s[3..]) by { assert s[2..][1..] == s[3..]; }
    assert Tally(f, s[3..]) == f(s[3]);
  }

  /** A sum over the panes is the same in every direction. */
  lemma TotalInView(f: nat -> nat, d: Direction, g: Board)
    requires Square(g)
    ensures Total(f, View(d, g)) == Total(f, g)
  {
    var b := View(d, g);
    TallyFour(f, b[0]); TallyFour(f, b[1]); TallyFour(f, b[2]); TallyFour(f, b[3]);
    TallyFour(f, g[0]); TallyFour(f, g[1]); TallyFour(f, g[2]); TallyFour(f, g[3]);
    hide Tally;
  }

  lemma TotalAfterSet(f: nat -> nat, b: Board, l: nat, k: nat, v: nat)
    requires Square(b) && l < SIZE && k < SIZE
    ensures Total(f, Set(b, l, k, v)) + f(b[l][k]) == Total(f, b) + f(v)
  {
    TallyFour(f, b[l]);
    TallyFour(f, b[l][k := v]);
    hide Tally;
  }

  // ---------- a move ----------

  /** What a move in one direction makes of the lines. */
  function MoveAll(adjacent: bool, b: Board): (r: Board)
    requires Square(b)
    ensures Square(r)
  {
    [Moved(adjacent, b[0]), Moved(adjacent, b[1]), Moved(adjacent, b[2]), Moved(adjacent, b[3])]
  }

  /** The points of the first n lines. */
  function GainUpTo(adjacent: bool, b: Board, n: nat): nat
    requires Square(b) && n <= SIZE
  {
    if n == 0 then 0 else GainUpTo(adjacent, b, n - 1) + Gain(adjacent, b[n - 1])
  }

  function Emptied(adjacent: bool, s: Line): nat {
    MergedSameLength(adjacent, s);
    |Pack(s)| - |Merged(adjacent, s)|
  }

  /** The panes emptied in the first n lines. */
  function EmptiedUpTo(adjacent: bool, b: Board, n: nat): nat
    requires Square(b) && n <= SIZE
  {
    if n == 0 then 0 else EmptiedUpTo(adjacent, b, n - 1) + Emptied(adjacent, b[n - 1])
  }

  predicate TileOrEmpty(t: nat) { t == 0 || (t >= 2 && IsPower(t)) }

  predicate IsPower(t: nat) { t == 1 || (t >= 2 && t % 2 == 0 && IsPower(t / 2)) }

  predicate AllTiles(b: Board)
    requires Square(b)
  {
    forall l, k :: 0 <= l < SIZE && 0 <= k < SIZE ==> TileOrEmpty(b[l][k])
  }

  predicate AtMost(b: Board, m: nat)
    requires Square(b)
  {
    forall l, k :: 0 <= l < SIZE && 0 <= k < SIZE ==> b[l][k] <= m
  }

  /** Some tile is at least t. */
  predicate Reaches(b: Board, t: nat)
    requires Square(b)
  {
    exists l :: 0 <= l < SIZE && HasAtLeast(b[l], t)
  }

  lemma {:induction false} PowersApart(a: nat, b: nat)
    requires IsPower(a) && IsPower(b) && a < b
    ensures 2 * a <= b
    decreases a
  {
    if a > 1 { PowersApart(a / 2, b / 2); }
  }

  /** The books: empty panes counted, every tile a power of two from spawned ones, every point accounted for. */
  ghost predicate Books(b: Board, empty: int, score: nat, twos: nat, fours: nat)
    requires Square(b)
  {
    && empty == Total(Empty, b)
    && AllTiles(b)
    && Total(Value, b) == 2 * twos + 4 * fours
    && score + 2 * fours == Total(Worth, b)
  }

  lemma BooksInView(d: Direction, g: Board, empty: int, score: nat, twos: nat, fours: nat)
    requires Square(g)
    ensures Books(View(d, g), empty, score, twos, fours) <==> Books(g, empty, score, twos, fours)
  {
    TotalInView(Empty, d, g);
    TotalInView(Value, d, g);
    TotalInView(Worth, d, g);
    TilesInView(d, g);
    hide Total, AllTiles;
  }

  lemma TilesInView(d: Direction, g: Board)
    requires Square(g)
    ensures AllTiles(View(d, g)) <==> AllTiles(g)
  {
    var b := View(d, g);
    hide TileOrEmpty;
    if AllTiles(b) {
      forall r, c | 0 <= r < SIZE && 0 <= c < SIZE ensures TileOrEmpty(g[r][c]) {
        assert TileOrEmpty(b[LineOf(d, r, c)][PosOf(d, r, c)]);
      }
    }
  }

  /** A move keeps the sum of the tiles, and its points and emptied panes are the ones it books. */
  lemma MoveKeepsBooks(adjacent: bool, b: Board, empty: int, score: nat, twos: nat, fours: nat)
    requires Square(b) && Books(b, empty, score, twos, fours)
    ensures Books(MoveAll(adjacent, b), empty + EmptiedUpTo(adjacent, b, SIZE),
                  score + GainUpTo(adjacent, b, SIZE), twos, fours)
  {
    hide Total, MoveAll, GainUpTo, EmptiedUpTo, AllTiles, Worth, Value, Empty;
    MoveKeepsTiles(adjacent, b);
    MoveTotals(adjacent, b);
  }

  lemma MoveTotals(adjacent: bool, b: Board)
    requires Square(b) && AllTiles(b)
    ensures Total(Empty, MoveAll(adjacent, b)) == Total(Empty, b) + EmptiedUpTo(adjacent, b, SIZE)
    ensures Total(Value, MoveAll(adjacent, b)) == Total(Value, b)
    ensures Total(Worth, MoveAll(adjacent, b)) == Total(Worth, b) + GainUpTo(adjacent, b, SIZE)
  {
    hide Tally, Moved, GainUpTo, EmptiedUpTo, Gain, Emptied, AllTiles, Value, Worth, Empty;
    LineBooks(adjacent, b, 0); LineBooks(adjacent, b, 1); LineBooks(adjacent, b, 2); LineBooks(adjacent, b, 3);
    UpToFour(adjacent, b);
  }

  lemma LineBooks(adjacent: bool, b: Board, l: nat)
    requires Square(b) && AllTiles(b) && l < SIZE
    ensures Tally(Value, Moved(adjacent, b[l])) == Tally(Value, b[l])
    ensures Tally(Worth, Moved(adjacent, b[l])) == Tally(Worth, b[l]) + Gain(adjacent, b[l])
    ensures Tally(Empty, Moved(adjacent, b[l])) == Tally(Empty, b[l]) + Emptied(adjacent, b[l])
  {
    LinePlayable(b, l);
    hide Tally, Moved, Merged, Pack, Gain, Value, Worth, Empty;
    MovedBooks(adjacent, b[l]);
  }

  lemma LinePlayable(b: Board, l: nat)
    requires Square(b) && AllTiles(b) && l < SIZE
    ensures Playable(b[l])
  {
  }

  lemma UpToFour(adjacent: bool, b: Board)
    requires Square(b)
    ensures GainUpTo(adjacent, b, SIZE)
            == Gain(adjacent, b[0]) + Gain(adjacent, b[1]) + Gain(adjacent, b[2]) + Gain(adjacent, b[3])
    ensures EmptiedUpTo(adjacent, b, SIZE)
            == Emptied(adjacent, b[0]) + Emptied(adjacent, b[1]) + Emptied(adjacent, b[2]) + Emptied(adjacent, b[3])
  {
    hide Gain, Emptied;
    assert GainUpTo(adjacent, b, 1) == Gain(adjacent, b[0]) && EmptiedUpTo(adjacent, b, 1) == Emptied(adjacent, b[0]);
    assert GainUpTo(adjacent, b, 2) == Gain(adjacent, b[0]) + Gain(adjacent, b[1]);
    assert EmptiedUpTo(adjacent, b, 2) == Emptied(adjacent, b[0]) + Emptied(adjacent, b[1]);
  }

  lemma MoveKeepsTiles(adjacent: bool, b: Board)
    requires Square(b) && AllTiles(b)
    ensures AllTiles(MoveAll(adjacent, b))
  {
    forall l, k | 0 <= l < SIZE && 0 <= k < SIZE ensures TileOrEmpty(MoveAll(adjacent, b)[l][k]) {
      MovedTiles(adjacent, b[l], 0);
      assert MoveAll(adjacent, b)[l] == Moved(adjacent, b[l]);
      var t := Moved(adjacent, b[l])[k];
      assert t in Moved(adjacent, b[l]);
      hide Moved;
      if t != 0 && t !in b[l] { TileDoubles(b, l, t); }
    }
  }

  lemma TileDoubles(b: Board, l: nat, t: nat)
    requires Square(b) && AllTiles(b) && l < SIZE && t % 2 == 0 && t != 0 && t / 2 in b[l] && t / 2 != 0
    ensures TileOrEmpty(t)
  {
    var k :| 0 <= k < SIZE && b[l][k] == t / 2;
    assert TileOrEmpty(b[l][k]);
  }

  // ---------- did the board change? ----------

  /** A line after the merge pass: the merged tiles, somewhere; untouched if no two were merged. */
  ghost predicate LineMerged(adjacent: bool, o: Line, s: Line) {
    && |s| == |o| && Pack(s) == Merged(adjacent, o)
    && (|Merged(adjacent, o)| == |Pack(o)| ==> s == o)
  }

  /** The packing pass moves a tile of this line. */
  predicate Slides(s: Line) { Pad(Pack(s), |s|) != s }

  lemma LineChangedIff(adjacent: bool, o: Line, s: Line)
    requires LineMerged(adjacent, o, s)
    ensures Pad(Pack(s), |s|) == Moved(adjacent, o)
    ensures Moved(adjacent, o) != o <==> Emptied(adjacent, o) != 0 || Slides(s)
  {
    UnchangedIff(adjacent, o);
    MergedSameLength(adjacent, o);
    assert Moved(adjacent, o) == Pad(Merged(adjacent, o), |o|);
    hide Pad, Merged, Pack;
  }

  lemma {:induction false} NothingEmptied(adjacent: bool, b: Board, n: nat)
    requires Square(b) && n <= SIZE
    ensures EmptiedUpTo(adjacent, b, n) == 0 <==> forall l :: 0 <= l < n ==> Emptied(adjacent, b[l]) == 0
  {
    hide Emptied;
    if n > 0 { NothingEmptied(adjacent, b, n - 1); }
  }

  /** The test before the spawn: emptied panes or a tile slid, exactly when the board is another one. */
  lemma SpawnTestIsChange(adjacent: bool, b: Board, m: Board, step: bool)
    requires Square(b) && Square(m) && forall l :: 0 <= l < SIZE ==> LineMerged(adjacent, b[l], m[l])
    requires step <==> exists l :: 0 <= l < SIZE && Slides(m[l])
    ensures EmptiedUpTo(adjacent, b, SIZE) != 0 || step <==> MoveAll(adjacent, b) != b
  {
    NothingEmptied(adjacent, b, SIZE);
    forall l | 0 <= l < SIZE
      ensures Moved(adjacent, b[l]) != b[l] <==> Emptied(adjacent, b[l]) != 0 || Slides(m[l])
    {
      LineChangedIff(adjacent, b[l], m[l]);
    }
    hide Moved, Emptied, Slides, MoveAll, LineMerged, EmptiedUpTo;
    MoveAllSameIff(adjacent, b);
  }

  lemma MoveAllSameIff(adjacent: bool, b: Board)
    requires Square(b)
    ensures MoveAll(adjacent, b) == b <==> forall l :: 0 <= l < SIZE ==> Moved(adjacent, b[l]) == b[l]
  {
    hide Moved;
    assert forall l :: 0 <= l < SIZE ==> MoveAll(adjacent, b)[l] == Moved(adjacent, b[l]);
  }

  lemma {:induction false} PackSameLength(s: Line)
    requires |Pack(s)| == |s|
    ensures Pack(s) == s
  {
    if s != [] { PackSameLength(s[1..]); }
  }

  /** A line that changed has an empty pane. */
  lemma ChangedLineHasRoom(adjacent: bool, s: Line)
    requires Moved(adjacent, s) != s
    ensures Tally(Empty, Moved(adjacent, s)) > 0
  {
    UnchangedIff(adjacent, s);
    MergedSameLength(adjacent, s);
    MergedNoZero(adjacent, s);
    PackOfPad(Merged(adjacent, s), |s|);
    EmptyAndTiles(Moved(adjacent, s));
    if |Merged(adjacent, s)| == |s| { PackSameLength(s); }
  }

  /** A move that changes the board leaves an empty pane for the spawn. */
  lemma ChangedBoardHasRoom(adjacent: bool, b: Board)
    requires Square(b) && MoveAll(adjacent, b) != b
    ensures Total(Empty, MoveAll(adjacent, b)) > 0
  {
    hide Moved, Tally;
    var l :| 0 <= l < SIZE && MoveAll(adjacent, b)[l] != b[l];
    ChangedLineHasRoom(adjacent, b[l]);
  }

  lemma {:induction false} RoomInLine(s: Line)
    requires Tally(Empty, s) > 0
    ensures exists k :: 0 <= k < |s| && s[k] == 0
  {
    if s[0] != 0 {
      RoomInLine(s[1..]);
      var k :| 0 <= k < |s[1..]| && s[1..][k] == 0;
      assert s[k + 1] == 0;
    }
  }

  lemma RoomIsAPane(b: Board)
    requires Square(b) && Total(Empty, b) > 0
    ensures exists r, c :: 0 <= r < SIZE && 0 <= c < SIZE && b[r][c] == 0
  {
    hide Tally;
    var l: nat := if Tally(Empty, b[0]) > 0 then 0 else if Tally(Empty, b[1]) > 0 then 1
             else if Tally(Empty, b[2]) > 0 then 2 else 3;
    RoomInLine(b[l]);
    var k :| 0 <= k < SIZE && b[l][k] == 0;
  }

  // ---------- the largest tile and the win test ----------

  function Larger(a: nat, b: nat): nat { if a < b then b else a }

  /** The recorded maximum: a power of two some tile reaches; only a spawned 4 may be above it. */
  ghost predicate Tops(b: Board, max: nat, win: nat)
    requires Square(b)
  {
    && IsPower(max) && max >= 2 && Reaches(b, max) && AtMost(b, Larger(max, 4))
    && IsPower(win) && win >= 8 && max <= win
  }

  /** What setMaxNumber makes of the recorded maximum. */
  predicate MaxUpdated(b: Board, max: nat, max': nat)
    requires Square(b)
  {
    max <= max' && AtMost(b, max') && (max' == max || HasTile(b, max'))
  }

  /** A move before the game is won: the new maximum is a power of two up to the win flag. */
  lemma MoveTops(adjacent: bool, b: Board, max: nat, max': nat, win: nat)
    requires Square(b) && AllTiles(b) && Tops(b, max, win) && max < win
    requires MaxUpdated(MoveAll(adjacent, b), max, max')
    ensures IsPower(max') && max' <= win && Reaches(MoveAll(adjacent, b), max')
  {
    var r := MoveAll(adjacent, b);
    PowersApart(max, win);
    MoveKeepsTiles(adjacent, b);
    MoveReaches(adjacent, b, max);
    if max' != max {
      var l, k :| 0 <= l < SIZE && 0 <= k < SIZE && r[l][k] == max';
      assert TileOrEmpty(r[l][k]);
      assert HasAtLeast(r[l], max');
      MovedAtMost(adjacent, b, l, k, Larger(max, 4));
    }
  }

  lemma MoveReaches(adjacent: bool, b: Board, t: nat)
    requires Square(b) && Reaches(b, t) && t > 0
    ensures Reaches(MoveAll(adjacent, b), t)
  {
    var l :| 0 <= l < SIZE && HasAtLeast(b[l], t);
    MovedTiles(adjacent, b[l], t);
    assert MoveAll(adjacent, b)[l] == Moved(adjacent, b[l]);
  }

  lemma MovedAtMost(adjacent: bool, b: Board, l: nat, k: nat, m: nat)
    requires Square(b) && AtMost(b, m) && l < SIZE && k < SIZE
    ensures MoveAll(adjacent, b)[l][k] <= 2 * m
  {
    MovedTiles(adjacent, b[l], 0);
    assert MoveAll(adjacent, b)[l] == Moved(adjacent, b[l]);
    hide Moved, MoveAll;
    var t := Moved(adjacent, b[l])[k];
    assert t in Moved(adjacent, b[l]);
    if t != 0 {
      var u := if t in b[l] then t else t / 2;
      var n :| 0 <= n < SIZE && b[l][n] == u;
      assert b[l][n] <= m;
    }
  }

  /** One tile more, on an empty pane. */
  ghost predicate SpawnedOn(b: Board, b': Board)
    requires Square(b)
  {
    exists l, k :: 0 <= l < SIZE && 0 <= k < SIZE && b[l][k] == 0 && (b' == Set(b, l, k, 2) || b' == Set(b, l, k, 4))
  }

  lemma SpawnTops(b: Board, l: nat, k: nat, v: nat, max: nat)
    requires Square(b) && l < SIZE && k < SIZE && b[l][k] == 0 && (v == 2 || v == 4)
    requires Reaches(b, max) && AtMost(b, max) && max > 0
    ensures Reaches(Set(b, l, k, v), max) && AtMost(Set(b, l, k, v), Larger(max, 4))
  {
    var n :| 0 <= n < SIZE && HasAtLeast(b[n], max);
    var i :| 0 <= i < SIZE && max <= b[n][i];
    assert Set(b, l, k, v)[n][i] == b[n][i];
  }

  predicate HasTile(b: Board, t: nat)
    requires Square(b)
  {
    exists l, k :: 0 <= l < SIZE && 0 <= k < SIZE && b[l][k] == t
  }

  lemma TileThere(b: Board, l: nat, k: nat)
    requires Square(b) && l < SIZE && k < SIZE
    ensures HasTile(b, b[l][k])
  {
  }

  /** The equality test of the turn's end sees the win: the recorded maximum is the flag exactly when a tile is. */
  lemma WinTestIsExact(b: Board, max: nat, win: nat)
    requires Square(b) && Tops(b, max, win)
    ensures max == win <==> HasTile(b, win)
    ensures !HasTile(b, win) ==> AtMost(b, win / 2)
  {
    if max == win {
      var n :| 0 <= n < SIZE && HasAtLeast(b[n], max);
      var i :| 0 <= i < SIZE && max <= b[n][i];
      assert b[n][i] == win;
    } else {
      PowersApart(max, win);
    }
  }

  lemma SpawnKeepsBooks(b: Board, l: nat, k: nat, v: nat, empty: int, score: nat, twos: nat, fours: nat)
    requires Square(b) && l < SIZE && k < SIZE && b[l][k] == 0 && (v == 2 || v == 4)
    requires Books(b, empty, score, twos, fours)
    ensures Books(Set(b, l, k, v), empty - 1, score,
                  if v == 2 then twos + 1 else twos, if v == 4 then fours + 1 else fours)
  {
    TotalAfterSet(Empty, b, l, k, v);
    TotalAfterSet(Value, b, l, k, v);
    TotalAfterSet(Worth, b, l, k, v);
    SpawnWorth();
    SpawnKeepsTiles(b, l, k, v);
    hide Total, Set, AllTiles, Worth;
  }

  lemma SpawnWorth()
    ensures Worth(0) == 0 && Worth(2) == 0 && Worth(4) == 2
  {
    WorthDoubles(2);
  }

  lemma SpawnKeepsTiles(b: Board, l: nat, k: nat, v: nat)
    requires Square(b) && l < SIZE && k < SIZE && AllTiles(b) && (v == 2 || v == 4)
    ensures AllTiles(Set(b, l, k, v))
  {
    assert IsPower(2) && IsPower(4);
    hide IsPower;
  }

  // ---------- the same in every direction ----------

  lemma AtMostInView(d: Direction, g: Board, m: nat)
    requires Square(g)
    ensures AtMost(View(d, g), m) <==> AtMost(g, m)
  {
    var b := View(d, g);
    if AtMost(b, m) {
      forall r, c | 0 <= r < SIZE && 0 <= c < SIZE ensures g[r][c] <= m {
        assert b[LineOf(d, r, c)][PosOf(d, r, c)] <= m;
      }
    }
  }

  lemma ReachesInView(d: Direction, g: Board, t: nat)
    requires Square(g)
    ensures Reaches(View(d, g), t) <==> Reaches(g, t)
  {
    var b := View(d, g);
    if Reaches(b, t) {
      var l :| 0 <= l < SIZE && HasAtLeast(b[l], t);
      var k :| 0 <= k < SIZE && t <= b[l][k];
      assert t <= g[RowOf(d, l, k)][ColOf(d, l, k)];
      assert HasAtLeast(g[RowOf(d, l, k)], t);
    }
    if Reaches(g, t) {
      var r :| 0 <= r < SIZE && HasAtLeast(g[r], t);
      var c :| 0 <= c < SIZE && t <= g[r][c];
      assert t <= b[LineOf(d, r, c)][PosOf(d, r, c)];
      assert HasAtLeast(b[LineOf(d, r, c)], t);
    }
  }

  lemma TopsInView(d: Direction, g: Board, max: nat, win: nat)
    requires Square(g)
    ensures Tops(View(d, g), max, win) <==> Tops(g, max, win)
  {
    hide View, IsPower, Reaches, AtMost;
    AtMostInView(d, g, Larger(max, 4));
    ReachesInView(d, g, max);
  }

  lemma MaxInView(d: Direction, g: Board, max: nat, max': nat)
    requires Square(g) && MaxUpdated(g, max, max')
    ensures MaxUpdated(View(d, g), max, max')
  {
    AtMostInView(d, g, max');
    if max' != max {
      var r, c :| 0 <= r < SIZE && 0 <= c < SIZE && g[r][c] == max';
      assert View(d, g)[LineOf(d, r, c)][PosOf(d, r, c)] == max';
    }
  }

  lemma MaxMeansAtMost(b: Board, max: nat, max': nat)
    requires Square(b) && MaxUpdated(b, max, max')
    ensures AtMost(b, max') && max <= max'
  {
  }

  lemma BooksMeanTiles(b: Board, empty: int, score: nat, twos: nat, fours: nat)
    requires Square(b) && Books(b, empty, score, twos, fours)
    ensures AllTiles(b) && empty == Total(Empty, b)
  {
  }

  // ---------- one turn ----------

  /** The recorded maximum between the move and the spawn. */
  ghost predicate Recorded(g: Board, max: nat, win: nat)
    requires Square(g)
  {
    IsPower(max) && IsPower(win) && 2 <= max <= win && win >= 8 && Reaches(g, max) && AtMost(g, max)
  }

  lemma RecordedIsTops(g: Board, max: nat, win: nat)
    requires Square(g) && Recorded(g, max, win)
    ensures Tops(g, max, win)
  {
    hide IsPower, Reaches;
  }

  /** Moving and recording the maximum keeps the books, and does not get past the win flag. */
  lemma MoveKeepsGame(d: Direction, g: Board, g': Board, empty: int, score: nat, twos: nat, fours: nat,
                      max: nat, max': nat, win: nat)
    requires Square(g) && Square(g') && Books(g, empty, score, twos, fours) && Tops(g, max, win) && max < win
    requires View(d, g') == MoveAll(d == Left, View(d, g)) && MaxUpdated(g', max, max')
    ensures Books(g', empty + EmptiedUpTo(d == Left, View(d, g), SIZE),
                  score + GainUpTo(d == Left, View(d, g), SIZE), twos, fours)
    ensures Recorded(g', max', win)
  {
    hide View, Books, MaxUpdated, MoveAll, EmptiedUpTo, GainUpTo, IsPower, Reaches, AtMost, AllTiles;
    var b, m := View(d, g), View(d, g');
    var empty' := empty + EmptiedUpTo(d == Left, b, SIZE);
    var score' := score + GainUpTo(d == Left, b, SIZE);
    BooksInView(d, g, empty, score, twos, fours);
    MoveKeepsBooks(d == Left, b, empty, score, twos, fours);
    BooksInView(d, g', empty', score', twos, fours);
    BooksMeanTiles(b, empty, score, twos, fours);
    TopsInView(d, g, max, win);
    MaxInView(d, g', max, max');
    MoveTops(d == Left, b, max, max', win);
    ReachesInView(d, g', max');
    MaxMeansAtMost(g', max, max');
  }

  lemma RoomAfterMove(d: Direction, g: Board, g': Board, empty: int, score: nat, twos: nat, fours: nat)
    requires Square(g) && Square(g') && View(d, g') == MoveAll(d == Left, View(d, g))
             && Books(g', empty, score, twos, fours)
    ensures empty == Total(Empty, MoveAll(d == Left, View(d, g))) == Total(Empty, g')
    ensures g' != g <==> MoveAll(d == Left, View(d, g)) != View(d, g)
    ensures g' != g ==> empty > 0
  {
    SameViewSameBoard(d, g, g');
    hide View, Books, Total, MoveAll;
    BooksMeanTiles(g', empty, score, twos, fours);
    TotalInView(Empty, d, g');
    if View(d, g') != View(d, g) { ChangedBoardHasRoom(d == Left, View(d, g)); }
  }

  /** The spawn keeps the books and the recorded maximum. */
  lemma SpawnKeepsGame(d: Direction, g: Board, r: nat, c: nat, v: nat, empty: int, score: nat, twos: nat, fours: nat,
                       max: nat, win: nat)
    requires Square(g) && r < SIZE && c < SIZE && g[r][c] == 0 && (v == 2 || v == 4)
    requires Books(g, empty, score, twos, fours) && Recorded(g, max, win)
    ensures Books(Set(g, r, c, v), empty - 1, score,
                  if v == 2 then twos + 1 else twos, if v == 4 then fours + 1 else fours)
    ensures Tops(Set(g, r, c, v), max, win)
    ensures SpawnedOn(View(d, g), View(d, Set(g, r, c, v)))
  {
    SpawnKeepsBooks(g, r, c, v, empty, score, twos, fours);
    SpawnTops(g, r, c, v, max);
    SetView(d, g, LineOf(d, r, c), PosOf(d, r, c), v);
    assert View(d, g)[LineOf(d, r, c)][PosOf(d, r, c)] == 0;
    hide View, Books, Set, IsPower, Reaches, AtMost;
  }
}
