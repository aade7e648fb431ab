/**
 One line of the 2048 board, read from the wall the tiles move to: what a move makes of it, and what a move does
 not change. 0 is an empty pane.
 */
module GameLine {
  type Line = seq<nat>

  // ---------- the line function ----------

  /** The tiles of a line, in order. */
  function Pack(s: Line): (r: Line)
    ensures |r| <= |s| && 0 !in r
  {
    if s == [] then [] else if s[0] == 0 then Pack(s[1..]) else [s[0]] + Pack(s[1..])
  }

  /** From the wall outwards: a tile takes in its next one if they are equal, and then no other. */
  function Merge(p: Line): (r: Line)
    ensures |r| <= |p|
  {
    if |p| < 2 then p
    else if p[0] == p[1] then [p[0] + p[1]] + Merge(p[2..])
    else [p[0]] + Merge(p[1..])
  }

  /** addScore gets the value one of the two tiles had. */
  function MergeScore(p: Line): nat {
    if |p| < 2 then 0
    else if p[0] == p[1] then p[0] + MergeScore(p[2..])
    else MergeScore(p[1..])
  }

  lemma MergeTwo(a: nat, b: nat, more: Line)
    ensures Merge([a, b] + more) == if a == b then [a + b] + Merge(more) else [a] + Merge([b] + more)
  {
    assert ([a, b] + more)[1..] == [b] + more && ([a, b] + more)[2..] == more;
  }

  /** Which of up to four tiles merge: a pair nearer to the wall goes first, and a merged tile is not merged again. */
  lemma NearestToTheWallFirst(a: nat, b: nat, c: nat, d: nat)
    ensures Merge([]) == [] && Merge([a]) == [a]
    ensures Merge([a, b]) == if a == b then [2 * a] else [a, b]
    ensures Merge([a, b, c]) == (if a == b then [2 * a, c] else if b == c then [a, 2 * b] else [a, b, c])
    ensures Merge([a, b, c, d]) ==
      if a == b then (if c == d then [2 * a, 2 * c] else [2 * a, c, d])
      else if b == c then [a, 2 * b, d]
      else if c == d then [a, b, 2 * c]
      else [a, b, c, d]
  {
    MergeThree(a, b, c);
    MergeThree(b, c, d);
    hide Merge;
    MergeTwo(a, b, [c, d]);
    assert [a, b] + [c, d] == [a, b, c, d] && [b] + [c, d] == [b, c, d];
    MergeThree(c, d, d);
  }

  lemma MergeThree(a: nat, b: nat, c: nat)
    ensures Merge([]) == [] && Merge([a]) == [a]
    ensures Merge([a, b]) == if a == b then [2 * a] else [a, b]
    ensures Merge([a, b, c]) == (if a == b then [2 * a, c] else if b == c then [a, 2 * b] else [a, b, c])
  {
    assert Merge([b]) == [b] && Merge([c]) == [c] && Merge([a]) == [a] && Merge([]) == [];
    hide Merge;
    MergeTwo(a, b, []);
    MergeTwo(b, c, []);
    MergeTwo(a, b, [c]);
    assert [a, b] + [] == [a, b] && [b] + [] == [b] && [b, c] + [] == [b, c] && [c] + [] == [c];
    assert [a, b] + [c] == [a, b, c] && [b] + [c] == [b, c];
  }

  function Zeros(n: nat): (r: Line)
    ensures |r| == n && forall i :: 0 <= i < n ==> r[i] == 0
  {
    if n == 0 then [] else [0] + Zeros(n - 1)
  }

  /** Tiles at the wall, empty panes behind them. */
  function Pad(p: Line, n: nat): (r: Line)
    requires |p| <= n
    ensures |r| == n
  {
    p + Zeros(n - |p|)
  }

  /** What moveRight, moveUp and moveDown make of a line. */
  function Slide(s: Line): Line { Pad(Merge(Pack(s)), |s|) }

  // ---------- moveLeft's merging ----------

  /** moveLeft compares a tile with the pane right behind it only. */
  function MergeAdjacent(s: Line): (r: Line)
    ensures |r| == |s|
  {
    if s == [] then []
    else if s[0] != 0 && |s| > 1 && s[0] == s[1] then [s[0] + s[1], 0] + MergeAdjacent(s[2..])
    else [s[0]] + MergeAdjacent(s[1..])
  }

  lemma AdjacentTwo(a: nat, b: nat, more: Line)
    ensures MergeAdjacent([a, b] + more) ==
      if a != 0 && a == b then [a + b, 0] + MergeAdjacent(more) else [a] + MergeAdjacent([b] + more)
  {
    assert ([a, b] + more)[1..] == [b] + more && ([a, b] + more)[2..] == more;
  }

  /** Which panes of a line moveLeft merges: of two equal tiles side by side the first doubles and the second is
      cleared. */
  lemma SideBySideFirst(a: nat, b: nat, c: nat, d: nat)
    ensures MergeAdjacent([a, b, c, d]) ==
      if a != 0 && a == b then (if c != 0 && c == d then [2 * a, 0, 2 * c, 0] else [2 * a, 0, c, d])
      else if b != 0 && b == c then [a, 2 * b, 0, d]
      else if c != 0 && c == d then [a, b, 2 * c, 0]
      else [a, b, c, d]
  {
    hide MergeAdjacent;
    AdjacentThree(b, c, d);
    AdjacentThree(a, c, d);
    AdjacentTwo(a, b, [c, d]);
    assert [a, b] + [c, d] == [a, b, c, d] && [b] + [c, d] == [b, c, d];
  }

  lemma AdjacentThree(b: nat, c: nat, d: nat)
    ensures MergeAdjacent([c, d]) == if c != 0 && c == d then [2 * c, 0] else [c, d]
    ensures MergeAdjacent([b, c, d]) ==
      if b != 0 && b == c then [2 * b, 0, d] else if c != 0 && c == d then [b, 2 * c, 0] else [b, c, d]
  {
    assert MergeAdjacent([d]) == [d] && MergeAdjacent([]) == [];
    hide MergeAdjacent;
    AdjacentTwo(c, d, []);
    AdjacentTwo(b, c, [d]);
    assert [c, d] + [] == [c, d] && [d] + [] == [d] && [b, c] + [d] == [b, c, d] && [c] + [d] == [c, d];
  }

  function AdjacentScore(s: Line): nat {
    if s == [] then 0
    else if s[0] != 0 && |s| > 1 && s[0] == s[1] then s[0] + AdjacentScore(s[2..])
    else AdjacentScore(s[1..])
  }

  function SlideLeft(s: Line): Line { Pad(Pack(MergeAdjacent(s)), |s|) }

  // ---------- the tiles after a merge pass, for both kinds ----------

  /** The tiles left when the merge pass is done. */
  function Merged(adjacent: bool, s: Line): (r: Line) {
    if adjacent then Pack(MergeAdjacent(s)) else Merge(Pack(s))
  }

  function Gain(adjacent: bool, s: Line): nat {
    if adjacent then AdjacentScore(s) else MergeScore(Pack(s))
  }

  // ---------- sums over a line ----------

  function Tally(f: nat -> nat, s: Line): nat {
    if s == [] then 0 else f(s[0]) + Tally(f, s[1..])
  }

  function Value(t: nat): nat { t }

  /** The points it takes to build a tile from 2s: (e - 1) * 2^(e - 1) for 2^e. */
  function Worth(t: nat): nat { if t <= 2 then 0 else 2 * Worth(t / 2) + t / 2 }

  function Power(e: nat): nat { if e == 0 then 1 else 2 * Power(e - 1) }

  lemma {:induction false} WorthOfPower(e: nat)
    requires 1 <= e
    ensures Power(e) >= 2 && Worth(Power(e)) == (e - 1) * Power(e - 1)
  {
    WorthOfTwo();
    hide Worth;
    if e > 1 {
      WorthOfPower(e - 1);
      WorthStep(e - 2, Power(e - 2));
    }
  }

  lemma WorthOfTwo()
    ensures Worth(2) == 0 && Worth(0) == 0
  {
  }

  lemma WorthStep(x: nat, b: nat)
    requires b >= 1 && Worth(2 * b) == x * b
    ensures Worth(2 * (2 * b)) == (x + 1) * (2 * b)
  {
    hide Worth;
    WorthDoubles(2 * b);
    Doubling(x, b);
  }

  lemma Doubling(x: nat, b: nat)
    ensures (x + 1) * (2 * b) == 2 * (x * b) + 2 * b
  {
  }

  lemma WorthDoubles(v: nat)
    requires v >= 2
    ensures Worth(v + v) == 2 * Worth(v) + v
  {
    assert (v + v) / 2 == v;
  }

  lemma TallyTwo(f: nat -> nat, a: nat, b: nat, s: Line)
    ensures Tally(f, [a, b] + s) == f(a) + f(b) + Tally(f, s)
  {
    assert ([a, b] + s)[1..] == [b] + s;
  }

  lemma {:induction false} PackTally(f: nat -> nat, s: Line)
    requires f(0) == 0
    ensures Tally(f, Pack(s)) == Tally(f, s)
  {
    if s != [] { PackTally(f, s[1..]); }
  }

  lemma {:induction false} MergeKeepsSum(p: Line)
    ensures Tally(Value, Merge(p)) == Tally(Value, p)
  {
    if |p| >= 2 {
      if p[0] == p[1] {
        assert p[1..][1..] == p[2..];
        MergeKeepsSum(p[2..]);
      } else {
        MergeKeepsSum(p[1..]);
      }
    }
  }

  /** Empty panes, and tiles from 2 on. */
  predicate Playable(s: Line) { forall i :: 0 <= i < |s| ==> s[i] == 0 || s[i] >= 2 }

  lemma {:induction false} MergeWorth(p: Line)
    requires Playable(p) && 0 !in p
    ensures Tally(Worth, Merge(p)) == Tally(Worth, p) + MergeScore(p)
  {
    hide Worth;
    if |p| >= 2 {
      if p[0] == p[1] {
        assert p[1..][1..] == p[2..];
        WorthDoubles(p[0]);
        MergeWorth(p[2..]);
      } else {
        MergeWorth(p[1..]);
      }
    }
  }

  lemma {:induction false} AdjacentKeepsSum(s: Line)
    ensures Tally(Value, MergeAdjacent(s)) == Tally(Value, s)
  {
    if s != [] {
      if s[0] != 0 && |s| > 1 && s[0] == s[1] {
        assert s == [s[0], s[1]] + s[2..];
        TallyTwo(Value, s[0], s[1], s[2..]);
        TallyTwo(Value, s[0] + s[1], 0, MergeAdjacent(s[2..]));
        AdjacentKeepsSum(s[2..]);
      } else {
        AdjacentKeepsSum(s[1..]);
      }
    }
  }

  lemma {:induction false} AdjacentWorth(s: Line)
    requires Playable(s)
    ensures Tally(Worth, MergeAdjacent(s)) == Tally(Worth, s) + AdjacentScore(s)
  {
    WorthOfTwo();
    hide Worth;
    if s != [] {
      if s[0] != 0 && |s| > 1 && s[0] == s[1] {
        assert s == [s[0], s[1]] + s[2..];
        TallyTwo(Worth, s[0], s[1], s[2..]);
        TallyTwo(Worth, s[0] + s[1], 0, MergeAdjacent(s[2..]));
        WorthDoubles(s[0]);
        AdjacentWorth(s[2..]);
      } else {
        AdjacentWorth(s[1..]);
      }
    }
  }

  /** Both merge passes keep the sum of the tiles, and pay for every tile they build. */
  lemma MergedConserves(adjacent: bool, s: Line)
    requires Playable(s)
    ensures Tally(Value, Merged(adjacent, s)) == Tally(Value, s)
    ensures Tally(Worth, Merged(adjacent, s)) == Tally(Worth, s) + Gain(adjacent, s)
  {
    if adjacent {
      AdjacentKeepsSum(s);
      AdjacentWorth(s);
      PackTally(Value, MergeAdjacent(s));
      PackTally(Worth, MergeAdjacent(s));
    } else {
      PackPlayable(s);
      PackTally(Value, s);
      PackTally(Worth, s);
      MergeKeepsSum(Pack(s));
      MergeWorth(Pack(s));
    }
  }

  lemma {:induction false} PackPlayable(s: Line)
    requires Playable(s)
    ensures Playable(Pack(s))
  {
    if s != [] { PackPlayable(s[1..]); }
  }

  lemma {:induction false} PackMembers(s: Line)
    ensures forall t :: t in Pack(s) <==> t in s && t != 0
  {
    if s != [] { PackMembers(s[1..]); }
  }

  // ---------- where the tiles come from ----------

  /** Every tile is an old one or twice an old one. */
  predicate ComesFrom(r: Line, s: Line) {
    forall t :: t in r && t != 0 ==> t in s || (t % 2 == 0 && t / 2 in s && t / 2 != 0)
  }

  predicate HasAtLeast(r: Line, t: nat) { exists i :: 0 <= i < |r| && t <= r[i] }

  /** Every old tile is in one at least as large. */
  predicate Covers(r: Line, s: Line) { forall i :: 0 <= i < |s| ==> HasAtLeast(r, s[i]) }

  lemma StepComesFrom(a: nat, head: Line, more: Line, r: Line, s: Line)
    requires ComesFrom(r, s) && a in more && forall t :: t in head ==> t == a || t == a + a || t == 0
    ensures ComesFrom(head + r, more + s)
  {
    assert (a + a) % 2 == 0 && (a + a) / 2 == a;
    forall t | t in head + r && t != 0
      ensures t in more + s || (t % 2 == 0 && t / 2 in more + s && t / 2 != 0)
    {
      if t in head { assert a in more + s; } else { assert t in r; }
    }
  }

  lemma StepCovers(a: nat, head: Line, more: Line, r: Line, s: Line)
    requires Covers(r, s) && head != [] && a <= head[0] && forall i :: 0 <= i < |more| ==> more[i] == a
    ensures Covers(head + r, more + s)
  {
    forall i | 0 <= i < |more + s| ensures HasAtLeast(head + r, (more + s)[i]) {
      if i < |more| {
        assert (head + r)[0] == head[0];
      } else {
        assert HasAtLeast(r, s[i - |more|]);
        var k :| 0 <= k < |r| && s[i - |more|] <= r[k];
        assert (head + r)[|head| + k] == r[k];
      }
    }
  }

  lemma {:induction false} MergeGrows(p: Line)
    ensures ComesFrom(Merge(p), p) && Covers(Merge(p), p)
  {
    if |p| < 2 {
      forall i | 0 <= i < |p| ensures HasAtLeast(p, p[i]) { }
    } else if p[0] == p[1] {
      assert p == [p[0], p[1]] + p[2..];
      MergeGrows(p[2..]);
      StepComesFrom(p[0], [p[0] + p[1]], [p[0], p[1]], Merge(p[2..]), p[2..]);
      StepCovers(p[0], [p[0] + p[1]], [p[0], p[1]], Merge(p[2..]), p[2..]);
    } else {
      assert p == [p[0]] + p[1..];
      MergeGrows(p[1..]);
      StepComesFrom(p[0], [p[0]], [p[0]], Merge(p[1..]), p[1..]);
      StepCovers(p[0], [p[0]], [p[0]], Merge(p[1..]), p[1..]);
    }
  }

  lemma {:induction false} AdjacentGrows(s: Line)
    ensures ComesFrom(MergeAdjacent(s), s) && Covers(MergeAdjacent(s), s)
  {
    if s == [] {
    } else if s[0] != 0 && |s| > 1 && s[0] == s[1] {
      assert s == [s[0], s[1]] + s[2..];
      AdjacentGrows(s[2..]);
      StepComesFrom(s[0], [s[0] + s[1], 0], [s[0], s[1]], MergeAdjacent(s[2..]), s[2..]);
      StepCovers(s[0], [s[0] + s[1], 0], [s[0], s[1]], MergeAdjacent(s[2..]), s[2..]);
    } else {
      assert s == [s[0]] + s[1..];
      AdjacentGrows(s[1..]);
      StepComesFrom(s[0], [s[0]], [s[0]], MergeAdjacent(s[1..]), s[1..]);
      StepCovers(s[0], [s[0]], [s[0]], MergeAdjacent(s[1..]), s[1..]);
    }
  }

  lemma PackCovers(s: Line, t: nat)
    requires HasAtLeast(s, t) && t > 0
    ensures HasAtLeast(Pack(s), t)
  {
    var i :| 0 <= i < |s| && t <= s[i];
    PackMembers(s);
    assert s[i] in Pack(s);
  }

  /** The merge pass and the packing: new tiles come from old ones, and none gets lost. */
  lemma MergedGrows(adjacent: bool, s: Line, t: nat)
    ensures ComesFrom(Merged(adjacent, s), s)
    ensures HasAtLeast(s, t) && t > 0 ==> HasAtLeast(Merged(adjacent, s), t)
  {
    PackMembers(s);
    if adjacent {
      AdjacentGrows(s);
      PackMembers(MergeAdjacent(s));
      if HasAtLeast(s, t) && t > 0 {
        CoversAtLeast(MergeAdjacent(s), s, t);
        PackCovers(MergeAdjacent(s), t);
      }
    } else {
      MergeGrows(Pack(s));
      if HasAtLeast(s, t) && t > 0 {
        PackCovers(s, t);
        CoversAtLeast(Merge(Pack(s)), Pack(s), t);
      }
    }
  }

  lemma CoversAtLeast(r: Line, s: Line, t: nat)
    requires Covers(r, s) && HasAtLeast(s, t)
    ensures HasAtLeast(r, t)
  {
    var i :| 0 <= i < |s| && t <= s[i];
    var k :| 0 <= k < |r| && s[i] <= r[k];
    assert t <= r[k];
  }

  // ---------- a line that does not change ----------

  lemma {:induction false} MergeSameLength(p: Line)
    requires |Merge(p)| == |p|
    ensures Merge(p) == p
  {
    if |p| >= 2 && p[0] != p[1] { MergeSameLength(p[1..]); }
  }

  lemma {:induction false} AdjacentSameLength(s: Line)
    ensures |Pack(MergeAdjacent(s))| <= |Pack(s)|
    ensures |Pack(MergeAdjacent(s))| == |Pack(s)| ==> MergeAdjacent(s) == s
  {
    if s == [] {
    } else if s[0] != 0 && |s| > 1 && s[0] == s[1] {
      AdjacentSameLength(s[2..]);
      assert s == [s[0], s[0]] + s[2..];
      PairAtWall(s[0], s[2..]);
      hide Pack, MergeAdjacent;
    } else {
      AdjacentSameLength(s[1..]);
    }
  }

  /** Both merge passes at a pair right at the wall. */
  lemma PairAtWall(a: nat, s: Line)
    requires a != 0
    ensures Pack([a, a] + s) == [a, a] + Pack(s)
    ensures Merge(Pack([a, a] + s)) == [a + a] + Merge(Pack(s))
    ensures Pack(MergeAdjacent([a, a] + s)) == [a + a] + Pack(MergeAdjacent(s))
  {
    hide Pack, Merge, MergeAdjacent;
    PackPair(a, s);
    MergePair(a, Pack(s));
    AdjacentPair(a, s);
    PackJoined(a + a, MergeAdjacent(s));
  }

  lemma AdjacentPair(a: nat, s: Line)
    requires a != 0
    ensures MergeAdjacent([a, a] + s) == [a + a, 0] + MergeAdjacent(s)
    ensures AdjacentScore([a, a] + s) == a + AdjacentScore(s)
  {
    assert ([a, a] + s)[2..] == s;
  }

  lemma MergePair(a: nat, p: Line)
    ensures Merge([a, a] + p) == [a + a] + Merge(p) && MergeScore([a, a] + p) == a + MergeScore(p)
  {
    assert ([a, a] + p)[2..] == p;
  }

  lemma PackPair(a: nat, s: Line)
    requires a != 0
    ensures Pack([a, a] + s) == [a, a] + Pack(s)
  {
    assert ([a, a] + s)[1..] == [a] + s && ([a] + s)[1..] == s;
  }

  lemma PackJoined(a: nat, s: Line)
    requires a != 0
    ensures Pack([a, 0] + s) == [a] + Pack(s)
  {
    assert ([a, 0] + s)[1..] == [0] + s && ([0] + s)[1..] == s;
  }

  /** A merge pass that empties no pane changed nothing. */
  lemma MergedSameLength(adjacent: bool, s: Line)
    ensures |Merged(adjacent, s)| <= |Pack(s)|
    ensures |Merged(adjacent, s)| == |Pack(s)| ==> Merged(adjacent, s) == Pack(s)
  {
    if adjacent { AdjacentSameLength(s); } else if |Merge(Pack(s))| == |Pack(s)| { MergeSameLength(Pack(s)); }
  }

  lemma {:induction false} PackZeros(n: nat)
    ensures Pack(Zeros(n)) == []
  {
    if n > 0 { PackZeros(n - 1); }
  }

  lemma {:induction false} PackOfPad(p: Line, n: nat)
    requires |p| <= n && 0 !in p
    ensures Pack(Pad(p, n)) == p
  {
    if p == [] {
      PackZeros(n);
      assert Pad(p, n) == Zeros(n);
    } else {
      PackOfPad(p[1..], n - 1);
      assert Pad(p, n)[1..] == Pad(p[1..], n - 1);
    }
  }

  /** The merged tiles are no zeros. */
  lemma {:induction false} MergeNoZero(p: Line)
    requires 0 !in p
    ensures 0 !in Merge(p)
  {
    if |p| >= 2 { MergeNoZero(if p[0] == p[1] then p[2..] else p[1..]); }
  }

  /** A line is left as it is exactly when no tile is merged and its tiles are at the wall already. */
  lemma UnchangedIff(adjacent: bool, s: Line)
    ensures |Merged(adjacent, s)| <= |s|
    ensures Pad(Merged(adjacent, s), |s|) == s <==> |Merged(adjacent, s)| == |Pack(s)| && Pad(Pack(s), |s|) == s
  {
    MergedSameLength(adjacent, s);
    if !adjacent { MergeNoZero(Pack(s)); }
    PackOfPad(Merged(adjacent, s), |s|);
  }

  // ---------- when moveLeft does what the others do ----------

  /** The first tile of a line, 0 if there is none. */
  function First(s: Line): nat { if Pack(s) == [] then 0 else Pack(s)[0] }

  /** On its way from the wall, moveLeft stands at a tile whose equal stands behind a gap. */
  predicate GapSplitsPair(s: Line) {
    if s == [] then false
    else if s[0] == 0 then GapSplitsPair(s[1..])
    else if |s| > 1 && s[0] == s[1] then GapSplitsPair(s[2..])
    else First(s[1..]) == s[0] || GapSplitsPair(s[1..])
  }

  lemma {:induction false} LeftTilesIff(s: Line)
    ensures Merged(true, s) == Merged(false, s) <==> !GapSplitsPair(s)
  {
    if s == [] {
    } else if s[0] == 0 {
      LeftTilesIff(s[1..]);
    } else if |s| > 1 && s[0] == s[1] {
      LeftTilesIff(s[2..]);
      assert s == [s[0], s[0]] + s[2..];
      PairAtWall(s[0], s[2..]);
      SameHead(s[0] + s[1], Pack(MergeAdjacent(s[2..])), Merge(Pack(s[2..])));
      hide Pack, MergeAdjacent, Merge;
    } else {
      LeftTilesIff(s[1..]);
      assert Pack(MergeAdjacent(s)) == [s[0]] + Pack(MergeAdjacent(s[1..]));
      MergeFirst(s);
      SameHead(s[0], Pack(MergeAdjacent(s[1..])), Merge(Pack(s[1..])));
      hide Pack, MergeAdjacent, Merge;
    }
  }

  /** The line function at a tile that is not equal to the pane behind it. */
  lemma MergeFirst(s: Line)
    requires s != [] && s[0] != 0
    ensures First(s[1..]) != s[0] ==> Merge(Pack(s)) == [s[0]] + Merge(Pack(s[1..]))
    ensures First(s[1..]) == s[0] ==> Merge(Pack(s)) != [] && Merge(Pack(s))[0] == s[0] + s[0]
  {
    assert Pack(s)[1..] == Pack(s[1..]);
  }

  lemma SameHead(a: nat, x: Line, y: Line)
    ensures [a] + x == [a] + y <==> x == y
  {
    assert ([a] + x)[1..] == x && ([a] + y)[1..] == y;
  }

  /** moveLeft's line is the line function's, unless a gap splits a pair. */
  lemma LeftSlidesIff(s: Line)
    ensures SlideLeft(s) == Slide(s) <==> !GapSplitsPair(s)
  {
    LeftTilesIff(s);
    MergeNoZero(Pack(s));
    PackOfPad(Merge(Pack(s)), |s|);
    PackOfPad(Pack(MergeAdjacent(s)), |s|);
  }

  lemma LeftMissesAPair()
    ensures Slide([2, 0, 2, 0]) == [4, 0, 0, 0] && SlideLeft([2, 0, 2, 0]) == [2, 2, 0, 0]
  {
    LeftSlidesIff([2, 0, 2, 0]);
  }

  // ---------- a moved line ----------

  function Empty(t: nat): nat { if t == 0 then 1 else 0 }

  /** What a move makes of a line: merge pass, then packing. */
  function Moved(adjacent: bool, s: Line): (r: Line)
    ensures |r| == |s|
  {
    if adjacent then SlideLeft(s) else Slide(s)
  }

  /** The tiles of a line, in order: empty panes are left out. */
  lemma PackIs(s: Line, t: nat)
    ensures Pack([]) == [] && Pack(s + [t]) == if t == 0 then Pack(s) else Pack(s) + [t]
  {
    PackConcat(s, [t]);
    assert Pack([t]) == (if t == 0 then [] else [t]) by { assert [t][1..] == []; }
    assert Pack(s) + [] == Pack(s);
  }

  /** A moved line: the tiles that the merging leaves, at the wall, and empty panes behind them. */
  lemma MovedIs(adjacent: bool, s: Line)
    ensures var m := if adjacent then Pack(MergeAdjacent(s)) else Merge(Pack(s));
      && |m| <= |s| && Moved(adjacent, s)[..|m|] == m
      && forall i :: |m| <= i < |s| ==> Moved(adjacent, s)[i] == 0
  {
  }

  lemma {:induction false} EmptyAndTiles(s: Line)
    ensures Tally(Empty, s) + |Pack(s)| == |s|
  {
    if s != [] { EmptyAndTiles(s[1..]); }
  }

  lemma {:induction false} ZerosTally(f: nat -> nat, n: nat)
    requires f(0) == 0
    ensures Tally(f, Zeros(n)) == 0
  {
    if n > 0 { ZerosTally(f, n - 1); }
  }

  lemma {:induction false} PadTally(f: nat -> nat, p: Line, n: nat)
    requires |p| <= n && f(0) == 0
    ensures Tally(f, Pad(p, n)) == Tally(f, p)
  {
    if p == [] {
      ZerosTally(f, n);
      assert Pad(p, n) == Zeros(n);
    } else {
      PadTally(f, p[1..], n - 1);
      assert Pad(p, n)[1..] == Pad(p[1..], n - 1);
    }
  }

  lemma MergedNoZero(adjacent: bool, s: Line)
    ensures 0 !in Merged(adjacent, s)
  {
    if !adjacent { MergeNoZero(Pack(s)); }
  }

  /** The books of one line: sum, points, empty panes. */
  lemma MovedBooks(adjacent: bool, s: Line)
    requires Playable(s)
    ensures Tally(Value, Moved(adjacent, s)) == Tally(Value, s)
    ensures Tally(Worth, Moved(adjacent, s)) == Tally(Worth, s) + Gain(adjacent, s)
    ensures Tally(Empty, Moved(adjacent, s)) == Tally(Empty, s) + (|Pack(s)| - |Merged(adjacent, s)|)
  {
    UnchangedIff(adjacent, s);
    MergedConserves(adjacent, s);
    WorthOfTwo();
    PadTally(Value, Merged(adjacent, s), |s|);
    PadTally(Worth, Merged(adjacent, s), |s|);
    EmptyAndTiles(s);
    EmptyAndTiles(Moved(adjacent, s));
    MergedNoZero(adjacent, s);
    PackOfPad(Merged(adjacent, s), |s|);
  }

  /** The tiles of one line. */
  lemma MovedTiles(adjacent: bool, s: Line, t: nat)
    ensures ComesFrom(Moved(adjacent, s), s)
    ensures HasAtLeast(s, t) && t > 0 ==> HasAtLeast(Moved(adjacent, s), t)
  {
    UnchangedIff(adjacent, s);
    MergedGrows(adjacent, s, t);
    var p := Merged(adjacent, s);
    var z := Zeros(|s| - |p|);
    assert Moved(adjacent, s) == p + z;
    hide Merged, Moved, Zeros;
    assert forall u :: u in p + z ==> u in p || u in z;
    assert forall u :: u in z ==> u == 0;
    if HasAtLeast(s, t) && t > 0 {
      var i :| 0 <= i < |p| && t <= p[i];
      assert (p + z)[i] == p[i];
    }
  }

  // ---------- the merge pass in place ----------

  /** Panes before k are done: merged, they are the beginning of the result; the points so far are `gained`. */
  ghost predicate MergeAt(o: Line, s: Line, k: nat, gained: nat) {
    && |s| == |o| && k <= |s|
    && Pack(s[..k]) + Merge(Pack(s[k..])) == Merge(Pack(o))
    && gained + MergeScore(Pack(s[k..])) == MergeScore(Pack(o))
  }

  lemma {:induction false} PackConcat(a: Line, b: Line)
    ensures Pack(a + b) == Pack(a) + Pack(b)
  {
    if a == [] {
      assert a + b == b;
    } else {
      PackConcat(a[1..], b);
      PackCons(a[0], a[1..]);
      PackCons(a[0], a[1..] + b);
      hide Pack;
      assert a == [a[0]] + a[1..] && a + b == [a[0]] + (a[1..] + b);
    }
  }

  lemma PackCons(x: nat, s: Line)
    ensures Pack([x] + s) == if x == 0 then Pack(s) else [x] + Pack(s)
  {
    assert ([x] + s)[1..] == s;
  }

  /** Empty panes between i and j. */
  predicate EmptyBetween(s: Line, i: nat, j: nat)
    requires i <= j <= |s|
  {
    forall n :: i <= n < j ==> s[n] == 0
  }

  lemma {:induction false} PackOverGap(s: Line, i: nat, j: nat)
    requires i <= j <= |s| && EmptyBetween(s, i, j)
    ensures Pack(s[i..]) == Pack(s[j..])
    ensures Pack(s[..j]) == Pack(s[..i])
  {
    if i < j {
      PackOverGap(s, i, j - 1);
      assert s[j - 1..][1..] == s[j..];
      assert s[..j] == s[..j - 1] + [s[j - 1]];
      PackConcat(s[..j - 1], [s[j - 1]]);
    }
  }

  lemma MergeSkips(o: Line, s: Line, k: nat, gained: nat)
    requires MergeAt(o, s, k, gained) && k < |s| && s[k] == 0
    ensures MergeAt(o, s, k + 1, gained)
  {
    PackOverGap(s, k, k + 1);
  }

  /** The tile at k and what the scan found behind it. */
  lemma PackAtTile(s: Line, k: nat, i: nat)
    requires k < i <= |s| && s[k] != 0 && EmptyBetween(s, k + 1, i)
    ensures Pack(s[k..]) == [s[k]] + Pack(s[i..])
    ensures Pack(s[..i]) == Pack(s[..k]) + [s[k]]
    ensures i < |s| && s[i] != 0 ==> Pack(s[i..]) == [s[i]] + Pack(s[i + 1..])
  {
    PackOverGap(s, k + 1, i);
    assert s[k..][1..] == s[k + 1..];
    assert s[..k + 1] == s[..k] + [s[k]];
    PackConcat(s[..k], [s[k]]);
    if i < |s| { assert s[i..][1..] == s[i + 1..]; }
  }

  /** No equal tile behind it: the scan goes on from what it found. */
  lemma MergeKeeps(o: Line, s: Line, k: nat, i: nat, gained: nat)
    requires MergeAt(o, s, k, gained) && k < i <= |s| && s[k] != 0 && EmptyBetween(s, k + 1, i)
    requires i < |s| ==> s[i] != 0 && s[i] != s[k]
    ensures MergeAt(o, s, i, gained)
  {
    PackAtTile(s, k, i);
    var rest := Pack(s[i..]);
    assert ([s[k]] + rest)[1..] == rest;
    hide Pack;
    assert Merge([s[k]] + rest) == [s[k]] + Merge(rest);
  }

  lemma PackSplit(s: Line, k: nat)
    requires k <= |s|
    ensures Pack(s) == Pack(s[..k]) + Pack(s[k..])
  {
    hide Pack;
    PackConcat(s[..k], s[k..]);
    assert s[..k] + s[k..] == s;
  }

  /** What joining the tile at i into the one at k makes of the packed parts. */
  lemma JoinPacks(s: Line, k: nat, i: nat)
    requires k < i < |s| && s[k] != 0 && EmptyBetween(s, k + 1, i) && s[i] == s[k]
    ensures var v := s[k]; var s' := s[k := v + v][i := 0]; var rest := Pack(s[i + 1..]);
      && Pack(s[k..]) == [v] + ([v] + rest)
      && Pack(s'[..i]) == Pack(s[..k]) + [v + v]
      && Pack(s'[i..]) == rest
      && |Pack(s')| == |Pack(s)| - 1
  {
    var s' := s[k := s[k] + s[k]][i := 0];
    assert s'[..k] == s[..k] && s'[i + 1..] == s[i + 1..];
    PackAtTile(s, k, i);
    PackAtTile(s', k, i);
    PackOverGap(s', i, i + 1);
    PackSplit(s, k);
    PackSplit(s', i);
    hide Pack;
  }

  /** An equal tile behind it: the two become one. */
  lemma MergeJoins(o: Line, s: Line, k: nat, i: nat, gained: nat)
    requires MergeAt(o, s, k, gained) && k < i < |s| && s[k] != 0 && EmptyBetween(s, k + 1, i) && s[i] == s[k]
    ensures var s' := s[k := s[k] + s[i]][i := 0];
      MergeAt(o, s', i, gained + s[k]) && |Pack(s')| == |Pack(s)| - 1
  {
    hide Pack, Merge, MergeScore;
    JoinPacks(s, k, i);
    var v := s[k];
    var before, rest := Pack(s[..k]), Pack(s[i + 1..]);
    assert [v] + ([v] + rest) == [v, v] + rest;
    MergePair(v, rest);
    assert before + ([v + v] + Merge(rest)) == (before + [v + v]) + Merge(rest);
  }

  /** The same for moveLeft's pass. */
  ghost predicate AdjacentAt(o: Line, s: Line, k: nat, gained: nat) {
    && |s| == |o| && k <= |s|
    && s[..k] + MergeAdjacent(s[k..]) == MergeAdjacent(o)
    && gained + AdjacentScore(s[k..]) == AdjacentScore(o)
  }

  lemma AdjacentKeeps(o: Line, s: Line, k: nat, gained: nat)
    requires AdjacentAt(o, s, k, gained) && k < |s|
    requires s[k] == 0 || k + 1 == |s| || s[k] != s[k + 1]
    ensures AdjacentAt(o, s, k + 1, gained)
  {
    assert s[k..][1..] == s[k + 1..];
    assert s[..k + 1] == s[..k] + [s[k]];
  }

  lemma AdjacentJoins(o: Line, s: Line, k: nat, gained: nat)
    requires AdjacentAt(o, s, k, gained) && k + 1 < |s| && s[k] != 0 && s[k] == s[k + 1]
    ensures var s' := s[k := s[k] + s[k + 1]][k + 1 := 0];
      AdjacentAt(o, s', k + 1, gained + s[k]) && |Pack(s')| == |Pack(s)| - 1
  {
    hide Pack, MergeAdjacent, AdjacentScore;
    JoinPacks(s, k, k + 1);
    var v := s[k];
    var rest := s[k + 2..];
    JoinSlices(s, k);
    AdjacentEmpty(rest);
    AdjacentPair(v, rest);
    JoinHeads(s[..k], v + v, MergeAdjacent(rest));
  }

  lemma JoinHeads(head: Line, v: nat, more: Line)
    ensures head + ([v, 0] + more) == (head + [v]) + ([0] + more)
  {
  }

  lemma JoinSlices(s: Line, k: nat)
    requires k + 1 < |s| && s[k] == s[k + 1]
    ensures var v := s[k]; var s' := s[k := v + v][k + 1 := 0]; var rest := s[k + 2..];
      s[k..] == [v, v] + rest && s'[k + 1..] == [0] + rest && s'[..k + 1] == s[..k] + [v + v]
  {
  }

  lemma AdjacentEmpty(s: Line)
    ensures MergeAdjacent([0] + s) == [0] + MergeAdjacent(s) && AdjacentScore([0] + s) == AdjacentScore(s)
  {
    assert ([0] + s)[1..] == s;
  }

  // ---------- the packing pass in place ----------

  /** Panes before k are packed. */
  predicate PackedAt(o: Line, s: Line, k: nat) {
    && |s| == |o| && k <= |s|
    && s[..k] == Pad(Pack(o[..k]), k) && s[k..] == o[k..]
  }

  /** The tile at k moves to the end of the packed ones. */
  lemma PackedStep(o: Line, s: Line, k: nat)
    requires k < |o| && PackedAt(o, s, k)
    ensures |Pack(o[..k])| <= k
    ensures s[k] == 0 ==> PackedAt(o, s, k + 1)
    ensures s[k] != 0 && |Pack(o[..k])| == k ==> PackedAt(o, s, k + 1)
    ensures s[k] != 0 && |Pack(o[..k])| < k ==> PackedAt(o, s[|Pack(o[..k])| := s[k]][k := 0], k + 1)
  {
    var p := Pack(o[..k]);
    assert s[k] == s[k..][0] == o[k..][0] == o[k];
    assert s[k..][1..] == o[k..][1..];
    assert o[..k + 1] == o[..k] + [o[k]];
    PackConcat(o[..k], [o[k]]);
    assert s[..k + 1] == s[..k] + [s[k]];
    hide Pack;
    if s[k] == 0 {
      assert Pad(p, k + 1) == Pad(p, k) + [0];
    }
  }
}
