/**
 * The rules of Ship-Captain-Crew stated on plain values: what the engine can
 * see of a die (face, hold flag, label) and of a player (score, rolls used,
 * wins, losses). The classes in module Game are proved against these
 * definitions, and the lemmas here state what the rules promise.
 */
module Rules {
  import opened Wrappers

  datatype DieView = DieView(face: int, held: bool, dieNum: char)

  datatype PlayerView = PlayerView(score: int, rollsUsed: int, wins: int, losses: int)

  /** The faces a held ship, captain and crew show. */
  const Ship := 6
  const Captain := 5
  const Crew := 4

  /** Every die shows a face of a six-sided die. */
  predicate FacesInRange(ds: seq<DieView>)
  {
    forall i :: 0 <= i < |ds| ==> 1 <= ds[i].face <= 6
  }

  // ---------------------------------------------------------------------------
  // Holding and the roll gate

  predicate AllHeld(ds: seq<DieView>)
  {
    forall i :: 0 <= i < |ds| ==> ds[i].held
  }

  /** The number of held dice. */
  function CountHeld(ds: seq<DieView>): (n: nat)
    ensures n <= |ds|
  {
    if ds == [] then 0 else (if ds[0].held then 1 else 0) + CountHeld(ds[1..])
  }

  /** Every die is held exactly when the held dice are all of them. */
  lemma {:induction false} AllHeldIffCountIsLength(ds: seq<DieView>)
    ensures AllHeld(ds) <==> CountHeld(ds) == |ds|
  {
    if ds != [] {
      AllHeldIffCountIsLength(ds[1..]);
      if AllHeld(ds[1..]) && ds[0].held {
        assert AllHeld(ds) by {
          forall i | 0 <= i < |ds|
            ensures ds[i].held
          {
            if i > 0 { assert ds[i] == ds[1..][i - 1]; }
          }
        }
      }
    }
  }

  /** The gate of `currentPlayerCanRoll`: rolls left and some die not held. */
  predicate CanRoll(rollsUsed: int, maxRolls: int, ds: seq<DieView>)
  {
    !(rollsUsed == maxRolls || AllHeld(ds))
  }

  /** The gate opens exactly when the limit is not reached and some die is free. */
  lemma CanRollIff(rollsUsed: int, maxRolls: int, ds: seq<DieView>)
    ensures CanRoll(rollsUsed, maxRolls, ds) <==>
            rollsUsed != maxRolls && exists i :: 0 <= i < |ds| && !ds[i].held
  {
  }

  /** A driver that rolls only through the gate, from within the limit, stays within it. */
  lemma GateKeepsRollsWithinLimit(rollsUsed: int, maxRolls: int, ds: seq<DieView>)
    requires 0 <= rollsUsed <= maxRolls
    requires CanRoll(rollsUsed, maxRolls, ds)
    ensures rollsUsed + 1 <= maxRolls && |ds| > 0
  {
  }

  // ---------------------------------------------------------------------------
  // Scoring

  /** Some held die shows `v` (`isHoldingDie`). */
  predicate HoldingFace(ds: seq<DieView>, v: int)
  {
    exists i :: 0 <= i < |ds| && ds[i].held && ds[i].face == v
  }

  /** A held ship (6), captain (5) and crew (4): the turn scores. */
  predicate Qualifies(ds: seq<DieView>)
  {
    HoldingFace(ds, Ship) && HoldingFace(ds, Captain) && HoldingFace(ds, Crew)
  }

  /** The sum of all faces, held or not, added up die by die. */
  function SumFaces(ds: seq<DieView>): int
  {
    if ds == [] then 0 else SumFaces(ds[..|ds| - 1]) + ds[|ds| - 1].face
  }

  /** What `scoreCurrentPlayer` adds: the cargo (all faces less 6 + 5 + 4) when the turn qualifies. */
  function TurnPoints(ds: seq<DieView>): (r: int)
    ensures Qualifies(ds) ==> r + Ship + Captain + Crew == SumFaces(ds)
    ensures !Qualifies(ds) ==> r == 0
  {
    if Qualifies(ds) then SumFaces(ds) - (Ship + Captain + Crew) else 0
  }

  /** How much more than 1 the die at `p` shows, or 0 if there is no such die. */
  function Extra(ds: seq<DieView>, p: nat): int
  {
    if p < |ds| then ds[p].face - 1 else 0
  }

  /** Every die counts at least 1, and three distinct dice count their full face. */
  lemma {:induction false} SumAtLeast(ds: seq<DieView>, i: nat, j: nat, k: nat)
    requires FacesInRange(ds)
    requires i != j && j != k && i != k
    ensures SumFaces(ds) >= |ds| + Extra(ds, i) + Extra(ds, j) + Extra(ds, k)
  {
    if ds != [] {
      var init := ds[..|ds| - 1];
      SumAtLeast(init, i, j, k);
      assert forall p: nat :: p < |init| ==> Extra(init, p) == Extra(ds, p);
      assert forall p: nat :: p >= |ds| ==> Extra(init, p) == Extra(ds, p) == 0;
    }
  }

  /** How much less than 6 the die at `p` shows, or 0 if there is no such die. */
  function Short(ds: seq<DieView>, p: nat): int
  {
    if p < |ds| then 6 - ds[p].face else 0
  }

  /** Every die counts at most 6, and three distinct dice count only their face. */
  lemma {:induction false} SumAtMost(ds: seq<DieView>, i: nat, j: nat, k: nat)
    requires FacesInRange(ds)
    requires i != j && j != k && i != k
    ensures SumFaces(ds) <= 6 * |ds| - Short(ds, i) - Short(ds, j) - Short(ds, k)
  {
    if ds != [] {
      var init := ds[..|ds| - 1];
      SumAtMost(init, i, j, k);
      assert forall p: nat :: p < |init| ==> Short(init, p) == Short(ds, p);
      assert forall p: nat :: p >= |ds| ==> Short(init, p) == Short(ds, p) == 0;
    }
  }

  /**
   * A qualifying turn needs at least three dice and scores between one point per
   * other die and six per other die; a turn never scores negative points.
   */
  lemma TurnPointsBounds(ds: seq<DieView>)
    requires FacesInRange(ds)
    ensures 0 <= TurnPoints(ds)
    ensures Qualifies(ds) ==> |ds| >= 3 && |ds| - 3 <= TurnPoints(ds) <= 6 * (|ds| - 3)
    ensures !Qualifies(ds) ==> TurnPoints(ds) == 0
  {
    if Qualifies(ds) {
      var i :| 0 <= i < |ds| && ds[i].held && ds[i].face == Ship;
      var j :| 0 <= j < |ds| && ds[j].held && ds[j].face == Captain;
      var k :| 0 <= k < |ds| && ds[k].held && ds[k].face == Crew;
      SumAtLeast(ds, i, j, k);
      SumAtMost(ds, i, j, k);
    }
  }

  /** Five dice showing 6, 5, 4, 3, 2 with the first three held score 3 + 2. */
  lemma ScoringExample()
    ensures TurnPoints([DieView(6, true, 'a'), DieView(5, true, 'b'), DieView(4, true, 'c'),
                        DieView(3, false, 'd'), DieView(2, false, 'e')]) == 5
  {
    var ds := [DieView(6, true, 'a'), DieView(5, true, 'b'), DieView(4, true, 'c'),
               DieView(3, false, 'd'), DieView(2, false, 'e')];
    assert ds[0].held && ds[0].face == Ship;
    assert ds[1].held && ds[1].face == Captain;
    assert ds[2].held && ds[2].face == Crew;
    assert ds[..1][..0] == [] && ds[..2][..1] == ds[..1] && ds[..3][..2] == ds[..2];
    assert ds[..4][..3] == ds[..3] && ds[..4] == ds[..|ds| - 1];
    assert SumFaces(ds[..1]) == 6 && SumFaces(ds[..2]) == 11 && SumFaces(ds[..3]) == 15;
    assert SumFaces(ds) == 20;
  }

  /** The same faces with the 4 left unheld do not score. */
  lemma NoCrewNoScore()
    ensures TurnPoints([DieView(6, true, 'a'), DieView(5, true, 'b'), DieView(4, false, 'c')]) == 0
  {
    var ds := [DieView(6, true, 'a'), DieView(5, true, 'b'), DieView(4, false, 'c')];
    assert !HoldingFace(ds, Crew);
  }

  // ---------------------------------------------------------------------------
  // Searches: the first die that matches

  /** The first position holding true, if any. */
  function FirstTrue(bs: seq<bool>): (r: Option<nat>)
    ensures r.None? <==> forall i :: 0 <= i < |bs| ==> !bs[i]
    ensures r.Some? ==> r.value < |bs| && bs[r.value] && forall i :: 0 <= i < r.value ==> !bs[i]
  {
    if bs == [] then None
    else if bs[0] then Some(0)
    else match FirstTrue(bs[1..])
      case None => None
      case Some(i) => Some(i + 1)
  }

  /** Which dice show `v` with hold flag `h`. */
  function FaceMask(ds: seq<DieView>, v: int, h: bool): (m: seq<bool>)
    ensures |m| == |ds| && forall i :: 0 <= i < |ds| ==> m[i] == (ds[i].face == v && ds[i].held == h)
  {
    seq(|ds|, i requires 0 <= i < |ds| => ds[i].face == v && ds[i].held == h)
  }

  /** The first die showing `v` with hold flag `h` (`filter(...).findFirst()`). */
  function FirstFace(ds: seq<DieView>, v: int, h: bool): (r: Option<nat>)
    ensures r.None? <==> forall i :: 0 <= i < |ds| ==> !(ds[i].face == v && ds[i].held == h)
    ensures r.Some? ==> r.value < |ds| && ds[r.value].face == v && ds[r.value].held == h &&
                        forall i :: 0 <= i < r.value ==> !(ds[i].face == v && ds[i].held == h)
  {
    var m := FaceMask(ds, v, h);
    var r := FirstTrue(m);
    assert r.None? ==> forall i :: 0 <= i < |ds| ==> !m[i];
    r
  }

  /** Which dice carry the die number `c`. */
  function NumMask(ds: seq<DieView>, c: char): (m: seq<bool>)
    ensures |m| == |ds| && forall i :: 0 <= i < |ds| ==> m[i] == (ds[i].dieNum == c)
  {
    seq(|ds|, i requires 0 <= i < |ds| => ds[i].dieNum == c)
  }

  /** The first die with die number `c`. */
  function FirstNum(ds: seq<DieView>, c: char): (r: Option<nat>)
    ensures r.None? <==> forall i :: 0 <= i < |ds| ==> ds[i].dieNum != c
    ensures r.Some? ==> r.value < |ds| && ds[r.value].dieNum == c &&
                        forall i :: 0 <= i < r.value ==> ds[i].dieNum != c
  {
    var m := NumMask(ds, c);
    var r := FirstTrue(m);
    assert r.None? ==> forall i :: 0 <= i < |ds| ==> !m[i];
    r
  }

  /** The dice with die `i` held and nothing else changed. */
  function Hold(ds: seq<DieView>, i: nat): (r: seq<DieView>)
    requires i < |ds|
    ensures |r| == |ds| && r[i].held && r[i].face == ds[i].face && r[i].dieNum == ds[i].dieNum
    ensures forall j :: 0 <= j < |ds| && j != i ==> r[j] == ds[j]
  {
    ds[i := ds[i].(held := true)]
  }

  /**
   * `autoHold(v)`: a die already held at `v` settles it; otherwise the first
   * unheld die showing `v` becomes held; otherwise nothing matches.
   */
  function AutoHold(ds: seq<DieView>, v: int): (r: (bool, seq<DieView>))
    ensures HoldingFace(ds, v) ==> r == (true, ds)
    ensures !HoldingFace(ds, v) && (exists i :: 0 <= i < |ds| && ds[i].face == v) ==>
              r.0 &&
              exists i :: 0 <= i < |ds| && ds[i].face == v && !ds[i].held &&
                          (forall j :: 0 <= j < i ==> ds[j].face != v) &&
                          r.1 == Hold(ds, i)
    ensures (forall i :: 0 <= i < |ds| ==> ds[i].face != v) ==> r == (false, ds)
  {
    var heldAt := FirstFace(ds, v, true);
    var unheldAt := FirstFace(ds, v, false);
    if heldAt.Some? then
      (true, ds)
    else if unheldAt.Some? then
      (true, Hold(ds, unheldAt.value))
    else
      (false, ds)
  }

  /**
   * `autoHold(v)` succeeds exactly when afterwards a held die shows `v`, and a
   * second call with the same value changes nothing: repeated calls never hold a
   * second die of the same face.
   */
  lemma AutoHoldSettles(ds: seq<DieView>, v: int)
    ensures AutoHold(ds, v).0 <==> HoldingFace(AutoHold(ds, v).1, v)
    ensures AutoHold(ds, v).0 ==> AutoHold(AutoHold(ds, v).1, v) == (true, AutoHold(ds, v).1)
    ensures !AutoHold(ds, v).0 ==> AutoHold(ds, v).1 == ds
  {
    var after := AutoHold(ds, v).1;
    if HoldingFace(ds, v) {
    } else if exists i :: 0 <= i < |ds| && ds[i].face == v {
      var i :| 0 <= i < |ds| && ds[i].face == v && !ds[i].held && after == Hold(ds, i);
      assert Hold(ds, i)[i].held;
      assert after[i].held && after[i].face == v;
    } else {
      assert !HoldingFace(after, v);
    }
  }

  /** `playerHold(c)`: the first die labelled `c` becomes held; no match changes nothing. */
  function HoldLabel(ds: seq<DieView>, c: char): (r: seq<DieView>)
    ensures (forall i :: 0 <= i < |ds| ==> ds[i].dieNum != c) ==> r == ds
    ensures forall i :: 0 <= i < |ds| && ds[i].dieNum == c && (forall j :: 0 <= j < i ==> ds[j].dieNum != c) ==>
              r == Hold(ds, i)
  {
    match FirstNum(ds, c)
    case None => ds
    case Some(i) => Hold(ds, i)
  }

  /** Holding by label twice is holding it once. */
  lemma HoldLabelIdempotent(ds: seq<DieView>, c: char)
    ensures HoldLabel(HoldLabel(ds, c), c) == HoldLabel(ds, c)
  {
    var after := HoldLabel(ds, c);
    match FirstNum(ds, c)
    case None =>
    case Some(i) =>
      assert after == Hold(ds, i);
      assert FirstNum(after, c) == Some(i);
      assert Hold(after, i) == after;
  }

  // ---------------------------------------------------------------------------
  // Rolling and resetting dice

  /**
   * `after` is a possible outcome of rolling `before`: same dice, same hold
   * flags, held dice keep their face, every face a face of a six-sided die.
   */
  predicate Rolled(before: seq<DieView>, after: seq<DieView>)
  {
    |after| == |before| &&
    forall i :: 0 <= i < |before| ==>
      after[i].held == before[i].held && after[i].dieNum == before[i].dieNum &&
      (before[i].held ==> after[i].face == before[i].face) &&
      1 <= after[i].face <= 6
  }

  /**
   * A roll never takes a qualifying combination away and never changes which
   * dice are held; with every die held it changes nothing at all.
   */
  lemma RollKeepsHeldDice(before: seq<DieView>, after: seq<DieView>)
    requires Rolled(before, after)
    ensures FacesInRange(after)
    ensures forall v :: HoldingFace(before, v) ==> HoldingFace(after, v)
    ensures Qualifies(before) ==> Qualifies(after)
    ensures AllHeld(after) <==> AllHeld(before)
    ensures AllHeld(before) ==> after == before
  {
    forall v | HoldingFace(before, v)
      ensures HoldingFace(after, v)
    {
      var i :| 0 <= i < |before| && before[i].held && before[i].face == v;
      assert after[i].held && after[i].face == v;
    }
    if AllHeld(before) {
      assert forall i :: 0 <= i < |before| ==> after[i] == before[i];
    }
  }

  /** `resetDice`: every hold released, faces and labels as they were. */
  function Released(ds: seq<DieView>): (r: seq<DieView>)
    ensures |r| == |ds| && forall i :: 0 <= i < |ds| ==> !r[i].held
    ensures forall i :: 0 <= i < |ds| ==> r[i].face == ds[i].face && r[i].dieNum == ds[i].dieNum
  {
    seq(|ds|, i requires 0 <= i < |ds| => ds[i].(held := false))
  }

  /**
   * Holding the one die still free makes every die held, and so closes the
   * roll gate; releasing the dice opens it again (when there are any) and
   * leaves no face held, so no hand qualifies.
   */
  lemma {:induction false} HoldingAndReleasingFlipAllHeld(ds: seq<DieView>, i: nat)
    requires i < |ds| && !ds[i].held
    requires forall j :: 0 <= j < |ds| && j != i ==> ds[j].held
    ensures !AllHeld(ds) && AllHeld(Hold(ds, i))
    ensures !AllHeld(Released(Hold(ds, i)))
    ensures forall v :: !HoldingFace(Released(ds), v)
    ensures !Qualifies(Released(ds))
  {
    var r := Released(Hold(ds, i));
    assert !r[i].held;
    forall v
      ensures !HoldingFace(Released(ds), v)
    {
      var q := Released(ds);
      assert forall j :: 0 <= j < |q| ==> !q[j].held;
    }
  }

  // ---------------------------------------------------------------------------
  // Players and the end of a round

  /** `resetPlayer`: score and rolls used back to 0, wins and losses kept. */
  function ResetView(p: PlayerView): (r: PlayerView)
    ensures r.score == 0 && r.rollsUsed == 0 && r.wins == p.wins && r.losses == p.losses
  {
    p.(score := 0, rollsUsed := 0)
  }

  function ScoresOf(ps: seq<PlayerView>): (r: seq<int>)
    ensures |r| == |ps| && forall i :: 0 <= i < |ps| ==> r[i] == ps[i].score
  {
    seq(|ps|, i requires 0 <= i < |ps| => ps[i].score)
  }

  /** The highest score, or 0 when there is none (`max().orElse(0)`). */
  function MaxOrZero(scores: seq<int>): (m: int)
    ensures |scores| == 0 ==> m == 0
    ensures |scores| > 0 ==> m in scores && forall i :: 0 <= i < |scores| ==> scores[i] <= m
  {
    if |scores| == 0 then 0
    else if |scores| == 1 then scores[0]
    else
      var rest := MaxOrZero(scores[1..]);
      assert forall i :: 1 <= i < |scores| ==> scores[i] == scores[1..][i - 1];
      if scores[0] >= rest then scores[0] else rest
  }

  /** The highest score depends only on which scores occur, not on their order or repetition. */
  lemma MaxOrZeroSameScores(a: seq<int>, b: seq<int>)
    requires forall x :: x in a <==> x in b
    ensures MaxOrZero(a) == MaxOrZero(b)
  {
    if |a| > 0 {
      assert a[0] in a;
    }
    if |b| > 0 {
      assert b[0] in b;
    }
    if |a| > 0 && |b| > 0 {
      var ma, mb := MaxOrZero(a), MaxOrZero(b);
      var i :| 0 <= i < |b| && b[i] == ma;
      var j :| 0 <= j < |a| && a[j] == mb;
    }
  }

  /**
   * The round's verdict for one player given the top score: with a nonzero top
   * score a win at the top and a loss below it; with top score 0, nothing.
   */
  function Award(p: PlayerView, top: int): (r: PlayerView)
    ensures r.score == p.score && r.rollsUsed == p.rollsUsed
    ensures r.wins - p.wins + r.losses - p.losses == (if top == 0 then 0 else 1)
    ensures r.wins == p.wins + (if top != 0 && p.score == top then 1 else 0)
  {
    if top == 0 then p
    else if p.score == top then p.(wins := p.wins + 1)
    else p.(losses := p.losses + 1)
  }

  /** Every player's verdict against the round's top score. */
  function AwardAll(ps: seq<PlayerView>): (r: seq<PlayerView>)
    ensures |r| == |ps| && ScoresOf(r) == ScoresOf(ps)
    ensures forall i :: 0 <= i < |ps| ==>
              r[i].wins == ps[i].wins + (if MaxOrZero(ScoresOf(ps)) != 0 && ps[i].score == MaxOrZero(ScoresOf(ps)) then 1 else 0)
  {
    var top := MaxOrZero(ScoresOf(ps));
    seq(|ps|, i requires 0 <= i < |ps| => Award(ps[i], top))
  }

  /**
   * A round with a nonzero top score has at least one winner, and every player
   * gets exactly one of a win or a loss; a round whose scores are all 0 awards
   * nothing at all.
   */
  lemma RoundVerdicts(ps: seq<PlayerView>)
    ensures var top := MaxOrZero(ScoresOf(ps));
            top != 0 ==> exists i :: 0 <= i < |ps| && AwardAll(ps)[i].wins == ps[i].wins + 1
    ensures var top := MaxOrZero(ScoresOf(ps));
            top != 0 ==> forall i :: 0 <= i < |ps| ==>
              AwardAll(ps)[i].wins + AwardAll(ps)[i].losses == ps[i].wins + ps[i].losses + 1
    ensures (forall i :: 0 <= i < |ps| ==> ps[i].score == 0) ==> AwardAll(ps) == ps
  {
    var top := MaxOrZero(ScoresOf(ps));
    if top != 0 {
      var i :| 0 <= i < |ps| && ScoresOf(ps)[i] == top;
      assert AwardAll(ps)[i] == Award(ps[i], top);
    }
    if forall i :: 0 <= i < |ps| ==> ps[i].score == 0 {
      if |ps| > 0 {
        assert ScoresOf(ps)[0] == 0;
      }
    }
  }

  /** Scores 10, 30, 30, 5: both players on 30 win, the other two lose. */
  lemma RoundExample()
    ensures AwardAll([PlayerView(10, 0, 0, 0), PlayerView(30, 0, 0, 0),
                      PlayerView(30, 0, 0, 0), PlayerView(5, 0, 0, 0)]) ==
            [PlayerView(10, 0, 0, 1), PlayerView(30, 0, 1, 0),
             PlayerView(30, 0, 1, 0), PlayerView(5, 0, 0, 1)]
  {
    var ps := [PlayerView(10, 0, 0, 0), PlayerView(30, 0, 0, 0),
               PlayerView(30, 0, 0, 0), PlayerView(5, 0, 0, 0)];
    ExampleTop(ps);
  }

  /** The top of the scores 10, 30, 30, 5 is 30. */
  lemma ExampleTop(ps: seq<PlayerView>)
    requires ScoresOf(ps) == [10, 30, 30, 5]
    ensures MaxOrZero(ScoresOf(ps)) == 30
  {
    assert [10, 30, 30, 5][1..] == [30, 30, 5] && [30, 30, 5][1..] == [30, 5] && [30, 5][1..] == [5];
  }


  // ---------------------------------------------------------------------------
  // Turn order

  predicate Distinct<T(==)>(s: seq<T>)
  {
    forall i, j :: 0 <= i < j < |s| ==> s[i] != s[j]
  }

  /** In a sequence without repeats every value occurs at most once. */
  lemma {:induction false} DistinctOccursOnce<T>(s: seq<T>, x: T)
    requires Distinct(s)
    ensures multiset(s)[x] <= 1
  {
    if s != [] {
      assert s == [s[0]] + s[1..];
      assert Distinct(s[1..]) by {
        forall i, j | 0 <= i < j < |s[1..]|
          ensures s[1..][i] != s[1..][j]
        {
          assert s[1..][i] == s[i + 1] && s[1..][j] == s[j + 1];
        }
      }
      DistinctOccursOnce(s[1..], x);
      if x == s[0] {
        assert x !in s[1..];
      }
    }
  }

  /** Reordering a sequence without repeats gives a sequence without repeats. */
  lemma DistinctPermutation<T>(a: seq<T>, b: seq<T>)
    requires Distinct(a) && multiset(a) == multiset(b)
    ensures Distinct(b)
  {
    forall i, j | 0 <= i < j < |b|
      ensures b[i] != b[j]
    {
      if b[i] == b[j] {
        var x := b[i];
        assert b == b[..j] + b[j..];
        assert x in b[..j] && x in b[j..];
        assert multiset(b)[x] == multiset(b[..j])[x] + multiset(b[j..])[x];
        DistinctOccursOnce(a, x);
        assert false;
      }
    }
  }

  /** The first position of `x` in `s`. */
  function IndexOf<T(==)>(s: seq<T>, x: T): (i: nat)
    requires x in s
    ensures i < |s| && s[i] == x && forall j :: 0 <= j < i ==> s[j] != x
  {
    if s[0] == x then 0 else 1 + IndexOf(s[1..], x)
  }

  /**
   * `nextPlayer`: nobody after the last entry or after something not in turn
   * order; otherwise the entry after the first occurrence of `x`.
   */
  function Successor<T(==)>(s: seq<T>, x: T): (r: Option<T>)
    requires |s| > 0
    ensures r.Some? <==> x in s && x != s[|s| - 1]
  {
    if x == s[|s| - 1] then None
    else if x in s then Some(s[IndexOf(s, x) + 1])
    else None
  }

  /** Advancing `steps` times from `x`, stopping for good at the end. */
  function Walk<T(==)>(s: seq<T>, x: T, steps: nat): Option<T>
    requires |s| > 0
  {
    if steps == 0 then Some(x)
    else match Walk(s, x, steps - 1)
      case None => None
      case Some(y) => Successor(s, y)
  }

  /** With distinct entries, each entry but the last is followed by the next one. */
  lemma SuccessorIsNext<T>(s: seq<T>, k: nat)
    requires Distinct(s) && k < |s|
    ensures Successor(s, s[k]) == if k == |s| - 1 then None else Some(s[k + 1])
  {
    if k < |s| - 1 {
      assert IndexOf(s, s[k]) == k;
    }
  }

  /** A round started at the first player reaches the `k`-th player after `k` steps. */
  lemma {:induction false} WalkReaches<T>(s: seq<T>, k: nat)
    requires Distinct(s) && k < |s|
    ensures Walk(s, s[0], k) == Some(s[k])
  {
    if k > 0 {
      WalkReaches(s, k - 1);
      SuccessorIsNext(s, k - 1);
    }
  }

  /**
   * A round started at the first player visits every player in turn order and
   * ends (no successor) exactly after the last one.
   */
  lemma RoundVisitsEveryPlayer<T>(s: seq<T>)
    requires Distinct(s) && 0 < |s|
    ensures forall k :: 0 <= k < |s| ==> Walk(s, s[0], k) == Some(s[k])
    ensures Walk(s, s[0], |s|) == None
  {
    forall k | 0 <= k < |s|
      ensures Walk(s, s[0], k) == Some(s[k])
    {
      WalkReaches(s, k);
    }
    WalkReaches(s, |s| - 1);
    SuccessorIsNext(s, |s| - 1);
  }
}
