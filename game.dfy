/**
 * The rules engine (`DiceGame`): the players in turn order, the dice, the roll
 * limit and the player whose turn it is. Every operation is proved against the
 * value-level rules of module Rules and the ranking of module Ranking.
 */
module Game {
  import opened Wrappers
  import Rules
  import Ranking
  import opened Entities

  datatype ConfigError = TooFewPlayers

  class DiceGame {
    var players: seq<Player>
    const dice: seq<Die>
    const maxRolls: int
    var currentPlayer: Player?

    /**
     * At least two distinct players, distinct six-sided dice showing valid
     * faces, and a current player that is one of the players (or none yet).
     */
    ghost predicate Valid()
      reads this, players, dice
    {
      && Roster(players, currentPlayer)
      && DiceValid()
    }

    /** Distinct six-sided dice, each showing one of its faces. */
    ghost predicate DiceValid()
      reads dice
    {
      && Rules.Distinct(dice)
      && (forall i :: 0 <= i < |dice| ==> dice[i].sides == 6 && dice[i].Valid())
    }

    /** What the dice show, in order. */
    function DiceView(): (r: seq<Rules.DieView>)
      reads this, dice
      ensures |r| == |dice| && forall i :: 0 <= i < |dice| ==> r[i] == dice[i].View()
    {
      seq(|dice|, i requires 0 <= i < |dice| reads dice => dice[i].View())
    }

    /** The score table the sort compares by. */
    function ScoreMap(): (m: map<Player, int>)
      reads this, players
      ensures Ranking.Scored(players, m) && forall p :: p in players ==> m[p] == p.score
    {
      map p | p in players :: p.score
    }

    /**
     * `new DiceGame(countPlayers, countDice, maxRolls)` for at least two players
     * (NewGame below reports the error otherwise). A negative die count makes no dice.
     */
    constructor (countPlayers: int, countDice: int, maxRolls: int)
      requires countPlayers >= 2
      ensures Valid() && currentPlayer == null && this.maxRolls == maxRolls
      ensures |players| == countPlayers && |dice| == (if countDice < 0 then 0 else countDice)
      ensures forall p :: p in players ==> fresh(p) && p.View() == Rules.PlayerView(0, 0, 0, 0)
      ensures forall d :: d in dice ==> fresh(d) && !d.held
    {
      this.maxRolls := maxRolls;
      var ps: seq<Player> := [];
      for i := 0 to countPlayers
        invariant |ps| == i && Rules.Distinct(ps)
        invariant forall p :: p in ps ==> fresh(p) && p.View() == Rules.PlayerView(0, 0, 0, 0)
      {
        var p := new Player();
        ps := ps + [p];
      }
      var ds: seq<Die> := [];
      var i := 0;
      while i < countDice
        invariant 0 <= i && |ds| == i && (countDice >= 0 ==> i <= countDice) && (countDice < 0 ==> i == 0)
        invariant Rules.Distinct(ds)
        invariant forall p :: p in ps ==> fresh(p) && p.View() == Rules.PlayerView(0, 0, 0, 0)
        invariant forall k :: 0 <= k < |ds| ==> fresh(ds[k]) && !ds[k].held && ds[k].sides == 6 && ds[k].Valid()
      {
        var d := new Die(6);
        ds := ds + [d];
        i := i + 1;
      }
      players := ps;
      dice := ds;
      currentPlayer := null;
    }

    /** `allDiceHeld`: every die is held (so, trivially, when there are none). */
    function AllDiceHeld(): (r: bool)
      reads this, dice
      ensures r == Rules.AllHeld(DiceView())
    {
      forall i :: 0 <= i < |dice| ==> dice[i].held
    }

    /** `isHoldingDie(v)`: some held die shows `v`. */
    function IsHoldingDie(faceValue: int): (r: bool)
      reads this, dice
      ensures r == Rules.HoldingFace(DiceView(), faceValue)
    {
      exists i :: 0 <= i < |dice| && dice[i].held && faceValue == dice[i].faceValue
    }

    /** `currentPlayerCanRoll`: the roll limit is not reached and some die is free. */
    function CurrentPlayerCanRoll(): (r: bool)
      requires currentPlayer != null
      reads this, currentPlayer, dice
      ensures r <==> currentPlayer.rollsUsed != maxRolls && exists i :: 0 <= i < |dice| && !dice[i].held
      ensures r == Rules.CanRoll(currentPlayer.rollsUsed, maxRolls, DiceView())
    {
      if currentPlayer.rollsUsed == maxRolls || AllDiceHeld() then false else true
    }

    /** `autoHold(v)`: see Rules.AutoHold for the three outcomes. */
    method AutoHold(faceValue: int) returns (ok: bool)
      requires Valid()
      modifies dice
      ensures Valid()
      ensures (ok, DiceView()) == Rules.AutoHold(old(DiceView()), faceValue)
    {
      var view := DiceView();
      var heldAt := Rules.FirstFace(view, faceValue, true);
      var unheldAt := Rules.FirstFace(view, faceValue, false);
      if heldAt.Some? {
        ok := true;
      } else if unheldAt.Some? {
        var k := unheldAt.value;
        dice[k].HoldDie();
        assert DiceView() == Rules.Hold(view, k);
        ok := true;
      } else {
        ok := false;
      }
    }

    /** `playerHold(c)`: hold the first die whose die number is `c`, if there is one. */
    method PlayerHold(dieNum: char)
      requires Valid()
      modifies dice
      ensures Valid()
      ensures DiceView() == Rules.HoldLabel(old(DiceView()), dieNum)
    {
      var view := DiceView();
      var at := Rules.FirstNum(view, dieNum);
      if at.Some? {
        var k := at.value;
        dice[k].HoldDie();
        assert DiceView() == Rules.Hold(view, k);
      }
    }

    /** `resetDice`: release every die. */
    method ResetDice()
      requires Valid()
      modifies dice
      ensures Valid()
      ensures DiceView() == Rules.Released(old(DiceView()))
    {
      for i := 0 to |dice|
        invariant forall k :: 0 <= k < i ==> dice[k].View() == old(dice[k].View()).(held := false)
        invariant forall k :: i <= k < |dice| ==> dice[k].View() == old(dice[k].View())
      {
        dice[i].ResetDie();
      }
    }

    /** `resetPlayers`: every player's score and rolls used back to 0. */
    method ResetPlayers()
      requires Valid()
      modifies players
      ensures Valid() && players == old(players)
      ensures forall i :: 0 <= i < |players| ==> players[i].View() == Rules.ResetView(old(players[i].View()))
    {
      for i := 0 to |players|
        invariant forall k :: 0 <= k < i ==> players[k].View() == Rules.ResetView(old(players[k].View()))
        invariant forall k :: i <= k < |players| ==> players[k].View() == old(players[k].View())
      {
        players[i].ResetPlayer();
      }
    }

    /** `rollDice`: one roll used by the current player, then every die rolled. No gate is checked here. */
    method RollDice()
      requires Valid() && currentPlayer != null
      modifies currentPlayer, dice
      ensures Valid()
      ensures currentPlayer.View() == old(currentPlayer.View()).(rollsUsed := old(currentPlayer.rollsUsed) + 1)
      ensures Rules.Rolled(old(DiceView()), DiceView())
    {
      currentPlayer.Roll();
      for i := 0 to |dice|
        invariant currentPlayer.View() == old(currentPlayer.View()).(rollsUsed := old(currentPlayer.rollsUsed) + 1)
        invariant forall k :: 0 <= k < i ==>
                    dice[k].held == old(dice[k].held) &&
                    (old(dice[k].held) ==> dice[k].faceValue == old(dice[k].faceValue)) &&
                    1 <= dice[k].faceValue <= 6
        invariant forall k :: i <= k < |dice| ==> dice[k].View() == old(dice[k].View())
      {
        dice[i].RollDie();
      }
    }

    /**
     * `scoreCurrentPlayer`: with a held 6, 5 and 4 the current player gains the
     * sum of all faces less 15; otherwise nothing changes.
     */
    method ScoreCurrentPlayer()
      requires Valid() && currentPlayer != null
      modifies currentPlayer
      ensures Valid()
      ensures currentPlayer.View() ==
              old(currentPlayer.View()).(score := old(currentPlayer.score) + Rules.TurnPoints(old(DiceView())))
    {
      if IsHoldingDie(6) && IsHoldingDie(5) && IsHoldingDie(4) {
        var view := DiceView();
        var score := 0;
        for i := 0 to |dice|
          invariant score == Rules.SumFaces(view[..i])
        {
          assert view[..i + 1][..i] == view[..i];
          score := score + dice[i].faceValue;
        }
        assert view[..|dice|] == view;
        score := score - 15;
        currentPlayer.SetScore(currentPlayer.score + score);
      }
    }

    /**
     * `nextPlayer`: false at the last player (or with no current player);
     * otherwise the player after the current one takes the turn.
     */
    method NextPlayer() returns (advanced: bool)
      requires Valid()
      modifies this`currentPlayer
      ensures Valid()
      ensures var next := Rules.Successor(players, old(currentPlayer));
              advanced == next.Some? && currentPlayer == if advanced then next.value else old(currentPlayer)
    {
      var last := players[|players| - 1];
      if currentPlayer == last {
        return false;
      }
      var id := 0;
      while id < |players|
        invariant 0 <= id <= |players|
        invariant forall k :: 0 <= k < id ==> players[k] != currentPlayer
      {
        if currentPlayer == players[id] {
          assert id == Rules.IndexOf(players, currentPlayer);
          currentPlayer := players[id + 1];
          return true;
        }
        id := id + 1;
      }
      return false;
    }

    /**
     * `startNewGame`: the first player in the list (the previous round's leader)
     * takes the first turn, and every player is reset.
     */
    method StartNewGame()
      requires Valid()
      modifies this`currentPlayer, players
      ensures Valid() && players == old(players) && currentPlayer == players[0]
      ensures forall i :: 0 <= i < |players| ==> players[i].View() == Rules.ResetView(old(players[i].View()))
    {
      currentPlayer := players[0];
      ResetPlayers();
    }

    /**
     * `getGameResults`: the players are sorted by score, highest first and
     * stably, then each gets the round's verdict against the top score.
     */
    method GetGameResults()
      requires Valid()
      modifies this`players, players
      ensures Valid() && currentPlayer == old(currentPlayer)
      ensures Ranking.StableSortOf(players, old(players), old(ScoreMap()))
      ensures forall p :: p in players ==> p.View() == Rules.Award(old(p.View()), old(TopScore()))
    {
      var top := TopScore();
      SortByScore();
      assert forall i :: 0 <= i < |players| ==> players[i] in old(players);
      AwardVerdicts(top);
    }

    /** The best score of the round, or 0 when nobody scored. */
    function TopScore(): (top: int)
      reads this, players
      ensures forall i :: 0 <= i < |players| ==> players[i].score <= top
      ensures |players| == 0 ==> top == 0
      ensures |players| > 0 ==> exists i :: 0 <= i < |players| && players[i].score == top
    {
      var scores := ScoresOf(players);
      assert forall i :: 0 <= i < |players| ==> scores[i] == players[i].score;
      Rules.MaxOrZero(scores)
    }

    /** The first half of `getGameResults`: the players, stably ranked by descending score. */
    method SortByScore()
      requires Valid()
      modifies this`players
      ensures Valid() && currentPlayer == old(currentPlayer)
      ensures Ranking.StableSortOf(players, old(players), old(ScoreMap()))
      ensures forall p :: p in players <==> p in old(players)
    {
      var key := ScoreMap();
      var ranked := Ranking.Sort(players, key);
      SameMembersKeepRoster(players, ranked, currentPlayer);
      Reseat(ranked);
    }

    /** Replaces the turn order by a rearrangement of the same roster. */
    method Reseat(ranked: seq<Player>)
      requires Valid() && Roster(ranked, currentPlayer)
      modifies this`players
      ensures Valid() && players == ranked && currentPlayer == old(currentPlayer)
    {
      players := ranked;
    }

    /**
     * The second half of `getGameResults`: with a nonzero top score, a win for
     * every player on it and a loss for everyone else; with top score 0, nothing.
     */
    method AwardVerdicts(top: int)
      requires Valid()
      modifies players
      ensures Valid() && players == old(players)
      ensures forall k :: 0 <= k < |players| ==> players[k].View() == Rules.Award(old(players[k].View()), top)
    {
      if top != 0 {
        for i := 0 to |players|
          invariant forall k :: 0 <= k < i ==> players[k].View() == Rules.Award(old(players[k].View()), top)
          invariant forall k :: i <= k < |players| ==> players[k].View() == old(players[k].View())
        {
          if players[i].score == top {
            players[i].AddWin();
          } else {
            players[i].AddLoss();
          }
        }
      }
    }
  }

  /** At least two players, none listed twice, and the current one (if any) among them. */
  predicate Roster(ps: seq<Player>, current: Player?)
  {
    && |ps| >= 2
    && Rules.Distinct(ps)
    && (current == null || current in ps)
  }

  /** The players' scores, in the order given. */
  function ScoresOf(ps: seq<Player>): (r: seq<int>)
    reads ps
    ensures |r| == |ps|
  {
    seq(|ps|, i requires 0 <= i < |ps| reads ps => ps[i].score)
  }

  /** Two player lists with the same members have the same top score. */
  lemma SameMembersSameTop(ps: seq<Player>, qs: seq<Player>)
    requires forall p :: p in ps <==> p in qs
    ensures Rules.MaxOrZero(ScoresOf(ps)) == Rules.MaxOrZero(ScoresOf(qs))
  {
    var a, b := ScoresOf(ps), ScoresOf(qs);
    forall x | x in a
      ensures x in b
    {
      var k :| 0 <= k < |ps| && a[k] == x;
      assert ps[k] in qs;
      var j :| 0 <= j < |qs| && qs[j] == ps[k];
      assert b[j] == x;
    }
    forall x | x in b
      ensures x in a
    {
      var j :| 0 <= j < |qs| && b[j] == x;
      assert qs[j] in ps;
      var k :| 0 <= k < |ps| && ps[k] == qs[j];
      assert a[k] == x;
    }
    Rules.MaxOrZeroSameScores(a, b);
  }

  /** A rearrangement of a roster with the same members is again a roster for the same current player. */
  lemma SameMembersKeepRoster(ps: seq<Player>, qs: seq<Player>, current: Player?)
    requires Roster(ps, current) && multiset(qs) == multiset(ps)
    ensures Roster(qs, current)
  {
    Rules.DistinctPermutation(ps, qs);
    assert |qs| == |multiset(qs)| == |multiset(ps)| == |ps|;
    if current != null {
      assert current in multiset(ps);
    }
  }

  /** Construction, failing with TooFewPlayers below two players as the source throws. */
  method NewGame(countPlayers: int, countDice: int, maxRolls: int) returns (r: Result<DiceGame, ConfigError>)
    ensures r.Failure? <==> countPlayers < 2
    ensures r.Success? ==>
              fresh(r.value) && r.value.Valid() && r.value.currentPlayer == null &&
              |r.value.players| == countPlayers && r.value.maxRolls == maxRolls &&
              |r.value.dice| == (if countDice < 0 then 0 else countDice)
    ensures r.Success? ==>
              (forall p :: p in r.value.players ==> fresh(p) && p.View() == Rules.PlayerView(0, 0, 0, 0)) &&
              (forall d :: d in r.value.dice ==> fresh(d) && !d.held)
  {
    if countPlayers < 2 {
      return Failure(TooFewPlayers);
    }
    var game := new DiceGame(countPlayers, countDice, maxRolls);
    return Success(game);
  }
}
