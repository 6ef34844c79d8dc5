/**
 * The two leaf entities the engine drives, reduced to the members `DiceGame`
 * calls. Both are mutable objects: the engine holds references to them in its
 * lists and changes them in place.
 */
module Entities {
  import Rules

  /** One die: the face it shows, whether it is held, and its die number. */
  class Die {
    const sides: int
    const dieNum: char
    var faceValue: int
    var held: bool

    ghost predicate Valid()
      reads this
    {
      1 <= faceValue <= sides
    }

    /**
     * `new Die(sides)`: some face of the die, not held. How the die number is
     * assigned is not modelled; it is fixed for the die's lifetime.
     */
    constructor (sides: int)
      requires sides >= 1
      ensures Valid() && this.sides == sides && !held
    {
      this.sides := sides;
      var num: char :| true;
      dieNum := num;
      var face :| 1 <= face <= sides;
      faceValue := face;
      held := false;
    }

    function View(): Rules.DieView
      reads this
    {
      Rules.DieView(faceValue, held, dieNum)
    }

    /** `holdDie`: held from now on; the face stays. */
    method HoldDie()
      modifies this
      ensures View() == old(View()).(held := true)
    {
      held := true;
    }

    /** `rollDie`: an unheld die shows some face of the die; a held die keeps its face. */
    method RollDie()
      requires Valid()
      modifies this
      ensures Valid()
      ensures held == old(held)
      ensures old(held) ==> faceValue == old(faceValue)
    {
      if !held {
        var face :| 1 <= face <= sides;
        faceValue := face;
      }
    }

    /** `resetDie`: the hold is released; the face stays as it was. */
    method ResetDie()
      modifies this
      ensures View() == old(View()).(held := false)
    {
      held := false;
    }
  }

  /** One player: the score of the current round, the rolls used this turn, and the tally of rounds. */
  class Player {
    const playerNumber: int
    var score: int
    var rollsUsed: int
    var wins: int
    var losses: int

    /** `new Player()`: everything at 0. How players are numbered is not modelled. */
    constructor ()
      ensures View() == Rules.PlayerView(0, 0, 0, 0)
    {
      var number: int :| true;
      playerNumber := number;
      score, rollsUsed, wins, losses := 0, 0, 0, 0;
    }

    function View(): Rules.PlayerView
      reads this
    {
      Rules.PlayerView(score, rollsUsed, wins, losses)
    }

    method SetScore(value: int)
      modifies this
      ensures View() == old(View()).(score := value)
    {
      score := value;
    }

    /** `roll`: one more roll used; the limit is the engine's business. */
    method Roll()
      modifies this
      ensures View() == old(View()).(rollsUsed := old(rollsUsed) + 1)
    {
      rollsUsed := rollsUsed + 1;
    }

    method AddWin()
      modifies this
      ensures View() == old(View()).(wins := old(wins) + 1)
    {
      wins := wins + 1;
    }

    method AddLoss()
      modifies this
      ensures View() == old(View()).(losses := old(losses) + 1)
    {
      losses := losses + 1;
    }

    /** `resetPlayer`: score and rolls used back to 0; wins and losses persist. */
    method ResetPlayer()
      modifies this
      ensures View() == Rules.ResetView(old(View()))
    {
      score, rollsUsed := 0, 0;
    }
  }
}
