/**
 * The Rock-Paper-Scissors engine of the games arcade: the player's choice,
 * the computer's random choice and the outcome rule.
 */
module RockPaperScissors {
  import opened Wrappers

  datatype Choice = Rock | Paper | Scissors

  /** The result line under the two hands. */
  datatype Outcome = Tie | YouWin | ComputerWins

  /** The buttons, in the order the computer's random index picks from. */
  const Choices: seq<Choice> := [Rock, Paper, Scissors]

  function Rank(c: Choice): int
  {
    match c
    case Rock => 0
    case Paper => 1
    case Scissors => 2
  }

  /** The cyclic order of the game: each choice beats the one just before it. */
  predicate Beats(a: Choice, b: Choice)
  {
    (Rank(a) - Rank(b)) % 3 == 1
  }

  /**
   * The outcome for the player: a tie on equal choices, a win for rock over
   * scissors, paper over rock and scissors over paper, else a loss.
   */
  function Judge(choice: Choice, comp: Choice): (r: Outcome)
    ensures r == Tie <==> choice == comp
    ensures r == YouWin <==> Beats(choice, comp)
    ensures r == ComputerWins <==> Beats(comp, choice)
  {
    if choice == comp then Tie
    else if (choice == Rock && comp == Scissors)
         || (choice == Paper && comp == Rock)
         || (choice == Scissors && comp == Paper) then YouWin
    else ComputerWins
  }

  /**
   * Winning is antisymmetric, no choice beats itself, and of two different
   * choices one beats the other.
   */
  lemma BeatsAntisymmetric(a: Choice, b: Choice)
    ensures Beats(a, b) ==> !Beats(b, a)
    ensures !Beats(a, a)
    ensures a != b ==> Beats(a, b) || Beats(b, a)
  {
  }

  /** Swapping the two hands swaps the winner and keeps a tie a tie. */
  lemma JudgeSwapped(a: Choice, b: Choice)
    ensures Judge(a, b) == YouWin <==> Judge(b, a) == ComputerWins
    ensures Judge(a, b) == Tie <==> Judge(b, a) == Tie
  {
  }

  class RpsGame {
    var userChoice: Option<Choice>
    var compChoice: Option<Choice>
    var result: Option<Outcome>

    constructor ()
      ensures userChoice == None && compChoice == None && result == None
    {
      userChoice, compChoice, result := None, None, None;
    }

    /**
     * A choice button followed by its one-second timeout: the computer
     * takes the random index's choice and the outcome is judged. The
     * buttons are never disabled, so this works with a result showing too.
     */
    method PlayGame(choice: Choice, random: nat)
      requires random < |Choices|
      modifies this
      ensures userChoice == Some(choice) && compChoice == Some(Choices[random])
      ensures result == Some(Judge(choice, Choices[random]))
    {
      userChoice := Some(choice);
      var comp := Choices[random];
      compChoice := Some(comp);
      result := Some(Judge(choice, comp));
    }

    /** The Play Again button clears the round. */
    method PlayAgain()
      modifies this
      ensures userChoice == None && compChoice == None && result == None
    {
      userChoice, compChoice, result := None, None, None;
    }
  }
}
