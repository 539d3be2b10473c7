/**
 * The Whack-a-Smiley engine of the games arcade: nine holes, at most one
 * active smiley, a score that never drops below zero and a 30-second
 * countdown. The 1 s countdown interval, the 1 s spawn interval and the
 * 800 ms hide timeout are events; the random hole is a parameter.
 */
module WhackASmiley {
  import opened Wrappers

  const Holes: nat := 9
  const GameSeconds: nat := 30
  const HitPoints: nat := 10
  const MissPenalty: nat := 5

  class WhackGame {
    var score: int
    var timeLeft: nat
    var activeHole: Option<nat>
    var isPlaying: bool

    /**
     * The score is never negative, the active hole (at most one) is one of
     * the nine, and the clock stays within the game length.
     */
    ghost predicate Valid()
      reads this
    {
      score >= 0 && (activeHole.Some? ==> activeHole.value < Holes) && timeLeft <= GameSeconds
    }

    /** Idle, before the first game: score 0, 30 seconds, no smiley. */
    constructor ()
      ensures Valid()
      ensures score == 0 && timeLeft == GameSeconds && activeHole == None && !isPlaying
    {
      score := 0;
      timeLeft := GameSeconds;
      activeHole := None;
      isPlaying := false;
    }

    /** Start / Play Again: score 0, full clock, playing; the smiley is left as it is. */
    method StartGame()
      requires Valid()
      modifies this
      ensures Valid()
      ensures score == 0 && timeLeft == GameSeconds && isPlaying
      ensures activeHole == old(activeHole)
    {
      score := 0;
      timeLeft := GameSeconds;
      isPlaying := true;
    }

    /**
     * A click on hole i, which reaches the game only while it is playing:
     * hitting the active smiley scores 10 and clears it; any other click
     * costs 5, but the score stops at 0.
     */
    method ClickHole(i: nat)
      requires Valid()
      requires i < Holes
      modifies this
      ensures Valid()
      ensures timeLeft == old(timeLeft) && isPlaying == old(isPlaying)
      ensures !old(isPlaying) ==> score == old(score) && activeHole == old(activeHole)
      ensures old(isPlaying) && old(activeHole) == Some(i) ==>
                score == old(score) + HitPoints && activeHole == None
      ensures old(isPlaying) && old(activeHole) != Some(i) ==>
                && activeHole == old(activeHole)
                && score == (if old(score) >= MissPenalty then old(score) - MissPenalty else 0)
    {
      if !isPlaying {
        return;
      }
      if activeHole == Some(i) {
        score := score + HitPoints;
        activeHole := None;
      } else {
        score := if score >= MissPenalty then score - MissPenalty else 0;
      }
    }

    /**
     * One second of the countdown, which runs only while playing with time
     * left; reaching zero ends the game.
     */
    method CountdownTick()
      requires Valid()
      modifies this
      ensures Valid()
      ensures score == old(score) && activeHole == old(activeHole)
      ensures old(isPlaying && timeLeft > 0) ==>
                timeLeft == old(timeLeft) - 1 && isPlaying == (timeLeft > 0)
      ensures !old(isPlaying && timeLeft > 0) ==>
                timeLeft == old(timeLeft) && isPlaying == old(isPlaying)
    {
      if isPlaying && timeLeft > 0 {
        timeLeft := timeLeft - 1;
        if timeLeft == 0 {
          isPlaying := false;
        }
      }
    }

    /** The spawn interval, only while playing with time left, shows the smiley in the random hole h. */
    method Spawn(h: nat)
      requires Valid()
      requires h < Holes
      modifies this
      ensures Valid()
      ensures score == old(score) && timeLeft == old(timeLeft) && isPlaying == old(isPlaying)
      ensures activeHole == if old(isPlaying && timeLeft > 0) then Some(h) else old(activeHole)
    {
      if isPlaying && timeLeft > 0 {
        activeHole := Some(h);
      }
    }

    /** The 800 ms timeout set by a spawn clears whatever smiley is showing. */
    method Hide()
      requires Valid()
      modifies this
      ensures Valid() && activeHole == None
      ensures score == old(score) && timeLeft == old(timeLeft) && isPlaying == old(isPlaying)
    {
      activeHole := None;
    }
  }

  /** Misses never push the score below zero; a hit is worth ten. */
  method MissesScenario()
  {
    var g := new WhackGame();
    g.StartGame();
    g.ClickHole(3);
    assert g.score == 0;
    g.Spawn(4);
    g.ClickHole(4);
    assert g.score == 10 && g.activeHole == None;
    g.ClickHole(4);
    g.ClickHole(4);
    g.ClickHole(4);
    assert g.score == 0;
  }
}
