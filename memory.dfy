/**
 * The memory-match engine ("Skill Match"): a deck of twelve cards made of
 * six icons, each twice, in shuffled order; the face-up cards; the solved
 * cards; a move counter and an input lock. The shuffle is a parameter (any
 * permutation of the doubled icon list) and the one-second flip-back
 * timeout is the FlipBack event.
 */
module MemoryGame {

  datatype Icon = Code | Storage | Public | Cloud | Terminal | Smartphone

  const Icons: seq<Icon> := [Code, Storage, Public, Cloud, Terminal, Smartphone]

  datatype Card = Card(id: nat, icon: Icon)

  /** A possible result of shuffling the doubled icon list. */
  ghost predicate IsShuffle(icons: seq<Icon>)
  {
    multiset(icons) == multiset(Icons + Icons)
  }

  /** Numbers the shuffled icons: the card at position i has id i. */
  function Deal(icons: seq<Icon>): (cards: seq<Card>)
    ensures |cards| == |icons|
    ensures forall i :: 0 <= i < |cards| ==> cards[i].id == i && cards[i].icon == icons[i]
  {
    seq(|icons|, i requires 0 <= i < |icons| => Card(i, icons[i]))
  }

  function IconsOf(cards: seq<Card>): (icons: seq<Icon>)
    ensures |icons| == |cards| && forall i :: 0 <= i < |cards| ==> icons[i] == cards[i].icon
  {
    seq(|cards|, i requires 0 <= i < |cards| => cards[i].icon)
  }

  /** Whatever the shuffle, the deck has twelve cards, ids 0 to 11, and every icon twice. */
  lemma DeckShape(shuffled: seq<Icon>)
    requires IsShuffle(shuffled)
    ensures |Deal(shuffled)| == 12
    ensures forall i :: 0 <= i < 12 ==> Deal(shuffled)[i].id == i
    ensures forall ic: Icon :: multiset(IconsOf(Deal(shuffled)))[ic] == 2
  {
    assert |multiset(shuffled)| == |multiset(Icons + Icons)|;
    assert IconsOf(Deal(shuffled)) == shuffled;
    forall ic: Icon ensures multiset(Icons + Icons)[ic] == 2 {
      match ic
      case Code =>
      case Storage =>
      case Public =>
      case Cloud =>
      case Terminal =>
      case Smartphone =>
    }
  }

  predicate Distinct(s: seq<nat>)
  {
    forall i, j :: 0 <= i < j < |s| ==> s[i] != s[j]
  }

  function Elements(s: seq<nat>): set<nat>
  {
    set x | x in s
  }

  function Below(n: nat): (b: set<nat>)
    ensures forall i: nat :: i in b <==> i < n
  {
    if n == 0 then {} else Below(n - 1) + {n - 1}
  }

  lemma {:induction false} DistinctElements(s: seq<nat>)
    requires Distinct(s)
    ensures |Elements(s)| == |s|
  {
    if s != [] {
      DistinctElements(s[1..]);
      assert Elements(s) == {s[0]} + Elements(s[1..]);
      assert s[0] !in Elements(s[1..]);
    }
  }

  lemma {:induction false} BelowSize(n: nat)
    ensures |Below(n)| == n
  {
    if n > 0 {
      BelowSize(n - 1);
    }
  }

  /**
   * Distinct card indices below n are at most n in number, and when there
   * are exactly n of them every index below n is among them.
   */
  lemma DistinctBelow(s: seq<nat>, n: nat)
    requires Distinct(s)
    requires forall k :: 0 <= k < |s| ==> s[k] < n
    ensures |s| <= n
    ensures |s| == n <==> forall i :: 0 <= i < n ==> i in s
  {
    DistinctElements(s);
    BelowSize(n);
    var e, b := Elements(s), Below(n);
    assert e <= b;
    assert b == e + (b - e) && e * (b - e) == {};
    if |s| == n {
      assert |b - e| == 0;
      forall i | 0 <= i < n ensures i in s {
        assert i in b;
      }
    }
    if forall i :: 0 <= i < n ==> i in s {
      assert b <= e;
    }
  }

  /** The cards at positions 2j and 2j + 1 of the solved list carry the same icon. */
  ghost predicate PairMatches(cards: seq<Card>, solved: seq<nat>, j: nat)
    requires 2 * j + 1 < |solved|
    requires forall k :: 0 <= k < |solved| ==> solved[k] < |cards|
  {
    cards[solved[2 * j]].icon == cards[solved[2 * j + 1]].icon
  }

  class MemoryGame {
    var cards: seq<Card>
    var flipped: seq<nat>
    var solved: seq<nat>
    var disabled: bool
    var moves: nat

    /**
     * Card ids are positions; at most two cards are face up, none of them
     * solved; the solved list is made of whole matching pairs; the lock is
     * on exactly while two unmatched cards wait to flip back.
     */
    ghost predicate Valid()
      reads this
    {
      && (forall i :: 0 <= i < |cards| ==> cards[i].id == i)
      && |flipped| <= 2 && Distinct(flipped) && Distinct(solved)
      && (forall k :: 0 <= k < |flipped| ==> flipped[k] < |cards| && flipped[k] !in solved)
      && (forall k :: 0 <= k < |solved| ==> solved[k] < |cards|)
      && |solved| % 2 == 0
      && (forall j: nat :: 2 * j + 1 < |solved| ==> PairMatches(cards, solved, j))
      && (disabled <==> |flipped| == 2)
      && (|flipped| == 2 ==> cards[flipped[0]].icon != cards[flipped[1]].icon)
    }

    /**
     * The win test, as the source writes it: as many solved ids as cards.
     * Under the invariant this means every card of a non-empty deck is solved.
     */
    predicate IsGameOver()
      reads this
      ensures Valid() ==>
                (IsGameOver() <==> |cards| > 0 && forall i :: 0 <= i < |cards| ==> i in solved)
    {
      SolvedWithinDeck();
      |cards| > 0 && |solved| == |cards|
    }

    /** Before the first deal the deck is empty. */
    constructor ()
      ensures Valid()
      ensures cards == [] && flipped == [] && solved == [] && !disabled && moves == 0
    {
      cards, flipped, solved := [], [], [];
      disabled, moves := false, 0;
    }

    /**
     * A new game (on mount and from the refresh and Play Again buttons):
     * the shuffled icons dealt as cards, nothing face up, nothing solved,
     * no moves, unlocked.
     */
    method InitializeGame(shuffled: seq<Icon>)
      requires IsShuffle(shuffled)
      modifies this
      ensures Valid()
      ensures cards == Deal(shuffled) && flipped == [] && solved == []
      ensures moves == 0 && !disabled
    {
      cards := Deal(shuffled);
      flipped := [];
      solved := [];
      moves := 0;
      disabled := false;
    }

    /**
     * A click on card id. Ignored while locked or when the card is already
     * face up or solved. A first card is turned up. A second card counts a
     * move; a matching pair is solved at once and the board unlocks, an
     * unmatched pair stays up, locked, until FlipBack.
     */
    method HandleClick(id: nat)
      requires Valid()
      requires id < |cards|
      modifies this
      ensures Valid() && cards == old(cards)
      ensures old(disabled || id in flipped || id in solved) ==>
                flipped == old(flipped) && solved == old(solved)
                && disabled == old(disabled) && moves == old(moves)
      ensures !old(disabled || id in flipped || id in solved) && old(|flipped|) == 0 ==>
                flipped == [id] && solved == old(solved) && !disabled && moves == old(moves)
      ensures !old(disabled || id in flipped || id in solved) && old(|flipped|) == 1 ==>
                && moves == old(moves) + 1
                && (cards[old(flipped)[0]].icon == cards[id].icon ==>
                      solved == old(solved) + [old(flipped)[0], id] && flipped == [] && !disabled)
                && (cards[old(flipped)[0]].icon != cards[id].icon ==>
                      solved == old(solved) && flipped == old(flipped) + [id] && disabled)
    {
      if disabled || id in flipped || id in solved {
        return;
      }
      if |flipped| == 0 {
        flipped := [id];
        return;
      }
      if |flipped| == 1 {
        var first := flipped[0];
        disabled := true;
        flipped := flipped + [id];
        moves := moves + 1;
        if cards[first].icon == cards[id].icon {
          ghost var before := solved;
          solved := solved + [first, id];
          forall j: nat | 2 * j + 1 < |solved| ensures PairMatches(cards, solved, j) {
            if 2 * j + 1 < |before| {
              assert PairMatches(cards, before, j);
            } else {
              assert 2 * j == |before|;
            }
          }
          flipped := [];
          disabled := false;
        }
      }
    }

    /** The flip-back timeout: face-up cards turn down and the lock releases. */
    method FlipBack()
      requires Valid()
      modifies this
      ensures Valid()
      ensures flipped == [] && !disabled
      ensures cards == old(cards) && solved == old(solved) && moves == old(moves)
    {
      flipped := [];
      disabled := false;
    }

    /**
     * In a valid state the solved list never outgrows the deck, and it is
     * as long as the deck exactly when every card id is in it.
     */
    lemma SolvedWithinDeck()
      ensures Valid() ==> |solved| <= |cards|
      ensures Valid() ==> (|solved| == |cards| <==> forall i :: 0 <= i < |cards| ==> i in solved)
    {
      if Valid() {
        DistinctBelow(solved, |cards|);
      }
    }
  }

  /** Matching the two Code cards solves them in one move; a mismatch locks until FlipBack. */
  method PairScenario()
  {
    var g := new MemoryGame();
    g.InitializeGame(Icons + Icons);
    g.HandleClick(0);
    assert g.flipped == [0] && g.moves == 0 && !g.disabled;
    g.HandleClick(6);
    assert g.solved == [0, 6] && g.flipped == [] && g.moves == 1;
    g.HandleClick(1);
    g.HandleClick(2);
    assert g.disabled && g.flipped == [1, 2] && g.moves == 2;
    g.HandleClick(3);
    assert g.flipped == [1, 2] && g.moves == 2;
    g.FlipBack();
    assert g.flipped == [] && g.solved == [0, 6] && !g.disabled;
  }
}
