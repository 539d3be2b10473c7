/**
 * The typing test of the games arcade: a fixed reference text, the input
 * buffer, the time of the first keystroke and the finished flag. A run
 * finishes exactly when the input equals the text; the words-per-minute
 * figure divides the text's word count, `text.split(" ").length`, by the
 * elapsed minutes.
 */
module TypingTest {
  import opened Wrappers

  const Text: string :=
    "The quick brown fox jumps over the lazy dog. Programming is the art of telling another human what one wants the computer to do."

  /** The pieces of s between single spaces, as JavaScript's `split(" ")` returns them. */
  function Split(s: string): (parts: seq<string>)
    ensures |parts| >= 1
    ensures forall i :: 0 <= i < |parts| ==> ' ' !in parts[i]
  {
    if s == [] then [""]
    else
      var rest := Split(s[1..]);
      if s[0] == ' ' then [""] + rest
      else [[s[0]] + rest[0]] + rest[1..]
  }

  /** Puts the pieces back together with one space between neighbours. */
  function Join(parts: seq<string>): string
    requires |parts| >= 1
  {
    if |parts| == 1 then parts[0] else parts[0] + " " + Join(parts[1..])
  }

  function CountSpaces(s: string): nat
  {
    if s == [] then 0 else (if s[0] == ' ' then 1 else 0) + CountSpaces(s[1..])
  }

  /** Splitting loses nothing: joining the pieces gives the string back. */
  lemma {:induction false} JoinSplit(s: string)
    ensures Join(Split(s)) == s
  {
    if s != [] {
      var rest := Split(s[1..]);
      JoinSplit(s[1..]);
      var parts := Split(s);
      if s[0] == ' ' {
        assert parts[1..] == rest;
      } else {
        assert parts[1..] == rest[1..];
        if |rest| > 1 {
          assert Join(rest) == rest[0] + " " + Join(rest[1..]);
        }
      }
      assert s == [s[0]] + s[1..];
    }
  }

  /** Splitting a space-free word followed by t extends the first piece of t's split. */
  lemma {:induction false} SplitPrefix(w: string, t: string)
    requires ' ' !in w
    ensures Split(w + t) == [w + Split(t)[0]] + Split(t)[1..]
  {
    if w == [] {
      assert w + t == t && w + Split(t)[0] == Split(t)[0];
    } else {
      assert (w + t)[1..] == w[1..] + t;
      SplitPrefix(w[1..], t);
      assert [w[0]] + (w[1..] + Split(t)[0]) == w + Split(t)[0];
    }
  }

  /** Joining space-free pieces and splitting again gives the same pieces. */
  lemma {:induction false} SplitJoin(parts: seq<string>)
    requires |parts| >= 1
    requires forall i :: 0 <= i < |parts| ==> ' ' !in parts[i]
    ensures Split(Join(parts)) == parts
  {
    if |parts| == 1 {
      SplitPrefix(parts[0], "");
      assert parts[0] + "" == parts[0];
    } else {
      var rest := parts[1..];
      SplitJoin(rest);
      var t := " " + Join(rest);
      assert t[1..] == Join(rest);
      assert Split(t) == [""] + rest;
      assert Join(parts) == parts[0] + t;
      SplitPrefix(parts[0], t);
      assert parts[0] + "" == parts[0];
    }
  }

  /** The word count is one more than the number of spaces. */
  lemma {:induction false} WordCountSpaces(s: string)
    ensures WordCount(s) == CountSpaces(s) + 1
  {
    if s != [] {
      WordCountSpaces(s[1..]);
    }
  }

  /** The word count the WPM figure uses: the number of pieces `split(" ")` returns. */
  function WordCount(s: string): nat
  {
    |Split(s)|
  }

  class TypingGame {
    var input: string
    var startTime: Option<int>
    var finished: bool

    constructor ()
      ensures input == "" && startTime == None && !finished
    {
      input := "";
      startTime := None;
      finished := false;
    }

    /**
     * A change of the text area to val at time now: the first change
     * records the start time, the buffer becomes val, and the run finishes
     * exactly when val equals the reference text.
     */
    method HandleChange(val: string, now: int)
      modifies this
      ensures startTime == if old(startTime).None? then Some(now) else old(startTime)
      ensures input == val
      ensures finished == (old(finished) || val == Text)
    {
      if startTime.None? {
        startTime := Some(now);
      }
      input := val;
      if val == Text {
        finished := true;
      }
    }

    /** The Try Again button. */
    method TryAgain()
      modifies this
      ensures input == "" && startTime == None && !finished
    {
      input := "";
      finished := false;
      startTime := None;
    }
  }
}
