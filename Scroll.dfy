/**
 * The scroll/stagnation controller of `GoogleMapsExtractor.scroll_and_load`.
 *
 * The browser is replaced by what it answers: `initialHeight` is the feed's
 * `scrollHeight` read once the feed is found (None when the feed never appears
 * or the read raises), and each element of `rounds` is what one pass of the loop
 * reads back. The loop keeps `lastHeight`, a stagnation counter `attempts` and the
 * number `loaded` of place anchors counted after the last scroll.
 */
module Scroll {
  import opened Wrappers

  /** The loop guard's bound on `attempts` (`max_scroll_attempts`). */
  const MaxScrollAttempts := 20
  /** The number of consecutive unchanged heights that ends the loop. */
  const StagnationLimit := 3

  /** What the best-effort "Show more results" lookup and click did in one round. */
  datatype Button = NoButton | ClickFails | Clicked

  /** One pass of the loop as the browser answers it: either the scroll script or
      the height read raised, or the new height was read, the anchor count either
      raised (None) or returned a number, and the button did something. */
  datatype Round =
    | HeightFault
    | Observed(height: int, anchors: Option<nat>, button: Button)

  datatype ScrollState = ScrollState(lastHeight: int, attempts: nat, loaded: nat)

  /** Why the controller stopped. `Unfinished` means the given rounds ran out while
      the loop would still go on: the model has seen only a prefix of the run. */
  datatype Stop = TargetReached | Stagnated | RoundCap | FeedMissing | DomFault | Unfinished

  /** How the run ended, in which state, after how many rounds. */
  datatype Outcome = Outcome(stop: Stop, final: ScrollState, used: nat)

  /** The value `scroll_and_load` returns for a stop it reaches: True on every normal
      exit, however many results were loaded, and False when an exception escaped. */
  predicate ReturnsTrue(stop: Stop)
    requires stop != Unfinished
  {
    stop == TargetReached || stop == Stagnated || stop == RoundCap
  }

  /** The loop from round `i` on, in state `st`. */
  function Loop(rounds: seq<Round>, maxResults: int, i: nat, st: ScrollState): Outcome
    requires i <= |rounds|
    decreases |rounds| - i
  {
    if !(st.loaded < maxResults && st.attempts < MaxScrollAttempts) then
      Outcome(if st.loaded >= maxResults then TargetReached else RoundCap, st, i)
    else if i == |rounds| then
      Outcome(Unfinished, st, i)
    else
      match rounds[i]
      case HeightFault => Outcome(DomFault, st, i + 1)
      case Observed(h, anchors, _) =>
        var attempts := if h == st.lastHeight then st.attempts + 1 else 0;
        if h == st.lastHeight && attempts >= StagnationLimit then
          Outcome(Stagnated, st.(attempts := attempts), i + 1)
        else
          match anchors
          case None => Outcome(DomFault, ScrollState(h, attempts, st.loaded), i + 1)
          case Some(n) => Loop(rounds, maxResults, i + 1, ScrollState(h, attempts, n))
  }

  /** The whole of `scroll_and_load`, as a function of what the browser answers. */
  function LoadFeed(initialHeight: Option<int>, rounds: seq<Round>, maxResults: int): Outcome {
    match initialHeight
    case None => Outcome(FeedMissing, ScrollState(0, 0, 0), 0)
    case Some(h0) => Loop(rounds, maxResults, 0, ScrollState(h0, 0, 0))
  }

  /** `scroll_and_load(max_results)`, step by step. */
  method ScrollAndLoad(initialHeight: Option<int>, rounds: seq<Round>, maxResults: int)
    returns (result: Outcome)
    ensures result == LoadFeed(initialHeight, rounds, maxResults)
  {
    if initialHeight.None? {
      return Outcome(FeedMissing, ScrollState(0, 0, 0), 0);
    }
    var lastHeight := initialHeight.value;
    var loaded: nat := 0;
    var attempts: nat := 0;
    var i := 0;
    while loaded < maxResults && attempts < MaxScrollAttempts
      invariant i <= |rounds|
      invariant Loop(rounds, maxResults, i, ScrollState(lastHeight, attempts, loaded))
                == LoadFeed(initialHeight, rounds, maxResults)
      decreases |rounds| - i
    {
      if i == |rounds| {
        return Outcome(Unfinished, ScrollState(lastHeight, attempts, loaded), i);
      }
      var round := rounds[i];
      i := i + 1;
      if round.HeightFault? {
        return Outcome(DomFault, ScrollState(lastHeight, attempts, loaded), i);
      }
      var newHeight := round.height;
      if newHeight == lastHeight {
        attempts := attempts + 1;
        if attempts >= StagnationLimit {
          return Outcome(Stagnated, ScrollState(lastHeight, attempts, loaded), i);
        }
      } else {
        attempts := 0;
      }
      lastHeight := newHeight;
      match round.anchors {
        case None =>
          return Outcome(DomFault, ScrollState(lastHeight, attempts, loaded), i);
        case Some(n) =>
          loaded := n;
      }
      // The "Show more results" click (round.button) is best effort: whatever it
      // does, a failure is swallowed and no loop variable changes.
    }
    var stop := if loaded >= maxResults then TargetReached else RoundCap;
    return Outcome(stop, ScrollState(lastHeight, attempts, loaded), i);
  }

  // ---------------------------------------------------------------------------
  // A reference description of the loop state, in terms of the rounds read so far.

  /** Every one of the first `j` rounds read a height. */
  predicate ObservedUpTo(rounds: seq<Round>, j: nat) {
    j <= |rounds| && forall k :: 0 <= k < j ==> rounds[k].Observed?
  }

  /** The height last read before round `j` (the initial height before round 0). */
  function HeightBefore(h0: int, rounds: seq<Round>, j: nat): int
    requires ObservedUpTo(rounds, j)
  {
    if j == 0 then h0 else rounds[j - 1].height
  }

  /** How many of the rounds up to `j`, counting back from the latest, read the same
      height as the round before them: the length of the current stagnant streak. */
  function Repeats(h0: int, rounds: seq<Round>, j: nat): nat
    requires ObservedUpTo(rounds, j)
  {
    if j == 0 then 0
    else if rounds[j - 1].height == HeightBefore(h0, rounds, j - 1) then Repeats(h0, rounds, j - 1) + 1
    else 0
  }

  /** The loop state at the head of the loop after `j` completed rounds is the one
      these rounds determine: the last height read, the stagnant streak as the
      counter, the last anchor count as `loaded`. */
  predicate Tracks(h0: int, rounds: seq<Round>, j: nat, st: ScrollState) {
    ObservedUpTo(rounds, j)
    && (forall k :: 0 <= k < j ==> rounds[k].anchors.Some?)
    && st.lastHeight == HeightBefore(h0, rounds, j)
    && st.attempts == Repeats(h0, rounds, j)
    && st.loaded == (if j == 0 then 0 else rounds[j - 1].anchors.value)
  }

  /** At the loop head after round `j` the loop went on: that round read a height and
      an anchor count below the target, and the stagnant streak was below three. */
  predicate WentOn(h0: int, rounds: seq<Round>, maxResults: int, j: nat) {
    0 < j && ObservedUpTo(rounds, j)
    && rounds[j - 1].anchors.Some? && rounds[j - 1].anchors.value < maxResults
    && Repeats(h0, rounds, j) < StagnationLimit
  }

  /** What the loop does from a head state that the rounds so far determine:
      - the counter follows the stagnant streak, and the loop stops for stagnation
        exactly when the streak reaches three;
      - it stops on reaching the target with at least `maxResults` anchors counted;
      - the round cap never ends it;
      - at every loop head it passed, fewer than `maxResults` anchors were counted
        and the streak was below three, so it stops as soon as either condition holds;
      - False is returned only for a round whose browser call raised. */
  lemma {:induction false} LoopFacts(h0: int, rounds: seq<Round>, maxResults: int, i: nat, st: ScrollState)
    requires i <= |rounds| && Tracks(h0, rounds, i, st) && st.attempts < StagnationLimit
    ensures var o := Loop(rounds, maxResults, i, st);
      && i <= o.used <= |rounds|
      && o.stop != RoundCap && o.stop != FeedMissing
      && (o.stop == Stagnated <==> ObservedUpTo(rounds, o.used) && Repeats(h0, rounds, o.used) == StagnationLimit)
      && (o.stop == TargetReached ==> Tracks(h0, rounds, o.used, o.final) && o.final.loaded >= maxResults)
      && (o.stop == Unfinished ==> o.used == |rounds| && Tracks(h0, rounds, o.used, o.final))
      && (o.stop == DomFault ==> o.used > i && (rounds[o.used - 1].HeightFault? || rounds[o.used - 1].anchors.None?))
      && (forall j :: i < j < o.used ==> WentOn(h0, rounds, maxResults, j))
    decreases |rounds| - i
  {
    var o := Loop(rounds, maxResults, i, st);
    if !(st.loaded < maxResults && st.attempts < MaxScrollAttempts) {
    } else if i == |rounds| {
    } else {
      match rounds[i]
      case HeightFault =>
      case Observed(h, anchors, _) =>
        var attempts := if h == st.lastHeight then st.attempts + 1 else 0;
        assert ObservedUpTo(rounds, i + 1);
        assert Repeats(h0, rounds, i + 1) == attempts;
        if h == st.lastHeight && attempts >= StagnationLimit {
        } else {
          match anchors
          case None =>
          case Some(n) =>
            var next := ScrollState(h, attempts, n);
            assert Tracks(h0, rounds, i + 1, next);
            LoopFacts(h0, rounds, maxResults, i + 1, next);
            if o.used > i + 1 {
              assert WentOn(h0, rounds, maxResults, i + 1);
            }
      }
    }
  }

  /** Every one of the first `used` rounds answered without raising: it read a height
      and an anchor count, except that a stop for stagnation breaks out of the last
      round before the anchors are counted. */
  predicate AnsweredAll(rounds: seq<Round>, used: nat, stop: Stop)
    requires used <= |rounds|
  {
    forall k :: 0 <= k < used ==>
      rounds[k].Observed? && (rounds[k].anchors.Some? || (stop == Stagnated && k == used - 1))
  }

  /** The run as a whole:
      - False is returned exactly for a missing feed or a browser call that raised:
        once the feed is found and the run has stopped, it returns True exactly when
        every round it consumed answered;
      - the `< max_scroll_attempts` guard never ends the loop, since the counter is
        reset on every change of height and ends the loop at three;
      - the stop for stagnation comes exactly with a streak of three unchanged heights;
      - every earlier loop head had fewer than `maxResults` anchors and a shorter streak. */
  lemma LoadFeedFacts(initialHeight: Option<int>, rounds: seq<Round>, maxResults: int)
    ensures var o := LoadFeed(initialHeight, rounds, maxResults);
      && o.used <= |rounds|
      && o.stop != RoundCap
      && (o.stop == FeedMissing <==> initialHeight.None?)
      && (o.stop == DomFault ==> o.used > 0 && (rounds[o.used - 1].HeightFault? || rounds[o.used - 1].anchors.None?))
      && (o.stop == TargetReached ==> o.final.loaded >= maxResults)
      && (initialHeight.Some? ==>
            && (o.stop != Unfinished ==> (ReturnsTrue(o.stop) <==> AnsweredAll(rounds, o.used, o.stop)))
            && (o.stop == Stagnated <==>
                  ObservedUpTo(rounds, o.used) && Repeats(initialHeight.value, rounds, o.used) == StagnationLimit)
            && forall j :: 0 < j < o.used ==> WentOn(initialHeight.value, rounds, maxResults, j))
  {
    if initialHeight.Some? {
      var h0 := initialHeight.value;
      var start := ScrollState(h0, 0, 0);
      assert Tracks(h0, rounds, 0, start);
      LoopFacts(h0, rounds, maxResults, 0, start);
      var o := LoadFeed(initialHeight, rounds, maxResults);
      if o.stop == Stagnated {
        forall k | 0 <= k < o.used - 1 ensures rounds[k].anchors.Some? {
          assert WentOn(h0, rounds, maxResults, k + 1);
        }
      }
    }
  }

  /** A normal exit returns True even when fewer results than requested were loaded:
      a feed that never grows stops after three rounds with five of fifty anchors. */
  lemma PartialLoadStillSucceeds()
    ensures var rounds := [Observed(900, Some(5), NoButton), Observed(900, Some(5), ClickFails),
                           Observed(900, Some(5), Clicked)];
      var o := LoadFeed(Some(900), rounds, 50);
      o.stop == Stagnated && ReturnsTrue(o.stop) && o.final.loaded == 5 && o.used == 3
  {
  }

  /** A feed whose height does not change in its first three rounds stops within those
      three rounds, for stagnation or because the target was reached. */
  lemma FlatFeedStops(h0: int, rounds: seq<Round>, maxResults: int)
    requires |rounds| >= 3
    requires forall k :: 0 <= k < 3 ==> rounds[k].Observed? && rounds[k].height == h0 && rounds[k].anchors.Some?
    ensures var o := LoadFeed(Some(h0), rounds, maxResults);
      o.used <= 3 && (o.stop == Stagnated || o.stop == TargetReached)
  {
    var s0 := ScrollState(h0, 0, 0);
    var s1 := ScrollState(h0, 1, rounds[0].anchors.value);
    var s2 := ScrollState(h0, 2, rounds[1].anchors.value);
    if s0.loaded < maxResults {
      assert Loop(rounds, maxResults, 0, s0) == Loop(rounds, maxResults, 1, s1);
      if s1.loaded < maxResults {
        assert Loop(rounds, maxResults, 1, s1) == Loop(rounds, maxResults, 2, s2);
      }
    }
  }

  /** Every round reads a height different from the one before it (the initial
      height before round 0) and an anchor count below the target. */
  predicate KeepsGrowing(h0: int, rounds: seq<Round>, maxResults: int) {
    && ObservedUpTo(rounds, |rounds|)
    && (forall k :: 0 <= k < |rounds| ==> rounds[k].anchors.Some? && rounds[k].anchors.value < maxResults)
    && (forall k :: 0 <= k < |rounds| ==> rounds[k].height != HeightBefore(h0, rounds, k))
  }

  /** From a loop head with a zero counter and fewer anchors than the target, a feed
      that keeps growing below the target is scrolled through every round given,
      and the loop is still running after the last. */
  lemma {:induction false} GrowingLoop(h0: int, rounds: seq<Round>, maxResults: int, i: nat, st: ScrollState)
    requires i <= |rounds| && KeepsGrowing(h0, rounds, maxResults)
    requires st.attempts == 0 && st.loaded < maxResults
    requires st.lastHeight == HeightBefore(h0, rounds, i)
    ensures var o := Loop(rounds, maxResults, i, st);
      o.stop == Unfinished && o.used == |rounds| && o.final.attempts == 0
    decreases |rounds| - i
  {
    if i < |rounds| {
      var r := rounds[i];
      assert r.height != HeightBefore(h0, rounds, i);
      GrowingLoop(h0, rounds, maxResults, i + 1, ScrollState(r.height, 0, r.anchors.value));
    }
  }

  /** A feed that keeps growing below the target is never stopped: however many
      rounds are given, the run consumes them all and is still going. */
  lemma GrowingFeedUnfinished(h0: int, rounds: seq<Round>, maxResults: int)
    requires 0 < maxResults && KeepsGrowing(h0, rounds, maxResults)
    ensures var o := LoadFeed(Some(h0), rounds, maxResults);
      o.stop == Unfinished && o.used == |rounds|
  {
    GrowingLoop(h0, rounds, maxResults, 0, ScrollState(h0, 0, 0));
  }

  /** A feed that grows by one pixel every round. */
  function Growing(h0: int, n: nat): (rounds: seq<Round>)
    ensures |rounds| == n
  {
    seq(n, k => Observed(h0 + k + 1, Some(0), NoButton))
  }

  /** No bound on the number of rounds: for every n there is a feed still scrolling
      after n rounds. */
  lemma GrowingFeedNeverStops(h0: int, n: nat, maxResults: int)
    requires 0 < maxResults
    ensures LoadFeed(Some(h0), Growing(h0, n), maxResults).stop == Unfinished
    ensures LoadFeed(Some(h0), Growing(h0, n), maxResults).used == n
  {
    GrowingFeedUnfinished(h0, Growing(h0, n), maxResults);
  }

  /** A round with whatever the button did replaced by "no button". */
  function WithoutButton(r: Round): Round {
    match r
    case HeightFault => HeightFault
    case Observed(h, anchors, _) => Observed(h, anchors, NoButton)
  }

  /** Two answer sequences that differ at most in what the "Show more" button did. */
  predicate SameReads(a: seq<Round>, b: seq<Round>) {
    |a| == |b| && forall k :: 0 <= k < |a| ==> WithoutButton(a[k]) == WithoutButton(b[k])
  }

  /** A missing, failing or working "Show more" button leaves the loop state alone:
      the run depends only on the heights and anchor counts read. */
  lemma {:induction false} ButtonIrrelevant(a: seq<Round>, b: seq<Round>, maxResults: int, i: nat, st: ScrollState)
    requires SameReads(a, b) && i <= |a|
    ensures Loop(a, maxResults, i, st) == Loop(b, maxResults, i, st)
    decreases |a| - i
  {
    if st.loaded < maxResults && st.attempts < MaxScrollAttempts && i < |a| {
      assert WithoutButton(a[i]) == WithoutButton(b[i]);
      match a[i]
      case HeightFault =>
      case Observed(h, anchors, _) =>
        var attempts := if h == st.lastHeight then st.attempts + 1 else 0;
        if !(h == st.lastHeight && attempts >= StagnationLimit) && anchors.Some? {
          ButtonIrrelevant(a, b, maxResults, i + 1, ScrollState(h, attempts, anchors.value));
        }
    }
  }
}
