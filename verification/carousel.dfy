/** The testimonial carousel: the index of the slide on show, the
    autoplay flag, the three controls and the autoplay interval. Timers
    become events: `IntervalFired` is one firing of the 5-second interval,
    `ResumeFired` the 10-second timeout a control schedules. */
module Carousel {
  /** The number of testimonials on the page. */
  const Slides := 8

  datatype State = State(index: int, autoplay: bool)

  /** The state on first render. */
  const Initial := State(0, true)

  /** The index after `i` on a ring of `n` slides: the last slide wraps to
      the first. */
  function Following(n: nat, i: int): int {
    if i == n - 1 then 0 else i + 1
  }

  /** The index before `i`: the first slide wraps to the last. */
  function Preceding(n: nat, i: int): int {
    if i == 0 then n - 1 else i - 1
  }

  /** On an index in range, `Following` is the step (i + 1) mod n and stays
      in range. */
  lemma FollowingMod(n: nat, i: int)
    requires 0 <= i < n
    ensures Following(n, i) == (i + 1) % n
    ensures 0 <= Following(n, i) < n
  {
    if i == n - 1 {
      assert (i + 1) % n == n % n == 0;
    } else {
      assert 0 <= i + 1 < n;
    }
  }

  /** On an index in range, `Preceding` is the step (i + n - 1) mod n and
      stays in range. */
  lemma PrecedingMod(n: nat, i: int)
    requires 0 <= i < n
    ensures Preceding(n, i) == (i + n - 1) % n
    ensures 0 <= Preceding(n, i) < n
  {
    if i == 0 {
      assert 0 <= i + n - 1 < n;
    } else {
      assert n <= i + n - 1 < 2 * n;
    }
  }

  /** Forward and back undo each other on indices in range. */
  lemma FollowingPreceding(n: nat, i: int)
    requires 0 <= i < n
    ensures Following(n, Preceding(n, i)) == i
    ensures Preceding(n, Following(n, i)) == i
  {
  }

  /** The `goToNext` control: one slide forward, autoplay paused. */
  function GoToNext(n: nat, s: State): (r: State)
    ensures !r.autoplay
    ensures 0 <= s.index < n ==> 0 <= r.index < n && r.index == (s.index + 1) % n
  {
    State(Following(n, s.index), false)
  }

  /** The `goToPrevious` control: one slide back, autoplay paused. */
  function GoToPrevious(n: nat, s: State): (r: State)
    ensures !r.autoplay
    ensures 0 <= s.index < n ==> 0 <= r.index < n && r.index == (s.index + n - 1) % n
  {
    State(Preceding(n, s.index), false)
  }

  /** A dot: shows slide `k` and pauses autoplay, whatever was on show. */
  function GoToSlide(s: State, k: int): (r: State)
    ensures r.index == k && !r.autoplay
  {
    State(k, false)
  }

  /** One firing of the autoplay interval. While autoplay is off the effect
      installs no interval, so nothing happens. */
  function Tick(n: nat, s: State): (r: State)
    ensures r.autoplay == s.autoplay
    ensures !s.autoplay ==> r == s
    ensures s.autoplay && 0 <= s.index < n ==> r.index == (s.index + 1) % n
  {
    if s.autoplay then State(Following(n, s.index), true) else s
  }

  /** `k` firings of the interval. */
  function Ticks(n: nat, s: State, k: nat): State {
    if k == 0 then s else Tick(n, Ticks(n, s, k - 1))
  }

  /** While autoplay runs, `k` ticks move the index `k` slides forward,
      wrapping past the last slide as often as needed; while it is off
      they change nothing. */
  lemma {:induction false} TicksAdvance(n: nat, s: State, k: nat)
    requires 0 <= s.index < n
    ensures s.autoplay ==> Ticks(n, s, k) == State((s.index + k) % n, true)
    ensures !s.autoplay ==> Ticks(n, s, k) == s
  {
    if k > 0 {
      TicksAdvance(n, s, k - 1);
      if s.autoplay {
        ModSuccessor(s.index + k - 1, n);
      }
    }
  }

  /** A positive multiple of `n` is at least `n`. */
  lemma {:induction false} MulAtLeast(n: nat, d: int)
    requires d >= 1
    ensures n * d >= n
    decreases d
  {
    if d > 1 {
      MulAtLeast(n, d - 1);
      assert n * d == n * (d - 1) + n;
    }
  }

  /** The remainder is the one `r` below `n` with `a == n * q + r`. */
  lemma ModUnique(a: int, n: nat, q: int, r: int)
    requires n > 0 && 0 <= r < n && a == n * q + r
    ensures a % n == r
  {
    var q0, r0 := a / n, a % n;
    assert a == n * q0 + r0;
    if q0 < q {
      assert n * q - n * q0 == n * (q - q0);
      MulAtLeast(n, q - q0);
    } else if q < q0 {
      assert n * q0 - n * q == n * (q0 - q);
      MulAtLeast(n, q0 - q);
    }
  }

  /** Adding one full round leaves the remainder as it was. */
  lemma ModShift(x: nat, n: nat)
    requires n > 0
    ensures (x + n) % n == x % n
  {
    var q, r := x / n, x % n;
    assert x == n * q + r;
    assert n * (q + 1) == n * q + n;
    ModUnique(x + n, n, q + 1, r);
  }

  /** Stepping one slide on from the wrapped index is wrapping the next
      index. */
  lemma {:induction false} ModSuccessor(a: nat, n: nat)
    requires n > 0
    ensures (a % n + 1) % n == (a + 1) % n
    decreases a
  {
    if a < n {
      ModUnique(a, n, 0, a);
      if a + 1 < n {
        ModUnique(a + 1, n, 0, a + 1);
      } else {
        ModUnique(a + 1, n, 1, 0);
      }
    } else {
      ModSuccessor(a - n, n);
      ModShift(a - n, n);
      ModShift(a + 1 - n, n);
    }
  }

  /** A full round of `n` ticks brings autoplay back to the slide it
      started from. */
  lemma FullRound(n: nat, s: State)
    requires 0 <= s.index < n
    ensures Ticks(n, s, n) == s
  {
    TicksAdvance(n, s, n);
    ModShift(s.index, n);
    ModUnique(s.index, n, 0, s.index);
  }

  // ---------------------------------------------------------------------
  // The carousel as a whole.

  datatype Event =
    | NextClicked
    | PreviousClicked
    | DotClicked(dot: int)
    | IntervalFired
    | ResumeFired

  /** The state after one event. */
  function Step(n: nat, s: State, e: Event): State {
    match e
    case NextClicked => GoToNext(n, s)
    case PreviousClicked => GoToPrevious(n, s)
    case DotClicked(k) => GoToSlide(s, k)
    case IntervalFired => Tick(n, s)
    case ResumeFired => State(s.index, true)
  }

  /** The dots are numbered `0 .. n - 1`. */
  predicate DotsInRange(n: nat, events: seq<Event>) {
    forall i :: 0 <= i < |events| && events[i].DotClicked? ==> 0 <= events[i].dot < n
  }

  /** The states the carousel passes through, from `s` on. */
  function Run(n: nat, s: State, events: seq<Event>): State
    decreases |events|
  {
    if events == [] then s else Run(n, Step(n, s, events[0]), events[1..])
  }

  /** Whatever the user clicks and the timers do, the slide on show is one
      of the `n` testimonials. */
  lemma {:induction false} RunInRange(n: nat, s: State, events: seq<Event>)
    requires 0 <= s.index < n
    requires DotsInRange(n, events)
    ensures 0 <= Run(n, s, events).index < n
    decreases |events|
  {
    if events != [] {
      if events[0].DotClicked? {
        assert 0 <= events[0].dot < n;
      }
      assert DotsInRange(n, events[1..]) by {
        forall i | 0 <= i < |events[1..]| && events[1..][i].DotClicked?
          ensures 0 <= events[1..][i].dot < n
        {
          assert events[1..][i] == events[i + 1];
        }
      }
      RunInRange(n, Step(n, s, events[0]), events[1..]);
    }
  }

  /** From the first render on, the page shows one of its eight
      testimonials. */
  lemma PageInRange(events: seq<Event>)
    requires DotsInRange(Slides, events)
    ensures 0 <= Run(Slides, Initial, events).index < Slides
  {
    RunInRange(Slides, Initial, events);
  }

  /** A control click pauses autoplay until the resume timer fires: the
      interval then leaves the carousel where it is. */
  lemma PausedAfterControl(n: nat, s: State, e: Event, k: nat)
    requires e.NextClicked? || e.PreviousClicked? || e.DotClicked?
    requires 0 <= s.index < n
    ensures Ticks(n, Step(n, s, e), k) == Step(n, s, e)
  {
    var t := Step(n, s, e);
    assert !t.autoplay;
    if 0 <= t.index < n {
      TicksAdvance(n, t, k);
    } else {
      PausedTicks(n, t, k);
    }
  }

  /** Ticks change nothing while autoplay is off, wherever the index is. */
  lemma {:induction false} PausedTicks(n: nat, s: State, k: nat)
    requires !s.autoplay
    ensures Ticks(n, s, k) == s
  {
    if k > 0 {
      PausedTicks(n, s, k - 1);
    }
  }
}
