/** Waiting for the user to press the button: a debounced press, after a debounced release if it was held. */
module Press {
  import opened CtapCommand

  const SAMPLE_MS: int := 10
  const DEBOUNCE_MS: int := 40
  const TIMEOUT_MS: int := 30000
  const KEEPALIVE_MS: int := 100
  const SAMPLES: int := 3000

  const HID_OK: int := 0
  const HID_RATE: int := -7

  /**
    What the wait observes: whether the button works and was held on entry; at the n-th sample whether it is
    pressed, whether the transaction is cancelled before it, what sending a keepalive yields, and whether the
    transaction is cancelled after that.
  */
  datatype Surroundings = Surroundings(
    ready: bool,
    held: bool,
    pressed: nat -> bool,
    cancelled: nat -> bool,
    keepalive: nat -> int,
    cancelledSince: nat -> bool
  )

  // ---- what the wait is for

  /** Four samples in a row, the last of which is `n`, found the button this way. */
  predicate Steady(s: Surroundings, pressed: bool, n: nat) {
    n >= 3 && s.pressed(n - 3) == s.pressed(n - 2) == s.pressed(n - 1) == s.pressed(n) == pressed
  }

  /** The sample `n` completes a press. */
  predicate Completes(s: Surroundings, n: nat) {
    Steady(s, true, n) && (s.held ==> exists r: nat :: r + 4 <= n && Steady(s, false, r))
  }

  /** A keepalive is due every tenth sample; being sent too soon is no failure. */
  predicate KeepaliveFails(s: Surroundings, n: nat) {
    n % 10 == 0 && s.keepalive(n) != HID_OK && s.keepalive(n) != HID_RATE
  }

  /** Nothing happened at the samples before `n`. */
  predicate Quiet(s: Surroundings, n: nat) {
    forall m: nat :: m < n ==> !s.cancelled(m) && !KeepaliveFails(s, m) && !Completes(s, m)
  }

  /** Something happens at sample `n`, and this is what comes of it. */
  predicate Ends(s: Surroundings, n: nat, result: int) {
    if s.cancelled(n) then result == PRESS_CANCEL
    else if KeepaliveFails(s, n) then result == if s.cancelledSince(n) then PRESS_CANCEL else PRESS_DENIED
    else Completes(s, n) && result == if s.cancelledSince(n) then PRESS_CANCEL else PRESS_OK
  }

  /** The result of a wait: that of its first event, or that nothing happened in time. */
  predicate Yields(s: Surroundings, result: int) {
    && (!s.ready ==> result == PRESS_DENIED)
    && (s.ready && Quiet(s, SAMPLES) ==> result == PRESS_TIMEOUT)
    && (s.ready && !Quiet(s, SAMPLES) ==> exists n: nat :: n < SAMPLES && Quiet(s, n) && Ends(s, n, result))
  }

  // ---- what a result says about the user

  /** The button was found released at sample `r` and the three before it. */
  predicate WasReleased(s: Surroundings, r: nat) {
    r >= 3 && !s.pressed(r) && !s.pressed(r - 1) && !s.pressed(r - 2) && !s.pressed(r - 3)
  }

  /** It was found pressed four times in a row up to sample `n`, and before that, if held, released as often. */
  predicate WasPressed(s: Surroundings, n: nat) {
    && n >= 3 && s.pressed(n) && s.pressed(n - 1) && s.pressed(n - 2) && s.pressed(n - 3)
    && (s.held ==> exists r: nat | r <= n - 4 :: WasReleased(s, r))
  }

  lemma SteadyIsReleased(s: Surroundings, r: nat)
    ensures Steady(s, false, r) <==> WasReleased(s, r)
  {
  }

  lemma CompletedIsPressed(s: Surroundings, n: nat)
    ensures Completes(s, n) <==> WasPressed(s, n)
  {
    forall r: nat
      ensures Steady(s, false, r) <==> WasReleased(s, r)
    {
      SteadyIsReleased(s, r);
    }
    assert Steady(s, true, n) <==> n >= 3 && s.pressed(n) && s.pressed(n - 1) && s.pressed(n - 2) && s.pressed(n - 3);
    hide Steady, WasReleased;
  }

  /** Consent is never reported without a press within 30 seconds and before any cancellation. */
  lemma ConsentNeedsPress(s: Surroundings, result: int)
    requires Yields(s, result) && result == 0
    ensures exists n: nat :: n < 3000 && WasPressed(s, n) && !s.cancelledSince(n) && forall m: nat :: m <= n ==> !s.cancelled(m)
  {
    var n: nat :| n < SAMPLES && Quiet(s, n) && Ends(s, n, result);
    CompletedIsPressed(s, n);
  }

  /** While nobody cancels and keepalives get out, a working button decides alone. */
  lemma PressDecides(s: Surroundings, result: int)
    requires Yields(s, result) && s.ready
    requires forall n: nat :: !s.cancelled(n) && !s.cancelledSince(n) && s.keepalive(n) in {0, -7}
    ensures result == 0 <==> exists n: nat | n < 3000 :: WasPressed(s, n)
    ensures result in {0, -3}
  {
    forall n: nat
      ensures Completes(s, n) <==> WasPressed(s, n)
    {
      CompletedIsPressed(s, n);
    }
  }

  /** A cancellation seen before anything else happened is reported as such, and so is one that comes with a press. */
  lemma CancellationWins(s: Surroundings, result: int, n: nat)
    requires Yields(s, result) && s.ready && n < 3000 && Quiet(s, n)
    requires s.cancelled(n) || (s.cancelledSince(n) && (Completes(s, n) || KeepaliveFails(s, n)))
    ensures result == -1
  {
    hide Completes, KeepaliveFails;
    assert Ends(s, n, -1);
    var m: nat :| m < SAMPLES && Quiet(s, m) && Ends(s, m, result);
    EndsOnce(s, m, n, result, -1);
  }

  // ---- the loop

  /** The last `count` samples before `n` found the button this way, and so far back since `first` no more did. */
  predicate Stable(s: Surroundings, pressed: bool, first: nat, n: nat, count: nat) {
    && first + count <= n
    && (forall k: nat :: n - count <= k < n ==> s.pressed(k) == pressed)
    && (first + count < n ==> s.pressed(n - count - 1) != pressed)
  }

  predicate NotReleased(s: Surroundings, n: nat) {
    forall r: nat :: r < n ==> !Steady(s, false, r)
  }

  /** Waits for what counts as a press from `first` on: after a release if the button was held. */
  predicate Awaits(s: Surroundings, needRelease: bool, first: nat, n: nat) {
    if needRelease then s.held && first == 0 && NotReleased(s, n)
    else if s.held then first >= 1 && Steady(s, false, first - 1) && NotReleased(s, first - 1)
    else first == 0
  }

  lemma CountReached(s: Surroundings, pressed: bool, first: nat, n: nat, count: nat)
    requires Stable(s, pressed, first, n + 1, count)
    ensures count == 4 ==> Steady(s, pressed, n)
    ensures count < 4 && n >= first + 3 ==> !Steady(s, pressed, n)
    ensures count < 4 && first == 0 ==> !Steady(s, pressed, n)
  {
  }

  /** A sample completes a press exactly when it is the fourth pressed one since waiting for it began. */
  lemma CompletesWhen(s: Surroundings, needRelease: bool, first: nat, n: nat, count: nat)
    requires Awaits(s, needRelease, first, n) && Stable(s, !needRelease, first, n + 1, count) && count <= 4
    ensures Completes(s, n) <==> !needRelease && count == 4
    ensures needRelease ==> (Steady(s, false, n) <==> count == 4)
  {
    CountReached(s, !needRelease, first, n, count);
    if !needRelease && s.held && count == 4 {
      assert (first - 1) + 4 <= n;
    }
  }

  /** A wait that had to see a release sees none before the sample that completes it. */
  method Wait(s: Surroundings) returns (result: int)
    ensures Yields(s, result)
  {
    hide Completes, Steady, Stable, Awaits;
    if !s.ready {
      return PRESS_DENIED;
    }
    var needRelease := s.held;
    var stableMs, elapsedMs := 0, 0;
    var n: nat := 0;
    ghost var first, count: nat := 0, 0;
    Start(s);
    while elapsedMs < TIMEOUT_MS
      invariant elapsedMs == SAMPLE_MS * n && n <= SAMPLES && Quiet(s, n)
      invariant stableMs == SAMPLE_MS * count && count < 4
      invariant Awaits(s, needRelease, first, n) && Stable(s, !needRelease, first, n, count)
    {
      if s.cancelled(n) {
        result := PRESS_CANCEL;
        assert Ends(s, n, result);
        return result;
      }
      if elapsedMs % KEEPALIVE_MS == 0 {
        var error := s.keepalive(n);
        if error != HID_OK && error != HID_RATE {
          result := if s.cancelledSince(n) then PRESS_CANCEL else PRESS_DENIED;
          assert Ends(s, n, result);
          return result;
        }
      }
      var pressed := s.pressed(n);
      var wanted := if needRelease then !pressed else pressed;
      stableMs := if wanted then stableMs + SAMPLE_MS else 0;
      OneMoreSample(s, !needRelease, first, n, count);
      count := if wanted then count + 1 else 0;
      CompletesWhen(s, needRelease, first, n, count);
      if stableMs >= DEBOUNCE_MS {
        if !needRelease {
          result := if s.cancelledSince(n) then PRESS_CANCEL else PRESS_OK;
          assert Ends(s, n, result);
          return result;
        }
        ReleaseSeen(s, first, n);
        needRelease := false;
        stableMs := 0;
        first, count := n + 1, 0;
      } else {
        StillAwaits(s, needRelease, first, n);
      }
      n := n + 1;
      elapsedMs := elapsedMs + SAMPLE_MS;
    }
    result := PRESS_TIMEOUT;
  }

  lemma Start(s: Surroundings)
    ensures Awaits(s, s.held, 0, 0) && Stable(s, !s.held, 0, 0, 0)
  {
  }

  lemma OneMoreSample(s: Surroundings, pressed: bool, first: nat, n: nat, count: nat)
    requires Stable(s, pressed, first, n, count)
    ensures Stable(s, pressed, first, n + 1, if s.pressed(n) == pressed then count + 1 else 0)
  {
  }

  lemma ReleaseSeen(s: Surroundings, first: nat, n: nat)
    requires Awaits(s, true, first, n) && Steady(s, false, n)
    ensures Awaits(s, false, n + 1, n + 1) && Stable(s, true, n + 1, n + 1, 0)
  {
  }

  lemma StillAwaits(s: Surroundings, needRelease: bool, first: nat, n: nat)
    requires Awaits(s, needRelease, first, n) && (needRelease ==> !Steady(s, false, n))
    ensures Awaits(s, needRelease, first, n + 1)
  {
  }

  /** The outcome is determined, and a press is taken at the earliest sample that completes one. */
  lemma EndsOnce(s: Surroundings, m: nat, n: nat, a: int, b: int)
    requires Quiet(s, m) && Ends(s, m, a) && Quiet(s, n) && Ends(s, n, b)
    ensures m == n && a == b
  {
  }
}
