/**
 The token-bucket rate limiter (backend/src/http/rate_limiter.cpp).

 Time and tokens are reals.  A check is given the clock reading it took before it reached the
 lock, so nothing is assumed about the order of the readings unless a lemma says `Ordered`.
 */
module RateLimiting {
  import opened Wrappers

  type Rate = r: real | r > 0.0 witness 1.0

  datatype Config = Config(capacity: nat, refillPerSec: Rate)

  datatype Bucket = Bucket(tokens: real, last: real)

  datatype Decision = Decision(allowed: bool, remaining: real, retryAfter: int)

  function Min(a: real, b: real): real { if b < a then b else a }

  function Ceil(x: real): int { -((-x).Floor) }

  // Tokens earned over a span of time, before the cap.
  function Earned(c: Config, span: real): real { span * c.refillPerSec }

  lemma EarnedAdds(c: Config, a: real, b: real)
    ensures Earned(c, a + b) == Earned(c, a) + Earned(c, b)
  {
  }

  lemma NothingEarned(c: Config, span: real)
    requires span == 0.0
    ensures Earned(c, span) == 0.0
  {
  }

  lemma EarnedMonotone(c: Config, a: real, b: real)
    requires a <= b
    ensures Earned(c, a) <= Earned(c, b)
  {
    EarnedAdds(c, a, b - a);
  }

  // ---- One check of one bucket ----

  // Tokens on hand when the decision is taken: a missing bucket starts full.
  function Available(c: Config, b: Option<Bucket>, now: real): real {
    match b
    case None => c.capacity as real
    case Some(k) =>
      if now - k.last > 0.0
      then Min(c.capacity as real, k.tokens + Earned(c, now - k.last))
      else k.tokens
  }

  function After(c: Config, b: Option<Bucket>, now: real): Bucket {
    var tokens := Available(c, b, now);
    Bucket(if tokens >= 1.0 then tokens - 1.0 else tokens, now)
  }

  function Decide(c: Config, b: Option<Bucket>, now: real): (d: Decision)
    ensures d.remaining == After(c, b, now).tokens && (d.allowed ==> d.retryAfter == 0)
  {
    var tokens := Available(c, b, now);
    if tokens >= 1.0 then
      Decision(true, tokens - 1.0, 0)
    else
      var wait := Ceil((1.0 - tokens) / c.refillPerSec);
      Decision(false, tokens, if wait < 1 then 1 else wait)
  }

  // The bucket left by one key's checks at the given readings, starting from no bucket.
  function Replay(c: Config, ts: seq<real>): Option<Bucket> {
    if ts == [] then None else Some(After(c, Replay(c, ts[..|ts| - 1]), ts[|ts| - 1]))
  }

  ghost predicate InBounds(c: Config, b: Option<Bucket>) {
    b.Some? ==> 0.0 <= b.value.tokens <= c.capacity as real
  }

  lemma StepStaysInBounds(c: Config, b: Option<Bucket>, now: real)
    requires InBounds(c, b)
    ensures 0.0 <= Available(c, b, now) <= c.capacity as real
    ensures InBounds(c, Some(After(c, b, now)))
  {
    if b.Some? && now - b.value.last > 0.0 {
      EarnedMonotone(c, 0.0, now - b.value.last);
    }
  }

  /** Tokens never leave [0, capacity], whatever the order of the clock readings. */
  lemma {:induction false} TokensStayInBounds(c: Config, ts: seq<real>)
    ensures InBounds(c, Replay(c, ts))
  {
    if ts != [] {
      TokensStayInBounds(c, ts[..|ts| - 1]);
      StepStaysInBounds(c, Replay(c, ts[..|ts| - 1]), ts[|ts| - 1]);
    }
  }

  // ---- Decisions of one key over a history of readings ----

  predicate AllowedAt(c: Config, ts: seq<real>, n: nat)
    requires n < |ts|
  {
    Available(c, Replay(c, ts[..n]), ts[n]) >= 1.0
  }

  // How many of the checks i .. n-1 were allowed.
  function Allowed(c: Config, ts: seq<real>, i: nat, n: nat): nat
    requires n <= |ts|
  {
    if n <= i then 0 else Allowed(c, ts, i, n - 1) + if AllowedAt(c, ts, n - 1) then 1 else 0
  }

  ghost predicate Ordered(ts: seq<real>) {
    forall i, j :: 0 <= i <= j < |ts| ==> ts[i] <= ts[j]
  }

  function AvailableAt(c: Config, ts: seq<real>, n: nat): real
    requires n < |ts|
  {
    Available(c, Replay(c, ts[..n]), ts[n])
  }

  function Advance(from: real, to: real): real { if to > from then to - from else 0.0 }

  // Total forward movement of the clock from check i to check n.
  function Forward(ts: seq<real>, i: nat, n: nat): real
    requires i <= n < |ts|
  {
    if n == i then 0.0 else Forward(ts, i, n - 1) + Advance(ts[n - 1], ts[n])
  }

  lemma {:induction false} ForwardInOrder(ts: seq<real>, i: nat, n: nat)
    requires i <= n < |ts| && Ordered(ts)
    ensures Forward(ts, i, n) == ts[n] - ts[i]
  {
    if n > i {
      ForwardInOrder(ts, i, n - 1);
    }
  }

  // What is left of a full bucket after refilling for a span and spending some tokens.
  function Left(c: Config, span: real, spent: nat): real {
    c.capacity as real + span * c.refillPerSec - spent as real
  }

  lemma LeftStep(c: Config, span: real, more: real, spent: nat, spent': nat)
    ensures Left(c, span + more, spent') == Left(c, span, spent) + Earned(c, more) + spent as real - spent' as real
  {
    EarnedAdds(c, span, more);
  }

  lemma LeftFull(c: Config, span: real)
    requires span == 0.0
    ensures Left(c, span, 0) == c.capacity as real
  {
  }

  // What is left at check n of a full bucket that started earning at check i.
  function Budget(c: Config, ts: seq<real>, i: nat, n: nat): real
    requires i <= n < |ts|
  {
    Left(c, Forward(ts, i, n), Allowed(c, ts, i, n))
  }

  // One check's effect on what the next check finds, whichever way the clock moved.
  lemma AvailableStep(c: Config, ts: seq<real>, n: nat)
    requires 0 < n < |ts|
    ensures AvailableAt(c, ts, n)
         == Min(c.capacity as real,
                AvailableAt(c, ts, n - 1) - (if AllowedAt(c, ts, n - 1) then 1.0 else 0.0)
                + Earned(c, Advance(ts[n - 1], ts[n])))
  {
    assert ts[..n][..n - 1] == ts[..n - 1];
    TokensStayInBounds(c, ts[..n]);
    var b := Replay(c, ts[..n - 1]);
    var k := After(c, b, ts[n - 1]);
    assert Replay(c, ts[..n]) == Some(k) && k.last == ts[n - 1];
    assert k.tokens == AvailableAt(c, ts, n - 1) - (if AllowedAt(c, ts, n - 1) then 1.0 else 0.0);
    if ts[n] <= ts[n - 1] {
      NothingEarned(c, Advance(ts[n - 1], ts[n]));
    }
  }

  lemma BudgetStep(c: Config, ts: seq<real>, i: nat, n: nat)
    requires i < n < |ts|
    ensures Budget(c, ts, i, n)
         == Budget(c, ts, i, n - 1) - (if AllowedAt(c, ts, n - 1) then 1.0 else 0.0)
            + Earned(c, Advance(ts[n - 1], ts[n]))
  {
    hide Left, Earned, AllowedAt;
    LeftStep(c, Forward(ts, i, n - 1), Advance(ts[n - 1], ts[n]), Allowed(c, ts, i, n - 1), Allowed(c, ts, i, n));
  }

  /** For readings in any order the tokens on hand are the least budget over all starting checks. */
  lemma {:induction false} AvailableIsLeastBudget(c: Config, ts: seq<real>, n: nat) returns (w: nat)
    requires n < |ts|
    ensures w <= n && AvailableAt(c, ts, n) == Budget(c, ts, w, n)
    ensures forall i: nat | i <= n :: AvailableAt(c, ts, n) <= Budget(c, ts, i, n)
  {
    LeftFull(c, Forward(ts, n, n));
    assert Budget(c, ts, n, n) == c.capacity as real;
    if n == 0 {
      assert ts[..0] == [];
      w := 0;
    } else {
      hide Left, Earned, Budget, AvailableAt, AllowedAt;
      var v := AvailableIsLeastBudget(c, ts, n - 1);
      AvailableStep(c, ts, n);
      forall i: nat | i < n
        ensures Budget(c, ts, i, n)
             == Budget(c, ts, i, n - 1) - (if AllowedAt(c, ts, n - 1) then 1.0 else 0.0)
                + Earned(c, Advance(ts[n - 1], ts[n]))
      {
        BudgetStep(c, ts, i, n);
      }
      w := if AvailableAt(c, ts, n) == c.capacity as real then n else v;
    }
  }

  /** The reported remainder, with the token just granted, is that least budget. */
  lemma RemainingIsLeastBudget(c: Config, ts: seq<real>, n: nat) returns (w: nat)
    requires n < |ts|
    ensures var d := Decide(c, Replay(c, ts[..n]), ts[n]);
            var found := d.remaining + if d.allowed then 1.0 else 0.0;
            && w <= n && found == Budget(c, ts, w, n)
            && forall i: nat | i <= n :: found <= Budget(c, ts, i, n)
  {
    hide Left, Earned, Available;
    w := AvailableIsLeastBudget(c, ts, n);
  }

  // One more token can be spent: capacity and refill over the span pay for it besides those already spent.
  ghost predicate Affordable(c: Config, span: real, spent: nat) {
    spent as real + 1.0 <= c.capacity as real + span * c.refillPerSec
  }

  lemma AffordableIff(c: Config, span: real, spent: nat)
    ensures Affordable(c, span, spent) <==> Left(c, span, spent) >= 1.0
  {
  }

  // No window of checks i .. n, the one at n included, spends more than capacity and forward movement provide.
  ghost predicate WithinBudget(c: Config, ts: seq<real>, n: nat)
    requires n < |ts|
  {
    forall i: nat | i <= n :: Affordable(c, Forward(ts, i, n), Allowed(c, ts, i, n))
  }

  // The same, counting elapsed time.
  ghost predicate WithinElapsed(c: Config, ts: seq<real>, n: nat)
    requires n < |ts|
  {
    forall i: nat | i <= n :: Affordable(c, ts[n] - ts[i], Allowed(c, ts, i, n))
  }

  /** Exact conformance, for readings in any order: a check is allowed precisely when no window ending at it is over
      budget. */
  lemma Conformance(c: Config, ts: seq<real>, n: nat)
    requires n < |ts|
    ensures AllowedAt(c, ts, n) <==> WithinBudget(c, ts, n)
  {
    hide Left, Affordable, Earned, Available;
    var w := AvailableIsLeastBudget(c, ts, n);
    forall i: nat | i <= n
      ensures Affordable(c, Forward(ts, i, n), Allowed(c, ts, i, n)) <==> Budget(c, ts, i, n) >= 1.0
    {
      AffordableIff(c, Forward(ts, i, n), Allowed(c, ts, i, n));
    }
    if AllowedAt(c, ts, n) {
      forall i: nat | i <= n ensures Affordable(c, Forward(ts, i, n), Allowed(c, ts, i, n)) {
        assert 1.0 <= AvailableAt(c, ts, n) <= Budget(c, ts, i, n);
      }
    } else {
      assert Budget(c, ts, w, n) < 1.0;
    }
  }

  /** With readings in order, forward movement is elapsed time. */
  lemma ElapsedConformance(c: Config, ts: seq<real>, n: nat)
    requires n < |ts| && Ordered(ts)
    ensures AllowedAt(c, ts, n) <==> WithinElapsed(c, ts, n)
  {
    hide Affordable, Allowed, AllowedAt;
    Conformance(c, ts, n);
    forall i: nat | i <= n
      ensures Affordable(c, Forward(ts, i, n), Allowed(c, ts, i, n))
         <==> Affordable(c, ts[n] - ts[i], Allowed(c, ts, i, n))
    {
      ForwardInOrder(ts, i, n);
    }
  }

  // ---- Windows ----

  lemma AvailableInBounds(c: Config, ts: seq<real>, n: nat)
    requires n < |ts|
    ensures 0.0 <= AvailableAt(c, ts, n) <= c.capacity as real
  {
    TokensStayInBounds(c, ts[..n]);
    StepStaysInBounds(c, Replay(c, ts[..n]), ts[n]);
  }

  // A full bucket and its refill over the span pay for this many checks.
  ghost predicate Covers(c: Config, span: real, checks: nat) {
    checks as real <= c.capacity as real + span * c.refillPerSec
  }

  // The time from reading i to reading n, negative if the clock ended further back, pays for the checks i .. n.
  ghost predicate ElapsedCovers(c: Config, ts: seq<real>, i: nat, n: nat)
    requires i <= n < |ts|
  {
    Covers(c, ts[n] - ts[i], Allowed(c, ts, i, n + 1))
  }

  lemma CoversIff(c: Config, span: real, checks: nat)
    ensures Covers(c, span, checks) <==> Left(c, span, checks) >= 0.0
  {
  }

  lemma WindowBalance(c: Config, ts: seq<real>, i: nat, n: nat)
    requires i <= n < |ts|
    ensures Covers(c, Forward(ts, i, n), Allowed(c, ts, i, n + 1))
  {
    hide Left, Earned, Covers, Replay, Available, Forward;
    var w := AvailableIsLeastBudget(c, ts, n);
    AvailableInBounds(c, ts, n);
    assert AvailableAt(c, ts, n) <= Budget(c, ts, i, n);
    LeftSpent(c, Forward(ts, i, n), Allowed(c, ts, i, n), Allowed(c, ts, i, n + 1));
    CoversIff(c, Forward(ts, i, n), Allowed(c, ts, i, n + 1));
  }

  lemma LeftSpent(c: Config, span: real, spent: nat, spent': nat)
    ensures Left(c, span, spent') == Left(c, span, spent) + spent as real - spent' as real
  {
  }

  /** Window bound for threads that reach the lock in any order: the checks i .. n. */
  lemma WindowBound(c: Config, ts: seq<real>, i: nat, n: nat)
    requires i <= n < |ts|
    ensures Covers(c, Forward(ts, i, n), Allowed(c, ts, i, n + 1))
    ensures Ordered(ts) ==> ElapsedCovers(c, ts, i, n)
  {
    hide Covers;
    WindowBalance(c, ts, i, n);
    if Ordered(ts) {
      ForwardInOrder(ts, i, n);
    }
  }

  // In every window, for every configuration, elapsed time pays for the allowed checks.
  ghost predicate ElapsedBounds(ts: seq<real>) {
    forall c: Config, i: nat, n: nat | i <= n < |ts| :: ElapsedCovers(c, ts, i, n)
  }

  /** Elapsed time is a bound on every window exactly for readings in order. */
  lemma ElapsedBoundsIff(ts: seq<real>)
    ensures ElapsedBounds(ts) <==> Ordered(ts)
  {
    if Ordered(ts) {
      forall c: Config, i: nat, n: nat | i <= n < |ts| ensures ElapsedCovers(c, ts, i, n) {
        WindowBound(c, ts, i, n);
      }
    } else {
      var i: nat, n: nat :| i <= n < |ts| && ts[i] > ts[n];
      assert !ElapsedCovers(Config(0, 1.0), ts, i, n);
    }
  }

  /** A reading that steps back and forth again is refilled a second time: twice the capacity in no elapsed time. */
  lemma BackwardReadingRefillsAgain(c: Config)
    requires c == Config(1, 1.0)
    ensures var ts := [10.0, 0.0, 10.0];
            !ElapsedCovers(c, ts, 0, 2)
  {
    var ts := [10.0, 0.0, 10.0];
    assert ts[..0] == [] && ts[..1] == [10.0] && ts[..2] == [10.0, 0.0];
    assert ts[..1][..0] == [] && ts[..2][..1] == [10.0];
    assert Replay(c, ts[..1]) == Some(Bucket(0.0, 10.0));
    assert Replay(c, ts[..2]) == Some(Bucket(0.0, 0.0));
    assert AllowedAt(c, ts, 0) && AllowedAt(c, ts, 2);
    assert Allowed(c, ts, 0, 0) == 0;
    assert Allowed(c, ts, 0, 1) == 1;
  }

  // ---- Denied checks are invisible ----

  function Pick<T>(xs: seq<T>, keep: seq<bool>): seq<T>
    requires |xs| == |keep|
  {
    if xs == [] then []
    else
      var n := |xs| - 1;
      Pick(xs[..n], keep[..n]) + if keep[n] then [xs[n]] else []
  }

  function Decisions(c: Config, ts: seq<real>): (ds: seq<Decision>)
    ensures |ds| == |ts|
  {
    if ts == [] then []
    else
      var n := |ts| - 1;
      Decisions(c, ts[..n]) + [Decide(c, Replay(c, ts[..n]), ts[n])]
  }

  // Two buckets no check at or after t can tell apart.
  ghost predicate SameFuture(c: Config, a: Option<Bucket>, b: Option<Bucket>, t: real) {
    forall u: real | t <= u :: Available(c, a, u) == Available(c, b, u)
  }

  // Refilling at t and again later is refilling once later: the steps compose under the cap.
  lemma DenialKeepsFuture(c: Config, b: Option<Bucket>, t: real)
    requires InBounds(c, b) && (b.Some? ==> b.value.last <= t)
    requires Available(c, b, t) < 1.0
    ensures SameFuture(c, b, Some(After(c, b, t)), t)
  {
    var a := Some(After(c, b, t));
    forall u: real | t <= u ensures Available(c, b, u) == Available(c, a, u) {
      StepStaysInBounds(c, b, t);
      StepStaysInBounds(c, a, u);
      EarnedMonotone(c, 0.0, u - t);
      if b.Some? {
        EarnedAdds(c, t - b.value.last, u - t);
        assert t - b.value.last + (u - t) == u - b.value.last;
      }
    }
  }

  // What one more reading does to a history and to its kept part.
  lemma InvisibleStep(c: Config, a: Option<Bucket>, b: Option<Bucket>, now: real, t: real, kept: bool)
    requires SameFuture(c, a, b, now) && now <= t
    requires InBounds(c, a) && (a.Some? ==> a.value.last <= now)
    requires Available(c, a, now) >= 1.0 ==> kept
    ensures Decide(c, a, now) == Decide(c, b, now)
    ensures SameFuture(c, Some(After(c, a, now)), if kept then Some(After(c, b, now)) else b, t)
  {
    assert Available(c, a, now) == Available(c, b, now);
    if !kept {
      DenialKeepsFuture(c, a, now);
      var a' := Some(After(c, a, now));
      forall u: real | t <= u ensures Available(c, a', u) == Available(c, b, u) {
        assert Available(c, a, u) == Available(c, b, u);
      }
    }
  }

  lemma PickSnoc<T>(xs: seq<T>, keep: seq<bool>, x: T, k: bool)
    requires |xs| == |keep|
    ensures Pick(xs + [x], keep + [k]) == if k then Pick(xs, keep) + [x] else Pick(xs, keep)
  {
    assert (xs + [x])[..|xs|] == xs && (keep + [k])[..|xs|] == keep;
  }

  lemma DecisionsSnoc(c: Config, ts: seq<real>, now: real)
    ensures Decisions(c, ts + [now]) == Decisions(c, ts) + [Decide(c, Replay(c, ts), now)]
    ensures Replay(c, ts + [now]) == Some(After(c, Replay(c, ts), now))
  {
    assert (ts + [now])[..|ts|] == ts;
  }

  // A history and its kept part have taken the same decisions, and no later check tells them apart.
  ghost predicate Agree(c: Config, ts: seq<real>, keep: seq<bool>, t: real)
    requires |ts| == |keep|
  {
    && Decisions(c, Pick(ts, keep)) == Pick(Decisions(c, ts), keep)
    && SameFuture(c, Replay(c, ts), Replay(c, Pick(ts, keep)), t)
  }

  lemma AgreeStep(c: Config, ts: seq<real>, keep: seq<bool>, now: real, t: real, kept: bool)
    requires |ts| == |keep| && Agree(c, ts, keep, now) && now <= t
    requires var b := Replay(c, ts); b.Some? ==> b.value.last <= now
    requires Available(c, Replay(c, ts), now) >= 1.0 ==> kept
    ensures Agree(c, ts + [now], keep + [kept], t)
  {
    TokensStayInBounds(c, ts);
    InvisibleStep(c, Replay(c, ts), Replay(c, Pick(ts, keep)), now, t, kept);
    PickSnoc(ts, keep, now, kept);
    DecisionsSnoc(c, ts, now);
    DecisionsSnoc(c, Pick(ts, keep), now);
    PickSnoc(Decisions(c, ts), keep, Decide(c, Replay(c, ts), now), kept);
    var both := Pick(ts + [now], keep + [kept]);
    assert Decisions(c, both) == Pick(Decisions(c, ts + [now]), keep + [kept]);
    assert Replay(c, both)
        == if kept then Some(After(c, Replay(c, Pick(ts, keep)), now)) else Replay(c, Pick(ts, keep));
  }

  lemma LastReading(c: Config, ts: seq<real>, n: nat, now: real)
    requires n <= |ts| && (n > 0 ==> ts[n - 1] <= now)
    ensures var b := Replay(c, ts[..n]); b.Some? ==> b.value.last <= now
  {
  }

  lemma TakeSnoc<T>(xs: seq<T>, n: nat)
    requires n < |xs|
    ensures xs[..n + 1] == xs[..n] + [xs[n]]
  {
  }

  lemma {:induction false} AgreeUpTo(c: Config, ts: seq<real>, keep: seq<bool>, n: nat, t: real)
    requires |keep| == |ts| && n <= |ts| && (n > 0 ==> ts[n - 1] <= t)
    requires Ordered(ts)
    requires forall i | 0 <= i < |ts| :: AllowedAt(c, ts, i) ==> keep[i]
    ensures Agree(c, ts[..n], keep[..n], t)
  {
    if n > 0 {
      var m := n - 1;
      AgreeUpTo(c, ts, keep, m, ts[m]);
      LastReading(c, ts, m, ts[m]);
      assert AllowedAt(c, ts, m) ==> keep[m];
      AgreeStep(c, ts[..m], keep[..m], ts[m], t, keep[m]);
      TakeSnoc(ts, m);
      TakeSnoc(keep, m);
    }
  }

  // Whatever is left out of the history was denied.
  ghost predicate KeepsAllowed(c: Config, ts: seq<real>, keep: seq<bool>)
    requires |keep| == |ts|
  {
    forall i | 0 <= i < |ts| :: AllowedAt(c, ts, i) ==> keep[i]
  }

  // No check from the last reading on is decided differently after the two histories.
  ghost predicate SameAfterwards(c: Config, ts: seq<real>, us: seq<real>) {
    forall now: real | ts != [] && ts[|ts| - 1] <= now :: Decide(c, Replay(c, us), now) == Decide(c, Replay(c, ts), now)
  }

  /** Dropping any set of denied checks from an ordered history changes no other decision, past or future. */
  lemma DeniedChecksAreInvisible(c: Config, ts: seq<real>, keep: seq<bool>)
    requires |keep| == |ts| && Ordered(ts) && KeepsAllowed(c, ts, keep)
    ensures Decisions(c, Pick(ts, keep)) == Pick(Decisions(c, ts), keep)
    ensures SameAfterwards(c, ts, Pick(ts, keep))
  {
    assert ts[..|ts|] == ts && keep[..|ts|] == keep;
    AgreeUpTo(c, ts, keep, |ts|, if ts == [] then 0.0 else ts[|ts| - 1]);
  }

  // ---- Retry-after ----

  lemma CeilIsLeast(x: real, s: int)
    ensures s >= Ceil(x) <==> s as real >= x
  {
    var f := (-x).Floor;
    assert f as real <= -x < f as real + 1.0;
    if s >= -f {
      assert s as real >= (-f) as real;
    } else {
      assert s as real <= (-f - 1) as real;
    }
  }

  lemma QuotientBound(d: real, r: Rate, s: real)
    ensures s >= d / r <==> s * r >= d
  {
    var q := d / r;
    assert q * r == d;
    if s >= q {
      assert (s - q) * r >= 0.0;
    } else {
      assert (q - s) * r > 0.0;
    }
  }

  /** The advertised wait is the least whole number of seconds, at least one, that lets the next check through; with
      capacity 0, and only then, no wait does. */
  lemma RetryAfterIsLeast(c: Config, b: Option<Bucket>, now: real, s: int)
    requires s >= 1
    ensures !Decide(c, b, now).allowed ==>
              && Decide(c, b, now).retryAfter >= 1
              && (c.capacity >= 1 && s >= Decide(c, b, now).retryAfter <==>
                    Decide(c, Some(After(c, b, now)), now + s as real).allowed)
  {
    var tokens := Available(c, b, now);
    CeilIsLeast((1.0 - tokens) / c.refillPerSec, s);
    QuotientBound(1.0 - tokens, c.refillPerSec, s as real);
    assert (now + s as real) - now == s as real;
  }

  /** It is the least whole number of seconds, at least one, whose refill brings what remains up to a whole token. */
  lemma RetryAfterRefills(c: Config, b: Option<Bucket>, now: real, s: int)
    requires s >= 1
    ensures var d := Decide(c, b, now);
            !d.allowed ==> (s >= d.retryAfter <==> d.remaining + s as real * c.refillPerSec >= 1.0)
  {
    var tokens := Available(c, b, now);
    hide Available;
    CeilIsLeast((1.0 - tokens) / c.refillPerSec, s);
    QuotientBound(1.0 - tokens, c.refillPerSec, s as real);
  }

  /** With capacity 0 the advertised wait is never kept: no check is ever allowed. */
  lemma ZeroCapacityNeverAllows(c: Config, ts: seq<real>, n: nat)
    requires c.capacity == 0 && n < |ts|
    ensures !AllowedAt(c, ts, n)
  {
    TokensStayInBounds(c, ts[..n]);
    StepStaysInBounds(c, Replay(c, ts[..n]), ts[n]);
  }

  // ---- Many keys, with resets ----

  datatype Request = Check(key: string, now: real) | Reset

  type Buckets = map<string, Bucket>

  function Find(m: Buckets, key: string): Option<Bucket> {
    if key in m then Some(m[key]) else None
  }

  function Step(c: Config, m: Buckets, r: Request): Buckets {
    match r
    case Check(key, now) => m[key := After(c, Find(m, key), now)]
    case Reset => map[]
  }

  function Run(c: Config, h: seq<Request>): Buckets {
    if h == [] then map[] else Step(c, Run(c, h[..|h| - 1]), h[|h| - 1])
  }

  // The readings of one key's checks after the last reset.
  function SinceReset(h: seq<Request>, key: string): seq<real> {
    if h == [] then []
    else
      var before := SinceReset(h[..|h| - 1], key);
      match h[|h| - 1]
      case Check(k, now) => if k == key then before + [now] else before
      case Reset => []
  }

  /** Keys do not interfere: a key's bucket is a function of its own checks since the last reset. */
  lemma {:induction false} KeysAreIndependent(c: Config, h: seq<Request>, key: string)
    ensures Find(Run(c, h), key) == Replay(c, SinceReset(h, key))
  {
    if h != [] {
      var front := h[..|h| - 1];
      KeysAreIndependent(c, front, key);
      match h[|h| - 1]
      case Check(k, now) =>
        assert (SinceReset(front, key) + [now])[..|SinceReset(front, key)|] == SinceReset(front, key);
      case Reset =>
    }
  }

  /** The decision on the next check, for any interleaving of keys and resets and any order of readings before it. */
  lemma ExactConformance(c: Config, h: seq<Request>, key: string, now: real)
    ensures var ts := SinceReset(h, key) + [now];
            var allowed := Decide(c, Find(Run(c, h), key), now).allowed;
            && (allowed <==> WithinBudget(c, ts, |ts| - 1))
            && (Ordered(ts) ==> (allowed <==> WithinElapsed(c, ts, |ts| - 1)))
  {
    var ts := SinceReset(h, key) + [now];
    KeysAreIndependent(c, h, key);
    assert ts[..|ts| - 1] == SinceReset(h, key);
    Conformance(c, ts, |ts| - 1);
    if Ordered(ts) {
      ElapsedConformance(c, ts, |ts| - 1);
    }
  }

  // ---- The limiter object ----

  class RateLimiter {
    const config: Config
    var buckets: Buckets

    constructor (config: Config)
      ensures this.config == config && buckets == map[]
    {
      this.config := config;
      buckets := map[];
    }

    method Check(key: string, now: real) returns (d: Decision)
      modifies this
      ensures buckets == Step(config, old(buckets), Request.Check(key, now))
      ensures d == Decide(config, Find(old(buckets), key), now)
    {
      if key !in buckets {
        buckets := buckets[key := Bucket(config.capacity as real, now)];
      }
      var bucket := buckets[key];
      var elapsed := now - bucket.last;
      if elapsed > 0.0 {
        bucket := bucket.(tokens := Min(config.capacity as real, bucket.tokens + Earned(config, elapsed)));
      }
      bucket := bucket.(last := now);
      if bucket.tokens >= 1.0 {
        bucket := bucket.(tokens := bucket.tokens - 1.0);
        buckets := buckets[key := bucket];
        assert bucket == After(config, Find(old(buckets), key), now);
        return Decision(true, bucket.tokens, 0);
      }
      buckets := buckets[key := bucket];
      assert bucket == After(config, Find(old(buckets), key), now);
      var deficit := 1.0 - bucket.tokens;
      var wait := Ceil(deficit / config.refillPerSec);
      return Decision(false, bucket.tokens, if wait > 1 then wait else 1);
    }

    method Reset()
      modifies this
      ensures buckets == Step(config, old(buckets), Request.Reset)
    {
      buckets := map[];
    }
  }
}
