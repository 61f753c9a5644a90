/** The transport-neutral carrier counters: saturating tallies, the subscription gauge and its peak. */
module CarrierCounters {

  const MAX32: nat := 0xFFFF_FFFF

  datatype Metric =
    | PublishAttempts | PublishFailures | FramesReceived | FramesDropped | FramesOversized
    | PollErrors | SessionOpens | SessionCloses | SessionFailures | ReconnectsObserved

  datatype Counters = Counters(
    publishAttempts: nat, publishFailures: nat, framesReceived: nat, framesDropped: nat, framesOversized: nat,
    pollErrors: nat, sessionOpens: nat, sessionCloses: nat, sessionFailures: nat, reconnectsObserved: nat,
    active: nat, peak: nat)

  const CLEARED: Counters := Counters(0, 0, 0, 0, 0, 0, 0, 0, 0, 0, 0, 0)

  function Saturate(n: nat): nat {
    if n > MAX32 then MAX32 else n
  }

  /** The compare-and-swap target of one increment. */
  function SaturatingNext(current: nat, amount: nat): nat {
    if current + amount > MAX32 then MAX32 else current + amount
  }

  function Get(c: Counters, m: Metric): nat {
    match m
    case PublishAttempts => c.publishAttempts
    case PublishFailures => c.publishFailures
    case FramesReceived => c.framesReceived
    case FramesDropped => c.framesDropped
    case FramesOversized => c.framesOversized
    case PollErrors => c.pollErrors
    case SessionOpens => c.sessionOpens
    case SessionCloses => c.sessionCloses
    case SessionFailures => c.sessionFailures
    case ReconnectsObserved => c.reconnectsObserved
  }

  function Note(c: Counters, m: Metric): (r: Counters)
    ensures Get(r, m) == SaturatingNext(Get(c, m), 1)
    ensures forall n: Metric :: n != m ==> Get(r, n) == Get(c, n)
    ensures r.active == c.active && r.peak == c.peak
  {
    match m
    case PublishAttempts => c.(publishAttempts := SaturatingNext(c.publishAttempts, 1))
    case PublishFailures => c.(publishFailures := SaturatingNext(c.publishFailures, 1))
    case FramesReceived => c.(framesReceived := SaturatingNext(c.framesReceived, 1))
    case FramesDropped => c.(framesDropped := SaturatingNext(c.framesDropped, 1))
    case FramesOversized => c.(framesOversized := SaturatingNext(c.framesOversized, 1))
    case PollErrors => c.(pollErrors := SaturatingNext(c.pollErrors, 1))
    case SessionOpens => c.(sessionOpens := SaturatingNext(c.sessionOpens, 1))
    case SessionCloses => c.(sessionCloses := SaturatingNext(c.sessionCloses, 1))
    case SessionFailures => c.(sessionFailures := SaturatingNext(c.sessionFailures, 1))
    case ReconnectsObserved => c.(reconnectsObserved := SaturatingNext(c.reconnectsObserved, 1))
  }

  function SetActive(c: Counters, active: nat): (r: Counters)
    ensures r.active == active && r.peak >= active && r.peak >= c.peak
    ensures forall m :: Get(r, m) == Get(c, m)
  {
    c.(active := active, peak := if active > c.peak then active else c.peak)
  }

  /** `n` more, held at the largest 32-bit number. */
  function Plus(count: nat, n: nat): nat {
    if n == 0 then count else if count + n > 0xFFFF_FFFF then 0xFFFF_FFFF else count + n
  }

  lemma PlusOnce(count: nat, n: nat)
    ensures Plus(Plus(count, n), 1) == Plus(count, n + 1)
  {
  }

  /** Each metric names its own counter. */
  lemma NoteMeans(c: Counters, m: Metric)
    ensures Note(c, m) == match m
                          case PublishAttempts => c.(publishAttempts := Plus(c.publishAttempts, 1))
                          case PublishFailures => c.(publishFailures := Plus(c.publishFailures, 1))
                          case FramesReceived => c.(framesReceived := Plus(c.framesReceived, 1))
                          case FramesDropped => c.(framesDropped := Plus(c.framesDropped, 1))
                          case FramesOversized => c.(framesOversized := Plus(c.framesOversized, 1))
                          case PollErrors => c.(pollErrors := Plus(c.pollErrors, 1))
                          case SessionOpens => c.(sessionOpens := Plus(c.sessionOpens, 1))
                          case SessionCloses => c.(sessionCloses := Plus(c.sessionCloses, 1))
                          case SessionFailures => c.(sessionFailures := Plus(c.sessionFailures, 1))
                          case ReconnectsObserved => c.(reconnectsObserved := Plus(c.reconnectsObserved, 1))
  {
  }

  // ---- concurrent increments of one counter ----

  /** One increment in flight: not yet loaded, holding a loaded value, or finished. */
  datatype Adder = Ready(amount: nat) | Holding(amount: nat, current: nat) | Added(amount: nat)

  datatype Tally = Tally(field: nat, adders: seq<Adder>)

  function Finished(q: seq<Adder>): nat {
    if q == [] then 0 else Finished(q[..|q| - 1]) + (if q[|q| - 1].Added? then q[|q| - 1].amount else 0)
  }

  /** Thread `t` loads, or tries the exchange; a weak exchange may also fail for no reason. */
  ghost predicate AddStep(a: Tally, b: Tally) {
    exists t, spurious :: 0 <= t < |a.adders| && AddStepOf(a, b, t, spurious)
  }

  ghost predicate AddStepOf(a: Tally, b: Tally, t: nat, spurious: bool)
    requires t < |a.adders|
  {
    match a.adders[t]
    case Ready(amount) =>
      b == a.(adders := a.adders[t := if amount == 0 then Added(0) else Holding(amount, a.field)])
    case Holding(amount, current) =>
      if current == a.field && !spurious
      then b == Tally(SaturatingNext(current, amount), a.adders[t := Added(amount)])
      else b == a.(adders := a.adders[t := Holding(amount, a.field)])
    case Added(_) => false
  }

  lemma {:induction false} FinishedUpdate(q: seq<Adder>, t: nat, x: Adder)
    requires t < |q| && !q[t].Added?
    ensures Finished(q[t := x]) == Finished(q) + (if x.Added? then x.amount else 0)
  {
    var n := |q| - 1;
    if t == n {
      assert q[t := x][..n] == q[..n];
    } else {
      assert q[t := x][..n] == q[..n][t := x];
      FinishedUpdate(q[..n], t, x);
    }
  }

  lemma AddStepKeepsTotal(a: Tally, b: Tally, start: nat)
    requires AddStep(a, b) && a.field == Saturate(start + Finished(a.adders))
    ensures b.field == Saturate(start + Finished(b.adders))
  {
    var t, spurious :| 0 <= t < |a.adders| && AddStepOf(a, b, t, spurious);
    FinishedUpdate(a.adders, t, b.adders[t]);
  }

  /** No interleaving loses an increment: the counter is the saturated sum of the finished ones. */
  lemma {:induction false} AddsAreLinear(run: seq<Tally>, start: nat)
    requires |run| > 0 && start <= MAX32
    requires run[0].field == start && forall t :: 0 <= t < |run[0].adders| ==> run[0].adders[t].Ready?
    requires forall i :: 0 <= i < |run| - 1 ==> AddStep(run[i], run[i + 1])
    ensures run[|run| - 1].field == Saturate(start + Finished(run[|run| - 1].adders))
    decreases |run|
  {
    if |run| == 1 {
      NoneFinished(run[0].adders);
    } else {
      var front := run[..|run| - 1];
      forall i | 0 <= i < |front| - 1 ensures AddStep(front[i], front[i + 1]) {
        assert AddStep(run[i], run[i + 1]);
      }
      AddsAreLinear(front, start);
      var n := |run| - 2;
      assert AddStep(run[n], run[n + 1]);
      AddStepKeepsTotal(run[n], run[n + 1], start);
    }
  }

  lemma {:induction false} NoneFinished(q: seq<Adder>)
    requires forall t :: 0 <= t < |q| ==> !q[t].Added?
    ensures Finished(q) == 0
  {
    if q != [] {
      NoneFinished(q[..|q| - 1]);
    }
  }

  // ---- concurrent gauge updates ----

  datatype Setter = Waiting(value: nat) | Stored(value: nat) | Comparing(value: nat, peak: nat) | Settled(value: nat)

  datatype Gauge = Gauge(active: nat, peak: nat, setters: seq<Setter>)

  ghost predicate SetStepOf(a: Gauge, b: Gauge, t: nat, spurious: bool)
    requires t < |a.setters|
  {
    match a.setters[t]
    case Waiting(v) => b == a.(active := v, setters := a.setters[t := Stored(v)])
    case Stored(v) => b == a.(setters := a.setters[t := Comparing(v, a.peak)])
    case Comparing(v, peak) =>
      if v <= peak then b == a.(setters := a.setters[t := Settled(v)])
      else if peak == a.peak && !spurious then b == a.(peak := v, setters := a.setters[t := Settled(v)])
      else b == a.(setters := a.setters[t := Comparing(v, a.peak)])
    case Settled(_) => false
  }

  ghost predicate SetStep(a: Gauge, b: Gauge) {
    exists t, spurious :: 0 <= t < |a.setters| && SetStepOf(a, b, t, spurious)
  }

  /** The peak only rises, covers every settled update and is itself a value someone set. */
  ghost predicate PeakHolds(g: Gauge, start: nat) {
    && g.peak >= start
    && (forall t :: 0 <= t < |g.setters| && g.setters[t].Settled? ==> g.setters[t].value <= g.peak)
    && (forall t :: 0 <= t < |g.setters| && g.setters[t].Comparing? ==> g.setters[t].peak <= g.peak)
    && (g.peak == start || exists t :: 0 <= t < |g.setters| && g.setters[t].value == g.peak)
  }

  lemma SetStepKeepsPeak(a: Gauge, b: Gauge, start: nat)
    requires SetStep(a, b) && PeakHolds(a, start)
    ensures PeakHolds(b, start)
  {
    var t, spurious :| 0 <= t < |a.setters| && SetStepOf(a, b, t, spurious);
    assert forall i :: 0 <= i < |a.setters| ==> b.setters[i].value == a.setters[i].value;
    if b.peak != a.peak {
      assert b.setters[t].value == b.peak;
    } else if b.peak != start {
      var i :| 0 <= i < |a.setters| && a.setters[i].value == a.peak;
      assert b.setters[i].value == b.peak;
    }
  }

  /** Once every update has settled the peak is the largest value ever set. */
  lemma {:induction false} PeakIsMaximum(run: seq<Gauge>, start: nat)
    requires |run| > 0 && run[0].peak == start
    requires forall t :: 0 <= t < |run[0].setters| ==> run[0].setters[t].Waiting?
    requires forall i :: 0 <= i < |run| - 1 ==> SetStep(run[i], run[i + 1])
    ensures PeakHolds(run[|run| - 1], start)
    decreases |run|
  {
    if |run| > 1 {
      var front := run[..|run| - 1];
      forall i | 0 <= i < |front| - 1 ensures SetStep(front[i], front[i + 1]) {
        assert SetStep(run[i], run[i + 1]);
      }
      PeakIsMaximum(front, start);
      var n := |run| - 2;
      assert SetStep(run[n], run[n + 1]);
      SetStepKeepsPeak(run[n], run[n + 1], start);
    }
  }
}
