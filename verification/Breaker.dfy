/**
 The circuit breaker.  Permits carry the generation they were issued in, and at most one probe is current.

 Instants and durations are counted in nanoseconds.  A critical section of the breaker's
 mutex is one step; each method below is one critical section, specified by a function on
 the protected record `Inner`.
 */
module Breakers {
  import opened Common

  datatype State = Closed | HalfOpen | Open

  /** Handed to every admitted request; only a permit of the current generation counts. */
  datatype Permit = Permit(generation: nat, probe: bool)

  datatype Transition = Opened | ProbeStarted | Recovered

  datatype Admission = Admission(permit: Permit, transition: Option<Transition>)

  datatype Config = Config(failureThreshold: nat, cooldown: nat) {
    /** What configuration validation guarantees of both settings. */
    predicate Valid() {
      failureThreshold >= 1 && cooldown >= 1
    }
  }

  datatype Inner = Inner(state: State, consecutiveFailures: nat, openedAt: Option<nat>, generation: nat)

  const INITIAL := Inner(Closed, 0, None, 0)

  /** Subtraction of instants, which saturates at zero. */
  function Since(now: nat, earlier: nat): nat {
    if now >= earlier then now - earlier else 0
  }

  /** The least whole number of seconds that covers `duration`. */
  function SecondsCeil(duration: nat): (seconds: nat)
    ensures duration <= seconds * NANOS_PER_SEC
    ensures forall shorter: nat :: shorter < seconds ==> shorter * NANOS_PER_SEC < duration
  {
    duration / NANOS_PER_SEC + if duration % NANOS_PER_SEC > 0 then 1 else 0
  }

  function AdmitNext(cfg: Config, b: Inner, now: nat): (Inner, Result<Admission, nat>) {
    match b.state
    case Closed => (b, Ok(Admission(Permit(b.generation, false), None)))
    case HalfOpen => (b, Err(SecondsCeil(cfg.cooldown)))
    case Open =>
      var elapsed := if b.openedAt.Some? then Since(now, b.openedAt.value) else 0;
      if elapsed >= cfg.cooldown then
        (b.(state := HalfOpen, generation := b.generation + 1),
         Ok(Admission(Permit(b.generation + 1, true), Some(ProbeStarted))))
      else
        (b, Err(SecondsCeil(cfg.cooldown - elapsed)))
  }

  function RecordNext(cfg: Config, b: Inner, permit: Permit, failed: bool, now: nat): (Inner, Option<Transition>) {
    if permit.generation != b.generation then (b, None)
    else if permit.probe then
      if b.state != HalfOpen then (b, None)
      else if failed then
        (b.(state := Open, openedAt := Some(now), generation := b.generation + 1), Some(Opened))
      else
        (Inner(Closed, 0, None, b.generation + 1), Some(Recovered))
    else if b.state != Closed then (b, None)
    else if failed then
      var failures := b.consecutiveFailures + 1;
      if failures >= cfg.failureThreshold then
        (Inner(Open, failures, Some(now), b.generation + 1), Some(Opened))
      else
        (b.(consecutiveFailures := failures), None)
    else
      (b.(consecutiveFailures := 0), None)
  }

  function CancelNext(b: Inner, permit: Permit): Inner {
    if permit.probe && b.state == HalfOpen && permit.generation == b.generation
    then b.(state := Open, generation := b.generation + 1)
    else b
  }

  class Breaker {
    const cfg: Config
    var state: State
    var consecutiveFailures: nat
    var openedAt: Option<nat>
    var generation: nat

    ghost function View(): Inner
      reads this
    {
      Inner(state, consecutiveFailures, openedAt, generation)
    }

    constructor (cfg: Config)
      ensures this.cfg == cfg && View() == INITIAL
      ensures state == Closed && consecutiveFailures == 0 && openedAt == None && generation == 0
    {
      this.cfg := cfg;
      state, consecutiveFailures, openedAt, generation := Closed, 0, None, 0;
    }

    /** Grants a permit of the current generation, grants a new probe, or says how long to wait. */
    method Admit(now: nat) returns (r: Result<Admission, nat>)
      modifies this
      ensures (View(), r) == AdmitNext(cfg, old(View()), now)
    {
      match state {
        case Closed =>
          r := Ok(Admission(Permit(generation, false), None));
        case HalfOpen =>
          r := Err(SecondsCeil(cfg.cooldown));
        case Open =>
          var elapsed := if openedAt.Some? then Since(now, openedAt.value) else 0;
          if elapsed >= cfg.cooldown {
            state := HalfOpen;
            generation := generation + 1;
            r := Ok(Admission(Permit(generation, true), Some(ProbeStarted)));
          } else {
            r := Err(SecondsCeil(cfg.cooldown - elapsed));
          }
      }
    }

    method Record(permit: Permit, failed: bool, now: nat) returns (transition: Option<Transition>)
      modifies this
      ensures (View(), transition) == RecordNext(cfg, old(View()), permit, failed, now)
    {
      transition := None;
      if permit.generation != generation {
        return;
      }
      if permit.probe {
        if state != HalfOpen {
          return;
        }
        generation := generation + 1;
        if failed {
          state := Open;
          openedAt := Some(now);
          transition := Some(Opened);
        } else {
          state := Closed;
          consecutiveFailures := 0;
          openedAt := None;
          transition := Some(Recovered);
        }
      } else if state != Closed {
        return;
      } else if failed {
        consecutiveFailures := consecutiveFailures + 1;
        if consecutiveFailures >= cfg.failureThreshold {
          state := Open;
          openedAt := Some(now);
          generation := generation + 1;
          transition := Some(Opened);
        }
      } else {
        consecutiveFailures := 0;
      }
    }

    /** Gives a permit back without an outcome: only the current probe matters, and the breaker reopens for the next one. */
    method Cancel(permit: Permit)
      modifies this
      ensures View() == CancelNext(old(View()), permit)
    {
      if !permit.probe {
        return;
      }
      if state == HalfOpen && permit.generation == generation {
        state := Open;
        generation := generation + 1;
      }
    }
  }
}

/** Properties of every run of the breaker, over every permit it ever issued. */
module BreakerRuns {
  import opened Common
  import opened Breakers

  /** Any holder may record or cancel any permit it was issued, at any time and more than once. */
  datatype Event =
    | Admit(now: nat)
    | Record(permit: Permit, failed: bool, now: nat)
    | Cancel(permit: Permit, now: nat)

  /**
   A run's observable past: the permits issued so far, oldest first; the outcomes accepted
   since the breaker last became Closed; and the instant of its latest Opened transition.
   */
  datatype World = World(
    b: Inner, clock: nat, issued: seq<Permit>, accepted: seq<bool>, openedLast: Option<nat>)

  const START := World(INITIAL, 0, [], [], None)

  predicate Enabled(w: World, e: Event) {
    && w.clock <= e.now
    && (e.Admit? || e.permit in w.issued)
  }

  /** A non-probe outcome counts only while Closed and only for the current generation. */
  predicate Accepts(b: Inner, e: Event) {
    e.Record? && !e.permit.probe && b.state == Closed && e.permit.generation == b.generation
  }

  function Step(cfg: Config, w: World, e: Event): World {
    match e
    case Admit(now) =>
      var (b, r) := AdmitNext(cfg, w.b, now);
      w.(b := b, clock := now, issued := if r.Ok? then w.issued + [r.value.permit] else w.issued)
    case Record(permit, failed, now) =>
      var (b, t) := RecordNext(cfg, w.b, permit, failed, now);
      World(b, now, w.issued,
            if t == Some(Recovered) then [] else if Accepts(w.b, e) then w.accepted + [failed] else w.accepted,
            if t == Some(Opened) then Some(now) else w.openedLast)
    case Cancel(permit, now) =>
      w.(b := CancelNext(w.b, permit), clock := now)
  }

  function After(cfg: Config, events: seq<Event>): World {
    if events == [] then START else Step(cfg, After(cfg, events[..|events| - 1]), events[|events| - 1])
  }

  predicate Legal(cfg: Config, events: seq<Event>) {
    events == [] ||
    (Legal(cfg, events[..|events| - 1]) && Enabled(After(cfg, events[..|events| - 1]), events[|events| - 1]))
  }

  /** A run grows by one event at its end. */
  lemma OneMore(cfg: Config, events: seq<Event>, e: Event)
    ensures After(cfg, events + [e]) == Step(cfg, After(cfg, events), e)
    ensures Legal(cfg, events + [e]) <==> Legal(cfg, events) && Enabled(After(cfg, events), e)
  {
  }

  /** Length of the run of failures that ends the sequence of outcomes. */
  function TrailingFailures(outcomes: seq<bool>): (n: nat)
    ensures n <= |outcomes|
    ensures forall i :: |outcomes| - n <= i < |outcomes| ==> outcomes[i]
    ensures n < |outcomes| ==> !outcomes[|outcomes| - n - 1]
  {
    if outcomes == [] || !outcomes[|outcomes| - 1] then 0
    else 1 + TrailingFailures(outcomes[..|outcomes| - 1])
  }

  /** No permit is ahead of the breaker, and permits of its generation match its state. */
  ghost predicate PermitsMatch(b: Inner, issued: seq<Permit>) {
    && (forall p :: p in issued ==> p.generation <= b.generation)
    && (forall p :: p in issued && p.generation == b.generation ==>
          b.state != Open && (p.probe <==> b.state == HalfOpen))
    && (b.state == HalfOpen ==> Permit(b.generation, true) in issued)
  }

  ghost predicate ProbesDistinct(issued: seq<Permit>) {
    forall i, j :: 0 <= i < j < |issued| && issued[i].probe && issued[j].probe ==>
      issued[i].generation < issued[j].generation
  }

  ghost predicate HistoryMatches(cfg: Config, w: World) {
    && (w.b.state == Closed ==>
          w.b.openedAt == None && w.b.consecutiveFailures == TrailingFailures(w.accepted) < cfg.failureThreshold)
    && (w.b.state != Closed ==> w.openedLast.Some? && w.b.openedAt == w.openedLast)
    && (w.openedLast.Some? ==> w.openedLast.value <= w.clock)
    && (w.b.state == HalfOpen ==> w.openedLast.value + cfg.cooldown <= w.clock)
  }

  lemma TrailingExtends(outcomes: seq<bool>, failed: bool)
    ensures TrailingFailures(outcomes + [failed]) == if failed then TrailingFailures(outcomes) + 1 else 0
  {
  }

  lemma StepKeepsPermits(cfg: Config, w: World, e: Event)
    requires Enabled(w, e) && PermitsMatch(w.b, w.issued) && ProbesDistinct(w.issued)
    ensures PermitsMatch(Step(cfg, w, e).b, Step(cfg, w, e).issued) && ProbesDistinct(Step(cfg, w, e).issued)
  {
    if e.Admit? {
      var (b, r) := AdmitNext(cfg, w.b, e.now);
      if r.Ok? {
        forall i, j | 0 <= i < j < |w.issued| + 1 && (w.issued + [r.value.permit])[i].probe && (w.issued + [r.value.permit])[j].probe
          ensures (w.issued + [r.value.permit])[i].generation < (w.issued + [r.value.permit])[j].generation
        {
          assert w.issued[i] in w.issued;
        }
      }
    }
  }

  lemma AdmissionKeepsHistory(cfg: Config, w: World, now: nat)
    requires w.clock <= now && HistoryMatches(cfg, w)
    ensures HistoryMatches(cfg, Step(cfg, w, Admit(now)))
  {
    hide TrailingFailures, SecondsCeil;
  }

  lemma OutcomeKeepsHistory(cfg: Config, w: World, e: Event)
    requires cfg.Valid() && w.clock <= e.now && HistoryMatches(cfg, w) && e.Record?
    ensures HistoryMatches(cfg, Step(cfg, w, e))
  {
    if Accepts(w.b, e) {
      TrailingExtends(w.accepted, e.failed);
    }
  }

  lemma StepKeepsHistory(cfg: Config, w: World, e: Event)
    requires cfg.Valid() && Enabled(w, e) && HistoryMatches(cfg, w)
    ensures HistoryMatches(cfg, Step(cfg, w, e))
  {
    hide TrailingFailures, AdmitNext, RecordNext;
    match e
    case Admit(now) => AdmissionKeepsHistory(cfg, w, now);
    case Record(_, _, _) => OutcomeKeepsHistory(cfg, w, e);
    case Cancel(_, _) =>
  }

  /**
   In every run, over all permits ever issued: none is ahead of the breaker's generation;
   one of the current generation is a probe exactly when the breaker is HalfOpen, and none
   is current while it is Open; probe generations strictly increase in the order of issue;
   the failure counter is the trailing run of accepted failures; and a breaker that is not
   Closed remembers the instant of its latest Opened transition, cancellations included.
   */
  lemma {:induction false} EveryRun(cfg: Config, events: seq<Event>)
    requires cfg.Valid() && Legal(cfg, events)
    ensures PermitsMatch(After(cfg, events).b, After(cfg, events).issued)
    ensures ProbesDistinct(After(cfg, events).issued)
    ensures HistoryMatches(cfg, After(cfg, events))
  {
    if events != [] {
      var before, e := events[..|events| - 1], events[|events| - 1];
      EveryRun(cfg, before);
      StepKeepsPermits(cfg, After(cfg, before), e);
      StepKeepsHistory(cfg, After(cfg, before), e);
    }
  }

  /** Recording or cancelling any permit but one of the current generation changes nothing. */
  lemma StalePermitsAreInert(cfg: Config, events: seq<Event>, permit: Permit, failed: bool, now: nat)
    requires cfg.Valid() && Legal(cfg, events) && permit in After(cfg, events).issued
    ensures var b := After(cfg, events).b;
            permit.generation < b.generation ==>
              RecordNext(cfg, b, permit, failed, now) == (b, None) && CancelNext(b, permit) == b
    ensures !permit.probe ==> CancelNext(After(cfg, events).b, permit) == After(cfg, events).b
    ensures var b := After(cfg, events).b;
            permit.probe && permit.generation == b.generation ==>
              && RecordNext(cfg, b, permit, failed, now).0.generation > permit.generation
              && CancelNext(b, permit).generation > permit.generation
  {
    EveryRun(cfg, events);
  }

  /** The breaker opens on an accepted outcome exactly when the trailing failures reach the threshold. */
  lemma OpensExactlyAtThreshold(cfg: Config, events: seq<Event>, e: Event)
    requires cfg.Valid() && Legal(cfg, events + [e]) && e.Record?
    requires Accepts(After(cfg, events).b, e)
    ensures var w, after := After(cfg, events), After(cfg, events + [e]);
            && after.accepted == w.accepted + [e.failed]
            && (after.b.state == Open <==> TrailingFailures(after.accepted) == cfg.failureThreshold)
            && (after.b.state == Open <==> RecordNext(cfg, w.b, e.permit, e.failed, e.now).1 == Some(Opened))
            && (after.b.state != Open ==>
                  after.b.state == Closed && after.b.generation == w.b.generation &&
                  RecordNext(cfg, w.b, e.permit, e.failed, e.now).1 == None)
  {
    OneMore(cfg, events, e);
    EveryRun(cfg, events);
    TrailingExtends(After(cfg, events).accepted, e.failed);
  }

  /** Nothing but the threshold or a failed probe opens a breaker that was not Open. */
  lemma OpensOnlyForFailures(cfg: Config, events: seq<Event>, e: Event)
    requires cfg.Valid() && Legal(cfg, events + [e])
    requires After(cfg, events + [e]).openedLast != After(cfg, events).openedLast
    ensures e.Record? && e.failed && After(cfg, events + [e]).b.state == Open
    ensures var w := After(cfg, events);
            if e.permit.probe then w.b.state == HalfOpen && e.permit.generation == w.b.generation
            else Accepts(w.b, e) && TrailingFailures(w.accepted) + 1 == cfg.failureThreshold
  {
    OneMore(cfg, events, e);
    EveryRun(cfg, events);
  }

  /**
   In every run, what an admission answers by the state of the breaker: Closed admits without a
   probe and HalfOpen refuses for the least whole number of seconds that covers a cooldown, both
   leaving the breaker as it was; Open either refuses and stays as it was, or starts the one probe
   of the next generation.
   */
  lemma AdmissionsByState(cfg: Config, events: seq<Event>, now: nat)
    requires cfg.Valid() && Legal(cfg, events + [Admit(now)])
    ensures var w := After(cfg, events);
            var (b, r) := AdmitNext(cfg, w.b, now);
            && (w.b.state == Closed ==> b == w.b && r == Ok(Admission(Permit(w.b.generation, false), None)))
            && (w.b.state == HalfOpen ==>
                  && b == w.b && r.Err? && cfg.cooldown <= r.error * 1_000_000_000
                  && r.error > 0 && (r.error - 1) * 1_000_000_000 < cfg.cooldown)
            && (w.b.state == Open && r.Err? ==> b == w.b)
            && (w.b.state == Open && r.Ok? ==>
                  && r == Ok(Admission(Permit(w.b.generation + 1, true), Some(ProbeStarted)))
                  && b.state == HalfOpen && b.generation == w.b.generation + 1)
  {
    hide After, Legal, TrailingFailures, ProbesDistinct;
  }

  /**
   In every run, the outcome of the current probe decides: success closes the breaker, reports
   the recovery and starts with no failures; failure opens it again, reports that and starts a
   new cooldown.
   */
  lemma ProbeDecides(cfg: Config, events: seq<Event>, e: Event)
    requires cfg.Valid() && Legal(cfg, events + [e]) && e.Record?
    requires e.permit.probe && e.permit.generation == After(cfg, events).b.generation
    ensures var w, after := After(cfg, events), After(cfg, events + [e]);
            var transition := RecordNext(cfg, w.b, e.permit, e.failed, e.now).1;
            && w.b.state == HalfOpen && after.b.generation == w.b.generation + 1
            && (!e.failed ==>
                  after.b.state == Closed && transition == Some(Recovered) && after.b.consecutiveFailures == 0 && after.accepted == [])
            && (e.failed ==>
                  after.b.state == Open && transition == Some(Opened) && after.openedLast == after.b.openedAt == Some(e.now))
  {
    OneMore(cfg, events, e);
    EveryRun(cfg, events);
  }

  lemma CancelThenAdmit(cfg: Config, b: Inner, since: nat, permit: Permit, later: nat)
    requires b.state == HalfOpen && permit == Permit(b.generation, true)
    requires b.openedAt == Some(since) && since + cfg.cooldown <= later
    ensures AdmitNext(cfg, CancelNext(b, permit), later).1 == Ok(Admission(Permit(b.generation + 2, true), Some(ProbeStarted)))
  {
    hide SecondsCeil;
  }

  /** A cancelled probe costs no new cooldown: the very next request, however soon, gets a probe of its own. */
  lemma CancelledProbeIsReplaced(cfg: Config, events: seq<Event>, permit: Permit, now: nat, later: nat)
    requires cfg.Valid() && Legal(cfg, events + [Cancel(permit, now)]) && now <= later
    requires permit.probe && permit.generation == After(cfg, events).b.generation
    ensures var w, after := After(cfg, events), After(cfg, events + [Cancel(permit, now)]);
            && w.b.state == HalfOpen && after.b.state == Open && after.openedLast == w.openedLast
            && AdmitNext(cfg, after.b, later).1 == Ok(Admission(Permit(w.b.generation + 2, true), Some(ProbeStarted)))
  {
    hide After, Legal, AdmitNext, RecordNext, TrailingFailures, ProbesDistinct;
    var w := After(cfg, events);
    OneMore(cfg, events, Cancel(permit, now));
    EveryRun(cfg, events);
    CancelThenAdmit(cfg, w.b, w.openedLast.value, permit, later);
  }

  /** Every probe starts at least one cooldown after the latest Opened transition. */
  lemma ProbesWaitOutTheCooldown(cfg: Config, events: seq<Event>, now: nat)
    requires cfg.Valid() && Legal(cfg, events + [Admit(now)])
    ensures var w, r := After(cfg, events), AdmitNext(cfg, After(cfg, events).b, now).1;
            r.Ok? && r.value.permit.probe <==>
              w.b.state == Open && w.openedLast.Some? && w.openedLast.value + cfg.cooldown <= now
  {
    OneMore(cfg, events, Admit(now));
    EveryRun(cfg, events);
  }

  /**
   An Open rejection that advertises n seconds is exact: an undisturbed caller is granted a
   probe n seconds later, and is still refused after any smaller whole number of seconds.
   */
  lemma RetryHintIsExact(cfg: Config, events: seq<Event>, now: nat, seconds: nat)
    requires cfg.Valid() && Legal(cfg, events + [Admit(now)])
    requires After(cfg, events).b.state == Open
    requires AdmitNext(cfg, After(cfg, events).b, now).1 == Err(seconds)
    ensures var b := AdmitNext(cfg, After(cfg, events).b, now).0;
            && AdmitNext(cfg, b, now + seconds * 1_000_000_000).1.Ok?
            && forall sooner: nat :: sooner < seconds ==>
                 AdmitNext(cfg, b, now + sooner * 1_000_000_000).1.Err?
  {
    OneMore(cfg, events, Admit(now));
    EveryRun(cfg, events);
  }
}
