/** The alert rule engine: breach window, hysteresis and cooldown (alerts/mod.rs, alerts/evaluator.rs). */
module Alerts {
  import opened Text

  /** The columns of a rule the engine reads and writes; times are whole seconds. */
  datatype Rule = Rule(duration: int, cooldownMins: int, firstBreach: Option<int>, firing: bool,
      lastTriggered: Option<int>)

  datatype Kind = Fire | Resolve | NoChange

  /**
   * One value delivered by the metric: when the breach window was updated, the value judged and
   * the event recorded, whether the value breaches, and whether the channel is configured.
   */
  datatype Reading = Reading(seen: int, judged: int, sent: int, breached: bool, channel: bool)

  // ----- one reading ----------------------------------------------------------------------

  /** Whole minutes of a duration, rounded toward zero. */
  function Minutes(seconds: int): int { if seconds >= 0 then seconds / 60 else -((-seconds) / 60) }

  function Evaluate(r: Rule, breached: bool, now: int): Kind {
    if r.firing then
      if !breached then Resolve
      else if r.lastTriggered.Some? && Minutes(now - r.lastTriggered.value) >= r.cooldownMins then Fire
      else NoChange
    else if !breached then NoChange
    else
      var first := if r.firstBreach.Some? then r.firstBreach.value else now;
      if now - first >= r.duration then Fire else NoChange
  }

  function Windowed(r: Rule, breached: bool, now: int): Rule {
    if breached then (if r.firstBreach.None? then r.(firstBreach := Some(now)) else r)
    else r.(firstBreach := None)
  }

  function Recorded(r: Rule, kind: Kind, now: int): Rule {
    match kind
    case Fire => r.(firing := true, lastTriggered := Some(now))
    case Resolve => r.(firing := false, firstBreach := None)
    case NoChange => r
  }

  /** The event this reading records, NoChange when none. */
  function EventOf(r: Rule, rd: Reading): Kind {
    if rd.channel then Evaluate(Windowed(r, rd.breached, rd.seen), rd.breached, rd.judged) else NoChange
  }

  function Processed(r: Rule, rd: Reading): Rule {
    Recorded(Windowed(r, rd.breached, rd.seen), EventOf(r, rd), rd.sent)
  }

  // ----- the engine, updating the rule row ------------------------------------------------

  datatype Event = Event(kind: Kind, time: int, delivered: bool)

  class AlertRow {
    const duration: int
    const cooldownMins: int
    var firstBreach: Option<int>
    var firing: bool
    var lastTriggered: Option<int>
    var events: seq<Event>

    function Model(): Rule
      reads this
    {
      Rule(duration, cooldownMins, firstBreach, firing, lastTriggered)
    }

    constructor (duration: int, cooldownMins: int)
      ensures Model() == Rule(duration, cooldownMins, None, false, None) && events == []
    {
      this.duration, this.cooldownMins := duration, cooldownMins;
      firstBreach, firing, lastTriggered, events := None, false, None, [];
    }

    method UpdateBreachWindow(breached: bool, now: int)
      modifies this`firstBreach
      ensures Model() == Windowed(old(Model()), breached, now)
    {
      if breached {
        if firstBreach.None? {
          firstBreach := Some(now);
        }
      } else if firstBreach.Some? || firing {
        firstBreach := None;
      }
    }

    /** A failed delivery is recorded like a successful one. */
    method SendAndRecord(kind: Kind, channel: bool, delivered: bool, now: int)
      requires kind != NoChange
      modifies this
      ensures Model() == if channel then Recorded(old(Model()), kind, now) else old(Model())
      ensures events == if channel then old(events) + [Event(kind, now, delivered)] else old(events)
    {
      if !channel {
        return;
      }
      events := events + [Event(kind, now, delivered)];
      if kind == Fire {
        lastTriggered, firing := Some(now), true;
      } else {
        firing, firstBreach := false, None;
      }
    }

    method ProcessRule(rd: Reading, delivered: bool)
      modifies this
      ensures Model() == Processed(old(Model()), rd)
      ensures events == old(events) + (if EventOf(old(Model()), rd).NoChange? then []
                                       else [Event(EventOf(old(Model()), rd), rd.sent, delivered)])
    {
      UpdateBreachWindow(rd.breached, rd.seen);
      var kind := Evaluate(Model(), rd.breached, rd.judged);
      if kind != NoChange {
        SendAndRecord(kind, rd.channel, delivered, rd.sent);
      }
    }
  }

  // ----- runs -----------------------------------------------------------------------------

  predicate Fresh(r: Rule) { r.firstBreach.None? && !r.firing && r.lastTriggered.None? }

  /** Times never go back, within a reading or from one to the next. */
  predicate Clock(rs: seq<Reading>) {
    && (forall i | 0 <= i < |rs| :: rs[i].seen <= rs[i].judged <= rs[i].sent)
    && (forall i, j | 0 <= i < j < |rs| :: rs[i].sent <= rs[j].seen)
  }

  /** The rule after the first n readings. */
  function After(r: Rule, rs: seq<Reading>, n: nat): Rule
    requires n <= |rs|
  {
    if n == 0 then r else Processed(After(r, rs, n - 1), rs[n - 1])
  }

  /** The event reading n records. */
  function At(r: Rule, rs: seq<Reading>, n: nat): Kind
    requires n < |rs|
  {
    EventOf(After(r, rs, n), rs[n])
  }

  /** The first reading of the unbroken stretch of breached readings that ends at n. */
  function StretchStart(rs: seq<Reading>, n: nat): (k: nat)
    requires n < |rs| && rs[n].breached
    ensures k <= n && forall i | k <= i <= n :: rs[i].breached
    ensures k > 0 ==> !rs[k - 1].breached
  {
    if n > 0 && rs[n - 1].breached then StretchStart(rs, n - 1) else n
  }

  /** The breach window always opens with the current stretch, whatever state the rule is in. */
  lemma {:induction false} WindowIsStretch(r: Rule, rs: seq<Reading>, n: nat)
    requires Fresh(r) && n <= |rs|
    ensures After(r, rs, n).firstBreach ==
            if n > 0 && rs[n - 1].breached then Some(rs[StretchStart(rs, n - 1)].seen) else None
    ensures After(r, rs, n).duration == r.duration && After(r, rs, n).cooldownMins == r.cooldownMins
  {
    if n > 0 { WindowIsStretch(r, rs, n - 1); }
  }

  /**
   * A rule in state ok fires at a reading exactly when the channel is configured and the unbroken
   * breached stretch ending there has lasted the configured duration.
   */
  lemma FiresFromOkIff(r: Rule, rs: seq<Reading>, n: nat)
    requires Fresh(r) && n < |rs| && !After(r, rs, n).firing
    ensures At(r, rs, n).Fire? <==>
            && rs[n].channel && rs[n].breached
            && rs[n].judged - rs[StretchStart(rs, n)].seen >= r.duration
    ensures !At(r, rs, n).Resolve?
  {
    WindowIsStretch(r, rs, n);
  }

  /** Index of the last reading before n that recorded an event, or n when there is none. */
  function LastEvent(r: Rule, rs: seq<Reading>, n: nat): (k: nat)
    requires n <= |rs|
    ensures k <= n
    ensures k < n ==> !At(r, rs, k).NoChange?
    ensures forall i | 0 <= i < n && (k < i || k == n) :: At(r, rs, i).NoChange?
  {
    if n == 0 then 0
    else if !At(r, rs, n - 1).NoChange? then n - 1
    else
      var k := LastEvent(r, rs, n - 1);
      if k == n - 1 then n else k
  }

  /** The rule is firing exactly when the last recorded event is a Fire, and remembers when. */
  lemma {:induction false} StateIsLastEvent(r: Rule, rs: seq<Reading>, n: nat)
    requires Fresh(r) && n <= |rs|
    ensures var k := LastEvent(r, rs, n);
            && (After(r, rs, n).firing <==> k < n && At(r, rs, k).Fire?)
            && (After(r, rs, n).firing ==> After(r, rs, n).lastTriggered == Some(rs[k].sent))
    ensures After(r, rs, n).cooldownMins == r.cooldownMins
  {
    hide Evaluate;
    if n > 0 { StateIsLastEvent(r, rs, n - 1); }
  }

  /**
   * The recorded events are a prefix of (Fire+ Resolve)*: a Resolve always answers a Fire, and
   * only a Fire, with nothing recorded in between.
   */
  lemma ResolveFollowsFire(r: Rule, rs: seq<Reading>, n: nat)
    requires Fresh(r) && n < |rs| && At(r, rs, n).Resolve?
    ensures var k := LastEvent(r, rs, n); k < n && At(r, rs, k).Fire?
    ensures !rs[n].breached && rs[n].channel
  {
    StateIsLastEvent(r, rs, n);
  }

  /** In state firing a reading resolves exactly when it does not breach, and fires again exactly after the cooldown. */
  lemma FiringAnswers(r: Rule, rs: seq<Reading>, n: nat)
    requires Fresh(r) && Clock(rs) && n < |rs| && After(r, rs, n).firing
    ensures var k := LastEvent(r, rs, n);
            && k < n && At(r, rs, k).Fire?
            && (At(r, rs, n).Resolve? <==> rs[n].channel && !rs[n].breached)
            && (At(r, rs, n).Fire? <==>
                  rs[n].channel && rs[n].breached && rs[n].judged - rs[k].sent >= 60 * r.cooldownMins)
  {
    StateIsLastEvent(r, rs, n);
    WindowIsStretch(r, rs, n);
    var k := LastEvent(r, rs, n);
    WholeMinutes(rs[n].judged - rs[k].sent, r.cooldownMins);
  }

  lemma WholeMinutes(seconds: int, mins: int)
    requires seconds >= 0
    ensures Minutes(seconds) >= mins <==> seconds >= 60 * mins
  {
  }

  /** Whole minutes are cut off toward zero, also for a clock that has gone back. */
  lemma MinutesTruncate(seconds: int)
    ensures seconds >= 0 ==> 0 <= seconds - 60 * Minutes(seconds) < 60
    ensures seconds <= 0 ==> 0 <= 60 * Minutes(seconds) - seconds < 60
  {
  }

  /** Fires with no Resolve recorded between them are at least the cooldown apart. */
  lemma CooldownHolds(r: Rule, rs: seq<Reading>, i: nat, j: nat)
    requires Fresh(r) && Clock(rs) && i < j < |rs|
    requires At(r, rs, i).Fire? && At(r, rs, j).Fire?
    requires forall k | i < k < j :: !At(r, rs, k).Resolve?
    ensures rs[j].judged - rs[i].sent >= 60 * r.cooldownMins
  {
    hide After, At;
    StateIsLastEvent(r, rs, j);
    var k := LastEvent(r, rs, j);
    assert i <= k < j;
    assert At(r, rs, k).Fire?;
    FiringAnswers(r, rs, j);
    assert rs[i].sent <= rs[k].sent;
  }

  /** Fires across a recorded Resolve are at least the breach duration apart. */
  lemma DurationHolds(r: Rule, rs: seq<Reading>, i: nat, k: nat, j: nat)
    requires Fresh(r) && Clock(rs) && i < k < j < |rs|
    requires At(r, rs, i).Fire? && At(r, rs, k).Resolve? && At(r, rs, j).Fire?
    ensures rs[j].sent - rs[i].sent >= r.duration
  {
    FiringSinceResolve(r, rs, i, k, j + 1);
  }

  lemma {:induction false} FiringSinceResolve(r: Rule, rs: seq<Reading>, i: nat, k: nat, n: nat)
    requires Fresh(r) && Clock(rs) && i < k < n <= |rs|
    requires At(r, rs, i).Fire? && At(r, rs, k).Resolve?
    ensures After(r, rs, n).firing ==>
              After(r, rs, n).lastTriggered.Some? && After(r, rs, n).lastTriggered.value - rs[i].sent >= r.duration
    decreases n
  {
    hide Evaluate, After;
    var m := n - 1;
    assert After(r, rs, n) == Processed(After(r, rs, m), rs[m]) by { Unfold(r, rs, n); }
    if k < m {
      FiringSinceResolve(r, rs, i, k, m);
      if At(r, rs, m).Fire? {
        if After(r, rs, m).firing {
          StateIsLastEvent(r, rs, m);
          assert rs[LastEvent(r, rs, m)].sent <= rs[m].sent;
        } else {
          FiresFromOkIff(r, rs, m);
          var start := StretchStart(rs, m);
          ResolveFollowsFire(r, rs, k);
          assert k < start;
          assert rs[i].sent <= rs[start].seen;
        }
      }
    }
  }

  lemma Unfold(r: Rule, rs: seq<Reading>, n: nat)
    requires 0 < n <= |rs|
    ensures After(r, rs, n) == Processed(After(r, rs, n - 1), rs[n - 1])
  {
  }
}
