/**
 Freshness bookkeeping of the Eagle exporter, as values.

 The exporter keeps four tables keyed by the device's host label: the
 timestamp of the device's last successful reading, and the three labelled
 gauges `demand`, `summation_delivered` and `last_seen` that the metrics
 endpoint serves. A successful poll publishes a reading and stamps the host;
 a sweep then retires every host whose stamp is more than `METRIC_TTL`
 seconds old. `Exporter.EagleServer` performs these updates in place and is
 proved to agree with the functions here.

 Timestamps and gauge values are `real`: the source's floats without rounding.
 */
module Freshness {

  /** The device identity, used as the `host` label of every series. */
  type Host = string

  /** Seconds without a successful reading after which a device is retired. */
  const METRIC_TTL: real := 5.0 * 60.0

  /** The exporter's per-device state: the stamp table and the three gauges. */
  datatype Tables = Tables(
    lastSeen: map<Host, real>,            // host -> time of last success
    demand: map<Host, real>,              // gauge `demand`, in watts
    summationDelivered: map<Host, real>,  // gauge `summation_delivered`, in kWh
    lastSeenGauge: map<Host, real>)       // gauge `last_seen`

  /** The state right after construction: nothing tracked, no series. */
  const EMPTY: Tables := Tables(map[], map[], map[], map[])

  /**
   The key-set invariant: a host has all three series exactly when it is
   tracked, and the `last_seen` gauge mirrors the stamp table.
   */
  predicate Consistent(t: Tables)
    ensures Consistent(t) ==> forall h :: h in t.lastSeen <==> h in t.demand && h in t.summationDelivered && h in t.lastSeenGauge
  {
    && t.demand.Keys == t.lastSeen.Keys
    && t.summationDelivered.Keys == t.lastSeen.Keys
    && t.lastSeenGauge == t.lastSeen
  }

  /**
   A stamp is stale at `now` when its age is strictly greater than the TTL:
   an age of exactly the TTL is still fresh.
   */
  predicate IsStale(seen: real, now: real)
    ensures now - seen == METRIC_TTL ==> !IsStale(seen, now)
  {
    now - seen > METRIC_TTL
  }

  /** The outcome of one device request, already decoded. */
  datatype Outcome = Ok(demandKw: real, summationDelivered: real) | Failed

  /** One poll cycle: the request's outcome, the publish stamp and the sweep clock. */
  datatype Step = Step(outcome: Outcome, now: real, sweepNow: real)

  // ---------------------------------------------------------------------------
  // Entry-by-entry descriptions of the two updates

  /** `after` is `before` with `host` set to `v` and every other entry untouched. */
  ghost predicate SetsOnly(before: map<Host, real>, after: map<Host, real>, host: Host, v: real) {
    && after.Keys == before.Keys + {host}
    && after[host] == v
    && forall h :: h in before && h != host ==> after[h] == before[h]
  }

  /**
   `after` is `before` without exactly the hosts that `lastSeen` marks stale
   at `now`; every entry that stays keeps its value.
   */
  ghost predicate SweptMap(before: map<Host, real>, after: map<Host, real>, lastSeen: map<Host, real>, now: real) {
    forall h ::
      && (h in after <==> h in before && !(h in lastSeen && IsStale(lastSeen[h], now)))
      && (h in after ==> after[h] == before[h])
  }

  /** Every table's keys lie within the corresponding set. */
  ghost predicate KeysWithin(t: Tables, seen: set<Host>, demand: set<Host>, summation: set<Host>, gauge: set<Host>) {
    && t.lastSeen.Keys <= seen && t.demand.Keys <= demand
    && t.summationDelivered.Keys <= summation && t.lastSeenGauge.Keys <= gauge
  }

  // ---------------------------------------------------------------------------
  // The operations

  /** The gauge value published for a demand reported in kilowatts. */
  function DemandWatts(kw: real): (w: real)
    ensures w / 1000.0 == kw
  {
    kw * 1000.0
  }

  /** Removes the three series and the stamp of every host in `hosts`. */
  function Retract(t: Tables, hosts: set<Host>): (r: Tables) {
    Tables(t.lastSeen - hosts, t.demand - hosts, t.summationDelivered - hosts, t.lastSeenGauge - hosts)
  }

  /** Retracting one more host after a set of hosts is retracting the union. */
  lemma RetractStep(t: Tables, gone: set<Host>, h: Host)
    ensures var r := Retract(t, gone);
      Tables(r.lastSeen - {h}, r.demand - {h}, r.summationDelivered - {h}, r.lastSeenGauge - {h})
        == Retract(t, gone + {h})
  {
  }

  /** The hosts tracked in `lastSeen` whose stamp is stale at `now`. */
  function StaleHosts(lastSeen: map<Host, real>, now: real): (r: set<Host>) {
    set h | h in lastSeen && IsStale(lastSeen[h], now)
  }

  /**
   The success branch of a cycle before the sweep: the three gauges of `host`
   take the reading and the current time, and `host` is stamped with it.
   */
  function Publish(t: Tables, host: Host, demandWatts: real, summation: real, now: real): (r: Tables)
    ensures SetsOnly(t.demand, r.demand, host, demandWatts)
    ensures SetsOnly(t.summationDelivered, r.summationDelivered, host, summation)
    ensures SetsOnly(t.lastSeenGauge, r.lastSeenGauge, host, now)
    ensures SetsOnly(t.lastSeen, r.lastSeen, host, now)
  {
    Tables(t.lastSeen[host := now], t.demand[host := demandWatts],
           t.summationDelivered[host := summation], t.lastSeenGauge[host := now])
  }

  /**
   The sweep: every host whose stamp is stale at `now` loses its stamp and
   its three series; every other entry of every table stays as it was.
   */
  function Expire(t: Tables, now: real): (r: Tables)
    ensures SweptMap(t.lastSeen, r.lastSeen, t.lastSeen, now)
    ensures SweptMap(t.demand, r.demand, t.lastSeen, now)
    ensures SweptMap(t.summationDelivered, r.summationDelivered, t.lastSeen, now)
    ensures SweptMap(t.lastSeenGauge, r.lastSeenGauge, t.lastSeen, now)
  {
    Retract(t, StaleHosts(t.lastSeen, now))
  }

  /**
   One cycle of the poll loop for `host`: a failed request changes nothing
   and runs no sweep; a successful one publishes and then sweeps at `sweepNow`.
   Either way no table gains any host but `host`.
   */
  function Cycle(t: Tables, host: Host, outcome: Outcome, now: real, sweepNow: real): (r: Tables)
    ensures outcome.Failed? ==> r == t
    ensures KeysWithin(r, t.lastSeen.Keys + {host}, t.demand.Keys + {host},
                       t.summationDelivered.Keys + {host}, t.lastSeenGauge.Keys + {host})
  {
    match outcome
    case Failed => t
    case Ok(kw, summation) => Expire(Publish(t, host, DemandWatts(kw), summation, now), sweepNow)
  }

  /**
   A finite prefix of the poll loop: the cycles of `steps`, in order. However
   many cycles run, no table gains any host but the loop's own `host`.
   */
  function Run(t: Tables, host: Host, steps: seq<Step>): (r: Tables)
    ensures KeysWithin(r, t.lastSeen.Keys + {host}, t.demand.Keys + {host},
                       t.summationDelivered.Keys + {host}, t.lastSeenGauge.Keys + {host})
    decreases |steps|
  {
    if steps == [] then t
    else Run(Cycle(t, host, steps[0].outcome, steps[0].now, steps[0].sweepNow), host, steps[1..])
  }

  // ---------------------------------------------------------------------------
  // Properties of the sweep

  /** The sweep keeps the key-set invariant. */
  lemma ExpirePreservesConsistent(t: Tables, now: real)
    requires Consistent(t)
    ensures Consistent(Expire(t, now))
  {
    var r := Expire(t, now);
    assert r.lastSeenGauge == r.lastSeen by {
      assert r.lastSeenGauge.Keys == r.lastSeen.Keys;
    }
  }

  /**
   A host tracked at exactly the TTL's age survives the sweep with its stamp
   and all three series; one tracked at any greater age is retired from all four.
   */
  lemma TtlBoundary(t: Tables, h: Host, now: real)
    requires Consistent(t) && h in t.lastSeen
    ensures now - t.lastSeen[h] == METRIC_TTL ==>
      var r := Expire(t, now);
      && h in r.lastSeen && r.lastSeen[h] == t.lastSeen[h]
      && h in r.demand && r.demand[h] == t.demand[h]
      && h in r.summationDelivered && r.summationDelivered[h] == t.summationDelivered[h]
      && h in r.lastSeenGauge && r.lastSeenGauge[h] == t.lastSeenGauge[h]
    ensures now - t.lastSeen[h] > METRIC_TTL ==>
      var r := Expire(t, now);
      h !in r.lastSeen && h !in r.demand && h !in r.summationDelivered && h !in r.lastSeenGauge
  {
  }

  /** Sweeping a second time at the same clock changes nothing. */
  lemma ExpireIdempotent(t: Tables, now: real)
    ensures Expire(Expire(t, now), now) == Expire(t, now)
  {
    var once := Expire(t, now);
    assert StaleHosts(once.lastSeen, now) == {};
  }

  /** The sweep never creates an entry: every table only shrinks. */
  lemma ExpireOnlyRemoves(t: Tables, now: real)
    ensures var r := Expire(t, now);
      && r.lastSeen.Keys <= t.lastSeen.Keys && r.demand.Keys <= t.demand.Keys
      && r.summationDelivered.Keys <= t.summationDelivered.Keys && r.lastSeenGauge.Keys <= t.lastSeenGauge.Keys
  {
  }

  // ---------------------------------------------------------------------------
  // Properties of publishing and of one cycle

  /** Publishing keeps the key-set invariant and makes `host` tracked. */
  lemma PublishPreservesConsistent(t: Tables, host: Host, demandWatts: real, summation: real, now: real)
    requires Consistent(t)
    ensures var r := Publish(t, host, demandWatts, summation, now);
      Consistent(r) && host in r.lastSeen
  {
  }

  /**
   A failed cycle publishes nothing, stamps nothing and sweeps nothing. This
   holds by the definition of `Cycle`; it is stated on its own because it is
   the corrected behaviour of the source's failure path (`FailurePath`).
   */
  lemma FailedCycleChangesNothing(t: Tables, host: Host, now: real, sweepNow: real)
    ensures Cycle(t, host, Failed, now, sweepNow) == t
  {
  }

  /** Every cycle, failed or successful, keeps the key-set invariant. */
  lemma CyclePreservesConsistent(t: Tables, host: Host, outcome: Outcome, now: real, sweepNow: real)
    requires Consistent(t)
    ensures Consistent(Cycle(t, host, outcome, now, sweepNow))
  {
    if outcome.Ok? {
      var p := Publish(t, host, DemandWatts(outcome.demandKw), outcome.summationDelivered, now);
      PublishPreservesConsistent(t, host, DemandWatts(outcome.demandKw), outcome.summationDelivered, now);
      ExpirePreservesConsistent(p, sweepNow);
    }
  }

  /**
   After a successful cycle whose sweep runs no later than the TTL after the
   publish stamp, the published host is tracked with that stamp and its three
   gauges hold the cycle's reading, whatever they held before.
   */
  lemma SuccessfulCycleCommitsReading(t: Tables, host: Host, kw: real, summation: real, now: real, sweepNow: real)
    requires sweepNow <= now + METRIC_TTL
    ensures var r := Cycle(t, host, Ok(kw, summation), now, sweepNow);
      && host in r.lastSeen && r.lastSeen[host] == now
      && host in r.lastSeenGauge && r.lastSeenGauge[host] == now
      && host in r.demand && r.demand[host] == kw * 1000.0
      && host in r.summationDelivered && r.summationDelivered[host] == summation
  {
    var p := Publish(t, host, DemandWatts(kw), summation, now);
    assert !IsStale(p.lastSeen[host], sweepNow);
  }

  /**
   A successful cycle leaves every other host either exactly as it was (its
   stamp and three series) or retired from all four tables by the sweep.
   */
  lemma SuccessfulCycleSparesOtherHosts(t: Tables, host: Host, kw: real, summation: real, now: real, sweepNow: real, h: Host)
    requires Consistent(t) && h in t.lastSeen && h != host
    ensures var r := Cycle(t, host, Ok(kw, summation), now, sweepNow);
      if IsStale(t.lastSeen[h], sweepNow) then
        h !in r.lastSeen && h !in r.demand && h !in r.summationDelivered && h !in r.lastSeenGauge
      else
        && h in r.lastSeen && r.lastSeen[h] == t.lastSeen[h]
        && h in r.demand && r.demand[h] == t.demand[h]
        && h in r.summationDelivered && r.summationDelivered[h] == t.summationDelivered[h]
        && h in r.lastSeenGauge && r.lastSeenGauge[h] == t.lastSeenGauge[h]
  {
    var p := Publish(t, host, DemandWatts(kw), summation, now);
    assert p.lastSeen[h] == t.lastSeen[h];
  }

  /**
   With a clock that is not behind any stamp, a cycle never moves a surviving
   stamp backwards.
   */
  lemma CycleStampsMonotone(t: Tables, host: Host, outcome: Outcome, now: real, sweepNow: real)
    requires forall h :: h in t.lastSeen ==> t.lastSeen[h] <= now
    ensures var r := Cycle(t, host, outcome, now, sweepNow);
      forall h :: h in t.lastSeen && h in r.lastSeen ==> t.lastSeen[h] <= r.lastSeen[h]
  {
  }

  // ---------------------------------------------------------------------------
  // Properties of the loop over many cycles

  /** Any number of cycles keeps the key-set invariant. */
  lemma {:induction false} RunPreservesConsistent(t: Tables, host: Host, steps: seq<Step>)
    requires Consistent(t)
    ensures Consistent(Run(t, host, steps))
    decreases |steps|
  {
    if steps != [] {
      CyclePreservesConsistent(t, host, steps[0].outcome, steps[0].now, steps[0].sweepNow);
      RunPreservesConsistent(Cycle(t, host, steps[0].outcome, steps[0].now, steps[0].sweepNow), host, steps[1..]);
    }
  }

  /**
   Failure isolation: through any number of failed cycles every table,
   and so every published value, stays exactly as the last success left it.
   */
  lemma {:induction false} RunOfFailuresChangesNothing(t: Tables, host: Host, steps: seq<Step>)
    requires forall i :: 0 <= i < |steps| ==> steps[i].outcome == Failed
    ensures Run(t, host, steps) == t
    decreases |steps|
  {
    if steps != [] {
      RunOfFailuresChangesNothing(t, host, steps[1..]);
    }
  }

  /** Starting empty, the loop for `host` never tracks or publishes any other host. */
  lemma RunTracksOnlyItsHost(host: Host, steps: seq<Step>)
    ensures var r := Run(EMPTY, host, steps);
      r.lastSeen.Keys <= {host} && r.demand.Keys <= {host}
      && r.summationDelivered.Keys <= {host} && r.lastSeenGauge.Keys <= {host}
  {
    assert EMPTY.lastSeen.Keys + {host} == {host};
  }

  /**
   A tracked host is never retired by its own loop, however its requests
   fail or succeed, as long as each sweep runs within the TTL of that
   cycle's stamp: failed cycles do not sweep, and a successful one stamps
   the host right before its sweep.
   */
  lemma {:induction false} NeverRetires(t: Tables, host: Host, steps: seq<Step>)
    requires host in t.lastSeen
    requires forall i :: 0 <= i < |steps| ==> steps[i].sweepNow <= steps[i].now + METRIC_TTL
    ensures host in Run(t, host, steps).lastSeen
    decreases |steps|
  {
    if steps != [] {
      var s := steps[0];
      if s.outcome.Ok? {
        SuccessfulCycleCommitsReading(t, host, s.outcome.demandKw, s.outcome.summationDelivered, s.now, s.sweepNow);
      }
      NeverRetires(Cycle(t, host, s.outcome, s.now, s.sweepNow), host, steps[1..]);
    }
  }

  /**
   End to end: from nothing, one successful cycle for "eagle1" reporting
   0.5 kW and 12.0 kWh publishes 500 W and 12.0 and tracks the device; a
   later sweep more than the TTL after that success retires all of it.
   */
  lemma EndToEndScenario(t0: real)
    ensures var r := Cycle(EMPTY, "eagle1", Ok(0.5, 12.0), t0, t0);
      && r.demand == map["eagle1" := 500.0]
      && r.summationDelivered == map["eagle1" := 12.0]
      && r.lastSeen == map["eagle1" := t0] && r.lastSeenGauge == map["eagle1" := t0]
      && Expire(r, t0 + 299.0) == r
      && Expire(r, t0 + 301.0) == EMPTY
  {
    var r := Cycle(EMPTY, "eagle1", Ok(0.5, 12.0), t0, t0);
    assert StaleHosts(r.lastSeen, t0) == {};
    assert StaleHosts(r.lastSeen, t0 + 299.0) == {};
    assert StaleHosts(r.lastSeen, t0 + 301.0) == {"eagle1"};
  }
}
