/**
 The poll loop's failure path as the source writes it.

 The response of the device request is bound to a local `r` that lives
 across iterations of the loop. When the request raises, the handler only
 logs, and the `r.ok` test that follows still runs: on the first iteration
 `r` is unbound and the loop dies; on a later one it still holds the previous
 iteration's response, which is published again with a fresh stamp, so the
 stamp and the `last_seen` gauge keep advancing through an outage. The
 evidently intended behaviour, that a failed request changes nothing, is
 `Freshness.Cycle` with `Failed`, which the rest of the model uses. Neither
 version retires the device during an outage, because a cycle sweeps only
 after it has published.
 */
module FailurePath {
  import opened Freshness

  /** A response of the device: its status test and the two decoded fields. */
  datatype Response = Response(ok: bool, demandKw: real, summationDelivered: real)

  /** What the request did in one iteration. */
  datatype Attempt = Raised | Returned(response: Response)

  /** What the local `r` holds when `r.ok` is read. */
  datatype Binding = Unbound | Bound(response: Response)

  /** The end of one iteration: the loop died, or it goes on with these tables and this `r`. */
  datatype Iteration = Crashed | Continued(tables: Tables, r: Binding)

  /** The outcome a request evidently should have: anything but an ok response is a failure. */
  function Intended(a: Attempt): (o: Outcome)
    ensures o.Ok? <==> a.Returned? && a.response.ok
    ensures o.Ok? ==> o.demandKw == a.response.demandKw && o.summationDelivered == a.response.summationDelivered
  {
    match a
    case Raised => Failed
    case Returned(resp) => if resp.ok then Ok(resp.demandKw, resp.summationDelivered) else Failed
  }

  /**
   One iteration as written: `r` is rebound only when the request returns,
   and whatever `r` then holds decides whether the cycle publishes.
   Whenever the request returned, this agrees with the intended cycle.
   */
  function IterationAsWritten(t: Tables, host: Host, r: Binding, a: Attempt, now: real, sweepNow: real): (it: Iteration)
    ensures a.Returned? ==> it == Continued(Cycle(t, host, Intended(a), now, sweepNow), Bound(a.response))
  {
    var current := if a.Returned? then Bound(a.response) else r;
    match current
    case Unbound => Crashed
    case Bound(resp) =>
      Continued(if resp.ok then Cycle(t, host, Ok(resp.demandKw, resp.summationDelivered), now, sweepNow) else t,
                current)
  }

  /** A request that raises on the first iteration, before `r` was ever bound, stops the loop. */
  lemma FirstRaiseCrashes(host: Host, now: real, sweepNow: real)
    ensures IterationAsWritten(EMPTY, host, Unbound, Raised, now, sweepNow) == Crashed
  {
  }

  /**
   A request that raises after an ok response re-publishes that previous
   response and re-stamps the device and its `last_seen` gauge with the new
   time (as long as the sweep runs within the TTL of it), whereas the
   intended failed cycle keeps the old stamp. So the old reading is served
   under a fresh timestamp and the outage never shows in `last_seen`.
   */
  lemma RaiseAfterOkRestamps(t: Tables, host: Host, previous: Response, now: real, sweepNow: real)
    requires previous.ok && sweepNow <= now + METRIC_TTL
    ensures var it := IterationAsWritten(t, host, Bound(previous), Raised, now, sweepNow);
      && it.Continued? && host in it.tables.lastSeen && it.tables.lastSeen[host] == now
      && it.tables.lastSeenGauge[host] == now
      && it.tables.demand[host] == previous.demandKw * 1000.0
      && it.tables.summationDelivered[host] == previous.summationDelivered
      && Cycle(t, host, Intended(Raised), now, sweepNow) == t
  {
    SuccessfulCycleCommitsReading(t, host, previous.demandKw, previous.summationDelivered, now, sweepNow);
  }

  /**
   Concrete instance: a success at time 0 for "eagle", then a raised request
   at time 1000. As written the device and its `last_seen` gauge are stamped
   1000; intended, they keep stamp 0, which is already older than the TTL.
   */
  lemma StaleResponseRefreshesHost()
    ensures var before := Cycle(EMPTY, "eagle", Ok(0.5, 12.0), 0.0, 0.0);
      var it := IterationAsWritten(before, "eagle", Bound(Response(true, 0.5, 12.0)), Raised, 1000.0, 1000.0);
      && it.Continued? && it.tables.lastSeen["eagle"] == 1000.0 && it.tables.lastSeenGauge["eagle"] == 1000.0
      && Cycle(before, "eagle", Failed, 1000.0, 1000.0).lastSeen["eagle"] == 0.0
      && Cycle(before, "eagle", Failed, 1000.0, 1000.0).lastSeenGauge["eagle"] == 0.0
      && IsStale(0.0, 1000.0)
  {
    SuccessfulCycleCommitsReading(EMPTY, "eagle", 0.5, 12.0, 0.0, 0.0);
    var before := Cycle(EMPTY, "eagle", Ok(0.5, 12.0), 0.0, 0.0);
    SuccessfulCycleCommitsReading(before, "eagle", 0.5, 12.0, 1000.0, 1000.0);
  }
}
