/**
 The exporter object: the device's configuration, the stamp table and the
 three labelled gauges as fields it updates in place, one sweep over a
 snapshot of the tracked hosts, and one cycle of the poll loop. Each method
 is proved to leave the tables exactly as the corresponding function of
 `Freshness` says, so everything proved there holds of the object.
 */
module Exporter {
  import opened Freshness

  class EagleServer {
    const user: string
    const password: string
    const eagleHost: Host
    /** Seconds to wait between cycles. */
    const sleep: real

    /** Time of the last successful reading, per host. */
    var lastSeen: map<Host, real>
    /** Gauge `demand{host}`, in watts. */
    var demand: map<Host, real>
    /** Gauge `summation_delivered{host}`, in kWh. */
    var summationDelivered: map<Host, real>
    /** Gauge `last_seen{host}`. */
    var eagleLastSeen: map<Host, real>

    /** The four tables as one value. */
    function State(): Tables
      reads this
    {
      Tables(lastSeen, demand, summationDelivered, eagleLastSeen)
    }

    /** The object invariant: the key-set invariant of the four tables. */
    predicate Valid()
      reads this
    {
      Consistent(State())
    }

    constructor (user: string, password: string, eagleHost: Host, sleep: real)
      ensures Valid() && State() == EMPTY
      ensures this.user == user && this.password == password
      ensures this.eagleHost == eagleHost && this.sleep == sleep
    {
      this.user := user;
      this.password := password;
      this.eagleHost := eagleHost;
      this.sleep := sleep;
      lastSeen := map[];
      demand := map[];
      summationDelivered := map[];
      eagleLastSeen := map[];
    }

    /**
     Retires every host whose stamp is stale at `now`, walking a snapshot of
     the tracked hosts and removing each stale one from the three gauges and
     from the stamp table.
     */
    method ExpireSensors(now: real)
      modifies this
      ensures State() == Expire(old(State()), now)
      ensures old(Valid()) ==> Valid()
    {
      ghost var start := State();
      var hosts := lastSeen.Keys;
      while hosts != {}
        invariant hosts <= start.lastSeen.Keys
        invariant State() == Retract(start, StaleHosts(start.lastSeen, now) - hosts)
        decreases hosts
      {
        var host :| host in hosts;
        ghost var gone := StaleHosts(start.lastSeen, now) - hosts;
        assert host in lastSeen && lastSeen[host] == start.lastSeen[host];
        var age := now - lastSeen[host];
        if age > METRIC_TTL {
          demand := demand - {host};
          summationDelivered := summationDelivered - {host};
          eagleLastSeen := eagleLastSeen - {host};
          lastSeen := lastSeen - {host};
          RetractStep(start, gone, host);
          assert StaleHosts(start.lastSeen, now) - (hosts - {host}) == gone + {host};
        } else {
          assert StaleHosts(start.lastSeen, now) - (hosts - {host}) == gone;
        }
        hosts := hosts - {host};
      }
      assert StaleHosts(start.lastSeen, now) - hosts == StaleHosts(start.lastSeen, now);
      if Consistent(start) {
        ExpirePreservesConsistent(start, now);
      }
    }

    /**
     One cycle of the poll loop for this object's device. On a successful
     request the three gauges take the reading and the time `now`, the
     device is stamped with `now`, and a sweep runs at `sweepNow`; on a
     failed request nothing changes.
     */
    method ServeOnce(outcome: Outcome, now: real, sweepNow: real)
      modifies this
      ensures State() == Cycle(old(State()), eagleHost, outcome, now, sweepNow)
      ensures old(Valid()) ==> Valid()
    {
      if outcome.Ok? {
        ghost var before := State();
        var demandWatts := DemandWatts(outcome.demandKw);
        demand := demand[eagleHost := demandWatts];
        summationDelivered := summationDelivered[eagleHost := outcome.summationDelivered];
        eagleLastSeen := eagleLastSeen[eagleHost := now];
        lastSeen := lastSeen[eagleHost := now];
        assert State() == Publish(before, eagleHost, demandWatts, outcome.summationDelivered, now);
        if Consistent(before) {
          PublishPreservesConsistent(before, eagleHost, demandWatts, outcome.summationDelivered, now);
        }
        ExpireSensors(sweepNow);
      }
    }
  }

  /**
   Two cycles against a fresh object: a success reporting 1.234 kW and
   56.7 kWh publishes 1234 W and 56.7, and a failed request right after it
   leaves every series and the stamp as the success left them.
   */
  method FailureKeepsLastReading(host: Host, t0: real, t1: real)
    returns (demandAfter: real, summationAfter: real, stampAfter: real)
    ensures demandAfter == 1234.0 && summationAfter == 56.7 && stampAfter == t0
  {
    var server := new EagleServer("user", "secret", host, 5.0);
    server.ServeOnce(Ok(1.234, 56.7), t0, t0);
    SuccessfulCycleCommitsReading(EMPTY, host, 1.234, 56.7, t0, t0);
    server.ServeOnce(Failed, t1, t1);
    demandAfter, summationAfter, stampAfter := server.demand[host], server.summationDelivered[host], server.lastSeen[host];
  }
}
