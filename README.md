# Eagle exporter: freshness and expiry bookkeeping, in Dafny

The exporter polls one Rainforest Eagle energy monitor. It republishes the
monitor's demand and cumulative summation as three Prometheus gauges labelled
by host: `demand`, `summation_delivered` and `last_seen`. It also has a sweep
meant to retire the series of a host not seen for more than `METRIC_TTL`
(300 seconds). As written, the sweep runs only right after a success has
re-stamped the one polled host, so it never retires that host (see below).
This project models the state machine behind that
bookkeeping: the object `eagle_server` with its stamp table `last_seen` and
its three gauges, the sweep `expire_sensors`, and one iteration of the poll
loop `serve_forever`.

- `freshness.dfy`, module `Freshness`: the four tables as a value (`Tables`).
  It holds the key-set invariant (`Consistent`), publishing (`Publish`), the
  sweep (`Expire`), one cycle (`Cycle`) and a finite run of cycles (`Run`),
  plus the lemmas about them.
- `exporter.dfy`, module `Exporter`: class `EagleServer`. Its map fields are
  updated in place, like the Python object's dict and gauges. `ExpireSensors`
  loops over a snapshot of the tracked hosts. `ServeOnce` is one iteration of
  the poll loop. Each method is proved to produce exactly the state that
  `Expire` or `Cycle` gives.
- `failure_path.dfy`, module `FailurePath`: the request-failure path as the
  source writes it (see Findings).

How the model represents the source:

- Each Prometheus gauge is a map from host label to value. `labels(host).set(v)`
  is a map update, and `remove(host)` removes the key.
- Timestamps and gauge values are `real`, which is the source's floats
  without rounding.
- The clock is passed in as parameters. `now` is the publish stamp
  (prometheus-eagle.py:77). `sweepNow` is the clock the sweep compares
  against (prometheus-eagle.py:49).
- The request outcome is passed in already decoded: `Ok(demandKw, summation)`
  or `Failed`.

The sweep runs only in the success branch (prometheus-eagle.py:69-81), so a
failed cycle never sweeps (`Freshness.Cycle`,
`Freshness.RunOfFailuresChangesNothing`). A process polls a single host, and
every sweep follows that host's fresh stamp, so an outage never retires
anything (`Freshness.NeverRetires`).

## Model

| member | source | states |
|---|---|---|
| `Freshness.Consistent` | prometheus-eagle.py:39-45 | the invariant over the stamp table and the three gauges: a host is tracked exactly when it has all three series, and the `last_seen` gauge equals the stamp |
| `Freshness.IsStale` | prometheus-eagle.py:49-50 | a stamp is stale when its age is strictly greater than `METRIC_TTL`: an age of exactly the TTL is not stale |
| `Freshness.DemandWatts` | prometheus-eagle.py:70 | the published demand is the reported kilowatts scaled to watts: dividing it by 1000 gives the reading back |
| `Freshness.Publish` | prometheus-eagle.py:74-80 | the `demand`, `summation_delivered` and `last_seen` gauges of the host and its stamp take the reading and the current time; each table gains at most that host and no other entry changes |
| `Freshness.Expire` | prometheus-eagle.py:47-56 | each of the four tables loses exactly the hosts whose age is strictly greater than `METRIC_TTL`; every remaining entry keeps its value |
| `Freshness.Cycle` | prometheus-eagle.py:69-81 | one iteration: a failed request leaves all four tables as they were, and no cycle adds any host other than its own to any table |
| `Freshness.Run` | prometheus-eagle.py:58-84 | any finite number of iterations adds no host other than the loop's own to any table |
| `Freshness.ExpirePreservesConsistent` | prometheus-eagle.py:53-56 | the sweep removes a host from all three gauges and the stamp table together, so the key-set invariant survives it |
| `Freshness.TtlBoundary` | prometheus-eagle.py:50 | a host aged exactly `METRIC_TTL` keeps its stamp and its three series; a host aged any more loses all four |
| `Freshness.ExpireIdempotent` | prometheus-eagle.py:48-56 | a second sweep at the same clock changes nothing |
| `Freshness.ExpireOnlyRemoves` | prometheus-eagle.py:47-56 | the sweep never creates an entry in any table |
| `Freshness.PublishPreservesConsistent` | prometheus-eagle.py:74-80 | publishing sets all three series together with the stamp, so the invariant survives and the host becomes tracked |
| `Freshness.FailedCycleChangesNothing` | prometheus-eagle.py:69-81 | a cycle whose request failed updates no gauge, leaves the stamps alone and runs no sweep |
| `Freshness.CyclePreservesConsistent` | prometheus-eagle.py:69-81 | every cycle, failed or successful, keeps the key-set invariant |
| `Freshness.SuccessfulCycleCommitsReading` | prometheus-eagle.py:74-81 | after a successful cycle whose sweep runs no more than `METRIC_TTL` after the stamp, the host is stamped `now`, its `last_seen` gauge is `now`, and its demand and summation gauges hold this reading, overwriting earlier values |
| `Freshness.SuccessfulCycleSparesOtherHosts` | prometheus-eagle.py:74-81 | in a successful cycle, every other host either keeps its stamp and three series unchanged or, if stale at the sweep clock, loses all four |
| `Freshness.CycleStampsMonotone` | prometheus-eagle.py:77-81 | when the clock is not behind any stamp, a cycle never moves a surviving stamp backwards |
| `Freshness.RunPreservesConsistent` | prometheus-eagle.py:58-84 | any number of cycles keeps the key-set invariant |
| `Freshness.RunOfFailuresChangesNothing` | prometheus-eagle.py:58-84 | through any number of failed cycles, every series keeps the value the last success gave it |
| `Freshness.NeverRetires` | prometheus-eagle.py:58-84 | a tracked host stays tracked through any number of its own loop's cycles, failed or successful, as long as each sweep runs within the TTL of that cycle's stamp |
| `Freshness.RunTracksOnlyItsHost` | prometheus-eagle.py:58-84 | a fresh exporter only ever tracks and publishes its own `eagle_host` |
| `Freshness.EndToEndScenario` | prometheus-eagle.py:69-81 | from nothing, one success for `eagle1` at 0.5 kW and 12.0 kWh publishes 500 W and 12.0 under that label; a sweep 299 s later keeps it all; one 301 s later removes it all |
| `Exporter.EagleServer.constructor` | prometheus-eagle.py:33-45 | a new exporter keeps its configuration, tracks no host and has no series |
| `Exporter.EagleServer.ExpireSensors` | prometheus-eagle.py:47-56 | walking a snapshot of the tracked hosts and deleting each stale one in place leaves exactly the tables `Expire` gives, and keeps the object invariant |
| `Exporter.EagleServer.ServeOnce` | prometheus-eagle.py:69-81 | one iteration of the poll loop leaves exactly the tables `Cycle` gives, and keeps the object invariant |
| `Exporter.FailureKeepsLastReading` | prometheus-eagle.py:69-81 | against a fresh object, a success reporting 1.234 kW and 56.7 kWh publishes 1234 W and 56.7, and a failed request after it leaves both values and the stamp unchanged |
| `FailurePath.Intended` | prometheus-eagle.py:60-69 | the outcome a request should have: ok exactly when it returned a response whose status is ok, and then that response's two readings |
| `FailurePath.IterationAsWritten` | prometheus-eagle.py:60-81 | whenever the request returned a response, the iteration as written agrees with the intended cycle and binds `r` to that response |
| `FailurePath.FirstRaiseCrashes` | prometheus-eagle.py:60-69 | a request that raises before `r` was ever bound stops the loop |
| `FailurePath.RaiseAfterOkRestamps` | prometheus-eagle.py:60-81 | a request that raises after an ok response publishes the old reading again and re-stamps the device and its `last_seen` gauge, while the intended failed cycle changes nothing |
| `FailurePath.StaleResponseRefreshesHost` | prometheus-eagle.py:60-81 | concrete case: success at 0, a raised request at 1000; as written the stamp and the `last_seen` gauge become 1000, while intended they stay at 0, already past the TTL |

## Left out

- The device request (`requests.post`, prometheus-eagle.py:61-66) is network I/O. The model receives its decoded outcome instead.
- Decoding the body with `r.json()` (prometheus-eagle.py:70-71) is a foreign-library call. A malformed body or a missing field raises there and ends the loop; the model has no separate outcome for that. When `summation_delivered` is present but not numeric, line 71 accepts it. `Gauge.set` then raises at lines 75-76, after line 74 has already set `demand`, so the process dies after a partial update. The model cannot represent this case, because `Ok` carries a `real`.
- Floating-point rounding in the `float(...) * 1000` conversion and in the age computation: the model computes exactly on `real`.
- `time.time()` and `time.sleep` are real time, and the unbounded `while True` loop never terminates. The clock is a parameter; `Run` models any finite prefix of the loop.
- Exporter.EagleServer.ExpireSensors: the source reads the clock afresh for each host inside the sweep (prometheus-eagle.py:49). The model compares every host against one `sweepNow`.
- The request payload built from the MAC id (`post_body`), the listen port and `start_http_server` only serve the request and the metrics endpoint. They are not part of this model.
- The internals of the Prometheus client library are a foreign library, and its scrape thread reads the gauges concurrently. In the model each gauge is a plain map, and concurrent reads are not modelled.
- Removing a label that a gauge does not hold raises `KeyError` in some versions of the client library. The model's removal is a no-op in that case. Under the class invariant every swept host holds all three labels, so this never arises.
- The zero default of the `defaultdict` at prometheus-eagle.py:39 is never observed, because the sweep reads only keys that exist. The model's maps are explicit.
- Logging (prometheus-eagle.py:51-52, 68, 72-73, 83, 87-89) and the command-line bootstrap (prometheus-eagle.py:92-110) are I/O and configuration.

## Findings

| source | as written | input that shows it | evidently intended | confidence | as-written member | corrected member |
|---|---|---|---|---|---|---|
| prometheus-eagle.py:60-69 | when `requests.post` raises, the handler only logs, and `if r.ok` still runs with whatever `r` held before: unbound on the first iteration, the previous response later | a success at time 0, then a connection error at time 1000: the old reading is published again and the stamp and the `last_seen` gauge become 1000, so the old reading is served under a fresh timestamp and no check on `last_seen` sees the outage; a connection error on the very first iteration stops the process | a failed request publishes nothing, stamps nothing and does not stop the loop (the corrected cycle still retires nothing during an outage, because sweeps follow successes only) | high (not executed) | `FailurePath.StaleResponseRefreshesHost` | `Freshness.FailedCycleChangesNothing` |
