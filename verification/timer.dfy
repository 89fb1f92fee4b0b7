/**
  The toolbelt's `Timer`: a keyed stopwatch over a registry that maps each
  running key to its start time in milliseconds. The registry is passed in
  and returned explicitly, and every reading of the wall clock is a
  parameter.
 */
module Timer {
  import opened Java
  import Optionals

  /** Running keys and the millisecond timestamps they were started at. */
  type Registry = map<string, Long>

  /** Per-key view of the registry: a key is either not timing or running
      since a timestamp. */
  datatype KeyState = Unstarted | Running(since: Long)

  function StateOf(registry: Registry, key: string): KeyState {
    if key in registry then Running(registry[key]) else Unstarted
  }

  /** `Map.get(key)`: the stored start time, or `null`. */
  function Lookup(registry: Registry, key: string): Nullable<Long> {
    if key in registry then Ref(registry[key]) else Null
  }

  /** Result of `start`: the new registry, the returned timestamp, and whether
      an existing timer was overridden (the Java code logs a warning then). */
  datatype Started = Started(registry: Registry, timestamp: Long, warned: bool)

  /** Result of `stop`: the new registry, the returned duration, and whether
      no timer was running for the key (the Java code logs a warning then). */
  datatype Stopped = Stopped(registry: Registry, duration: Long, warned: bool)

  /** `ActionResult`: what a timed action returned and how long it took. */
  datatype ActionResult<R> = ActionResult(result: R, duration: Long)

  /** What an action did: it either returned a result or threw, and either
      way left a registry behind (an action may itself start and stop timers). */
  datatype Performed<R> = Returned(result: R, registry: Registry) | Threw(registry: Registry)

  /** Result of `time`: the action result with the registry after `stop`, or
      the action's exception passed on with the registry the action left
      behind. */
  datatype Timed<R> = Completed(registry: Registry, outcome: ActionResult<R>) | Propagated(registry: Registry)

  /** `start(key)` at clock reading `now`. */
  function Start(registry: Registry, key: string, now: Long): (r: Started)
    ensures r.timestamp == now
    ensures StateOf(r.registry, key) == Running(now)
    ensures r.warned <==> StateOf(registry, key).Running?
    ensures forall k :: k != key ==> StateOf(r.registry, k) == StateOf(registry, k)
  {
    var previous := Optionals.With(Lookup(registry, key));
    Started(registry[key := now], now, previous.IsDefined())
  }

  /** `stop(key)` at clock reading `now`. */
  function Stop(registry: Registry, key: string, now: Long): (r: Stopped)
    ensures StateOf(registry, key) == Unstarted ==> r == Stopped(registry, 0, true)
    ensures StateOf(registry, key).Running? ==>
      && r.duration == WrapLong(now - StateOf(registry, key).since)
      && !r.warned
      && StateOf(r.registry, key) == Unstarted
    ensures forall k :: k != key ==> StateOf(r.registry, k) == StateOf(registry, k)
  {
    var previous := Optionals.With(Lookup(registry, key));
    if previous.IsEmpty() then
      Stopped(registry, 0, true)
    else
      var since := previous.Get().value;
      Stopped(registry - {key}, WrapLong(now - since), false)
  }

  /** `time(action)` with generated key `key`: start at `t0`, perform the
      action, stop at `t1`. There is no `finally`: when the action throws,
      `stop` does not run and the exception propagates. */
  function Time<R>(registry: Registry, key: string, t0: Long, action: Registry -> Performed<R>, t1: Long): (r: Timed<R>)
    ensures var performed := action(registry[key := t0]);
      && (r.Completed? <==> performed.Returned?)
      && (performed.Returned? ==> r.outcome.result == performed.result)
      && (performed.Threw? ==> r.registry == performed.registry)
      && (performed.Returned? && StateOf(performed.registry, key) == Running(t0) ==>
            && r.outcome.duration == WrapLong(t1 - t0)
            && r.registry == performed.registry - {key})
  {
    var started := Start(registry, key, t0);
    match action(started.registry)
    case Threw(during) => Propagated(during)
    case Returned(result, during) =>
      var stopped := Stop(during, key, t1);
      Completed(stopped.registry, ActionResult(result, stopped.duration))
  }

  /** Starting and then stopping a key measures the time in between and
      takes the key out of the registry; a key that was not running before
      leaves the registry exactly as it was. */
  lemma StartThenStop(registry: Registry, key: string, t0: Long, t1: Long)
    ensures var r := Stop(Start(registry, key, t0).registry, key, t1);
      && r.duration == WrapLong(t1 - t0)
      && !r.warned
      && r.registry == registry - {key}
      && (key !in registry ==> r.registry == registry)
      && (0 <= t0 <= t1 ==> r.duration == t1 - t0 >= 0)
  {
  }

  /** Stopping a key that is not running changes nothing and reports 0. */
  lemma StopUnstarted(registry: Registry, key: string, now: Long)
    requires key !in registry
    ensures Stop(registry, key, now) == Stopped(registry, 0, true)
  {
  }

  /** A second `start` overrides the first and warns. */
  lemma RestartOverrides(registry: Registry, key: string, t0: Long, t1: Long)
    ensures var r := Start(Start(registry, key, t0).registry, key, t1);
      r.warned && r.registry == registry[key := t1]
  {
  }

  /** `time` with a fresh key around an action that returns and leaves the
      registry alone returns the action's result, measures `t1 - t0`, and
      restores the registry. */
  lemma TimeFreshKey<R>(registry: Registry, key: string, t0: Long, action: Registry -> Performed<R>, t1: Long)
    requires key !in registry
    requires action(registry[key := t0]).Returned?
    requires action(registry[key := t0]).registry == registry[key := t0]
    ensures var r := Time(registry, key, t0, action, t1);
      && r.Completed?
      && r.outcome.result == action(registry[key := t0]).result
      && r.outcome.duration == WrapLong(t1 - t0)
      && r.registry == registry
      && (0 <= t0 <= t1 ==> r.outcome.duration == t1 - t0)
  {
  }

  /** When the action throws, its timer is never stopped: the generated key
      stays in the registry, running since `t0`. */
  lemma TimeThrowLeavesKey<R>(registry: Registry, key: string, t0: Long, action: Registry -> Performed<R>, t1: Long)
    requires key !in registry
    requires action(registry[key := t0]) == Threw(registry[key := t0])
    ensures var r := Time(registry, key, t0, action, t1);
      && r.Propagated?
      && StateOf(r.registry, key) == Running(t0)
      && r.registry.Keys == registry.Keys + {key}
  {
  }

  /** The unit-test expectations, with explicit clock readings: a stop at
      least 300 ms after the start measures at least 300. */
  lemma Examples(registry: Registry, now: Long, later: Long)
    requires 0 <= now && now + 300 <= later
    ensures Start(registry, "foo", now).timestamp >= now
    ensures Stop(Start(registry, "foo", now).registry, "foo", later).duration >= 300
    ensures "bar" !in registry ==> Stop(registry, "bar", now).duration == 0
  {
  }
}
