/**
 * The bookkeeping half of the frame loop `tick` (app.js:1036-1059): the spawn
 * accumulator releases at most one queued entry per frame, and once the
 * queue is empty the settle accumulator counts how long the pile has been at
 * rest, ending the run after SettleHold seconds. The physics step, mesh sync
 * and rendering between the two halves are not part of this model; whether
 * the pile is settled after them is an input of each frame.
 */
module Scheduler {
  import opened Wrappers
  import opened Planner

  /** SPAWN_INTERVAL (app.js:24). */
  const SpawnInterval: real := 0.04
  /** The longest frame tick accounts for (app.js:1037). */
  const MaxFrameDelta: real := 0.05
  /** How long the pile must stay settled before the run ends (app.js:1055). */
  const SettleHold: real := 0.75

  datatype Schedule = Schedule(
    spawnAccumulator: real,
    settleAccumulator: real,
    running: bool,
    pendingQueue: seq<QueueEntry>)

  /** The result of a frame: the new schedule and the entry it handed to spawnCash, if any. */
  datatype Step = Step(schedule: Schedule, spawned: Option<QueueEntry>)

  /** `Math.min(clock.getDelta(), 0.05)` for a clock delta, which is never negative. */
  function FrameDelta(clockDelta: real): (d: real)
    requires clockDelta >= 0.0
    ensures 0.0 <= d <= MaxFrameDelta && d <= clockDelta
    ensures d == clockDelta || d == MaxFrameDelta
  {
    if clockDelta < MaxFrameDelta then clockDelta else MaxFrameDelta
  }

  /** The spawn half of tick (app.js:1038-1044). */
  function SpawnStep(s: Schedule, delta: real): (o: Step)
    ensures o.spawned.Some? <==>
      s.running && |s.pendingQueue| > 0 && s.spawnAccumulator + delta >= SpawnInterval
    ensures o.spawned.Some? ==>
      [o.spawned.value] + o.schedule.pendingQueue == s.pendingQueue && o.schedule.spawnAccumulator == 0.0
    ensures o.spawned.None? ==>
      o.schedule.pendingQueue == s.pendingQueue && o.schedule.spawnAccumulator == s.spawnAccumulator + delta
    ensures o.schedule.running == s.running && o.schedule.settleAccumulator == s.settleAccumulator
  {
    var acc := s.spawnAccumulator + delta;
    if s.running && |s.pendingQueue| > 0 && acc >= SpawnInterval then
      Step(s.(spawnAccumulator := 0.0, pendingQueue := s.pendingQueue[1..]), Some(s.pendingQueue[0]))
    else
      Step(s.(spawnAccumulator := acc), None)
  }

  /** The settle half of tick (app.js:1049-1057); `settled` is what isPileSettled() reports. */
  function SettleStep(s: Schedule, delta: real, settled: bool): (t: Schedule)
    ensures t.pendingQueue == s.pendingQueue && t.spawnAccumulator == s.spawnAccumulator
    ensures !(s.running && s.pendingQueue == []) ==> t == s
    ensures s.running && s.pendingQueue == [] && !settled ==> t.settleAccumulator == 0.0 && t.running
    ensures t.running ==> s.running
    ensures s.running && !t.running ==> s.pendingQueue == [] && settled && t.settleAccumulator > SettleHold
    ensures s.running && s.pendingQueue == [] && settled ==>
      t.settleAccumulator == s.settleAccumulator + delta && (t.running <==> !(t.settleAccumulator > SettleHold))
  {
    if s.running && s.pendingQueue == [] then
      var acc := if settled then s.settleAccumulator + delta else 0.0;
      s.(settleAccumulator := acc, running := s.running && !(acc > SettleHold))
    else
      s
  }

  /** One tick: the spawn half, then the settle half, both with the same clamped delta. */
  function Frame(s: Schedule, clockDelta: real, settled: bool): Step
    requires clockDelta >= 0.0
  {
    var delta := FrameDelta(clockDelta);
    var spawn := SpawnStep(s, delta);
    Step(SettleStep(spawn.schedule, delta, settled), spawn.spawned)
  }

  /** What one frame brings: the clock delta and whether the pile is settled after the physics step. */
  datatype FrameInput = FrameInput(clockDelta: real, settled: bool)

  predicate ValidFrames(frames: seq<FrameInput>)
  {
    forall i :: 0 <= i < |frames| ==> frames[i].clockDelta >= 0.0
  }

  /** The state after a run of frames and the entries spawned on the way, in order. */
  datatype Trace = Trace(final: Schedule, spawned: seq<QueueEntry>)

  function Run(s: Schedule, frames: seq<FrameInput>): Trace
    requires ValidFrames(frames)
    decreases |frames|
  {
    if frames == [] then Trace(s, [])
    else
      var step := Frame(s, frames[0].clockDelta, frames[0].settled);
      var rest := Run(step.schedule, frames[1..]);
      Trace(rest.final, (if step.spawned.Some? then [step.spawned.value] else []) + rest.spawned)
  }

  /** Entries leave the queue in order: what was spawned followed by what is left is the queue at the start. */
  lemma {:induction false} RunFifo(s: Schedule, frames: seq<FrameInput>)
    requires ValidFrames(frames)
    ensures Run(s, frames).spawned + Run(s, frames).final.pendingQueue == s.pendingQueue
    decreases |frames|
  {
    if frames != [] {
      var step := Frame(s, frames[0].clockDelta, frames[0].settled);
      RunFifo(step.schedule, frames[1..]);
    }
  }

  /** No frame spawns more than one entry. */
  lemma {:induction false} RunAtMostOnePerFrame(s: Schedule, frames: seq<FrameInput>)
    requires ValidFrames(frames)
    ensures |Run(s, frames).spawned| <= |frames|
    decreases |frames|
  {
    if frames != [] {
      var step := Frame(s, frames[0].clockDelta, frames[0].settled);
      RunAtMostOnePerFrame(step.schedule, frames[1..]);
    }
  }

  /** Once the run has ended nothing is spawned and only the spawn accumulator moves; tick never restarts it. */
  lemma {:induction false} RunStopped(s: Schedule, frames: seq<FrameInput>)
    requires ValidFrames(frames) && !s.running
    ensures !Run(s, frames).final.running
    ensures Run(s, frames).spawned == []
    ensures Run(s, frames).final.pendingQueue == s.pendingQueue
    ensures Run(s, frames).final.settleAccumulator == s.settleAccumulator
    decreases |frames|
  {
    if frames != [] {
      var step := Frame(s, frames[0].clockDelta, frames[0].settled);
      RunStopped(step.schedule, frames[1..]);
    }
  }

  /** A run only ends with the queue drained. */
  lemma {:induction false} RunEndsDrained(s: Schedule, frames: seq<FrameInput>)
    requires ValidFrames(frames) && s.running
    ensures !Run(s, frames).final.running ==> Run(s, frames).final.pendingQueue == []
    decreases |frames|
  {
    if frames != [] {
      var step := Frame(s, frames[0].clockDelta, frames[0].settled);
      if step.schedule.running {
        RunEndsDrained(step.schedule, frames[1..]);
      } else {
        RunStopped(step.schedule, frames[1..]);
      }
    }
  }

  /**
   * With frames of at least SpawnInterval, a running schedule spawns one
   * entry per frame: after as many frames as there are queued entries the
   * whole queue has been spawned, in order.
   */
  lemma {:induction false} RunDrains(s: Schedule, frames: seq<FrameInput>)
    requires ValidFrames(frames) && s.running && s.spawnAccumulator >= 0.0
    requires forall i :: 0 <= i < |frames| ==> frames[i].clockDelta >= SpawnInterval
    requires |frames| >= |s.pendingQueue|
    ensures Run(s, frames).final.pendingQueue == []
    ensures Run(s, frames).spawned == s.pendingQueue
    decreases |frames|
  {
    RunFifo(s, frames);
    if s.pendingQueue != [] {
      var step := Frame(s, frames[0].clockDelta, frames[0].settled);
      assert step.spawned.Some?;
      assert step.schedule.pendingQueue == s.pendingQueue[1..];
      if step.schedule.pendingQueue == [] {
        RunFifo(step.schedule, frames[1..]);
      } else {
        assert step.schedule.running;
        RunDrains(step.schedule, frames[1..]);
      }
    }
  }

  /**
   * With the queue empty and the pile settled in every frame, each of at
   * least `minDelta` seconds, the run ends once the frames add up to more
   * than SettleHold. (A running schedule never holds more than SettleHold:
   * the frame that passes it ends the run.)
   */
  lemma {:induction false} RunSettles(s: Schedule, frames: seq<FrameInput>, minDelta: real)
    requires ValidFrames(frames) && s.running && s.pendingQueue == [] && s.settleAccumulator <= SettleHold
    requires 0.0 < minDelta <= MaxFrameDelta
    requires forall i :: 0 <= i < |frames| ==> frames[i].clockDelta >= minDelta && frames[i].settled
    requires s.settleAccumulator + (|frames| as real) * minDelta > SettleHold
    ensures !Run(s, frames).final.running
    decreases |frames|
  {
    if frames != [] {
      var step := Frame(s, frames[0].clockDelta, frames[0].settled);
      var delta := FrameDelta(frames[0].clockDelta);
      assert step.schedule.settleAccumulator == s.settleAccumulator + delta;
      if step.schedule.running {
        assert step.schedule.settleAccumulator + ((|frames| - 1) as real) * minDelta > SettleHold;
        RunSettles(step.schedule, frames[1..], minDelta);
      } else {
        RunStopped(step.schedule, frames[1..]);
      }
    }
  }
}
