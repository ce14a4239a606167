/**
The event loop that `utils/bench-scheduler.cc` measures: a population of events, each of
which schedules its successor when it executes, until a total has been executed.
*/
module BenchEvents {

  ghost predicate Sorted(times: seq<nat>) {
    forall i, j :: 0 <= i < j < |times| ==> times[i] <= times[j]
  }

  // Where a new event goes: behind those that are not later.
  function Insert(times: seq<nat>, t: nat): (r: seq<nat>)
    ensures |r| == |times| + 1
  {
    if times == [] || t < times[0] then [t] + times else [times[0]] + Insert(times[1..], t)
  }

  // The new event is put in behind all that are not later, and before the others.
  ghost predicate PutIn(times: seq<nat>, t: nat, all: seq<nat>) {
    exists k :: 0 <= k <= |times| && all == times[..k] + [t] + times[k..]
                && (forall i :: 0 <= i < k ==> times[i] <= t) && (forall i :: k <= i < |times| ==> t < times[i])
  }

  function Place(times: seq<nat>, t: nat): (k: nat)
    ensures k <= |times|
  {
    if times == [] || t < times[0] then 0 else 1 + Place(times[1..], t)
  }

  lemma {:induction false} InsertPutsIn(times: seq<nat>, t: nat)
    requires Sorted(times)
    ensures PutIn(times, t, Insert(times, t))
  {
    InsertSplits(times, t);
    PlaceBetween(times, t);
  }

  lemma {:induction false} InsertSplits(times: seq<nat>, t: nat)
    ensures Insert(times, t) == times[..Place(times, t)] + [t] + times[Place(times, t)..]
  {
    if times == [] || t < times[0] {
      assert times[..0] + [t] + times[0..] == [t] + times;
    } else {
      InsertSplits(times[1..], t);
      var k := Place(times[1..], t);
      assert times[..k + 1] == [times[0]] + times[1..][..k];
    }
  }

  lemma {:induction false} PlaceBetween(times: seq<nat>, t: nat)
    requires Sorted(times)
    ensures forall i :: 0 <= i < |times| ==> (i < Place(times, t) <==> times[i] <= t)
  {
    if times != [] && times[0] <= t {
      PlaceBetween(times[1..], t);
      assert forall i :: 0 < i < |times| ==> times[i] == times[1..][i - 1];
    }
  }

  lemma {:induction false} InsertKeepsOrder(times: seq<nat>, t: nat, low: nat)
    requires Sorted(times) && low <= t && (forall i :: 0 <= i < |times| ==> low <= times[i])
    ensures Sorted(Insert(times, t)) && forall i :: 0 <= i < |Insert(times, t)| ==> low <= Insert(times, t)[i]
  {
    if times == [] || t < times[0] {
    } else {
      InsertKeepsOrder(times[1..], t, times[0]);
    }
  }

  // The simulator: the pending events by time, the clock, and the stop flag.
  class Simulator {
    var pending: seq<nat>
    var now: nat
    var stopped: bool

    // Events are kept in order, and none lies in the past.
    ghost predicate Valid()
      reads this
    {
      Sorted(pending) && forall i :: 0 <= i < |pending| ==> now <= pending[i]
    }

    constructor ()
      ensures Valid() && pending == [] && now == 0 && !stopped
    {
      pending, now, stopped := [], 0, false;
    }

    method Schedule(delay: nat)
      requires Valid()
      modifies this`pending
      ensures Valid() && |pending| == |old(pending)| + 1
      ensures PutIn(old(pending), now + delay, pending)
    {
      InsertPutsIn(pending, now + delay);
      InsertKeepsOrder(pending, now + delay, now);
      pending := Insert(pending, now + delay);
    }

    method Stop()
      modifies this`stopped
      ensures stopped
    {
      stopped := true;
    }

    // Takes the next event and moves the clock to it, never back.
    method RemoveNext()
      requires Valid() && pending != []
      modifies this`pending, this`now
      ensures Valid() && |pending| == |old(pending)| - 1
      ensures now == old(pending)[0] && old(now) <= now && pending == old(pending)[1..]
    {
      now := pending[0];
      pending := pending[1..];
    }
  }

  datatype Result = Result(pop: nat, events: nat)

  class Bench {
    const population: nat
    const total: nat
    const delays: nat -> nat  // what the random stream yields
    var count: nat
    var drawn: nat

    constructor (population: nat, total: nat, delays: nat -> nat)
      ensures this.population == population && this.total == total && this.delays == delays
    {
      this.population, this.total, this.delays := population, total, delays;
      count, drawn := 0, 0;
    }

    method GetValue() returns (delay: nat)
      modifies this`drawn
      ensures delay == delays(old(drawn)) && drawn == old(drawn) + 1
    {
      delay := delays(drawn);
      drawn := drawn + 1;
    }

    // The event function: with the total reached it stops the simulation, otherwise it
    // schedules its successor and counts itself.
    method Cb(sim: Simulator)
      requires sim.Valid() && !sim.stopped
      modifies this, sim`pending, sim`stopped
      ensures sim.Valid()
      ensures sim.stopped <==> old(count) >= total
      ensures sim.stopped ==> count == old(count) && sim.pending == old(sim.pending)
      ensures !sim.stopped ==> count == old(count) + 1 && |sim.pending| == |old(sim.pending)| + 1
      ensures !sim.stopped ==> PutIn(old(sim.pending), sim.now + delays(old(drawn)), sim.pending)
      ensures drawn == old(drawn) + if sim.stopped then 0 else 1
    {
      if count >= total {
        sim.Stop();
        return;
      }
      var after := GetValue();
      sim.Schedule(after);
      count := count + 1;
    }

    // One run.  Pending and executing events always make the population; the run ends after
    // one callback more than the total, whatever the delays are, and reports the total.
    method Run() returns (result: Result, ghost callbacks: nat, ghost left: nat)
      modifies this
      ensures result.pop == population && result.events == count
      ensures population > 0 ==> result.events == total && callbacks == total + 1 && left == population - 1
      ensures population == 0 ==> result.events == 0 && callbacks == 0 && left == 0
      ensures drawn == old(drawn) + if population == 0 then 0 else population + total
    {
      var sim := new Simulator();
      count := 0;
      for i := 0 to population
        invariant sim.Valid() && !sim.stopped && |sim.pending| == i && count == 0
        invariant drawn == old(drawn) + i
      {
        var at := GetValue();
        sim.Schedule(at);
      }
      callbacks := 0;
      while |sim.pending| > 0 && !sim.stopped
        invariant sim.Valid()
        invariant !sim.stopped ==> |sim.pending| == population && count == callbacks <= total
        invariant sim.stopped ==> |sim.pending| + 1 == population && count == total && callbacks == total + 1
        invariant population == 0 ==> count == 0 && callbacks == 0
        invariant drawn == old(drawn) + population + count
        decreases total + 1 - callbacks
      {
        sim.RemoveNext();
        Cb(sim);
        callbacks := callbacks + 1;
      }
      left := |sim.pending|;
      result := Result(population, count);
    }
  }
}
