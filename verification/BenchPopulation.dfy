/**
 The event population of a benchmark run: `Bench::Run` and `Bench::Cb` of utils/bench-scheduler.cc. The simulator
 runs its events by time, and events of equal time in the order in which they were scheduled. Delays are given by
 a random stream, here any function of the number of the draw.
 */
module BenchPopulation {

  /** The times of the scheduled events, in the order in which they will run. */
  ghost predicate InOrder(queue: seq<nat>, now: nat) {
    && (forall i :: 0 <= i < |queue| ==> now <= queue[i])
    && forall i, j :: 0 <= i < j < |queue| ==> queue[i] <= queue[j]
  }

  /** A new event runs behind those of the same time. */
  function Insert(queue: seq<nat>, at: nat): (r: seq<nat>)
    ensures multiset(r) == multiset(queue) + multiset{at}
    ensures |r| == |queue| + 1
  {
    if queue == [] || at < queue[0] then [at] + queue
    else
      var r := [queue[0]] + Insert(queue[1..], at);
      assert queue == [queue[0]] + queue[1..];
      r
  }

  lemma {:induction false} InsertKeepsOrder(queue: seq<nat>, at: nat, now: nat)
    requires InOrder(queue, now) && now <= at
    ensures InOrder(Insert(queue, at), now)
  {
    if queue == [] || at < queue[0] {
    } else {
      InsertKeepsOrder(queue[1..], at, queue[0]);
    }
  }

  function Draws(rand: nat -> nat, first: nat, n: nat): seq<nat> {
    seq(n, i requires 0 <= i < n => rand(first + i))
  }

  class Bench {
    const population: nat
    const total: nat
    var count: nat
    // The simulator.
    var now: nat
    var queue: seq<nat>
    var stopped: bool
    /** How many delays were drawn. */
    var draws: nat
    /** How many events have run. */
    ghost var executed: nat

    constructor (population: nat, total: nat)
      ensures this.population == population && this.total == total && Idle()
    {
      this.population, this.total, count := population, total, 0;
      now, queue, stopped, draws, executed := 0, [], false, 0, 0;
    }

    /** The simulator has nothing to run, as after its destruction. */
    ghost predicate Idle()
      reads this
    {
      now == 0 && queue == [] && !stopped
    }

    method Schedule(delay: nat)
      requires InOrder(queue, now)
      modifies `queue
      ensures InOrder(queue, now) && |queue| == old(|queue|) + 1
      ensures var at: nat := now + delay; multiset(queue) == multiset(old(queue)) + multiset{at}
    {
      hide InOrder, Insert;
      InsertKeepsOrder(queue, now + delay, now);
      queue := Insert(queue, now + delay);
    }

    /** The event function: every event but the one that stops the simulator puts another into its place. */
    method Cb(rand: nat -> nat)
      requires InOrder(queue, now) && !stopped && count <= total
      modifies `count, `queue, `stopped, `draws
      ensures InOrder(queue, now)
      ensures stopped <==> old(count) == total
      ensures stopped ==> count == old(count) && queue == old(queue)
      ensures !stopped ==> count == old(count) + 1 && |queue| == old(|queue|) + 1
      ensures draws == old(draws) + if stopped then 0 else 1
      ensures !stopped ==>
        var at: nat := now + rand(old(draws)); multiset(queue) == multiset(old(queue)) + multiset{at}
    {
      if count >= total {
        stopped := true;
        return;
      }
      Schedule(rand(draws));
      draws := draws + 1;
      count := count + 1;
    }

    /** What holds between two events: the population is complete, and every event that has run is counted. */
    ghost predicate Running()
      reads this
    {
      && InOrder(queue, now) && count <= total
      && (if stopped then |queue| == population - 1 && count == total && executed == total + 1
          else |queue| == population && executed == count)
    }

    /** One event of the simulator. */
    method RunOneEvent(rand: nat -> nat)
      requires Running() && queue != [] && !stopped
      modifies `count, `queue, `stopped, `draws, `now, `executed
      ensures Running() && now == old(queue[0]) >= old(now)
      ensures !stopped ==>
        var at: nat := now + rand(old(draws)); multiset(queue) == multiset(old(queue)[1..]) + multiset{at}
      ensures if stopped then old(count) == total == count && draws == old(draws)
              else count == old(count) + 1 && draws == old(draws) + 1
    {
      now, queue := queue[0], queue[1..];
      executed := executed + 1;
      Cb(rand);
    }

    /** The first part of a run: one event for each of the next draws. */
    method Populate(rand: nat -> nat)
      requires Idle()
      modifies `queue, `draws
      ensures InOrder(queue, now) && |queue| == population && draws == old(draws) + population
      ensures multiset(queue) == multiset(Draws(rand, old(draws), population))
    {
      for i := 0 to population
        invariant InOrder(queue, now) && |queue| == i && draws == old(draws) + i
        invariant multiset(queue) == multiset(Draws(rand, old(draws), i))
      {
        Schedule(rand(draws));
        draws := draws + 1;
        assert Draws(rand, old(draws), i + 1) == Draws(rand, old(draws), i) + [rand(old(draws) + i)];
      }
    }

    /**
     A run ends. If there is a population at all then it executes the requested number of events and one more,
     which stops the simulator; the result reports the requested number. Without a population nothing happens.
     */
    method Run(rand: nat -> nat) returns (pop: nat, events: nat)
      requires Idle()
      modifies `count, `queue, `stopped, `draws, `now, `executed
      ensures Idle() && pop == population
      ensures events == count == (if population == 0 then 0 else total)
      ensures executed == (if population == 0 then 0 else total + 1)
      ensures draws == old(draws) + population + events
    {
      count, executed := 0, 0;
      Populate(rand);
      while !stopped && queue != []
        invariant Running() && (population == 0 ==> count == 0)
        invariant draws == old(draws) + population + count
        decreases total - count, !stopped
      {
        RunOneEvent(rand);
      }
      now, queue, stopped := 0, [], false;  // Simulator::Destroy
      pop, events := population, count;
    }
  }
}
