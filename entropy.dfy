/** The entropy side of geiger_gen2.hpp: the sample queue shared by the two
    cores (GeigerGen2::rndQueue), the pop used by the server (getRnd), the
    size query (getAvailable) and the producer loop run on core 1 (detect).
    The queue is modelled sequentially: each push and each pop is one atomic
    step, as the mutex makes them. */
module Entropy {
  import opened Common

  const MIN_RESULT: nat := 0
  const MAX_RESULT: nat := 15
  /** value of a sample returned when the queue is empty */
  const INVALID_RESULT: nat := MAX_RESULT + 1
  /** the eviction test is `size() > MAX_QUEUE_LEN`, so the queue can hold MAX_QUEUE_LEN + 1 samples */
  const MAX_QUEUE_LEN: nat := 10240

  /** std::pair<unsigned char, unsigned int>: the 4-bit value and the poll counter it was derived from */
  datatype Rng = Rng(value: uint8, counter: uint32)

  const SENTINEL: Rng := Rng(INVALID_RESULT as uint8, 0)

  /** The pair pushed when an event is detected while the poll counter is `roulette` */
  function Sample(roulette: uint32): (r: Rng)
    ensures MIN_RESULT <= r.value as int <= MAX_RESULT
    ensures r.counter == roulette && r.value as int == roulette as int % (MAX_RESULT + 1)
  {
    Rng((roulette % (MAX_RESULT as uint32 + 1)) as uint8, roulette)
  }

  /** A sample the producer can have pushed: its value is its counter modulo 16 */
  predicate IsSample(e: Rng) {
    e.value as int == e.counter as int % (MAX_RESULT + 1)
  }

  /** What every reachable queue satisfies */
  predicate ValidQueue(q: seq<Rng>) {
    && |q| <= MAX_QUEUE_LEN + 1
    && forall k :: 0 <= k < |q| ==> IsSample(q[k])
  }

  /** Counters strictly increase from the front to the back */
  predicate Increasing(q: seq<Rng>) {
    forall i, j :: 0 <= i < j < |q| ==> q[i].counter < q[j].counter
  }

  /** The producer's push: the front is dropped only when the queue already holds
      more than MAX_QUEUE_LEN samples, then the new sample goes to the back. */
  function Push(q: seq<Rng>, roulette: uint32): (r: seq<Rng>)
    ensures |r| == if |q| > MAX_QUEUE_LEN then |q| else |q| + 1
    ensures r[|r| - 1] == Sample(roulette)
    ensures forall k :: 0 <= k < |r| - 1 ==> r[k] == q[k + |q| + 1 - |r|]
  {
    var kept := if |q| > MAX_QUEUE_LEN then q[1..] else q;
    kept + [Sample(roulette)]
  }

  /** getRnd on a queue: the front and the rest, or the sentinel and the queue unchanged */
  function Pop(q: seq<Rng>): (r: (Rng, seq<Rng>))
    ensures q == [] ==> r == (SENTINEL, q)
    ensures q != [] ==> [r.0] + r.1 == q
  {
    if q == [] then (SENTINEL, q) else (q[0], q[1..])
  }

  lemma PushKeepsValid(q: seq<Rng>, roulette: uint32)
    requires ValidQueue(q)
    ensures ValidQueue(Push(q, roulette))
    ensures |Push(q, roulette)| <= MAX_QUEUE_LEN + 1
  {
    var r := Push(q, roulette);
    forall k | 0 <= k < |r| ensures IsSample(r[k]) {
      if k < |r| - 1 {
        assert r[k] == q[k + |q| + 1 - |r|];
      }
    }
  }

  /** Eviction happens exactly at MAX_QUEUE_LEN + 1 samples, and then only the oldest one goes */
  lemma EvictionOnlyAboveBound(q: seq<Rng>, roulette: uint32)
    ensures |q| <= MAX_QUEUE_LEN ==> Push(q, roulette) == q + [Sample(roulette)]
    ensures |q| > MAX_QUEUE_LEN ==> Push(q, roulette) == q[1..] + [Sample(roulette)]
  {
  }

  lemma PushKeepsIncreasing(q: seq<Rng>, roulette: uint32)
    requires Increasing(q)
    requires forall k :: 0 <= k < |q| ==> q[k].counter < roulette
    ensures Increasing(Push(q, roulette))
  {
    var r := Push(q, roulette);
    forall i, j | 0 <= i < j < |r| ensures r[i].counter < r[j].counter {
      assert r[i] == q[i + |q| + 1 - |r|];
      if j < |r| - 1 {
        assert r[j] == q[j + |q| + 1 - |r|];
      }
    }
  }

  /** Popping the empty queue changes nothing, so it can be repeated */
  lemma PopEmptyIdempotent()
    ensures Pop([]) == (SENTINEL, [])
    ensures Pop(Pop([]).1) == Pop([])
  {
  }

  /** A pop from a reachable queue never confuses a real sample with the sentinel */
  lemma PopDistinguishesSentinel(q: seq<Rng>)
    requires ValidQueue(q)
    ensures Pop(q).0.value as int <= MAX_RESULT <==> q != []
    ensures ValidQueue(Pop(q).1)
  {
    if q != [] {
      assert IsSample(q[0]);
    }
  }

  // ---------------------------------------------------------------------------
  // Interleavings of pushes and pops

  datatype QueueOp = Produce(roulette: uint32) | Consume

  /** Replays a schedule of producer pushes and consumer pops in order;
      the result is what the pops returned and the final queue. */
  function Run(q: seq<Rng>, ops: seq<QueueOp>): (seq<Rng>, seq<Rng>)
    decreases |ops|
  {
    if ops == [] then ([], q)
    else match ops[0]
      case Produce(r) => Run(Push(q, r), ops[1..])
      case Consume =>
        var (x, rest) := Pop(q);
        var (popped, final) := Run(rest, ops[1..]);
        ([x] + popped, final)
  }

  function Produced(ops: seq<QueueOp>): (r: seq<Rng>)
    ensures |r| <= |ops|
  {
    if ops == [] then []
    else if ops[0].Produce? then [Sample(ops[0].roulette)] + Produced(ops[1..])
    else Produced(ops[1..])
  }

  /** The pops that returned a real sample */
  function RealSamples(s: seq<Rng>): (r: seq<Rng>)
    ensures |r| <= |s|
  {
    if s == [] then []
    else if s[0].value as int == INVALID_RESULT then RealSamples(s[1..])
    else [s[0]] + RealSamples(s[1..])
  }

  /** Without eviction the queue loses, duplicates and reorders nothing: the real
      samples popped, followed by what is left, are the initial queue followed by
      everything pushed. */
  lemma {:induction false} RunPreservesFifo(q: seq<Rng>, ops: seq<QueueOp>)
    requires forall k :: 0 <= k < |q| ==> q[k].value as int <= MAX_RESULT
    requires |q| + |Produced(ops)| <= MAX_QUEUE_LEN + 1
    ensures RealSamples(Run(q, ops).0) + Run(q, ops).1 == q + Produced(ops)
    decreases |ops|
  {
    if ops != [] {
      match ops[0]
      case Produce(r) =>
        EvictionOnlyAboveBound(q, r);
        var q' := q + [Sample(r)];
        assert forall k :: 0 <= k < |q'| ==> q'[k].value as int <= MAX_RESULT;
        RunPreservesFifo(q', ops[1..]);
        assert Produced(ops) == [Sample(r)] + Produced(ops[1..]);
      case Consume =>
        RunPreservesFifo(Pop(q).1, ops[1..]);
        ConsumeStep(q, ops);
    }
  }

  /** RealSamples on a sequence with a given head */
  lemma RealSamplesCons(x: Rng, s: seq<Rng>)
    ensures RealSamples([x] + s) == if x.value as int == INVALID_RESULT then RealSamples(s) else [x] + RealSamples(s)
  {
    assert ([x] + s)[1..] == s;
  }

  /** A schedule that starts with a pop */
  lemma RunConsume(q: seq<Rng>, ops: seq<QueueOp>)
    requires ops != [] && ops[0] == Consume
    ensures Run(q, ops) == ([Pop(q).0] + Run(Pop(q).1, ops[1..]).0, Run(Pop(q).1, ops[1..]).1)
    ensures Produced(ops) == Produced(ops[1..])
  {
  }

  /** One pop at the head of the schedule, given the claim for the rest of it */
  lemma {:induction false} ConsumeStep(q: seq<Rng>, ops: seq<QueueOp>)
    requires ops != [] && ops[0] == Consume
    requires q != [] ==> q[0].value as int <= MAX_RESULT
    requires RealSamples(Run(Pop(q).1, ops[1..]).0) + Run(Pop(q).1, ops[1..]).1 == Pop(q).1 + Produced(ops[1..])
    ensures RealSamples(Run(q, ops).0) + Run(q, ops).1 == q + Produced(ops)
  {
    var (x, rest) := Pop(q);
    var (popped, final) := Run(rest, ops[1..]);
    RunConsume(q, ops);
    RealSamplesCons(x, popped);
    if q != [] {
      assert q == [x] + rest;
      assert [x] + RealSamples(popped) + final == [x] + (RealSamples(popped) + final);
    }
  }

  // ---------------------------------------------------------------------------
  // The producer loop

  /** The producer's static state: the queue, the free-running poll counter and the detection count */
  datatype Sampler = Sampler(queue: seq<Rng>, roulette: uint32, count: int)

  /** `roulette++` on an unsigned int */
  function NextRoulette(r: uint32): (n: uint32)
    ensures n as int == (r as int + 1) % 0x1_0000_0000
  {
    if r == 0xFFFF_FFFF then 0 else r + 1
  }

  /** The debounce loop started at reading k: the position after the first reading
      at or below `zero`, or None when no such reading remains. */
  function DebounceEnd(readings: seq<uint16>, k: nat, zero: uint32): (r: Option<nat>)
    decreases |readings| - k
    ensures r.Some? ==> k < r.value <= |readings| && readings[r.value - 1] as int <= zero as int
    ensures r.Some? ==> forall j :: k <= j < r.value - 1 ==> readings[j] as int > zero as int
    ensures r.None? ==> forall j :: k <= j < |readings| ==> readings[j] as int > zero as int
  {
    if k >= |readings| then None
    else if readings[k] as int > zero as int then DebounceEnd(readings, k + 1, zero)
    else Some(k + 1)
  }

  /** The detection loop run over the ADC readings from position k on. A reading
      above `vthr` pushes a sample, waits for the signal to drop to `zero` or
      below and counts the event; every completed iteration advances `roulette`.
      When the readings end inside a debounce, the loop is still waiting there. */
  function Poll(s: Sampler, readings: seq<uint16>, k: nat, vthr: uint32, zero: uint32): Sampler
    decreases |readings| - k
  {
    if k >= |readings| then s
    else if readings[k] as int > vthr as int then
      var queue := Push(s.queue, s.roulette);
      match DebounceEnd(readings, k + 1, zero)
      case None => s.(queue := queue)
      case Some(j) => Poll(Sampler(queue, NextRoulette(s.roulette), s.count + 1), readings, j, vthr, zero)
    else
      Poll(s.(roulette := NextRoulette(s.roulette)), readings, k + 1, vthr, zero)
  }

  /** Whatever the readings, the queue stays bounded and holds only genuine samples */
  lemma {:induction false} PollKeepsValid(s: Sampler, readings: seq<uint16>, k: nat, vthr: uint32, zero: uint32)
    requires ValidQueue(s.queue)
    ensures ValidQueue(Poll(s, readings, k, vthr, zero).queue)
    decreases |readings| - k
  {
    if k < |readings| {
      if readings[k] as int > vthr as int {
        PushKeepsValid(s.queue, s.roulette);
        var queue := Push(s.queue, s.roulette);
        match DebounceEnd(readings, k + 1, zero)
        case None =>
        case Some(j) =>
          PollKeepsValid(Sampler(queue, NextRoulette(s.roulette), s.count + 1), readings, j, vthr, zero);
      } else {
        PollKeepsValid(s.(roulette := NextRoulette(s.roulette)), readings, k + 1, vthr, zero);
      }
    }
  }

  /** As long as the poll counter does not wrap around, samples leave the queue
      in the order of detection */
  lemma {:induction false} PollKeepsIncreasing(s: Sampler, readings: seq<uint16>, k: nat, vthr: uint32, zero: uint32)
    requires Increasing(s.queue)
    requires forall i :: 0 <= i < |s.queue| ==> s.queue[i].counter < s.roulette
    requires s.roulette as int + (|readings| - k) < 0x1_0000_0000
    ensures Increasing(Poll(s, readings, k, vthr, zero).queue)
    decreases |readings| - k
  {
    if k < |readings| {
      if readings[k] as int > vthr as int {
        PushKeepsIncreasing(s.queue, s.roulette);
        var queue := Push(s.queue, s.roulette);
        match DebounceEnd(readings, k + 1, zero)
        case None =>
        case Some(j) =>
          var next := Sampler(queue, NextRoulette(s.roulette), s.count + 1);
          forall i | 0 <= i < |queue| ensures queue[i].counter < next.roulette {
            if i < |queue| - 1 {
              assert queue[i] == s.queue[i + |s.queue| + 1 - |queue|];
            }
          }
          PollKeepsIncreasing(next, readings, j, vthr, zero);
      } else {
        PollKeepsIncreasing(s.(roulette := NextRoulette(s.roulette)), readings, k + 1, vthr, zero);
      }
    }
  }

  /** GeigerGen2's static members that the model keeps: the queue, the counters
      and the two thresholds. The mutex, the GPIO pin and the unused
      genCount, lastCount and lastRnd are not part of this model. */
  class GeigerGen2 {
    var rndQueue: seq<Rng>
    var roulette: uint32
    var count: int
    const vthreshold: uint32
    const zerothreshold: uint32

    function State(): Sampler
      reads this
    {
      Sampler(rndQueue, roulette, count)
    }

    /** The queue invariant every reachable state keeps */
    ghost predicate Valid()
      reads this
    {
      ValidQueue(rndQueue)
    }

    constructor (vthr: uint32, zero: uint32)
      ensures Valid()
      ensures rndQueue == [] && roulette == 0 && count == 0
      ensures vthreshold == vthr && zerothreshold == zero
    {
      rndQueue, roulette, count := [], 0, 0;
      vthreshold, zerothreshold := vthr, zero;
    }

    /** getRnd: the oldest sample, removed; the sentinel when the queue is empty */
    method GetRnd() returns (ret: Rng)
      requires Valid()
      modifies this`rndQueue
      ensures Valid()
      ensures (ret, rndQueue) == Pop(old(rndQueue))
    {
      PopDistinguishesSentinel(rndQueue);
      ret := SENTINEL;
      if rndQueue != [] {
        ret := rndQueue[0];
        rndQueue := rndQueue[1..];
      }
    }

    /** getAvailable */
    method GetAvailable() returns (n: nat)
      ensures n == |rndQueue|
    {
      n := |rndQueue|;
    }

    /** The locked section of detect's loop */
    method PushSample()
      requires Valid()
      modifies this`rndQueue
      ensures Valid()
      ensures rndQueue == Push(old(rndQueue), roulette)
    {
      PushKeepsValid(rndQueue, roulette);
      if |rndQueue| > MAX_QUEUE_LEN {
        rndQueue := rndQueue[1..];
      }
      rndQueue := rndQueue + [Sample(roulette)];
    }

    /** The body of detect's thread, run over a finite prefix of the ADC readings */
    method Detect(readings: seq<uint16>)
      requires Valid()
      modifies this`rndQueue, this`roulette, this`count
      ensures Valid()
      ensures State() == Poll(old(State()), readings, 0, vthreshold, zerothreshold)
    {
      var k := 0;
      while k < |readings|
        invariant 0 <= k <= |readings|
        invariant Valid()
        invariant Poll(State(), readings, k, vthreshold, zerothreshold)
               == Poll(old(State()), readings, 0, vthreshold, zerothreshold)
        decreases |readings| - k
      {
        ghost var s0, k0 := State(), k;
        var result := readings[k];
        k := k + 1;
        if result as int > vthreshold as int {
          PushSample();
          while k < |readings| && readings[k] as int > zerothreshold as int
            invariant k0 < k <= |readings|
            invariant DebounceEnd(readings, k, zerothreshold) == DebounceEnd(readings, k0 + 1, zerothreshold)
            decreases |readings| - k
          {
            k := k + 1;
          }
          if k == |readings| {
            // the readings ran out while the thread still waits for the pulse to end
            return;
          }
          k := k + 1;
          count := count + 1;
        }
        roulette := NextRoulette(roulette);
        assert Poll(State(), readings, k, vthreshold, zerothreshold)
            == Poll(s0, readings, k0, vthreshold, zerothreshold);
      }
    }
  }
}
