/**
 Co-simulation checkpoints, cosim.cpp: which cycles are recorded, the reporting ring, and
 the handshake by which `step N` lets a parked guest cross N checkpoints.
 */
module Cosim {
  import opened Common

  // ── Which cycles ──────────────────────────────────────────────────

  const RING: nat := 8192

  /** The boundaries a clock at `now` has crossed, the next one being `next`. */
  function Crossed(next: nat, stride: nat, now: nat): seq<nat>
    requires stride > 0
    decreases if now >= next then now - next + 1 else 0
  {
    if now < next then [] else [next] + Crossed(next + stride, stride, now)
  }

  function NextAfter(next: nat, stride: nat, now: nat): nat
    requires stride > 0
  {
    next + |Crossed(next, stride, now)| * stride
  }

  /** The recorded cycles are start, start + stride, ... up to the clock, and the next boundary is past it. */
  lemma {:induction false} CrossedExact(next: nat, stride: nat, now: nat)
    requires stride > 0
    ensures var l := Crossed(next, stride, now);
            && (forall k :: 0 <= k < |l| ==> l[k] == next + k * stride <= now)
            && NextAfter(next, stride, now) > now
    decreases if now >= next then now - next + 1 else 0
  {
    if now >= next {
      CrossedExact(next + stride, stride, now);
      var l, rest := Crossed(next, stride, now), Crossed(next + stride, stride, now);
      forall k | 0 <= k < |l| ensures l[k] == next + k * stride <= now {
        if k > 0 {
          assert l[k] == rest[k - 1];
          OneMore(k - 1, stride);
        }
      }
      OneMore(|rest|, stride);
    }
  }

  lemma OneMore(k: nat, stride: nat)
    ensures (k + 1) * stride == k * stride + stride
  {
  }

  lemma CrossedOne(next: nat, stride: nat, now: nat)
    requires stride > 0 && next <= now
    ensures Crossed(next, stride, now) == [next] + Crossed(next + stride, stride, now)
    ensures NextAfter(next, stride, now) == NextAfter(next + stride, stride, now)
  {
    OneMore(|Crossed(next + stride, stride, now)|, stride);
  }

  lemma NothingCrossed(next: nat, stride: nat, now: nat)
    requires stride > 0 && now < next
    ensures Crossed(next, stride, now) == [] && NextAfter(next, stride, now) == next
  {
  }

  lemma Shifted(a: seq<nat>, x: nat, b: seq<nat>)
    ensures (a + [x]) + b == a + ([x] + b)
  {
  }

  /** Two ticks record what one tick to the later clock records. */
  lemma {:induction false} TwoTicks(next: nat, stride: nat, a: nat, b: nat)
    requires stride > 0 && a <= b
    ensures Crossed(next, stride, b) == Crossed(next, stride, a) + Crossed(NextAfter(next, stride, a), stride, b)
    decreases if a >= next then a - next + 1 else 0
  {
    if a >= next {
      TwoTicks(next + stride, stride, a, b);
      OneMore(|Crossed(next + stride, stride, a)|, stride);
    }
  }

  /** The clock values at which the hook is called. */
  predicate Ascending(from: nat, ticks: seq<nat>)
    decreases |ticks|
  {
    ticks != [] ==> from <= ticks[0] && Ascending(ticks[0], ticks[1..])
  }

  function Recorded(next: nat, stride: nat, ticks: seq<nat>): seq<nat>
    requires stride > 0
    decreases |ticks|
  {
    if ticks == [] then []
    else Crossed(next, stride, ticks[0]) + Recorded(NextAfter(next, stride, ticks[0]), stride, ticks[1..])
  }

  /** However the clock's advance is cut into ticks, the cycles recorded are those of its final value. */
  lemma {:induction false} PartitionIndependent(next: nat, stride: nat, from: nat, ticks: seq<nat>)
    requires stride > 0 && ticks != [] && Ascending(from, ticks)
    ensures Recorded(next, stride, ticks) == Crossed(next, stride, ticks[|ticks| - 1])
    decreases |ticks|
  {
    var after := NextAfter(next, stride, ticks[0]);
    if |ticks| == 1 {
      assert Recorded(after, stride, ticks[1..]) == [];
    } else {
      PartitionIndependent(after, stride, ticks[0], ticks[1..]);
      LastIsLater(ticks[0], ticks[1..]);
      TwoTicks(next, stride, ticks[0], ticks[|ticks| - 1]);
    }
  }

  lemma {:induction false} LastIsLater(from: nat, ticks: seq<nat>)
    requires ticks != [] && Ascending(from, ticks)
    ensures from <= ticks[|ticks| - 1]
    decreases |ticks|
  {
    if |ticks| > 1 {
      LastIsLater(ticks[0], ticks[1..]);
    }
  }

  /** One row of the report. */
  datatype Entry = Entry(cp: nat, cycle: nat)

  /** The hook and the ring it fills. */
  class Recorder {
    var cp: nat
    var stride: nat
    var nextCp: nat
    const ring: array<Entry>
    ghost var cycles: seq<nat>

    ghost predicate Valid()
      reads this`cp, this`cycles, ring
    {
      && ring.Length == RING && cp == |cycles|
      && forall k :: 0 <= k < cp && k + RING >= cp ==> ring[(k + 1) % RING] == Entry(k + 1, cycles[k])
    }

    constructor (start: nat, stride: nat)
      ensures Valid() && fresh(ring) && cycles == [] && nextCp == start && this.stride == stride
    {
      cp, nextCp, cycles := 0, start, [];
      this.stride := stride;
      ring := new Entry[RING](_ => Entry(0, 0));
    }

    /** `record_checkpoint`, but for the hash and the parking. */
    method Record(cycle: nat)
      requires Valid()
      modifies this`cp, this`cycles, ring
      ensures Valid() && cycles == old(cycles) + [cycle]
    {
      cp := cp + 1;
      ring[cp % RING] := Entry(cp, cycle);
      cycles := cycles + [cycle];
    }

    /** `cosim_on_tick`: a stride of zero counts as one. */
    method OnTick(now: nat)
      requires Valid()
      modifies this`cp, this`cycles, this`nextCp, ring
      ensures Valid()
      ensures var n := Max(old(stride), 1);
              && cycles == old(cycles) + Crossed(old(nextCp), n, now)
              && nextCp == NextAfter(old(nextCp), n, now)
    {
      hide Valid, Crossed, NextAfter;
      var n := if stride != 0 then stride else 1;
      while now >= nextCp
        invariant Valid() && stride == old(stride)
        invariant cycles + Crossed(nextCp, n, now) == old(cycles) + Crossed(old(nextCp), n, now)
        invariant NextAfter(nextCp, n, now) == NextAfter(old(nextCp), n, now)
        decreases if now >= nextCp then now - nextCp + 1 else 0
      {
        CrossedOne(nextCp, n, now);
        Shifted(cycles, nextCp, Crossed(nextCp + n, n, now));
        Record(nextCp);
        nextCp := nextCp + n;
      }
      NothingCrossed(nextCp, n, now);
    }

    /** The `window` command: the newest rows, oldest first, as many as were asked for and are still held. */
    method Window(asked: nat) returns (rows: seq<Entry>)
      requires Valid()
      ensures |rows| == Min(asked, Min(8192, |cycles|))
      ensures forall i :: 0 <= i < |rows| ==>
                var k := |cycles| - |rows| + i; rows[i] == Entry(k + 1, cycles[k])
    {
      var n := asked;
      if n > RING { n := RING; }
      if n > cp { n := cp; }
      rows := [];
      for i := 0 to n
        invariant |rows| == i
        invariant forall j :: 0 <= j < i ==> rows[j] == Entry(cp - n + j + 1, cycles[cp - n + j])
      {
        var c := cp - (n - 1 - i);
        assert c == (cp - n + i) + 1;
        rows := rows + [ring[c % RING]];
      }
    }
  }
}
