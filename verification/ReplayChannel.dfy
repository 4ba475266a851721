/**
 The two ends of the replay ring as they run: `put` and `get` copy in at most two pieces,
 `enqueue` and the worker's take are the steps of module ReplayRing run without interruption.
 */
module ReplayChannel {
  import opened Common
  import opened ReplayRing
  import opened ReplayRuns
  import ReplayHash

  lemma PayloadNone()
    ensures Payload([]) == []
  {
  }

  lemma PayloadFrom(parts: seq<Part>, i: nat)
    requires i < |parts|
    ensures Payload(parts[i..]) ==
            if parts[i].Bad() then [] else (if parts[i].Bytes? then parts[i].data else []) + Payload(parts[i + 1..])
  {
    assert parts[i..][1..] == parts[i + 1..];
  }

  lemma WireIs(call: Call, laid: seq<Byte>)
    requires call.WF() && |laid| >= HEADER_BYTES && laid[..HEADER_BYTES] == EncodeCommand(call.cmd, call.pad)
    requires laid[HEADER_BYTES..] == Payload(call.parts)
    ensures laid == Wire(call)
  {
  }

  lemma FitsInWire(call: Call, laid: seq<Byte>, rest: seq<Part>)
    requires call.WF() && |laid| >= HEADER_BYTES && Payload(call.parts) == laid[HEADER_BYTES..] + Payload(rest)
    ensures |laid| <= |Wire(call)|
  {
  }

  /** `laid` is the header and the first `i` parts, none of them bad. */
  ghost predicate Putting(call: Call, laid: seq<Byte>, i: nat) {
    && call.WF() && i <= |call.parts| && (forall k :: 0 <= k < i ==> !call.parts[k].Bad())
    && HEADER_BYTES <= |laid| <= |Wire(call)| && laid[..HEADER_BYTES] == EncodeCommand(call.cmd, call.pad)
    && Payload(call.parts) == laid[HEADER_BYTES..] + Payload(call.parts[i..])
  }

  lemma PutFirst(call: Call)
    requires call.WF()
    ensures Putting(call, EncodeCommand(call.cmd, call.pad), 0)
  {
    hide EncodeCommand, Payload;
    assert call.parts[0..] == call.parts;
  }

  lemma PutNext(call: Call, laid: seq<Byte>, i: nat)
    requires Putting(call, laid, i) && i < |call.parts| && !call.parts[i].Bad()
    ensures Putting(call, laid + (if call.parts[i].Bytes? then call.parts[i].data else []), i + 1)
  {
    var data := if call.parts[i].Bytes? then call.parts[i].data else [];
    hide EncodeCommand, Payload, Wire, Total;
    PayloadFrom(call.parts, i);
    LaidOn(laid, data, Payload(call.parts[i + 1..]));
    FitsInWire(call, laid + data, call.parts[i + 1..]);
  }

  lemma LaidOn(laid: seq<Byte>, data: seq<Byte>, rest: seq<Byte>)
    requires |laid| >= HEADER_BYTES
    ensures (laid + data)[..HEADER_BYTES] == laid[..HEADER_BYTES]
    ensures laid[HEADER_BYTES..] + (data + rest) == (laid + data)[HEADER_BYTES..] + rest
  {
  }

  /** It is the whole wire image at the first bad part, or after the last. */
  lemma PutLast(call: Call, laid: seq<Byte>, i: nat)
    requires Putting(call, laid, i) && (i < |call.parts| ==> call.parts[i].Bad())
    ensures laid == Wire(call) && (call.Clean() <==> i == |call.parts|)
  {
    hide EncodeCommand, Wire, Total;
    if i < |call.parts| {
      PayloadFrom(call.parts, i);
    } else {
      assert call.parts[i..] == [];
      PayloadNone();
    }
    hide Payload;
    WireIs(call, laid);
  }

  lemma PuttingFits(call: Call, laid: seq<Byte>, i: nat)
    requires Putting(call, laid, i)
    ensures HEADER_BYTES <= |laid| <= |Wire(call)| <= HEADER_BYTES + call.cmd.size
    ensures i < |call.parts| && !call.parts[i].Bad() && call.parts[i].Bytes? ==>
              |laid| + |call.parts[i].data| <= HEADER_BYTES + call.cmd.size
  {
    WireSize(call);
    if i < |call.parts| && !call.parts[i].Bad() {
      PutNext(call, laid, i);
    }
    hide EncodeCommand, Payload, Wire, Total;
  }

  /** The fields of `t` that the two ends share, told from those of `s`. */
  predicate Shares(s: State, t: State, ring: seq<Byte>, head: nat, error: Code, full: bool)
    requires s.Shape() && t.Shape()
  {
    t.ring == ring && t.Head() == head && t.Tail() == s.Tail() && t.error == error && t.full == full && t.stop == s.stop
  }

  /** How an enqueue ends, refusal by refusal, in the state `t`. */
  ghost predicate EnqueueEnds(s: State, call: Call, t: State)
    requires s.Shape() && t.Shape() && call.WF()
  {
    var need := HEADER_BYTES + call.cmd.size;
    if s.stop || s.error != OK then
      Shares(s, t, s.ring, s.Head(), s.error, s.full) && t.accepted == s.accepted
    else if need >= QUEUE_BYTES then
      Shares(s, t, s.ring, s.Head(), INVALID, s.full) && t.accepted == s.accepted
    else if need > FreeSpace(s.Tail(), s.Head()) then
      Shares(s, t, s.ring, s.Head(), OK, true) && t.accepted == s.accepted
    else
      var ring := Written(s.ring, s.Head(), Wire(call));
      if !call.Clean() then Shares(s, t, ring, s.Head(), INVALID, s.full) && t.accepted == s.accepted
      else Shares(s, t, ring, (s.Head() + |Wire(call)|) % QUEUE_BYTES, OK, false) && t.accepted == s.accepted + [call]
  }

  lemma EnqueueEnding(s: State, call: Call)
    requires s.Shape() && s.producer.Idle? && s.tailsSeen < |s.tails| && call.WF()
    ensures EnqueueEnds(s, call, EnqueueAlone(s, call))
  {
    hide Wire, Written, EnqueueAlone, EnqueueEnds, StartStep, PublishStep, Laid;
    if StartStep(s, call, |s.tails| - 1, false).producer.Writing? {
      EnqueueWrites(s, call);
      WritingEnds(s, call);
    } else {
      EnqueueRefused(s, call);
      RefusedEnds(s, call);
    }
  }

  lemma RefusedEnds(s: State, call: Call)
    requires s.Shape() && s.producer.Idle? && s.tailsSeen < |s.tails| && call.WF()
    requires StartStep(s, call, |s.tails| - 1, false).producer.Idle?
    ensures EnqueueEnds(s, call, StartStep(s, call, |s.tails| - 1, false))
  {
    hide Wire, Written, FreeSpace, Payload, EncodeCommand, Total;
  }

  lemma WritingEnds(s: State, call: Call)
    requires s.Shape() && s.producer.Idle? && s.tailsSeen < |s.tails| && call.WF()
    requires StartStep(s, call, |s.tails| - 1, false).producer.Writing?
    ensures EnqueueEnds(s, call, PublishStep(Laid(s, call)))
  {
    hide Wire, Written, FreeSpace, Payload, EncodeCommand, Total;
  }

  /** A stretch of the ring in the two pieces it is copied in. */
  lemma TwoPieces(ring: seq<Byte>, at: nat, n: nat)
    requires |ring| == QUEUE_BYTES && at < QUEUE_BYTES && n <= QUEUE_BYTES
    ensures n <= QUEUE_BYTES - at ==> Taken(ring, at, n) == ring[at..at + n]
    ensures n > QUEUE_BYTES - at ==> Taken(ring, at, n) == ring[at..QUEUE_BYTES] + ring[..n - (QUEUE_BYTES - at)]
  {
    if n > QUEUE_BYTES - at {
      assert |ring[at..QUEUE_BYTES] + ring[..n - (QUEUE_BYTES - at)]| == n;
    }
  }

  class Ring {
    const ring: array<Byte>
    var readPos: nat
    var writePos: nat
    var error: Code
    var full: bool
    var stop: bool
    var head: nat

    ghost predicate Valid()
      reads this
    {
      ring.Length == QUEUE_BYTES && readPos < QUEUE_BYTES && writePos < QUEUE_BYTES && head == writePos
    }

    /** The fields hold what the interleaved model's state says they hold. */
    ghost predicate Matches(s: State)
      reads this, ring
    {
      && Valid() && s.Shape() && ring[..] == s.ring && readPos == s.Tail() && writePos == s.Head()
      && error == s.error && full == s.full && stop == s.stop
    }

    constructor ()
      ensures Matches(Fresh(ring[..])) && fresh(ring)
    {
      ring := new Byte[QUEUE_BYTES](_ => 0);
      readPos, writePos, head, error, full, stop := 0, 0, 0, OK, false, false;
    }

    method FreeBytes() returns (n: nat)
      requires Valid()
      ensures n == FreeSpace(readPos, head)
    {
      n := (readPos + QUEUE_BYTES - head - 1) % QUEUE_BYTES;
    }

    method Put(at: nat, data: seq<Byte>)
      requires Valid() && at < QUEUE_BYTES && |data| <= QUEUE_BYTES
      modifies ring
      ensures ring[..] == Written(old(ring[..]), at, data)
    {
      if data == [] {
        return;
      }
      var first := Min(|data|, QUEUE_BYTES - at);
      forall i | 0 <= i < first {
        ring[at + i] := data[i];
      }
      if |data| > first {
        forall i | 0 <= i < |data| - first {
          ring[i] := data[first + i];
        }
      }
      forall k | 0 <= k < QUEUE_BYTES ensures ring[k] == Written(old(ring[..]), at, data)[k] {
        WrittenAt(old(ring[..]), at, data, k);
      }
    }

    method Get(at: nat, n: nat) returns (data: seq<Byte>)
      requires Valid() && at < QUEUE_BYTES && n <= QUEUE_BYTES
      ensures data == Taken(ring[..], at, n)
    {
      if n == 0 {
        return [];
      }
      var first := Min(n, QUEUE_BYTES - at);
      data := ring[at..at + first];
      if n > first {
        data := data + ring[..n - first];
      }
    }

    /** `hash_ring`: at most two updates, and the hash of the bytes as if they lay together. */
    method HashRing(h: ReplayHash.StreamingHash, at: nat, n: nat)
      requires Valid() && h.Valid() && at < QUEUE_BYTES && n <= QUEUE_BYTES && h.tail != ring
      modifies h, h.tail
      ensures h.Valid() && h.State() == ReplayHash.Update(old(h.State()), Taken(ring[..], at, n))
    {
      hide ReplayHash.Update, Taken;
      var first := Min(n, QUEUE_BYTES - at);
      TwoPieces(ring[..], at, n);
      ghost var before := h.State();
      h.Feed(ring[at..at + first]);
      if n > first {
        h.Feed(ring[..n - first]);
        ReplayHash.UpdateAppend(before, ring[at..at + first], ring[..n - first]);
      }
    }

    method Fail(code: Code)
      modifies this`error
      ensures error == if old(error) == OK then code else old(error)
    {
      if error == OK {
        error := code;
      }
    }

    /** The header and the parts in turn, up to the first bad part. */
    method PutParts(call: Call) returns (at: nat, clean: bool)
      requires Valid() && call.WF() && HEADER_BYTES + call.cmd.size < QUEUE_BYTES
      modifies ring
      ensures clean == call.Clean()
      ensures ring[..] == Written(old(ring[..]), head, Wire(call))
      ensures at < QUEUE_BYTES && (clean ==> at == (head + |Wire(call)|) % QUEUE_BYTES)
    {
      hide EncodeCommand, Written, Payload, Wire, Total, Putting;
      ghost var r := ring[..];
      var parts := call.parts;
      ghost var laid := EncodeCommand(call.cmd, call.pad);
      PutFirst(call);
      Put(head, EncodeCommand(call.cmd, call.pad));
      at := (head + HEADER_BYTES) % QUEUE_BYTES;
      for i := 0 to |parts|
        invariant Putting(call, laid, i)
        invariant ring[..] == Written(r, head, laid) && at == (head + |laid|) % QUEUE_BYTES
      {
        PuttingFits(call, laid, i);
        if parts[i].Bad() {
          PutLast(call, laid, i);
          return at, false;
        }
        var data := if parts[i].Bytes? then parts[i].data else [];
        PutNext(call, laid, i);
        Put(at, data);
        WrittenAppend(r, head, laid, data);
        ChainedAt(head, |laid|, |data|);
        laid := laid + data;
        at := (at + |data|) % QUEUE_BYTES;
      }
      PutLast(call, laid, |parts|);
      clean := true;
    }

    /** `enqueue`, with nobody interfering: the model's steps from start to publication. */
    method Enqueue(call: Call, ghost s: State) returns (ok: bool)
      requires Matches(s) && s.producer.Idle? && s.tailsSeen < |s.tails| && call.WF()
      modifies this`error, this`full, this`head, this`writePos, ring
      ensures Matches(EnqueueAlone(s, call))
      ensures ok == (EnqueueAlone(s, call).accepted != s.accepted)
    {
      hide Wire, Written, EnqueueAlone, FreeSpace, Payload, EncodeCommand, Total;
      EnqueueEnding(s, call);
      if stop || error != OK {
        return false;
      }
      var need := HEADER_BYTES + call.cmd.size;
      if need >= QUEUE_BYTES {
        Fail(INVALID);
        return false;
      }
      var free := FreeBytes();
      if need > free {
        full := true;
        return false;
      }
      var at, clean := PutParts(call);
      if !clean {
        Fail(INVALID);
        return false;
      }
      head := at;
      full := false;
      writePos := at;
      ok := true;
    }

    /** One turn of the worker whose file operations succeed: copy out the command at the tail, release its bytes. */
    method Take() returns (r: Option<Record>)
      requires Valid()
      requires writePos != readPos ==> DecodeCommand(Taken(ring[..], readPos, HEADER_BYTES)).size <= QUEUE_BYTES
      modifies this`readPos
      ensures r.None? <==> writePos == old(readPos)
      ensures r.None? ==> readPos == old(readPos)
      ensures r.Some? ==>
                && r.value.cmd == DecodeCommand(Taken(ring[..], old(readPos), HEADER_BYTES))
                && r.value.payload == Taken(ring[..], (old(readPos) + HEADER_BYTES) % QUEUE_BYTES, r.value.cmd.size)
                && readPos == (old(readPos) + HEADER_BYTES + r.value.cmd.size) % QUEUE_BYTES
    {
      hide DecodeCommand, Taken;
      if writePos == readPos {
        return None;
      }
      var bytes := Get(readPos, HEADER_BYTES);
      var cmd := DecodeCommand(bytes);
      var payload := Get((readPos + HEADER_BYTES) % QUEUE_BYTES, cmd.size);
      readPos := (readPos + HEADER_BYTES + cmd.size) % QUEUE_BYTES;
      r := Some(Record(cmd, payload));
    }
  }

  /**
   In every reachable state `Take` finds the oldest accepted command that was not taken, or an
   empty ring when there is none, and moves `read_pos` where the model's steps move it.
   */
  lemma NextCommand(s: State)
    requires Inv(s) && s.worker.Polling?
    ensures |s.decoded| <= |s.accepted| && (s.Head() == s.Tail() <==> |s.decoded| == |s.accepted|)
    ensures |s.decoded| < |s.accepted| ==>
              var call, t := s.accepted[|s.decoded|], TakeAlone(s);
              && DecodeCommand(Taken(s.ring, s.Tail(), HEADER_BYTES)) == call.cmd
              && call.cmd.size <= QUEUE_BYTES
              && Taken(s.ring, (s.Tail() + HEADER_BYTES) % QUEUE_BYTES, call.cmd.size) == RecordOf(call).payload
              && t.decoded == s.decoded + [RecordOf(call)]
              && t.Tail() == (s.Tail() + HEADER_BYTES + call.cmd.size) % QUEUE_BYTES
  {
    hide Slot, Stream, EncodeCommand, DecodeCommand, Payload, Taken, TakeAlone, Wire, Content, Unpublished, Records, Total;
    EmptyExact(s, |s.accepted|);
    if |s.decoded| < |s.accepted| {
      var call := s.accepted[|s.decoded|];
      TakeExact(s);
      WireSize(call);
      FitsRing(s);
      TakenFront(s, call);
    }
  }

  lemma FitsRing(s: State)
    requires Inv(s) && |s.decoded| < |s.accepted|
    ensures |Wire(s.accepted[|s.decoded|])| <= QUEUE_BYTES
  {
    hide Slot, Stream, Wire, Content, Unpublished, Records, Total;
    WireAt(s.accepted, |s.decoded|);
    PosMonotone(s.accepted, s.tailsSeen, |s.decoded|);
  }

  lemma TakenSplit(ring: seq<Byte>, at: nat, m: nat, n: nat)
    requires |ring| == QUEUE_BYTES
    ensures Taken(ring, at, m + n) == Taken(ring, at, m) + Taken(ring, (at + m) % QUEUE_BYTES, n)
  {
    var all := Taken(ring, at, m + n);
    forall i | m <= i < m + n ensures all[i] == Taken(ring, (at + m) % QUEUE_BYTES, n)[i - m] {
      ChainedAt(at, m, i - m);
    }
  }

  /** The header and the payload of the command at the tail, read one after the other. */
  lemma TakenFront(s: State, call: Call)
    requires s.Shape() && call.WF() && call.Clean() && |Wire(call)| == HEADER_BYTES + call.cmd.size <= QUEUE_BYTES
    requires Taken(s.ring, s.Tail(), |Wire(call)|) == Wire(call)
    ensures DecodeCommand(Taken(s.ring, s.Tail(), HEADER_BYTES)) == call.cmd
    ensures Taken(s.ring, (s.Tail() + HEADER_BYTES) % QUEUE_BYTES, call.cmd.size) == Payload(call.parts)
  {
    hide EncodeCommand, DecodeCommand, Payload;
    TakenSplit(s.ring, s.Tail(), HEADER_BYTES, call.cmd.size);
    CommandRoundTrip(call.cmd, call.pad);
    assert Wire(call)[..HEADER_BYTES] == EncodeCommand(call.cmd, call.pad);
    assert Wire(call)[HEADER_BYTES..] == Payload(call.parts);
    assert Taken(s.ring, s.Tail(), |Wire(call)|)[..HEADER_BYTES] == Taken(s.ring, s.Tail(), HEADER_BYTES);
  }
}
