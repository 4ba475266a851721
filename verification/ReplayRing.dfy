/**
 The byte ring of replay_writer.cpp: one producer copies commands into a fixed ring, one
 worker takes them out, and only four atomics pass between them. The two threads are
 interleaved step by step; an atomic load may return any value the other thread has stored
 since the last one seen.
 */
module ReplayRing {
  import opened Common

  const QUEUE_BYTES: nat := 33554432
  const HEADER_BYTES: nat := 136
  const MAX_PARTS: nat := 12

  // ── Commands and their wire image ─────────────────────────────────

  type Sizes = s: seq<U64> | |s| == 12 witness [0, 0, 0, 0, 0, 0, 0, 0, 0, 0, 0, 0]

  /** `struct Command`. */
  datatype Command = Command(op: U32, count: U32, size: U64, frame: U64, kind: U32, sizes: Sizes, reuseMask: U32)

  /** One argument of an enqueue: bytes, or a null pointer that claims a size. */
  datatype Part = Bytes(data: seq<Byte>) | Null(claimed: nat)
  {
    function Size(): nat { if Bytes? then |data| else claimed }
    /** The test `sizes[i] && !data[i]`. */
    predicate Bad() { Null? && claimed != 0 }
  }

  /** An enqueue: the command, what its padding bytes happen to hold, and the payload in parts. */
  datatype Call = Call(cmd: Command, pad: seq<Byte>, parts: seq<Part>)
  {
    /** What every caller in the file establishes: the command announces the bytes of its parts. */
    predicate WF() { |pad| == 8 && cmd.size == Total(parts) && HEADER_BYTES + Total(parts) < TWO_64 }
    predicate Clean() { forall i :: 0 <= i < |parts| ==> !parts[i].Bad() }
  }

  /** What the worker takes out. */
  datatype Record = Record(cmd: Command, payload: seq<Byte>)

  function Total(parts: seq<Part>): nat {
    if parts == [] then 0 else parts[0].Size() + Total(parts[1..])
  }

  /** The bytes put into the ring before the first bad part. */
  function Payload(parts: seq<Part>): seq<Byte> {
    if parts == [] || parts[0].Bad() then []
    else (if parts[0].Bytes? then parts[0].data else []) + Payload(parts[1..])
  }

  function EncodeSizes(s: seq<U64>): (r: seq<Byte>)
    ensures |r| == 8 * |s|
  {
    if s == [] then [] else Le(s[0], 8) + EncodeSizes(s[1..])
  }

  function DecodeSizes(b: seq<Byte>): (r: seq<U64>)
    requires |b| % 8 == 0
    ensures |r| == |b| / 8
    decreases |b|
  {
    if b == [] then [] else [Get64(b[..8])] + DecodeSizes(b[8..])
  }

  /** The memory of a `Command`: two runs of padding follow `kind` and `reuse_mask`. */
  function EncodeCommand(c: Command, pad: seq<Byte>): (r: seq<Byte>)
    requires |pad| == 8
    ensures |r| == HEADER_BYTES
  {
    Le(c.op, 4) + Le(c.count, 4) + Le(c.size, 8) + Le(c.frame, 8) + Le(c.kind, 4) + pad[..4] +
    EncodeSizes(c.sizes) + Le(c.reuseMask, 4) + pad[4..]
  }

  function DecodeCommand(b: seq<Byte>): Command
    requires |b| == HEADER_BYTES
  {
    Command(Get32(b[..4]), Get32(b[4..8]), Get64(b[8..16]), Get64(b[16..24]), Get32(b[24..28]),
            DecodeSizes(b[32..128]), Get32(b[128..132]))
  }

  lemma {:induction false} SizesRoundTrip(s: seq<U64>)
    ensures DecodeSizes(EncodeSizes(s)) == s
  {
    if s != [] {
      var b := EncodeSizes(s);
      assert b[..8] == Le(s[0], 8) && b[8..] == EncodeSizes(s[1..]);
      Get64Le(s[0]);
      SizesRoundTrip(s[1..]);
    }
  }

  /** A command reads back as it was written, whatever its padding holds. */
  lemma CommandRoundTrip(c: Command, pad: seq<Byte>)
    requires |pad| == 8
    ensures DecodeCommand(EncodeCommand(c, pad)) == c
  {
    hide Le, EncodeSizes, DecodeSizes, Get32, Get64;
    var b := EncodeCommand(c, pad);
    assert b[..4] == Le(c.op, 4);
    assert b[4..8] == Le(c.count, 4);
    assert b[8..16] == Le(c.size, 8);
    assert b[16..24] == Le(c.frame, 8);
    assert b[24..28] == Le(c.kind, 4);
    assert b[32..128] == EncodeSizes(c.sizes);
    assert b[128..132] == Le(c.reuseMask, 4);
    Get32Le(c.op);
    Get32Le(c.count);
    Get64Le(c.size);
    Get64Le(c.frame);
    Get32Le(c.kind);
    SizesRoundTrip(c.sizes);
    Get32Le(c.reuseMask);
  }

  /** The memory of a command, field by field. */
  lemma CommandLayout(c: Command, pad: seq<Byte>)
    requires |pad| == 8
    ensures var b := EncodeCommand(c, pad);
            && |b| == 136 && Get32(b[..4]) == c.op && Get32(b[4..8]) == c.count && Get64(b[8..16]) == c.size
            && Get64(b[16..24]) == c.frame && Get32(b[24..28]) == c.kind && b[28..32] == pad[..4]
            && (forall k :: 0 <= k < 12 ==> Get64(b[32 + 8 * k..40 + 8 * k]) == c.sizes[k])
            && Get32(b[128..132]) == c.reuseMask && b[132..] == pad[4..]
  {
    hide Le, EncodeSizes, Get32, Get64;
    var b := EncodeCommand(c, pad);
    Get32Le(c.op);
    Get32Le(c.count);
    Get64Le(c.size);
    Get64Le(c.frame);
    Get32Le(c.kind);
    Get32Le(c.reuseMask);
    assert b[..4] == Le(c.op, 4) && b[4..8] == Le(c.count, 4) && b[8..16] == Le(c.size, 8) && b[16..24] == Le(c.frame, 8);
    assert b[24..28] == Le(c.kind, 4) && b[128..132] == Le(c.reuseMask, 4);
    assert b[32..128] == EncodeSizes(c.sizes);
    forall k | 0 <= k < 12 ensures Get64(b[32 + 8 * k..40 + 8 * k]) == c.sizes[k] {
      SizePlace(c.sizes, k);
      assert b[32 + 8 * k..40 + 8 * k] == b[32..128][8 * k..8 * k + 8];
    }
  }

  lemma {:induction false} SizePlace(s: seq<U64>, k: nat)
    requires k < |s|
    ensures Get64(EncodeSizes(s)[8 * k..8 * k + 8]) == s[k]
  {
    hide Le, Get64;
    var b := EncodeSizes(s);
    Get64Le(s[0]);
    if k == 0 {
      assert b[..8] == Le(s[0], 8);
    } else {
      SizePlace(s[1..], k - 1);
      assert b[8 * k..8 * k + 8] == EncodeSizes(s[1..])[8 * (k - 1)..8 * (k - 1) + 8];
    }
  }

  /** The bytes an enqueue puts into the ring if it meets no bad part. */
  function Wire(call: Call): (r: seq<Byte>)
    requires call.WF()
    ensures |r| >= HEADER_BYTES
  {
    EncodeCommand(call.cmd, call.pad) + Payload(call.parts)
  }

  function RecordOf(call: Call): Record { Record(call.cmd, Payload(call.parts)) }

  lemma {:induction false} PayloadSize(parts: seq<Part>)
    ensures |Payload(parts)| <= Total(parts)
    ensures (forall i :: 0 <= i < |parts| ==> !parts[i].Bad()) ==> |Payload(parts)| == Total(parts)
  {
    if parts != [] {
      PayloadSize(parts[1..]);
    }
  }

  // ── The ring ──────────────────────────────────────────────────────

  /** Where absolute position `p` lives. */
  function Slot(p: nat): (r: nat)
    ensures r < QUEUE_BYTES
  {
    p % QUEUE_BYTES
  }

  lemma SlotAdd(p: nat, i: nat)
    ensures (Slot(p) + i) % QUEUE_BYTES == Slot(p + i)
  {
  }

  lemma SlotDistinct(p: nat, q: nat)
    requires p <= q < p + QUEUE_BYTES && Slot(p) == Slot(q)
    ensures p == q
  {
  }

  /** `free_space`, from the tail the producer has loaded. */
  function FreeSpace(tail: nat, head: nat): nat
    requires tail < QUEUE_BYTES && head < QUEUE_BYTES
  {
    (tail + QUEUE_BYTES - head - 1) % QUEUE_BYTES
  }

  /** One slot is always kept empty, so free space is exact while at most N - 1 bytes are unread. */
  lemma FreeSpaceExact(r: nat, w: nat)
    requires r <= w < r + QUEUE_BYTES
    ensures FreeSpace(Slot(r), Slot(w)) == 33554431 - (w - r)
  {
  }

  datatype Code = OK | INVALID | IO

  // ── The two threads ───────────────────────────────────────────────

  /** Inside an enqueue, `written` bytes of the wire image are in the ring. */
  datatype Producer = Idle | Writing(call: Call, written: nat)

  /**
   The worker's loop: at the top, copying a command out, having found the ring empty, having
   seen the stop flag, or finished.
   */
  datatype Worker = Polling | Reading(got: seq<Byte>) | Drained | Stopping | Exited | Failed

  /**
   `heads` and `tails` hold every value `write_pos` and `read_pos` have had, newest last;
   `tailsSeen` and `headsSeen` say how far the other thread has looked. `accepted` and
   `decoded` record what the two ends have answered.
   */
  datatype State = State(
    ring: seq<Byte>, heads: seq<nat>, tails: seq<nat>, error: Code, full: bool, stop: bool,
    producer: Producer, tailsSeen: nat, errorSeen: bool,
    worker: Worker, headsSeen: nat,
    accepted: seq<Call>, decoded: seq<Record>)
  {
    predicate Shape() {
      |ring| == QUEUE_BYTES && |heads| > 0 && |tails| > 0
      && (forall k :: 0 <= k < |heads| ==> heads[k] < QUEUE_BYTES)
      && (forall k :: 0 <= k < |tails| ==> tails[k] < QUEUE_BYTES)
      && (producer.Writing? ==> producer.call.WF() && producer.written <= |Wire(producer.call)|)
    }
    function Head(): nat requires Shape() { heads[|heads| - 1] }
    function Tail(): nat requires Shape() { tails[|tails| - 1] }
    /** `fail`: the first code stays. */
    function Fail(code: Code): State { this.(error := if error == OK then code else error) }
  }

  /**
   `Start` loads read_pos as `tails[seen]`, and may miss an error the worker has just set;
   `Load` loads write_pos as `heads[seen]`; `LoadStop` may miss the flag; a load of write_pos
   after the flag was seen (`Recheck`) cannot be stale. `Finish` says whether the record's
   file operations succeeded. `Refuse` is a frame of too many parts, which never reaches the
   queue; `CloseFails` is the closing of the files once the worker has left its loop.
   */
  datatype Action =
    | Start(call: Call, seen: nat, missError: bool) | PutByte | Publish | Refuse | Shutdown
    | Load(seen: nat) | GetByte | Finish(io: bool) | LoadStop(sees: bool) | Recheck | FlushFails | CloseFails

  /** The worker copies a header, then as many bytes as it announces. */
  predicate WantsMore(got: seq<Byte>) {
    |got| < HEADER_BYTES || |got| < HEADER_BYTES + DecodeCommand(got[..HEADER_BYTES]).size
  }

  function StartStep(s: State, call: Call, seen: nat, missError: bool): (t: State)
    requires s.Shape() && s.producer.Idle? && call.WF() && seen < |s.tails|
    ensures t.Shape()
  {
    var need := HEADER_BYTES + call.cmd.size;
    if s.stop then s
    else if s.error != OK && !missError then s.(errorSeen := true)
    else if need >= QUEUE_BYTES then s.Fail(INVALID).(errorSeen := true)
    else if need > FreeSpace(s.tails[seen], s.Head()) then s.(full := true, tailsSeen := seen)
    else s.(producer := Writing(call, 0), tailsSeen := seen)
  }

  /**
   How an enqueue begins: not after a shutdown; not after an error it has seen, and a command the
   ring can never hold is an error; a command that does not fit now marks the ring full.
   */
  lemma StartStepExact(s: State, call: Call, seen: nat, missError: bool)
    requires s.Shape() && s.producer.Idle? && call.WF() && seen < |s.tails|
    ensures var t := StartStep(s, call, seen, missError); var size := 136 + call.cmd.size;
            && (s.stop ==> t == s)
            && (!s.stop && s.error != OK && !missError ==> t == s.(errorSeen := true))
            && (!s.stop && (s.error == OK || missError) && size >= 33554432 ==>
                  t == s.(error := if s.error == OK then INVALID else s.error, errorSeen := true))
            && (!s.stop && (s.error == OK || missError) && size < 33554432 ==>
                  t == if size > (s.tails[seen] + 33554431 - s.Head()) % 33554432
                       then s.(full := true, tailsSeen := seen) else s.(producer := Writing(call, 0), tailsSeen := seen))
  {
    hide Wire, Total;
  }

  function PutByteStep(s: State): (t: State)
    requires s.Shape() && s.producer.Writing? && s.producer.written < |Wire(s.producer.call)|
    ensures t.Shape()
  {
    var n := s.producer.written;
    s.(ring := s.ring[(s.Head() + n) % QUEUE_BYTES := Wire(s.producer.call)[n]],
       producer := Writing(s.producer.call, n + 1))
  }

  /** The end of an enqueue, at its last byte or at a bad part. */
  function PublishStep(s: State): (t: State)
    requires s.Shape() && s.producer.Writing?
    ensures t.Shape()
  {
    var call := s.producer.call;
    if !call.Clean() then s.Fail(INVALID).(errorSeen := true, producer := Idle)
    else s.(heads := s.heads + [(s.Head() + |Wire(call)|) % QUEUE_BYTES], full := false,
            producer := Idle, accepted := s.accepted + [call])
  }

  /** How it ends: a bad part is an error and publishes nothing, otherwise the head moves past the record and the full mark goes. */
  lemma PublishStepExact(s: State)
    requires s.Shape() && s.producer.Writing?
    ensures var t, call := PublishStep(s), s.producer.call;
            && t.producer.Idle? && t.ring == s.ring && t.tails == s.tails && t.decoded == s.decoded && t.worker == s.worker
            && if exists i :: 0 <= i < |call.parts| && call.parts[i].Bad()
               then && t.accepted == s.accepted && t.heads == s.heads && t.full == s.full && t.errorSeen
                    && t.error == if s.error == OK then INVALID else s.error
               else && t.accepted == s.accepted + [call] && !t.full && t.error == s.error
                    && t.heads == s.heads + [(s.Head() + |Wire(call)|) % 33554432]
  {
    hide Wire, Total;
  }

  function LoadStep(s: State, seen: nat): (t: State)
    requires s.Shape() && seen < |s.heads|
    ensures t.Shape()
  {
    s.(headsSeen := seen, worker := if s.heads[seen] != s.Tail() then Reading([]) else Drained)
  }

  function GetByteStep(s: State): (t: State)
    requires s.Shape() && s.worker.Reading?
    ensures t.Shape()
  {
    var got := s.worker.got;
    s.(worker := Reading(got + [s.ring[(s.Tail() + |got|) % QUEUE_BYTES]]))
  }

  function FinishStep(s: State, io: bool): (t: State)
    requires s.Shape() && s.worker.Reading? && !WantsMore(s.worker.got)
    ensures t.Shape()
  {
    var got := s.worker.got;
    var cmd := DecodeCommand(got[..HEADER_BYTES]);
    if io then
      s.(tails := s.tails + [(s.Tail() + HEADER_BYTES + cmd.size) % QUEUE_BYTES], worker := Polling,
         decoded := s.decoded + [Record(cmd, got[HEADER_BYTES..])])
    else s.Fail(IO).(worker := Failed)
  }

  function RecheckStep(s: State): (t: State)
    requires s.Shape()
    ensures t.Shape()
  {
    s.(headsSeen := |s.heads| - 1, worker := if s.Head() == s.Tail() then Exited else Polling)
  }

  /** When the action can happen: whose turn it is, and which values a load may return. */
  predicate Enabled(s: State, a: Action)
    requires s.Shape()
  {
    match a
    case Start(call, seen, missError) =>
      s.producer.Idle? && call.WF() && s.tailsSeen <= seen < |s.tails| && (missError ==> !s.errorSeen)
    case PutByte => s.producer.Writing? && s.producer.written < |Wire(s.producer.call)|
    case Publish => s.producer.Writing? && s.producer.written == |Wire(s.producer.call)|
    case Refuse | Shutdown => s.producer.Idle?
    case Load(seen) => s.worker.Polling? && s.headsSeen <= seen < |s.heads|
    case GetByte => s.worker.Reading? && WantsMore(s.worker.got)
    case Finish(_) => s.worker.Reading? && !WantsMore(s.worker.got)
    case LoadStop(sees) => s.worker.Drained? && (sees ==> s.stop)
    case Recheck => s.worker.Stopping?
    case FlushFails => s.worker.Polling?
    case CloseFails => s.worker.Exited? || s.worker.Failed?
  }

  function Step(s: State, a: Action): (t: State)
    requires s.Shape()
    ensures t.Shape()
  {
    if !Enabled(s, a) then s
    else
      match a
      case Start(call, seen, missError) => StartStep(s, call, seen, missError)
      case PutByte => PutByteStep(s)
      case Publish => PublishStep(s)
      case Refuse => s.Fail(INVALID).(errorSeen := true)
      case Shutdown => s.(stop := true)
      case Load(seen) => LoadStep(s, seen)
      case GetByte => GetByteStep(s)
      case Finish(io) => FinishStep(s, io)
      case LoadStop(sees) => s.(worker := if sees then Stopping else Polling)
      case Recheck => RecheckStep(s)
      case FlushFails => s.Fail(IO).(worker := Failed)
      case CloseFails => s.Fail(IO)
  }

  function Run(s: State, actions: seq<Action>): (t: State)
    requires s.Shape()
    ensures t.Shape()
    decreases |actions|
  {
    if actions == [] then s else Run(Step(s, actions[0]), actions[1..])
  }

  function Fresh(ring: seq<Byte>): State {
    State(ring, [0], [0], OK, false, false, Idle, 0, false, Polling, 0, [], [])
  }

  // ── Absolute positions ────────────────────────────────────────────

  predicate Accepted(calls: seq<Call>) { forall i :: 0 <= i < |calls| ==> calls[i].WF() && calls[i].Clean() }

  /** Every byte accepted so far, in order. */
  function Stream(calls: seq<Call>): seq<Byte>
    requires Accepted(calls)
  {
    if calls == [] then [] else Stream(calls[..|calls| - 1]) + Wire(calls[|calls| - 1])
  }

  /** The absolute position after the first `k` commands. */
  function Pos(calls: seq<Call>, k: nat): nat
    requires Accepted(calls) && k <= |calls|
  {
    |Stream(calls[..k])|
  }

  function Records(calls: seq<Call>): (r: seq<Record>)
    ensures |r| == |calls|
  {
    if calls == [] then [] else Records(calls[..|calls| - 1]) + [RecordOf(calls[|calls| - 1])]
  }

  lemma StreamSnoc(calls: seq<Call>, call: Call)
    requires Accepted(calls) && call.WF() && call.Clean()
    ensures Stream(calls + [call]) == Stream(calls) + Wire(call)
  {
    assert (calls + [call])[..|calls|] == calls;
  }

  lemma RecordsSnoc(calls: seq<Call>, k: nat)
    requires k < |calls|
    ensures Records(calls[..k + 1]) == Records(calls[..k]) + [RecordOf(calls[k])]
  {
    assert calls[..k + 1][..k] == calls[..k];
  }

  lemma {:induction false} StreamPrefix(calls: seq<Call>, k: nat)
    requires Accepted(calls) && k <= |calls|
    ensures Stream(calls[..k]) <= Stream(calls)
  {
    if k == |calls| {
      assert calls[..k] == calls;
    } else {
      var front := calls[..|calls| - 1];
      assert front[..k] == calls[..k];
      StreamPrefix(front, k);
    }
  }

  lemma {:induction false} PosMonotone(calls: seq<Call>, j: nat, k: nat)
    requires Accepted(calls) && j <= k <= |calls|
    ensures Pos(calls, j) <= Pos(calls, k) <= |Stream(calls)|
    ensures j < k ==> Pos(calls, j) < Pos(calls, k)
    ensures Pos(calls, |calls|) == |Stream(calls)|
  {
    assert calls[..|calls|] == calls;
    StreamPrefix(calls, k);
    assert calls[..k][..j] == calls[..j];
    StreamPrefix(calls[..k], j);
    if j < k {
      assert calls[..k][..k - 1] == calls[..k - 1];
      assert calls[..k - 1][..j] == calls[..j];
      StreamPrefix(calls[..k - 1], j);
    }
  }

  /** The stretch of the stream between two positions is the command's wire image. */
  lemma WireAt(calls: seq<Call>, k: nat)
    requires Accepted(calls) && k < |calls|
    ensures Pos(calls, k + 1) == Pos(calls, k) + |Wire(calls[k])| <= |Stream(calls)|
    ensures Stream(calls)[Pos(calls, k)..Pos(calls, k + 1)] == Wire(calls[k])
  {
    hide Wire;
    var upTo := calls[..k + 1];
    assert upTo[..k] == calls[..k];
    StreamPrefix(calls, k + 1);
    assert Stream(upTo) == Stream(calls[..k]) + Wire(calls[k]);
  }

  // ── The invariant ─────────────────────────────────────────────────

  /** Positions: both atomics only ever held the ends of whole commands, in order. */
  ghost predicate Positions(s: State)
    requires s.Shape() && Accepted(s.accepted)
  {
    && |s.heads| == |s.accepted| + 1 && |s.tails| == |s.decoded| + 1
    && s.tailsSeen <= |s.decoded| <= s.headsSeen <= |s.accepted|
    && (forall k :: 0 <= k < |s.heads| ==> s.heads[k] == Slot(Pos(s.accepted, k)))
    && (forall k :: 0 <= k < |s.tails| ==> s.tails[k] == Slot(Pos(s.accepted, k)))
  }

  function Need(s: State): nat
    requires s.Shape()
  {
    if s.producer.Writing? then HEADER_BYTES + s.producer.call.cmd.size else 0
  }

  /** The producer never holds more than N - 1 bytes past the tail it last loaded. */
  ghost predicate Room(s: State)
    requires s.Shape() && Accepted(s.accepted) && s.tailsSeen <= |s.accepted|
  {
    |Stream(s.accepted)| + Need(s) < Pos(s.accepted, s.tailsSeen) + QUEUE_BYTES
  }

  /** Every accepted byte that is not yet released is in its slot. */
  ghost predicate Content(s: State)
    requires s.Shape() && Accepted(s.accepted) && |s.decoded| <= |s.accepted|
  {
    var stream := Stream(s.accepted);
    forall p :: Pos(s.accepted, |s.decoded|) <= p < |stream| ==> s.ring[Slot(p)] == stream[p]
  }

  /** So is every byte of the enqueue in progress. */
  ghost predicate Unpublished(s: State)
    requires s.Shape() && Accepted(s.accepted)
  {
    s.producer.Writing? ==>
      var wire := Wire(s.producer.call);
      forall i :: 0 <= i < s.producer.written ==> s.ring[Slot(|Stream(s.accepted)| + i)] == wire[i]
  }

  /** What the worker has copied is the front of the next accepted command. */
  ghost predicate Copied(s: State)
    requires s.Shape() && Accepted(s.accepted) && |s.decoded| <= |s.accepted|
  {
    s.worker.Reading? ==> |s.decoded| < s.headsSeen <= |s.accepted| && s.worker.got <= Wire(s.accepted[|s.decoded|])
  }

  /** Nothing is enqueued once the stop flag is up; a worker ends its loop with everything taken or an error set. */
  ghost predicate Stopped(s: State) {
    && (s.stop ==> s.producer.Idle?)
    && (s.worker.Stopping? || s.worker.Exited? ==> s.stop)
    && (s.worker.Exited? ==> |s.decoded| == |s.accepted|)
    && (s.worker.Failed? ==> s.error != OK)
    && (s.errorSeen ==> s.error != OK && s.producer.Idle?)
  }

  /** The worker's output is a prefix of the producer's input. */
  ghost predicate Fifo(s: State) {
    |s.decoded| <= |s.accepted| && s.decoded == Records(s.accepted[..|s.decoded|])
  }

  ghost predicate Inv(s: State) {
    && s.Shape() && Accepted(s.accepted) && Fifo(s)
    && Positions(s) && Room(s) && Content(s) && Unpublished(s) && Copied(s) && Stopped(s)
  }

  lemma FreshInv(ring: seq<Byte>)
    requires |ring| == QUEUE_BYTES
    ensures Inv(Fresh(ring))
    ensures var s := Fresh(ring);
            && s.heads == s.tails == [0] && s.error == OK && !s.full && !s.stop && !s.errorSeen
            && s.producer.Idle? && s.worker.Polling? && s.accepted == [] && s.decoded == []
  {
  }

  /** A stale `read_pos` is only conservative: the space it shows is there, and was there. */
  lemma StaleTailIsSafe(s: State, seen: nat)
    requires Inv(s) && s.producer.Idle? && s.tailsSeen <= seen < |s.tails|
    ensures FreeSpace(s.tails[seen], s.Head()) ==
            QUEUE_BYTES - 1 - (|Stream(s.accepted)| - Pos(s.accepted, seen))
    ensures FreeSpace(s.tails[seen], s.Head()) <= FreeSpace(s.Tail(), s.Head())
  {
    var w, d := |Stream(s.accepted)|, |s.decoded|;
    PosMonotone(s.accepted, s.tailsSeen, seen);
    PosMonotone(s.accepted, seen, d);
    assert s.Head() == Slot(Pos(s.accepted, |s.accepted|));
    FreeSpaceExact(Pos(s.accepted, seen), w);
    FreeSpaceExact(Pos(s.accepted, d), w);
  }

  /** A step that leaves the ring and both histories alone keeps what is said about them. */
  lemma SameBytes(s: State, t: State)
    requires Inv(s) && t.Shape() && t.ring == s.ring && t.heads == s.heads && t.tails == s.tails
    requires t.accepted == s.accepted && t.decoded == s.decoded && t.worker == s.worker && t.headsSeen == s.headsSeen
    requires s.tailsSeen <= t.tailsSeen <= |s.decoded|
    ensures Accepted(t.accepted) && Fifo(t) && Positions(t) && Content(t) && Copied(t)
    ensures (t.producer.Writing? ==> t.producer.written == 0) ==> Unpublished(t)
  {
    hide Wire, Stream, Slot, Records, Payload, Total;
  }

  lemma StartRoom(s: State, call: Call, seen: nat, missError: bool)
    requires Inv(s) && Enabled(s, Start(call, seen, missError))
    ensures var t := StartStep(s, call, seen, missError); t.Shape() && Accepted(t.accepted) && t.tailsSeen <= |t.accepted| && Room(t)
  {
    hide Wire, Stream, FreeSpace, Slot, Records, Payload, Content, Unpublished, Copied, Total, Pos;
    StaleTailIsSafe(s, seen);
    PosMonotone(s.accepted, s.tailsSeen, seen);
  }

  /** All a start can change. */
  lemma StartCases(s: State, call: Call, seen: nat, missError: bool)
    requires s.Shape() && Enabled(s, Start(call, seen, missError)) && (s.errorSeen ==> s.error != OK)
    ensures var t := StartStep(s, call, seen, missError);
            && t == s.(error := t.error, errorSeen := t.errorSeen, full := t.full, tailsSeen := t.tailsSeen,
                       producer := t.producer)
            && t.Shape() && s.tailsSeen <= t.tailsSeen <= |s.tails| - 1
            && (t.producer.Writing? ==> t.producer.written == 0 && !s.stop && !t.errorSeen)
            && (t.errorSeen || s.error != OK ==> t.error != OK)
  {
    hide Wire, FreeSpace, Total, Payload;
  }

  lemma StartKeeps(s: State, call: Call, seen: nat, missError: bool)
    requires Inv(s) && Enabled(s, Start(call, seen, missError))
    ensures Inv(StartStep(s, call, seen, missError))
  {
    hide Wire, FreeSpace, Total, Payload, StartStep, Stream, Slot, Records, Copied, Content, Unpublished, Room;
    StartRoom(s, call, seen, missError);
    StartCases(s, call, seen, missError);
    SameBytes(s, StartStep(s, call, seen, missError));
  }

  /** The slot the producer writes is never one the worker may still read. */
  lemma NoOverwrite(s: State, p: nat)
    requires Inv(s) && s.producer.Writing? && s.producer.written < |Wire(s.producer.call)|
    requires Pos(s.accepted, |s.decoded|) <= p < |Stream(s.accepted)| + s.producer.written
    ensures Slot(p) != Slot(|Stream(s.accepted)| + s.producer.written)
  {
    hide Wire, Stream, Slot, Payload;
    var call := s.producer.call;
    PosMonotone(s.accepted, s.tailsSeen, |s.decoded|);
    PayloadSize(call.parts);
    WireSize(call);
    if Slot(p) == Slot(|Stream(s.accepted)| + s.producer.written) {
      SlotDistinct(p, |Stream(s.accepted)| + s.producer.written);
    }
  }

  lemma WireSize(call: Call)
    requires call.WF()
    ensures |Wire(call)| <= HEADER_BYTES + call.cmd.size
    ensures call.Clean() ==> |Wire(call)| == HEADER_BYTES + call.cmd.size
  {
    PayloadSize(call.parts);
  }

  lemma PutByteKeeps(s: State)
    requires Inv(s) && Enabled(s, PutByte)
    ensures Inv(PutByteStep(s))
  {
    hide Wire, Stream, Slot, Records;
    var w, n := |Stream(s.accepted)|, s.producer.written;
    var t := PutByteStep(s);
    PosMonotone(s.accepted, |s.decoded|, |s.accepted|);
    assert s.Head() == Slot(w);
    SlotAdd(w, n);
    forall p | Pos(s.accepted, |s.decoded|) <= p < w ensures t.ring[Slot(p)] == Stream(s.accepted)[p] {
      NoOverwrite(s, p);
    }
    forall i | 0 <= i < n ensures t.ring[Slot(w + i)] == Wire(s.producer.call)[i] {
      NoOverwrite(s, w + i);
    }
  }

  lemma PublishKeeps(s: State)
    requires Inv(s) && Enabled(s, Publish)
    ensures Inv(PublishStep(s))
  {
    hide Wire, Slot, Stream, Records;
    var call := s.producer.call;
    var t := PublishStep(s);
    if call.Clean() {
      var w := |Stream(s.accepted)|;
      StreamSnoc(s.accepted, call);
      WireSize(call);
      SlotAdd(w, |Wire(call)|);
      forall k | 0 <= k <= |s.accepted| ensures t.accepted[..k] == s.accepted[..k] {
      }
      PosMonotone(s.accepted, |s.accepted|, |s.accepted|);
      PosMonotone(t.accepted, |t.accepted|, |t.accepted|);
      PublishedPositions(s, t);
      PublishedContent(s, t);
    }
  }

  lemma PublishedPositions(s: State, t: State)
    requires Inv(s) && Enabled(s, Publish) && s.producer.call.Clean() && t == PublishStep(s) && Accepted(t.accepted)
    ensures Positions(t)
  {
    hide Wire, Slot, Stream, Records;
    var call, w := s.producer.call, |Stream(s.accepted)|;
    StreamSnoc(s.accepted, call);
    SlotAdd(w, |Wire(call)|);
    PosMonotone(s.accepted, |s.accepted|, |s.accepted|);
    PosMonotone(t.accepted, |t.accepted|, |t.accepted|);
    forall k | 0 <= k <= |s.accepted| ensures Pos(t.accepted, k) == Pos(s.accepted, k) {
      assert t.accepted[..k] == s.accepted[..k];
    }
  }

  lemma PublishedContent(s: State, t: State)
    requires Inv(s) && Enabled(s, Publish) && s.producer.call.Clean() && t == PublishStep(s) && Accepted(t.accepted)
    ensures Content(t)
  {
    hide Wire, Slot, Stream, Records;
    var call, w, d := s.producer.call, |Stream(s.accepted)|, |s.decoded|;
    StreamSnoc(s.accepted, call);
    assert t.accepted[..d] == s.accepted[..d];
    forall p | Pos(t.accepted, d) <= p < |Stream(t.accepted)| ensures t.ring[Slot(p)] == Stream(t.accepted)[p] {
      if p >= w {
        assert s.ring[Slot(w + (p - w))] == Wire(call)[p - w];
      }
    }
  }

  /** `head == tail` means empty: the slots of two positions at most N - 1 apart agree only when the positions do. */
  lemma EmptyExact(s: State, k: nat)
    requires Inv(s) && |s.decoded| <= k < |s.heads|
    ensures s.heads[k] == s.Tail() <==> k == |s.decoded|
  {
    hide Wire, Stream, Slot;
    var d := |s.decoded|;
    PosMonotone(s.accepted, s.tailsSeen, d);
    PosMonotone(s.accepted, d, k);
    if s.heads[k] == s.Tail() {
      SlotDistinct(Pos(s.accepted, d), Pos(s.accepted, k));
    }
  }

  lemma LoadKeeps(s: State, seen: nat)
    requires Inv(s) && Enabled(s, Load(seen))
    ensures Inv(LoadStep(s, seen))
  {
    hide Wire, Stream, Slot, Records;
    EmptyExact(s, seen);
  }

  /** Once the header is in, the length the worker goes by is that of the accepted command. */
  lemma ReadsToTheEnd(call: Call, got: seq<Byte>)
    requires call.WF() && call.Clean() && got <= Wire(call)
    ensures |got| >= HEADER_BYTES ==> DecodeCommand(got[..HEADER_BYTES]) == call.cmd
    ensures WantsMore(got) <==> |got| < |Wire(call)|
  {
    WireSize(call);
    if |got| >= HEADER_BYTES {
      assert got[..HEADER_BYTES] == EncodeCommand(call.cmd, call.pad);
      CommandRoundTrip(call.cmd, call.pad);
    }
  }

  /** The slot the worker reads next holds the next byte of the oldest command not taken. */
  lemma NextByte(s: State)
    requires Inv(s) && Enabled(s, GetByte)
    ensures |s.decoded| < |s.accepted| && |s.worker.got| < |Wire(s.accepted[|s.decoded|])|
    ensures s.ring[(s.Tail() + |s.worker.got|) % QUEUE_BYTES] == Wire(s.accepted[|s.decoded|])[|s.worker.got|]
  {
    hide Wire, Stream, Slot, WantsMore, Records, Room, Unpublished, Payload;
    var d, got := |s.decoded|, s.worker.got;
    var call := s.accepted[d];
    ReadsToTheEnd(call, got);
    WireAt(s.accepted, d);
    var p := Pos(s.accepted, d) + |got|;
    SlotAdd(Pos(s.accepted, d), |got|);
    assert s.ring[Slot(p)] == Stream(s.accepted)[p];
    assert Stream(s.accepted)[p] == Stream(s.accepted)[Pos(s.accepted, d)..Pos(s.accepted, d + 1)][|got|];
  }

  lemma GetByteKeeps(s: State)
    requires Inv(s) && Enabled(s, GetByte)
    ensures Inv(GetByteStep(s))
  {
    hide Wire, Stream, Slot, WantsMore, Records, Pos, Payload;
    NextByte(s);
    assert s.worker.got + [Wire(s.accepted[|s.decoded|])[|s.worker.got|]] <= Wire(s.accepted[|s.decoded|]);
  }

  lemma FinishKeeps(s: State, io: bool)
    requires Inv(s) && Enabled(s, Finish(io))
    ensures Inv(FinishStep(s, io))
  {
    hide Stream, Slot, WantsMore, Records, EncodeCommand, DecodeCommand, Payload;
    if io {
      var d, got := |s.decoded|, s.worker.got;
      var call := s.accepted[d];
      ReadsToTheEnd(call, got);
      assert got == Wire(call);
      assert got[HEADER_BYTES..] == Payload(call.parts);
      WireAt(s.accepted, d);
      WireSize(call);
      SlotAdd(Pos(s.accepted, d), |Wire(call)|);
      RecordsSnoc(s.accepted, d);
    }
  }

  lemma RecheckKeeps(s: State)
    requires Inv(s) && Enabled(s, Recheck)
    ensures Inv(RecheckStep(s))
  {
    hide Wire, Stream, Slot, Records;
    EmptyExact(s, |s.accepted|);
  }

  lemma StepKeeps(s: State, a: Action)
    requires Inv(s)
    ensures Inv(Step(s, a))
  {
    hide Wire, Stream, Slot, WantsMore, Records, PublishStep, PutByteStep, StartStep, LoadStep, GetByteStep, FinishStep, RecheckStep;
    if Enabled(s, a) {
      match a
      case Start(call, seen, missError) => StartKeeps(s, call, seen, missError);
      case PutByte => PutByteKeeps(s);
      case Publish => PublishKeeps(s);
      case Load(seen) => LoadKeeps(s, seen);
      case GetByte => GetByteKeeps(s);
      case Finish(io) => FinishKeeps(s, io);
      case Recheck => RecheckKeeps(s);
      case Refuse | Shutdown | LoadStop(_) | FlushFails | CloseFails =>
    }
  }

  lemma {:induction false} RunKeeps(s: State, actions: seq<Action>)
    requires Inv(s)
    ensures Inv(Run(s, actions))
    decreases |actions|
  {
    if actions != [] {
      StepKeeps(s, actions[0]);
      RunKeeps(Step(s, actions[0]), actions[1..]);
    }
  }
}
