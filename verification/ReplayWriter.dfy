/**
 What travels through the replay ring: the requests of the recorder, the commands they
 become, and the segment files the worker makes of them.
 */
module ReplayWriter {
  import opened Common
  import opened ReplayRing
  import opened ReplayRuns
  import ReplayHash
  import ReplayChannel

  const BEGIN: U32 := 1
  const SNAPSHOT: U32 := 2
  const LINE: U32 := 3
  const FRAME: U32 := 4
  const REMOVE: U32 := 5
  const END: U32 := 6

  /** A region of one frame; a reused part carries no bytes. */
  datatype FramePart = FramePart(region: Part, reuse: bool)

  datatype Sidecar = Sidecar(source: seq<Byte>, dest: seq<Byte>)

  datatype Segment = Segment(path: seq<Byte>, header: seq<Byte>, copies: seq<Sidecar>, inlines: seq<Sidecar>)

  datatype Request =
    | Begin(segment: Segment)
    | Snapshot(image: Part, kind: Byte)
    | Line(text: seq<Byte>)
    | Frame(frame: U64, parts: seq<FramePart>)
    | Remove(path: seq<Byte>)
    | End

  // ── The begin blob ────────────────────────────────────────────────

  /** `append_string`: the length is truncated to 32 bits. */
  function StringBytes(s: seq<Byte>): seq<Byte> { Le(|s| % TWO_32, 4) + s }

  function SidecarBytes(l: seq<Sidecar>): seq<Byte> {
    if l == [] then [] else StringBytes(l[0].source) + StringBytes(l[0].dest) + SidecarBytes(l[1..])
  }

  function SegmentBytes(s: Segment): seq<Byte> {
    StringBytes(s.path) + StringBytes(s.header) + Le(|s.copies| % TWO_32, 4) + Le(|s.inlines| % TWO_32, 4) +
    SidecarBytes(s.copies) + SidecarBytes(s.inlines)
  }

  /** `take_string`: the string at the front and what follows it. */
  function TakeString(b: seq<Byte>): Option<(seq<Byte>, seq<Byte>)> {
    if |b| < 4 then None
    else
      var n := Get32(b[..4]);
      if |b| < 4 + n then None else Some((b[4..4 + n], b[4 + n..]))
  }

  function TakeSidecars(b: seq<Byte>, n: nat): (r: Option<(seq<Sidecar>, seq<Byte>)>)
    ensures r.Some? ==> |r.value.0| == n
  {
    if n == 0 then Some(([], b))
    else
      match TakeString(b)
      case None => None
      case Some((source, rest)) =>
        match TakeString(rest)
        case None => None
        case Some((dest, rest)) =>
          match TakeSidecars(rest, n - 1)
          case None => None
          case Some((l, rest)) => Some(([Sidecar(source, dest)] + l, rest))
  }

  function TakeLists(b: seq<Byte>, path: seq<Byte>, header: seq<Byte>): Option<Segment> {
    if |b| < 8 then None
    else
      match TakeSidecars(b[8..], Get32(b[..4]))
      case None => None
      case Some((copies, rest)) =>
        match TakeSidecars(rest, Get32(b[4..8]))
        case None => None
        case Some((inlines, _)) => Some(Segment(path, header, copies, inlines))
  }

  /** What the worker reads out of a BEGIN payload. */
  function ParseSegment(b: seq<Byte>): Option<Segment> {
    match TakeString(b)
    case None => None
    case Some((path, rest)) =>
      match TakeString(rest)
      case None => None
      case Some((header, rest)) => TakeLists(rest, path, header)
  }

  lemma TakeStringBytes(s: seq<Byte>, rest: seq<Byte>)
    requires |s| < TWO_32
    ensures TakeString(StringBytes(s) + rest) == Some((s, rest))
  {
    var b := StringBytes(s) + rest;
    Get32Le(|s|);
    assert b[..4] == Le(|s|, 4);
    assert b[4..4 + |s|] == s && b[4 + |s|..] == rest;
  }

  lemma TakeOneSidecar(c: Sidecar, tail: seq<Byte>, n: nat)
    requires |c.source| < TWO_32 && |c.dest| < TWO_32
    ensures TakeSidecars(StringBytes(c.source) + (StringBytes(c.dest) + tail), n + 1) ==
            match TakeSidecars(tail, n) { case None => None case Some((l, rest)) => Some(([c] + l, rest)) }
  {
    hide StringBytes, TakeString;
    TakeStringBytes(c.source, StringBytes(c.dest) + tail);
    TakeStringBytes(c.dest, tail);
  }

  lemma FirstSidecar(l: seq<Sidecar>, rest: seq<Byte>)
    requires l != []
    ensures SidecarBytes(l) + rest ==
            StringBytes(l[0].source) + (StringBytes(l[0].dest) + (SidecarBytes(l[1..]) + rest))
    ensures |SidecarBytes(l)| == 8 + |l[0].source| + |l[0].dest| + |SidecarBytes(l[1..])|
  {
    hide StringBytes;
    StringLength(l[0].source);
    StringLength(l[0].dest);
    Regroup(StringBytes(l[0].source), StringBytes(l[0].dest), SidecarBytes(l[1..]), rest);
  }

  lemma Regroup(a: seq<Byte>, b: seq<Byte>, c: seq<Byte>, d: seq<Byte>)
    ensures (a + b + c) + d == a + (b + (c + d))
  {
  }

  lemma {:induction false} TakeSidecarBytes(l: seq<Sidecar>, rest: seq<Byte>)
    requires |SidecarBytes(l)| < TWO_32
    ensures TakeSidecars(SidecarBytes(l) + rest, |l|) == Some((l, rest))
  {
    if l == [] {
      assert SidecarBytes(l) + rest == rest;
    } else {
      hide StringBytes, TakeSidecars, SidecarBytes;
      FirstSidecar(l, rest);
      TakeOneSidecar(l[0], SidecarBytes(l[1..]) + rest, |l| - 1);
      TakeSidecarBytes(l[1..], rest);
      assert l == [l[0]] + l[1..];
    }
  }

  lemma StringLength(s: seq<Byte>)
    ensures |StringBytes(s)| == 4 + |s|
  {
  }

  lemma {:induction false} SidecarLength(l: seq<Sidecar>)
    ensures |SidecarBytes(l)| >= |l|
  {
    if l != [] {
      StringLength(l[0].source);
      SidecarLength(l[1..]);
    }
  }

  lemma TwoCounts(c: seq<Byte>, i: seq<Byte>, x: seq<Byte>, y: seq<Byte>)
    requires |c| == 4 && |i| == 4
    ensures var b := c + i + x + y; b[..4] == c && b[4..8] == i && b[8..] == x + y
  {
  }

  lemma TakeListsFrom(s: Segment, b: seq<Byte>)
    requires |SidecarBytes(s.copies)| < TWO_32 && |SidecarBytes(s.inlines)| < TWO_32 && |b| >= 8
    requires Get32(b[..4]) == |s.copies| && Get32(b[4..8]) == |s.inlines|
    requires b[8..] == SidecarBytes(s.copies) + SidecarBytes(s.inlines)
    ensures TakeLists(b, s.path, s.header) == Some(s)
  {
    hide TakeSidecars, SidecarBytes, Get32;
    TakeSidecarBytes(s.copies, SidecarBytes(s.inlines));
    assert SidecarBytes(s.inlines) + [] == SidecarBytes(s.inlines);
    TakeSidecarBytes(s.inlines, []);
  }

  lemma ListsRoundTrip(s: Segment)
    requires |SidecarBytes(s.copies)| < TWO_32 && |SidecarBytes(s.inlines)| < TWO_32
    ensures TakeLists(Le(|s.copies| % TWO_32, 4) + Le(|s.inlines| % TWO_32, 4) +
                      SidecarBytes(s.copies) + SidecarBytes(s.inlines), s.path, s.header) == Some(s)
  {
    hide TakeSidecars, SidecarBytes, TakeLists, Le, Get32;
    SidecarLength(s.copies);
    SidecarLength(s.inlines);
    var c, i := Le(|s.copies| % TWO_32, 4), Le(|s.inlines| % TWO_32, 4);
    Get32Le(|s.copies|);
    Get32Le(|s.inlines|);
    TwoCounts(c, i, SidecarBytes(s.copies), SidecarBytes(s.inlines));
    TakeListsFrom(s, c + i + SidecarBytes(s.copies) + SidecarBytes(s.inlines));
  }

  /** A segment whose blob fits the ring is opened exactly as it was requested. */
  lemma SegmentRoundTrip(s: Segment)
    requires |SegmentBytes(s)| < TWO_32
    ensures ParseSegment(SegmentBytes(s)) == Some(s)
  {
    hide StringBytes, TakeString, TakeLists, SidecarBytes, Le;
    StringLength(s.path);
    StringLength(s.header);
    var lists := Le(|s.copies| % TWO_32, 4) + Le(|s.inlines| % TWO_32, 4) + SidecarBytes(s.copies) + SidecarBytes(s.inlines);
    assert SegmentBytes(s) == StringBytes(s.path) + (StringBytes(s.header) + lists);
    TakeStringBytes(s.path, StringBytes(s.header) + lists);
    TakeStringBytes(s.header, lists);
    ListsRoundTrip(s);
  }

  /** `take_string`, moving `at` through the blob. */
  method TakeStringAt(blob: seq<Byte>, at: nat) returns (s: Option<seq<Byte>>, next: nat)
    requires at <= |blob|
    ensures at <= next <= |blob|
    ensures match TakeString(blob[at..])
            case None => s == None
            case Some((taken, rest)) => s == Some(taken) && blob[next..] == rest
  {
    hide Get32;
    ghost var b := blob[at..];
    if at + 4 > |blob| {
      return None, at;
    }
    assert blob[at..at + 4] == b[..4];
    var n := Get32(blob[at..at + 4]);
    if at + 4 + n > |blob| {
      return None, at;
    }
    assert blob[at + 4..at + 4 + n] == b[4..4 + n] && blob[at + 4 + n..] == b[4 + n..];
    return Some(blob[at + 4..at + 4 + n]), at + 4 + n;
  }

  /** The loop over the sidecars, or over the inline texts. */
  method TakeSidecarsAt(blob: seq<Byte>, at: nat, n: nat) returns (l: Option<seq<Sidecar>>, next: nat)
    requires at <= |blob|
    ensures at <= next <= |blob|
    ensures match TakeSidecars(blob[at..], n)
            case None => l == None
            case Some((taken, rest)) => l == Some(taken) && blob[next..] == rest
  {
    hide TakeString, TakeSidecars, Follows;
    var taken: seq<Sidecar> := [];
    next := at;
    ghost var whole := TakeSidecars(blob[at..], n);
    SidecarsStart(whole);
    for i := 0 to n
      invariant at <= next <= |blob| && |taken| == i
      invariant Follows(whole, taken, TakeSidecars(blob[next..], n - i))
    {
      SidecarTurn(whole, taken, blob[next..], n - i);
      var source, dest;
      source, next := TakeStringAt(blob, next);
      if source.None? {
        return None, next;
      }
      dest, next := TakeStringAt(blob, next);
      if dest.None? {
        return None, next;
      }
      taken := taken + [Sidecar(source.value, dest.value)];
    }
    SidecarsEnd(whole, taken, blob[next..]);
    l := Some(taken);
  }

  /** The whole list is what was taken so far, followed by the rest. */
  ghost predicate Follows(whole: Option<(seq<Sidecar>, seq<Byte>)>, taken: seq<Sidecar>, rest: Option<(seq<Sidecar>, seq<Byte>)>) {
    whole == match rest { case None => None case Some((l, b)) => Some((taken + l, b)) }
  }

  lemma SidecarsStart(whole: Option<(seq<Sidecar>, seq<Byte>)>)
    ensures Follows(whole, [], whole)
  {
    if whole.Some? {
      assert [] + whole.value.0 == whole.value.0;
    }
  }

  lemma SidecarsEnd(whole: Option<(seq<Sidecar>, seq<Byte>)>, taken: seq<Sidecar>, b: seq<Byte>)
    requires Follows(whole, taken, TakeSidecars(b, 0))
    ensures whole == Some((taken, b))
  {
    assert taken + [] == taken;
  }

  lemma SidecarTurn(whole: Option<(seq<Sidecar>, seq<Byte>)>, taken: seq<Sidecar>, b: seq<Byte>, n: nat)
    requires n > 0 && Follows(whole, taken, TakeSidecars(b, n))
    ensures match TakeString(b) {
              case None => whole == None
              case Some((source, rest)) =>
                match TakeString(rest) {
                  case None => whole == None
                  case Some((dest, rest)) => Follows(whole, taken + [Sidecar(source, dest)], TakeSidecars(rest, n - 1))
                }
            }
  {
    hide TakeString;
    match TakeString(b) {
      case None =>
      case Some((source, rest)) =>
        match TakeString(rest) {
          case None =>
          case Some((dest, rest)) =>
            var more := TakeSidecars(rest, n - 1);
            if more.Some? {
              assert taken + [Sidecar(source, dest)] + more.value.0 == taken + ([Sidecar(source, dest)] + more.value.0);
            }
        }
    }
  }

  /** The worker's pass over a BEGIN payload. */
  method ReadSegment(blob: seq<Byte>) returns (r: Option<Segment>)
    ensures r == ParseSegment(blob)
  {
    hide TakeString, TakeSidecars, Get32;
    assert blob[0..] == blob;
    var path, cursor := TakeStringAt(blob, 0);
    if path.None? {
      return None;
    }
    var header;
    header, cursor := TakeStringAt(blob, cursor);
    if header.None? {
      return None;
    }
    r := ReadLists(blob, cursor, path.value, header.value);
  }

  method ReadLists(blob: seq<Byte>, cursor: nat, path: seq<Byte>, header: seq<Byte>) returns (r: Option<Segment>)
    requires cursor <= |blob|
    ensures r == TakeLists(blob[cursor..], path, header)
  {
    hide TakeSidecars, Get32;
    ghost var b := blob[cursor..];
    if cursor + 8 > |blob| {
      return None;
    }
    assert blob[cursor..cursor + 4] == b[..4] && blob[cursor + 4..cursor + 8] == b[4..8] && blob[cursor + 8..] == b[8..];
    var copies, inlines := Get32(blob[cursor..cursor + 4]), Get32(blob[cursor + 4..cursor + 8]);
    var copied, at := TakeSidecarsAt(blob, cursor + 8, copies);
    if copied.None? {
      return None;
    }
    var written;
    written, at := TakeSidecarsAt(blob, at, inlines);
    if written.None? {
      return None;
    }
    r := Some(Segment(path, header, copied.value, written.value));
  }

  // ── From requests to calls ────────────────────────────────────────

  /** The reuse mask: bit `i` is part `i`'s flag. */
  function Mask(parts: seq<FramePart>): nat {
    if parts == [] then 0 else (if parts[0].reuse then 1 else 0) + 2 * Mask(parts[1..])
  }

  /** `mask & (1 << i)`. */
  predicate Bit(mask: nat, i: nat) {
    if i == 0 then mask % 2 == 1 else Bit(mask / 2, i - 1)
  }

  function Pow2(n: nat): nat { if n == 0 then 1 else 2 * Pow2(n - 1) }

  lemma {:induction false} MaskBit(parts: seq<FramePart>, i: nat)
    requires i < |parts|
    ensures Bit(Mask(parts), i) == parts[i].reuse
  {
    if i > 0 {
      assert Mask(parts) / 2 == Mask(parts[1..]);
      MaskBit(parts[1..], i - 1);
    }
  }

  lemma {:induction false} MaskSnoc(parts: seq<FramePart>, p: FramePart)
    ensures Mask(parts + [p]) == Mask(parts) + (if p.reuse then Pow2(|parts|) else 0)
  {
    if parts != [] {
      assert (parts + [p])[1..] == parts[1..] + [p];
      MaskSnoc(parts[1..], p);
    }
  }

  lemma {:induction false} MaskBound(parts: seq<FramePart>)
    ensures Mask(parts) < Pow2(|parts|)
  {
    if parts != [] {
      MaskBound(parts[1..]);
    }
  }

  /** The parts whose bytes travel. */
  function Carried(parts: seq<FramePart>): seq<Part> {
    if parts == [] then []
    else (if parts[0].reuse then [] else [parts[0].region]) + Carried(parts[1..])
  }

  function CarriedSize(p: FramePart): nat { if p.reuse then 0 else p.region.Size() }

  /** Every payload is smaller than the address space. */
  predicate Fits(parts: seq<Part>) { HEADER_BYTES + Total(parts) < TWO_64 }

  lemma {:induction false} CarriedTotal(parts: seq<FramePart>, i: nat)
    requires i < |parts|
    ensures CarriedSize(parts[i]) <= Total(Carried(parts))
  {
    if parts[0].reuse {
      assert Carried(parts) == Carried(parts[1..]);
    } else {
      assert Carried(parts)[1..] == Carried(parts[1..]);
    }
    if i > 0 {
      CarriedTotal(parts[1..], i - 1);
    }
  }

  const NO_SIZES: Sizes := [0, 0, 0, 0, 0, 0, 0, 0, 0, 0, 0, 0]

  function SizeField(parts: seq<FramePart>, i: nat): U64
    requires Fits(Carried(parts))
  {
    if i < |parts| then CarriedTotal(parts, i); CarriedSize(parts[i]) else 0
  }

  function FrameSizes(parts: seq<FramePart>): (r: Sizes)
    requires |parts| <= MAX_PARTS && Fits(Carried(parts))
    ensures forall i :: 0 <= i < 12 ==> r[i] == if i < |parts| then CarriedSize(parts[i]) else 0
  {
    var r: seq<U64> := seq(12, i requires 0 <= i => SizeField(parts, i));
    r
  }

  function Plain(op: U32, size: U64): Command { Command(op, 0, size, 0, 0, NO_SIZES, 0) }

  function Parts(r: Request): seq<Part> {
    match r
    case Begin(segment) => [Bytes(SegmentBytes(segment))]
    case Snapshot(image, _) => [image]
    case Line(text) => [Bytes(text)]
    case Frame(_, parts) => Carried(parts)
    case Remove(path) => [Bytes(path)]
    case End => []
  }

  /** A frame of more than twelve parts is refused before it reaches the ring. */
  predicate Valid(r: Request) { (r.Frame? ==> |r.parts| <= MAX_PARTS) && Fits(Parts(r)) }

  function CommandOf(r: Request): Command
    requires Valid(r)
  {
    var size := Total(Parts(r));
    match r
    case Begin(_) => Plain(BEGIN, size)
    case Snapshot(_, kind) => Plain(SNAPSHOT, size).(kind := kind)
    case Line(_) => Plain(LINE, size)
    case Frame(frame, parts) =>
      MaskBound(parts);
      PowBound(|parts|);
      Command(FRAME, |parts|, size, frame, 0, FrameSizes(parts), Mask(parts))
    case Remove(_) => Plain(REMOVE, size)
    case End => Plain(END, size)
  }

  /** The command of each request, field by field: its code, the bytes it announces, and what only snapshots and frames fill in. */
  lemma CommandExact(r: Request)
    requires Valid(r)
    ensures var c := CommandOf(r);
            && c.op == (match r
                        case Begin(_) => 1
                        case Snapshot(_, _) => 2
                        case Line(_) => 3
                        case Frame(_, _) => 4
                        case Remove(_) => 5
                        case End => 6)
            && c.size == Total(Parts(r)) && c.kind == (if r.Snapshot? then r.kind else 0)
            && c.count == (if r.Frame? then |r.parts| else 0) && c.frame == (if r.Frame? then r.frame else 0)
            && c.reuseMask == (if r.Frame? then Mask(r.parts) else 0)
            && forall i :: 0 <= i < 12 ==> c.sizes[i] == if r.Frame? && i < |r.parts| then CarriedSize(r.parts[i]) else 0
    ensures !r.Frame? && !r.Snapshot? ==>
              Payload(Parts(r)) == if r.Begin? then SegmentBytes(r.segment) else if r.Line? then r.text else if r.Remove? then r.path else []
  {
    hide Mask, SegmentBytes, CarriedSize;
    if !r.Frame? && !r.Snapshot? && Parts(r) != [] {
      assert Payload(Parts(r)[1..]) == [];
    }
  }

  /** The begin blob: path and header behind their lengths, both counts, then the copied and the inlined files. */
  lemma SegmentLayout(s: Segment)
    requires |SegmentBytes(s)| < 0x1_0000_0000
    ensures var b := SegmentBytes(s); var n, m := |s.path|, |s.header|;
            && |b| >= 16 + n + m && |s.copies| < 0x1_0000_0000 && |s.inlines| < 0x1_0000_0000
            && Get32(b[..4]) == n && b[4..4 + n] == s.path && Get32(b[4 + n..8 + n]) == m && b[8 + n..8 + n + m] == s.header
            && Get32(b[8 + n + m..12 + n + m]) == |s.copies| && Get32(b[12 + n + m..16 + n + m]) == |s.inlines|
            && b[16 + n + m..] == SidecarBytes(s.copies) + SidecarBytes(s.inlines)
  {
    hide Le, Get32, SidecarBytes, SegmentBytes, StringBytes;
    var n, m := |s.path|, |s.header|;
    SegmentIs(s);
    Get32Le(n);
    Get32Le(m);
    Get32Le(|s.copies|);
    Get32Le(|s.inlines|);
    SegmentPieces(SegmentBytes(s), Le(n, 4), s.path, Le(m, 4), s.header, Le(|s.copies|, 4), Le(|s.inlines|, 4),
                  SidecarBytes(s.copies), SidecarBytes(s.inlines));
  }

  lemma SegmentIs(s: Segment)
    requires |SegmentBytes(s)| < 0x1_0000_0000
    ensures |s.path| < 0x1_0000_0000 && |s.header| < 0x1_0000_0000
    ensures |s.copies| < 0x1_0000_0000 && |s.inlines| < 0x1_0000_0000
    ensures SegmentBytes(s) ==
            (Le(|s.path|, 4) + s.path) + (Le(|s.header|, 4) + s.header) + Le(|s.copies|, 4) + Le(|s.inlines|, 4)
            + SidecarBytes(s.copies) + SidecarBytes(s.inlines)
  {
    StringLength(s.path);
    StringLength(s.header);
    SidecarCount(s.copies);
    SidecarCount(s.inlines);
    SegmentAtLeast(s);
    StringIs(s.path);
    StringIs(s.header);
    Fits32(|s.copies|);
    Fits32(|s.inlines|);
    hide Le, SidecarBytes, StringBytes;
  }

  lemma Fits32(n: nat)
    requires n < 0x1_0000_0000
    ensures n % TWO_32 == n
  {
  }

  lemma StringIs(s: seq<Byte>)
    requires |s| < 0x1_0000_0000
    ensures StringBytes(s) == Le(|s|, 4) + s
  {
    Fits32(|s|);
  }

  lemma SegmentAtLeast(s: Segment)
    ensures |SegmentBytes(s)| ==
            |StringBytes(s.path)| + |StringBytes(s.header)| + 8 + |SidecarBytes(s.copies)| + |SidecarBytes(s.inlines)|
  {
    hide StringBytes, SidecarBytes, Le;
  }

  lemma SegmentPieces(b: seq<Byte>, a: seq<Byte>, path: seq<Byte>, c: seq<Byte>, header: seq<Byte>, d: seq<Byte>, e: seq<Byte>,
                      f: seq<Byte>, g: seq<Byte>)
    requires |a| == |c| == |d| == |e| == 4 && b == (a + path) + (c + header) + d + e + f + g
    ensures var n, m := |path|, |header|;
            && |b| >= 16 + n + m && b[..4] == a && b[4..4 + n] == path && b[4 + n..8 + n] == c && b[8 + n..8 + n + m] == header
            && b[8 + n + m..12 + n + m] == d && b[12 + n + m..16 + n + m] == e && b[16 + n + m..] == f + g
  {
  }

  lemma {:induction false} SidecarCount(l: seq<Sidecar>)
    ensures |SidecarBytes(l)| >= 8 * |l|
  {
    hide StringBytes;
    if l != [] {
      StringLength(l[0].source);
      StringLength(l[0].dest);
      SidecarCount(l[1..]);
    }
  }

  lemma PowBound(n: nat)
    requires n <= 12
    ensures Pow2(n) <= 4096
  {
    assert Pow2(4) == 16;
    assert Pow2(8) == 256;
    assert Pow2(12) == 4096;
    if n < 12 { PowMonotone(n, 12); }
  }

  lemma {:induction false} PowMonotone(m: nat, n: nat)
    requires m <= n
    ensures Pow2(m) <= Pow2(n)
  {
    if m < n {
      PowMonotone(m, n - 1);
    }
  }

  function CallOf(r: Request, pad: seq<Byte>): (c: Call)
    requires Valid(r) && |pad| == 8
    ensures c.WF()
  {
    Call(CommandOf(r), pad, Parts(r))
  }

  /** `frame`: one pass over the parts builds the mask, the sizes and the payload list. */
  method BuildFrame(frame: U64, parts: seq<FramePart>, pad: seq<Byte>) returns (r: Option<Call>)
    requires |pad| == 8 && Fits(Carried(parts))
    ensures r.None? <==> |parts| > 12
    ensures r.Some? ==> r.value == CallOf(Frame(frame, parts), pad)
  {
    if |parts| > MAX_PARTS {
      return None;
    }
    var mask, size, sizes, data := 0, 0, new nat[12](_ => 0), [];
    assert parts[..|parts|] == parts;
    for i := 0 to |parts|
      invariant mask == Mask(parts[..i]) && data == Carried(parts[..i]) && size == Total(data)
      invariant forall k :: 0 <= k < 12 ==> sizes[k] == if k < i then CarriedSize(parts[k]) else 0
    {
      assert parts[..i + 1] == parts[..i] + [parts[i]];
      MaskSnoc(parts[..i], parts[i]);
      CarriedSnoc(parts[..i], parts[i]);
      if parts[i].reuse {
        mask := mask + Pow2(i);
      } else {
        TotalSnoc(data, parts[i].region);
        sizes[i] := parts[i].region.Size();
        size := size + parts[i].region.Size();
        data := data + [parts[i].region];
      }
    }
    MaskBound(parts);
    PowBound(|parts|);
    assert sizes[..] == FrameSizes(parts);
    r := Some(Call(Command(FRAME, |parts|, size, frame, 0, FrameSizes(parts), mask), pad, data));
  }

  /**
   `frame`, with nobody interfering: too many parts set the error for good without touching the
   queue; otherwise the command built is enqueued.
   */
  method SendFrame(ring: ReplayChannel.Ring, frame: U64, parts: seq<FramePart>, pad: seq<Byte>, ghost s: State)
    returns (ok: bool)
    requires ring.Matches(s) && s.producer.Idle? && s.tailsSeen < |s.tails|
    requires |pad| == 8 && Fits(Carried(parts))
    modifies ring`error, ring`full, ring`head, ring`writePos, ring.ring
    ensures |parts| > 12 ==> !ok && ring.Matches(Step(s, Refuse))
    ensures |parts| <= 12 ==>
              var call := CallOf(Frame(frame, parts), pad);
              ring.Matches(EnqueueAlone(s, call)) && ok == (EnqueueAlone(s, call).accepted != s.accepted)
  {
    hide EnqueueAlone, CallOf, Carried, Total;
    var call := BuildFrame(frame, parts, pad);
    if call.None? {
      ring.Fail(INVALID);
      return false;
    }
    ok := ring.Enqueue(call.value, s);
  }

  lemma {:induction false} CarriedSnoc(parts: seq<FramePart>, p: FramePart)
    ensures Carried(parts + [p]) == Carried(parts) + (if p.reuse then [] else [p.region])
  {
    if parts != [] {
      assert (parts + [p])[1..] == parts[1..] + [p];
      CarriedSnoc(parts[1..], p);
    }
  }

  lemma {:induction false} TotalSnoc(parts: seq<Part>, p: Part)
    ensures Total(parts + [p]) == Total(parts) + p.Size()
  {
    if parts != [] {
      assert (parts + [p])[1..] == parts[1..] + [p];
      TotalSnoc(parts[1..], p);
    }
  }

  // ── The worker's files ────────────────────────────────────────────

  type Hashes = s: seq<bv64> | |s| == 12 witness [0, 0, 0, 0, 0, 0, 0, 0, 0, 0, 0, 0]

  const NO_HASHES: Hashes := [0, 0, 0, 0, 0, 0, 0, 0, 0, 0, 0, 0]

  /** What the worker has done, in order; `Checkpoint` and `FrameLine` are lines of the text file. */
  datatype Event =
    | Opened(segment: Segment)
    | Checkpoint(offset: nat, size: nat, hash: bv64, kind: U32)
    | Text(text: seq<Byte>)
    | FrameLine(frame: U64, hashes: seq<bv64>)
    | Removed(path: seq<Byte>)
    | Closed

  /** `states` is the content of the open segment's state file. */
  datatype Files = Files(open: bool, offset: nat, states: seq<Byte>, lastHash: Hashes, log: seq<Event>)

  const NoFiles: Files := Files(false, 0, [], NO_HASHES, [])

  /** Where part `i`'s bytes start in a frame's payload: reused parts have none. */
  function Start(cmd: Command, i: nat): nat
    requires i <= 12
  {
    if i == 0 then 0 else Start(cmd, i - 1) + (if Bit(cmd.reuseMask, i - 1) then 0 else cmd.sizes[i - 1])
  }

  /** The payload holds exactly the parts that are not reused. */
  predicate FrameShape(cmd: Command, payload: seq<Byte>) {
    cmd.count <= 12 && Start(cmd, cmd.count) == |payload|
  }

  lemma {:induction false} StartMonotone(cmd: Command, i: nat, j: nat)
    requires i <= j <= 12
    ensures Start(cmd, i) <= Start(cmd, j)
  {
    if i < j {
      StartMonotone(cmd, i, j - 1);
    }
  }

  /** The bytes of part `i`, which is not reused. */
  function PartBytes(cmd: Command, payload: seq<Byte>, i: nat): seq<Byte>
    requires FrameShape(cmd, payload) && i < cmd.count && !Bit(cmd.reuseMask, i)
  {
    StartMonotone(cmd, i + 1, cmd.count);
    payload[Start(cmd, i)..Start(cmd, i + 1)]
  }

  /** The remembered hash of part `i` after a frame. */
  function NextHash(last: Hashes, cmd: Command, payload: seq<Byte>, i: nat): bv64
    requires FrameShape(cmd, payload) && i < 12
  {
    if i < cmd.count && !Bit(cmd.reuseMask, i) then ReplayHash.HashOf(PartBytes(cmd, payload, i)) else last[i]
  }

  function NextHashes(last: Hashes, cmd: Command, payload: seq<Byte>): (r: Hashes)
    requires FrameShape(cmd, payload)
    ensures forall i :: 0 <= i < 12 ==> r[i] == NextHash(last, cmd, payload, i)
  {
    var r: seq<bv64> := seq(12, i requires 0 <= i < 12 => NextHash(last, cmd, payload, i));
    r
  }

  predicate Sound(r: Record) { r.cmd.op == FRAME ==> FrameShape(r.cmd, r.payload) }

  /** One turn of the worker whose file operations succeed; `None` where it fails all the same. */
  function Process(f: Files, r: Record): Option<Files>
    requires Sound(r)
  {
    if r.cmd.op == BEGIN then
      match ParseSegment(r.payload)
      case None => None
      case Some(segment) => Some(Files(true, 0, [], NO_HASHES, f.log + [Opened(segment)]))
    else if r.cmd.op == SNAPSHOT then
      if !f.open then None
      else
        var line := Checkpoint(f.offset, |r.payload|, ReplayHash.HashOf(r.payload), r.cmd.kind);
        Some(f.(offset := f.offset + |r.payload|, states := f.states + r.payload, log := f.log + [line]))
    else if r.cmd.op == LINE then
      if !f.open then None else Some(f.(log := f.log + [Text(r.payload)]))
    else if r.cmd.op == FRAME then
      if !f.open then None
      else
        var hashes := NextHashes(f.lastHash, r.cmd, r.payload);
        Some(f.(lastHash := hashes, log := f.log + [FrameLine(r.cmd.frame, hashes[..r.cmd.count])]))
    else if r.cmd.op == REMOVE then Some(f.(log := f.log + [Removed(r.payload)]))
    else if r.cmd.op == END then Some(f.(open := false, log := f.log + [Closed]))
    else None
  }

  lemma StartNext(cmd: Command)
    ensures Start(cmd, 0) == 0
    ensures forall i :: 0 <= i < 12 ==> Start(cmd, i + 1) == Start(cmd, i) + if Bit(cmd.reuseMask, i) then 0 else cmd.sizes[i]
  {
    hide Bit;
  }

  /** One part's bytes through a fresh hash. */
  method RingHash(ring: ReplayChannel.Ring, at: nat, n: nat) returns (hash: bv64)
    requires ring.Valid() && at < QUEUE_BYTES && n <= QUEUE_BYTES
    ensures hash == ReplayHash.HashOf(Taken(ring.ring[..], at, n))
  {
    hide ReplayHash.Update, ReplayHash.Finish, Taken;
    var h := new ReplayHash.StreamingHash();
    ring.HashRing(h, at, n);
    hash := h.FinishHash();
  }

  /** The frame case in place: the parts are hashed straight out of the ring. */
  method HashFrame(ring: ReplayChannel.Ring, start: nat, cmd: Command, last: array<bv64>)
    requires ring.Valid() && start < QUEUE_BYTES && last.Length == 12 && cmd.count <= 12
    requires Start(cmd, cmd.count) <= QUEUE_BYTES
    modifies last
    ensures FrameShape(cmd, Taken(ring.ring[..], start, Start(cmd, cmd.count)))
    ensures last[..] == NextHashes(old(last[..]), cmd, Taken(ring.ring[..], start, Start(cmd, cmd.count)))
  {
    hide ReplayHash.HashOf, Bit, Taken, Start;
    ghost var payload := Taken(ring.ring[..], start, Start(cmd, cmd.count));
    ghost var before := last[..];
    var at := start;
    StartNext(cmd);
    for i := 0 to cmd.count
      invariant at == (start + Start(cmd, i)) % QUEUE_BYTES
      invariant forall k :: 0 <= k < 12 ==> last[k] == if k < i then NextHash(before, cmd, payload, k) else before[k]
    {
      StartMonotone(cmd, i + 1, cmd.count);
      if !Bit(cmd.reuseMask, i) {
        ghost var at0 := at;
        var hash := RingHash(ring, at, cmd.sizes[i]);
        TakenInside(ring.ring[..], start, Start(cmd, cmd.count), Start(cmd, i), cmd.sizes[i]);
        ChainedAt(start, Start(cmd, i), cmd.sizes[i]);
        at := (at + cmd.sizes[i]) % QUEUE_BYTES;
        assert PartBytes(cmd, payload, i) == Taken(ring.ring[..], at0, cmd.sizes[i]);
        last[i] := hash;
      }
    }
  }

  lemma TakenInside(ring: seq<Byte>, at: nat, n: nat, m: nat, k: nat)
    requires |ring| == QUEUE_BYTES && m + k <= n
    ensures Taken(ring, at, n)[m..m + k] == Taken(ring, (at + m) % QUEUE_BYTES, k)
  {
    var inner := Taken(ring, (at + m) % QUEUE_BYTES, k);
    forall i | 0 <= i < k ensures Taken(ring, at, n)[m..m + k][i] == inner[i] {
      ChainedAt(at, m, i);
    }
  }

  // ── What the files say about the requests ─────────────────────────

  function Data(p: Part): seq<Byte> { if p.Bytes? then p.data else [] }

  /** The bytes last supplied for part `i` since the segment began. */
  function LastBytes(rs: seq<Request>, i: nat): Option<seq<Byte>> {
    if rs == [] then None
    else
      var r := rs[|rs| - 1];
      if r.Begin? then None
      else if r.Frame? && i < |r.parts| && !r.parts[i].reuse then Some(Data(r.parts[i].region))
      else LastBytes(rs[..|rs| - 1], i)
  }

  function PartHash(rs: seq<Request>, i: nat): bv64 {
    match LastBytes(rs, i)
    case None => 0
    case Some(data) => ReplayHash.HashOf(data)
  }

  /** Every snapshot since the segment began, one after the other. */
  function Checkpoints(rs: seq<Request>): seq<Byte> {
    if rs == [] then []
    else
      var r := rs[|rs| - 1];
      if r.Begin? then []
      else Checkpoints(rs[..|rs| - 1]) + (if r.Snapshot? then Data(r.image) else [])
  }

  predicate SegmentOpen(rs: seq<Request>) {
    rs != [] && (rs[|rs| - 1].Begin? || (!rs[|rs| - 1].End? && SegmentOpen(rs[..|rs| - 1])))
  }

  /** Lines, snapshots and frames come between a begin and an end. */
  predicate InSegments(rs: seq<Request>) {
    rs != [] ==>
      var r := rs[|rs| - 1];
      InSegments(rs[..|rs| - 1]) && (r.Snapshot? || r.Line? || r.Frame? ==> SegmentOpen(rs[..|rs| - 1]))
  }

  /** What request number |rs| must leave behind, told from the requests alone. */
  function EventOf(rs: seq<Request>): Event
    requires rs != []
  {
    match rs[|rs| - 1]
    case Begin(segment) => Opened(segment)
    case Snapshot(image, kind) =>
      Checkpoint(|Checkpoints(rs[..|rs| - 1])|, |Data(image)|, ReplayHash.HashOf(Data(image)), kind)
    case Line(text) => Text(text)
    case Frame(frame, parts) => FrameLine(frame, seq(|parts|, i requires 0 <= i => PartHash(rs, i)))
    case Remove(path) => Removed(path)
    case End => Closed
  }

  function Log(rs: seq<Request>): seq<Event> {
    if rs == [] then [] else Log(rs[..|rs| - 1]) + [EventOf(rs)]
  }

  function Expected(rs: seq<Request>): Files {
    var hashes: seq<bv64> := seq(12, i requires 0 <= i => PartHash(rs, i));
    Files(SegmentOpen(rs), |Checkpoints(rs)|, Checkpoints(rs), hashes, Log(rs))
  }

  /**
   The log line by line: request `k` has left line `k`, which carries what that request asked to be
   written; a frame's line has one hash for each part, that of the bytes it supplied or the one
   remembered; a checkpoint's has the size and the hash of its image.
   */
  lemma {:induction false} LogExact(rs: seq<Request>, k: nat)
    requires k < |rs|
    ensures |Log(rs)| == |rs|
    ensures match rs[k]
            case Begin(segment) => Log(rs)[k] == Opened(segment)
            case Line(text) => Log(rs)[k] == Text(text)
            case Remove(path) => Log(rs)[k] == Removed(path)
            case End => Log(rs)[k] == Closed
            case Snapshot(image, kind) =>
              && Log(rs)[k].Checkpoint? && Log(rs)[k].kind == kind && Log(rs)[k].size == |Data(image)|
              && Log(rs)[k].hash == ReplayHash.HashOf(Data(image))
            case Frame(frame, parts) =>
              && Log(rs)[k].FrameLine? && Log(rs)[k].frame == frame && |Log(rs)[k].hashes| == |parts|
              && forall i :: 0 <= i < |parts| ==>
                   Log(rs)[k].hashes[i] ==
                     if parts[i].reuse then PartHash(rs[..k], i) else ReplayHash.HashOf(Data(parts[i].region))
  {
    hide ReplayHash.HashOf, Data, Checkpoints;
    var n := |rs| - 1;
    LogLength(rs);
    LogLength(rs[..n]);
    if k < n {
      assert rs[..n][..k] == rs[..k];
      LogExact(rs[..n], k);
    } else if rs[n].Frame? {
      forall i | 0 <= i < |rs[n].parts|
        ensures PartHash(rs, i) ==
                if rs[n].parts[i].reuse then PartHash(rs[..n], i) else ReplayHash.HashOf(Data(rs[n].parts[i].region))
      {
        PartHashExact(rs, i);
      }
    }
  }

  /** The remembered hash of part `i`: nought when a segment begins, new with each frame that supplies the part. */
  lemma PartHashExact(rs: seq<Request>, i: nat)
    ensures rs == [] || rs[|rs| - 1].Begin? ==> PartHash(rs, i) == 0
    ensures rs != [] && rs[|rs| - 1].Frame? && i < |rs[|rs| - 1].parts| && !rs[|rs| - 1].parts[i].reuse ==>
              PartHash(rs, i) == ReplayHash.HashOf(Data(rs[|rs| - 1].parts[i].region))
    ensures rs != [] && !rs[|rs| - 1].Begin? && !(rs[|rs| - 1].Frame? && i < |rs[|rs| - 1].parts| && !rs[|rs| - 1].parts[i].reuse) ==>
              PartHash(rs, i) == PartHash(rs[..|rs| - 1], i)
  {
    hide ReplayHash.HashOf, Data;
  }

  /** The commands in the ring are those of the requests, with any padding. */
  ghost predicate Built(rs: seq<Request>, calls: seq<Call>) {
    |rs| == |calls| && forall k :: 0 <= k < |rs| ==> Comes(rs[k], calls[k])
  }

  /** An accepted call made of this request. */
  ghost predicate Comes(r: Request, c: Call) {
    Valid(r) && |c.pad| == 8 && c == CallOf(r, c.pad) && c.Clean() && HEADER_BYTES + c.cmd.size < QUEUE_BYTES
  }

  lemma FrameFields(r: Request, i: nat)
    requires r.Frame? && Valid(r) && i < |r.parts|
    ensures Bit(CommandOf(r).reuseMask, i) == r.parts[i].reuse
    ensures CommandOf(r).sizes[i] == CarriedSize(r.parts[i])
  {
    MaskBit(r.parts, i);
    hide Bit, Mask, Total, Carried;
  }

  /** One more part carries its size further. */
  lemma CarriedStep(parts: seq<FramePart>, i: nat)
    requires i < |parts|
    ensures Carried(parts[..i + 1]) == Carried(parts[..i]) + (if parts[i].reuse then [] else [parts[i].region])
    ensures Total(Carried(parts[..i + 1])) == Total(Carried(parts[..i])) + CarriedSize(parts[i])
  {
    assert parts[..i + 1] == parts[..i] + [parts[i]];
    CarriedSnoc(parts[..i], parts[i]);
    if parts[i].reuse {
      assert Carried(parts[..i]) + [] == Carried(parts[..i]);
    } else {
      TotalSnoc(Carried(parts[..i]), parts[i].region);
    }
  }

  lemma {:induction false} StartCarried(r: Request, i: nat)
    requires r.Frame? && Valid(r) && i <= |r.parts|
    ensures Start(CommandOf(r), i) == Total(Carried(r.parts[..i]))
  {
    hide Bit, CommandOf, Carried, Total;
    if i > 0 {
      StartCarried(r, i - 1);
      FrameFields(r, i - 1);
      CarriedStep(r.parts, i - 1);
    } else {
      StartNone(r.parts);
    }
  }

  lemma StartNone(parts: seq<FramePart>)
    ensures Total(Carried(parts[..0])) == 0
  {
  }

  predicate AllClean(parts: seq<Part>) { forall i :: 0 <= i < |parts| ==> !parts[i].Bad() }

  lemma {:induction false} PayloadAppend(a: seq<Part>, b: seq<Part>)
    requires AllClean(a)
    ensures Payload(a + b) == Payload(a) + Payload(b)
  {
    if a == [] {
      assert a + b == b;
    } else {
      assert (a + b)[1..] == a[1..] + b;
      PayloadAppend(a[1..], b);
    }
  }

  lemma {:induction false} CarriedAppend(a: seq<FramePart>, b: seq<FramePart>)
    ensures Carried(a + b) == Carried(a) + Carried(b)
  {
    if a == [] {
      assert a + b == b;
    } else {
      assert (a + b)[1..] == a[1..] + b;
      CarriedAppend(a[1..], b);
    }
  }

  /** The payload splits at every part boundary. */
  lemma PayloadSplits(parts: seq<FramePart>, i: nat)
    requires i <= |parts| && AllClean(Carried(parts))
    ensures Payload(Carried(parts)) == Payload(Carried(parts[..i])) + Payload(Carried(parts[i..]))
    ensures |Payload(Carried(parts[..i]))| == Total(Carried(parts[..i]))
  {
    assert parts == parts[..i] + parts[i..];
    CarriedAppend(parts[..i], parts[i..]);
    var a, all := Carried(parts[..i]), Carried(parts);
    assert all == a + Carried(parts[i..]);
    assert forall k :: 0 <= k < |a| ==> a[k] == all[k];
    PayloadAppend(a, Carried(parts[i..]));
    PayloadSize(a);
  }

  lemma FrameIsSound(r: Request)
    requires r.Frame? && Valid(r) && AllClean(Parts(r))
    ensures FrameShape(CommandOf(r), Payload(Parts(r)))
  {
    StartCarried(r, |r.parts|);
    assert r.parts[..|r.parts|] == r.parts;
    PayloadSize(Parts(r));
  }

  /** Where a part's bytes lie in the joined payload. */
  lemma PartInPayload(parts: seq<FramePart>, i: nat)
    requires i < |parts| && AllClean(Carried(parts)) && !parts[i].reuse
    ensures var from, to := Total(Carried(parts[..i])), Total(Carried(parts[..i + 1]));
            from <= to <= |Payload(Carried(parts))| && Payload(Carried(parts))[from..to] == Data(parts[i].region)
  {
    PayloadSplits(parts, i);
    PayloadSplits(parts, i + 1);
    CarriedStep(parts, i);
    var a, p := Carried(parts[..i]), parts[i].region;
    CleanFront(parts, i);
    PayloadAppend(a, [p]);
    OnePart(p);
    hide Payload, Carried, Total;
    Middle(Payload(a), Data(p), Payload(Carried(parts[i + 1..])));
  }

  lemma Middle(a: seq<Byte>, d: seq<Byte>, rest: seq<Byte>)
    ensures (a + d + rest)[|a|..|a + d|] == d
  {
  }

  lemma CleanAppend(a: seq<Part>, b: seq<Part>)
    requires AllClean(a + b)
    ensures AllClean(a) && AllClean(b)
  {
    forall i | 0 <= i < |a| ensures !a[i].Bad() { assert (a + b)[i] == a[i]; }
    forall i | 0 <= i < |b| ensures !b[i].Bad() { assert (a + b)[|a| + i] == b[i]; }
  }

  lemma CleanFront(parts: seq<FramePart>, i: nat)
    requires i < |parts| && AllClean(Carried(parts)) && !parts[i].reuse
    ensures AllClean(Carried(parts[..i])) && !parts[i].region.Bad()
  {
    hide Carried, AllClean;
    CarriedStep(parts, i);
    assert parts == parts[..i + 1] + parts[i + 1..];
    CarriedAppend(parts[..i + 1], parts[i + 1..]);
    CleanAppend(Carried(parts[..i + 1]), Carried(parts[i + 1..]));
    CleanAppend(Carried(parts[..i]), [parts[i].region]);
    OneClean(parts[i].region);
  }

  lemma OneClean(p: Part)
    ensures AllClean([p]) == !p.Bad()
  {
    assert [p][0] == p;
  }

  /** The worker finds each part's bytes where the producer laid them. */
  lemma PartFound(r: Request, i: nat)
    requires r.Frame? && Valid(r) && AllClean(Parts(r)) && i < |r.parts| && !r.parts[i].reuse
    ensures FrameShape(CommandOf(r), Payload(Parts(r))) && !Bit(CommandOf(r).reuseMask, i)
    ensures PartBytes(CommandOf(r), Payload(Parts(r)), i) == Data(r.parts[i].region)
  {
    FrameIsSound(r);
    FrameFields(r, i);
    StartCarried(r, i);
    StartCarried(r, i + 1);
    PartInPayload(r.parts, i);
    hide Payload, Carried, Total, Start, Mask, Bit;
  }

  lemma OnePart(p: Part)
    ensures Payload([p]) == (if p.Bad() then [] else Data(p))
  {
  }

  // ── The worker's log ──────────────────────────────────────────────

  predicate AllSound(l: seq<Record>) { forall i :: 0 <= i < |l| ==> Sound(l[i]) }

  function ProcessAll(l: seq<Record>): Option<Files>
    requires AllSound(l)
  {
    if l == [] then Some(NoFiles)
    else
      match ProcessAll(l[..|l| - 1])
      case None => None
      case Some(f) => Process(f, l[|l| - 1])
  }

  lemma ComesSound(r: Request, c: Call)
    requires Comes(r, c)
    ensures Sound(RecordOf(c)) && AllClean(Parts(r))
  {
    if r.Frame? {
      FrameIsSound(r);
    }
  }

  lemma BeginParses(r: Request, c: Call)
    requires r.Begin? && Comes(r, c)
    ensures ParseSegment(RecordOf(c).payload) == Some(r.segment)
  {
    hide SegmentBytes, ParseSegment;
    OnePart(Bytes(SegmentBytes(r.segment)));
    TotalOne(Bytes(SegmentBytes(r.segment)));
    SegmentRoundTrip(r.segment);
  }

  lemma TotalOne(p: Part)
    ensures Total([p]) == p.Size()
  {
  }

  /** The hashes a frame leaves behind are those of the last bytes supplied, part by part. */
  lemma FrameHashes(rs: seq<Request>, c: Call)
    requires rs != [] && rs[|rs| - 1].Frame? && Comes(rs[|rs| - 1], c)
    ensures Sound(RecordOf(c))
    ensures var before := Expected(rs[..|rs| - 1]);
            NextHashes(before.lastHash, c.cmd, RecordOf(c).payload) == Expected(rs).lastHash
  {
    var r := rs[|rs| - 1];
    ComesSound(r, c);
    var before := Expected(rs[..|rs| - 1]);
    forall i | 0 <= i < 12
      ensures NextHash(before.lastHash, c.cmd, RecordOf(c).payload, i) == PartHash(rs, i)
    {
      if i < |r.parts| {
        FrameFields(r, i);
        if !r.parts[i].reuse {
          PartFound(r, i);
        }
      }
    }
    hide NextHash, PartHash;
    assert forall i :: 0 <= i < 12 ==> Expected(rs).lastHash[i] == PartHash(rs, i);
  }

  /** Requests that write into the segment's files. */
  predicate Writes(r: Request) { r.Snapshot? || r.Line? || r.Frame? }

  lemma OnePartPayload(r: Request, c: Call, p: Part)
    requires Comes(r, c) && Parts(r) == [p]
    ensures RecordOf(c).payload == Data(p)
  {
    ComesSound(r, c);
    OneClean(p);
    OnePart(p);
  }

  /** A request that neither opens a segment nor hashes parts. */
  predicate IsPlain(r: Request) { !r.Begin? && !r.Frame? }

  function PlainEffect(f: Files, r: Request): Files
    requires IsPlain(r)
  {
    match r
    case Snapshot(image, kind) =>
      var line := Checkpoint(f.offset, |Data(image)|, ReplayHash.HashOf(Data(image)), kind);
      f.(offset := f.offset + |Data(image)|, states := f.states + Data(image), log := f.log + [line])
    case Line(text) => f.(log := f.log + [Text(text)])
    case Remove(path) => f.(log := f.log + [Removed(path)])
    case End => f.(open := false, log := f.log + [Closed])
  }

  lemma PlainExpected(rs: seq<Request>)
    requires rs != [] && IsPlain(rs[|rs| - 1]) && Expected(rs).lastHash == Expected(rs[..|rs| - 1]).lastHash
    ensures Expected(rs) == PlainEffect(Expected(rs[..|rs| - 1]), rs[|rs| - 1])
  {
    hide ReplayHash.HashOf, PartHash;
    assert Checkpoints(rs[..|rs| - 1]) + [] == Checkpoints(rs[..|rs| - 1]);
  }

  lemma PlainProcessed(f: Files, r: Request, c: Call)
    requires Comes(r, c) && IsPlain(r) && (r.End? || RecordOf(c).payload == Data(Parts(r)[0]))
    ensures Sound(RecordOf(c))
    ensures Process(f, RecordOf(c)) == if Writes(r) && !f.open then None else Some(PlainEffect(f, r))
  {
    hide ReplayHash.HashOf, Payload, SegmentBytes, ParseSegment, Total, NextHashes;
  }

  lemma BeginProcessed(rs: seq<Request>, c: Call)
    requires rs != [] && rs[|rs| - 1].Begin? && Comes(rs[|rs| - 1], c)
    ensures Sound(RecordOf(c))
    ensures Process(Expected(rs[..|rs| - 1]), RecordOf(c)) == Some(Expected(rs))
  {
    BeginParses(rs[|rs| - 1], c);
    SameHashes(rs);
    hide ReplayHash.HashOf, PartHash, Payload, SegmentBytes, ParseSegment, Total, NextHashes;
  }

  /** The worker's turn does what its request asks, or fails for want of an open segment. */
  lemma ProcessExact(rs: seq<Request>, c: Call)
    requires rs != [] && Comes(rs[|rs| - 1], c)
    ensures Sound(RecordOf(c))
    ensures var r, front := rs[|rs| - 1], rs[..|rs| - 1];
            Process(Expected(front), RecordOf(c)) ==
            if Writes(r) && !SegmentOpen(front) then None else Some(Expected(rs))
  {
    var r := rs[|rs| - 1];
    if r.Frame? {
      FrameProcessed(rs, c);
    } else if r.Begin? {
      BeginProcessed(rs, c);
    } else {
      if !r.End? {
        OnePartPayload(r, c, Parts(r)[0]);
      }
      SameHashes(rs);
      PlainExpected(rs);
      PlainProcessed(Expected(rs[..|rs| - 1]), r, c);
    }
    hide *;
  }

  lemma FrameProcessed(rs: seq<Request>, c: Call)
    requires rs != [] && rs[|rs| - 1].Frame? && Comes(rs[|rs| - 1], c)
    ensures Sound(RecordOf(c))
    ensures var front := rs[..|rs| - 1];
            Process(Expected(front), RecordOf(c)) == if !SegmentOpen(front) then None else Some(Expected(rs))
  {
    var r := rs[|rs| - 1];
    FrameHashes(rs, c);
    hide NextHashes, PartHash, Checkpoints, SegmentOpen, Log;
    assert Expected(rs).lastHash[..|r.parts|] == EventOf(rs).hashes;
    FrameUnfolds(rs);
  }

  lemma FrameUnfolds(rs: seq<Request>)
    requires rs != [] && rs[|rs| - 1].Frame?
    ensures Checkpoints(rs) == Checkpoints(rs[..|rs| - 1]) && Log(rs) == Log(rs[..|rs| - 1]) + [EventOf(rs)]
    ensures SegmentOpen(rs) == SegmentOpen(rs[..|rs| - 1])
  {
  }

  /** Only a begin and a frame change what is remembered of the parts. */
  lemma SameHashes(rs: seq<Request>)
    requires rs != []
    ensures !rs[|rs| - 1].Begin? && !rs[|rs| - 1].Frame? ==>
              Expected(rs).lastHash == Expected(rs[..|rs| - 1]).lastHash
    ensures rs[|rs| - 1].Begin? ==> Expected(rs).lastHash == NO_HASHES
  {
    var a, b := Expected(rs).lastHash, Expected(rs[..|rs| - 1]).lastHash;
    if rs[|rs| - 1].Begin? {
      assert forall i :: 0 <= i < 12 ==> a[i] == PartHash(rs, i) == 0;
    } else if !rs[|rs| - 1].Frame? {
      assert forall i :: 0 <= i < 12 ==> a[i] == PartHash(rs, i) == PartHash(rs[..|rs| - 1], i) == b[i];
    }
  }

  lemma {:induction false} BuiltSound(rs: seq<Request>, calls: seq<Call>)
    requires Built(rs, calls)
    ensures AllSound(Records(calls))
  {
    if calls != [] {
      var n := |calls| - 1;
      assert forall k :: 0 <= k < n ==> Comes(rs[..n][k], calls[..n][k]);
      BuiltSound(rs[..n], calls[..n]);
      ComesSound(rs[n], calls[n]);
    }
  }

  /**
   Whatever requests were accepted, the worker's turns leave exactly the log those requests
   ask for: every snapshot at its offset with its hash, every frame with, for each part, the
   hash of the bytes last supplied for it in the segment, reused or not. The worker fails by
   itself only on a write outside a segment.
   */
  lemma {:induction false} WorkerLog(rs: seq<Request>, calls: seq<Call>)
    requires Built(rs, calls)
    ensures AllSound(Records(calls))
    ensures ProcessAll(Records(calls)) == if InSegments(rs) then Some(Expected(rs)) else None
  {
    BuiltSound(rs, calls);
    if calls == [] {
      NothingExpected();
    } else {
      var n := |calls| - 1;
      assert forall k :: 0 <= k < n ==> Comes(rs[..n][k], calls[..n][k]);
      WorkerLog(rs[..n], calls[..n]);
      hide Process, Expected, Sound, SegmentOpen;
      ProcessExact(rs, calls[n]);
      var l := Records(calls);
      assert l[..n] == Records(calls[..n]) && l[n] == RecordOf(calls[n]);
    }
  }

  lemma NothingExpected()
    ensures Expected([]) == NoFiles
  {
    var a := Expected([]).lastHash;
    assert forall i :: 0 <= i < 12 ==> a[i] == PartHash([], i) == 0;
  }

  lemma {:induction false} LogAt(rs: seq<Request>, k: nat)
    requires k < |rs|
    ensures |Log(rs)| == |rs| && Log(rs)[k] == EventOf(rs[..k + 1])
  {
    hide EventOf;
    LogLength(rs[..|rs| - 1]);
    if k < |rs| - 1 {
      LogAt(rs[..|rs| - 1], k);
      assert rs[..|rs| - 1][..k + 1] == rs[..k + 1];
    } else {
      assert rs[..k + 1] == rs;
    }
  }

  lemma {:induction false} CheckpointsGrow(rs: seq<Request>, k: nat)
    requires k <= |rs| && (forall j :: k <= j < |rs| ==> !rs[j].Begin?)
    ensures Checkpoints(rs[..k]) <= Checkpoints(rs)
  {
    if k < |rs| {
      CheckpointsGrow(rs[..|rs| - 1], k);
      assert rs[..|rs| - 1][..k] == rs[..k];
    } else {
      assert rs[..k] == rs;
    }
  }

  /** The line names the place of `image` in the state file, and its hash. */
  predicate Locates(line: Event, states: seq<Byte>, image: seq<Byte>, kind: U32) {
    && line.Checkpoint? && line.offset + line.size <= |states|
    && states[line.offset..line.offset + line.size] == image
    && line.hash == ReplayHash.HashOf(image) && line.kind == kind
  }

  lemma StillLocates(line: Event, states: seq<Byte>, more: seq<Byte>, image: seq<Byte>, kind: U32)
    requires Locates(line, states, image, kind) && states <= more
    ensures Locates(line, more, image, kind)
  {
    hide ReplayHash.HashOf;
    assert more[..|states|] == states;
    assert more[line.offset..line.offset + line.size] == states[line.offset..line.offset + line.size];
  }

  /** Every checkpoint line of the open segment locates its image, however much was written since. */
  lemma CheckpointLocated(rs: seq<Request>, k: nat)
    requires k < |rs| && rs[k].Snapshot? && (forall j :: k < j < |rs| ==> !rs[j].Begin?)
    ensures |Log(rs)| == |rs| && Locates(Log(rs)[k], Checkpoints(rs), Data(rs[k].image), rs[k].kind)
  {
    LogAt(rs, k);
    CheckpointsGrow(rs, k + 1);
    LastCheckpoint(rs[..k + 1]);
    hide Log, EventOf, Checkpoints, Locates;
    StillLocates(Log(rs)[k], Checkpoints(rs[..k + 1]), Checkpoints(rs), Data(rs[k].image), rs[k].kind);
  }

  lemma SnapshotAppends(rs: seq<Request>)
    requires rs != [] && rs[|rs| - 1].Snapshot?
    ensures var states, r := Checkpoints(rs[..|rs| - 1]), rs[|rs| - 1];
            && Checkpoints(rs) == states + Data(r.image)
            && EventOf(rs) == Checkpoint(|states|, |Data(r.image)|, ReplayHash.HashOf(Data(r.image)), r.kind)
  {
    hide ReplayHash.HashOf, PartHash;
  }

  lemma LastCheckpoint(rs: seq<Request>)
    requires rs != [] && rs[|rs| - 1].Snapshot?
    ensures Locates(EventOf(rs), Checkpoints(rs), Data(rs[|rs| - 1].image), rs[|rs| - 1].kind)
  {
    SnapshotAppends(rs);
    hide *;
    LocatesAtTheEnd(Checkpoints(rs[..|rs| - 1]), Data(rs[|rs| - 1].image), rs[|rs| - 1].kind);
  }

  lemma LocatesAtTheEnd(a: seq<Byte>, b: seq<Byte>, kind: U32)
    ensures Locates(Checkpoint(|a|, |b|, ReplayHash.HashOf(b), kind), a + b, b, kind)
  {
    hide ReplayHash.HashOf;
    assert (a + b)[|a|..|a| + |b|] == b;
  }

  lemma {:induction false} LogLength(rs: seq<Request>)
    ensures |Log(rs)| == |rs|
  {
    if rs != [] {
      LogLength(rs[..|rs| - 1]);
    }
  }

  /**
   From the recorder's requests to the files, under every interleaving of the two threads:
   the worker has written what the first so many accepted requests ask for.
   */
  lemma ReplayEndToEnd(ring: seq<Byte>, actions: seq<Action>, rs: seq<Request>)
    requires |ring| == QUEUE_BYTES && Built(rs, Run(Fresh(ring), actions).accepted)
    ensures var s := Run(Fresh(ring), actions);
            var done := |s.decoded|;
            && done <= |rs| && AllSound(s.decoded)
            && ProcessAll(s.decoded) == (if InSegments(rs[..done]) then Some(Expected(rs[..done])) else None)
            && (s.worker.Exited? ==> done == |rs|)
  {
    var s := Run(Fresh(ring), actions);
    DecodedIsPrefix(ring, actions);
    if s.worker.Exited? {
      ExitMeansDrained(ring, actions);
    }
    hide Run, Expected, InSegments, ProcessAll, Comes;
    var done := |s.decoded|;
    assert forall k :: 0 <= k < done ==> Comes(rs[..done][k], s.accepted[..done][k]);
    WorkerLog(rs[..done], s.accepted[..done]);
  }
}
