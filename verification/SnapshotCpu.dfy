/**
 The CPU and TIME sections of a snapshot, snapshot.cpp: the register image, the call-return
 stack, the SWI ledger and the pending device timing.
 */
module SnapshotCpu {
  import opened Common
  import opened SnapshotIo
  import ArmCpu
  import CallStack
  import SwiLedger

  type Cpu = ArmCpu.Cpu
  type Slot = SwiLedger.Slot

  const IMAGE_WORDS: nat := 45
  const IMAGE_BYTES: nat := 180

  /** What the CPU section holds. */
  datatype CpuPart = CpuPart(cpu: Cpu, entries: seq<Word>, swi: seq<Slot>)
  {
    predicate WF() {
      cpu.WF() && |entries| <= CallStack.CALL_LIMIT && |swi| <= SwiLedger.SWI_LIMIT
    }
  }

  // ── Words ─────────────────────────────────────────────────────────

  function Words(ws: seq<Word>): (r: seq<Byte>)
    ensures |r| == 4 * |ws|
  {
    if ws == [] then [] else WordBytes(ws[0]) + Words(ws[1..])
  }

  function WordsOf(b: seq<Byte>): (r: seq<Word>)
    requires |b| % 4 == 0
    ensures |r| == |b| / 4
    decreases |b|
  {
    if b == [] then [] else [BytesWord(b[..4])] + WordsOf(b[4..])
  }

  lemma {:induction false} WordsRoundTrip(ws: seq<Word>)
    ensures WordsOf(Words(ws)) == ws
  {
    if ws != [] {
      hide WordBytes, BytesWord;
      var b := Words(ws);
      assert b[..4] == WordBytes(ws[0]) && b[4..] == Words(ws[1..]);
      WordRoundTrip(ws[0]);
      WordsRoundTrip(ws[1..]);
    }
  }

  lemma {:induction false} BytesOfWords(b: seq<Byte>)
    requires |b| % 4 == 0
    ensures Words(WordsOf(b)) == b
    decreases |b|
  {
    if b != [] {
      hide WordBytes, BytesWord;
      BytesRoundTrip(b[..4]);
      BytesOfWords(b[4..]);
      assert WordsOf(b)[1..] == WordsOf(b[4..]);
      assert b == b[..4] + b[4..];
    }
  }

  /** The fields of `ArmCpuState` in order. */
  function Image(c: Cpu): seq<Word> { c.R + [c.cpsr] + c.sp + c.lr + c.spsr + c.user + c.fiq }

  function CpuOf(w: seq<Word>): (c: Cpu)
    requires |w| == IMAGE_WORDS
    ensures c.WF()
  {
    ArmCpu.Cpu(w[..16], w[16], w[17..23], w[23..29], w[29..35], w[35..40], w[40..45])
  }

  lemma ImageRoundTrip(c: Cpu)
    requires c.WF()
    ensures |Image(c)| == IMAGE_WORDS && CpuOf(Image(c)) == c
  {
  }

  lemma ImageOfCpu(w: seq<Word>)
    requires |w| == IMAGE_WORDS
    ensures Image(CpuOf(w)) == w
  {
  }

  function SlotWords(l: seq<Slot>): (r: seq<Word>)
    ensures |r| == 2 * |l|
  {
    if l == [] then [] else [l[0].continuation, l[0].returnPc] + SlotWords(l[1..])
  }

  function SlotsOf(w: seq<Word>): (r: seq<Slot>)
    requires |w| % 2 == 0
    ensures |r| == |w| / 2
    decreases |w|
  {
    if w == [] then [] else [SwiLedger.Slot(w[0], w[1])] + SlotsOf(w[2..])
  }

  lemma {:induction false} SlotsRoundTrip(l: seq<Slot>)
    ensures SlotsOf(SlotWords(l)) == l
  {
    if l != [] {
      assert SlotWords(l)[2..] == SlotWords(l[1..]);
      SlotsRoundTrip(l[1..]);
    }
  }

  lemma {:induction false} WordsOfSlots(w: seq<Word>)
    requires |w| % 2 == 0
    ensures SlotWords(SlotsOf(w)) == w
    decreases |w|
  {
    if w != [] {
      WordsOfSlots(w[2..]);
      assert SlotsOf(w)[1..] == SlotsOf(w[2..]);
      assert w == [w[0], w[1]] + w[2..];
    }
  }

  // ── The CPU section ───────────────────────────────────────────────

  function SerializeSwi(l: seq<Slot>): seq<Byte> { Le(|l|, 4) + Words(SlotWords(l)) }

  function SerializeEntries(l: seq<Word>): seq<Byte> { Le(|l|, 4) + Words(l) }

  function SerializeCpu(p: CpuPart): seq<Byte> {
    Words(Image(p.cpu)) + (SerializeEntries(p.entries) + SerializeSwi(p.swi))
  }

  /** `deserialize_cpu`: every length is checked before anything is built. */
  function ParseCpu(b: seq<Byte>): Option<CpuPart> {
    if |b| < IMAGE_BYTES then None else ParseEntries(b[IMAGE_BYTES..], b[..IMAGE_BYTES])
  }

  /** What follows the register image. */
  function ParseEntries(rest: seq<Byte>, image: seq<Byte>): Option<CpuPart>
    requires |image| == IMAGE_BYTES
  {
    if |rest| < 4 then None
    else
      var depth := Get32(rest[..4]);
      if depth > CallStack.CALL_LIMIT || depth > (|rest| - 4) / 4 then None
      else ParseSwi(rest[4..][4 * depth..], image, WordsOf(rest[4..][..4 * depth]))
  }

  /** What follows the call-return stack. */
  function ParseSwi(rest: seq<Byte>, image: seq<Byte>, entries: seq<Word>): Option<CpuPart>
    requires |image| == IMAGE_BYTES
  {
    if |rest| < 4 then None
    else
      var count := Get32(rest[..4]);
      if count > SwiLedger.SWI_LIMIT || |rest| != 4 + 8 * count then None
      else Some(CpuPart(CpuOf(WordsOf(image)), entries, SlotsOf(WordsOf(rest[4..]))))
  }

  /** A list behind its length. */
  lemma Counted(n: U32, tail: seq<Byte>)
    ensures var b := Le(n, 4) + tail; |b| == 4 + |tail| && Get32(b[..4]) == n && b[4..] == tail
  {
    Get32Le(n);
    Peel(Le(n, 4), tail, 4);
    hide Le, Get32;
  }

  lemma Uncounted(b: seq<Byte>)
    requires |b| >= 4
    ensures b == Le(Get32(b[..4]), 4) + b[4..]
  {
    Get32Bytes(b[..4]);
    Halves(b, 4);
    hide Le, Get32;
  }

  lemma SwiRoundTrip(image: seq<Byte>, entries: seq<Word>, l: seq<Slot>)
    requires |image| == IMAGE_BYTES && |l| <= SwiLedger.SWI_LIMIT
    ensures ParseSwi(SerializeSwi(l), image, entries) == Some(CpuPart(CpuOf(WordsOf(image)), entries, l))
  {
    WordsRoundTrip(SlotWords(l));
    SlotsRoundTrip(l);
    Counted(|l|, Words(SlotWords(l)));
    hide Words, WordsOf, SlotWords, SlotsOf, CpuOf, Le, Get32;
  }

  lemma SwiExact(rest: seq<Byte>, image: seq<Byte>, entries: seq<Word>)
    requires |image| == IMAGE_BYTES && ParseSwi(rest, image, entries).Some?
    ensures var l := ParseSwi(rest, image, entries).value.swi;
            |l| <= SwiLedger.SWI_LIMIT && rest == SerializeSwi(l)
  {
    hide Words, WordsOf, SlotWords, SlotsOf, CpuOf, Le, Get32;
    Uncounted(rest);
    BytesOfWords(rest[4..]);
    WordsOfSlots(WordsOf(rest[4..]));
    EightPerSlot(rest[4..], Get32(rest[..4]));
  }

  lemma EightPerSlot(b: seq<Byte>, n: nat)
    requires |b| == 8 * n
    ensures |b| % 4 == 0 && |WordsOf(b)| == 2 * n && |SlotsOf(WordsOf(b))| == n
  {
    hide WordsOf, SlotsOf;
  }

  lemma EntriesRoundTrip(image: seq<Byte>, l: seq<Word>, tail: seq<Byte>)
    requires |image| == IMAGE_BYTES && |l| <= CallStack.CALL_LIMIT
    ensures ParseEntries(SerializeEntries(l) + tail, image) == ParseSwi(tail, image, l)
  {
    WordsRoundTrip(l);
    Counted(|l|, Words(l) + tail);
    Peel(Words(l), tail, 4 * |l|);
    hide Words, WordsOf, ParseSwi, Le, Get32;
    assert SerializeEntries(l) + tail == Le(|l|, 4) + (Words(l) + tail);
  }

  lemma EntriesUnfold(rest: seq<Byte>, image: seq<Byte>)
    requires |image| == IMAGE_BYTES && ParseEntries(rest, image).Some?
    ensures |rest| >= 4 && Get32(rest[..4]) <= CallStack.CALL_LIMIT && 4 * Get32(rest[..4]) <= |rest[4..]|
    ensures var n := 4 * Get32(rest[..4]);
            ParseEntries(rest, image) == ParseSwi(rest[4..][n..], image, WordsOf(rest[4..][..n]))
  {
    hide Get32, ParseSwi, WordsOf;
  }

  lemma FourPerWord(b: seq<Byte>, n: nat)
    requires |b| == 4 * n
    ensures |b| % 4 == 0 && |WordsOf(b)| == n
  {
    hide WordsOf;
  }

  lemma Rejoined(b: seq<Byte>, n: nat)
    requires 4 + n <= |b|
    ensures b == (b[..4] + b[4..][..n]) + b[4..][n..]
  {
  }

  lemma EntriesExact(rest: seq<Byte>, image: seq<Byte>)
    requires |image| == IMAGE_BYTES && ParseEntries(rest, image).Some?
    ensures var p := ParseEntries(rest, image).value;
            && |p.entries| <= CallStack.CALL_LIMIT && |p.swi| <= SwiLedger.SWI_LIMIT
            && rest == SerializeEntries(p.entries) + SerializeSwi(p.swi)
            && p.cpu == CpuOf(WordsOf(image))
  {
    EntriesUnfold(rest, image);
    hide ParseEntries, Words, WordsOf, ParseSwi, SerializeSwi, CpuOf, Le, Get32;
    var n := 4 * Get32(rest[..4]);
    var mine, tail := rest[4..][..n], rest[4..][n..];
    Get32Bytes(rest[..4]);
    BytesOfWords(mine);
    FourPerWord(mine, Get32(rest[..4]));
    SwiExact(tail, image, WordsOf(mine));
    SwiFields(tail, image, WordsOf(mine));
    Rejoined(rest, n);
  }

  lemma SwiFields(rest: seq<Byte>, image: seq<Byte>, entries: seq<Word>)
    requires |image| == IMAGE_BYTES && ParseSwi(rest, image, entries).Some?
    ensures ParseSwi(rest, image, entries).value.entries == entries
    ensures ParseSwi(rest, image, entries).value.cpu == CpuOf(WordsOf(image))
  {
  }

  lemma {:induction false} WordPlace(ws: seq<Word>, k: nat)
    requires k < |ws|
    ensures BytesWord(Words(ws)[4 * k..4 * k + 4]) == ws[k]
  {
    hide WordBytes, BytesWord;
    var b := Words(ws);
    WordRoundTrip(ws[0]);
    if k == 0 {
      assert b[..4] == WordBytes(ws[0]);
    } else {
      WordPlace(ws[1..], k - 1);
      assert b[4 * k..4 * k + 4] == Words(ws[1..])[4 * (k - 1)..4 * (k - 1) + 4];
    }
  }

  /**
   The register image, word by word: the sixteen registers, CPSR, then six banked R13, six banked
   R14, six SPSRs and the two copies of R8 to R12; the stacks follow at byte 180.
   */
  lemma ImageLayout(p: CpuPart, k: nat)
    requires p.cpu.WF() && k < 45
    ensures var b := SerializeCpu(p); var w := BytesWord(b[4 * k..4 * k + 4]); var c := p.cpu;
            && (k < 16 ==> w == c.R[k]) && (k == 16 ==> w == c.cpsr)
            && (17 <= k < 23 ==> w == c.sp[k - 17]) && (23 <= k < 29 ==> w == c.lr[k - 23])
            && (29 <= k < 35 ==> w == c.spsr[k - 29])
            && (35 <= k < 40 ==> w == c.user[k - 35]) && (40 <= k ==> w == c.fiq[k - 40])
  {
    WordPlace(Image(p.cpu), k);
    hide Words, BytesWord, SerializeEntries, SerializeSwi;
    var tail := SerializeEntries(p.entries) + SerializeSwi(p.swi);
    assert (Words(Image(p.cpu)) + tail)[4 * k..4 * k + 4] == Words(Image(p.cpu))[4 * k..4 * k + 4];
  }

  /** The stacks: each a 32-bit count and its words, a ledger entry being its continuation and its return PC. */
  lemma StacksLayout(p: CpuPart)
    requires p.cpu.WF() && |p.entries| <= 1024 && |p.swi| <= 64
    ensures var b := SerializeCpu(p); var n, s := |p.entries|, 184 + 4 * |p.entries|;
            && |b| == s + 4 + 8 * |p.swi|
            && Get32(b[180..184]) == n && (forall k :: 0 <= k < n ==> BytesWord(b[184 + 4 * k..188 + 4 * k]) == p.entries[k])
            && Get32(b[s..s + 4]) == |p.swi|
            && forall k :: 0 <= k < |p.swi| ==>
                 && BytesWord(b[s + 4 + 8 * k..s + 8 + 8 * k]) == p.swi[k].continuation
                 && BytesWord(b[s + 8 + 8 * k..s + 12 + 8 * k]) == p.swi[k].returnPc
  {
    hide Words, BytesWord, SlotWords, Le, Get32;
    var b, n := SerializeCpu(p), |p.entries|;
    var s := 184 + 4 * n;
    ImageRoundTrip(p.cpu);
    Get32Le(n);
    Get32Le(|p.swi|);
    assert b[180..184] == Le(n, 4) && b[184..s] == Words(p.entries);
    assert b[s..s + 4] == Le(|p.swi|, 4) && b[s + 4..] == Words(SlotWords(p.swi));
    forall k | 0 <= k < n ensures BytesWord(b[184 + 4 * k..188 + 4 * k]) == p.entries[k] {
      WordPlace(p.entries, k);
      assert b[184 + 4 * k..188 + 4 * k] == b[184..s][4 * k..4 * k + 4];
    }
    forall k | 0 <= k < |p.swi|
      ensures BytesWord(b[s + 4 + 8 * k..s + 8 + 8 * k]) == p.swi[k].continuation
      ensures BytesWord(b[s + 8 + 8 * k..s + 12 + 8 * k]) == p.swi[k].returnPc
    {
      SlotPlace(p.swi, k);
      WordPlace(SlotWords(p.swi), 2 * k);
      WordPlace(SlotWords(p.swi), 2 * k + 1);
      assert b[s + 4 + 8 * k..s + 8 + 8 * k] == b[s + 4..][8 * k..8 * k + 4];
      assert b[s + 8 + 8 * k..s + 12 + 8 * k] == b[s + 4..][8 * k + 4..8 * k + 8];
    }
  }

  lemma {:induction false} SlotPlace(l: seq<Slot>, k: nat)
    requires k < |l|
    ensures SlotWords(l)[2 * k] == l[k].continuation && SlotWords(l)[2 * k + 1] == l[k].returnPc
  {
    if k > 0 {
      SlotPlace(l[1..], k - 1);
    }
  }

  /** The section of a machine within its bounds reads back. */
  lemma CpuRoundTrip(p: CpuPart)
    requires p.WF()
    ensures ParseCpu(SerializeCpu(p)) == Some(p)
  {
    ImageRoundTrip(p.cpu);
    WordsRoundTrip(Image(p.cpu));
    var image, tail := Words(Image(p.cpu)), SerializeEntries(p.entries) + SerializeSwi(p.swi);
    EntriesRoundTrip(image, p.entries, SerializeSwi(p.swi));
    SwiRoundTrip(image, p.entries, p.swi);
    hide Words, WordsOf, Image, CpuOf, SerializeEntries, SerializeSwi, ParseEntries, ParseSwi;
    Peel(image, tail, IMAGE_BYTES);
  }

  /** Whatever is accepted is the section of the machine it yields: no gap, nothing left over. */
  lemma CpuExact(b: seq<Byte>)
    requires ParseCpu(b).Some?
    ensures ParseCpu(b).value.WF() && b == SerializeCpu(ParseCpu(b).value)
  {
    EntriesExact(b[IMAGE_BYTES..], b[..IMAGE_BYTES]);
    BytesOfWords(b[..IMAGE_BYTES]);
    ImageOfCpu(WordsOf(b[..IMAGE_BYTES]));
    hide Words, WordsOf, Image, SerializeEntries, SerializeSwi, ParseEntries;
    Halves(b, IMAGE_BYTES);
  }

  // ── Reading it through the cursor ─────────────────────────────────

  /** One word off the cursor. */
  method ReadWord(r: Reader) returns (w: Word)
    requires r.Valid() && |r.At().rest| >= 4
    modifies r
    ensures r.Valid() && r.At() == old(r.At()).(rest := old(r.At()).rest[4..])
    ensures w == BytesWord(old(r.At()).rest[..4])
  {
    var b := r.Take(4);
    w := BytesWord(b);
  }

  /** `n` words off the cursor, which holds them. */
  method ReadWords(r: Reader, n: nat) returns (ws: seq<Word>)
    requires r.Valid() && |r.At().rest| >= 4 * n
    modifies r
    ensures r.Valid() && r.At() == old(r.At()).(rest := old(r.At()).rest[4 * n..])
    ensures ws == WordsOf(old(r.At()).rest[..4 * n])
  {
    hide BytesWord, WordBytes;
    ws := [];
    ghost var all := r.At().rest;
    assert all[..0] == [] && all[0..] == all;
    for i := 0 to n
      invariant r.Valid() && r.At() == old(r.At()).(rest := all[4 * i..])
      invariant ws == WordsOf(all[..4 * i])
    {
      var w := ReadWord(r);
      WordsSnoc(all[..4 * i], all[4 * i..4 * i + 4]);
      assert all[..4 * i] + all[4 * i..4 * i + 4] == all[..4 * (i + 1)];
      assert all[4 * i..][..4] == all[4 * i..4 * i + 4] && all[4 * i..][4..] == all[4 * (i + 1)..];
      ws := ws + [w];
    }
  }

  lemma {:induction false} WordsSnoc(a: seq<Byte>, w: seq<Byte>)
    requires |a| % 4 == 0 && |w| == 4
    ensures WordsOf(a + w) == WordsOf(a) + [BytesWord(w)]
    decreases |a|
  {
    hide BytesWord;
    if a == [] {
      assert a + w == w && w[..4] == w && w[4..] == [];
    } else {
      assert (a + w)[..4] == a[..4] && (a + w)[4..] == a[4..] + w;
      WordsSnoc(a[4..], w);
    }
  }

  /** `deserialize_cpu` up to its commit. */
  method DeserializeCpu(r: Reader) returns (p: Option<CpuPart>)
    requires r.Valid() && r.ok
    modifies r
    ensures p == ParseCpu(old(r.At()).rest)
  {
    hide ParseEntries;
    var image := r.Take(IMAGE_BYTES);
    p := DeserializeEntries(r, image);
  }

  method DeserializeEntries(r: Reader, image: seq<Byte>) returns (p: Option<CpuPart>)
    requires r.Valid() && |image| == IMAGE_BYTES
    modifies r
    ensures p == if old(r.ok) then ParseEntries(old(r.At()).rest, image) else None
  {
    hide WordsOf, ParseSwi, ReadU32, Get32;
    if |r.At().rest| >= 4 {
      ReadU32Inside(r.At());
    } else {
      ReadU32Outside(r.At());
    }
    FailureAlways(r.At());
    var depth := r.U32();
    var left := r.Remaining();
    if !r.ok || depth > CallStack.CALL_LIMIT || depth > left / 4 {
      return None;
    }
    var entries := ReadWords(r, depth);
    p := DeserializeLedger(r, image, entries);
  }

  lemma FailureAlways(c: Cursor)
    ensures !c.ok ==> !ReadU32(c).1.ok
  {
  }

  method DeserializeLedger(r: Reader, image: seq<Byte>, entries: seq<Word>) returns (p: Option<CpuPart>)
    requires r.Valid() && r.ok && |image| == IMAGE_BYTES
    modifies r
    ensures p == ParseSwi(old(r.At()).rest, image, entries)
  {
    hide WordsOf, SlotsOf, CpuOf, ReadU32, Get32;
    ghost var b := r.At().rest;
    if |b| >= 4 {
      ReadU32Inside(r.At());
    } else {
      ReadU32Outside(r.At());
    }
    var count := r.U32();
    var left := r.Remaining();
    if !r.ok || count > SwiLedger.SWI_LIMIT || count > left / 8 {
      return None;
    }
    var words := ReadWords(r, 2 * count);
    left := r.Remaining();
    if !r.ok || left != 0 {
      return None;
    }
    assert |b| == 4 + 8 * count ==> b[4..][..4 * (2 * count)] == b[4..];
    p := Some(CpuPart(CpuOf(WordsOf(image)), entries, SlotsOf(words)));
  }
}
