/**
 Mod-state sidecars, mod_state.cpp: the CRC-protected envelope, and the protocol that
 replaces a slot's file while keeping a backup.
 */
module Sidecar {
  import opened Common
  import Crc

  const MAGIC: seq<Byte> := [71, 66, 65, 77, 79, 68, 83, 49]
  const VERSION: U32 := 1
  const MAX_IDENTITY: nat := 256
  const MAX_PAYLOAD: nat := 16777216
  const HEADER: nat := 24
  const CRC_AT: nat := 20

  // ── The envelope ──────────────────────────────────────────────────

  predicate Sizes(identity: seq<Byte>, payload: seq<Byte>) {
    |identity| <= MAX_IDENTITY && |payload| <= MAX_PAYLOAD
  }

  /** The file with a given checksum field. */
  function Assemble(identity: seq<Byte>, payload: seq<Byte>, crc: seq<Byte>): seq<Byte> {
    MAGIC + Le(VERSION, 4) + Le(|identity|, 4) + Le(|payload|, 4) + crc + identity + payload
  }

  /** The file of a slot. */
  function Envelope(identity: seq<Byte>, payload: seq<Byte>): seq<Byte> {
    Assemble(identity, payload, WordBytes(Crc.Crc32(Assemble(identity, payload, [0, 0, 0, 0]))))
  }

  /** The file with its checksum field cleared. */
  function Zeroed(f: seq<Byte>): (r: seq<Byte>)
    requires |f| >= HEADER
    ensures |r| == |f|
  {
    f[..CRC_AT] + [0, 0, 0, 0] + f[HEADER..]
  }

  datatype Status = Ok(payload: seq<Byte>) | Missing | Corrupt | IdentityMismatch

  /** The checks that need only the header. */
  predicate HeaderFits(f: seq<Byte>) {
    HEADER <= |f| <= MAX_PAYLOAD + 280
    && f[..8] == MAGIC
    && Get32(f[8..12]) == VERSION && Get32(f[12..16]) <= MAX_IDENTITY && Get32(f[16..20]) <= MAX_PAYLOAD
    && |f| == HEADER + Get32(f[12..16]) + Get32(f[16..20])
  }

  predicate Intact(f: seq<Byte>) {
    HeaderFits(f) && Crc.Crc32(Zeroed(f)) == BytesWord(f[CRC_AT..HEADER])
  }

  /** `read_sidecar_file`. */
  function Read(file: Option<seq<Byte>>, identity: seq<Byte>): Status {
    match file
    case None => Missing
    case Some(f) =>
      if !Intact(f) then Corrupt
      else
        var n := Get32(f[12..16]);
        if f[HEADER..HEADER + n] != identity then IdentityMismatch else Ok(f[HEADER + n..])
  }

  lemma AssembleParts(identity: seq<Byte>, payload: seq<Byte>, crc: seq<Byte>)
    requires |crc| == 4
    ensures var f := Assemble(identity, payload, crc);
            && |f| == HEADER + |identity| + |payload|
            && f[..8] == MAGIC && f[8..12] == Le(VERSION, 4)
            && f[12..16] == Le(|identity|, 4) && f[16..20] == Le(|payload|, 4) && f[20..24] == crc
            && f[24..24 + |identity|] == identity && f[24 + |identity|..] == payload
  {
    hide Le;
  }

  /**
   The file, field by field: "GBAMODS1", version 1, the two lengths, the checksum of the file with
   zeroes in its place, the identity from byte 24 on and the payload.
   */
  lemma EnvelopeLayout(identity: seq<Byte>, payload: seq<Byte>)
    requires |identity| < 0x1_0000_0000 && |payload| < 0x1_0000_0000
    ensures var f := Envelope(identity, payload); var n := |identity|;
            && |f| == 24 + n + |payload| && f[..8] == [71, 66, 65, 77, 79, 68, 83, 49]
            && Get32(f[8..12]) == 1 && Get32(f[12..16]) == n && Get32(f[16..20]) == |payload|
            && f[20..24] == WordBytes(Crc.Crc32(f[..20] + [0, 0, 0, 0] + f[24..]))
            && f[24..24 + n] == identity && f[24 + n..] == payload
  {
    var w := Crc.Crc32(Assemble(identity, payload, [0, 0, 0, 0]));
    AssembleParts(identity, payload, WordBytes(w));
    ZeroedAssemble(identity, payload, WordBytes(w));
    Get32Le(1);
    Get32Le(|identity|);
    Get32Le(|payload|);
    hide Le, Get32, WordBytes, Crc.Crc32, Assemble;
  }

  /** The limits a read enforces: identities of up to 256 bytes and payloads of up to 16 MiB. */
  lemma SizesExact(identity: seq<Byte>, payload: seq<Byte>)
    ensures Read(Some(Envelope(identity, payload)), identity).Ok? ==> |identity| <= 256 && |payload| <= 0x100_0000
    ensures |identity| <= 256 && |payload| <= 0x100_0000 ==> Read(Some(Envelope(identity, payload)), identity) == Ok(payload)
  {
    hide Envelope, Read;
    ReadExact(Some(Envelope(identity, payload)), identity, payload);
    var r := Read(Some(Envelope(identity, payload)), identity);
    if r.Ok? {
      ReadExact(Some(Envelope(identity, payload)), identity, r.payload);
      if r.payload != payload {
        SameEnvelope(identity, payload, r.payload);
      }
    }
  }

  lemma SameEnvelope(identity: seq<Byte>, a: seq<Byte>, b: seq<Byte>)
    requires Envelope(identity, a) == Envelope(identity, b)
    ensures a == b
  {
    AssembleParts(identity, a, WordBytes(Crc.Crc32(Assemble(identity, a, [0, 0, 0, 0]))));
    AssembleParts(identity, b, WordBytes(Crc.Crc32(Assemble(identity, b, [0, 0, 0, 0]))));
    hide Assemble, WordBytes, Crc.Crc32;
  }

  lemma ZeroedAssemble(identity: seq<Byte>, payload: seq<Byte>, crc: seq<Byte>)
    requires |crc| == 4
    ensures |Assemble(identity, payload, crc)| >= HEADER
    ensures Zeroed(Assemble(identity, payload, crc)) == Assemble(identity, payload, [0, 0, 0, 0])
  {
    hide Le;
  }

  lemma HeaderAssembles(f: seq<Byte>)
    requires HeaderFits(f)
    ensures var n := Get32(f[12..16]);
            && HEADER + n <= |f| && Sizes(f[HEADER..HEADER + n], f[HEADER + n..])
            && f == Assemble(f[HEADER..HEADER + n], f[HEADER + n..], f[CRC_AT..HEADER])
  {
    hide Le, Get32, Assemble;
    HeaderFields(f);
    Reassembled(f, Get32(f[12..16]));
  }

  /** A file that passes every check is the envelope of what it holds. */
  lemma IntactIsEnvelope(f: seq<Byte>)
    requires Intact(f)
    ensures var n := Get32(f[12..16]);
            && HEADER + n <= |f| && Sizes(f[HEADER..HEADER + n], f[HEADER + n..])
            && f == Envelope(f[HEADER..HEADER + n], f[HEADER + n..])
  {
    hide HeaderFits, Get32, WordBytes, BytesWord, Crc.Crc32, Assemble, Zeroed;
    HeaderAssembles(f);
    var n, crc := Get32(f[12..16]), f[CRC_AT..HEADER];
    ZeroedAssemble(f[HEADER..HEADER + n], f[HEADER + n..], crc);
    BytesRoundTrip(crc);
  }

  lemma HeaderFields(f: seq<Byte>)
    requires HeaderFits(f)
    ensures f[8..12] == Le(Get32(f[8..12]), 4) && f[12..16] == Le(Get32(f[12..16]), 4)
    ensures f[16..20] == Le(Get32(f[16..20]), 4)
  {
    Get32Bytes(f[8..12]);
    Get32Bytes(f[12..16]);
    Get32Bytes(f[16..20]);
    hide *;
  }

  lemma Reassembled(f: seq<Byte>, n: nat)
    requires HeaderFits(f) && n == Get32(f[12..16])
    requires f[8..12] == Le(VERSION, 4) && f[12..16] == Le(n, 4) && f[16..20] == Le(|f| - HEADER - n, 4)
    ensures f == Assemble(f[HEADER..HEADER + n], f[HEADER + n..], f[CRC_AT..HEADER])
  {
    hide Le, Get32;
    assert f == f[..8] + f[8..12] + f[12..16] + f[16..20] + f[20..24] + f[24..24 + n] + f[24 + n..];
  }

  /** An envelope passes every check and reads back. */
  lemma EnvelopeIsIntact(identity: seq<Byte>, payload: seq<Byte>)
    requires Sizes(identity, payload)
    ensures var f := Envelope(identity, payload);
            && Intact(f) && |f| == HEADER + |identity| + |payload|
            && Get32(f[12..16]) == |identity|
            && f[HEADER..HEADER + |identity|] == identity && f[HEADER + |identity|..] == payload
  {
    var w := Crc.Crc32(Assemble(identity, payload, [0, 0, 0, 0]));
    AssembleParts(identity, payload, WordBytes(w));
    ZeroedAssemble(identity, payload, WordBytes(w));
    WordRoundTrip(w);
    Get32Le(VERSION);
    Get32Le(|identity|);
    Get32Le(|payload|);
    hide Le, Get32, WordBytes, BytesWord, Crc.Crc32, Assemble, Zeroed;
  }

  /** A file reads as a payload exactly when it is that payload's envelope for the identity. */
  lemma ReadExact(file: Option<seq<Byte>>, identity: seq<Byte>, payload: seq<Byte>)
    ensures Read(file, identity) == Ok(payload) <==>
            Sizes(identity, payload) && file == Some(Envelope(identity, payload))
  {
    hide Envelope, Intact, Get32;
    if Sizes(identity, payload) {
      EnvelopeIsIntact(identity, payload);
    }
    if file.Some? && Intact(file.value) {
      IntactIsEnvelope(file.value);
    }
  }

  /** An intact file under another identity is reported as such, never as corrupt. */
  lemma OtherIdentity(identity: seq<Byte>, other: seq<Byte>, payload: seq<Byte>)
    requires Sizes(identity, payload) && other != identity
    ensures Read(Some(Envelope(identity, payload)), other) == IdentityMismatch
  {
    hide Envelope, Intact, Get32;
    EnvelopeIsIntact(identity, payload);
  }

  lemma ZeroedUpdate(f: seq<Byte>, i: nat, b: Byte)
    requires HEADER <= |f| && i < |f|
    ensures CRC_AT <= i < HEADER ==> Zeroed(f[i := b]) == Zeroed(f)
    ensures i < CRC_AT || i >= HEADER ==>
              Zeroed(f[i := b]) == Zeroed(f)[i := b] && Zeroed(f)[i] == f[i]
              && f[i := b][CRC_AT..HEADER] == f[CRC_AT..HEADER]
  {
  }

  lemma DifferentWords(s: seq<Byte>, t: seq<Byte>)
    requires |s| == 4 && |t| == 4 && s != t
    ensures BytesWord(s) != BytesWord(t)
  {
    BytesRoundTrip(s);
    BytesRoundTrip(t);
    hide WordBytes, BytesWord;
  }

  lemma FieldChanged(f: seq<Byte>, i: nat, b: Byte)
    requires HEADER <= |f| && CRC_AT <= i < HEADER && b != f[i]
    ensures f[i := b][CRC_AT..HEADER] != f[CRC_AT..HEADER]
  {
    assert f[i := b][CRC_AT..HEADER][i - CRC_AT] == b && f[CRC_AT..HEADER][i - CRC_AT] == f[i];
  }

  /** Changing any one byte of an intact file makes it corrupt, under every identity. */
  lemma OneByteCorrupts(f: seq<Byte>, i: nat, b: Byte, identity: seq<Byte>)
    requires Intact(f) && i < |f| && b != f[i]
    ensures Read(Some(f[i := b]), identity) == Corrupt
  {
    hide BytesWord, Crc.Crc32, Zeroed, Get32;
    ZeroedUpdate(f, i, b);
    if CRC_AT <= i < HEADER {
      FieldChanged(f, i, b);
      DifferentWords(f[i := b][CRC_AT..HEADER], f[CRC_AT..HEADER]);
    } else {
      Crc.OneByteChangesCrc(Zeroed(f), i, b);
    }
  }

  /** So does cutting it short anywhere. */
  lemma TruncationCorrupts(f: seq<Byte>, n: nat, identity: seq<Byte>)
    requires Intact(f) && n < |f|
    ensures Read(Some(f[..n]), identity) == Corrupt
  {
    hide BytesWord, Crc.Crc32, Zeroed, Get32;
    if n >= HEADER {
      assert f[..n][12..16] == f[12..16] && f[..n][16..20] == f[16..20];
    }
  }

  /** Building the file as `write_mod_state_slot` does: append, checksum, patch the field. */
  method BuildFile(identity: seq<Byte>, payload: seq<Byte>) returns (bytes: seq<Byte>)
    requires Sizes(identity, payload)
    ensures bytes == Envelope(identity, payload)
  {
    hide Le, WordBytes, Crc.Crc32;
    bytes := MAGIC + Le(VERSION, 4) + Le(|identity|, 4) + Le(|payload|, 4) + [0, 0, 0, 0];
    bytes := bytes + identity;
    bytes := bytes + payload;
    assert bytes == Assemble(identity, payload, [0, 0, 0, 0]);
    var checksum := Crc.BitwiseCrc(bytes);
    var field := WordBytes(checksum);
    ghost var blank := bytes;
    for i := 0 to 4
      invariant |bytes| == |blank|
      invariant forall k :: 0 <= k < |bytes| ==> bytes[k] == if CRC_AT <= k < CRC_AT + i then field[k - CRC_AT] else blank[k]
    {
      bytes := bytes[CRC_AT + i := field[i]];
    }
    Patched(identity, payload, field);
    assert bytes == Assemble(identity, payload, field);
  }

  lemma Patched(identity: seq<Byte>, payload: seq<Byte>, field: seq<Byte>)
    requires |field| == 4
    ensures var blank, full := Assemble(identity, payload, [0, 0, 0, 0]), Assemble(identity, payload, field);
            |blank| == |full| &&
            forall k :: 0 <= k < |full| ==> full[k] == if CRC_AT <= k < HEADER then field[k - CRC_AT] else blank[k]
  {
    hide Le;
  }
}
