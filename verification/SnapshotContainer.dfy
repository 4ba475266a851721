/**
 The snapshot container, snapshot.cpp: a gated header and a table of tagged, length-prefixed
 sections that must fill the file exactly.
 */
module SnapshotContainer {
  import opened Common
  import opened SnapshotIo

  const MAGIC: seq<Byte> := [71, 66, 65, 83]
  const VERSION: U32 := 5
  const SHA_BYTES: nat := 40
  const HEADER_BYTES: nat := 52

  datatype Section = Section(tag: U32, payload: seq<Byte>)

  // ── Sections ──────────────────────────────────────────────────────

  /** The lengths are 32-bit fields. */
  predicate Small(l: seq<Section>) { forall i :: 0 <= i < |l| ==> |l[i].payload| < 0x1_0000_0000 }

  function PrintSection(s: Section): (r: seq<Byte>)
    requires |s.payload| < 0x1_0000_0000
    ensures |r| == 8 + |s.payload|
  {
    Le(s.tag, 4) + Le(|s.payload|, 4) + s.payload
  }

  function PrintSections(l: seq<Section>): (r: seq<Byte>)
    requires Small(l)
    ensures |r| >= 8 * |l|
  {
    if l == [] then [] else PrintSection(l[0]) + PrintSections(l[1..])
  }

  /** The first section of `b`, if it fits. */
  function FirstSection(b: seq<Byte>): (r: Option<Section>)
    ensures r.Some? ==> |b| >= 8 + |r.value.payload| && |r.value.payload| < 0x1_0000_0000
  {
    if |b| < 8 then None
    else
      var len := Get32(b[4..8]);
      if len > |b| - 8 then None else Some(Section(Get32(b[..4]), b[8..8 + len]))
  }

  /** `n` sections that fill `b`. */
  function ParseSections(b: seq<Byte>, n: nat): (r: Option<seq<Section>>)
    ensures r.Some? ==> |r.value| == n && Small(r.value)
    decreases n
  {
    if n == 0 then (if b == [] then Some([]) else None)
    else
      match FirstSection(b)
      case None => None
      case Some(s) =>
        match ParseSections(b[8 + |s.payload|..], n - 1)
        case None => None
        case Some(l) => Some([s] + l)
  }

  predicate Distinct(l: seq<Section>) {
    forall i, j :: 0 <= i < j < |l| ==> l[i].tag != l[j].tag
  }

  lemma FirstPrinted(s: Section, rest: seq<Byte>)
    requires |s.payload| < 0x1_0000_0000
    ensures FirstSection(PrintSection(s) + rest) == Some(s)
    ensures (PrintSection(s) + rest)[8 + |s.payload|..] == rest
  {
    Get32Le(s.tag);
    Get32Le(|s.payload|);
    hide Le, Get32;
    var b := PrintSection(s) + rest;
    assert b[..4] == Le(s.tag, 4) && b[4..8] == Le(|s.payload|, 4);
    assert b[8..8 + |s.payload|] == s.payload;
  }

  lemma FirstExact(b: seq<Byte>)
    requires FirstSection(b).Some?
    ensures var s := FirstSection(b).value; b == PrintSection(s) + b[8 + |s.payload|..]
  {
    Get32Bytes(b[..4]);
    Get32Bytes(b[4..8]);
    hide Le, Get32;
    var s := FirstSection(b).value;
    assert b == b[..4] + b[4..8] + b[8..8 + |s.payload|] + b[8 + |s.payload|..];
  }

  lemma {:induction false} SectionsRoundTrip(l: seq<Section>)
    requires Small(l)
    ensures ParseSections(PrintSections(l), |l|) == Some(l)
  {
    hide PrintSection, FirstSection;
    if l != [] {
      FirstPrinted(l[0], PrintSections(l[1..]));
      SectionsRoundTrip(l[1..]);
      assert l == [l[0]] + l[1..];
    }
  }

  lemma {:induction false} SectionsExact(b: seq<Byte>, n: nat)
    requires ParseSections(b, n).Some?
    ensures b == PrintSections(ParseSections(b, n).value)
    decreases n
  {
    hide PrintSection, FirstSection;
    if n > 0 {
      var s := FirstSection(b).value;
      var rest := b[8 + |s.payload|..];
      FirstExact(b);
      SectionsExact(rest, n - 1);
      assert ParseSections(b, n).value[1..] == ParseSections(rest, n - 1).value;
    }
  }

  // ── The header ────────────────────────────────────────────────────

  /** `fill_rom_sha1`: forty characters, padded with zeroes. */
  function Fill(sha: seq<Byte>): (r: seq<Byte>)
    ensures |r| == SHA_BYTES
  {
    if |sha| >= SHA_BYTES then sha[..SHA_BYTES] else sha + Zeros(SHA_BYTES - |sha|)
  }

  /** Byte by byte: the hash as far as it goes, then zeroes. */
  lemma FillBytes(sha: seq<Byte>, i: nat)
    requires i < 40
    ensures |Fill(sha)| == 40 && Fill(sha)[i] == if i < |sha| then sha[i] else 0
  {
  }

  /** Two hashes, of any length and without the zero that ends a string, fill alike exactly if their first forty characters are the same. */
  lemma FillExact(a: seq<Byte>, b: seq<Byte>)
    requires 0 !in a && 0 !in b
    ensures Fill(a) == Fill(b) <==> a[..Min(|a|, 40)] == b[..Min(|b|, 40)]
  {
    hide Fill;
    var m, n := Min(|a|, 40), Min(|b|, 40);
    if m < n {
      LongerDiffers(a, b);
    } else if n < m {
      LongerDiffers(b, a);
    } else {
      forall i | 0 <= i < 40
        ensures Fill(a)[i] == (if i < m then a[i] else 0) && Fill(b)[i] == (if i < m then b[i] else 0)
      {
        FillBytes(a, i);
        FillBytes(b, i);
      }
      FillBytes(a, 0);
      FillBytes(b, 0);
      SameFront(a, b, m);
    }
  }

  lemma LongerDiffers(a: seq<Byte>, b: seq<Byte>)
    requires 0 !in b && Min(|a|, 40) < Min(|b|, 40)
    ensures Fill(a) != Fill(b)
  {
    hide Fill;
    var m := Min(|a|, 40);
    FillBytes(a, m);
    FillBytes(b, m);
    assert b[m] in b;
  }

  lemma SameFront(a: seq<Byte>, b: seq<Byte>, m: nat)
    requires m == Min(|a|, 40) == Min(|b|, 40) && |Fill(a)| == |Fill(b)| == 40
    requires forall i :: 0 <= i < 40 ==> Fill(a)[i] == (if i < m then a[i] else 0) && Fill(b)[i] == (if i < m then b[i] else 0)
    ensures Fill(a) == Fill(b) <==> a[..m] == b[..m]
  {
    hide Fill;
    if Fill(a) == Fill(b) {
      forall i | 0 <= i < m ensures a[i] == b[i] {
        assert Fill(a)[i] == Fill(b)[i];
      }
    } else if a[..m] == b[..m] {
      forall i | 0 <= i < m ensures a[i] == b[i] {
        assert a[..m][i] == b[..m][i];
      }
    }
  }

  /** Two whole hashes fill alike exactly if they are equal. */
  lemma FullHashes(a: seq<Byte>, b: seq<Byte>)
    requires |a| == |b| == 40
    ensures Fill(a) == Fill(b) <==> a == b
  {
    hide Fill;
    forall i | 0 <= i < 40 ensures Fill(a)[i] == a[i] && Fill(b)[i] == b[i] {
      FillBytes(a, i);
      FillBytes(b, i);
    }
    FillBytes(a, 0);
    FillBytes(b, 0);
    assert a[..40] == a && b[..40] == b;
    SameFront(a, b, 40);
  }

  /** A blob for one hash and one list of sections. */
  function Container(sha: seq<Byte>, l: seq<Section>): (r: seq<Byte>)
    requires Small(l) && |sha| == SHA_BYTES && |l| < 0x1_0000_0000
    ensures |r| >= HEADER_BYTES + 8 * |l|
  {
    MAGIC + Le(VERSION, 4) + sha + Le(|l|, 4) + PrintSections(l)
  }

  /** The header's checks; an empty `want` skips the hash. */
  predicate HeaderFits(b: seq<Byte>, want: seq<Byte>) {
    |b| >= HEADER_BYTES && b[..4] == MAGIC && Get32(b[4..8]) == VERSION
    && (want == [] || b[8..48] == Fill(want))
    && Get32(b[48..52]) <= (|b| - HEADER_BYTES) / 8
  }

  /** Everything `load_state_bytes` checks of the container itself. */
  function Parse(b: seq<Byte>, want: seq<Byte>): Option<seq<Section>> {
    if !HeaderFits(b, want) then None
    else
      match ParseSections(b[HEADER_BYTES..], Get32(b[48..52]))
      case None => None
      case Some(l) => if Distinct(l) then Some(l) else None
  }

  lemma HeaderPieces(sha: seq<Byte>, n: U32, body: seq<Byte>)
    requires |sha| == SHA_BYTES
    ensures var b := MAGIC + Le(VERSION, 4) + sha + Le(n, 4) + body;
            && |b| == HEADER_BYTES + |body| && b[..4] == MAGIC && Get32(b[4..8]) == VERSION
            && b[8..48] == sha && Get32(b[48..52]) == n && b[HEADER_BYTES..] == body
  {
    Get32Le(VERSION);
    Get32Le(n);
    hide Le, Get32;
    var b := MAGIC + Le(VERSION, 4) + sha + Le(n, 4) + body;
    assert b[4..8] == Le(VERSION, 4) && b[48..52] == Le(n, 4);
  }

  /** The blob, field by field: "GBAS", version 5, the hash, the number of sections, then each with its tag and length. */
  lemma ContainerLayout(sha: seq<Byte>, l: seq<Section>)
    requires Small(l) && |sha| == 40 && 0 < |l| < 0x1_0000_0000
    ensures var b := Container(sha, l); var n := |l[0].payload|;
            && |b| >= 60 + n && b[..4] == [71, 66, 65, 83] && Get32(b[4..8]) == 5 && b[8..48] == sha && Get32(b[48..52]) == |l|
            && Get32(b[52..56]) == l[0].tag && Get32(b[56..60]) == n && b[60..60 + n] == l[0].payload
            && b[60 + n..] == PrintSections(l[1..])
  {
    HeaderPieces(sha, |l|, PrintSections(l));
    FirstPrinted(l[0], PrintSections(l[1..]));
    hide Le, Get32, PrintSection;
    var b, body := Container(sha, l), PrintSections(l);
    assert b[52..] == body;
    var n := |l[0].payload|;
    assert b[52..56] == body[..4] && b[56..60] == body[4..8] && b[60..60 + n] == body[8..8 + n];
    assert b[60 + n..] == body[8 + n..];
  }

  lemma HeaderExact(b: seq<Byte>)
    requires |b| >= HEADER_BYTES && b[..4] == MAGIC && Get32(b[4..8]) == VERSION
    ensures b == MAGIC + Le(VERSION, 4) + b[8..48] + Le(Get32(b[48..52]), 4) + b[HEADER_BYTES..]
  {
    Get32Bytes(b[4..8]);
    Get32Bytes(b[48..52]);
    hide Le, Get32;
    assert b == b[..4] + b[4..8] + b[8..48] + b[48..52] + b[52..];
  }

  lemma Printed(sha: seq<Byte>, l: seq<Section>, want: seq<Byte>)
    requires Small(l) && |sha| == SHA_BYTES && |l| < 0x1_0000_0000 && Distinct(l)
    requires want == [] || sha == Fill(want)
    ensures Parse(Container(sha, l), want) == Some(l)
  {
    HeaderPieces(sha, |l|, PrintSections(l));
    SectionsRoundTrip(l);
    hide Le, Get32, ParseSections, PrintSections, Fill;
  }

  /**
   A blob is accepted as some sections exactly when it is the container of those sections,
   which have distinct tags, behind a hash that passes the gate: no gap, no trailing byte.
   */
  lemma ContainerExact(b: seq<Byte>, want: seq<Byte>, l: seq<Section>)
    ensures Parse(b, want) == Some(l) <==>
            && Small(l) && Distinct(l) && |l| < 0x1_0000_0000
            && |b| >= HEADER_BYTES && b == Container(b[8..48], l)
            && (want == [] || b[8..48] == Fill(want))
  {
    if Parse(b, want) == Some(l) {
      SectionsExact(b[HEADER_BYTES..], Get32(b[48..52]));
      HeaderExact(b);
      hide Le, Get32, ParseSections, PrintSections, Fill;
    } else if Small(l) && Distinct(l) && |l| < 0x1_0000_0000 && |b| >= HEADER_BYTES && b == Container(b[8..48], l)
              && (want == [] || b[8..48] == Fill(want)) {
      Printed(b[8..48], l, want);
    }
  }

  /** The gate: a blob behind one hash is refused under any other, and passes without one. */
  lemma GateExact(sha: seq<Byte>, l: seq<Section>, want: seq<Byte>)
    requires Small(l) && Distinct(l) && |l| < 0x1_0000_0000
    ensures Parse(Container(Fill(sha), l), want) == if want == [] || Fill(want) == Fill(sha) then Some(l) else None
  {
    hide Fill, Parse;
    var b := Container(Fill(sha), l);
    HashAt(Fill(sha), l);
    ContainerExact(b, want, l);
    if want != [] && Fill(want) != Fill(sha) {
      Refused(b, want);
    }
  }

  lemma HashAt(sha: seq<Byte>, l: seq<Section>)
    requires Small(l) && |sha| == SHA_BYTES && |l| < 0x1_0000_0000
    ensures Container(sha, l)[8..48] == sha
  {
    HeaderPieces(sha, |l|, PrintSections(l));
    hide Le, PrintSections;
  }

  lemma Refused(b: seq<Byte>, want: seq<Byte>)
    requires |b| >= HEADER_BYTES && want != [] && b[8..48] != Fill(want)
    ensures Parse(b, want) == None
  {
  }

  // ── The printer as it runs ────────────────────────────────────────

  lemma {:induction false} SectionsSnoc(l: seq<Section>, s: Section)
    requires Small(l) && |s.payload| < 0x1_0000_0000
    ensures Small(l + [s]) && PrintSections(l + [s]) == PrintSections(l) + PrintSection(s)
  {
    hide PrintSection;
    if l == [] {
      assert l + [s] == [s];
      assert PrintSections([s][1..]) == [];
    } else {
      assert (l + [s])[1..] == l[1..] + [s];
      SectionsSnoc(l[1..], s);
    }
  }

  /** `add_section`. */
  method AddSection(w: Writer, s: Section)
    requires |s.payload| < 0x1_0000_0000
    modifies w
    ensures w.buffer == old(w.buffer) + PrintSection(s)
  {
    hide Le;
    w.U32(s.tag);
    w.U32(|s.payload|);
    w.Bytes(s.payload);
  }

  /** The header, then the sections one by one. */
  method WriteContainer(sha: seq<Byte>, l: seq<Section>) returns (b: seq<Byte>)
    requires Small(l) && |sha| == SHA_BYTES && |l| < 0x1_0000_0000
    ensures b == Container(sha, l)
  {
    hide Le, PrintSection, PrintSections;
    var w := new Writer();
    w.Bytes(MAGIC);
    w.U32(VERSION);
    w.Bytes(sha);
    w.U32(|l|);
    ghost var header := MAGIC + Le(VERSION, 4) + sha + Le(|l|, 4);
    NoSections();
    assert l[..|l|] == l;
    for i := 0 to |l|
      invariant Small(l[..i]) && w.buffer == header + PrintSections(l[..i])
    {
      assert l[..i + 1] == l[..i] + [l[i]];
      SectionsSnoc(l[..i], l[i]);
      AddSection(w, l[i]);
    }
    b := w.buffer;
  }

  lemma NoSections()
    ensures PrintSections([]) == []
  {
  }

  // ── The parser as it runs ─────────────────────────────────────────

  /** The section table: tag to payload. */
  function Table(l: seq<Section>): map<U32, seq<Byte>> {
    if l == [] then map[] else Table(l[..|l| - 1])[l[|l| - 1].tag := l[|l| - 1].payload]
  }

  lemma {:induction false} TableKeys(l: seq<Section>, tag: U32)
    ensures tag in Table(l) <==> exists i :: 0 <= i < |l| && l[i].tag == tag
  {
    if l != [] {
      var front := l[..|l| - 1];
      TableKeys(front, tag);
      if tag in Table(front) {
        var i :| 0 <= i < |front| && front[i].tag == tag;
        assert l[i].tag == tag;
      }
      if i :| 0 <= i < |l| && l[i].tag == tag {
        if i < |front| {
          assert front[i].tag == tag;
        }
      }
    }
  }

  lemma {:induction false} TableFinds(l: seq<Section>, i: nat)
    requires i < |l| && Distinct(l)
    ensures l[i].tag in Table(l) && Table(l)[l[i].tag] == l[i].payload
  {
    var front := l[..|l| - 1];
    if i < |front| {
      assert Distinct(front);
      TableFinds(front, i);
      assert l[i].tag != l[|l| - 1].tag;
    }
  }

  /** The whole parse is what was seen, followed by the parse of what is left. */
  ghost predicate Continues(whole: Option<seq<Section>>, seen: seq<Section>, rest: Option<seq<Section>>) {
    whole == match rest { case None => None case Some(l) => Some(seen + l) }
  }

  /** One turn of the loop, and its end. */
  lemma ParseTurn(data: seq<Byte>, cursor: nat, n: nat)
    requires cursor <= |data|
    ensures n > 0 ==>
              ParseSections(data[cursor..], n) ==
              match FirstSection(data[cursor..]) {
                case None => None
                case Some(s) =>
                  match ParseSections(data[cursor + 8 + |s.payload|..], n - 1) {
                    case None => None
                    case Some(l) => Some([s] + l)
                  }
              }
    ensures n == 0 ==> ParseSections(data[cursor..], n) == if cursor == |data| then Some([]) else None
  {
    hide FirstSection;
    var first := FirstSection(data[cursor..]);
    if n > 0 && first.Some? {
      assert data[cursor..][8 + |first.value.payload|..] == data[cursor + 8 + |first.value.payload|..];
    }
  }

  lemma DistinctSnoc(l: seq<Section>, s: Section)
    requires Distinct(l)
    ensures Distinct(l + [s]) <==> s.tag !in Table(l)
  {
    TableKeys(l, s.tag);
    if s.tag in Table(l) {
      var i :| 0 <= i < |l| && l[i].tag == s.tag;
      assert (l + [s])[i].tag == s.tag && (l + [s])[|l|] == s;
    }
  }

  lemma TableSnoc(l: seq<Section>, s: Section)
    ensures Table(l + [s]) == Table(l)[s.tag := s.payload]
  {
    assert (l + [s])[..|l|] == l;
  }

  /** A table that repeats a tag is refused whatever follows. */
  lemma NotDistinct(whole: Option<seq<Section>>, seen: seq<Section>, rest: Option<seq<Section>>)
    requires Continues(whole, seen, rest) && !Distinct(seen)
    ensures whole.Some? ==> !Distinct(whole.value)
  {
    if whole.Some? {
      var i, j :| 0 <= i < j < |seen| && seen[i].tag == seen[j].tag;
      assert whole.value[i] == seen[i] && whole.value[j] == seen[j];
    }
  }

  lemma Finished(whole: Option<seq<Section>>, seen: seq<Section>, rest: Option<seq<Section>>)
    requires Continues(whole, seen, rest)
    ensures rest == None ==> whole == None
    ensures rest == Some([]) ==> whole == Some(seen)
  {
    assert seen + [] == seen;
  }

  /** The loop over the section headers. */
  method ReadTable(data: seq<Byte>, start: nat, count: nat) returns (r: Option<map<U32, seq<Byte>>>)
    requires start <= |data|
    ensures var p := ParseSections(data[start..], count);
            r == if p.Some? && Distinct(p.value) then Some(Table(p.value)) else None
  {
    hide FirstSection, ParseSections, Continues, Table;
    var sections: map<U32, seq<Byte>> := map[];
    var cursor := start;
    ghost var seen: seq<Section> := [];
    ghost var whole := ParseSections(data[start..], count);
    NothingSeen(whole);
    EmptyTable();
    for i := 0 to count
      invariant start <= cursor <= |data| && Distinct(seen) && sections == Table(seen)
      invariant Continues(whole, seen, ParseSections(data[cursor..], count - i))
    {
      ParseTurn(data, cursor, count - i);
      Finished(whole, seen, ParseSections(data[cursor..], count - i));
      var s := ReadSection(data, cursor);
      if s.None? {
        return None;
      }
      ghost var next := cursor + 8 + |s.value.payload|;
      DistinctSnoc(seen, s.value);
      TableSnoc(seen, s.value);
      NextSection(whole, seen, s.value, ParseSections(data[next..], count - i - 1));
      seen := seen + [s.value];
      if s.value.tag in sections {
        NotDistinct(whole, seen, ParseSections(data[next..], count - i - 1));
        return None;
      }
      sections := sections[s.value.tag := s.value.payload];
      cursor := cursor + 8 + |s.value.payload|;
    }
    ParseTurn(data, cursor, 0);
    Finished(whole, seen, ParseSections(data[cursor..], 0));
    if cursor != |data| {
      return None;
    }
    r := Some(sections);
  }

  lemma EmptyTable()
    ensures Table([]) == map[]
  {
  }

  lemma NothingSeen(whole: Option<seq<Section>>)
    ensures Continues(whole, [], whole)
  {
    if whole.Some? {
      assert [] + whole.value == whole.value;
    }
  }

  lemma NextSection(whole: Option<seq<Section>>, seen: seq<Section>, s: Section, rest: Option<seq<Section>>)
    requires Continues(whole, seen, match rest { case None => None case Some(l) => Some([s] + l) })
    ensures Continues(whole, seen + [s], rest)
  {
    if rest.Some? {
      assert seen + [s] + rest.value == seen + ([s] + rest.value);
    }
  }

  /** One section header and its payload. */
  method ReadSection(data: seq<Byte>, cursor: nat) returns (r: Option<Section>)
    requires cursor <= |data|
    ensures r == FirstSection(data[cursor..])
  {
    hide ReadU32, Get32;
    ghost var b := data[cursor..];
    var reader := new Reader(data[cursor..]);
    if |b| >= 4 { ReadU32Inside(reader.At()); } else { ReadU32Outside(reader.At()); }
    var tag := reader.U32();
    if |b| >= 8 {
      ReadU32Inside(reader.At());
      assert b[4..][..4] == b[4..8] && b[4..][4..] == b[8..];
    } else if |b| >= 4 {
      ReadU32Outside(reader.At());
    }
    StaysFailed(reader.At());
    var len := reader.U32();
    if !reader.ok {
      return None;
    }
    if cursor + 8 > |data| || len > |data| - (cursor + 8) {
      return None;
    }
    assert data[cursor + 8..cursor + 8 + len] == b[8..8 + len];
    r := Some(Section(tag, data[cursor + 8..cursor + 8 + len]));
  }

  lemma StaysFailed(c: Cursor)
    ensures !c.ok ==> !ReadU32(c).1.ok
  {
  }

  /** The container checks of `load_state_bytes`, in its order. */
  method ParseContainer(data: seq<Byte>, want: seq<Byte>) returns (r: Option<map<U32, seq<Byte>>>)
    ensures var p := Parse(data, want); r == if p.Some? then Some(Table(p.value)) else None
  {
    hide Fill, ParseSections, Table, Distinct, Get32;
    if |data| < HEADER_BYTES {
      return None;
    }
    if data[..4] != MAGIC || Get32(data[4..8]) != VERSION {
      return None;
    }
    if want != [] && data[8..48] != Fill(want) {
      return None;
    }
    var count := Get32(data[48..52]);
    if count > (|data| - HEADER_BYTES) / 8 {
      return None;
    }
    r := ReadTable(data, HEADER_BYTES, count);
  }
}
