/**
 The MODS section, mod_state.cpp: the states of the registered native providers, framed so
 that another catalog, another schema or a stray byte is refused before anything is restored.
 */
module ModCatalog {
  import opened Common
  import opened SnapshotIo

  const FORMAT: U32 := 1
  const MAX_ID: nat := 64
  const MAX_STATE: nat := 4194304

  datatype Provider = Provider(id: seq<Byte>, schema: U32)

  /** What registration guarantees of the names. */
  predicate Registered(catalog: seq<Provider>) {
    |catalog| <= 32 && forall i :: 0 <= i < |catalog| ==> |catalog[i].id| <= MAX_ID
  }

  predicate StatesFit(states: seq<seq<Byte>>) {
    states != [] ==> |states[0]| <= MAX_STATE && StatesFit(states[1..])
  }

  /** One provider's state, in front of what follows it. */
  function PrintEntry(p: Provider, state: seq<Byte>, rest: seq<Byte>): seq<Byte> {
    Le(|p.id|, 2) + (p.id + PrintState(p, state, rest))
  }

  function PrintState(p: Provider, state: seq<Byte>, rest: seq<Byte>): seq<Byte> {
    Le(p.schema, 4) + (Le(|state|, 4) + (state + rest))
  }

  function PrintEntries(catalog: seq<Provider>, states: seq<seq<Byte>>): seq<Byte>
    requires |catalog| == |states|
  {
    if catalog == [] then [] else PrintEntry(catalog[0], states[0], PrintEntries(catalog[1..], states[1..]))
  }

  /** `serialize`. */
  function Print(catalog: seq<Provider>, states: seq<seq<Byte>>): seq<Byte>
    requires |catalog| == |states|
  {
    Le(FORMAT, 4) + (Le(|catalog|, 4) + PrintEntries(catalog, states))
  }

  function Get16(b: seq<Byte>): nat
    requires |b| == 2
  {
    (b[0] as int) + 256 * (b[1] as int)
  }

  /** One provider's state at the front of `b`, and what follows it. */
  function ParseEntry(p: Provider, b: seq<Byte>): (r: Option<(seq<Byte>, seq<Byte>)>)
    ensures r.Some? ==> |r.value.0| <= MAX_STATE
  {
    if |b| < 2 then None
    else
      var n := Get16(b[..2]);
      if n > MAX_ID || n > |b[2..]| then None
      else ParseState(p, b[2..][..n], b[2..][n..])
  }

  function ParseState(p: Provider, id: seq<Byte>, b: seq<Byte>): (r: Option<(seq<Byte>, seq<Byte>)>)
    ensures r.Some? ==> |r.value.0| <= MAX_STATE
  {
    if |b| < 8 then None
    else
      var n := Get32(b[4..][..4]);
      var body := b[4..][4..];
      if n > MAX_STATE || n > |body| then None
      else if id != p.id || Get32(b[..4]) != p.schema then None
      else Some((body[..n], body[n..]))
  }

  function ParseEntries(catalog: seq<Provider>, b: seq<Byte>): (r: Option<seq<seq<Byte>>>)
    ensures r.Some? ==> |r.value| == |catalog|
  {
    if catalog == [] then (if b == [] then Some([]) else None)
    else
      match ParseEntry(catalog[0], b)
      case None => None
      case Some((state, rest)) =>
        match ParseEntries(catalog[1..], rest)
        case None => None
        case Some(l) => Some([state] + l)
  }

  /** `parse_catalog`, the framing. */
  function Parse(catalog: seq<Provider>, b: seq<Byte>): (r: Option<seq<seq<Byte>>>)
    ensures r.Some? ==> |r.value| == |catalog|
  {
    if |b| < 8 || Get32(b[..4]) != FORMAT || Get32(b[4..][..4]) != |catalog| then None
    else ParseEntries(catalog, b[4..][4..])
  }

  lemma Get16Le(n: nat)
    requires n < 0x1_0000
    ensures Get16(Le(n, 2)) == n
  {
    LowTwo(n);
  }

  lemma Get16Bytes(b: seq<Byte>)
    requires |b| == 2
    ensures Le(Get16(b), 2) == b
  {
    assert b[1..][1..] == [] && FromLe(b[1..]) == b[1];
    FromThenLe(b);
  }

  lemma StatePrinted(p: Provider, state: seq<Byte>, rest: seq<Byte>)
    requires |state| <= MAX_STATE
    ensures ParseState(p, p.id, PrintState(p, state, rest)) == Some((state, rest))
  {
    Get32Le(p.schema);
    Get32Le(|state|);
    Peel(Le(p.schema, 4), Le(|state|, 4) + (state + rest), 4);
    Peel(Le(|state|, 4), state + rest, 4);
    Peel(state, rest, |state|);
    hide Le, Get32;
  }

  lemma EntryPrinted(p: Provider, state: seq<Byte>, rest: seq<Byte>)
    requires |p.id| <= MAX_ID && |state| <= MAX_STATE
    ensures ParseEntry(p, PrintEntry(p, state, rest)) == Some((state, rest))
  {
    Get16Le(|p.id|);
    StatePrinted(p, state, rest);
    Peel(Le(|p.id|, 2), p.id + PrintState(p, state, rest), 2);
    Peel(p.id, PrintState(p, state, rest), |p.id|);
    hide Le, Get16, ParseState, PrintState;
  }

  lemma StateExact(p: Provider, id: seq<Byte>, b: seq<Byte>)
    requires ParseState(p, id, b).Some?
    ensures var (state, rest) := ParseState(p, id, b).value;
            id == p.id && b == PrintState(p, state, rest)
  {
    Get32Bytes(b[..4]);
    Get32Bytes(b[4..][..4]);
    Halves(b, 4);
    Halves(b[4..], 4);
    Halves(b[4..][4..], Get32(b[4..][..4]));
    hide Le, Get32;
  }

  lemma EntryExact(p: Provider, b: seq<Byte>)
    requires ParseEntry(p, b).Some?
    ensures var (state, rest) := ParseEntry(p, b).value; b == PrintEntry(p, state, rest)
  {
    Get16Bytes(b[..2]);
    var n := Get16(b[..2]);
    StateExact(p, b[2..][..n], b[2..][n..]);
    Halves(b, 2);
    Halves(b[2..], n);
    hide Le, Get16, ParseState, PrintState;
  }

  lemma {:induction false} EntriesPrinted(catalog: seq<Provider>, states: seq<seq<Byte>>)
    requires Registered(catalog) && |catalog| == |states| && StatesFit(states)
    ensures ParseEntries(catalog, PrintEntries(catalog, states)) == Some(states)
  {
    hide PrintEntry, ParseEntry;
    if catalog != [] {
      EntryPrinted(catalog[0], states[0], PrintEntries(catalog[1..], states[1..]));
      EntriesPrinted(catalog[1..], states[1..]);
      assert states == [states[0]] + states[1..];
    }
  }

  lemma {:induction false} EntriesExact(catalog: seq<Provider>, b: seq<Byte>)
    requires ParseEntries(catalog, b).Some?
    ensures b == PrintEntries(catalog, ParseEntries(catalog, b).value)
    ensures StatesFit(ParseEntries(catalog, b).value)
  {
    hide PrintEntry, ParseEntry;
    if catalog != [] {
      var (state, rest) := ParseEntry(catalog[0], b).value;
      EntryExact(catalog[0], b);
      EntriesExact(catalog[1..], rest);
      assert ParseEntries(catalog, b).value[1..] == ParseEntries(catalog[1..], rest).value;
    }
  }

  lemma CatalogPrinted(catalog: seq<Provider>, states: seq<seq<Byte>>)
    requires Registered(catalog) && |states| == |catalog| && StatesFit(states)
    ensures Parse(catalog, Print(catalog, states)) == Some(states)
  {
    var entries := PrintEntries(catalog, states);
    Get32Le(FORMAT);
    Get32Le(|catalog|);
    Peel(Le(FORMAT, 4), Le(|catalog|, 4) + entries, 4);
    Peel(Le(|catalog|, 4), entries, 4);
    EntriesPrinted(catalog, states);
    hide Le, Get32, PrintEntries, ParseEntries;
  }

  lemma CatalogParsed(catalog: seq<Provider>, b: seq<Byte>)
    requires Parse(catalog, b).Some?
    ensures b == Print(catalog, Parse(catalog, b).value) && StatesFit(Parse(catalog, b).value)
  {
    Get32Bytes(b[..4]);
    Get32Bytes(b[4..][..4]);
    EntriesExact(catalog, b[4..][4..]);
    Halves(b, 4);
    Halves(b[4..], 4);
    hide Le, Get32, PrintEntries, ParseEntries;
  }

  /** A section is accepted as some states exactly when it is what this catalog prints for them. */
  lemma CatalogExact(catalog: seq<Provider>, b: seq<Byte>, states: seq<seq<Byte>>)
    requires Registered(catalog)
    ensures Parse(catalog, b) == Some(states) <==>
            |states| == |catalog| && StatesFit(states) && b == Print(catalog, states)
  {
    hide Parse, Print;
    if |states| == |catalog| && StatesFit(states) {
      CatalogPrinted(catalog, states);
    }
    if Parse(catalog, b) == Some(states) {
      CatalogParsed(catalog, b);
    }
  }

  /** One provider, field by field: the length of its name, the name, its schema, the length of its state and the state. */
  lemma EntryLayout(p: Provider, state: seq<Byte>, rest: seq<Byte>)
    requires |p.id| < 0x1_0000 && |state| < 0x1_0000_0000
    ensures var b := PrintEntry(p, state, rest); var n, m := |p.id|, |state|;
            && |b| == 10 + n + m + |rest| && Get16(b[..2]) == n && b[2..2 + n] == p.id && Get32(b[2 + n..6 + n]) == p.schema
            && Get32(b[6 + n..10 + n]) == m && b[10 + n..10 + n + m] == state && b[10 + n + m..] == rest
  {
    Get16Le(|p.id|);
    Get32Le(p.schema);
    Get32Le(|state|);
    hide Le, Get32, Get16;
    EntryPieces(p, Le(|p.id|, 2), Le(p.schema, 4), Le(|state|, 4), state, rest);
  }

  lemma EntryPieces(p: Provider, a: seq<Byte>, c: seq<Byte>, d: seq<Byte>, state: seq<Byte>, rest: seq<Byte>)
    requires |a| == 2 && |c| == 4 && |d| == 4
    ensures var b := a + (p.id + (c + (d + (state + rest)))); var n, m := |p.id|, |state|;
            && b[..2] == a && b[2..2 + n] == p.id && b[2 + n..6 + n] == c && b[6 + n..10 + n] == d
            && b[10 + n..10 + n + m] == state && b[10 + n + m..] == rest
  {
  }

  /** The section: format 1, the number of providers, then each of them in turn. */
  lemma CatalogLayout(catalog: seq<Provider>, states: seq<seq<Byte>>)
    requires |catalog| == |states| < 0x1_0000_0000
    ensures var b := Print(catalog, states);
            && |b| >= 8 && Get32(b[..4]) == 1 && Get32(b[4..8]) == |catalog|
            && (catalog == [] ==> b[8..] == [])
            && (catalog != [] ==> b[8..] == PrintEntry(catalog[0], states[0], PrintEntries(catalog[1..], states[1..])))
  {
    Get32Le(1);
    Get32Le(|catalog|);
    hide Le, Get32, PrintEntry;
    var b := Print(catalog, states);
    assert b[..4] == Le(1, 4) && b[4..8] == Le(|catalog|, 4) && b[8..] == PrintEntries(catalog, states);
  }

  /** The limits: names of up to 64 bytes, states of up to 4 MiB, 32 providers. */
  lemma LimitsExact(catalog: seq<Provider>, states: seq<seq<Byte>>)
    ensures Registered(catalog) <==> |catalog| <= 32 && forall i :: 0 <= i < |catalog| ==> |catalog[i].id| <= 64
    ensures StatesFit(states) <==> forall i :: 0 <= i < |states| ==> |states[i]| <= 0x40_0000
  {
    FitsExact(states);
  }

  lemma {:induction false} FitsExact(states: seq<seq<Byte>>)
    ensures StatesFit(states) <==> forall i :: 0 <= i < |states| ==> |states[i]| <= 0x40_0000
  {
    if states != [] {
      FitsExact(states[1..]);
      assert states == [states[0]] + states[1..];
    }
  }

  // ── The parser as it runs ─────────────────────────────────────────

  lemma Get16Inside(c: Cursor)
    requires |c.rest| >= 2
    ensures ReadU16(c) == (Get16(c.rest[..2]), c.(rest := c.rest[2..]))
  {
    ReadU16Inside(c);
  }

  lemma Short(c: Cursor)
    ensures |c.rest| < 2 || !c.ok ==> !ReadU16(c).1.ok
    ensures |c.rest| < 4 || !c.ok ==> !ReadU32(c).1.ok
  {
  }

  /** The name: `read_string`. */
  method ReadName(r: Reader) returns (id: Option<seq<Byte>>)
    requires r.Valid() && r.ok
    modifies r
    ensures r.Valid()
    ensures var b := old(r.At()).rest;
            if |b| >= 2 && Get16(b[..2]) <= MAX_ID && Get16(b[..2]) <= |b[2..]|
            then id == Some(b[2..][..Get16(b[..2])]) && r.At() == Cursor(b[2..][Get16(b[..2])..], true)
            else id == None
  {
    hide ReadU16, Get16;
    Short(r.At());
    if |r.At().rest| >= 2 {
      Get16Inside(r.At());
    }
    var n := r.U16();
    var left := r.Remaining();
    if !r.ok || n > MAX_ID || n > left {
      return None;
    }
    var s := r.Take(n);
    id := Some(s);
  }

  /** Schema, length and bytes of one provider. */
  method ReadState(r: Reader, p: Provider, id: seq<Byte>) returns (state: Option<seq<Byte>>)
    requires r.Valid() && r.ok
    modifies r
    ensures r.Valid()
    ensures match ParseState(p, id, old(r.At()).rest)
            case None => state == None
            case Some((s, rest)) => state == Some(s) && r.At() == Cursor(rest, true)
  {
    hide ReadU32, Get32;
    ghost var b := r.At().rest;
    Short(r.At());
    if |b| >= 4 {
      ReadU32Inside(r.At());
    }
    var schema := r.U32();
    Short(r.At());
    if |b| >= 8 {
      ReadU32Inside(r.At());
    }
    var n := r.U32();
    var left := r.Remaining();
    if !r.ok || n > MAX_STATE || n > left {
      return None;
    }
    if id != p.id || schema != p.schema {
      return None;
    }
    var s := r.Take(n);
    state := Some(s);
  }

  method ReadEntry(r: Reader, p: Provider) returns (state: Option<seq<Byte>>)
    requires r.Valid() && r.ok
    modifies r
    ensures r.Valid()
    ensures match ParseEntry(p, old(r.At()).rest)
            case None => state == None
            case Some((s, rest)) => state == Some(s) && r.At() == Cursor(rest, true)
  {
    hide Get16, ParseState;
    var id := ReadName(r);
    if id.None? {
      return None;
    }
    state := ReadState(r, p, id.value);
  }

  /** The whole parse is the states read so far, followed by the parse of what is left. */
  ghost predicate Continues(whole: Option<seq<seq<Byte>>>, states: seq<seq<Byte>>, rest: Option<seq<seq<Byte>>>) {
    whole == match rest { case None => None case Some(l) => Some(states + l) }
  }

  lemma NextState(whole: Option<seq<seq<Byte>>>, states: seq<seq<Byte>>, s: seq<Byte>, rest: Option<seq<seq<Byte>>>)
    requires Continues(whole, states, match rest { case None => None case Some(l) => Some([s] + l) })
    ensures Continues(whole, states + [s], rest)
  {
    if rest.Some? {
      assert states + [s] + rest.value == states + ([s] + rest.value);
    }
  }

  lemma Ends(whole: Option<seq<seq<Byte>>>, states: seq<seq<Byte>>, rest: Option<seq<seq<Byte>>>)
    ensures Continues(whole, [], whole)
    ensures Continues(whole, states, rest) && rest == None ==> whole == None
    ensures Continues(whole, states, rest) && rest == Some([]) ==> whole == Some(states)
  {
    assert states + [] == states;
    if whole.Some? {
      assert [] + whole.value == whole.value;
    }
  }

  lemma ParseTurn(catalog: seq<Provider>, i: nat, b: seq<Byte>)
    requires i <= |catalog|
    ensures i < |catalog| ==>
              ParseEntries(catalog[i..], b) ==
              match ParseEntry(catalog[i], b) {
                case None => None
                case Some((state, rest)) =>
                  match ParseEntries(catalog[i + 1..], rest) { case None => None case Some(l) => Some([state] + l) }
              }
    ensures i == |catalog| ==> ParseEntries(catalog[i..], b) == if b == [] then Some([]) else None
  {
    hide ParseEntry;
    if i < |catalog| {
      assert catalog[i..][1..] == catalog[i + 1..];
    }
  }

  /** The loop over the providers. */
  method ReadEntries(r: Reader, catalog: seq<Provider>) returns (states: Option<seq<seq<Byte>>>)
    requires r.Valid() && r.ok
    modifies r
    ensures r.Valid() && states == ParseEntries(catalog, old(r.At()).rest)
  {
    hide ParseEntry, ParseEntries, Continues;
    ghost var whole := ParseEntries(catalog, r.At().rest);
    assert catalog[0..] == catalog;
    var l := [];
    Ends(whole, [], whole);
    for i := 0 to |catalog|
      invariant r.Valid() && r.ok && Continues(whole, l, ParseEntries(catalog[i..], r.At().rest))
    {
      ghost var b := r.At().rest;
      ParseTurn(catalog, i, b);
      Ends(whole, l, ParseEntries(catalog[i..], b));
      var s := ReadEntry(r, catalog[i]);
      if s.None? {
        return None;
      }
      NextState(whole, l, s.value, ParseEntries(catalog[i + 1..], r.At().rest));
      l := l + [s.value];
    }
    ParseTurn(catalog, |catalog|, r.At().rest);
    Ends(whole, l, ParseEntries(catalog[|catalog|..], r.At().rest));
    var left := r.Remaining();
    if !r.ok || left != 0 {
      return None;
    }
    states := Some(l);
  }

  /** `parse_catalog`, but for the callbacks. */
  method ReadCatalog(r: Reader, catalog: seq<Provider>) returns (states: Option<seq<seq<Byte>>>)
    requires r.Valid() && r.ok
    modifies r
    ensures r.Valid() && states == Parse(catalog, old(r.At()).rest)
  {
    hide ReadU32, Get32, ParseEntries;
    ghost var b := r.At().rest;
    Short(r.At());
    if |b| >= 4 {
      ReadU32Inside(r.At());
    }
    var format := r.U32();
    if format != FORMAT {
      return None;
    }
    Short(r.At());
    if |b| >= 8 {
      ReadU32Inside(r.At());
    }
    var n := r.U32();
    if n != |catalog| || !r.ok {
      return None;
    }
    states := ReadEntries(r, catalog);
  }
}
