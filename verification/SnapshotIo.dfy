/**
 The byte sink and the bounds-checked cursor of snapshot.h. A read past the end yields zero
 and sets a flag that no later read clears.
 */
module SnapshotIo {
  import opened Common

  type U16 = n: int | 0 <= n < 0x1_0000

  /** What is left to read, and whether every read so far was inside the data. */
  datatype Cursor = Cursor(rest: seq<Byte>, ok: bool)

  function ReadU8(c: Cursor): (Byte, Cursor) {
    if c.rest == [] then (0, c.(ok := false)) else (c.rest[0], c.(rest := c.rest[1..]))
  }

  function ReadU16(c: Cursor): (U16, Cursor) {
    var (lo, c1) := ReadU8(c);
    var (hi, c2) := ReadU8(c1);
    ((lo as int) + 256 * (hi as int), c2)
  }

  function ReadU32(c: Cursor): (U32, Cursor) {
    var (lo, c1) := ReadU16(c);
    var (hi, c2) := ReadU16(c1);
    ((lo as int) + 0x1_0000 * (hi as int), c2)
  }

  function ReadU64(c: Cursor): (U64, Cursor) {
    var (lo, c1) := ReadU32(c);
    var (hi, c2) := ReadU32(c1);
    ((lo as int) + TWO_32 * (hi as int), c2)
  }

  function Zeros(n: nat): (r: seq<Byte>)
    ensures |r| == n
  {
    seq(n, _ => 0)
  }

  function ReadBytes(c: Cursor, n: nat): (r: (seq<Byte>, Cursor))
    ensures |r.0| == n
  {
    if n > |c.rest| then (Zeros(n), c.(ok := false)) else (c.rest[..n], c.(rest := c.rest[n..]))
  }

  /** A field inside the data is its little-endian value. */
  lemma ReadU16Inside(c: Cursor)
    requires |c.rest| >= 2
    ensures ReadU16(c) == ((c.rest[0] as int) + 256 * (c.rest[1] as int), c.(rest := c.rest[2..]))
  {
    assert c.rest[1..][0] == c.rest[1];
    assert c.rest[1..][1..] == c.rest[2..];
  }

  lemma FromLeFour(b: seq<Byte>)
    requires |b| == 4
    ensures FromLe(b) == (b[0] as int) + 256 * (b[1] as int) + 0x1_0000 * (b[2] as int) + 0x100_0000 * (b[3] as int)
  {
    assert b[1..][1..] == b[2..];
    assert b[2..][1..] == b[3..];
    assert b[3..][1..] == [];
    assert FromLe(b[3..]) == b[3];
    assert FromLe(b[2..]) == (b[2] as int) + 256 * (b[3] as int);
    assert FromLe(b[1..]) == (b[1] as int) + 256 * FromLe(b[2..]);
  }

  lemma ReadU32Inside(c: Cursor)
    requires |c.rest| >= 4
    ensures ReadU32(c) == (Get32(c.rest[..4]), c.(rest := c.rest[4..]))
  {
    ReadU16Inside(c);
    ReadU16Inside(c.(rest := c.rest[2..]));
    FromLeFour(c.rest[..4]);
    assert c.rest[2..][2..] == c.rest[4..];
    assert c.rest[2..][0] == c.rest[2] && c.rest[2..][1] == c.rest[3];
  }

  lemma FromLeSplit(a: seq<Byte>, b: seq<Byte>)
    requires |a| == 4
    ensures FromLe(a + b) == FromLe(a) + TWO_32 * FromLe(b)
  {
    var s := a + b;
    assert s[1..] == a[1..] + b;
    assert s[1..][1..] == a[2..] + b;
    assert s[1..][1..][1..] == a[3..] + b;
    assert s[1..][1..][1..][1..] == b;
    FromLeFour(a);
    assert FromLe(a[3..] + b) == (a[3] as int) + 256 * FromLe(b);
    assert FromLe(a[2..] + b) == (a[2] as int) + 256 * FromLe(a[3..] + b);
    assert FromLe(a[1..] + b) == (a[1] as int) + 256 * FromLe(a[2..] + b);
  }

  lemma ReadU64Inside(c: Cursor)
    requires |c.rest| >= 8
    ensures ReadU64(c) == (Get64(c.rest[..8]), c.(rest := c.rest[8..]))
  {
    ReadU32Inside(c);
    ReadU32Inside(c.(rest := c.rest[4..]));
    hide ReadU32;
    assert c.rest[..8] == c.rest[..4] + c.rest[4..][..4];
    assert c.rest[4..][4..] == c.rest[8..];
    FromLeSplit(c.rest[..4], c.rest[4..][..4]);
  }

  /** Once a read has failed the flag stays down, whatever is read next. */
  lemma FailureSticks(c: Cursor, n: nat)
    requires !c.ok
    ensures !ReadU8(c).1.ok && !ReadU16(c).1.ok && !ReadU32(c).1.ok && !ReadU64(c).1.ok && !ReadBytes(c, n).1.ok
  {
  }

  lemma ReadU32Outside(c: Cursor)
    requires |c.rest| < 4
    ensures !ReadU32(c).1.ok
  {
  }

  class Reader {
    const data: seq<Byte>
    var cur: nat
    var ok: bool

    ghost predicate Valid()
      reads this
    {
      cur <= |data|
    }

    ghost function At(): Cursor
      requires Valid()
      reads this
    {
      Cursor(data[cur..], ok)
    }

    constructor (data: seq<Byte>)
      ensures Valid() && At() == Cursor(data, true)
    {
      this.data := data;
      cur, ok := 0, true;
    }

    method U8() returns (v: Byte)
      requires Valid()
      modifies this
      ensures Valid() && (v, At()) == ReadU8(old(At()))
    {
      if cur + 1 > |data| {
        ok := false;
        return 0;
      }
      v := data[cur];
      cur := cur + 1;
    }

    method U16() returns (v: U16)
      requires Valid()
      modifies this
      ensures Valid() && (v, At()) == ReadU16(old(At()))
    {
      hide ReadU8;
      var lo := U8();
      var hi := U8();
      v := (lo as int) + 256 * (hi as int);
    }

    method U32() returns (v: U32)
      requires Valid()
      modifies this
      ensures Valid() && (v, At()) == ReadU32(old(At()))
    {
      hide ReadU16;
      var lo := U16();
      var hi := U16();
      v := (lo as int) + 0x1_0000 * (hi as int);
    }

    method U64() returns (v: U64)
      requires Valid()
      modifies this
      ensures Valid() && (v, At()) == ReadU64(old(At()))
    {
      hide ReadU32;
      var lo := U32();
      var hi := U32();
      v := (lo as int) + TWO_32 * (hi as int);
    }

    method Take(n: nat) returns (b: seq<Byte>)
      requires Valid()
      modifies this
      ensures Valid() && (b, At()) == ReadBytes(old(At()), n)
    {
      if cur + n > |data| {
        ok := false;
        return Zeros(n);
      }
      b := data[cur..cur + n];
      assert b == data[cur..][..n] && data[cur + n..] == data[cur..][n..];
      cur := cur + n;
    }

    method Remaining() returns (n: nat)
      requires Valid()
      ensures n == |At().rest|
    {
      n := |data| - cur;
    }
  }

  class Writer {
    var buffer: seq<Byte>

    constructor ()
      ensures buffer == []
    {
      buffer := [];
    }

    method U8(v: Byte)
      modifies this
      ensures buffer == old(buffer) + [v]
    {
      buffer := buffer + [v];
    }

    method U16(v: U16)
      modifies this
      ensures buffer == old(buffer) + Le(v, 2)
    {
      U8(v % 256);
      U8((v / 256) % 256);
      assert Le(v / 256, 1) == [(v / 256) % 256];
    }

    method U32(v: U32)
      modifies this
      ensures buffer == old(buffer) + Le(v, 4)
    {
      hide Le;
      U16(v % 0x1_0000);
      U16((v / 0x1_0000) % 0x1_0000);
      LeHalves(v);
    }

    method U64(v: U64)
      modifies this
      ensures buffer == old(buffer) + Le(v, 8)
    {
      hide Le;
      U32(v % TWO_32);
      U32((v / TWO_32) % TWO_32);
      LeQuarters(v);
    }

    method Bytes(b: seq<Byte>)
      modifies this
      ensures buffer == old(buffer) + b
    {
      buffer := buffer + b;
    }
  }

  /** Bytes that add up to `v` are the bytes of `v`. */
  lemma LeIs(b: seq<Byte>, v: nat, n: nat)
    requires FromLe(b) == v && |b| == n
    ensures Le(v, n) == b
  {
    FromThenLe(b);
  }

  lemma LowTwo(v: nat)
    requires v < 0x1_0000
    ensures var b := Le(v, 2); (b[0] as int) + 256 * (b[1] as int) == v
  {
    assert Le(v / 256, 1) == [(v / 256) % 256];
  }

  lemma LeHalves(v: U32)
    ensures Le(v % 0x1_0000, 2) + Le((v / 0x1_0000) % 0x1_0000, 2) == Le(v, 4)
  {
    LowTwo(v % 0x1_0000);
    LowTwo((v / 0x1_0000) % 0x1_0000);
    hide Le, FromLe;
    var a, b := Le(v % 0x1_0000, 2), Le((v / 0x1_0000) % 0x1_0000, 2);
    FromLeFour(a + b);
    LeIs(a + b, v, 4);
  }

  lemma LeQuarters(v: U64)
    ensures Le(v % TWO_32, 4) + Le((v / TWO_32) % TWO_32, 4) == Le(v, 8)
  {
    PowValues();
    LeThenFrom(v % TWO_32, 4);
    LeThenFrom((v / TWO_32) % TWO_32, 4);
    hide Le, FromLe, Pow256;
    var a, b := Le(v % TWO_32, 4), Le((v / TWO_32) % TWO_32, 4);
    FromLeSplit(a, b);
    LeIs(a + b, v, 8);
  }
}
