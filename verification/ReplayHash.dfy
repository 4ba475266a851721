/**
 The streaming 64-bit hash of replay_writer.cpp: whole words are mixed in as they
 arrive, the last few bytes wait in a tail buffer.
 */
module ReplayHash {
  import opened Common

  // The three multipliers.
  function Times1(x: bv64): bv64 { x * 11400714785074694791 }
  function Times2(x: bv64): bv64 { x * 14029467366897019727 }
  function Times3(x: bv64): bv64 { x * 1609587929392839161 }

  const SEED: bv64 := 0x9E37_79B1_85EB_CA87

  function Plus(a: bv64, b: bv64): bv64 { a + b }
  function Xor(a: bv64, b: bv64): bv64 { a ^ b }
  function Fold33(h: bv64): bv64 { h ^ (h >> 33) }
  function Fold29(h: bv64): bv64 { h ^ (h >> 29) }
  function Fold32(h: bv64): bv64 { h ^ (h >> 32) }

  function Rotl31(v: bv64): bv64 { (v << 31) | (v >> 33) }
  function Rotl11(v: bv64): bv64 { (v << 11) | (v >> 53) }

  function Mix(acc: bv64, lane: bv64): bv64 {
    Times1(Rotl31(Plus(acc, Times2(lane))))
  }

  function Pair(low: Word, high: Word): bv64 { (low as bv64) | ((high as bv64) << 32) }

  /** A little-endian 64-bit load. */
  function Load64(s: seq<Byte>): bv64
    requires |s| == 8
  {
    Pair(BytesWord(s[..4]), BytesWord(s[4..]))
  }

  /** A running hash: mixed words, bytes seen (modulo 2^64) and the bytes of an unfinished word. */
  datatype Hash = Hash(state: bv64, length: U64, tail: seq<Byte>)
  {
    predicate WF() { |tail| < 8 }
  }

  const Empty: Hash := Hash(SEED, 0, [])

  /** Mix every word of `s`, whose length is a multiple of eight. */
  function Absorb(state: bv64, s: seq<Byte>): bv64
    requires |s| % 8 == 0
    decreases |s|
  {
    if s == [] then state else Absorb(Mix(state, Load64(s[..8])), s[8..])
  }

  /** The bytes of a string of `n` that make whole words. */
  function Whole(n: nat): (m: nat)
    ensures m <= n < m + 8 && m % 8 == 0
  {
    8 * (n / 8)
  }

  /** What feeding `data` to `h` means: the tail and the data are one string of words. */
  function Update(h: Hash, data: seq<Byte>): (r: Hash)
    requires h.WF()
    ensures r.WF()
  {
    var all := h.tail + data;
    var whole := Whole(|all|);
    Hash(Absorb(h.state, all[..whole]), (h.length + |data|) % TWO_64, all[whole..])
  }

  function Widen(b: Byte): bv64 { Bits(b) as bv64 }

  function FinishByte(h: bv64, b: Byte): bv64 {
    Times1(Rotl11(Xor(h, Times3(Widen(b)))))
  }

  function FinishTail(h: bv64, tail: seq<Byte>): bv64
    decreases |tail|
  {
    if tail == [] then h else FinishTail(FinishByte(h, tail[0]), tail[1..])
  }

  function Avalanche(h: bv64): bv64 {
    Fold32(Times3(Fold29(Times2(Fold33(h)))))
  }

  function Length64(n: U64): bv64 {
    var s := Le(n, 8);
    Load64(s)
  }

  function FinishSeed(state: bv64, length: U64): bv64 { Xor(state, Times1(Length64(length))) }

  function Finish(h: Hash): bv64 {
    Avalanche(FinishTail(FinishSeed(h.state, h.length), h.tail))
  }

  /** The hash of a byte string: `replay_hash`. */
  function HashOf(data: seq<Byte>): bv64 { Finish(Update(Empty, data)) }

  // ── The running hash in place ─────────────────────────────────────

  class StreamingHash {
    var state: bv64
    var length: U64
    const tail: array<Byte>
    var tailLen: nat

    ghost predicate Valid()
      reads this
    {
      tail.Length == 8 && tailLen < 8
    }

    ghost function State(): (h: Hash)
      requires Valid()
      reads this, tail
      ensures h.WF()
    {
      Hash(state, length, tail[..tailLen])
    }

    constructor ()
      ensures Valid() && State() == Empty && fresh(tail)
    {
      state, length, tailLen := SEED, 0, 0;
      tail := new Byte[8](_ => 0);
    }

    /** Top the tail up from the front of `data`; `p` bytes are used, and the tail is empty or the data is. */
    method FillTail(data: seq<Byte>) returns (p: nat)
      requires Valid()
      modifies this`state, this`tailLen, tail
      ensures Valid() && p <= |data|
      ensures var all := old(State()).tail + data[..p];
              if |all| == 8 then state == Mix(old(state), Load64(all)) && tailLen == 0
              else state == old(state) && tail[..tailLen] == all
      ensures tailLen == 0 || p == |data|
    {
      p := 0;
      if tailLen == 0 {
        return;
      }
      ghost var before := tail[..tailLen];
      while tailLen < 8 && p < |data|
        invariant p <= |data| && tailLen == |before| + p <= 8
        invariant tail[..tailLen] == before + data[..p]
        invariant state == old(state)
      {
        tail[tailLen] := data[p];
        tailLen, p := tailLen + 1, p + 1;
        assert data[..p] == data[..p - 1] + [data[p - 1]];
      }
      if tailLen < 8 {
        return;
      }
      assert tail[..] == tail[..8];
      state := Mix(state, Load64(tail[..]));
      tailLen := 0;
    }

    /** Mix the whole words of `data` from `p` on; `seen` is everything before them. */
    method MixWords(data: seq<Byte>, p: nat, ghost seed: bv64, ghost seen: seq<Byte>) returns (q: nat)
      requires Valid() && p <= |data| && tailLen == 0 && |seen| % 8 == 0 && state == Absorb(seed, seen)
      modifies this`state
      ensures Valid() && tailLen == 0
      ensures p <= q <= |data| && |data| - q < 8 && (q - p) % 8 == 0
      ensures state == Absorb(seed, seen + data[p..q])
    {
      hide Mix, Load64;
      q := p;
      assert seen + data[p..p] == seen;
      while |data| - q >= 8
        invariant p <= q <= |data| && (q - p) % 8 == 0
        invariant state == Absorb(seed, seen + data[p..q])
      {
        AbsorbWord(seed, seen + data[p..q], data[q..q + 8]);
        assert seen + data[p..q] + data[q..q + 8] == seen + data[p..q + 8];
        state := Mix(state, Load64(data[q..q + 8]));
        q := q + 8;
      }
    }

    /** Keep the last few bytes of `data` for later. */
    method StoreTail(data: seq<Byte>, q: nat)
      requires Valid() && tailLen == 0 && q <= |data| < q + 8
      modifies this`tailLen, tail
      ensures Valid() && tail[..tailLen] == data[q..]
    {
      var p := q;
      while p < |data|
        invariant q <= p <= |data| && tailLen == p - q
        invariant tail[..tailLen] == data[q..p]
      {
        tail[tailLen] := data[p];
        tailLen, p := tailLen + 1, p + 1;
      }
    }

    /** `ReplayHash::update`. */
    method Feed(data: seq<Byte>)
      requires Valid()
      modifies this, tail
      ensures Valid() && State() == Update(old(State()), data)
    {
      hide Mix, Load64, Absorb;
      ghost var h := State();
      length := (length + |data|) % TWO_64;
      var p := FillTail(data);
      if tailLen != 0 {
        assert data[..p] == data;
        UpdateShort(h, data);
        return;
      }
      ghost var seen := h.tail + data[..p];
      FirstWord(h.state, seen);
      var q := MixWords(data, p, h.state, seen);
      StoreTail(data, q);
      UpdateSplit(h, data, p, q);
    }

    method FinishHash() returns (r: bv64)
      requires Valid()
      ensures r == Finish(State())
    {
      hide FinishByte, Avalanche, FinishSeed;
      var h := FinishSeed(state, length);
      ghost var start := h;
      for i := 0 to tailLen
        invariant FinishTail(start, tail[..tailLen]) == FinishTail(h, tail[i..tailLen])
      {
        assert tail[i..tailLen][1..] == tail[i + 1..tailLen];
        h := FinishByte(h, tail[i]);
      }
      r := Avalanche(h);
    }
  }

  // ── Splitting ─────────────────────────────────────────────────────

  lemma {:induction false} AbsorbAppend(state: bv64, a: seq<Byte>, b: seq<Byte>)
    requires |a| % 8 == 0 && |b| % 8 == 0
    ensures Absorb(state, a + b) == Absorb(Absorb(state, a), b)
    decreases |a|
  {
    if a == [] {
      assert a + b == b;
    } else {
      assert (a + b)[..8] == a[..8] && (a + b)[8..] == a[8..] + b;
      AbsorbAppend(Mix(state, Load64(a[..8])), a[8..], b);
    }
  }

  lemma AbsorbOne(state: bv64, w: seq<Byte>)
    requires |w| == 8
    ensures Absorb(state, w) == Mix(state, Load64(w))
  {
    assert w[..8] == w && w[8..] == [];
  }

  lemma AbsorbWord(state: bv64, a: seq<Byte>, w: seq<Byte>)
    requires |a| % 8 == 0 && |w| == 8
    ensures Absorb(state, a + w) == Mix(Absorb(state, a), Load64(w))
  {
    AbsorbAppend(state, a, w);
    AbsorbOne(Absorb(state, a), w);
  }

  lemma FirstWord(state: bv64, s: seq<Byte>)
    requires s == [] || |s| == 8
    ensures Absorb(state, s) == if s == [] then state else Mix(state, Load64(s))
  {
    if s != [] {
      AbsorbOne(state, s);
    }
  }

  lemma UpdateShort(h: Hash, data: seq<Byte>)
    requires h.WF() && |h.tail| + |data| < 8
    ensures Update(h, data) == Hash(h.state, (h.length + |data|) % TWO_64, h.tail + data)
  {
  }

  /** An update, told how many of its bytes make whole words. */
  lemma UpdateAt(h: Hash, data: seq<Byte>, n: nat)
    requires h.WF() && n <= |h.tail| + |data| < n + 8 && n % 8 == 0
    ensures Update(h, data) ==
            Hash(Absorb(h.state, (h.tail + data)[..n]), (h.length + |data|) % TWO_64, (h.tail + data)[n..])
  {
    hide Absorb;
    WholeWords(n, |h.tail| + |data| - n);
  }

  lemma SumOfWords(a: nat, p: nat, q: nat)
    requires p <= q && (a + p) % 8 == 0 && (q - p) % 8 == 0
    ensures (a + q) % 8 == 0
  {
  }

  /** The words of an update end where fewer than eight bytes are left. */
  lemma UpdateSplit(h: Hash, data: seq<Byte>, p: nat, q: nat)
    requires h.WF() && p <= q <= |data| && |data| - q < 8 && (|h.tail| + p) % 8 == 0 && (q - p) % 8 == 0
    ensures |h.tail + data[..p] + data[p..q]| % 8 == 0
    ensures Update(h, data) ==
            Hash(Absorb(h.state, h.tail + data[..p] + data[p..q]), (h.length + |data|) % TWO_64, data[q..])
  {
    hide Absorb, Update;
    SumOfWords(|h.tail|, p, q);
    UpdateAt(h, data, |h.tail| + q);
    SplitAt(h.tail, data, p, q);
  }

  lemma WholeWords(n: nat, rest: nat)
    requires n % 8 == 0 && rest < 8
    ensures 8 * ((n + rest) / 8) == n
  {
  }

  lemma SplitAt(tail: seq<Byte>, data: seq<Byte>, p: nat, q: nat)
    requires p <= q <= |data|
    ensures (tail + data)[..|tail| + q] == tail + data[..p] + data[p..q]
    ensures (tail + data)[|tail| + q..] == data[q..]
  {
  }

  /** Two updates are one update with the bytes joined. */
  lemma LengthsAdd(length: nat, m: nat, n: nat)
    ensures ((length + m) % TWO_64 + n) % TWO_64 == (length + (m + n)) % TWO_64
  {
  }

  /** One update after another, told how many bytes of each make whole words. */
  lemma UpdateTwice(h: Hash, a: seq<Byte>, b: seq<Byte>, first: seq<Byte>, n: nat, m: nat)
    requires h.WF() && first == h.tail + a && n <= |first| < n + 8 && n % 8 == 0
    requires m <= |first[n..] + b| < m + 8 && m % 8 == 0
    ensures Update(Update(h, a), b) ==
            Hash(Absorb(Absorb(h.state, first[..n]), (first[n..] + b)[..m]),
                 ((h.length + |a|) % TWO_64 + |b|) % TWO_64, (first[n..] + b)[m..])
  {
    hide Absorb, Update;
    UpdateAt(h, a, n);
    UpdateAt(Update(h, a), b, m);
  }

  lemma UpdateOnce(h: Hash, a: seq<Byte>, b: seq<Byte>, first: seq<Byte>, n: nat)
    requires h.WF() && first == h.tail + a && n <= |first + b| < n + 8 && n % 8 == 0
    ensures Update(h, a + b) == Hash(Absorb(h.state, (first + b)[..n]), (h.length + (|a| + |b|)) % TWO_64, (first + b)[n..])
  {
    hide Absorb, Update;
    assert h.tail + (a + b) == first + b;
    UpdateAt(h, a + b, n);
  }

  lemma SumOfWholes(n: nat, m: nat)
    requires n % 8 == 0 && m % 8 == 0
    ensures (n + m) % 8 == 0
  {
  }

  lemma UpdateAppend(h: Hash, a: seq<Byte>, b: seq<Byte>)
    requires h.WF()
    ensures Update(Update(h, a), b) == Update(h, a + b)
  {
    hide Absorb, Update, Whole;
    var first := h.tail + a;
    var n := Whole(|first|);
    var m := Whole(|first[n..] + b|);
    SumOfWholes(n, m);
    UpdateTwice(h, a, b, first, n, m);
    UpdateOnce(h, a, b, first, n + m);
    AbsorbAppend(h.state, first[..n], (first[n..] + b)[..m]);
    JoinedWords(first, b, n, m);
    LengthsAdd(h.length, |a|, |b|);
  }

  lemma JoinedWords(first: seq<Byte>, b: seq<Byte>, n: nat, m: nat)
    requires n <= |first| && m <= |first[n..] + b|
    ensures var second := first[n..] + b;
            && (first + b)[..n + m] == first[..n] + second[..m]
            && (first + b)[n + m..] == second[m..]
  {
    assert first + b == first[..n] + (first[n..] + b);
  }

  function Joined(chunks: seq<seq<Byte>>): seq<Byte> {
    if chunks == [] then [] else chunks[0] + Joined(chunks[1..])
  }

  function UpdateAll(h: Hash, chunks: seq<seq<Byte>>): (r: Hash)
    requires h.WF()
    ensures r.WF()
    decreases |chunks|
  {
    if chunks == [] then h else UpdateAll(Update(h, chunks[0]), chunks[1..])
  }

  /** However a byte string is cut into chunks, the hash that sees it is the hash of the whole string. */
  lemma {:induction false} ChunkIndependent(h: Hash, chunks: seq<seq<Byte>>)
    requires h.WF()
    ensures UpdateAll(h, chunks) == Update(h, Joined(chunks))
    decreases |chunks|
  {
    if chunks == [] {
      UpdateNothing(h);
    } else {
      ChunkIndependent(Update(h, chunks[0]), chunks[1..]);
      UpdateAppend(h, chunks[0], Joined(chunks[1..]));
    }
  }

  lemma UpdateNothing(h: Hash)
    requires h.WF()
    ensures Update(h, []) == h
  {
    hide Absorb, Update, Mix, Load64;
    FirstWord(h.state, []);
    UpdateAt(h, [], 0);
    assert (h.tail + [])[..0] == [] && (h.tail + [])[0..] == h.tail;
  }

  // ── Single-byte changes ───────────────────────────────────────────

  // The way back through each operation; the multipliers are odd, so a product loses nothing.
  function Untimes1(x: bv64): bv64 { x * 614540362697595703 }
  function Untimes2(x: bv64): bv64 { x * 839798700976720815 }
  function Untimes3(x: bv64): bv64 { x * 16855272203555305545 }
  function Rotr31(v: bv64): bv64 { (v >> 31) | (v << 33) }
  function Rotr11(v: bv64): bv64 { (v >> 11) | (v << 53) }
  function Minus(a: bv64, b: bv64): bv64 { a - b }
  function Unfold29(h: bv64): bv64 { h ^ (h >> 29) ^ (h >> 58) }

  lemma ProductsBack(x: bv64)
    ensures Untimes1(Times1(x)) == x && Untimes2(Times2(x)) == x && Untimes3(Times3(x)) == x
  {
    assert Untimes1(x * 11400714785074694791) == x;
    assert Untimes2(x * 14029467366897019727) == x;
    assert Untimes3(x * 1609587929392839161) == x;
  }

  lemma RotationsBack(x: bv64)
    ensures Rotr31(Rotl31(x)) == x && Rotr11(Rotl11(x)) == x
  {
    assert Rotr31((x << 31) | (x >> 33)) == x;
    assert Rotr11((x << 11) | (x >> 53)) == x;
  }

  lemma SumBack(a: bv64, x: bv64)
    ensures Minus(Plus(a, x), x) == a
  {
    assert Minus(a + x, x) == a;
  }

  lemma OtherSumBack(a: bv64, x: bv64)
    ensures Minus(Plus(x, a), x) == a
  {
    assert Minus(x + a, x) == a;
  }

  lemma XorBack(a: bv64, x: bv64)
    ensures Xor(Xor(a, x), x) == a
  {
    assert Xor(a ^ x, x) == a;
  }

  lemma OtherXorBack(a: bv64, x: bv64)
    ensures Xor(Xor(x, a), x) == a
  {
    assert Xor(x ^ a, x) == a;
  }

  lemma FoldsBack(h: bv64)
    ensures Fold33(Fold33(h)) == h && Unfold29(Fold29(h)) == h && Fold32(Fold32(h)) == h
  {
    assert Fold33(h ^ (h >> 33)) == h;
    assert Unfold29(h ^ (h >> 29)) == h;
    assert Fold32(h ^ (h >> 32)) == h;
  }

  /** Mixing is injective in the state and in the word. */
  lemma MixInjective(a: bv64, b: bv64, v: bv64, w: bv64)
    requires Mix(a, v) == Mix(b, w)
    ensures v == w ==> a == b
    ensures a == b ==> v == w
  {
    hide Times1, Times2, Rotl31, Plus, Untimes1, Untimes2, Rotr31, Minus;
    var x, y := Plus(a, Times2(v)), Plus(b, Times2(w));
    ProductsBack(Rotl31(x));
    ProductsBack(Rotl31(y));
    RotationsBack(x);
    RotationsBack(y);
    SumBack(a, Times2(v));
    SumBack(b, Times2(w));
    OtherSumBack(Times2(v), a);
    OtherSumBack(Times2(w), b);
    ProductsBack(v);
    ProductsBack(w);
  }

  lemma WidenSame(x: bv8, y: bv8)
    requires (x as bv64) == (y as bv64)
    ensures x == y
  {
  }

  lemma WidenInjective(a: Byte, b: Byte)
    requires Widen(a) == Widen(b)
    ensures a == b
  {
    WidenSame(Bits(a), Bits(b));
    hide Bits;
    BitsInjective(a, b);
  }

  lemma FinishInjective(g: bv64, h: bv64, a: Byte, b: Byte)
    requires FinishByte(g, a) == FinishByte(h, b)
    ensures a == b ==> g == h
    ensures g == h ==> a == b
  {
    hide Times1, Times3, Rotl11, Xor, Widen, Untimes1, Untimes3, Rotr11;
    var u, v := Widen(a), Widen(b);
    var x, y := Xor(g, Times3(u)), Xor(h, Times3(v));
    ProductsBack(Rotl11(x));
    ProductsBack(Rotl11(y));
    RotationsBack(x);
    RotationsBack(y);
    XorBack(g, Times3(u));
    XorBack(h, Times3(v));
    OtherXorBack(Times3(u), g);
    OtherXorBack(Times3(v), h);
    ProductsBack(u);
    ProductsBack(v);
    if u == v {
      WidenInjective(a, b);
    }
  }

  lemma AvalancheInjective(x: bv64, y: bv64)
    requires Avalanche(x) == Avalanche(y)
    ensures x == y
  {
    hide Times2, Times3, Fold33, Fold29, Fold32, Untimes2, Untimes3, Unfold29;
    var a, b := Times2(Fold33(x)), Times2(Fold33(y));
    FoldsBack(Times3(Fold29(a)));
    FoldsBack(Times3(Fold29(b)));
    ProductsBack(Fold29(a));
    ProductsBack(Fold29(b));
    FoldsBack(a);
    FoldsBack(b);
    ProductsBack(Fold33(x));
    ProductsBack(Fold33(y));
    FoldsBack(x);
    FoldsBack(y);
  }

  function LowHalf(v: bv64): Word { (v & 0xFFFF_FFFF) as Word }
  function HighHalf(v: bv64): Word { (v >> 32) as Word }

  lemma PairBack(low: Word, high: Word)
    ensures LowHalf(Pair(low, high)) == low && HighHalf(Pair(low, high)) == high
  {
    assert LowHalf((low as bv64) | ((high as bv64) << 32)) == low;
    assert HighHalf((low as bv64) | ((high as bv64) << 32)) == high;
  }

  lemma LoadInjective(s: seq<Byte>, t: seq<Byte>)
    requires |s| == 8 && |t| == 8 && Load64(s) == Load64(t)
    ensures s == t
  {
    PairBack(BytesWord(s[..4]), BytesWord(s[4..]));
    PairBack(BytesWord(t[..4]), BytesWord(t[4..]));
    BytesRoundTrip(s[..4]);
    BytesRoundTrip(s[4..]);
    BytesRoundTrip(t[..4]);
    BytesRoundTrip(t[4..]);
    hide Pair, LowHalf, HighHalf, BytesWord, WordBytes;
    assert s == s[..4] + s[4..] && t == t[..4] + t[4..];
  }

  lemma {:induction false} AbsorbInjective(a: bv64, b: bv64, s: seq<Byte>)
    requires |s| % 8 == 0 && Absorb(a, s) == Absorb(b, s)
    ensures a == b
    decreases |s|
  {
    hide Mix, Load64;
    if s != [] {
      AbsorbInjective(Mix(a, Load64(s[..8])), Mix(b, Load64(s[..8])), s[8..]);
      MixInjective(a, b, Load64(s[..8]), Load64(s[..8]));
    }
  }

  lemma {:induction false} AbsorbSeesByte(a: bv64, s: seq<Byte>, i: nat, b: Byte)
    requires |s| % 8 == 0 && i < |s| && b != s[i]
    ensures Absorb(a, s[i := b]) != Absorb(a, s)
    decreases |s|
  {
    hide Mix, Load64;
    var t := s[i := b];
    var v, w := Load64(s[..8]), Load64(t[..8]);
    if i >= 8 {
      assert t[..8] == s[..8] && t[8..] == s[8..][i - 8 := b];
      AbsorbSeesByte(Mix(a, v), s[8..], i - 8, b);
    } else if Absorb(a, t) == Absorb(a, s) {
      assert t[8..] == s[8..] && t[..8][i] == b && s[..8][i] == s[i];
      AbsorbInjective(Mix(a, w), Mix(a, v), s[8..]);
      MixInjective(a, a, w, v);
      LoadInjective(t[..8], s[..8]);
    }
  }

  lemma {:induction false} TailInjective(g: bv64, h: bv64, s: seq<Byte>)
    requires FinishTail(g, s) == FinishTail(h, s)
    ensures g == h
    decreases |s|
  {
    hide FinishByte;
    if s != [] {
      TailInjective(FinishByte(g, s[0]), FinishByte(h, s[0]), s[1..]);
      FinishInjective(g, h, s[0], s[0]);
    }
  }

  lemma {:induction false} TailSeesByte(h: bv64, s: seq<Byte>, i: nat, b: Byte)
    requires i < |s| && b != s[i]
    ensures FinishTail(h, s[i := b]) != FinishTail(h, s)
    decreases |s|
  {
    hide FinishByte;
    var t := s[i := b];
    if i > 0 {
      assert t[0] == s[0] && t[1..] == s[1..][i - 1 := b];
      TailSeesByte(FinishByte(h, s[0]), s[1..], i - 1, b);
    } else if FinishTail(h, t) == FinishTail(h, s) {
      assert t[1..] == s[1..] && t[0] == b;
      TailInjective(FinishByte(h, b), FinishByte(h, s[0]), s[1..]);
      FinishInjective(h, h, b, s[0]);
    }
  }

  lemma SeedInjective(a: bv64, b: bv64, n: U64)
    requires FinishSeed(a, n) == FinishSeed(b, n)
    ensures a == b
  {
    hide Xor, Times1, Length64;
    XorBack(a, Times1(Length64(n)));
    XorBack(b, Times1(Length64(n)));
  }

  /** A whole string's hash, told from its words and its tail. */
  lemma HashParts(data: seq<Byte>)
    ensures var whole := Whole(|data|);
            HashOf(data) ==
            Avalanche(FinishTail(FinishSeed(Absorb(SEED, data[..whole]), |data| % TWO_64), data[whole..]))
  {
    hide Absorb, FinishTail, FinishSeed, Avalanche;
    assert [] + data == data;
  }

  lemma WordSeen(data: seq<Byte>, n: U64, i: nat, b: Byte)
    requires i < Whole(|data|) && b != data[i]
    ensures var whole, other := Whole(|data|), data[i := b];
            FinishTail(FinishSeed(Absorb(SEED, other[..whole]), n), other[whole..]) !=
            FinishTail(FinishSeed(Absorb(SEED, data[..whole]), n), data[whole..])
  {
    hide Absorb, FinishTail, FinishSeed;
    var whole, other := Whole(|data|), data[i := b];
    var s, t := Absorb(SEED, data[..whole]), Absorb(SEED, other[..whole]);
    assert other[..whole] == data[..whole][i := b] && other[whole..] == data[whole..];
    AbsorbSeesByte(SEED, data[..whole], i, b);
    if FinishTail(FinishSeed(t, n), data[whole..]) == FinishTail(FinishSeed(s, n), data[whole..]) {
      TailInjective(FinishSeed(t, n), FinishSeed(s, n), data[whole..]);
      SeedInjective(t, s, n);
    }
  }

  lemma TailSeen(data: seq<Byte>, n: U64, i: nat, b: Byte)
    requires Whole(|data|) <= i < |data| && b != data[i]
    ensures var whole, other := Whole(|data|), data[i := b];
            FinishTail(FinishSeed(Absorb(SEED, other[..whole]), n), other[whole..]) !=
            FinishTail(FinishSeed(Absorb(SEED, data[..whole]), n), data[whole..])
  {
    hide Absorb, FinishTail, FinishSeed;
    var whole, other := Whole(|data|), data[i := b];
    assert other[..whole] == data[..whole] && other[whole..] == data[whole..][i - whole := b];
    TailSeesByte(FinishSeed(Absorb(SEED, data[..whole]), n), data[whole..], i - whole, b);
  }

  /** Changing any one byte of what has been hashed changes the hash. */
  lemma OneByteChangesHash(data: seq<Byte>, i: nat, b: Byte)
    requires i < |data| && b != data[i]
    ensures HashOf(data[i := b]) != HashOf(data)
  {
    hide Absorb, FinishTail, FinishSeed, Avalanche, HashOf;
    var other, whole, n := data[i := b], Whole(|data|), |data| % TWO_64;
    HashParts(data);
    HashParts(other);
    if i < whole {
      WordSeen(data, n, i, b);
    } else {
      TailSeen(data, n, i, b);
    }
    var x := FinishTail(FinishSeed(Absorb(SEED, other[..whole]), n), other[whole..]);
    var y := FinishTail(FinishSeed(Absorb(SEED, data[..whole]), n), data[whole..]);
    if Avalanche(x) == Avalanche(y) {
      AvalancheInjective(x, y);
    }
  }

  // ── A known value ─────────────────────────────────────────────────

  lemma DigitBits()
    ensures Bits(49) == 49 && Bits(50) == 50 && Bits(51) == 51 && Bits(52) == 52 && Bits(53) == 53
    ensures Bits(54) == 54 && Bits(55) == 55 && Bits(56) == 56 && Bits(57) == 57
  {
  }

  /** The word "12345678", least significant byte first. */
  lemma DigitWord()
    ensures Load64([49, 50, 51, 52, 53, 54, 55, 56]) == 0x3837_3635_3433_3231
  {
    DigitBits();
    hide Bits;
    var s := [49, 50, 51, 52, 53, 54, 55, 56];
    assert s[..4] == [49, 50, 51, 52] && s[4..] == [53, 54, 55, 56];
  }

  lemma DigitMix()
    ensures Mix(SEED, 0x3837_3635_3433_3231) == 6574823239708512665
  {
    assert Times2(0x3837_3635_3433_3231) == 5418353779969062943;
    assert Plus(SEED, 5418353779969062943) == 16819068565043757734;
    assert Rotl31(16819068565043757734) == 15289616639758478047;
    assert Times1(15289616639758478047) == 6574823239708512665;
  }

  lemma DigitSeed()
    ensures FinishSeed(6574823239708512665, 9) == 15333967124989546278
  {
    assert Length64(9) == 9 by { NineBytes(); }
    assert Times1(9) == 10372712697124495039;
    assert Xor(6574823239708512665, 10372712697124495039) == 15333967124989546278;
  }

  lemma NineBytes()
    ensures Length64(9) == 9
  {
    assert Le(9, 8) == [9, 0, 0, 0, 0, 0, 0, 0];
    assert Bits(9) == 9 && Bits(0) == 0;
    hide Bits;
    var s := [9, 0, 0, 0, 0, 0, 0, 0];
    assert s[..4] == [9, 0, 0, 0] && s[4..] == [0, 0, 0, 0];
  }

  lemma DigitFinish()
    ensures FinishByte(15333967124989546278, 57) == 5529455330505678729
  {
    DigitBits();
    assert Widen(57) == 57;
    assert Times3(57) == 17959535680553625713;
    assert Xor(15333967124989546278, 17959535680553625713) == 3310188981821318999;
    assert Rotl11(3310188981821318999) == 9311959718655867247;
    assert Times1(9311959718655867247) == 5529455330505678729;
  }

  lemma DigitAvalanche()
    ensures Avalanche(5529455330505678729) == 981191153098775928
  {
    assert Fold33(5529455330505678729) == 5529455330073777824;
    assert Times2(5529455330073777824) == 14681462033159543648;
    assert Fold29(14681462033159543648) == 14681462006085837847;
    assert Times3(14681462006085837847) == 981191153022450015;
    assert Fold32(981191153022450015) == 981191153098775928;
  }

  /** The hash of the nine digits "123456789": one mixed word and one byte of tail. */
  lemma KnownHash()
    ensures HashOf([49, 50, 51, 52, 53, 54, 55, 56, 57]) == 0xD9D_E427_B935_5D78
  {
    DigitWord();
    DigitMix();
    DigitSeed();
    DigitFinish();
    DigitAvalanche();
    hide Mix, Load64, FinishByte, FinishSeed, Avalanche;
    var s := [49, 50, 51, 52, 53, 54, 55, 56, 57];
    assert [] + s == s && s[..8] == [49, 50, 51, 52, 53, 54, 55, 56] && s[8..] == [57];
    AbsorbOne(SEED, s[..8]);
    assert Update(Empty, s) == Hash(6574823239708512665, 9, [57]);
    assert [57][1..] == [];
    assert FinishTail(15333967124989546278, [57]) == FinishTail(5529455330505678729, []);
  }
}
