/** Feeding SHA-1 in pieces (src/ev_http.cpp:1602-1692): any split of the data into updates
    yields the digest of the padded message, section 4 of RFC 3174. */
module Sha1Stream {

  import opened Sha1

  const TWO32 := 0x1_0000_0000

  const INIT := Regs(0x67452301, 0xEFCDAB89, 0x98BADCFE, 0x10325476, 0xC3D2E1F0)

  /** The block function folded over the 64-byte blocks of d. */
  function Fold(h: Regs, d: seq<octet>): Regs
    requires |d| % 64 == 0
    decreases |d|
  {
    if d == [] then h else Fold(Compress(h, d[..64]), d[64..])
  }

  lemma {:induction false} FoldBlock(h: Regs, d: seq<octet>, b: seq<octet>)
    requires |d| % 64 == 0 && |b| == 64
    ensures Fold(h, d + b) == Compress(Fold(h, d), b)
    decreases |d|
  {
    hide Compress;
    if d == [] {
      assert (d + b)[..64] == b && (d + b)[64..] == [];
    } else {
      assert (d + b)[..64] == d[..64] && (d + b)[64..] == d[64..] + b;
      FoldBlock(Compress(h, d[..64]), d[64..], b);
    }
  }

  /** The bytes of d that fill whole blocks. */
  function Whole(n: nat): (w: nat)
    ensures w <= n && w % 64 == 0 && n - w == n % 64
  {
    n - n % 64
  }

  function Zeros(k: nat): (z: seq<octet>)
    ensures |z| == k
  {
    seq(k, _ => 0)
  }

  function ByteAt(x: nat, k: nat): octet
    requires k < 4
  {
    var y := if k == 0 then x / 0x100_0000 else if k == 1 then x / 0x1_0000 else if k == 2 then x / 0x100 else x;
    (y % 256) as octet
  }

  function WordBytes(x: nat): (bs: seq<octet>)
    ensures |bs| == 4
  {
    [ByteAt(x, 0), ByteAt(x, 1), ByteAt(x, 2), ByteAt(x, 3)]
  }

  /** The length in bits as 64-bit big-endian number. */
  function LengthBytes(bits: nat): (bs: seq<octet>)
    ensures |bs| == 8
  {
    WordBytes(bits / TWO32) + WordBytes(bits % TWO32)
  }

  /** How many zero bytes the padding has: up to 56 mod 64. */
  function PadZeros(n: nat): (k: nat)
    ensures k < 64 && (n + 1 + k) % 64 == 56
  {
    if n % 64 < 56 then 55 - n % 64 else 119 - n % 64
  }

  /** Section 4 of RFC 3174: a one bit, zeros, and the length. */
  function Padded(d: seq<octet>): (p: seq<octet>)
    ensures |p| % 64 == 0
  {
    PadTotal(|d|);
    d + [0x80] + Zeros(PadZeros(|d|)) + LengthBytes(8 * |d|)
  }

  lemma PadTotal(n: nat)
    ensures (n + 1 + PadZeros(n) + 8) % 64 == 0
  {
  }

  function RegBytes(w: word): (bs: seq<octet>)
    ensures |bs| == 4
  {
    [((w >> 24) & 0xFF) as octet, ((w >> 16) & 0xFF) as octet, ((w >> 8) & 0xFF) as octet, (w & 0xFF) as octet]
  }

  function Digest(r: Regs): seq<octet> {
    RegBytes(r.a) + RegBytes(r.b) + RegBytes(r.c) + RegBytes(r.d) + RegBytes(r.e)
  }

  /** The two count words hold the number of bits. */
  predicate Counts(c0: nat, c1: nat, n: nat) {
    c0 < TWO32 && c0 + TWO32 * c1 == 8 * n
  }

  /** The source's addition of a length to the two count words. */
  lemma CountAdds(c0: nat, c1: nat, n: nat, len: nat)
    requires Counts(c0, c1, n) && 8 * (n + len) < TWO32 * TWO32 && len < TWO32
    ensures var d0 := (c0 + (len * 8) % TWO32) % TWO32;
            var d1 := ((if d0 < c0 then (c1 + 1) % TWO32 else c1) + len / 0x2000_0000) % TWO32;
            Counts(d0, d1, n + len)
  {
    var q, r := len / 0x2000_0000, len % 0x2000_0000;
    assert len == 0x2000_0000 * q + r;
    var s := c0 + 8 * r;
    LowPart(len * 8, q, 8 * r);
    if s < TWO32 {
      LowPart(s, 0, s);
      LowPart(c1 + q, 0, c1 + q);
    } else {
      LowPart(s, 1, s - TWO32);
      LowPart(c1 + 1, 0, c1 + 1);
      LowPart(c1 + 1 + q, 0, c1 + 1 + q);
    }
  }

  lemma LowPart(x: nat, q: nat, r: nat)
    requires x == TWO32 * q + r && r < TWO32
    ensures x % TWO32 == r
  {
  }

  /** Bits 3 to 8 of the low count word say how much of the buffer is used. */
  lemma CountLow(c0: nat, c1: nat, n: nat)
    requires Counts(c0, c1, n)
    ensures (c0 / 8) % 64 == n % 64
  {
    var t := 0x80_0000 * c1;
    var h := n - 64 * t;
    assert c0 == 8 * h;
    Eighth(h);
    SixtyFours(h, t);
  }

  lemma Eighth(h: nat)
    ensures 8 * h / 8 == h
  {
  }

  lemma SixtyFours(h: nat, t: nat)
    ensures (h + 64 * t) % 64 == h % 64
  {
  }

  /** The registers hold the fold over the first m bytes, whole blocks. */
  ghost predicate Folded(regs: Regs, all: seq<octet>, m: nat) {
    m % 64 == 0 && m <= |all| && regs == Fold(INIT, all[..m])
  }

  /** Registers and buffer between two updates. */
  ghost predicate Holds(regs: Regs, buf: seq<octet>, all: seq<octet>) {
    && Folded(regs, all, Whole(|all|))
    && |buf| == 64 && buf[..|all| % 64] == all[Whole(|all|)..]
  }

  /** A block that ends i bytes into d extends the fold over data + d. */
  lemma NextBlock(regs: Regs, data: seq<octet>, d: seq<octet>, i: nat)
    requires i + 64 <= |d| && Folded(regs, data + d, |data| + i)
    ensures Folded(Compress(regs, d[i..i + 64]), data + d, |data| + (i + 64))
  {
    var all, m := data + d, |data| + i;
    assert all[..m + 64] == all[..m] + d[i..i + 64];
    FoldBlock(INIT, all[..m], d[i..i + 64]);
  }

  /** The buffered bytes and the first of d make a block. */
  lemma FirstBlock(regs: Regs, buf: seq<octet>, data: seq<octet>, d: seq<octet>, i: nat)
    requires Holds(regs, buf, data) && i == 64 - |data| % 64 && i <= |d|
    ensures |buf[..64 - i] + d[..i]| == 64
    ensures Folded(Compress(regs, buf[..64 - i] + d[..i]), data + d, |data| + i)
  {
    var w := Whole(|data|);
    assert (data + d)[..|data| + i] == data[..w] + (data[w..] + d[..i]);
    FoldBlock(INIT, data[..w], data[w..] + d[..i]);
  }

  /** What is left after the last whole block goes to the front of the buffer. */
  lemma LeftOver(regs: Regs, buf: seq<octet>, data: seq<octet>, d: seq<octet>, i: nat)
    requires |buf| == 64 && i <= |d|
    requires i == 0 ==> Holds(regs, buf, data) && |data| % 64 + |d| < 64
    requires i > 0 ==> Folded(regs, data + d, |data| + i) && |d| - i < 64
    ensures var j := if i == 0 then |data| % 64 else 0;
            j + |d[i..]| <= 64 && Holds(regs, buf[..j] + d[i..] + buf[j + |d[i..]|..], data + d)
  {
    hide Fold;
    var all, j := data + d, if i == 0 then |data| % 64 else 0;
    var buf' := buf[..j] + d[i..] + buf[j + |d[i..]|..];
    LeftOverSizes(|data|, |d|, i);
    if i == 0 {
      assert all[..Whole(|all|)] == data[..Whole(|data|)];
    }
    assert buf'[..|all| % 64] == all[Whole(|all|)..];
  }

  lemma NothingHeld(state: seq<word>, buf: seq<octet>)
    requires |buf| == 64 && state == [INIT.a, INIT.b, INIT.c, INIT.d, INIT.e]
    ensures Holds(AsRegs(state), buf, []) && Counts(0, 0, 0)
  {
    assert AsRegs(state) == INIT;
  }

  lemma LeftOverSizes(n: nat, len: nat, i: nat)
    requires i <= len
    requires if i == 0 then n % 64 + len < 64 else (n + i) % 64 == 0 && len - i < 64
    ensures if i == 0 then Whole(n + len) == Whole(n) && (n + len) % 64 == n % 64 + len
            else Whole(n + len) == n + i && (n + len) % 64 == len - i
  {
  }

  class SHA1_CTX {
    var state: array<word>
    var count0: nat
    var count1: nat
    var buffer: array<octet>
    /** Everything fed in so far. */
    ghost var data: seq<octet>

    ghost predicate Valid()
      reads this, state, buffer
    {
      && state.Length == 5 && buffer.Length == 64
      && 8 * |data| < TWO32 * TWO32 && Counts(count0, count1, |data|)
      && Holds(AsRegs(state[..]), buffer[..], data)
    }

    /** SHA1Init. */
    constructor ()
      ensures Valid() && data == [] && fresh(state) && fresh(buffer)
    {
      state := new word[] [0x67452301, 0xEFCDAB89, 0x98BADCFE, 0x10325476, 0xC3D2E1F0];
      buffer := new octet[64](_ => 0);
      count0, count1 := 0, 0;
      data := [];
      new;
      hide Holds, Folded, Fold, Counts, Whole;
      NothingHeld(state[..], buffer[..]);
    }

    /** SHA1Update. */
    method Update(d: seq<octet>)
      requires Valid() && |d| < TWO32 - 64 && 8 * (|data| + |d|) < TWO32 * TWO32
      modifies this`count0, this`count1, this`data, state, buffer
      ensures Valid() && data == old(data) + d
    {
      hide Fold, Whole, Counts, Holds;
      var len, j := |d|, count0;
      CountAdds(count0, count1, |data|, len);
      CountLow(count0, count1, |data|);
      count0 := (count0 + (len * 8) % TWO32) % TWO32;
      if count0 < j {
        count1 := (count1 + 1) % TWO32;
      }
      count1 := (count1 + len / 0x2000_0000) % TWO32;
      Absorb(d, (j / 8) % 64);
      data := data + d;
    }

    /** The rest of SHA1Update: full blocks go into the state, the others stay in the buffer. */
    method Absorb(d: seq<octet>, used: nat)
      requires state.Length == 5 && buffer.Length == 64 && used == |data| % 64
      requires Holds(AsRegs(state[..]), buffer[..], data)
      modifies state, buffer
      ensures Holds(AsRegs(state[..]), buffer[..], data + d)
    {
      hide Fold, Compress, Whole, Folded, Holds;
      var j, i, len := used, 0, |d|;
      if j + len > 63 {
        i := 64 - j;
        ghost var buf := buffer[..];
        FirstBlock(AsRegs(state[..]), buf, data, d, i);
        Store(j, d[..i]);
        assert buffer[..] == buf[..j] + d[..i];
        SHA1Transform(state, buffer[..]);
        while i + 63 < len
          invariant 0 < i <= len
          invariant Folded(AsRegs(state[..]), data + d, |data| + i)
        {
          NextBlock(AsRegs(state[..]), data, d, i);
          SHA1Transform(state, d[i..i + 64]);
          i := i + 64;
        }
        j := 0;
      }
      LeftOver(AsRegs(state[..]), buffer[..], data, d, i);
      Store(j, d[i..]);
    }

    /** The memcpy into the buffer. */
    method Store(j: nat, d: seq<octet>)
      requires buffer.Length == 64 && j + |d| <= 64
      modifies buffer
      ensures buffer[..] == old(buffer[..])[..j] + d + old(buffer[..])[j + |d|..]
    {
      forall x | 0 <= x < |d| { buffer[j + x] := d[x]; }
    }

    /** SHA1Final: pads the data and returns the digest. */
    method Final() returns (digest: seq<octet>)
      requires Valid() && 8 * (|data| + 128) < TWO32 * TWO32
      modifies this`count0, this`count1, this`data, state, buffer
      ensures digest == Digest(Fold(INIT, Padded(old(data))))
    {
      hide Fold, Holds, Digest, LengthBytes, WordBytes, Begun;
      ghost var d, k := data, PadZeros(|data|);
      CountWords(count0, count1, |data|);
      var finalcount := WordBytes(count1) + WordBytes(count0);
      ghost var z := 0;
      BegunAtZero(d);
      Update([0x80]);
      CountLow(count0, count1, |data|);
      while (count0 / 8) % 64 != 56
        invariant Valid() && z <= k && data == Begun(d, z)
        invariant (count0 / 8) % 64 == |data| % 64
        decreases k - z
      {
        PadGoesOn(d, z);
        Update([0]);
        z := z + 1;
        CountLow(count0, count1, |data|);
      }
      PadGoesOn(d, z);
      Update(finalcount);
      AllFolded(AsRegs(state[..]), buffer[..], data);
      digest := Digest(AsRegs(state[..]));
    }
  }

  lemma CountWords(c0: nat, c1: nat, n: nat)
    requires Counts(c0, c1, n)
    ensures LengthBytes(8 * n) == WordBytes(c1) + WordBytes(c0)
  {
    hide WordBytes;
    assert (8 * n) / TWO32 == c1 && (8 * n) % TWO32 == c0;
  }

  /** The data with z zeros of the padding. */
  function Begun(d: seq<octet>, z: nat): (p: seq<octet>)
    ensures |p| == |d| + 1 + z
  {
    d + [0x80] + Zeros(z)
  }

  lemma BegunAtZero(d: seq<octet>)
    ensures Begun(d, 0) == d + [0x80]
  {
  }

  /** Padding with zeros stops exactly at the number the standard asks for. */
  lemma PadGoesOn(d: seq<octet>, z: nat)
    requires z <= PadZeros(|d|)
    ensures |Begun(d, z)| % 64 == 56 <==> z == PadZeros(|d|)
    ensures Begun(d, z) + [0] == Begun(d, z + 1)
    ensures z == PadZeros(|d|) ==> Begun(d, z) + LengthBytes(8 * |d|) == Padded(d)
  {
  }

  lemma AllFolded(regs: Regs, buf: seq<octet>, data: seq<octet>)
    requires Holds(regs, buf, data) && |data| % 64 == 0
    ensures regs == Fold(INIT, data)
  {
    assert data[..Whole(|data|)] == data;
  }

  /** The digest of a buffer, for the lengths at which the source's loop makes one round. */
  method SHA1(data: seq<octet>) returns (digest: seq<octet>)
    requires |data| < TWO32 - 64
    ensures digest == Digest(Fold(INIT, Padded(data)))
  {
    hide Padded, Fold, Digest, Counts;
    var ctx := new SHA1_CTX();
    ctx.Update(data);
    assert ctx.data == data;
    digest := ctx.Final();
  }

  /** Main result: however the data is cut into updates, the digest is that of the whole. */
  method SHA1Pieces(pieces: seq<seq<octet>>) returns (digest: seq<octet>)
    requires forall i :: 0 <= i < |pieces| ==> |pieces[i]| < TWO32 - 64
    requires 8 * (|Concat(pieces)| + 128) < TWO32 * TWO32
    ensures digest == Digest(Fold(INIT, Padded(Concat(pieces))))
  {
    hide Padded, Fold, Digest, Counts;
    var ctx := new SHA1_CTX();
    var i := 0;
    while i < |pieces|
      invariant i <= |pieces| && ctx.Valid() && ctx.data == Concat(pieces[..i])
      invariant fresh(ctx) && fresh(ctx.state) && fresh(ctx.buffer)
    {
      ConcatNext(pieces, i);
      ctx.Update(pieces[i]);
      i := i + 1;
    }
    assert pieces[..i] == pieces;
    digest := ctx.Final();
  }

  function Concat(ss: seq<seq<octet>>): seq<octet> {
    if ss == [] then [] else Concat(ss[..|ss| - 1]) + ss[|ss| - 1]
  }

  lemma {:induction false} ConcatNext(ss: seq<seq<octet>>, i: nat)
    requires i < |ss|
    ensures Concat(ss[..i + 1]) == Concat(ss[..i]) + ss[i]
    ensures |Concat(ss[..i + 1])| <= |Concat(ss)|
    decreases |ss| - i
  {
    assert ss[..i + 1][..i] == ss[..i];
    if i + 1 == |ss| {
      assert ss[..i + 1] == ss;
    } else {
      ConcatNext(ss, i + 1);
    }
  }
}
