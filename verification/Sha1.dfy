/** SHA-1 as the WebSocket handshake uses it (src/ev_http.cpp:1516-1692).

    The block function keeps a 16-word circular schedule and rotates the roles of five
    registers; data is fed in pieces of any size through a 64-byte buffer.  Both are proved
    against the definition in sections 4 and 6.1 of RFC 3174. */
module Sha1 {

  /** A byte of which bits are taken. */
  type octet = bv8
  type word = bv32

  // ---------------------------------------------------------------- RFC 3174, section 6.1

  /** Circular left shifts S^n, for the n that are used. */
  function Rol1(x: word): word { (x << 1) | (x >> 31) }

  function Rol5(x: word): word { (x << 5) | (x >> 27) }

  function Rol8(x: word): word { (x << 8) | (x >> 24) }

  function Rol24(x: word): word { (x << 24) | (x >> 8) }

  function Rol30(x: word): word { (x << 30) | (x >> 2) }

  function Pack(b0: word, b1: word, b2: word, b3: word): word {
    (b0 << 24) | (b1 << 16) | (b2 << 8) | b3
  }

  function BigEndian(b0: octet, b1: octet, b2: octet, b3: octet): word {
    Pack(b0 as word, b1 as word, b2 as word, b3 as word)
  }

  /** Word t of the message schedule of a block. */
  function W(b: seq<octet>, t: nat): word
    requires |b| == 64
  {
    if t < 16 then BigEndian(b[4 * t], b[4 * t + 1], b[4 * t + 2], b[4 * t + 3])
    else Expand(W(b, t - 3), W(b, t - 8), W(b, t - 14), W(b, t - 16))
  }

  function Expand(a: word, b: word, c: word, d: word): word {
    Rol1(a ^ b ^ c ^ d)
  }

  function Ch(b: word, c: word, d: word): word { (b & c) | (!b & d) }

  function Parity(b: word, c: word, d: word): word { b ^ c ^ d }

  function Maj(b: word, c: word, d: word): word { (b & c) | (b & d) | (c & d) }

  function F(t: nat, b: word, c: word, d: word): word {
    if t < 20 then Ch(b, c, d)
    else if t < 40 then Parity(b, c, d)
    else if t < 60 then Maj(b, c, d)
    else Parity(b, c, d)
  }

  function K(t: nat): word {
    if t < 20 then 0x5A827999 else if t < 40 then 0x6ED9EBA1 else if t < 60 then 0x8F1BBCDC else 0xCA62C1D6
  }

  function Sum5(a: word, b: word, c: word, d: word, e: word): word {
    a + b + c + d + e
  }

  datatype Regs = Regs(a: word, b: word, c: word, d: word, e: word)

  function Round(r: Regs, t: nat, w: word): Regs {
    Regs(Sum5(Rol5(r.a), F(t, r.b, r.c, r.d), r.e, w, K(t)), r.a, Rol30(r.b), r.c, r.d)
  }

  function Rounds(h: Regs, b: seq<octet>, t: nat): Regs
    requires |b| == 64
  {
    if t == 0 then h else Round(Rounds(h, b, t - 1), t - 1, W(b, t - 1))
  }

  function Add(x: word, y: word): word { x + y }

  function Compress(h: Regs, b: seq<octet>): Regs
    requires |b| == 64
  {
    AddRegs(h, Rounds(h, b, 80))
  }

  function AddRegs(h: Regs, r: Regs): Regs {
    Regs(Add(h.a, r.a), Add(h.b, r.b), Add(h.c, r.c), Add(h.d, r.d), Add(h.e, r.e))
  }

  // ---------------------------------------------------------------- the macros of the source

  function Choice(w: word, x: word, y: word): word { (w & (x ^ y)) ^ y }

  function Majority(w: word, x: word, y: word): word { ((w | x) & y) | (w & x) }

  /** The round functions as the source computes them. */
  function Mix(t: nat, w: word, x: word, y: word): word {
    if t < 20 then Choice(w, x, y)
    else if t < 40 then Parity(w, x, y)
    else if t < 60 then Majority(w, x, y)
    else Parity(w, x, y)
  }

  lemma ChoiceBits(w: word, x: word, y: word)
    ensures (w & (x ^ y)) ^ y == (w & x) | (!w & y)
  {
  }

  lemma MajorityBits(w: word, x: word, y: word)
    ensures ((w | x) & y) | (w & x) == (w & x) | (w & y) | (x & y)
  {
  }

  lemma ChoiceIsCh(w: word, x: word, y: word)
    ensures Choice(w, x, y) == Ch(w, x, y)
  {
    ChoiceBits(w, x, y);
  }

  lemma MajorityIsMaj(w: word, x: word, y: word)
    ensures Majority(w, x, y) == Maj(w, x, y)
  {
    MajorityBits(w, x, y);
  }

  lemma MixIsF(t: nat, w: word, x: word, y: word)
    ensures Mix(t, w, x, y) == F(t, w, x, y)
  {
    hide Choice, Ch, Majority, Maj, Parity;
    ChoiceIsCh(w, x, y);
    MajorityIsMaj(w, x, y);
  }

  function LittleEndian(b0: octet, b1: octet, b2: octet, b3: octet): word {
    Pack(b3 as word, b2 as word, b1 as word, b0 as word)
  }

  /** blk0 on a little-endian machine: swaps the bytes of a loaded word. */
  function Swap(x: word): word {
    (Rol24(x) & 0xFF00FF00) | (Rol8(x) & 0x00FF00FF)
  }

  predicate Low(b: word) { b & 0xFF == b }

  lemma SwapBits(b0: word, b1: word, b2: word, b3: word)
    requires b0 & 0xFF == b0 && b1 & 0xFF == b1 && b2 & 0xFF == b2 && b3 & 0xFF == b3
    ensures var x := (b3 << 24) | (b2 << 16) | (b1 << 8) | b0;
            (((x << 24) | (x >> 8)) & 0xFF00FF00) | (((x << 8) | (x >> 24)) & 0x00FF00FF)
              == (b0 << 24) | (b1 << 16) | (b2 << 8) | b3
  {
  }

  lemma SwapWords(b0: word, b1: word, b2: word, b3: word)
    requires Low(b0) && Low(b1) && Low(b2) && Low(b3)
    ensures Swap(Pack(b3, b2, b1, b0)) == Pack(b0, b1, b2, b3)
  {
    SwapBits(b0, b1, b2, b3);
  }

  lemma LowByte(b: octet)
    ensures Low(b as word)
  {
  }

  lemma SwapLoads(b0: octet, b1: octet, b2: octet, b3: octet)
    ensures Swap(LittleEndian(b0, b1, b2, b3)) == BigEndian(b0, b1, b2, b3)
  {
    hide Swap, Pack, Low;
    LowByte(b0);
    LowByte(b1);
    LowByte(b2);
    LowByte(b3);
    SwapWords(b0 as word, b1 as word, b2 as word, b3 as word);
  }

  /** The register that has name k in round t: the names move one place every round. */
  function Role(k: nat, t: nat): (i: nat)
    requires k < 5
    ensures i < 5
    decreases t
  {
    if t == 0 then k else Role(Previous(k), t - 1)
  }

  lemma {:induction false} RolesDiffer(i: nat, j: nat, t: nat)
    requires i < j < 5
    ensures Role(i, t) != Role(j, t)
    decreases t
  {
    if t > 0 {
      if i == 0 { RolesDiffer(j - 1, 4, t - 1); } else { RolesDiffer(i - 1, j - 1, t - 1); }
    }
  }

  lemma FiveBack(k: nat, t: nat)
    requires k < 5 && t >= 5
    ensures Role(k, t) == Role(k, t - 5)
  {
    var a, b, c, d := Previous(k), Previous(Previous(k)), Previous(Previous(Previous(k))), Previous(Previous(Previous(Previous(k))));
    assert Previous(d) == k;
    assert Role(k, t) == Role(a, t - 1) && Role(a, t - 1) == Role(b, t - 2);
    assert Role(b, t - 2) == Role(c, t - 3) && Role(c, t - 3) == Role(d, t - 4);
  }

  function Previous(k: nat): (j: nat)
    requires k < 5
    ensures j < 5
  {
    if k == 0 then 4 else k - 1
  }

  lemma {:induction false} RolesReturn(k: nat, t: nat)
    requires k < 5 && t % 5 == 0
    ensures Role(k, t) == k
    decreases t
  {
    if t > 0 {
      FiveBack(k, t);
      RolesReturn(k, t - 5);
    }
  }

  /** The registers under their names in round t. */
  function Named(regs: seq<word>, t: nat): Regs
    requires |regs| == 5
  {
    Regs(regs[Role(0, t)], regs[Role(1, t)], regs[Role(2, t)], regs[Role(3, t)], regs[Role(4, t)])
  }

  /** Word s of the schedule, or its bytes still as loaded, in slot s % 16 before round t. */
  ghost predicate Scheduled(l: seq<word>, b: seq<octet>, t: nat) {
    && |l| == 16 && |b| == 64
    && (forall i :: t <= i < 16 ==> l[i] == LittleEndian(b[4 * i], b[4 * i + 1], b[4 * i + 2], b[4 * i + 3]))
    && (forall i :: t - 16 <= i < t && 0 <= i ==> l[i % 16] == W(b, i))
  }

  /** One round with the names rotated is one round of the standard. */
  lemma RotatedRound(regs: seq<word>, t: nat, w: word)
    requires |regs| == 5
    ensures var r := Named(regs, t);
            var z := Sum5(r.e, Mix(t, r.b, r.c, r.d), w, K(t), Rol5(r.a));
            Named(regs[Role(4, t) := z][Role(1, t) := Rol30(r.b)], t + 1) == Round(r, t, w)
  {
    hide Rol5, Rol30, Mix, K, F, Sum5, Role;
    var r := Named(regs, t);
    MixIsF(t, r.b, r.c, r.d);
    SumOrder(r.e, F(t, r.b, r.c, r.d), w, K(t), Rol5(r.a));
    RolesMove(t);
  }

  lemma SumOrder(e: word, f: word, w: word, k: word, a: word)
    ensures Sum5(e, f, w, k, a) == Sum5(a, f, e, w, k)
  {
  }

  lemma RolesMove(t: nat)
    ensures Role(0, t + 1) == Role(4, t) && Role(1, t + 1) == Role(0, t) && Role(2, t + 1) == Role(1, t)
    ensures Role(3, t + 1) == Role(2, t) && Role(4, t + 1) == Role(3, t)
    ensures forall i, j :: 0 <= i < j < 5 ==> Role(i, t) != Role(j, t)
  {
    forall i, j | 0 <= i < j < 5 ensures Role(i, t) != Role(j, t) { RolesDiffer(i, j, t); }
  }

  /** The word that blk0 or blk stores in round t. */
  function Stored(l: seq<word>, t: nat): word
    requires |l| == 16
  {
    if t < 16 then Swap(l[t]) else Expand(l[(t + 13) % 16], l[(t + 8) % 16], l[(t + 2) % 16], l[t % 16])
  }

  /** blk0 and blk put word t of the schedule into its slot. */
  lemma StoredIsW(l: seq<word>, b: seq<octet>, t: nat)
    requires Scheduled(l, b, t)
    ensures Stored(l, t) == W(b, t)
  {
    hide Expand, Swap, BigEndian, LittleEndian;
    if t < 16 {
      SwapLoads(b[4 * t], b[4 * t + 1], b[4 * t + 2], b[4 * t + 3]);
    } else {
      Backwards(t);
      assert l[(t - 3) % 16] == W(b, t - 3) && l[(t - 8) % 16] == W(b, t - 8);
      assert l[(t - 14) % 16] == W(b, t - 14) && l[(t - 16) % 16] == W(b, t - 16);
    }
  }

  lemma Backwards(t: nat)
    requires t >= 16
    ensures (t - 3) % 16 == (t + 13) % 16 && (t - 8) % 16 == (t + 8) % 16
    ensures (t - 14) % 16 == (t + 2) % 16 && (t - 16) % 16 == t % 16
  {
    var q, r := t / 16, t % 16;
    assert t == 16 * q + r;
  }

  lemma ScheduleStep(l: seq<word>, b: seq<octet>, t: nat)
    requires Scheduled(l, b, t)
    ensures Scheduled(l[t % 16 := W(b, t)], b, t + 1)
  {
    hide W, LittleEndian;
    var l' := l[t % 16 := W(b, t)];
    forall i | t + 1 - 16 <= i < t + 1 && 0 <= i ensures l'[i % 16] == W(b, i) {
      if i < t { SlotsDiffer(i, t); }
    }
  }

  lemma SlotsDiffer(i: nat, t: nat)
    requires t - 16 < i < t
    ensures i % 16 != t % 16
  {
  }

  function AsRegs(s: seq<word>): Regs
    requires |s| == 5
  {
    Regs(s[0], s[1], s[2], s[3], s[4])
  }

  /** The unrolled block function, with the rotation of the register names written as a loop. */
  method SHA1Transform(state: array<word>, buffer: seq<octet>)
    requires state.Length == 5 && |buffer| == 64
    modifies state
    ensures AsRegs(state[..]) == Compress(old(AsRegs(state[..])), buffer)
  {
    hide Round, LittleEndian, Named, Scheduled, AddRegs, Rounds;
    var block := new word[16](i requires 0 <= i < 16 => LittleEndian(buffer[4 * i], buffer[4 * i + 1], buffer[4 * i + 2], buffer[4 * i + 3]));
    var regs := new word[5](_ => 0);
    regs[0], regs[1], regs[2], regs[3], regs[4] := state[0], state[1], state[2], state[3], state[4];
    ghost var h := AsRegs(state[..]);
    NamesAtStart(regs[..]);
    StartSchedule(block[..], buffer);
    RoundsUnfold(h, buffer, 0);
    var t := 0;
    while t < 80
      invariant t <= 80 && state[..] == old(state[..])
      invariant Scheduled(block[..], buffer, t)
      invariant Named(regs[..], t) == Rounds(h, buffer, t)
    {
      RoundsUnfold(h, buffer, t);
      OneRound(regs, block, t, buffer);
      t := t + 1;
    }
    NamesAtEnd(regs[..]);
    AddTo(state, regs);
  }

  /** The last five statements. */
  method AddTo(state: array<word>, regs: array<word>)
    requires state.Length == 5 && regs.Length == 5 && state != regs
    modifies state
    ensures AsRegs(state[..]) == AddRegs(old(AsRegs(state[..])), AsRegs(regs[..]))
  {
    hide Add;
    state[0] := Add(state[0], regs[0]);
    state[1] := Add(state[1], regs[1]);
    state[2] := Add(state[2], regs[2]);
    state[3] := Add(state[3], regs[3]);
    state[4] := Add(state[4], regs[4]);
  }

  /** One of the macros R0 to R4: z += mix + word + K + rol( v, 5 ); w = rol( w, 30 ). */
  method OneRound(regs: array<word>, block: array<word>, t: nat, ghost buffer: seq<octet>)
    requires regs.Length == 5 && regs != block && Scheduled(block[..], buffer, t)
    modifies regs, block
    ensures Scheduled(block[..], buffer, t + 1)
    ensures Named(regs[..], t + 1) == Round(old(Named(regs[..], t)), t, W(buffer, t))
  {
    hide Rol5, Rol30, Mix, K, Role, W, Round, Sum5, Stored;
    StoredIsW(block[..], buffer, t);
    ScheduleStep(block[..], buffer, t);
    ghost var l, r := block[..], regs[..];
    block[t % 16] := Stored(block[..], t);
    assert block[..] == l[t % 16 := W(buffer, t)];
    hide Scheduled;
    RotatedRound(r, t, block[t % 16]);
    RolesMove(t);
    var v, w, x, y, z := Role(0, t), Role(1, t), Role(2, t), Role(3, t), Role(4, t);
    regs[z] := Sum5(regs[z], Mix(t, regs[w], regs[x], regs[y]), block[t % 16], K(t), Rol5(regs[v]));
    regs[w] := Rol30(regs[w]);
    assert regs[..] == r[z := regs[z]][w := regs[w]];
  }

  lemma RoundsUnfold(h: Regs, b: seq<octet>, t: nat)
    requires |b| == 64
    ensures Rounds(h, b, 0) == h && Rounds(h, b, t + 1) == Round(Rounds(h, b, t), t, W(b, t))
  {
  }

  lemma StartSchedule(l: seq<word>, b: seq<octet>)
    requires |b| == 64 && |l| == 16
    requires forall i :: 0 <= i < 16 ==> l[i] == LittleEndian(b[4 * i], b[4 * i + 1], b[4 * i + 2], b[4 * i + 3])
    ensures Scheduled(l, b, 0)
  {
  }

  lemma NamesAtStart(regs: seq<word>)
    requires |regs| == 5
    ensures Named(regs, 0) == AsRegs(regs)
  {
  }

  lemma NamesAtEnd(regs: seq<word>)
    requires |regs| == 5
    ensures Named(regs, 80) == AsRegs(regs)
  {
    RolesReturn(0, 80);
    RolesReturn(1, 80);
    RolesReturn(2, 80);
    RolesReturn(3, 80);
    RolesReturn(4, 80);
  }
}
