/** Splitting memcached replies into UDP datagrams (src/ev_memcached.cpp, construct_frames).

    A reply is a range of memory segments whose first eight bytes are the frame header.
    A first pass counts datagrams and segment slices, a second one builds them; replies
    longer than the frame size are cut, and every later datagram gets a header of its own. */
module UdpCuts {

  import opened Bytes

  const HDR: nat := 8

  // ---------------------------------------------------------------- what framing should do

  /** Data cut into a first piece of at most `cap` bytes and further ones of at most `F - 8`. */
  function Chunks(p: bytes, cap: nat, F: nat): (cs: seq<bytes>)
    requires cap > 0 && F > HDR
    ensures |cs| >= 1
    decreases |p|
  {
    if |p| <= cap then [p] else [p[..cap]] + Chunks(p[cap..], F - HDR, F)
  }

  /** The header of datagram x of t: the reply's own, with sequence number and total set. */
  function Head(p: bytes, x: nat, t: nat): (h: bytes)
    requires |p| >= HDR
    ensures |h| == HDR
  {
    p[..2] + PutU16(x % 65536) + PutU16(t % 65536) + p[6..8]
  }

  /** What both callers write before a reply: sequence number 0 of a total of 1. */
  predicate FreshHeader(p: bytes) {
    |p| >= HDR && p[2..6] == [0, 0, 0, 1]
  }

  /** Chunks of the reply p as datagrams: the first contains the reply's header already. */
  function Framed(p: bytes, cs: seq<bytes>): (ds: seq<bytes>)
    requires |p| >= HDR
    ensures |ds| == |cs|
  {
    seq(|cs|, x requires 0 <= x < |cs| => Head(p, x, |cs|) + Body(cs, x))
  }

  function Body(cs: seq<bytes>, x: nat): bytes
    requires x < |cs|
  {
    if x == 0 && |cs[0]| >= HDR then cs[0][HDR..] else cs[x]
  }

  /** What framing should send for the reply p. */
  function Datagrams(p: bytes, F: nat): seq<bytes>
    requires |p| >= HDR && F > HDR
  {
    Framed(p, Chunks(p, F, F))
  }

  // ---------------------------------------------------------------- slices and frames

  /** A slice of segment k of the stream, or a header buffer of its own. */
  datatype Iov = Slice(k: nat, off: nat, len: nat) | Header(h: bytes)

  type Frame = seq<Iov>

  predicate InSegments(segs: seq<bytes>, v: Iov) {
    v.Slice? ==> v.k < |segs| && v.off + v.len <= |segs[v.k]|
  }

  function IovBytes(segs: seq<bytes>, v: Iov): bytes {
    match v
    case Slice(k, off, len) => if InSegments(segs, v) then segs[k][off..off + len] else []
    case Header(h) => h
  }

  /** The bytes the kernel sends for a list of slices. */
  function Gather(segs: seq<bytes>, f: Frame): bytes {
    if f == [] then [] else IovBytes(segs, f[0]) + Gather(segs, f[1..])
  }

  // ---------------------------------------------------------------- the walk of both passes

  /** The loop variables: segment, offset into it, bytes in the datagram, room for them. */
  datatype Cur = Cur(k: nat, off: nat, len: nat, next: nat)

  predicate CurOk(segs: seq<bytes>, c: Cur, j: nat, F: nat) {
    && F > HDR && c.k <= j <= |segs|
    && (c.off == 0 || (c.k < j && c.off < |segs[c.k]|))
    && c.len < c.next && (c.next == F || c.next == F - HDR)
  }

  /** The guard for a new header. */
  predicate Pending(c: Cur, F: nat) { c.len == 0 && c.next == F - HDR }

  predicate Fits(segs: seq<bytes>, c: Cur, j: nat, F: nat)
    requires CurOk(segs, c, j, F) && c.k < j
  {
    |segs[c.k]| - c.off + c.len < c.next
  }

  function Piece(segs: seq<bytes>, c: Cur, j: nat, F: nat): Iov
    requires CurOk(segs, c, j, F) && c.k < j
  {
    Slice(c.k, c.off, if Fits(segs, c, j, F) then |segs[c.k]| - c.off else c.next - c.len)
  }

  function Advance(segs: seq<bytes>, c: Cur, j: nat, F: nat): (c': Cur)
    requires CurOk(segs, c, j, F) && c.k < j
    ensures CurOk(segs, c', j, F)
    ensures c'.k > c.k || (c'.k == c.k && c'.off > c.off)
  {
    if Fits(segs, c, j, F) then Cur(c.k + 1, 0, c.len + |segs[c.k]| - c.off, c.next)
    else
      var off := c.off + c.next - c.len;
      if |segs[c.k]| == off then Cur(c.k + 1, 0, 0, F - HDR) else Cur(c.k, off, 0, F - HDR)
  }

  function Left(segs: seq<bytes>, c: Cur): nat {
    if c.k < |segs| && c.off <= |segs[c.k]| then |segs[c.k]| - c.off else 0
  }

  /** The slices from c on; the first list continues the datagram that is open at c. */
  function Pack(segs: seq<bytes>, c: Cur, j: nat, F: nat): (fs: seq<Frame>)
    requires CurOk(segs, c, j, F)
    ensures |fs| >= 1
    decreases j - c.k, Left(segs, c)
  {
    if c.k == j then [[]]
    else
      var v := Piece(segs, c, j, F);
      var rest := Pack(segs, Advance(segs, c, j, F), j, F);
      if Pending(c, F) then [[], [Header([]), v] + rest[0]] + rest[1..]
      else [[v] + rest[0]] + rest[1..]
  }

  function StartOf(k: nat, F: nat): Cur { Cur(k, 0, 0, F) }

  /** The bytes from c to the end of the reply. */
  function Rest(segs: seq<bytes>, c: Cur, j: nat): bytes
    requires c.k <= j <= |segs|
  {
    if c.k == j || c.off > |segs[c.k]| then [] else segs[c.k][c.off..] + Flatten(segs[c.k + 1..j])
  }

  lemma RestAtStart(segs: seq<bytes>, c: Cur, j: nat)
    requires c.k <= j <= |segs| && c.off == 0
    ensures Rest(segs, c, j) == Flatten(segs[c.k..j])
  {
  }

  lemma RestAdvance(segs: seq<bytes>, c: Cur, j: nat, F: nat)
    requires CurOk(segs, c, j, F) && c.k < j
    ensures Rest(segs, c, j) == IovBytes(segs, Piece(segs, c, j, F)) + Rest(segs, Advance(segs, c, j, F), j)
  {
    hide Flatten;
    var c' := Advance(segs, c, j, F);
    var n := Piece(segs, c, j, F).len;
    var s, tail := segs[c.k], Flatten(segs[c.k + 1..j]);
    if c'.k == c.k {
      assert s[c.off..] == s[c.off..c.off + n] + s[c.off + n..];
      assert s[c.off..] + tail == s[c.off..c.off + n] + (s[c.off + n..] + tail);
    } else {
      RestAtStart(segs, c', j);
      assert s[c.off..] == s[c.off..c.off + n];
    }
  }

  // ---------------------------------------------------------------- sizes and contents

  /** The payload of a frame: its slices without the header buffers. */
  function Payload(segs: seq<bytes>, f: Frame): bytes {
    if f == [] then []
    else (if f[0].Header? then [] else IovBytes(segs, f[0])) + Payload(segs, f[1..])
  }

  function Payloads(segs: seq<bytes>, fs: seq<Frame>): (ps: seq<bytes>)
    ensures |ps| == |fs|
  {
    seq(|fs|, x requires 0 <= x < |fs| => Payload(segs, fs[x]))
  }

  /** Number of steps of the walk that open a datagram for a segment without any bytes. */
  function EmptyAtCut(segs: seq<bytes>, c: Cur, j: nat, F: nat): nat
    requires CurOk(segs, c, j, F)
    decreases j - c.k, Left(segs, c)
  {
    if c.k == j then 0
    else
      (if Pending(c, F) && |segs[c.k]| == 0 then 1 else 0)
      + EmptyAtCut(segs, Advance(segs, c, j, F), j, F)
  }

  lemma PayloadCons(segs: seq<bytes>, v: Iov, f: Frame)
    requires v.Slice?
    ensures Payload(segs, [v] + f) == IovBytes(segs, v) + Payload(segs, f)
    ensures Payload(segs, [Header([]), v] + f) == IovBytes(segs, v) + Payload(segs, f)
  {
  }

  lemma ChunkPrefix(v: bytes, r: bytes, cap: nat, F: nat)
    requires |v| < cap && F > HDR
    ensures var cs := Chunks(r, cap - |v|, F); Chunks(v + r, cap, F) == [v + cs[0]] + cs[1..]
  {
    if |v + r| > cap {
      assert (v + r)[..cap] == v + r[..cap - |v|];
      assert (v + r)[cap..] == r[cap - |v|..];
    }
  }

  lemma ChunkFull(v: bytes, r: bytes, cap: nat, F: nat)
    requires |v| == cap > 0 && F > HDR
    ensures Chunks(v + r, cap, F) == if r == [] then [v] else [v] + Chunks(r, F - HDR, F)
  {
    if r == [] {
      assert v + r == v;
    } else {
      assert (v + r)[..cap] == v && (v + r)[cap..] == r;
    }
  }

  /** What the rest of the walk should produce: the open datagram, then the further chunks. */
  function Expected(segs: seq<bytes>, c: Cur, j: nat, F: nat): (es: seq<bytes>)
    requires CurOk(segs, c, j, F)
    ensures |es| >= 1
  {
    var r := Rest(segs, c, j);
    if !Pending(c, F) then Chunks(r, c.next - c.len, F)
    else if r == [] then [[]] else [[]] + Chunks(r, F - HDR, F)
  }

  lemma ExpectedAdvance(segs: seq<bytes>, c: Cur, j: nat, F: nat)
    requires CurOk(segs, c, j, F) && c.k < j
    ensures var v := IovBytes(segs, Piece(segs, c, j, F));
            var es := Expected(segs, Advance(segs, c, j, F), j, F);
            Expected(segs, c, j, F) ==
              if !Pending(c, F) then [v + es[0]] + es[1..]
              else if |segs[c.k]| == 0 then es
              else [[], v + es[0]] + es[1..]
  {
    hide Rest, Chunks;
    var c' := Advance(segs, c, j, F);
    var v, r := IovBytes(segs, Piece(segs, c, j, F)), Rest(segs, c', j);
    RestAdvance(segs, c, j, F);
    assert v + [] == v;
    if Fits(segs, c, j, F) {
      if Pending(c, F) && |segs[c.k]| == 0 {
        assert v + r == r;
      } else {
        ChunkPrefix(v, r, c.next - c.len, F);
      }
    } else {
      ChunkFull(v, r, c.next - c.len, F);
    }
  }

  lemma PayloadsAdvance(segs: seq<bytes>, c: Cur, j: nat, F: nat)
    requires CurOk(segs, c, j, F) && c.k < j
    ensures var v := IovBytes(segs, Piece(segs, c, j, F));
            var ps := Payloads(segs, Pack(segs, Advance(segs, c, j, F), j, F));
            Payloads(segs, Pack(segs, c, j, F)) ==
              if Pending(c, F) then [[], v + ps[0]] + ps[1..] else [v + ps[0]] + ps[1..]
  {
    hide Payload, IovBytes, Advance, Payloads;
    PayloadsStep(segs, Piece(segs, c, j, F), Pack(segs, Advance(segs, c, j, F), j, F));
  }

  lemma PayloadsStep(segs: seq<bytes>, v: Iov, rest: seq<Frame>)
    requires v.Slice? && rest != []
    ensures var b, ps := IovBytes(segs, v), Payloads(segs, rest);
            && Payloads(segs, [[v] + rest[0]] + rest[1..]) == [b + ps[0]] + ps[1..]
            && Payloads(segs, [[], [Header([]), v] + rest[0]] + rest[1..]) == [[], b + ps[0]] + ps[1..]
  {
    hide Payload, Payloads, IovBytes;
    PayloadNil(segs);
    PayloadCons(segs, v, rest[0]);
    PayloadsCons(segs, rest[0], rest[1..]);
    PayloadsCons(segs, [v] + rest[0], rest[1..]);
    PayloadsCons(segs, [Header([]), v] + rest[0], rest[1..]);
    PayloadsCons(segs, [], [[Header([]), v] + rest[0]] + rest[1..]);
    assert rest == [rest[0]] + rest[1..];
    assert [[], [Header([]), v] + rest[0]] + rest[1..] == [[]] + ([[Header([]), v] + rest[0]] + rest[1..]);
  }

  lemma PayloadsCons(segs: seq<bytes>, f: Frame, fs: seq<Frame>)
    ensures Payloads(segs, [f] + fs) == [Payload(segs, f)] + Payloads(segs, fs)
  {
  }

  lemma PayloadNil(segs: seq<bytes>)
    ensures Payload(segs, []) == []
  {
  }

  /** Packing cuts the bytes where the reference does, and opens one more datagram for every
      empty segment that starts where a datagram has just been filled. */
  lemma {:induction false} PackCuts(segs: seq<bytes>, c: Cur, j: nat, F: nat)
    requires CurOk(segs, c, j, F)
    ensures var ps, es, extra := Payloads(segs, Pack(segs, c, j, F)), Expected(segs, c, j, F), EmptyAtCut(segs, c, j, F);
            |ps| == |es| + extra && (extra == 0 ==> ps == es)
    decreases j - c.k, Left(segs, c)
  {
    hide Expected, Pack, Payloads, Advance, IovBytes, Piece;
    if c.k == j {
      EndOfWalk(segs, c, j, F);
    } else {
      PackCuts(segs, Advance(segs, c, j, F), j, F);
      ExpectedAdvance(segs, c, j, F);
      PayloadsAdvance(segs, c, j, F);
    }
  }

  lemma EndOfWalk(segs: seq<bytes>, c: Cur, j: nat, F: nat)
    requires CurOk(segs, c, j, F) && c.k == j
    ensures Payloads(segs, Pack(segs, c, j, F)) == [[]] == Expected(segs, c, j, F)
  {
  }

  // ---------------------------------------------------------------- when the cuts are exact

  function Modulo(a: nat, w: nat): (r: nat)
    requires w > 0
    ensures r < w
  {
    if a < w then a else Modulo(a - w, w)
  }

  lemma {:induction false} ModuloAdd(a: nat, n: nat, w: nat)
    requires w > 0 && Modulo(a, w) + n <= w
    ensures Modulo(a + n, w) == if Modulo(a, w) + n == w then 0 else Modulo(a, w) + n
  {
    if a >= w { ModuloAdd(a - w, n, w); }
  }

  /** A datagram boundary falls after the first pos bytes of a longer reply. */
  predicate IsCut(pos: nat, F: nat)
    requires F > HDR
  {
    pos >= F && Modulo(pos - F, F - HDR) == 0
  }

  /** A segment without bytes starts at a datagram boundary. */
  predicate EmptyCutFrom(segs: seq<bytes>, k: nat, from: nat, j: nat, F: nat)
    requires k <= from && j <= |segs| && F > HDR
  {
    exists z :: from <= z < j && |segs[z]| == 0 && IsCut(|Flatten(segs[k..z])|, F)
  }

  predicate Tracks(c: Cur, pos: nat, F: nat)
    requires F > HDR
  {
    if c.next == F then pos == c.len < F else pos >= F && c.len == Modulo(pos - F, F - HDR)
  }

  lemma TracksAdvance(segs: seq<bytes>, c: Cur, j: nat, F: nat, pos: nat)
    requires CurOk(segs, c, j, F) && c.k < j && Tracks(c, pos, F)
    ensures Tracks(Advance(segs, c, j, F), pos + Piece(segs, c, j, F).len, F)
  {
    if c.next == F - HDR { ModuloAdd(pos - F, Piece(segs, c, j, F).len, F - HDR); }
  }

  lemma FlattenNext(segs: seq<bytes>, k: nat, z: nat)
    requires k <= z < |segs|
    ensures Flatten(segs[k..z + 1]) == Flatten(segs[k..z]) + segs[z]
  {
    assert segs[k..z + 1] == segs[k..z] + [segs[z]];
    FlattenAppend(segs[k..z], [segs[z]]);
    assert Flatten([segs[z]]) == segs[z];
  }

  lemma {:induction false} EmptyAtCutIff(segs: seq<bytes>, k: nat, c: Cur, j: nat, F: nat)
    requires CurOk(segs, c, j, F) && k <= c.k
    requires Tracks(c, |Flatten(segs[k..c.k])| + c.off, F)
    ensures EmptyAtCut(segs, c, j, F) > 0 <==> EmptyCutFrom(segs, k, c.k, j, F)
    decreases j - c.k, Left(segs, c)
  {
    if c.k < j {
      var c', pos := Advance(segs, c, j, F), |Flatten(segs[k..c.k])| + c.off;
      TracksAdvance(segs, c, j, F, pos);
      FlattenNext(segs, k, c.k);
      hide Flatten;
      EmptyAtCutIff(segs, k, c', j, F);
      EmptyCutSplit(segs, k, c.k, j, F);
      hide EmptyCutFrom, Modulo;
    }
  }

  lemma EmptyCutSplit(segs: seq<bytes>, k: nat, from: nat, j: nat, F: nat)
    requires k <= from < j <= |segs| && F > HDR
    ensures EmptyCutFrom(segs, k, from, j, F)
      <==> (|segs[from]| == 0 && IsCut(|Flatten(segs[k..from])|, F)) || EmptyCutFrom(segs, k, from + 1, j, F)
  {
  }

  /** Whatever the segments, no payload byte is lost, repeated or moved. */
  lemma {:induction false} PackKeepsBytes(segs: seq<bytes>, c: Cur, j: nat, F: nat)
    requires CurOk(segs, c, j, F)
    ensures Flatten(Payloads(segs, Pack(segs, c, j, F))) == Rest(segs, c, j)
    decreases j - c.k, Left(segs, c)
  {
    hide Pack, Payloads, Advance, IovBytes, Piece, Rest;
    if c.k == j {
      EndOfWalk(segs, c, j, F);
      RestAtEnd(segs, c, j);
    } else {
      var v := IovBytes(segs, Piece(segs, c, j, F));
      var ps := Payloads(segs, Pack(segs, Advance(segs, c, j, F), j, F));
      PackKeepsBytes(segs, Advance(segs, c, j, F), j, F);
      RestAdvance(segs, c, j, F);
      PayloadsAdvance(segs, c, j, F);
      assert ([v + ps[0]] + ps[1..])[1..] == ps[1..];
      assert ([[], v + ps[0]] + ps[1..])[1..] == [v + ps[0]] + ps[1..];
    }
  }

  lemma RestAtEnd(segs: seq<bytes>, c: Cur, j: nat)
    requires c.k == j <= |segs|
    ensures Rest(segs, c, j) == []
    ensures Flatten<byte>([[]]) == []
  {
  }

  /** Every datagram fits: the open one has `c.next - c.len` bytes left, later ones F - 8. */
  lemma {:induction false} PackFits(segs: seq<bytes>, c: Cur, j: nat, F: nat)
    requires CurOk(segs, c, j, F)
    ensures var ps := Payloads(segs, Pack(segs, c, j, F));
            && |ps[0]| <= (if Pending(c, F) then 0 else c.next - c.len)
            && forall x :: 1 <= x < |ps| ==> |ps[x]| <= F - HDR
    decreases j - c.k, Left(segs, c)
  {
    hide Pack, Payloads;
    if c.k == j {
      EndOfWalk(segs, c, j, F);
    } else {
      PackFits(segs, Advance(segs, c, j, F), j, F);
      PayloadsAdvance(segs, c, j, F);
    }
  }

  /** The reference chunks: all but the last are full, and no byte is lost. */
  lemma {:induction false} ChunksAreFull(p: bytes, cap: nat, F: nat)
    requires cap > 0 && F > HDR
    ensures var cs := Chunks(p, cap, F);
            && Flatten(cs) == p
            && (forall x :: 0 <= x < |cs| - 1 ==> |cs[x]| == if x == 0 then cap else F - HDR)
            && |cs[|cs| - 1]| <= (if |cs| == 1 then cap else F - HDR)
            && (p != [] ==> cs[|cs| - 1] != [])
    decreases |p|
  {
    hide Chunks, Flatten;
    ChunksUnfold(p, cap, F);
    if |p| > cap {
      var first, rest := p[..cap], Chunks(p[cap..], F - HDR, F);
      ChunksAreFull(p[cap..], F - HDR, F);
      FlattenCons(first, rest);
      assert p == first + p[cap..];
    } else {
      FlattenOne(p);
    }
  }

  lemma ChunksUnfold(p: bytes, cap: nat, F: nat)
    requires cap > 0 && F > HDR
    ensures Chunks(p, cap, F) == if |p| <= cap then [p] else [p[..cap]] + Chunks(p[cap..], F - HDR, F)
  {
  }

  // ---------------------------------------------------------------- headers in place

  predicate After(v: Iov, k: nat, off: nat) {
    v.Slice? ==> v.k > k || (v.k == k && v.off >= off)
  }

  /** All frames but the first begin with a header buffer; nothing else is one. */
  predicate Shaped(fs: seq<Frame>) {
    && (forall x :: 1 <= x < |fs| ==> |fs[x]| >= 1 && fs[x][0].Header?)
    && (forall x, y :: 0 <= x < |fs| && (if x == 0 then 0 else 1) <= y < |fs[x]| ==> fs[x][y].Slice?)
  }

  predicate Within(segs: seq<bytes>, fs: seq<Frame>, k: nat, off: nat, j: nat) {
    forall x, y :: 0 <= x < |fs| && 0 <= y < |fs[x]| ==>
      After(fs[x][y], k, off) && (fs[x][y].Slice? ==> fs[x][y].k < j)
  }

  lemma {:induction false} PackShape(segs: seq<bytes>, c: Cur, j: nat, F: nat)
    requires CurOk(segs, c, j, F)
    ensures Shaped(Pack(segs, c, j, F))
    ensures Within(segs, Pack(segs, c, j, F), c.k, c.off, j)
    decreases j - c.k, Left(segs, c)
  {
    if c.k < j {
      var c' := Advance(segs, c, j, F);
      PackShape(segs, c', j, F);
      var v, rest, fs := Piece(segs, c, j, F), Pack(segs, c', j, F), Pack(segs, c, j, F);
      hide Pack, Advance, Piece;
      ShapeStep(segs, v, rest, fs, c, c', j, F);
    }
  }

  lemma ShapeStep(segs: seq<bytes>, v: Iov, rest: seq<Frame>, fs: seq<Frame>, c: Cur, c': Cur, j: nat, F: nat)
    requires |rest| >= 1 && Shaped(rest) && Within(segs, rest, c'.k, c'.off, j)
    requires v.Slice? && v.k == c.k < j && v.off == c.off
    requires c'.k > c.k || (c'.k == c.k && c'.off > c.off)
    requires fs == if Pending(c, F) then [[], [Header([]), v] + rest[0]] + rest[1..] else [[v] + rest[0]] + rest[1..]
    ensures Shaped(fs) && Within(segs, fs, c.k, c.off, j)
  {
    hide Shaped, Within, After, FrameOk;
    FramesOk(segs, rest, c'.k, c'.off, j);
    FramesOk(segs, fs, c.k, c.off, j);
    FrameGrows(rest[0], v, c, c', j);
    forall x | 1 <= x < |rest| ensures FrameOk(rest[x], false, c.k, c.off, j) { FrameEarlier(rest[x], c, c', j); }
  }

  /** The same for one frame. */
  predicate FrameOk(f: Frame, first: bool, k: nat, off: nat, j: nat) {
    && (!first ==> |f| >= 1 && f[0].Header?)
    && (forall y :: (if first then 0 else 1) <= y < |f| ==> f[y].Slice?)
    && (forall y :: 0 <= y < |f| ==> After(f[y], k, off) && (f[y].Slice? ==> f[y].k < j))
  }

  lemma FramesOk(segs: seq<bytes>, fs: seq<Frame>, k: nat, off: nat, j: nat)
    ensures Shaped(fs) && Within(segs, fs, k, off, j) <==> forall x :: 0 <= x < |fs| ==> FrameOk(fs[x], x == 0, k, off, j)
  {
    hide After;
  }

  lemma FrameEarlier(f: Frame, c: Cur, c': Cur, j: nat)
    requires FrameOk(f, false, c'.k, c'.off, j) && (c'.k > c.k || (c'.k == c.k && c'.off > c.off))
    ensures FrameOk(f, false, c.k, c.off, j)
  {
  }

  lemma FrameGrows(f: Frame, v: Iov, c: Cur, c': Cur, j: nat)
    requires FrameOk(f, true, c'.k, c'.off, j) && (c'.k > c.k || (c'.k == c.k && c'.off > c.off))
    requires v.Slice? && v.k == c.k < j && v.off == c.off
    ensures FrameOk([v] + f, true, c.k, c.off, j) && FrameOk([Header([]), v] + f, false, c.k, c.off, j)
    ensures FrameOk([], true, c.k, c.off, j)
  {
  }

  /** The frames once the headers of datagrams 1 up to n have been filled in. */
  function WithHeaders(fs: seq<Frame>, p: bytes, n: nat): (hs: seq<Frame>)
    requires |p| >= HDR
    ensures |hs| == |fs|
  {
    seq(|fs|, x requires 0 <= x < |fs| => if 1 <= x < n && fs[x] != [] then fs[x][0 := Header(Head(p, x, |fs|))] else fs[x])
  }

  /** The memory once the total has been written into the reply's own header. */
  function Stamped(segs: seq<bytes>, k: nat, p: bytes, t: nat): seq<bytes>
    requires k < |segs| && |segs[k]| >= HDR && |p| >= HDR
  {
    segs[k := Head(p, 0, t) + segs[k][HDR..]]
  }

  lemma IovUntouched(segs: seq<bytes>, k: nat, p: bytes, t: nat, v: Iov)
    requires k < |segs| && |segs[k]| >= HDR && |p| >= HDR
    requires v.Slice? && (v.k < k || After(v, k, HDR))
    ensures IovBytes(Stamped(segs, k, p, t), v) == IovBytes(segs, v)
  {
  }

  lemma {:induction false} GatherUntouched(segs: seq<bytes>, k: nat, p: bytes, t: nat, f: Frame)
    requires k < |segs| && |segs[k]| >= HDR && |p| >= HDR
    requires forall y :: 0 <= y < |f| ==> f[y].Slice? && After(f[y], k, HDR)
    ensures Gather(Stamped(segs, k, p, t), f) == Payload(segs, f)
  {
    hide Stamped, IovBytes;
    if f != [] {
      IovUntouched(segs, k, p, t, f[0]);
      GatherUntouched(segs, k, p, t, f[1..]);
    }
  }

  lemma GatherStep(segs: seq<bytes>, f: Frame)
    requires f != []
    ensures Gather(segs, f) == IovBytes(segs, f[0]) + Gather(segs, f[1..])
    ensures Payload(segs, f) == (if f[0].Header? then [] else IovBytes(segs, f[0])) + Payload(segs, f[1..])
  {
  }

  lemma LaterFrame(segs: seq<bytes>, k: nat, p: bytes, t: nat, f: Frame, h: bytes)
    requires k < |segs| && |segs[k]| >= HDR && |p| >= HDR
    requires |f| >= 1 && f[0].Header?
    requires forall y :: 1 <= y < |f| ==> f[y].Slice? && After(f[y], k, HDR)
    ensures Gather(Stamped(segs, k, p, t), f[0 := Header(h)]) == h + Payload(segs, f)
  {
    hide Stamped, Gather, Payload, After;
    var g := f[0 := Header(h)];
    assert g[1..] == f[1..];
    GatherUntouched(segs, k, p, t, f[1..]);
    GatherStep(Stamped(segs, k, p, t), g);
    GatherStep(segs, f);
    assert [] + Payload(segs, f[1..]) == Payload(segs, f[1..]);
  }

  lemma FirstFrame(segs: seq<bytes>, k: nat, p: bytes, f: Frame, t: nat)
    requires k < |segs| && |segs[k]| >= HDR && |p| >= HDR
    requires |f| >= 1 && f[0].Slice? && f[0].k == k && f[0].off == 0 && HDR <= f[0].len <= |segs[k]|
    requires forall y :: 1 <= y < |f| ==> f[y].Slice? && After(f[y], k, HDR)
    ensures |Payload(segs, f)| >= HDR
    ensures Gather(Stamped(segs, k, p, t), f) == Head(p, 0, t) + Payload(segs, f)[HDR..]
  {
    hide Gather, Payload, After;
    FirstSlice(segs, k, p, f[0], t);
    GatherUntouched(segs, k, p, t, f[1..]);
    GatherStep(Stamped(segs, k, p, t), f);
    GatherStep(segs, f);
    hide Stamped, Head, IovBytes;
    var a, b := IovBytes(segs, f[0]), Payload(segs, f[1..]);
    assert (a + b)[HDR..] == a[HDR..] + b;
  }

  lemma FirstSlice(segs: seq<bytes>, k: nat, p: bytes, v: Iov, t: nat)
    requires k < |segs| && |segs[k]| >= HDR && |p| >= HDR
    requires v.Slice? && v.k == k && v.off == 0 && HDR <= v.len <= |segs[k]|
    ensures |IovBytes(segs, v)| >= HDR
    ensures IovBytes(Stamped(segs, k, p, t), v) == Head(p, 0, t) + IovBytes(segs, v)[HDR..]
  {
  }

  /** The frames of one reply, gathered from memory after the headers were written. */
  ghost function Gathered(segs: seq<bytes>, fs: seq<Frame>): (ds: seq<bytes>)
    ensures |ds| == |fs|
  {
    seq(|fs|, x requires 0 <= x < |fs| => Gather(segs, fs[x]))
  }

  /** A reply's slices, with the headers filled in, gather to its framed payloads. */
  lemma FramesCarry(segs: seq<bytes>, k: nat, j: nat, F: nat, p: bytes)
    requires k < j <= |segs| && F > HDR && |segs[k]| >= HDR && |p| >= HDR
    ensures var fs := Pack(segs, StartOf(k, F), j, F);
            Gathered(Stamped(segs, k, p, |fs|), WithHeaders(fs, p, |fs|)) == Framed(p, Payloads(segs, fs))
  {
    var c := StartOf(k, F);
    var c' := Advance(segs, c, j, F);
    var v, rest, fs := Piece(segs, c, j, F), Pack(segs, c', j, F), Pack(segs, c, j, F);
    PackShape(segs, c, j, F);
    PackShape(segs, c', j, F);
    assert fs == [[v] + rest[0]] + rest[1..];
    assert v.k == k && v.off == 0 && HDR <= v.len <= |segs[k]|;
    assert c'.k > k || c'.off >= HDR;
    FramesCarry2(segs, k, p, fs, v, rest, c', j);
  }

  lemma FramesCarry2(segs: seq<bytes>, k: nat, p: bytes, fs: seq<Frame>, v: Iov, rest: seq<Frame>, c': Cur, j: nat)
    requires k < |segs| && |segs[k]| >= HDR && |p| >= HDR
    requires |rest| >= 1 && fs == [[v] + rest[0]] + rest[1..]
    requires Shaped(fs) && Within(segs, rest, c'.k, c'.off, j)
    requires c'.k > k || (c'.k == k && c'.off >= HDR)
    requires v.Slice? && v.k == k && v.off == 0 && HDR <= v.len <= |segs[k]|
    ensures Gathered(Stamped(segs, k, p, |fs|), WithHeaders(fs, p, |fs|)) == Framed(p, Payloads(segs, fs))
  {
    hide Stamped, Head, Gather, Payload;
    FirstFrame(segs, k, p, fs[0], |fs|);
    forall x | 1 <= x < |fs|
      ensures Gather(Stamped(segs, k, p, |fs|), WithHeaders(fs, p, |fs|)[x]) == Head(p, x, |fs|) + Payload(segs, fs[x])
    {
      assert fs[x] == rest[x];
      LaterFrame(segs, k, p, |fs|, fs[x], Head(p, x, |fs|));
    }
  }

  // ---------------------------------------------------------------- main results

  /** A reply is framed as the reference demands if and only if no segment without bytes
      starts at a datagram boundary. */
  lemma ReplyIsExactIff(segs: seq<bytes>, k: nat, j: nat, F: nat, p: bytes)
    requires k < j <= |segs| && F > HDR && p == Flatten(segs[k..j]) && |p| >= HDR
    ensures Framed(p, Payloads(segs, Pack(segs, StartOf(k, F), j, F))) == Datagrams(p, F)
      <==> !EmptyCutFrom(segs, k, k, j, F)
  {
    var c := StartOf(k, F);
    assert segs[k..k] == [];
    PackCuts(segs, c, j, F);
    RestAtStart(segs, c, j);
    EmptyAtCutIff(segs, k, c, j, F);
  }

  /** At the frame size of 1400 bytes that both callers use: a header, 1392 bytes, an empty segment
      and one more byte go out in three datagrams, one of them without payload, where two do. */
  lemma EmptyCutExample(h: bytes, d: bytes, b: byte)
    requires |h| == HDR && |d| == 1392
    ensures var segs := [h, d, [], [b]];
            && Flatten(segs) == h + d + [b]
            && |Datagrams(h + d + [b], 1400)| == 2
            && EmptyCutFrom(segs, 0, 0, 4, 1400)
            && |Pack(segs, StartOf(0, 1400), 4, 1400)| == 3
  {
    var segs, p := [h, d, [], [b]], h + d + [b];
    FourParts(h, d, [], [b]);
    assert segs[0..4] == segs && segs[0..0] == [];
    assert p == h + d + [] + [b];
    TwoChunks(h + d, b);
    var c := StartOf(0, 1400);
    OneEmptyCut(segs);
    hide EmptyAtCut, Pack, Chunks, Flatten;
    PackCuts(segs, c, 4, 1400);
    RestAtStart(segs, c, 4);
    EmptyAtCutIff(segs, 0, c, 4, 1400);
  }

  /** The walk over these segments opens one datagram for the empty one. */
  lemma OneEmptyCut(segs: seq<bytes>)
    requires |segs| == 4 && |segs[0]| == HDR && |segs[1]| == 1392 && |segs[2]| == 0 && |segs[3]| == 1
    ensures EmptyAtCut(segs, StartOf(0, 1400), 4, 1400) == 1
  {
    var F := 1400;
    var c1, c2, c3 := Cur(1, 0, 8, F), Cur(2, 0, 0, F - HDR), Cur(3, 0, 0, F - HDR);
    assert Advance(segs, StartOf(0, F), 4, F) == c1;
    assert Advance(segs, c1, 4, F) == c2;
    assert Advance(segs, c2, 4, F) == c3;
    assert Advance(segs, c3, 4, F) == Cur(4, 0, 1, F - HDR);
    assert EmptyAtCut(segs, c3, 4, F) == 0;
    assert EmptyAtCut(segs, c2, 4, F) == 1;
    assert EmptyAtCut(segs, c1, 4, F) == 1;
  }

  lemma TwoChunks(a: bytes, b: byte)
    requires |a| == 1400
    ensures Chunks(a + [b], 1400, 1400) == [a, [b]]
  {
    assert (a + [b])[..1400] == a && (a + [b])[1400..] == [b];
    assert Chunks([b], 1392, 1400) == [[b]];
  }

  lemma FourParts(a: bytes, b: bytes, c: bytes, d: bytes)
    ensures Flatten([a, b, c, d]) == a + b + c + d
  {
    assert [a, b, c, d] == [a] + ([b] + ([c] + ([d] + [])));
    FlattenCons(d, []);
    FlattenCons(c, [d] + []);
    FlattenCons(b, [c] + ([d] + []));
    FlattenCons(a, [b] + ([c] + ([d] + [])));
  }

  /** Whatever the segments, no datagram of a reply is longer than the frame size. */
  lemma ReplyFits(segs: seq<bytes>, k: nat, j: nat, F: nat, p: bytes, x: nat)
    requires k < j <= |segs| && F > HDR && |segs[k]| >= HDR && |p| >= HDR
    requires x < |Pack(segs, StartOf(k, F), j, F)|
    ensures |Framed(p, Payloads(segs, Pack(segs, StartOf(k, F), j, F)))[x]| <= F
  {
    PackFits(segs, StartOf(k, F), j, F);
  }

  /** What the datagrams carry besides their headers. */
  function Bodies(ds: seq<bytes>): (bs: seq<bytes>)
    requires forall x :: 0 <= x < |ds| ==> |ds[x]| >= HDR
  {
    seq(|ds|, x requires 0 <= x < |ds| => ds[x][HDR..])
  }

  /** The reference datagrams: all but the last are exactly F bytes long, the last is not
      empty, and the payloads in sequence are the reply's, none lost or repeated. */
  lemma DatagramsAreFull(p: bytes, F: nat)
    requires |p| >= HDR && F > HDR
    ensures var ds := Datagrams(p, F);
            && (forall x :: 0 <= x < |ds| - 1 ==> |ds[x]| == F)
            && HDR <= |ds[|ds| - 1]| <= F && (|ds| > 1 ==> |ds[|ds| - 1]| > HDR)
            && (forall x :: 0 <= x < |ds| ==> |ds[x]| >= HDR)
            && Flatten(Bodies(ds)) == p[HDR..]
  {
    hide Chunks, Flatten, Framed, Bodies;
    var cs := Chunks(p, F, F);
    ChunksAreFull(p, F, F);
    FirstChunk(p, F, F);
    FramedSizes(p, cs);
    FlattenBehind(cs);
  }

  lemma FlattenBehind(cs: seq<bytes>)
    requires cs != [] && |cs[0]| >= HDR
    ensures Flatten([cs[0][HDR..]] + cs[1..]) == Flatten(cs)[HDR..]
  {
  }

  lemma FramedSizes(p: bytes, cs: seq<bytes>)
    requires |p| >= HDR && cs != [] && |cs[0]| >= HDR
    ensures var ds := Framed(p, cs);
            && |ds[0]| == |cs[0]| && ds[0][HDR..] == cs[0][HDR..]
            && (forall x :: 1 <= x < |ds| ==> |ds[x]| == HDR + |cs[x]|)
            && Bodies(ds) == [cs[0][HDR..]] + cs[1..]
  {
  }

  lemma FirstChunk(p: bytes, cap: nat, F: nat)
    requires cap > 0 && F > HDR
    ensures Chunks(p, cap, F)[0] == if |p| <= cap then p else p[..cap]
  {
  }
}
