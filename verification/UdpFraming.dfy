/** The two passes of construct_frames (src/ev_memcached.cpp:416-586) as the source runs
    them: the first only counts, the second fills the message headers and the slice array
    that were allocated from those counts. */
module UdpFraming {

  import opened Bytes
  import opened UdpCuts

  /** A message header: the request it answers and its slices, either a range of the stream's
      own segments or a range of the new slice array. */
  datatype Msg = Msg(src: nat, inStream: bool, first: nat, count: nat)

  // ---------------------------------------------------------------- frames laid out in an array

  function MsgsOf(fs: seq<Frame>, base: nat, src: nat): (ms: seq<Msg>)
    ensures |ms| == |fs|
  {
    seq(|fs|, x requires 0 <= x < |fs| => Msg(src, false, base + |Flatten(fs[..x])|, |fs[x]|))
  }

  /** The frames built so far, followed by what the walk still yields. */
  function Join(done: seq<Frame>, rest: seq<Frame>): seq<Frame>
    requires |done| >= 1 && |rest| >= 1
  {
    done[..|done| - 1] + [done[|done| - 1] + rest[0]] + rest[1..]
  }

  function Grown(done: seq<Frame>, v: Iov): seq<Frame>
    requires |done| >= 1
  {
    done[|done| - 1 := done[|done| - 1] + [v]]
  }

  lemma JoinGrow(done: seq<Frame>, v: Iov, rest: seq<Frame>)
    requires |done| >= 1 && |rest| >= 1
    ensures Join(done, [[v] + rest[0]] + rest[1..]) == Join(Grown(done, v), rest)
  {
    var n := |done| - 1;
    assert done[n] + ([v] + rest[0]) == done[n] + [v] + rest[0];
  }

  lemma JoinOpen(done: seq<Frame>, h: Iov, v: Iov, rest: seq<Frame>)
    requires |done| >= 1 && |rest| >= 1
    ensures Join(done, [[], [h, v] + rest[0]] + rest[1..]) == Join(Grown(done + [[h]], v), rest)
  {
    var n := |done| - 1;
    assert done[n] + [] == done[n];
    assert [h] + [v] == [h, v];
  }

  lemma JoinEnd(done: seq<Frame>)
    requires |done| >= 1
    ensures Join(done, [[]]) == done
  {
    assert done[|done| - 1] + [] == done[|done| - 1];
  }

  lemma {:induction false} FlattenGrown(done: seq<Frame>, v: Iov)
    requires |done| >= 1
    ensures Flatten(Grown(done, v)) == Flatten(done) + [v]
  {
    var n := |done| - 1;
    assert done == done[..n] + [done[n]];
    assert Grown(done, v) == done[..n] + [done[n] + [v]];
    FlattenAppend(done[..n], [done[n]]);
    FlattenAppend(done[..n], [done[n] + [v]]);
    FlattenOne(done[n]);
    FlattenOne(done[n] + [v]);
  }

  lemma FlattenJoin(done: seq<Frame>, rest: seq<Frame>)
    requires |done| >= 1 && |rest| >= 1
    ensures |Flatten(Join(done, rest))| == |Flatten(done)| + |Flatten(rest)|
  {
    var n := |done| - 1;
    assert done == done[..n] + [done[n]] && rest == [rest[0]] + rest[1..];
    FlattenAppend(done[..n], [done[n]]);
    FlattenAppend([rest[0]], rest[1..]);
    FlattenAppend(done[..n] + [done[n] + rest[0]], rest[1..]);
    FlattenAppend(done[..n], [done[n] + rest[0]]);
    FlattenOne(done[n]);
    FlattenOne(rest[0]);
    FlattenOne(done[n] + rest[0]);
  }

  lemma JoinStart(fs: seq<Frame>, base: nat, src: nat)
    requires |fs| >= 1
    ensures Join([[]], fs) == fs
    ensures MsgsOf([[]], base, src) == [Msg(src, false, base, 0)]
    ensures Flatten<Iov>([[]]) == []
  {
    var e: Frame := [];
    assert e + fs[0] == fs[0];
  }

  lemma MsgsGrown(done: seq<Frame>, v: Iov, base: nat, src: nat)
    requires |done| >= 1
    ensures var n, ms := |done| - 1, MsgsOf(done, base, src);
            MsgsOf(Grown(done, v), base, src) == ms[n := ms[n].(count := ms[n].count + 1)]
  {
  }

  lemma MsgsOpened(done: seq<Frame>, f: Frame, base: nat, src: nat)
    ensures MsgsOf(done + [f], base, src)
         == MsgsOf(done, base, src) + [Msg(src, false, base + |Flatten(done)|, |f|)]
    ensures Flatten(done + [f]) == Flatten(done) + f
  {
    hide Flatten;
    FlattenAppend(done, [f]);
    FlattenOne(f);
    forall x | 0 <= x < |done| + 1
      ensures MsgsOf(done + [f], base, src)[x]
           == (MsgsOf(done, base, src) + [Msg(src, false, base + |Flatten(done)|, |f|)])[x]
    {
      assert (done + [f])[..x] == done[..x];
      assert done[..|done|] == done;
    }
    hide MsgsOf;
  }

  /** How much one step of the walk adds to both counters. */
  lemma PackCounts(segs: seq<bytes>, c: Cur, j: nat, F: nat)
    requires CurOk(segs, c, j, F) && c.k < j
    ensures var fs, fs' := Pack(segs, c, j, F), Pack(segs, Advance(segs, c, j, F), j, F);
            var more := if Pending(c, F) then 1 else 0;
            && |fs| == |fs'| + more
            && |Flatten(fs)| == |Flatten(fs')| + more + 1
  {
  }

  // ---------------------------------------------------------------- all requests of a batch

  /** The requests of a batch: request i owns the segments idx[i] up to idx[i + 1], and what it
      sends, if anything, starts with a fresh header in its first segment. */
  predicate Layout(segs: seq<bytes>, idx: seq<nat>, n: nat, F: nat) {
    && F > HDR && |idx| == n + 1
    && (forall a, b :: 0 <= a <= b <= n ==> idx[a] <= idx[b])
    && idx[n] <= |segs|
    && (forall i :: 0 <= i < n && idx[i] < idx[i + 1] ==> FreshHeader(segs[idx[i]]))
  }

  function Frames(segs: seq<bytes>, idx: seq<nat>, n: nat, F: nat, i: nat): seq<Frame>
    requires Layout(segs, idx, n, F) && i < n
  {
    if idx[i] == idx[i + 1] then [] else Pack(segs, StartOf(idx[i], F), idx[i + 1], F)
  }

  function CountMsgs(segs: seq<bytes>, idx: seq<nat>, n: nat, F: nat, m: nat): nat
    requires Layout(segs, idx, n, F) && m <= n
  {
    if m == 0 then 0 else CountMsgs(segs, idx, n, F, m - 1) + |Frames(segs, idx, n, F, m - 1)|
  }

  function CountIovs(segs: seq<bytes>, idx: seq<nat>, n: nat, F: nat, m: nat): nat
    requires Layout(segs, idx, n, F) && m <= n
  {
    if m == 0 then 0 else CountIovs(segs, idx, n, F, m - 1) + |Flatten(Frames(segs, idx, n, F, m - 1))|
  }

  /** Some request among the first m needs more than one datagram. */
  predicate NeedsSplit(segs: seq<bytes>, idx: seq<nat>, n: nat, F: nat, m: nat)
    requires Layout(segs, idx, n, F) && m <= n
  {
    exists i :: 0 <= i < m && |Frames(segs, idx, n, F, i)| > 1
  }

  /** The datagrams that answer request i. */
  function Answer(segs: seq<bytes>, idx: seq<nat>, n: nat, F: nat, i: nat): (ds: seq<bytes>)
    requires Layout(segs, idx, n, F) && i < n
  {
    if idx[i] == idx[i + 1] then []
    else
      FreshFlatten(segs, idx[i], idx[i + 1]);
      Framed(Flatten(segs[idx[i]..idx[i + 1]]), Payloads(segs, Frames(segs, idx, n, F, i)))
  }

  /** The same, as pairs of the request they answer and their bytes. */
  function Reply(segs: seq<bytes>, idx: seq<nat>, n: nat, F: nat, i: nat): (ds: seq<(nat, bytes)>)
    requires Layout(segs, idx, n, F) && i < n
  {
    Tagged(i, Answer(segs, idx, n, F, i))
  }

  function Tagged(i: nat, ds: seq<bytes>): (ts: seq<(nat, bytes)>)
    ensures |ts| == |ds|
  {
    seq(|ds|, x requires 0 <= x < |ds| => (i, ds[x]))
  }

  /** Everything sent for the first m requests. */
  function Replies(segs: seq<bytes>, idx: seq<nat>, n: nat, F: nat, m: nat): seq<(nat, bytes)>
    requires Layout(segs, idx, n, F) && m <= n
  {
    if m == 0 then [] else Replies(segs, idx, n, F, m - 1) + Reply(segs, idx, n, F, m - 1)
  }

  lemma FreshFlatten(segs: seq<bytes>, k: nat, j: nat)
    requires k < j <= |segs| && FreshHeader(segs[k])
    ensures FreshHeader(Flatten(segs[k..j]))
  {
  }

  /** The bytes the kernel sends for a message header. */
  function Datagram(segs: seq<bytes>, iov: seq<Iov>, m: Msg): bytes {
    if m.inStream then (if m.first + m.count <= |segs| then Flatten(segs[m.first..m.first + m.count]) else [])
    else if m.first + m.count <= |iov| then Gather(segs, iov[m.first..m.first + m.count]) else []
  }

  function Sent(segs: seq<bytes>, iov: seq<Iov>, ms: seq<Msg>): (ds: seq<(nat, bytes)>)
    ensures |ds| == |ms|
  {
    seq(|ms|, o requires 0 <= o < |ms| => (ms[o].src, Datagram(segs, iov, ms[o])))
  }

  class MemcachedUdpFraming {
    const outIdx: seq<nat>
    const nmsgs: nat
    const frameSize: nat

    /** The stream's segments, that is strm.iov and the memory it points to. */
    var segs: seq<bytes>
    /** The new slice array and message headers, filled from the front. */
    var iov: seq<Iov>
    var outMhdr: seq<Msg>
    var iovCnt: nat
    var outNmsgs: nat

    constructor (outIdx: seq<nat>, segs: seq<bytes>, nmsgs: nat, frameSize: nat)
      ensures this.outIdx == outIdx && this.segs == segs && this.nmsgs == nmsgs && this.frameSize == frameSize
      ensures iov == [] && outMhdr == [] && iovCnt == 0 && outNmsgs == 0
    {
      this.outIdx, this.segs, this.nmsgs, this.frameSize := outIdx, segs, nmsgs, frameSize;
      iov, outMhdr, iovCnt, outNmsgs := [], [], 0, 0;
    }

    /** Frames the replies of a batch. */
    method ConstructFrames()
      requires Layout(segs, outIdx, nmsgs, frameSize)
      requires iov == [] && outMhdr == [] && iovCnt == 0 && outNmsgs == 0
      modifies this
      ensures Sent(segs, iov, outMhdr) == Replies(old(segs), outIdx, nmsgs, frameSize, nmsgs)
      ensures |outMhdr| == outNmsgs
      ensures NeedsSplit(old(segs), outIdx, nmsgs, frameSize, nmsgs) ==> |iov| == iovCnt
      ensures !NeedsSplit(old(segs), outIdx, nmsgs, frameSize, nmsgs) ==> iov == [] && segs == old(segs)
    {
      var needSplit := Count();
      if !needSplit {
        SendWhole();
      } else {
        SendSplit();
      }
    }

    /** Without a split, every reply is sent straight from the stream. */
    method SendWhole()
      requires Layout(segs, outIdx, nmsgs, frameSize)
      requires !NeedsSplit(segs, outIdx, nmsgs, frameSize, nmsgs)
      requires outMhdr == [] && outNmsgs == CountMsgs(segs, outIdx, nmsgs, frameSize, nmsgs)
      modifies this`outMhdr
      ensures Sent(segs, iov, outMhdr) == Replies(segs, outIdx, nmsgs, frameSize, nmsgs)
      ensures |outMhdr| == outNmsgs
    {
      hide Layout, NeedsSplit, Sent, Reply, Frames;
      var i := 0;
      while i < nmsgs
        invariant i <= nmsgs && |outMhdr| == CountMsgs(segs, outIdx, nmsgs, frameSize, i)
        invariant Sent(segs, iov, outMhdr) == Replies(segs, outIdx, nmsgs, frameSize, i)
      {
        LayoutAt(segs, outIdx, nmsgs, frameSize, i);
        CountGrows(segs, outIdx, nmsgs, frameSize, i + 1);
        var k, j := outIdx[i], outIdx[i + 1];
        WholeReply(segs, outIdx, nmsgs, frameSize, i, iov);
        if k != j {
          assert |outMhdr| < outNmsgs;
          SentAppend(segs, iov, outMhdr, [Msg(i, true, k, j - k)]);
          outMhdr := outMhdr + [Msg(i, true, k, j - k)];
        }
        i := i + 1;
      }
    }

    /** The second pass. */
    method SendSplit()
      requires Layout(segs, outIdx, nmsgs, frameSize)
      requires outMhdr == [] && outNmsgs == CountMsgs(segs, outIdx, nmsgs, frameSize, nmsgs)
      requires iov == [] && iovCnt == CountIovs(segs, outIdx, nmsgs, frameSize, nmsgs)
      modifies this`segs, this`outMhdr, this`iov
      ensures Sent(segs, iov, outMhdr) == Replies(old(segs), outIdx, nmsgs, frameSize, nmsgs)
      ensures |outMhdr| == outNmsgs && |iov| == iovCnt
    {
      hide Layout, Sent, Reply, Frames, Pack, Flatten, MsgsOf, WithHeaders, Stamped, FreshHeader;
      ghost var s0 := segs;
      LayoutEnds(segs, outIdx, nmsgs, frameSize);
      var i := 0;
      while i < nmsgs
        invariant i <= nmsgs && |outIdx| == nmsgs + 1 && outIdx[i] <= |segs| == |s0|
        invariant forall z :: outIdx[i] <= z < |segs| ==> segs[z] == s0[z]
        invariant |outMhdr| == CountMsgs(s0, outIdx, nmsgs, frameSize, i)
        invariant |iov| == CountIovs(s0, outIdx, nmsgs, frameSize, i)
        invariant Confined(iov, outMhdr, outIdx[i])
        invariant Sent(segs, iov, outMhdr) == Replies(s0, outIdx, nmsgs, frameSize, i)
      {
        LayoutAt(s0, outIdx, nmsgs, frameSize, i);
        CountGrows(s0, outIdx, nmsgs, frameSize, i + 1);
        NothingToSend(s0, outIdx, nmsgs, frameSize, i);
        var k, j := outIdx[i], outIdx[i + 1];
        if k != j {
          ghost var s1, iov1, ms1 := segs, iov, outMhdr;
          RequestAgrees(s1, s0, outIdx, nmsgs, frameSize, i);
          BuildRequest(i, k, j);
          SentGrows(s1, iov1, ms1, frameSize, i, k, j);
        }
        i := i + 1;
      }
    }

    /** The first pass. */
    method Count() returns (needSplit: bool)
      requires Layout(segs, outIdx, nmsgs, frameSize) && iovCnt == 0 && outNmsgs == 0
      modifies this`iovCnt, this`outNmsgs
      ensures outNmsgs == CountMsgs(segs, outIdx, nmsgs, frameSize, nmsgs)
      ensures iovCnt == CountIovs(segs, outIdx, nmsgs, frameSize, nmsgs)
      ensures needSplit == NeedsSplit(segs, outIdx, nmsgs, frameSize, nmsgs)
    {
      hide Pack, Layout;
      needSplit := false;
      var i := 0;
      while i < nmsgs
        invariant i <= nmsgs
        invariant outNmsgs == CountMsgs(segs, outIdx, nmsgs, frameSize, i)
        invariant iovCnt == CountIovs(segs, outIdx, nmsgs, frameSize, i)
        invariant needSplit == NeedsSplit(segs, outIdx, nmsgs, frameSize, i)
      {
        LayoutAt(segs, outIdx, nmsgs, frameSize, i);
        var k, j := outIdx[i], outIdx[i + 1];
        if k != j {
          var split := CountRequest(k, j);
          needSplit := needSplit || split;
        }
        i := i + 1;
      }
    }

    /** The body of the first pass for one request. */
    method CountRequest(k0: nat, j: nat) returns (split: bool)
      requires k0 < j <= |segs| && frameSize > HDR
      modifies this`iovCnt, this`outNmsgs
      ensures var fs := Pack(segs, StartOf(k0, frameSize), j, frameSize);
              && outNmsgs == old(outNmsgs) + |fs|
              && iovCnt == old(iovCnt) + |Flatten(fs)|
              && split == (|fs| > 1)
    {
      hide Pack, Flatten;
      ghost var fs := Pack(segs, StartOf(k0, frameSize), j, frameSize);
      var k: nat, next: nat, len: nat, off: nat := k0, frameSize, 0, 0;
      outNmsgs := outNmsgs + 1;
      split := false;
      while k < j
        invariant CurOk(segs, Cur(k, off, len, next), j, frameSize)
        invariant outNmsgs + |Pack(segs, Cur(k, off, len, next), j, frameSize)| - 1 == old(outNmsgs) + |fs|
        invariant iovCnt + |Flatten(Pack(segs, Cur(k, off, len, next), j, frameSize))| == old(iovCnt) + |Flatten(fs)|
        invariant outNmsgs > old(outNmsgs) && split == (outNmsgs > old(outNmsgs) + 1)
        decreases j - k, Left(segs, Cur(k, off, len, next))
      {
        PackCounts(segs, Cur(k, off, len, next), j, frameSize);
        if len == 0 && next == frameSize - HDR {
          outNmsgs := outNmsgs + 1;
          iovCnt := iovCnt + 1;
          split := true;
        }
        if |segs[k]| - off + len < next {
          iovCnt := iovCnt + 1;
          len := len + |segs[k]| - off;
          off := 0;
          k := k + 1;
        } else {
          off := off + next - len;
          iovCnt := iovCnt + 1;
          if |segs[k]| == off {
            k := k + 1;
            off := 0;
          }
          len := 0;
          next := frameSize - HDR;
        }
      }
      PackEnd(segs, Cur(k, off, len, next), j, frameSize);
    }

    /** The body of the second pass for one request: its frames, then their headers. */
    method BuildRequest(i: nat, k0: nat, j: nat)
      requires k0 < j <= |segs| && frameSize > HDR && FreshHeader(segs[k0])
      requires var fs := Pack(segs, StartOf(k0, frameSize), j, frameSize);
               |outMhdr| + |fs| <= outNmsgs && |iov| + |Flatten(fs)| <= iovCnt
      modifies this`segs, this`iov, this`outMhdr
      ensures var fs, p := Pack(old(segs), StartOf(k0, frameSize), j, frameSize), Flatten(old(segs)[k0..j]);
              && |p| >= HDR
              && outMhdr == old(outMhdr) + MsgsOf(fs, |old(iov)|, i)
              && iov == old(iov) + Flatten(WithHeaders(fs, p, |fs|))
              && segs == Stamped(old(segs), k0, p, |fs|)
    {
      hide Pack, Flatten, Stamped, WithHeaders, MsgsOf;
      ghost var fs := Pack(segs, StartOf(k0, frameSize), j, frameSize);
      PackShape(segs, StartOf(k0, frameSize), j, frameSize);
      PackUnfold(segs, StartOf(k0, frameSize), j, frameSize);
      var n, base := |outMhdr|, |iov|;
      BuildFrames(i, k0, j);
      StampHeaders(i, k0, j, n, base, fs);
    }

    /** The do-while loop: slices the request's segments into frames. */
    method BuildFrames(i: nat, k0: nat, j: nat)
      requires k0 < j <= |segs| && frameSize > HDR
      requires var fs := Pack(segs, StartOf(k0, frameSize), j, frameSize);
               |outMhdr| + |fs| <= outNmsgs && |iov| + |Flatten(fs)| <= iovCnt
      modifies this`iov, this`outMhdr
      ensures var fs := Pack(segs, StartOf(k0, frameSize), j, frameSize);
              && outMhdr == old(outMhdr) + MsgsOf(fs, |old(iov)|, i)
              && iov == old(iov) + Flatten(fs)
    {
      hide Pack, Flatten, MsgsOf, Join, Grown;
      ghost var fs := Pack(segs, StartOf(k0, frameSize), j, frameSize);
      ghost var base := |iov|;
      assert |outMhdr| < outNmsgs;
      outMhdr := outMhdr + [Msg(i, false, |iov|, 0)];
      var k: nat, next: nat, len: nat, off: nat := k0, frameSize, 0, 0;
      ghost var done: seq<Frame> := [[]];
      JoinStart(fs, base, i);
      while k < j
        invariant CurOk(segs, Cur(k, off, len, next), j, frameSize)
        invariant |done| >= 1
        invariant Join(done, Pack(segs, Cur(k, off, len, next), j, frameSize)) == fs
        invariant outMhdr == old(outMhdr) + MsgsOf(done, base, i)
        invariant iov == old(iov) + Flatten(done)
        decreases j - k, Left(segs, Cur(k, off, len, next))
      {
        ghost var c := Cur(k, off, len, next);
        BuildStep(segs, c, j, frameSize, done, fs, base, i);
        if len == 0 && next == frameSize - HDR {
          assert |outMhdr| < outNmsgs && |iov| + 1 < iovCnt;
          outMhdr := outMhdr + [Msg(i, false, |iov|, 1)];
          iov := iov + [Header([])];
          done := done + [[Header([])]];
        }
        ghost var v := Piece(segs, c, j, frameSize);
        if |segs[k]| - off + len < next {
          var sz := |segs[k]| - off;
          AddSlice(Slice(k, off, sz), old(outMhdr), old(iov), done, i);
          len := len + sz;
          off := 0;
          k := k + 1;
        } else {
          var sz := next - len;
          AddSlice(Slice(k, off, sz), old(outMhdr), old(iov), done, i);
          off := off + sz;
          if |segs[k]| == off {
            k := k + 1;
            off := 0;
          }
          len := 0;
          next := frameSize - HDR;
        }
        done := Grown(done, v);
        assert Cur(k, off, len, next) == Advance(segs, c, j, frameSize);
      }
      PackEnd(segs, Cur(k, off, len, next), j, frameSize);
      JoinEnd(done);
    }

    /** One more slice for the datagram that is open; `done` are the frames behind a and b. */
    method AddSlice(v: Iov, ghost a: seq<Msg>, ghost b: seq<Iov>, ghost done: seq<Frame>, ghost i: nat)
      requires |done| >= 1 && |iov| < iovCnt
      requires outMhdr == a + MsgsOf(done, |b|, i) && iov == b + Flatten(done)
      modifies this`iov, this`outMhdr
      ensures outMhdr == a + MsgsOf(Grown(done, v), |b|, i) && iov == b + Flatten(Grown(done, v))
    {
      hide MsgsOf, Flatten, Grown;
      MsgsGrown(done, v, |b|, i);
      FlattenGrown(done, v);
      iov := iov + [v];
      var nh := |outMhdr| - 1;
      outMhdr := outMhdr[nh := outMhdr[nh].(count := outMhdr[nh].count + 1)];
    }

    /** Writes the total into the request's own header and fills in the other headers. */
    method StampHeaders(i: nat, k0: nat, j: nat, n: nat, base: nat, ghost fs: seq<Frame>)
      requires k0 < j <= |segs| && FreshHeader(segs[k0])
      requires Shaped(fs) && |fs| >= 1 && fs[0] != []
      requires n <= |outMhdr| && outMhdr[n..] == MsgsOf(fs, base, i)
      requires base <= |iov| && iov[base..] == Flatten(fs)
      modifies this`segs, this`iov
      ensures var p := Flatten(old(segs)[k0..j]);
              && |p| >= HDR
              && iov == old(iov)[..base] + Flatten(WithHeaders(fs, p, |fs|))
              && segs == Stamped(old(segs), k0, p, |fs|)
    {
      hide Flatten, Stamped, WithHeaders, MsgsOf, Head, Shaped;
      StampTotal(segs, k0, j, |fs|);
      ghost var p := Flatten(segs[k0..j]);
      NoLaterHeaders(fs, p);
      if |fs| > 1 { TwoFrames(fs); }
      if |iov| - base > 1 {
        segs := segs[k0 := PutAt(segs[k0], 4, |outMhdr| - n)];
        var h := segs[k0][..HDR];
        assert h == Head(p, 0, |fs|);
        var x := 1;
        while n + x < |outMhdr|
          invariant 1 <= x <= |fs| && segs == Stamped(old(segs), k0, p, |fs|)
          invariant iov == old(iov)[..base] + Flatten(WithHeaders(fs, p, x))
        {
          FillHeader(old(iov)[..base], fs, p, x, i);
          StampSeqno(p, x, |fs|);
          assert outMhdr[n + x] == outMhdr[n..][x];
          iov := iov[outMhdr[n + x].first := Header(PutAt(h, 2, x))];
          x := x + 1;
        }
      }
    }
  }

  // ---------------------------------------------------------------- header fields

  function PutAt(p: bytes, at: nat, v: nat): bytes
    requires at + 2 <= |p|
  {
    p[..at] + PutU16(v % 65536) + p[at + 2..]
  }

  lemma StampTotal(segs: seq<bytes>, k: nat, j: nat, t: nat)
    requires k < j <= |segs| && FreshHeader(segs[k])
    ensures var p := Flatten(segs[k..j]);
            && FreshHeader(p)
            && segs[k := PutAt(segs[k], 4, t)] == Stamped(segs, k, p, t)
            && PutAt(segs[k], 4, t)[..HDR] == Head(p, 0, t)
            && (t == 1 ==> Stamped(segs, k, p, t) == segs)
  {
    var s, tail := segs[k], Flatten(segs[k + 1..j]);
    var p := Flatten(segs[k..j]);
    assert segs[k..j][1..] == segs[k + 1..j];
    assert p == s + tail;
    hide Flatten;
    assert p[..2] == s[..2] && p[2..6] == s[2..6] && p[6..8] == s[6..8];
    assert s[..4] == s[..2] + PutU16(0) by { assert s[2] == s[2..6][0] && s[3] == s[2..6][1]; }
    assert PutAt(s, 4, t) == Head(p, 0, t) + s[HDR..];
    if t == 1 {
      assert s[4] == s[2..6][2] && s[5] == s[2..6][3];
      assert PutAt(s, 4, t) == s;
    }
  }

  lemma StampSeqno(p: bytes, x: nat, t: nat)
    requires |p| >= HDR
    ensures PutAt(Head(p, 0, t), 2, x) == Head(p, x, t)
  {
  }

  lemma NoLaterHeaders(fs: seq<Frame>, p: bytes)
    requires |p| >= HDR
    ensures WithHeaders(fs, p, 1) == fs
  {
  }

  lemma TwoFrames(fs: seq<Frame>)
    requires |fs| > 1 && Shaped(fs) && fs[0] != []
    ensures |Flatten(fs)| > 1
  {
  }

  lemma FlattenAt(fs: seq<Frame>, x: nat, v: Iov)
    requires x < |fs| && fs[x] != []
    ensures var at := |Flatten(fs[..x])|;
            at < |Flatten(fs)| && Flatten(fs)[at := v] == Flatten(fs[x := fs[x][0 := v]])
  {
    var a, f, b := fs[..x], fs[x], fs[x + 1..];
    hide Flatten;
    assert fs == a + ([f] + b) && fs[x := f[0 := v]] == a + ([f[0 := v]] + b);
    FlattenAround(a, f, b);
    FlattenAround(a, f[0 := v], b);
    UpdateWithin(Flatten(a), f, Flatten(b), v);
  }

  lemma FlattenAround(a: seq<Frame>, f: Frame, b: seq<Frame>)
    ensures Flatten(a + ([f] + b)) == Flatten(a) + (f + Flatten(b))
  {
    hide Flatten;
    FlattenAppend(a, [f] + b);
    FlattenCons(f, b);
  }

  lemma UpdateWithin<T>(a: seq<T>, f: seq<T>, b: seq<T>, v: T)
    requires f != []
    ensures (a + (f + b))[|a| := v] == a + (f[0 := v] + b)
  {
  }

  /** The first slice of datagram x is its header buffer. */
  lemma FillHeader(iov: seq<Iov>, fs: seq<Frame>, p: bytes, x: nat, src: nat)
    requires |p| >= HDR && Shaped(fs) && 1 <= x < |fs|
    ensures var all, at := iov + Flatten(WithHeaders(fs, p, x)), MsgsOf(fs, |iov|, src)[x].first;
            && at < |all|
            && all[at := Header(Head(p, x, |fs|))] == iov + Flatten(WithHeaders(fs, p, x + 1))
  {
    var hs, h := WithHeaders(fs, p, x), Header(Head(p, x, |fs|));
    SameLengths(hs, fs, x);
    FlattenAt(hs, x, h);
    assert hs[x := hs[x][0 := h]] == WithHeaders(fs, p, x + 1);
  }

  lemma {:induction false} SameLengths(fs: seq<Frame>, gs: seq<Frame>, n: nat)
    requires |fs| == |gs| && n <= |fs|
    requires forall x :: 0 <= x < n ==> |fs[x]| == |gs[x]|
    ensures |Flatten(fs[..n])| == |Flatten(gs[..n])|
  {
    if n > 0 {
      SameLengths(fs, gs, n - 1);
      assert fs[..n] == fs[..n - 1] + [fs[n - 1]] && gs[..n] == gs[..n - 1] + [gs[n - 1]];
      FlattenAppend(fs[..n - 1], [fs[n - 1]]);
      FlattenAppend(gs[..n - 1], [gs[n - 1]]);
      FlattenOne(fs[n - 1]);
      FlattenOne(gs[n - 1]);
    }
  }

  lemma PackUnfold(segs: seq<bytes>, c: Cur, j: nat, F: nat)
    requires CurOk(segs, c, j, F) && c.k < j
    ensures var v, rest := Piece(segs, c, j, F), Pack(segs, Advance(segs, c, j, F), j, F);
            Pack(segs, c, j, F) == if Pending(c, F) then [[], [Header([]), v] + rest[0]] + rest[1..]
                                   else [[v] + rest[0]] + rest[1..]
  {
  }

  /** The arrays sized by the first pass have room for what the next step of the walk stores. */
  lemma RoomLeft(segs: seq<bytes>, c: Cur, j: nat, F: nat, done: seq<Frame>)
    requires CurOk(segs, c, j, F) && c.k < j && |done| >= 1
    ensures var fs, more := Join(done, Pack(segs, c, j, F)), if Pending(c, F) then 1 else 0;
            && |done| + more <= |fs|
            && |Flatten(done)| + 1 + more <= |Flatten(fs)|
  {
    PackCounts(segs, c, j, F);
    FlattenJoin(done, Pack(segs, c, j, F));
  }

  /** What one step of the walk does to the frames built so far and to both arrays. */
  lemma BuildStep(segs: seq<bytes>, c: Cur, j: nat, F: nat, done: seq<Frame>, fs: seq<Frame>, base: nat, src: nat)
    requires CurOk(segs, c, j, F) && c.k < j && |done| >= 1 && Join(done, Pack(segs, c, j, F)) == fs
    ensures var v, more := Piece(segs, c, j, F), if Pending(c, F) then 1 else 0;
            var mid := if Pending(c, F) then done + [[Header([])]] else done;
            var ms := MsgsOf(mid, base, src);
            && |done| + more <= |fs| && |Flatten(done)| + 1 + more <= |Flatten(fs)|
            && (Pending(c, F) ==>
                 && ms == MsgsOf(done, base, src) + [Msg(src, false, base + |Flatten(done)|, 1)]
                 && Flatten(mid) == Flatten(done) + [Header([])])
            && |mid| >= 1 && |Grown(mid, v)| == |mid|
            && Join(Grown(mid, v), Pack(segs, Advance(segs, c, j, F), j, F)) == fs
  {
    hide Pack, Flatten, MsgsOf, Join;
    var v, rest := Piece(segs, c, j, F), Pack(segs, Advance(segs, c, j, F), j, F);
    var mid := if Pending(c, F) then done + [[Header([])]] else done;
    RoomLeft(segs, c, j, F, done);
    PackUnfold(segs, c, j, F);
    if Pending(c, F) {
      MsgsOpened(done, [Header([])], base, src);
      JoinOpen(done, Header([]), v, rest);
    } else {
      JoinGrow(done, v, rest);
    }
  }

  lemma PackEnd(segs: seq<bytes>, c: Cur, j: nat, F: nat)
    requires CurOk(segs, c, j, F) && c.k == j
    ensures Pack(segs, c, j, F) == [[]] && |Flatten(Pack(segs, c, j, F))| == 0
  {
  }

  lemma LayoutEnds(segs: seq<bytes>, idx: seq<nat>, n: nat, F: nat)
    requires Layout(segs, idx, n, F)
    ensures |idx| == n + 1 && idx[0] <= |segs|
  {
  }

  lemma NothingToSend(segs: seq<bytes>, idx: seq<nat>, n: nat, F: nat, i: nat)
    requires Layout(segs, idx, n, F) && i < n
    ensures idx[i] == idx[i + 1] ==>
      Reply(segs, idx, n, F, i) == [] && Frames(segs, idx, n, F, i) == [] && |Flatten(Frames(segs, idx, n, F, i))| == 0
  {
  }

  lemma LayoutAt(segs: seq<bytes>, idx: seq<nat>, n: nat, F: nat, i: nat)
    requires Layout(segs, idx, n, F) && i < n
    ensures F > HDR && |idx| == n + 1 && idx[i] <= idx[i + 1] <= |segs|
    ensures idx[i] < idx[i + 1] ==> FreshHeader(segs[idx[i]])
  {
  }

  // ---------------------------------------------------------------- from requests to the batch

  lemma {:induction false} CountGrows(segs: seq<bytes>, idx: seq<nat>, n: nat, F: nat, m: nat)
    requires Layout(segs, idx, n, F) && m <= n
    ensures CountMsgs(segs, idx, n, F, m) <= CountMsgs(segs, idx, n, F, n)
    ensures CountIovs(segs, idx, n, F, m) <= CountIovs(segs, idx, n, F, n)
    decreases n - m
  {
    hide Frames, Layout;
    if m < n { CountGrows(segs, idx, n, F, m + 1); }
  }

  lemma SentAppend(segs: seq<bytes>, iov: seq<Iov>, a: seq<Msg>, b: seq<Msg>)
    ensures Sent(segs, iov, a + b) == Sent(segs, iov, a) + Sent(segs, iov, b)
  {
  }

  /** A reply that fits into one datagram is that datagram. */
  lemma WholeReply(segs: seq<bytes>, idx: seq<nat>, n: nat, F: nat, i: nat, iov: seq<Iov>)
    requires Layout(segs, idx, n, F) && i < n && !NeedsSplit(segs, idx, n, F, n)
    ensures idx[i] == idx[i + 1] ==> Reply(segs, idx, n, F, i) == [] && |Frames(segs, idx, n, F, i)| == 0
    ensures idx[i] != idx[i + 1] ==>
              && |Frames(segs, idx, n, F, i)| == 1
              && Reply(segs, idx, n, F, i) == Sent(segs, iov, [Msg(i, true, idx[i], idx[i + 1] - idx[i])])
  {
    var k, j := idx[i], idx[i + 1];
    LayoutAt(segs, idx, n, F, i);
    NotSplit(segs, idx, n, F, i);
    hide Layout, NeedsSplit, Pack, Payloads, Flatten, Framed, FreshHeader, Tagged, Sent, Datagram;
    NothingTagged(i);
    if k != j {
      FreshFlatten(segs, k, j);
      SinglePayload(segs, k, j, F);
      SentWhole(segs, iov, i, k, j);
      FramedWhole(Flatten(segs[k..j]));
    }
  }

  lemma NothingTagged(i: nat)
    ensures Tagged(i, []) == []
  {
  }

  lemma SentWhole(segs: seq<bytes>, iov: seq<Iov>, i: nat, k: nat, j: nat)
    requires k <= j <= |segs|
    ensures Sent(segs, iov, [Msg(i, true, k, j - k)]) == Tagged(i, [Flatten(segs[k..j])])
  {
    hide Flatten;
  }

  lemma NotSplit(segs: seq<bytes>, idx: seq<nat>, n: nat, F: nat, i: nat)
    requires Layout(segs, idx, n, F) && i < n && !NeedsSplit(segs, idx, n, F, n)
    ensures |Frames(segs, idx, n, F, i)| <= 1
  {
  }

  lemma SinglePayload(segs: seq<bytes>, k: nat, j: nat, F: nat)
    requires k < j <= |segs| && F > HDR && |Pack(segs, StartOf(k, F), j, F)| == 1
    ensures Payloads(segs, Pack(segs, StartOf(k, F), j, F)) == [Flatten(segs[k..j])]
  {
    hide Pack, Payloads, Rest;
    PackKeepsBytes(segs, StartOf(k, F), j, F);
    RestAtStart(segs, StartOf(k, F), j);
    var ps := Payloads(segs, Pack(segs, StartOf(k, F), j, F));
    assert ps == [ps[0]];
    FlattenOne(ps[0]);
  }

  lemma FramedWhole(p: bytes)
    requires FreshHeader(p)
    ensures Framed(p, [p]) == [p]
  {
    assert PutU16(0) + PutU16(1) == [0, 0, 0, 1];
    assert Head(p, 0, 1) == p[..2] + (PutU16(0) + PutU16(1)) + p[6..8];
    assert p == p[..2] + p[2..6] + p[6..8] + p[HDR..];
    assert Framed(p, [p])[0] == Head(p, 0, 1) + p[HDR..];
  }

  /** Only segments before k are referenced, and every message lies in the slice array. */
  predicate Confined(iov: seq<Iov>, ms: seq<Msg>, k: nat) {
    && (forall o :: 0 <= o < |ms| ==> !ms[o].inStream && ms[o].first + ms[o].count <= |iov|)
    && (forall y :: 0 <= y < |iov| && iov[y].Slice? ==> iov[y].k < k)
  }

  lemma {:induction false} PackAgrees(s1: seq<bytes>, s0: seq<bytes>, c: Cur, j: nat, F: nat)
    requires CurOk(s0, c, j, F) && |s1| == |s0|
    requires forall z :: c.k <= z < |s0| ==> s1[z] == s0[z]
    ensures CurOk(s1, c, j, F) && Pack(s1, c, j, F) == Pack(s0, c, j, F)
    decreases j - c.k, Left(s0, c)
  {
    if c.k < j {
      assert Advance(s1, c, j, F) == Advance(s0, c, j, F) && Piece(s1, c, j, F) == Piece(s0, c, j, F);
      PackAgrees(s1, s0, Advance(s0, c, j, F), j, F);
      PackUnfold(s1, c, j, F);
      PackUnfold(s0, c, j, F);
      hide Pack, Advance, Piece;
    }
  }

  lemma {:induction false} PayloadAgrees(s1: seq<bytes>, s0: seq<bytes>, k: nat, f: Frame)
    requires |s1| == |s0| && forall z :: k <= z < |s0| ==> s1[z] == s0[z]
    requires forall y :: 0 <= y < |f| ==> After(f[y], k, 0)
    ensures Payload(s1, f) == Payload(s0, f)
  {
    if f != [] { PayloadAgrees(s1, s0, k, f[1..]); }
  }

  /** A request is framed alike whatever the earlier requests' headers now contain. */
  lemma RequestAgrees(s1: seq<bytes>, s0: seq<bytes>, idx: seq<nat>, n: nat, F: nat, i: nat)
    requires Layout(s0, idx, n, F) && i < n && |s1| == |s0| && idx[i] < idx[i + 1]
    requires forall z :: idx[i] <= z < |s0| ==> s1[z] == s0[z]
    ensures var k, j := idx[i], idx[i + 1];
            && k < j <= |s1| && F > HDR && FreshHeader(s1[k]) && FreshHeader(Flatten(s1[k..j]))
            && Pack(s1, StartOf(k, F), j, F) == Frames(s0, idx, n, F, i)
            && Reply(s0, idx, n, F, i)
               == Tagged(i, Framed(Flatten(s1[k..j]), Payloads(s1, Pack(s1, StartOf(k, F), j, F))))
  {
    var k, j := idx[i], idx[i + 1];
    LayoutAt(s0, idx, n, F, i);
    hide Layout, Framed, Tagged, Flatten;
    PackAgrees(s1, s0, StartOf(k, F), j, F);
    FreshFlatten(s1, k, j);
    assert s1[k..j] == s0[k..j];
    var fs := Pack(s0, StartOf(k, F), j, F);
    PackShape(s0, StartOf(k, F), j, F);
    hide Pack;
    forall x | 0 <= x < |fs| ensures Payload(s1, fs[x]) == Payload(s0, fs[x]) {
      PayloadAgrees(s1, s0, k, fs[x]);
    }
    assert Payloads(s1, fs) == Payloads(s0, fs);
  }

  lemma {:induction false} GatherAgrees(s1: seq<bytes>, s2: seq<bytes>, k: nat, f: Frame)
    requires |s1| == |s2| && forall z :: 0 <= z < k && z < |s1| ==> s1[z] == s2[z]
    requires forall y :: 0 <= y < |f| && f[y].Slice? ==> f[y].k < k
    ensures Gather(s1, f) == Gather(s2, f)
  {
    if f != [] { GatherAgrees(s1, s2, k, f[1..]); }
  }

  lemma {:induction false} FlattenSlice(fs: seq<Frame>, x: nat)
    requires x < |fs|
    ensures var at := |Flatten(fs[..x])|;
            at + |fs[x]| <= |Flatten(fs)| && Flatten(fs)[at..at + |fs[x]|] == fs[x]
  {
    assert fs == fs[..x] + ([fs[x]] + fs[x + 1..]);
    FlattenAppend(fs[..x], [fs[x]] + fs[x + 1..]);
    FlattenAppend([fs[x]], fs[x + 1..]);
    FlattenOne(fs[x]);
  }

  lemma OldMessagesKeep(s1: seq<bytes>, s2: seq<bytes>, iov: seq<Iov>, more: seq<Iov>, ms: seq<Msg>, k: nat)
    requires |s1| == |s2| && (forall z :: 0 <= z < |s1| && z != k ==> s1[z] == s2[z]) && Confined(iov, ms, k)
    ensures Sent(s2, iov + more, ms) == Sent(s1, iov, ms)
  {
    forall o | 0 <= o < |ms| ensures Datagram(s2, iov + more, ms[o]) == Datagram(s1, iov, ms[o]) {
      OldMessageKeeps(s1, s2, iov, more, ms[o], k);
    }
    hide Datagram;
  }

  lemma OldMessageKeeps(s1: seq<bytes>, s2: seq<bytes>, iov: seq<Iov>, more: seq<Iov>, m: Msg, k: nat)
    requires |s1| == |s2| && (forall z :: 0 <= z < |s1| && z != k ==> s1[z] == s2[z]) && Confined(iov, [m], k)
    ensures Datagram(s2, iov + more, m) == Datagram(s1, iov, m)
  {
    assert [m][0] == m;
    hide Gather;
    assert (iov + more)[m.first..m.first + m.count] == iov[m.first..m.first + m.count];
    GatherAgrees(s1, s2, k, iov[m.first..m.first + m.count]);
  }

  lemma NewMessages(segs: seq<bytes>, iov: seq<Iov>, fs: seq<Frame>, hs: seq<Frame>, i: nat, ds: seq<bytes>)
    requires |hs| == |fs| && (forall x :: 0 <= x < |fs| ==> |hs[x]| == |fs[x]|) && Gathered(segs, hs) == ds
    ensures Sent(segs, iov + Flatten(hs), MsgsOf(fs, |iov|, i)) == Tagged(i, ds)
  {
    hide Flatten, Gather;
    var ms, all := MsgsOf(fs, |iov|, i), iov + Flatten(hs);
    forall x | 0 <= x < |fs| ensures Datagram(segs, all, ms[x]) == ds[x] {
      SameLengths(hs, fs, x);
      FlattenSlice(hs, x);
      assert all[ms[x].first..ms[x].first + ms[x].count] == hs[x];
      assert Gathered(segs, hs)[x] == Gather(segs, hs[x]);
    }
  }

  lemma {:induction false} FlattenConfined(hs: seq<Frame>, j: nat)
    requires forall x, y :: 0 <= x < |hs| && 0 <= y < |hs[x]| && hs[x][y].Slice? ==> hs[x][y].k < j
    ensures forall y :: 0 <= y < |Flatten(hs)| && Flatten(hs)[y].Slice? ==> Flatten(hs)[y].k < j
  {
    if hs != [] {
      forall x, y | 0 <= x < |hs[1..]| && 0 <= y < |hs[1..][x]| && hs[1..][x][y].Slice?
        ensures hs[1..][x][y].k < j
      {
        assert hs[x + 1][y].k < j;
      }
      FlattenConfined(hs[1..], j);
    }
  }

  /** Building request i adds its datagrams and leaves those of earlier requests alone. */
  lemma SentGrows(s1: seq<bytes>, iov1: seq<Iov>, ms1: seq<Msg>, F: nat, i: nat, k: nat, j: nat)
    requires k < j <= |s1| && F > HDR && FreshHeader(s1[k]) && FreshHeader(Flatten(s1[k..j]))
    requires Confined(iov1, ms1, k)
    ensures var fs, p := Pack(s1, StartOf(k, F), j, F), Flatten(s1[k..j]);
            var s2, iov2 := Stamped(s1, k, p, |fs|), iov1 + Flatten(WithHeaders(fs, p, |fs|));
            var ms2 := ms1 + MsgsOf(fs, |iov1|, i);
            && Sent(s2, iov2, ms2) == Sent(s1, iov1, ms1) + Tagged(i, Framed(p, Payloads(s1, fs)))
            && Confined(iov2, ms2, j) && |iov2| == |iov1| + |Flatten(fs)|
            && |s2| == |s1| && (forall z :: 0 <= z < |s1| && z != k ==> s2[z] == s1[z])
  {
    var fs, p := Pack(s1, StartOf(k, F), j, F), Flatten(s1[k..j]);
    var hs := WithHeaders(fs, p, |fs|);
    var s2 := Stamped(s1, k, p, |fs|);
    FramesCarry(s1, k, j, F, p);
    PackShape(s1, StartOf(k, F), j, F);
    SentAppend(s2, iov1 + Flatten(hs), ms1, MsgsOf(fs, |iov1|, i));
    OldMessagesKeep(s1, s2, iov1, Flatten(hs), ms1, k);
    NewMessages(s2, iov1, fs, hs, i, Framed(p, Payloads(s1, fs)));
    FlattenConfined(hs, j);
    assert hs[..|fs|] == hs && fs[..|fs|] == fs;
    SameLengths(hs, fs, |fs|);
    NewMessagesInside(iov1, fs, hs, i);
  }

  lemma NewMessagesInside(iov: seq<Iov>, fs: seq<Frame>, hs: seq<Frame>, i: nat)
    requires |hs| == |fs| && (forall x :: 0 <= x < |fs| ==> |hs[x]| == |fs[x]|)
    ensures var ms := MsgsOf(fs, |iov|, i);
            forall o :: 0 <= o < |ms| ==> !ms[o].inStream && ms[o].first + ms[o].count <= |iov + Flatten(hs)|
  {
    forall x | 0 <= x < |fs| ensures |Flatten(fs[..x])| + |fs[x]| <= |Flatten(hs)| {
      SameLengths(hs, fs, x);
      FlattenSlice(hs, x);
    }
  }

  // ---------------------------------------------------------------- the whole batch

  /** The reference datagrams of request i. */
  function Reference(segs: seq<bytes>, idx: seq<nat>, n: nat, F: nat, i: nat): seq<(nat, bytes)>
    requires Layout(segs, idx, n, F) && i < n
  {
    if idx[i] == idx[i + 1] then []
    else
      FreshFlatten(segs, idx[i], idx[i + 1]);
      Tagged(i, Datagrams(Flatten(segs[idx[i]..idx[i + 1]]), F))
  }

  function References(segs: seq<bytes>, idx: seq<nat>, n: nat, F: nat, m: nat): seq<(nat, bytes)>
    requires Layout(segs, idx, n, F) && m <= n
  {
    if m == 0 then [] else References(segs, idx, n, F, m - 1) + Reference(segs, idx, n, F, m - 1)
  }

  /** A segment without bytes starts at a datagram boundary of request i. */
  predicate CutAtEmpty(segs: seq<bytes>, idx: seq<nat>, n: nat, F: nat, i: nat)
    requires Layout(segs, idx, n, F) && i < n
  {
    idx[i] < idx[i + 1] && EmptyCutFrom(segs, idx[i], idx[i], idx[i + 1], F)
  }

  lemma ReplyIsReferenceIff(segs: seq<bytes>, idx: seq<nat>, n: nat, F: nat, i: nat)
    requires Layout(segs, idx, n, F) && i < n
    ensures |Reply(segs, idx, n, F, i)| >= |Reference(segs, idx, n, F, i)|
    ensures CutAtEmpty(segs, idx, n, F, i) ==> |Reply(segs, idx, n, F, i)| > |Reference(segs, idx, n, F, i)|
    ensures !CutAtEmpty(segs, idx, n, F, i) ==> Reply(segs, idx, n, F, i) == Reference(segs, idx, n, F, i)
  {
    var k, j := idx[i], idx[i + 1];
    LayoutAt(segs, idx, n, F, i);
    if k < j {
      FreshFlatten(segs, k, j);
      hide Layout, Flatten, Pack, Payloads, Chunks, EmptyCutFrom, EmptyAtCut, Framed;
      MoreThanReference(segs, k, j, F);
      ReplyIsExactIff(segs, k, j, F, Flatten(segs[k..j]));
    }
  }

  lemma MoreThanReference(segs: seq<bytes>, k: nat, j: nat, F: nat)
    requires k < j <= |segs| && F > HDR
    ensures var ps, cs := Payloads(segs, Pack(segs, StartOf(k, F), j, F)), Chunks(Flatten(segs[k..j]), F, F);
            |ps| >= |cs| && (EmptyCutFrom(segs, k, k, j, F) ==> |ps| > |cs|)
  {
    var c := StartOf(k, F);
    assert segs[k..k] == [];
    PackCuts(segs, c, j, F);
    RestAtStart(segs, c, j);
    EmptyAtCutIff(segs, k, c, j, F);
  }

  lemma {:induction false} RepliesAndReferences(segs: seq<bytes>, idx: seq<nat>, n: nat, F: nat, m: nat)
    requires Layout(segs, idx, n, F) && m <= n
    ensures |Replies(segs, idx, n, F, m)| >= |References(segs, idx, n, F, m)|
    ensures (exists i :: 0 <= i < m && CutAtEmpty(segs, idx, n, F, i)) ==>
      |Replies(segs, idx, n, F, m)| > |References(segs, idx, n, F, m)|
    ensures (forall i :: 0 <= i < m ==> !CutAtEmpty(segs, idx, n, F, i)) ==>
      Replies(segs, idx, n, F, m) == References(segs, idx, n, F, m)
  {
    hide Layout, Reply, Reference, CutAtEmpty;
    if m > 0 {
      RepliesAndReferences(segs, idx, n, F, m - 1);
      ReplyIsReferenceIff(segs, idx, n, F, m - 1);
    }
  }

  /** Main result on batches: what is sent is the reference datagrams of every request if and only
      if in no request a segment without bytes starts at a datagram boundary. */
  lemma BatchIsExactIff(segs: seq<bytes>, idx: seq<nat>, n: nat, F: nat)
    requires Layout(segs, idx, n, F)
    ensures Replies(segs, idx, n, F, n) == References(segs, idx, n, F, n)
      <==> forall i :: 0 <= i < n ==> !CutAtEmpty(segs, idx, n, F, i)
  {
    hide Layout, CutAtEmpty, Replies, References;
    RepliesAndReferences(segs, idx, n, F, n);
  }

  // ---------------------------------------------------------------- what one client receives

  /** The datagrams that answer request i. */
  function Addressed(ts: seq<(nat, bytes)>, i: nat): seq<bytes> {
    if ts == [] then []
    else Addressed(ts[..|ts| - 1], i) + if ts[|ts| - 1].0 == i then [ts[|ts| - 1].1] else []
  }

  lemma {:induction false} AddressedAppend(a: seq<(nat, bytes)>, b: seq<(nat, bytes)>, i: nat)
    ensures Addressed(a + b, i) == Addressed(a, i) + Addressed(b, i)
    decreases |b|
  {
    if b == [] {
      assert a + b == a;
    } else {
      AddressedAppend(a, b[..|b| - 1], i);
      assert (a + b)[..|a + b| - 1] == a + b[..|b| - 1];
    }
  }

  lemma {:induction false} AddressedTagged(i: nat, k: nat, ds: seq<bytes>)
    ensures Addressed(Tagged(k, ds), i) == if k == i then ds else []
    decreases |ds|
  {
    if ds != [] {
      var n := |ds| - 1;
      AddressedTagged(i, k, ds[..n]);
      assert Tagged(k, ds)[..n] == Tagged(k, ds[..n]);
      assert ds == ds[..n] + [ds[n]];
    }
  }

  lemma AddressedMore(a: seq<(nat, bytes)>, i: nat, k: nat, ds: seq<bytes>)
    ensures Addressed(a + Tagged(k, ds), i) == if k == i then Addressed(a, i) + ds else Addressed(a, i)
  {
    AddressedAppend(a, Tagged(k, ds), i);
    AddressedTagged(i, k, ds);
    hide Addressed, Tagged;
  }

  lemma RepliesUnfold(segs: seq<bytes>, idx: seq<nat>, n: nat, F: nat, m: nat)
    requires Layout(segs, idx, n, F) && m <= n
    ensures m == 0 ==> Replies(segs, idx, n, F, m) == []
    ensures m > 0 ==> Replies(segs, idx, n, F, m) == Replies(segs, idx, n, F, m - 1) + Tagged(m - 1, Answer(segs, idx, n, F, m - 1))
  {
    hide Layout, Answer, Tagged;
  }

  /** Main result: of all that is sent, what is addressed to a client is the answer to its request. */
  lemma {:induction false} AddressedReplies(segs: seq<bytes>, idx: seq<nat>, n: nat, F: nat, m: nat, i: nat)
    requires Layout(segs, idx, n, F) && m <= n && i < n
    ensures Addressed(Replies(segs, idx, n, F, m), i) == if i < m then Answer(segs, idx, n, F, i) else []
    decreases m
  {
    hide Layout, Replies, Answer, Tagged, Addressed;
    RepliesUnfold(segs, idx, n, F, m);
    if m == 0 {
      NothingAddressed(i);
    } else {
      AddressedReplies(segs, idx, n, F, m - 1, i);
      AddressedMore(Replies(segs, idx, n, F, m - 1), i, m - 1, Answer(segs, idx, n, F, m - 1));
    }
  }

  lemma NothingAddressed(i: nat)
    ensures Addressed([], i) == []
  {
  }
}
