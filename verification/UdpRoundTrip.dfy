/** What reassembly makes of whole requests (src/ev_memcached.cpp:216-356), and of what framing
    sends (416-586). */
module UdpRoundTrip {

  import opened Bytes
  import opened UdpCuts
  import opened UdpMerge
  import opened UdpFraming

  // ---------------------------------------------------------------- complete requests

  predicate LongFrames(fs: seq<bytes>) {
    forall x :: 0 <= x < |fs| ==> |fs[x]| > HDR
  }

  /** The first n frames in one buffer, with a single header. */
  function Rejoin(fs: seq<bytes>, n: nat): bytes
    requires n <= |fs| && LongFrames(fs)
  {
    if n == 0 then [] else if n == 1 then Reset(fs[0]) else Rejoin(fs, n - 1) + fs[n - 1][HDR..]
  }

  /** A kept frame is copied only where the batch's array has a slot after the batch. */
  predicate HasRoom(pos: seq<nat>, nmsgs: nat, length: nat) {
    nmsgs < length || forall x :: 0 <= x < |pos| ==> pos[x] < nmsgs
  }

  /** The frames of a request from sequence number x on are each present once: frame y in the
      batch at pos[y], at idx or later, or, when pos[y] is the batch's length, in slot y of
      the frames kept from earlier batches. */
  ghost predicate Remaining(m: seq<bytes>, sav: seq<bytes>, id: bytes, idx: nat, fs: seq<bytes>, pos: seq<nat>, x: nat) {
    && |pos| == |fs| && x <= |fs|
    && (forall y :: 0 <= y < |fs| ==> For(fs[y], id) && Seqno(fs[y]) == y)
    && (forall y :: x <= y < |fs| ==> Located(m, sav, idx, fs[y], y, pos[y]))
    && (forall j :: idx <= j < |m| && For(m[j], id) ==> x <= Seqno(m[j]) < |fs| && pos[Seqno(m[j])] == j)
    && (forall y :: 0 <= y < |sav| && For(sav[y], id) ==> x <= y < |fs| && pos[y] == |m|)
  }

  ghost predicate Located(m: seq<bytes>, sav: seq<bytes>, idx: nat, f: bytes, y: nat, at: nat) {
    if at < |m| then idx <= at && m[at] == f else at == |m| && y < |sav| && sav[y] == f
  }

  lemma RemoveFirst(m: seq<bytes>, sav: seq<bytes>, id: bytes, idx: nat, fs: seq<bytes>, pos: seq<nat>, x: nat)
    requires Remaining(m, sav, id, idx, fs, pos, x) && x < |fs| && idx <= |m|
    ensures pos[x] < |m| ==>
              && Remaining(m[pos[x] := []], sav, id, idx, fs, pos, x + 1)
              && Sum(Ones(m[pos[x] := []][idx..], id)) + 1 == Sum(Ones(m[idx..], id))
              && Sum(Sizes(m[pos[x] := []][idx..], id)) + |fs[x]| - HDR == Sum(Sizes(m[idx..], id))
    ensures pos[x] == |m| ==>
              && x < |sav| && Remaining(m, sav[x := []], id, idx, fs, pos, x + 1)
              && Sum(Ones(sav[x := []], id)) + 1 == Sum(Ones(sav, id))
              && Sum(Sizes(sav[x := []], id)) + |fs[x]| - HDR == Sum(Sizes(sav, id))
  {
    assert Located(m, sav, idx, fs[x], x, pos[x]);
    if pos[x] < |m| {
      var m' := m[pos[x] := []];
      forall y | x + 1 <= y < |fs| ensures Located(m', sav, idx, fs[y], y, pos[y]) {
        assert Located(m, sav, idx, fs[y], y, pos[y]);
      }
      TakeOut(m[idx..], id, pos[x] - idx);
      assert m'[idx..] == m[idx..][pos[x] - idx := []];
    } else {
      var sav' := sav[x := []];
      forall y | x + 1 <= y < |fs| ensures Located(m, sav', idx, fs[y], y, pos[y]) {
        assert Located(m, sav, idx, fs[y], y, pos[y]);
      }
      TakeOut(sav, id, x);
    }
  }

  lemma NothingLeft(m: seq<bytes>, sav: seq<bytes>, id: bytes, idx: nat, fs: seq<bytes>, pos: seq<nat>)
    requires Remaining(m, sav, id, idx, fs, pos, |fs|) && idx <= |m|
    ensures Sum(Ones(m[idx..], id)) == Sum(Ones(sav, id)) == 0
    ensures Sum(Sizes(m[idx..], id)) == Sum(Sizes(sav, id)) == 0
  {
    assert forall i :: 0 <= i < |m[idx..]| ==> m[idx..][i] == m[idx + i];
    SumZero(Ones(m[idx..], id));
    SumZero(Ones(sav, id));
    SumZero(Sizes(m[idx..], id));
    SumZero(Sizes(sav, id));
  }

  /** A complete request has as many frames, in the batch and kept, as it has sequence numbers. */
  lemma {:induction false} FramesLeft(m: seq<bytes>, sav: seq<bytes>, id: bytes, idx: nat, fs: seq<bytes>, pos: seq<nat>, x: nat)
    requires Remaining(m, sav, id, idx, fs, pos, x) && idx <= |m|
    ensures Sum(Ones(m[idx..], id)) + Sum(Ones(sav, id)) == |fs| - x
    decreases |fs| - x
  {
    if x == |fs| {
      NothingLeft(m, sav, id, idx, fs, pos);
    } else {
      assert Located(m, sav, idx, fs[x], x, pos[x]);
      RemoveFirst(m, sav, id, idx, fs, pos, x);
      if pos[x] < |m| {
        FramesLeft(m[pos[x] := []], sav, id, idx, fs, pos, x + 1);
      } else {
        FramesLeft(m, sav[x := []], id, idx, fs, pos, x + 1);
      }
    }
  }

  /** When the batch alone has all frames, none is among those kept. */
  lemma NoneKept(m: seq<bytes>, sav: seq<bytes>, id: bytes, idx: nat, fs: seq<bytes>, pos: seq<nat>)
    requires Remaining(m, sav, id, idx, fs, pos, 0) && idx <= |m| && Sum(Ones(m[idx..], id)) >= |fs|
    ensures Sum(Sizes(sav, id)) == 0
  {
    FramesLeft(m, sav, id, idx, fs, pos, 0);
    SumZero(Ones(sav, id));
    SumZero(Sizes(sav, id));
    assert forall y :: 0 <= y < |sav| ==> Ones(sav, id)[y] == 0 ==> Sizes(sav, id)[y] == 0;
  }

  /** The bytes that the frames from x on contribute. */
  function SizeFrom(fs: seq<bytes>, x: nat): nat
    requires LongFrames(fs)
    decreases |fs| - x
  {
    if x >= |fs| then 0 else |fs[x]| - HDR + SizeFrom(fs, x + 1)
  }

  lemma {:induction false} SizesLeft(m: seq<bytes>, sav: seq<bytes>, id: bytes, idx: nat, fs: seq<bytes>, pos: seq<nat>, x: nat)
    requires Remaining(m, sav, id, idx, fs, pos, x) && idx <= |m| && LongFrames(fs)
    ensures Sum(Sizes(m[idx..], id)) + Sum(Sizes(sav, id)) == SizeFrom(fs, x)
    decreases |fs| - x
  {
    if x == |fs| {
      NothingLeft(m, sav, id, idx, fs, pos);
    } else {
      assert Located(m, sav, idx, fs[x], x, pos[x]);
      RemoveFirst(m, sav, id, idx, fs, pos, x);
      hide Sum, Sizes, Ones, Remaining, Located;
      if pos[x] < |m| {
        SizesLeft(m[pos[x] := []], sav, id, idx, fs, pos, x + 1);
      } else {
        SizesLeft(m, sav[x := []], id, idx, fs, pos, x + 1);
      }
    }
  }

  lemma {:induction false} RejoinSize(fs: seq<bytes>, n: nat)
    requires LongFrames(fs) && 1 <= n <= |fs|
    ensures |Rejoin(fs, n)| + SizeFrom(fs, n) == HDR + SizeFrom(fs, 0)
  {
    if n > 1 { RejoinSize(fs, n - 1); }
  }

  /** In a complete request every frame is found where it is. */
  lemma CompletePlace(m: seq<bytes>, sav: seq<bytes>, id: bytes, idx: nat, fs: seq<bytes>, pos: seq<nat>, x: nat)
    requires Remaining(m, sav, id, idx, fs, pos, 0) && idx <= |m| && x < |fs|
    ensures Present(m, sav, id, idx, x) && FrameAt(m, sav, id, idx, x) == fs[x]
    ensures Place(m, id, idx, x) == if pos[x] < |m| then pos[x] else |m|
  {
    assert Located(m, sav, idx, fs[x], x, pos[x]);
    if pos[x] < |m| {
      assert IsFrame(m[pos[x]], id, x);
      assert forall i :: idx <= i < pos[x] ==> !IsFrame(m[i], id, x);
      PlaceIs(m, id, idx, x, pos[x]);
    } else {
      assert forall i :: idx <= i < |m| ==> !IsFrame(m[i], id, x);
      PlaceIs(m, id, idx, x, |m|);
    }
  }

  lemma {:induction false} CompleteGlued(m: seq<bytes>, sav: seq<bytes>, id: bytes, idx: nat, fs: seq<bytes>, pos: seq<nat>, x: nat)
    requires Remaining(m, sav, id, idx, fs, pos, 0) && idx <= |m| && x <= |fs| && LongFrames(fs)
    ensures Glued(m, sav, id, idx, x) == Rejoin(fs, x) && (x > 0 ==> |Rejoin(fs, x)| > HDR)
  {
    hide Remaining, Present, Place, FrameAt;
    if x > 0 {
      CompleteGlued(m, sav, id, idx, fs, pos, x - 1);
      CompletePlace(m, sav, id, idx, fs, pos, x - 1);
    }
  }

  /** Main result for complete requests: one is rebuilt if and only if it was not necessary to take
      a frame that was kept while there is no slot behind the batch; then the array is overrun. */
  lemma CompleteEnds(r: Outcome, m: seq<bytes>, sav: seq<bytes>, id: bytes, idx: nat, fs: seq<bytes>, pos: seq<nat>,
                     cnt: nat, size: nat, length: nat)
    requires idx < |m| <= length && For(m[idx], id) && Remaining(m, sav, id, idx, fs, pos, 0)
    requires Counted(m, sav, id, idx, |fs|, cnt, size)
    requires cnt >= |fs| ==> Ends(r, m, sav, id, idx, |fs|, size, |m| < length)
    ensures cnt >= |fs| > 0 && LongFrames(fs) && Glued(m, sav, id, idx, |fs|) == Rejoin(fs, |fs|)
    ensures r == Merged <==> HasRoom(pos, |m|, length)
    ensures !HasRoom(pos, |m|, length) ==> r == Overruns
  {
    FramesLeft(m, sav, id, idx, fs, pos, 0);
    assert LongFrames(fs);
    SizesLeft(m, sav, id, idx, fs, pos, 0);
    if Sum(Ones(m[idx..], id)) >= |fs| { NoneKept(m, sav, id, idx, fs, pos); }
    assert |fs| > Seqno(m[idx]) >= 0;
    hide Counted, For, Seqno;
    CompleteGlued(m, sav, id, idx, fs, pos, |fs|);
    RejoinSize(fs, |fs|);
    assert size == |Rejoin(fs, |fs|)|;
    CompleteReaches(r, m, sav, id, idx, fs, pos, size, length);
  }

  lemma CompletePasses(m: seq<bytes>, sav: seq<bytes>, id: bytes, idx: nat, fs: seq<bytes>, pos: seq<nat>, x: nat, size: nat, room: bool)
    requires Remaining(m, sav, id, idx, fs, pos, 0) && idx <= |m| && LongFrames(fs) && x < |fs| && size == HDR + SizeFrom(fs, 0)
    ensures Present(m, sav, id, idx, x) && |Glued(m, sav, id, idx, x + 1)| <= size
    ensures Place(m, id, idx, x) < |m| <==> pos[x] < |m|
    ensures Passes(m, sav, id, idx, x, size, room) <==> room || pos[x] < |m|
  {
    assert |pos| == |fs|;
    hide Remaining, Present, Place, Glued, FrameAt, Rejoin;
    CompletePlace(m, sav, id, idx, fs, pos, x);
    CompleteGlued(m, sav, id, idx, fs, pos, x + 1);
    RejoinSize(fs, x + 1);
  }

  lemma CompleteReaches(r: Outcome, m: seq<bytes>, sav: seq<bytes>, id: bytes, idx: nat, fs: seq<bytes>, pos: seq<nat>, size: nat, length: nat)
    requires idx < |m| <= length && Remaining(m, sav, id, idx, fs, pos, 0) && LongFrames(fs) && fs != []
    requires size == HDR + SizeFrom(fs, 0) == |Glued(m, sav, id, idx, |fs|)|
    requires Ends(r, m, sav, id, idx, |fs|, size, |m| < length)
    ensures r == Merged <==> HasRoom(pos, |m|, length)
    ensures !HasRoom(pos, |m|, length) ==> r == Overruns
  {
    var room := |m| < length;
    assert |pos| == |fs|;
    if HasRoom(pos, |m|, length) {
      AllPass(m, sav, id, idx, fs, pos, |fs|, size, room);
      hide Remaining, Present, Place, Glued, LongFrames, SizeFrom, Passes, Reaches, SpinsAt, OverrunsAt;
    } else {
      var x :| 0 <= x < |pos| && pos[x] >= |m|;
      var y := FirstKept(pos, |m|, x);
      KeptStops(m, sav, id, idx, fs, pos, y, size);
      hide Remaining, Present, Place, Glued, LongFrames, SizeFrom, Passes, Reaches, SpinsAt, OverrunsAt;
    }
  }

  lemma AllPass(m: seq<bytes>, sav: seq<bytes>, id: bytes, idx: nat, fs: seq<bytes>, pos: seq<nat>, x: nat, size: nat, room: bool)
    requires Remaining(m, sav, id, idx, fs, pos, 0) && idx <= |m| && LongFrames(fs) && x <= |fs| == |pos| && size == HDR + SizeFrom(fs, 0)
    requires room || forall y :: 0 <= y < x ==> pos[y] < |m|
    ensures Reaches(m, sav, id, idx, x, size, room)
  {
    hide Remaining, Present, Place, Glued, LongFrames, SizeFrom, Passes;
    forall y | 0 <= y < x ensures Passes(m, sav, id, idx, y, size, room) {
      CompletePasses(m, sav, id, idx, fs, pos, y, size, room);
    }
  }

  lemma KeptStops(m: seq<bytes>, sav: seq<bytes>, id: bytes, idx: nat, fs: seq<bytes>, pos: seq<nat>, x: nat, size: nat)
    requires Remaining(m, sav, id, idx, fs, pos, 0) && idx <= |m| && LongFrames(fs) && x < |fs| == |pos| && size == HDR + SizeFrom(fs, 0)
    requires pos[x] >= |m| && forall y :: 0 <= y < x ==> pos[y] < |m|
    ensures OverrunsAt(m, sav, id, idx, x, size, false)
  {
    hide Remaining, Present, Place, Glued, LongFrames, SizeFrom, Passes, Reaches;
    AllPass(m, sav, id, idx, fs, pos, x, size, false);
    CompletePasses(m, sav, id, idx, fs, pos, x, size, false);
  }

  lemma {:induction false} FirstKept(pos: seq<nat>, n: nat, x: nat) returns (y: nat)
    requires x < |pos| && pos[x] >= n
    ensures y <= x && pos[y] >= n && forall z :: 0 <= z < y ==> pos[z] < n
    decreases x
  {
    if z :| 0 <= z < x && pos[z] >= n { y := FirstKept(pos, n, z); } else { y := x; }
  }

  /** All frames of a complete request are dropped from the batch, and nothing else. */
  lemma CompleteDrops(m: seq<bytes>, left: seq<bytes>, sav: seq<bytes>, id: bytes, idx: nat, fs: seq<bytes>, pos: seq<nat>, j: nat)
    requires Remaining(m, sav, id, idx, fs, pos, 0) && idx <= |m| && j < |m|
    requires Stage(m, left, id, idx, |fs|) && Taken(m, left, id, idx, |fs|)
    ensures left[j] == if idx <= j && For(m[j], id) then [] else m[j]
  {
    if idx <= j && For(m[j], id) {
      CompletePlace(m, sav, id, idx, fs, pos, Seqno(m[j]));
    }
  }

  // ---------------------------------------------------------------- absent frames

  /** The batch without the frames that are taken for the numbers below x. */
  function Cleared(m: seq<bytes>, id: bytes, idx: nat, x: nat): (c: seq<bytes>)
    ensures |c| == |m|
  {
    if x == 0 then m
    else
      var c, p := Cleared(m, id, idx, x - 1), Place(m, id, idx, x - 1);
      if p < |m| then c[p := []] else c
  }

  lemma {:induction false} ClearedKeeps(m: seq<bytes>, id: bytes, idx: nat, x: nat, j: nat)
    requires j < |m| && For(m[j], id) && Seqno(m[j]) >= x
    ensures Cleared(m, id, idx, x)[j] == m[j]
  {
    hide For, Seqno;
    if x > 0 { ClearedKeeps(m, id, idx, x - 1, j); }
  }

  /** Frames that are all in the batch never exceed the buffer. */
  lemma {:induction false} GluedFits(m: seq<bytes>, sav: seq<bytes>, id: bytes, idx: nat, x: nat)
    requires idx <= |m| && forall y :: 0 <= y < x ==> Place(m, id, idx, y) < |m|
    ensures |Glued(m, sav, id, idx, x)| + Sum(Sizes(Cleared(m, id, idx, x)[idx..], id))
      == Sum(Sizes(m[idx..], id)) + if x > 0 then HDR else 0
    ensures x > 0 ==> |Glued(m, sav, id, idx, x)| >= HDR
    decreases x
  {
    hide Glued, Cleared, Place, Sum, Sizes, For;
    if x == 0 {
      NoneTaken(m, sav, id, idx);
    } else {
      GluedFits(m, sav, id, idx, x - 1);
      var p, c := Place(m, id, idx, x - 1), Cleared(m, id, idx, x - 1);
      TakenNext(m, sav, id, idx, x);
      TakeOut(c[idx..], id, p - idx);
      assert c[p := []][idx..] == c[idx..][p - idx := []];
    }
  }

  lemma NoneTaken(m: seq<bytes>, sav: seq<bytes>, id: bytes, idx: nat)
    ensures Glued(m, sav, id, idx, 0) == [] && Cleared(m, id, idx, 0) == m
  {
  }

  lemma TakenNext(m: seq<bytes>, sav: seq<bytes>, id: bytes, idx: nat, x: nat)
    requires idx <= |m| && x > 0 && Place(m, id, idx, x - 1) < |m|
    ensures var out, p, c := Glued(m, sav, id, idx, x - 1), Place(m, id, idx, x - 1), Cleared(m, id, idx, x - 1);
            && idx <= p && c[p] == m[p] && For(m[p], id) && |m[p]| > HDR
            && Cleared(m, id, idx, x) == c[p := []]
            && |Glued(m, sav, id, idx, x)| == |out| + |m[p]| - (if out != [] then HDR else 0)
            && (x == 1 ==> out == [])
  {
    ClearedKeeps(m, id, idx, x - 1, Place(m, id, idx, x - 1));
  }

  /** Main result on lost frames: when none of the request was kept from an earlier batch, the loop
      never ends if and only if the batch has as many frames of the request as it needs, but not
      one for every number, so that some have arrived twice. */
  lemma SpinsIff(r: Outcome, m: seq<bytes>, sav: seq<bytes>, id: bytes, idx: nat, total: nat, cnt: nat, size: nat, room: bool)
    requires idx < |m| && (forall y :: 0 <= y < |sav| ==> !For(sav[y], id))
    requires Counted(m, sav, id, idx, total, cnt, size)
    requires if cnt < total then r == Kept else Ends(r, m, sav, id, idx, total, size, room)
    ensures r == Spins <==> cnt >= total && exists x :: 0 <= x < total && Place(m, id, idx, x) == |m|
  {
    SumZero(Ones(sav, id));
    SumZero(Sizes(sav, id));
    assert size == HDR + Sum(Sizes(m[idx..], id));
    hide Counted, For, Seqno, Sum, Ones, Sizes;
    if x: nat :| x < total && Place(m, id, idx, x) == |m| {
      if cnt >= total {
        var y := FirstAbsent(m, id, idx, x);
        AbsentStops(m, sav, id, idx, y, size, room);
        assert SpinsAt(m, sav, id, idx, y, size, room);
      }
    } else {
      hide Reaches, Place;
      assert forall x :: 0 <= x < total ==> Present(m, sav, id, idx, x);
    }
  }

  lemma {:induction false} FirstAbsent(m: seq<bytes>, id: bytes, idx: nat, x: nat) returns (y: nat)
    requires idx <= |m| && Place(m, id, idx, x) == |m|
    ensures y <= x && Place(m, id, idx, y) == |m| && forall z :: 0 <= z < y ==> Place(m, id, idx, z) < |m|
    decreases x
  {
    hide Place;
    if z :| 0 <= z < x && Place(m, id, idx, z) == |m| { y := FirstAbsent(m, id, idx, z); } else { y := x; }
  }

  lemma AbsentStops(m: seq<bytes>, sav: seq<bytes>, id: bytes, idx: nat, x: nat, size: nat, room: bool)
    requires idx <= |m| && size == HDR + Sum(Sizes(m[idx..], id)) && (forall y :: 0 <= y < |sav| ==> !For(sav[y], id))
    requires Place(m, id, idx, x) == |m| && forall z :: 0 <= z < x ==> Place(m, id, idx, z) < |m|
    ensures SpinsAt(m, sav, id, idx, x, size, room)
  {
    hide Glued, Place, Sum, Sizes, Cleared, For;
    forall z | 0 <= z < x ensures Passes(m, sav, id, idx, z, size, room) {
      GluedFits(m, sav, id, idx, z + 1);
    }
  }

  /** A request of two frames, of which the first arrives twice: the loop never ends. */
  method FirstFrameTwice() returns (r: Outcome)
    ensures r == Spins
  {
    var frame: bytes := [7, 7, 0, 0, 0, 2, 0, 0, 1];
    var id: bytes := [7, 7];
    var mhdr := new bytes[2](_ => frame);
    var merge := new EvMemcachedMerge();
    ghost var m := mhdr[..2];
    assert m == [frame, frame];
    TwiceTheFirst(frame);
    hide Ends, Counted, Place, Stage, Taken, Glued, KeptFrom, Seqno;
    ghost var cnt, size, left;
    r, cnt, size, left := merge.MergeFrames(mhdr, 2, id, 0, 2, |frame|);
    TwiceIsTwo(frame, cnt, size);
    SpinsIff(r, m, [], id, 0, 2, cnt, size, false);
  }

  lemma TwiceTheFirst(frame: bytes)
    requires frame == [7, 7, 0, 0, 0, 2, 0, 0, 1]
    ensures For(frame, [7, 7]) && Seqno(frame) == 0 && Place([frame, frame], [7, 7], 0, 1) == 2
  {
    assert frame[..2] == [7, 7] && frame[2..4] == [0, 0];
    PlaceIs([frame, frame], [7, 7], 0, 1, 2);
  }

  lemma TwiceIsTwo(frame: bytes, cnt: nat, size: nat)
    requires For(frame, [7, 7]) && Counted([frame, frame], [], [7, 7], 0, 2, cnt, size)
    ensures cnt == 2
  {
    var m := [frame, frame];
    SumSlice(m, [7, 7], 0, 0);
    SumSlice(m, [7, 7], 0, 1);
    assert m[0..2] == m[0..] == m;
  }

  // ---------------------------------------------------------------- the round trip

  /** The datagrams of a split reply are frames of its request, numbered in order. */
  lemma DatagramsAreFrames(p: bytes, F: nat, x: nat)
    requires FreshHeader(p) && |p| > HDR && F > HDR && x < |Datagrams(p, F)| < 65536
    ensures var ds := Datagrams(p, F); For(ds[x], p[..2]) && Seqno(ds[x]) == x
  {
    var cs, d := Chunks(p, F, F), Datagrams(p, F)[x];
    ChunksAreFull(p, F, F);
    FirstChunk(p, F, F);
    ChunkBodies(p, F, x);
    assert d == Head(p, x, |cs|) + Body(cs, x);
    hide Chunks, Framed;
    HeadFields(p, x, |cs|, Body(cs, x));
  }

  /** Every datagram of a split reply carries payload. */
  lemma ChunkBodies(p: bytes, F: nat, x: nat)
    requires |p| > HDR && F > HDR && x < |Chunks(p, F, F)|
    ensures |Body(Chunks(p, F, F), x)| > 0
  {
    ChunksAreFull(p, F, F);
    FirstChunk(p, F, F);
  }

  lemma HeadFields(p: bytes, x: nat, t: nat, body: bytes)
    requires |p| >= HDR && x < 65536 && |body| > 0
    ensures For(Head(p, x, t) + body, p[..2]) && Seqno(Head(p, x, t) + body) == x
  {
  }

  /** Frames that carry the chunks cs, the first one with its header. */
  lemma {:induction false} RejoinBodies(ds: seq<bytes>, cs: seq<bytes>, n: nat)
    requires LongFrames(ds) && 1 <= n <= |ds| == |cs| && Reset(ds[0]) == cs[0]
    requires forall x :: 1 <= x < |ds| ==> ds[x][HDR..] == cs[x]
    ensures Rejoin(ds, n) == Flatten(cs[..n])
    decreases n
  {
    hide Flatten, Reset, Rejoin;
    RejoinLast(ds, n);
    FlattenLast(cs, n - 1);
    if n == 1 {
      FlattenNone<byte>();
      assert cs[..0] == [];
    } else {
      RejoinBodies(ds, cs, n - 1);
    }
  }

  lemma RejoinLast(fs: seq<bytes>, n: nat)
    requires LongFrames(fs) && 1 <= n <= |fs|
    ensures Rejoin(fs, n) == if n == 1 then Reset(fs[0]) else Rejoin(fs, n - 1) + fs[n - 1][HDR..]
  {
  }

  lemma RejoinChunks(p: bytes, F: nat, n: nat)
    requires FreshHeader(p) && |p| > HDR && F > HDR && LongFrames(Datagrams(p, F)) && 1 <= n <= |Datagrams(p, F)|
    ensures Rejoin(Datagrams(p, F), n) == Flatten(Chunks(p, F, F)[..n])
  {
    var cs, ds := Chunks(p, F, F), Datagrams(p, F);
    FirstChunk(p, F, F);
    FirstReset(p, cs);
    FramedSizes(p, cs);
    forall x | 1 <= x < |ds| ensures ds[x][HDR..] == cs[x] { BodyAt(ds, x); }
    hide Chunks, Flatten, Framed, Bodies, Reset, Rejoin;
    RejoinBodies(ds, cs, n);
  }

  lemma BodyAt(ds: seq<bytes>, x: nat)
    requires x < |ds| && forall y :: 0 <= y < |ds| ==> |ds[y]| >= HDR
    ensures Bodies(ds)[x] == ds[x][HDR..]
  {
  }

  lemma FirstReset(p: bytes, cs: seq<bytes>)
    requires FreshHeader(p) && cs != [] && HDR <= |cs[0]| && cs[0] <= p
    ensures |Framed(p, cs)[0]| >= HDR && Reset(Framed(p, cs)[0]) == cs[0]
  {
    ResetFirst(p, cs[0], |cs|);
    assert Framed(p, cs)[0] == Head(p, 0, |cs|) + cs[0][HDR..];
  }

  lemma FlattenLast(cs: seq<bytes>, n: nat)
    requires n < |cs|
    ensures Flatten(cs[..n + 1]) == Flatten(cs[..n]) + cs[n]
  {
    assert cs[..n + 1] == cs[..n] + [cs[n]];
    FlattenAppend(cs[..n], [cs[n]]);
    assert Flatten([cs[n]]) == cs[n];
  }

  lemma ResetFirst(p: bytes, c: bytes, t: nat)
    requires FreshHeader(p) && HDR <= |c| && c <= p
    ensures Reset(Head(p, 0, t) + c[HDR..]) == c
  {
  }

  /** Rejoining a split reply's datagrams in sequence gives back the reply. */
  lemma RoundTrip(p: bytes, F: nat)
    requires FreshHeader(p) && |p| > HDR && F > HDR && |Datagrams(p, F)| < 65536
    ensures LongFrames(Datagrams(p, F)) && Rejoin(Datagrams(p, F), |Datagrams(p, F)|) == p
  {
    var ds := Datagrams(p, F);
    forall x | 0 <= x < |ds| ensures |ds[x]| > HDR { DatagramsAreFrames(p, F, x); }
    RejoinChunks(p, F, |ds|);
    ChunksAreFull(p, F, F);
    assert Chunks(p, F, F)[..|ds|] == Chunks(p, F, F);
  }

  /** A reply's datagrams in any order, each in the batch or kept from an earlier one, among
      frames of other requests, are what the reassembler calls complete. */
  lemma AnyOrderIsComplete(p: bytes, F: nat, m: seq<bytes>, sav: seq<bytes>, idx: nat, pos: seq<nat>)
    requires FreshHeader(p) && |p| > HDR && F > HDR && |pos| == |Datagrams(p, F)| < 65536
    requires forall x :: 0 <= x < |pos| ==> Located(m, sav, idx, Datagrams(p, F)[x], x, pos[x])
    requires forall j :: idx <= j < |m| && For(m[j], p[..2]) ==> exists x :: 0 <= x < |pos| && pos[x] == j
    requires forall y :: 0 <= y < |sav| && For(sav[y], p[..2]) ==> y < |pos| && pos[y] == |m|
    ensures Remaining(m, sav, p[..2], idx, Datagrams(p, F), pos, 0)
  {
    var ds, id := Datagrams(p, F), p[..2];
    forall x | 0 <= x < |ds| ensures For(ds[x], id) && Seqno(ds[x]) == x { DatagramsAreFrames(p, F, x); }
    forall j | idx <= j < |m| && For(m[j], id) ensures 0 <= Seqno(m[j]) < |ds| && pos[Seqno(m[j])] == j {
      var x :| 0 <= x < |pos| && pos[x] == j;
      assert Located(m, sav, idx, ds[x], x, pos[x]);
    }
  }

  /** A reply split over two batches: when the first one's frames have been kept, the second makes
      the request complete, whatever else both contain. */
  lemma SecondBatchCompletes(p: bytes, F: nat, fs: seq<bytes>, sav: seq<bytes>, m: seq<bytes>, idx: nat, pos: seq<nat>)
    requires FreshHeader(p) && |p| > HDR && F > HDR && |pos| == |Datagrams(p, F)| < 65536
    requires forall x :: 0 <= x < |pos| ==>
      if pos[x] < |m| then idx <= pos[x] && m[pos[x]] == Datagrams(p, F)[x] else pos[x] == |m| && Datagrams(p, F)[x] in fs
    requires forall j :: idx <= j < |m| && For(m[j], p[..2]) ==> exists x :: 0 <= x < |pos| && pos[x] == j
    requires forall f :: f in fs && For(f, p[..2]) ==> exists x :: 0 <= x < |pos| && f == Datagrams(p, F)[x] && pos[x] == |m|
    requires forall y :: 0 <= y < |sav| ==> !For(sav[y], p[..2])
    ensures Remaining(m, KeptFrom(sav, fs, p[..2], |Datagrams(p, F)|), p[..2], idx, Datagrams(p, F), pos, 0)
  {
    var ds, id := Datagrams(p, F), p[..2];
    var kept := KeptFrom(sav, fs, id, |ds|);
    forall x | 0 <= x < |ds| ensures For(ds[x], id) && Seqno(ds[x]) == x { DatagramsAreFrames(p, F, x); }
    hide Datagrams, FreshHeader, For, Seqno, KeptFrom, Remaining;
    forall x | 0 <= x < |pos| ensures Located(m, kept, idx, ds[x], x, pos[x]) {
      KeptMeans(sav, fs, id, |ds|, x);
    }
    forall y | 0 <= y < |kept| && For(kept[y], id) ensures pos[y] == |m| {
      KeptMeans(sav, fs, id, |ds|, y);
    }
    AnyOrderIsComplete(p, F, m, kept, idx, pos);
  }

  // ---------------------------------------------------------------- datagrams without payload

  /** A datagram that is open at c has nothing in it yet. */
  lemma PendingIsEmpty(segs: seq<bytes>, c: Cur, j: nat, F: nat)
    requires CurOk(segs, c, j, F) && Pending(c, F)
    ensures Payloads(segs, Pack(segs, c, j, F))[0] == []
  {
    hide Pack, Payloads, Advance, IovBytes, Piece;
    if c.k == j { EndOfWalk(segs, c, j, F); } else { PayloadsAdvance(segs, c, j, F); }
  }

  /** An empty segment at a boundary makes a datagram that consists of its header. */
  lemma {:induction false} EmptyPayload(segs: seq<bytes>, c: Cur, j: nat, F: nat) returns (x: nat)
    requires CurOk(segs, c, j, F) && EmptyAtCut(segs, c, j, F) > 0
    ensures 1 <= x < |Payloads(segs, Pack(segs, c, j, F))| && Payloads(segs, Pack(segs, c, j, F))[x] == []
    decreases j - c.k, Left(segs, c)
  {
    hide Pack, Payloads;
    var c' := Advance(segs, c, j, F);
    PayloadsAdvance(segs, c, j, F);
    if Pending(c, F) && |segs[c.k]| == 0 {
      PendingIsEmpty(segs, c', j, F);
      x := 1;
    } else {
      x := EmptyPayload(segs, c', j, F);
      if Pending(c, F) { x := x + 1; }
    }
  }

  /** The frames of the request are those delivered, so a datagram without payload is missing. */
  function Positions(pos: seq<nat>, idx: nat, without: nat, n: nat): (s: set<nat>)
    requires n <= |pos|
    ensures |s| <= if without < n then n - 1 else n
    ensures forall x :: 0 <= x < n && x != without && pos[x] >= idx ==> pos[x] - idx in s
  {
    if n == 0 then {}
    else if n - 1 == without || pos[n - 1] < idx then Positions(pos, idx, without, n - 1)
    else Positions(pos, idx, without, n - 1) + {pos[n - 1] - idx}
  }

  lemma {:induction false} OnesInside(m: seq<bytes>, id: bytes, s: set<nat>)
    requires forall j :: 0 <= j < |m| && For(m[j], id) ==> j in s
    ensures Sum(Ones(m, id)) <= |s|
    decreases |m|
  {
    if m != [] {
      var n := |m| - 1;
      SumSnoc(Ones(m[..n], id), if For(m[n], id) then 1 else 0);
      assert Ones(m, id) == Ones(m[..n], id) + [if For(m[n], id) then 1 else 0];
      OnesInside(m[..n], id, s - {n});
    }
  }

  // ---------------------------------------------------------------- through both programs

  /** The datagrams ds of one reply have arrived at the positions pos of a batch, in any order and
      among others.  Those without payload may come anywhere, the others not before idx. */
  ghost predicate Delivered(batch: seq<bytes>, idx: nat, ds: seq<bytes>, id: bytes, pos: seq<nat>) {
    && |pos| == |ds| && idx < |batch| && For(batch[idx], id)
    && (forall x :: 0 <= x < |pos| ==> pos[x] < |batch| && batch[pos[x]] == ds[x] && (|ds[x]| > HDR ==> idx <= pos[x]))
    && (forall j :: idx <= j < |batch| && For(batch[j], id) ==> exists x :: 0 <= x < |pos| && pos[x] == j)
  }

  /** What processing a datagram yields: id and total are those in its own header. */
  ghost predicate Processed(r: Outcome, out: bytes, m: seq<bytes>, sav: seq<bytes>, idx: nat, cnt: nat, size: nat, room: bool) {
    && idx < |m| && |m[idx]| > HDR
    && var id, total := m[idx][..2], GetU16(m[idx][4..6]);
       if total == 1 then r == Merged && out == m[idx]
       else
         && Counted(m, sav, id, idx, total, cnt, size)
         && (if cnt < total then r == Kept else Ends(r, m, sav, id, idx, total, size, room))
         && (r == Merged ==> out == Glued(m, sav, id, idx, total))
  }

  /** And what it leaves: the batch m becomes m', and of the frames kept sav becomes sav'. */
  ghost predicate UsedUp(r: Outcome, m: seq<bytes>, m': seq<bytes>, left: seq<bytes>, sav: seq<bytes>, sav': seq<bytes>, idx: nat, cnt: nat) {
    && idx < |m| && |m[idx]| > HDR && |left| == |m'| == |m|
    && var id, total := m[idx][..2], GetU16(m[idx][4..6]);
       if total == 1 then m' == m && sav' == sav
       else
         && Stage(m, left, id, idx, total) && (cnt < total ==> left == m)
         && (r == Merged ==> Taken(m, left, id, idx, total) && sav' == sav && m' == left[idx := Glued(m, sav, id, idx, total)])
         && (r == Kept ==>
              && sav' == KeptFrom(sav, left[idx..], id, total)
              && forall i :: 0 <= i < |m| ==> m'[i] == if idx <= i && For(left[i], id) then [] else left[i])
  }

  /** EvMemcachedUdp::process on one received datagram: the outcome Merged means that mhdr[idx] is
      a whole message. */
  method ProcessFrame(merge: EvMemcachedMerge, mhdr: array<bytes>, nmsgs: nat, idx: nat)
    returns (r: Outcome, ghost cnt: nat, ghost size: nat, ghost left: seq<bytes>)
    requires idx < nmsgs <= mhdr.Length && |mhdr[idx]| > HDR
    modifies merge, mhdr
    ensures Processed(r, mhdr[idx], old(mhdr[..nmsgs]), old(merge.sav), idx, cnt, size, nmsgs < mhdr.Length)
    ensures UsedUp(r, old(mhdr[..nmsgs]), mhdr[..nmsgs], left, old(merge.sav), merge.sav, idx, cnt)
  {
    hide Counted, Ends, Glued, Stage, Taken, KeptFrom, For;
    var total := GetU16(mhdr[idx][4..6]);
    left := mhdr[..nmsgs];
    HasFrame(mhdr[idx]);
    if total != 1 {
      r, cnt, size, left := merge.MergeFrames(mhdr, nmsgs, mhdr[idx][..2], idx, total, |mhdr[idx]|);
      if r == Merged { assert mhdr[..nmsgs][idx] == mhdr[idx]; }
    } else {
      r, cnt, size := Merged, 0, 0;
    }
  }

  lemma HasFrame(f: bytes)
    requires |f| > HDR
    ensures For(f, f[..2])
  {
  }

  /** What framing sends for the segments k up to j. */
  function FramedReply(segs: seq<bytes>, k: nat, j: nat, F: nat): (ds: seq<bytes>)
    requires k < j <= |segs| && F > HDR && |Flatten(segs[k..j])| >= HDR
  {
    Framed(Flatten(segs[k..j]), Payloads(segs, Pack(segs, StartOf(k, F), j, F)))
  }

  /** The header of every datagram tells how many there are. */
  lemma TotalField(p: bytes, cs: seq<bytes>, x: nat)
    requires |p| >= HDR && x < |cs| < 65536
    ensures |Framed(p, cs)[x]| >= HDR && GetU16(Framed(p, cs)[x][4..6]) == |cs|
  {
    assert Framed(p, cs)[x] == Head(p, x, |cs|) + Body(cs, x);
    HeadTotal(p, x, |cs|, Body(cs, x));
    hide Framed, Head;
  }

  lemma HeadTotal(p: bytes, x: nat, t: nat, body: bytes)
    requires |p| >= HDR && t < 65536
    ensures GetU16((Head(p, x, t) + body)[4..6]) == t
  {
    assert (Head(p, x, t) + body)[4..6] == PutU16(t);
  }

  lemma TotalIs(batch: seq<bytes>, idx: nat, p: bytes, cs: seq<bytes>, id: bytes, pos: seq<nat>)
    requires |p| >= HDR && |cs| < 65536 && Delivered(batch, idx, Framed(p, cs), id, pos)
    ensures |batch[idx]| > HDR && batch[idx][..2] == id && GetU16(batch[idx][4..6]) == |cs|
  {
    var x :| 0 <= x < |pos| && pos[x] == idx;
    TotalField(p, cs, x);
    hide Framed;
  }

  /** A datagram that is only a header keeps the count below the total. */
  lemma CountIsLow(batch: seq<bytes>, idx: nat, ds: seq<bytes>, id: bytes, pos: seq<nat>, sav: seq<bytes>, x: nat, cnt: nat, size: nat)
    requires Delivered(batch, idx, ds, id, pos) && x < |ds| && |ds[x]| <= HDR
    requires Counted(batch, sav, id, idx, |ds|, cnt, size) && forall y :: 0 <= y < |sav| ==> !For(sav[y], id)
    ensures cnt < |ds|
  {
    MissingIsLow(batch, sav, id, idx, pos, x, cnt, size);
  }

  /** So does one that has not arrived. */
  lemma MissingIsLow(batch: seq<bytes>, sav: seq<bytes>, id: bytes, idx: nat, pos: seq<nat>, x: nat, cnt: nat, size: nat)
    requires idx <= |batch| && x < |pos|
    requires forall j :: idx <= j < |batch| && For(batch[j], id) ==> exists y :: 0 <= y < |pos| && y != x && pos[y] == j
    requires Counted(batch, sav, id, idx, |pos|, cnt, size) && forall y :: 0 <= y < |sav| ==> !For(sav[y], id)
    ensures cnt < |pos|
  {
    var s, m := Positions(pos, idx, x, |pos|), batch[idx..];
    forall j | 0 <= j < |m| && For(m[j], id) ensures j in s {
      assert For(batch[idx + j], id);
      var y :| 0 <= y < |pos| && y != x && pos[y] == idx + j;
    }
    OnesInside(m, id, s);
    SumZero(Ones(sav, id));
  }

  /** Without an empty segment at a boundary the datagrams are the reference ones, and the reply is
      rebuilt. */
  lemma ExactIsRebuilt(p: bytes, F: nat, batch: seq<bytes>, sav: seq<bytes>, idx: nat, pos: seq<nat>,
                       r: Outcome, out: bytes, cnt: nat, size: nat, room: bool)
    requires FreshHeader(p) && |p| > HDR && F > HDR && |Datagrams(p, F)| < 65536
    requires Delivered(batch, idx, Datagrams(p, F), p[..2], pos) && forall y :: 0 <= y < |sav| ==> !For(sav[y], p[..2])
    requires Processed(r, out, batch, sav, idx, cnt, size, room)
    ensures r == Merged && out == p
  {
    var ds, id := Datagrams(p, F), p[..2];
    hide Framed, Chunks, Counted, Ends, Delivered, FreshHeader;
    TotalIs(batch, idx, p, Chunks(p, F, F), id, pos);
    RoundTrip(p, F);
    DeliveredLong(batch, idx, ds, id, pos);
    if |ds| == 1 {
      OneDatagram(p, F);
      assert batch[idx] == p;
    } else {
      DeliveredIsComplete(p, F, batch, sav, idx, pos);
      var length := if room then |batch| + 1 else |batch|;
      CompleteEnds(r, batch, sav, id, idx, ds, pos, cnt, size, length);
    }
  }

  lemma DeliveredLong(batch: seq<bytes>, idx: nat, ds: seq<bytes>, id: bytes, pos: seq<nat>)
    requires Delivered(batch, idx, ds, id, pos) && LongFrames(ds)
    ensures |pos| == |ds| && forall x :: 0 <= x < |pos| ==> idx <= pos[x] < |batch| && batch[pos[x]] == ds[x]
    ensures exists x :: 0 <= x < |ds| && batch[idx] == ds[x]
  {
    var x :| 0 <= x < |pos| && pos[x] == idx;
  }

  lemma OneDatagram(p: bytes, F: nat)
    requires FreshHeader(p) && F > HDR && |Datagrams(p, F)| == 1
    ensures Datagrams(p, F) == [p]
  {
    assert Chunks(p, F, F) == [p];
    hide Chunks;
    FramedWhole(p);
  }

  lemma DeliveredIsComplete(p: bytes, F: nat, batch: seq<bytes>, sav: seq<bytes>, idx: nat, pos: seq<nat>)
    requires FreshHeader(p) && |p| > HDR && F > HDR && 1 < |Datagrams(p, F)| < 65536 && LongFrames(Datagrams(p, F))
    requires Delivered(batch, idx, Datagrams(p, F), p[..2], pos) && forall y :: 0 <= y < |sav| ==> !For(sav[y], p[..2])
    ensures Remaining(batch, sav, p[..2], idx, Datagrams(p, F), pos, 0)
  {
    var ds := Datagrams(p, F);
    hide Datagrams, For, FreshHeader;
    DeliveredLong(batch, idx, ds, p[..2], pos);
    assert forall x :: 0 <= x < |pos| ==> Located(batch, sav, idx, ds[x], x, pos[x]);
    AnyOrderIsComplete(p, F, batch, sav, idx, pos);
  }

  /** Main result on the round trip: what framing sends for a reply is rebuilt from any batch it
      arrives in, byte for byte, if and only if no segment without bytes starts at a datagram
      boundary; otherwise a datagram without payload is never counted. */
  lemma RebuiltIff(segs: seq<bytes>, k: nat, j: nat, F: nat, batch: seq<bytes>, sav: seq<bytes>, idx: nat, pos: seq<nat>,
                   r: Outcome, out: bytes, cnt: nat, size: nat, room: bool)
    requires k < j <= |segs| && F > HDR && FreshHeader(Flatten(segs[k..j])) && |Flatten(segs[k..j])| > HDR
    requires |FramedReply(segs, k, j, F)| < 65536
    requires Delivered(batch, idx, FramedReply(segs, k, j, F), Flatten(segs[k..j])[..2], pos)
    requires forall y :: 0 <= y < |sav| ==> !For(sav[y], Flatten(segs[k..j])[..2])
    requires Processed(r, out, batch, sav, idx, cnt, size, room)
    ensures r == Merged && out == Flatten(segs[k..j]) <==> !EmptyCutFrom(segs, k, k, j, F)
  {
    var p := Flatten(segs[k..j]);
    hide Flatten, Pack, Payloads, Framed, Delivered, Processed, Datagrams, EmptyCutFrom, For;
    ReplyIsExactIff(segs, k, j, F, p);
    if EmptyCutFrom(segs, k, k, j, F) {
      EmptyIsKept(segs, k, j, F, p, batch, sav, idx, pos, r, out, cnt, size, room);
    } else {
      ExactIsRebuilt(p, F, batch, sav, idx, pos, r, out, cnt, size, room);
    }
  }

  lemma EmptyIsKept(segs: seq<bytes>, k: nat, j: nat, F: nat, p: bytes, batch: seq<bytes>, sav: seq<bytes>, idx: nat, pos: seq<nat>,
                    r: Outcome, out: bytes, cnt: nat, size: nat, room: bool)
    requires k < j <= |segs| && F > HDR && p == Flatten(segs[k..j]) && |p| > HDR && EmptyCutFrom(segs, k, k, j, F)
    requires |FramedReply(segs, k, j, F)| < 65536 && Delivered(batch, idx, FramedReply(segs, k, j, F), p[..2], pos)
    requires forall y :: 0 <= y < |sav| ==> !For(sav[y], p[..2])
    requires Processed(r, out, batch, sav, idx, cnt, size, room)
    ensures r == Kept
  {
    var cs := Payloads(segs, Pack(segs, StartOf(k, F), j, F));
    hide Pack, Payloads, EmptyCutFrom, Flatten, Framed, Delivered, Counted, Ends, Glued, For;
    var x := EmptyDatagram(segs, k, j, F, p);
    TotalIs(batch, idx, p, cs, p[..2], pos);
    CountIsLow(batch, idx, Framed(p, cs), p[..2], pos, sav, x, cnt, size);
  }

  lemma EmptyDatagram(segs: seq<bytes>, k: nat, j: nat, F: nat, p: bytes) returns (x: nat)
    requires k < j <= |segs| && F > HDR && |p| >= HDR && EmptyCutFrom(segs, k, k, j, F)
    ensures x < |Payloads(segs, Pack(segs, StartOf(k, F), j, F))|
    ensures |Framed(p, Payloads(segs, Pack(segs, StartOf(k, F), j, F)))[x]| == HDR
  {
    var c := StartOf(k, F);
    hide Pack, Payloads, EmptyCutFrom, EmptyAtCut, Framed;
    assert segs[k..k] == [];
    EmptyAtCutIff(segs, k, c, j, F);
    x := EmptyPayload(segs, c, j, F);
    EmptyBody(p, Payloads(segs, Pack(segs, c, j, F)), x);
  }

  lemma EmptyBody(p: bytes, cs: seq<bytes>, x: nat)
    requires |p| >= HDR && 1 <= x < |cs| && cs[x] == []
    ensures |Framed(p, cs)[x]| == HDR
  {
    assert Framed(p, cs)[x] == Head(p, x, |cs|) + Body(cs, x);
  }

  /** The same through both programs: a batch of replies is framed, and the datagrams ds that
      answer request i with the reply p arrive among others. */
  method FrameAndRebuild(f: MemcachedUdpFraming, i: nat, merge: EvMemcachedMerge, mhdr: array<bytes>, idx: nat,
                         ghost p: bytes, ghost ds: seq<bytes>, ghost pos: seq<nat>) returns (r: Outcome)
    requires Layout(f.segs, f.outIdx, f.nmsgs, f.frameSize)
    requires f.iov == [] && f.outMhdr == [] && f.iovCnt == 0 && f.outNmsgs == 0
    requires i < f.nmsgs && f.outIdx[i] < f.outIdx[i + 1] && p == Flatten(f.segs[f.outIdx[i]..f.outIdx[i + 1]]) && |p| > HDR
    requires ds == Addressed(Replies(f.segs, f.outIdx, f.nmsgs, f.frameSize, f.nmsgs), i) && |ds| < 65536
    requires Delivered(mhdr[..], idx, ds, p[..2], pos) && forall y :: 0 <= y < |merge.sav| ==> !For(merge.sav[y], p[..2])
    modifies f, merge, mhdr
    ensures Addressed(Sent(f.segs, f.iov, f.outMhdr), i) == ds && idx < mhdr.Length
    ensures r == Merged && mhdr[idx] == p <==> !old(CutAtEmpty(f.segs, f.outIdx, f.nmsgs, f.frameSize, i))
  {
    ghost var segs, sav, batch := f.segs, merge.sav, mhdr[..];
    LongFrame(batch, idx, ds, p[..2], pos);
    hide Layout, Replies, Addressed, Sent, Delivered, Flatten, NeedsSplit, For, Processed, UsedUp, CutAtEmpty;
    f.ConstructFrames();
    assert mhdr[..mhdr.Length] == batch;
    ghost var cnt, size, left;
    r, cnt, size, left := ProcessFrame(merge, mhdr, mhdr.Length, idx);
    ReplyRebuiltIff(segs, f.outIdx, f.nmsgs, f.frameSize, i, batch, sav, idx, p, ds, pos, r, mhdr[idx], cnt, size);
  }

  lemma ReplyRebuiltIff(segs: seq<bytes>, idxs: seq<nat>, n: nat, F: nat, i: nat, batch: seq<bytes>, sav: seq<bytes>, idx: nat,
                        p: bytes, ds: seq<bytes>, pos: seq<nat>, r: Outcome, out: bytes, cnt: nat, size: nat)
    requires Layout(segs, idxs, n, F) && i < n && idxs[i] < idxs[i + 1] && p == Flatten(segs[idxs[i]..idxs[i + 1]]) && |p| > HDR
    requires ds == Addressed(Replies(segs, idxs, n, F, n), i) && |ds| < 65536
    requires Delivered(batch, idx, ds, p[..2], pos) && forall y :: 0 <= y < |sav| ==> !For(sav[y], p[..2])
    requires Processed(r, out, batch, sav, idx, cnt, size, false)
    ensures r == Merged && out == p <==> !CutAtEmpty(segs, idxs, n, F, i)
  {
    AnswerIs(segs, idxs, n, F, i);
    AddressedReplies(segs, idxs, n, F, n, i);
    hide Layout, Replies, Addressed, Delivered, Flatten, For, Processed, Framed, Payloads, Pack, FreshHeader, EmptyCutFrom;
    RebuiltIff(segs, idxs[i], idxs[i + 1], F, batch, sav, idx, pos, r, out, cnt, size, false);
  }

  lemma AnswerIs(segs: seq<bytes>, idxs: seq<nat>, n: nat, F: nat, i: nat)
    requires Layout(segs, idxs, n, F) && i < n && idxs[i] < idxs[i + 1]
    ensures F > HDR && idxs[i + 1] <= |segs| && FreshHeader(Flatten(segs[idxs[i]..idxs[i + 1]]))
    ensures Answer(segs, idxs, n, F, i) == FramedReply(segs, idxs[i], idxs[i + 1], F)
  {
    LayoutAt(segs, idxs, n, F, i);
    FreshFlatten(segs, idxs[i], idxs[i + 1]);
    hide Layout, FreshHeader, Framed, Payloads, Pack, Flatten;
  }

  lemma LongFrame(batch: seq<bytes>, idx: nat, ds: seq<bytes>, id: bytes, pos: seq<nat>)
    requires Delivered(batch, idx, ds, id, pos)
    ensures idx < |batch| && |batch[idx]| > HDR
  {
  }
}
