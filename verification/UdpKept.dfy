/** Frames kept from earlier batches (src/ev_memcached.cpp:256-310).  They stay where they are when
    a request is rebuilt from them, and requests are told apart by their ids alone. */
module UdpKept {

  import opened Bytes
  import opened UdpCuts
  import opened UdpMerge
  import opened UdpRoundTrip

  // ---------------------------------------------------------------- frames of another request

  /** What frame f adds to the buffer as number x. */
  function Part(f: bytes, x: nat): bytes
    requires |f| > HDR
  {
    if x == 0 then Reset(f) else f[HDR..]
  }

  /** Frame x is there and has the size that it has in fs. */
  predicate Fitting(m: seq<bytes>, sav: seq<bytes>, id: bytes, idx: nat, fs: seq<bytes>, x: nat)
    requires x < |fs|
  {
    Present(m, sav, id, idx, x) && |FrameAt(m, sav, id, idx, x)| == |fs[x]| > HDR
  }

  predicate AddsTheSame(m: seq<bytes>, sav: seq<bytes>, id: bytes, idx: nat, fs: seq<bytes>, x: nat)
    requires x < |fs| && Fitting(m, sav, id, idx, fs, x)
  {
    Part(FrameAt(m, sav, id, idx, x), x) == Part(fs[x], x)
  }

  lemma OneMorePart(m: seq<bytes>, sav: seq<bytes>, id: bytes, idx: nat, fs: seq<bytes>, y: nat)
    requires y < |fs| && LongFrames(fs) && Fitting(m, sav, id, idx, fs, y)
    requires |Glued(m, sav, id, idx, y)| == |Rejoin(fs, y)| && (y > 0 ==> Glued(m, sav, id, idx, y) != [])
    ensures |Glued(m, sav, id, idx, y + 1)| == |Rejoin(fs, y + 1)| && Glued(m, sav, id, idx, y + 1) != []
    ensures Glued(m, sav, id, idx, y + 1) == Rejoin(fs, y + 1)
      <==> Glued(m, sav, id, idx, y) == Rejoin(fs, y) && AddsTheSame(m, sav, id, idx, fs, y)
  {
    var f, out := FrameAt(m, sav, id, idx, y), Glued(m, sav, id, idx, y);
    GluedMore(m, sav, id, idx, y);
    hide FrameAt, Present, Reset, For, Seqno;
    if y == 0 {
      assert out == [] && Rejoin(fs, 0) == [] && Rejoin(fs, 1) == Reset(fs[0]);
    } else {
      var whole := Rejoin(fs, y);
      assert Rejoin(fs, y + 1) == whole + fs[y][HDR..];
      hide Glued, Rejoin;
      SameConcat(out, whole, f[HDR..], fs[y][HDR..]);
    }
  }

  lemma SameConcat(a: bytes, b: bytes, c: bytes, d: bytes)
    requires |a| == |b|
    ensures a + c == b + d <==> a == b && c == d
  {
    if a + c == b + d {
      assert a == (a + c)[..|a|] && c == (a + c)[|a|..];
      assert b == (b + d)[..|a|] && d == (b + d)[|a|..];
    }
  }

  /** Frames of the same sizes make the same buffer if and only if each of them adds the same. */
  lemma {:induction false} GluedIsRejoinIff(m: seq<bytes>, sav: seq<bytes>, id: bytes, idx: nat, fs: seq<bytes>, n: nat)
    requires n <= |fs| && LongFrames(fs) && forall x :: 0 <= x < n ==> Fitting(m, sav, id, idx, fs, x)
    ensures |Glued(m, sav, id, idx, n)| == |Rejoin(fs, n)| && (n > 0 ==> Glued(m, sav, id, idx, n) != [])
    ensures Glued(m, sav, id, idx, n) == Rejoin(fs, n) <==> forall x :: 0 <= x < n ==> AddsTheSame(m, sav, id, idx, fs, x)
    decreases n
  {
    hide Fitting, AddsTheSame, LongFrames, Glued, Rejoin;
    if n > 0 {
      GluedIsRejoinIff(m, sav, id, idx, fs, n - 1);
      OneMorePart(m, sav, id, idx, fs, n - 1);
    } else {
      NothingGlued(m, sav, id, idx, fs);
    }
  }

  lemma NothingGlued(m: seq<bytes>, sav: seq<bytes>, id: bytes, idx: nat, fs: seq<bytes>)
    requires LongFrames(fs)
    ensures Glued(m, sav, id, idx, 0) == [] && Rejoin(fs, 0) == []
  {
  }

  /** Main result on kept frames: a request of which the batch has some frames, and the kept array
      some of the same sizes for the other numbers, is rebuilt as its own frames joined if and only
      if each of those that were kept adds what the frame of the request would have added. */
  lemma OwnFramesIff(m: seq<bytes>, sav: seq<bytes>, id: bytes, idx: nat, fs: seq<bytes>, size: nat, room: bool)
    requires LongFrames(fs) && Ends(Merged, m, sav, id, idx, |fs|, size, room)
    requires forall x :: 0 <= x < |fs| && Place(m, id, idx, x) < |m| ==> m[Place(m, id, idx, x)] == fs[x]
    requires forall x :: 0 <= x < |fs| && Place(m, id, idx, x) >= |m| && x < |sav| ==> |sav[x]| == |fs[x]|
    ensures Glued(m, sav, id, idx, |fs|) == Rejoin(fs, |fs|) <==>
      forall x :: 0 <= x < |fs| && Place(m, id, idx, x) >= |m| ==> x < |sav| && |sav[x]| > HDR && Part(sav[x], x) == Part(fs[x], x)
  {
    forall x | 0 <= x < |fs|
      ensures Fitting(m, sav, id, idx, fs, x)
      ensures AddsTheSame(m, sav, id, idx, fs, x) <==>
        (Place(m, id, idx, x) >= |m| ==> x < |sav| && |sav[x]| > HDR && Part(sav[x], x) == Part(fs[x], x))
    {
      assert Passes(m, sav, id, idx, x, size, room);
      hide Place, Glued, Part, Seqno, Ends, Reaches;
    }
    GluedIsRejoinIff(m, sav, id, idx, fs, |fs|);
    hide Fitting, AddsTheSame, Ends, Place, Glued, Rejoin, Part;
  }

  // ---------------------------------------------------------------- runs

  /** Frames 0 and 1 of an old request, and frame 0 of a new one with the same id. */
  const OLD0: bytes := [7, 7, 0, 0, 0, 2, 0, 0, 1]
  const OLD1: bytes := [7, 7, 0, 1, 0, 2, 0, 0, 2]
  const NEW0: bytes := [7, 7, 0, 0, 0, 2, 0, 0, 3]

  const ID: bytes := [7, 7]

  lemma Fields()
    ensures For(OLD0, ID) && For(OLD1, ID) && For(NEW0, ID)
    ensures Seqno(OLD0) == 0 && Seqno(OLD1) == 1 && Seqno(NEW0) == 0
    ensures GetU16(OLD0[4..6]) == GetU16(OLD1[4..6]) == GetU16(NEW0[4..6]) == 2
    ensures OLD0[..2] == OLD1[..2] == NEW0[..2] == ID
  {
    assert OLD0[2..4] == [0, 0] && OLD1[2..4] == [0, 1] && NEW0[2..4] == [0, 0];
    assert OLD0[4..6] == OLD1[4..6] == NEW0[4..6] == [0, 2];
  }

  /** The second of two frames arrives alone and is kept. */
  lemma SecondAlone(r: Outcome, m': seq<bytes>, out: bytes, left: seq<bytes>, sav': seq<bytes>, cnt: nat, size: nat, room: bool)
    requires Processed(r, out, [OLD1], [], 0, cnt, size, room) && UsedUp(r, [OLD1], m', left, [], sav', 0, cnt)
    ensures r == Kept && sav' == [[], OLD1]
  {
    Fields();
    var m := [OLD1];
    SumStart(m, ID, 0);
    assert m[0..1] == m[0..] == m;
    SumNothing([], ID);
    KeptOneMore([], m, ID, 2, 0);
    assert m[..1] == m && m[..0] == [];
  }

  /** A first frame and a kept second one: the outcome depends on the slot behind the batch. */
  lemma FirstThen(r: Outcome, f: bytes, m': seq<bytes>, out: bytes, left: seq<bytes>, sav': seq<bytes>, cnt: nat, size: nat, room: bool)
    requires f == OLD0 || f == NEW0
    requires Processed(r, out, [f], [[], OLD1], 0, cnt, size, room) && UsedUp(r, [f], m', left, [[], OLD1], sav', 0, cnt)
    ensures if room then r == Merged && sav' == [[], OLD1] && out == Reset(f) + OLD1[HDR..] else r == Overruns
  {
    Fields();
    var m, sav := [f], [[], OLD1];
    CountFirstThen(f, cnt, size);
    assert Place(m, ID, 0, 0) == 0 && Place(m, ID, 0, 1) == 1;
    assert FrameAt(m, sav, ID, 0, 0) == f && FrameAt(m, sav, ID, 0, 1) == OLD1;
    GluedNone(m, sav, ID, 0);
    GluedMore(m, sav, ID, 0, 0);
    GluedMore(m, sav, ID, 0, 1);
    assert Passes(m, sav, ID, 0, 0, size, room);
    if !room { assert OverrunsAt(m, sav, ID, 0, 1, size, room); }
  }

  lemma CountFirstThen(f: bytes, cnt: nat, size: nat)
    requires (f == OLD0 || f == NEW0) && Counted([f], [[], OLD1], ID, 0, 2, cnt, size)
    ensures cnt == 2 && size == 10
  {
    Fields();
    var m, sav := [f], [[], OLD1];
    SumStart(m, ID, 0);
    assert m[0..1] == m[0..] == m;
    SumNothing(sav, ID);
    SumSlice(sav, ID, 0, 0);
    SumSlice(sav, ID, 0, 1);
    assert sav[0..2] == sav;
  }

  /** The second frame of a request arrives in one batch and the first in the next, each filling the
      array of received messages: taking the kept frame clears a slot behind the array. */
  method LateFrame() returns (first: Outcome, second: Outcome)
    ensures first == Kept && second == Overruns
  {
    hide Processed, UsedUp;
    var merge := new EvMemcachedMerge();
    var mhdr := new bytes[1](_ => OLD1);
    assert mhdr[..1] == [OLD1];
    ghost var cnt, size, left;
    first, cnt, size, left := ProcessFrame(merge, mhdr, 1, 0);
    SecondAlone(first, mhdr[..1], mhdr[0], left, merge.sav, cnt, size, false);
    mhdr[0] := OLD0;
    assert mhdr[..1] == [OLD0];
    ghost var kept := merge.sav;
    second, cnt, size, left := ProcessFrame(merge, mhdr, 1, 0);
    FirstThen(second, OLD0, mhdr[..1], mhdr[0], left, merge.sav, cnt, size, false);
  }

  /** With room for one more message the request is rebuilt, but the kept frame stays: of a later
      request with the same id the first frame alone is taken for the whole of it, and gets the
      payload of the old second frame. */
  method StaleFrame() returns (rebuilt: bytes, mixed: bytes)
    ensures rebuilt == Reset(OLD0) + OLD1[HDR..] && mixed == Reset(NEW0) + OLD1[HDR..]
  {
    hide Processed, UsedUp;
    var merge := new EvMemcachedMerge();
    var mhdr := new bytes[2](_ => OLD1);
    assert mhdr[..1] == [OLD1];
    ghost var cnt, size, left;
    var r;
    r, cnt, size, left := ProcessFrame(merge, mhdr, 1, 0);
    SecondAlone(r, mhdr[..1], mhdr[0], left, merge.sav, cnt, size, true);
    mhdr[0] := OLD0;
    assert mhdr[..1] == [OLD0];
    r, cnt, size, left := ProcessFrame(merge, mhdr, 1, 0);
    FirstThen(r, OLD0, mhdr[..1], mhdr[0], left, merge.sav, cnt, size, true);
    rebuilt := mhdr[0];
    mhdr[0] := NEW0;
    assert mhdr[..1] == [NEW0];
    r, cnt, size, left := ProcessFrame(merge, mhdr, 1, 0);
    FirstThen(r, NEW0, mhdr[..1], mhdr[0], left, merge.sav, cnt, size, true);
    mixed := mhdr[0];
  }
}
