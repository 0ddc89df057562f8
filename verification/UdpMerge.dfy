/** Reassembly of split UDP requests (src/ev_memcached.cpp:216-356, EvMemcachedMerge).

    A request that was split arrives as datagrams in any order, mixed with those of other
    requests.  merge_frames concatenates them in sequence order into one buffer, or keeps
    them for the next batch of received messages.  The outcome of a call is characterised for
    every batch, complete or not. */
module UdpMerge {

  import opened Bytes
  import opened UdpCuts

  /** How a call ends: with the request rebuilt in mhdr[idx]; with the frames kept for later;
      in the search loop that never advances past an absent sequence number; or with the
      store to mhdr[nmsgs] made for a kept frame, when the array has no such element. */
  datatype Outcome = Merged | Kept | Spins | Overruns

  // ---------------------------------------------------------------- frames

  /** The frame has a payload and belongs to the request. */
  predicate For(f: bytes, id: bytes) {
    |f| > HDR && f[..2] == id
  }

  function Seqno(f: bytes): nat
    requires |f| > HDR
  {
    GetU16(f[2..4])
  }

  /** The first frame's buffer with sequence number 0 and total 1. */
  function Reset(f: bytes): (r: bytes)
    requires |f| >= HDR
    ensures |r| == |f|
  {
    f[..2] + PutU16(0) + PutU16(1) + f[6..]
  }

  // ---------------------------------------------------------------- counting frames and bytes

  function Sum(ws: seq<nat>): nat {
    if ws == [] then 0 else ws[0] + Sum(ws[1..])
  }

  function Ones(m: seq<bytes>, id: bytes): (ws: seq<nat>)
    ensures |ws| == |m|
  {
    seq(|m|, i requires 0 <= i < |m| => if For(m[i], id) then 1 else 0)
  }

  function Sizes(m: seq<bytes>, id: bytes): (ws: seq<nat>)
    ensures |ws| == |m|
  {
    seq(|m|, i requires 0 <= i < |m| => if For(m[i], id) then |m[i]| - HDR else 0)
  }

  lemma {:induction false} SumUpdate(ws: seq<nat>, i: nat, v: nat)
    requires i < |ws|
    ensures Sum(ws[i := v]) + ws[i] == Sum(ws) + v
  {
    if i == 0 {
      assert ws[i := v][1..] == ws[1..];
    } else {
      assert ws[i := v][1..] == ws[1..][i - 1 := v];
      SumUpdate(ws[1..], i - 1, v);
    }
  }

  lemma {:induction false} SumSnoc(ws: seq<nat>, w: nat)
    ensures Sum(ws + [w]) == Sum(ws) + w
  {
    if ws == [] {
      assert ws + [w] == [w];
    } else {
      assert (ws + [w])[1..] == ws[1..] + [w];
      SumSnoc(ws[1..], w);
    }
  }

  lemma {:induction false} SumZero(ws: seq<nat>)
    ensures Sum(ws) == 0 <==> forall i :: 0 <= i < |ws| ==> ws[i] == 0
  {
    if ws != [] {
      SumZero(ws[1..]);
      assert (forall i :: 0 <= i < |ws| ==> ws[i] == 0) <==> ws[0] == 0 && forall i :: 0 <= i < |ws[1..]| ==> ws[1..][i] == 0;
    }
  }

  /** Taking a frame out of a list lowers both sums by its share. */
  lemma TakeOut(m: seq<bytes>, id: bytes, i: nat)
    requires i < |m| && For(m[i], id)
    ensures Sum(Ones(m[i := []], id)) + 1 == Sum(Ones(m, id))
    ensures Sum(Sizes(m[i := []], id)) + |m[i]| - HDR == Sum(Sizes(m, id))
  {
    SumUpdate(Ones(m, id), i, 0);
    SumUpdate(Sizes(m, id), i, 0);
    assert Ones(m[i := []], id) == Ones(m, id)[i := 0];
    assert Sizes(m[i := []], id) == Sizes(m, id)[i := 0];
  }

  // ---------------------------------------------------------------- where frames are found

  predicate IsFrame(f: bytes, id: bytes, x: nat) {
    For(f, id) && Seqno(f) == x
  }

  /** The first frame with number x in the batch, from j on; the batch's length if there is none. */
  function Place(m: seq<bytes>, id: bytes, j: nat, x: nat): (p: nat)
    ensures j <= |m| ==> j <= p <= |m|
    ensures p < |m| ==> IsFrame(m[p], id, x)
    ensures forall i :: j <= i < p && i < |m| ==> !IsFrame(m[i], id, x)
    decreases |m| - j
  {
    if j >= |m| then |m| else if IsFrame(m[j], id, x) then j else Place(m, id, j + 1, x)
  }

  /** Frame x is in the batch, or was kept from an earlier one. */
  predicate Present(m: seq<bytes>, sav: seq<bytes>, id: bytes, idx: nat, x: nat) {
    Place(m, id, idx, x) < |m| || (x < |sav| && IsFrame(sav[x], id, x))
  }

  function FrameAt(m: seq<bytes>, sav: seq<bytes>, id: bytes, idx: nat, x: nat): (f: bytes)
    requires Present(m, sav, id, idx, x)
    ensures IsFrame(f, id, x)
  {
    if Place(m, id, idx, x) < |m| then m[Place(m, id, idx, x)] else sav[x]
  }

  /** The buffer with one more frame, of which only the first keeps its header. */
  function Appended(out: bytes, f: bytes): bytes
    requires |f| > HDR
  {
    if out == [] then Reset(f) else out + f[HDR..]
  }

  /** The frames below x in one buffer. */
  function Glued(m: seq<bytes>, sav: seq<bytes>, id: bytes, idx: nat, x: nat): bytes {
    if x == 0 then []
    else
      var out := Glued(m, sav, id, idx, x - 1);
      if Present(m, sav, id, idx, x - 1) then Appended(out, FrameAt(m, sav, id, idx, x - 1)) else out
  }

  /** The loop gets to number x: all frames below it are there and fit the buffer; room says that
      there is a slot behind the batch, which is cleared when a frame that was kept is taken. */
  predicate Reaches(m: seq<bytes>, sav: seq<bytes>, id: bytes, idx: nat, x: nat, size: nat, room: bool) {
    forall y :: 0 <= y < x ==> Passes(m, sav, id, idx, y, size, room)
  }

  predicate Passes(m: seq<bytes>, sav: seq<bytes>, id: bytes, idx: nat, y: nat, size: nat, room: bool) {
    Present(m, sav, id, idx, y) && |Glued(m, sav, id, idx, y + 1)| <= size && (room || Place(m, id, idx, y) < |m|)
  }

  predicate SpinsAt(m: seq<bytes>, sav: seq<bytes>, id: bytes, idx: nat, x: nat, size: nat, room: bool) {
    Reaches(m, sav, id, idx, x, size, room) && !Present(m, sav, id, idx, x)
  }

  predicate OverrunsAt(m: seq<bytes>, sav: seq<bytes>, id: bytes, idx: nat, x: nat, size: nat, room: bool) {
    && Reaches(m, sav, id, idx, x, size, room) && Present(m, sav, id, idx, x)
    && |Glued(m, sav, id, idx, x + 1)| <= size && !room && Place(m, id, idx, x) >= |m|
  }

  /** How the loop over the sequence numbers ends. */
  ghost predicate Ends(r: Outcome, m: seq<bytes>, sav: seq<bytes>, id: bytes, idx: nat, total: nat, size: nat, room: bool) {
    && (r == Spins <==> exists x :: 0 <= x < total && SpinsAt(m, sav, id, idx, x, size, room))
    && (r == Overruns <==> exists x :: 0 <= x < total && OverrunsAt(m, sav, id, idx, x, size, room))
    && (r == Merged <==> 0 < total && Reaches(m, sav, id, idx, total, size, room) && |Glued(m, sav, id, idx, total)| == size)
  }

  /** The loop stops at x, in whatever way: it does not get further, and stops nowhere else. */
  lemma StopsOnce(m: seq<bytes>, sav: seq<bytes>, id: bytes, idx: nat, x: nat, z: nat, size: nat, room: bool)
    requires Reaches(m, sav, id, idx, x, size, room) && !Passes(m, sav, id, idx, x, size, room)
    ensures Reaches(m, sav, id, idx, z, size, room) ==> z <= x
    ensures SpinsAt(m, sav, id, idx, z, size, room) || OverrunsAt(m, sav, id, idx, z, size, room) ==> z == x
  {
    assert z < x ==> Passes(m, sav, id, idx, z, size, room);
    hide Present, Place, Glued;
  }

  lemma EndsSpinning(m: seq<bytes>, sav: seq<bytes>, id: bytes, idx: nat, x: nat, total: nat, size: nat, room: bool)
    requires x < total && SpinsAt(m, sav, id, idx, x, size, room)
    ensures Ends(Spins, m, sav, id, idx, total, size, room)
  {
    hide Present, Place, Glued;
    forall z: nat { StopsOnce(m, sav, id, idx, x, z, size, room); }
  }

  lemma EndsOverrunning(m: seq<bytes>, sav: seq<bytes>, id: bytes, idx: nat, x: nat, total: nat, size: nat, room: bool)
    requires x < total && OverrunsAt(m, sav, id, idx, x, size, room)
    ensures Ends(Overruns, m, sav, id, idx, total, size, room)
  {
    hide Present, Place, Glued;
    forall z: nat { StopsOnce(m, sav, id, idx, x, z, size, room); }
  }

  /** The buffer would be exceeded. */
  lemma EndsExceeding(m: seq<bytes>, sav: seq<bytes>, id: bytes, idx: nat, x: nat, total: nat, size: nat, room: bool)
    requires x < total && Reaches(m, sav, id, idx, x, size, room) && Present(m, sav, id, idx, x)
    requires |Glued(m, sav, id, idx, x + 1)| > size
    ensures Ends(Kept, m, sav, id, idx, total, size, room)
  {
    hide Present, Place, Glued;
    forall z: nat { StopsOnce(m, sav, id, idx, x, z, size, room); }
  }

  lemma EndsAtTotal(m: seq<bytes>, sav: seq<bytes>, id: bytes, idx: nat, total: nat, size: nat, room: bool)
    requires Reaches(m, sav, id, idx, total, size, room)
    ensures Ends(if 0 < total && |Glued(m, sav, id, idx, total)| == size then Merged else Kept, m, sav, id, idx, total, size, room)
  {
    hide Present, Place, Glued;
    assert forall z :: 0 <= z < total ==> Passes(m, sav, id, idx, z, size, room);
    forall z | 0 <= z < total
      ensures !SpinsAt(m, sav, id, idx, z, size, room) && !OverrunsAt(m, sav, id, idx, z, size, room)
    {
      assert Passes(m, sav, id, idx, z, size, room);
    }
  }

  // ---------------------------------------------------------------- the batch while it is used up

  /** Frames of the request with numbers below x may have been dropped, and nothing else. */
  predicate Stage(m0: seq<bytes>, m: seq<bytes>, id: bytes, idx: nat, x: nat) {
    && |m| == |m0|
    && forall i :: 0 <= i < |m| ==> m[i] == m0[i] || (idx <= i && m[i] == [] && For(m0[i], id) && Seqno(m0[i]) < x)
  }

  /** The frames taken from the batch are no longer in it. */
  predicate Taken(m0: seq<bytes>, m: seq<bytes>, id: bytes, idx: nat, x: nat) {
    |m| == |m0| && forall y :: 0 <= y < x ==> var p := Place(m0, id, idx, y); p < |m| ==> m[p] == []
  }

  lemma StageStart(m: seq<bytes>, id: bytes, idx: nat)
    ensures Stage(m, m, id, idx, 0) && Taken(m, m, id, idx, 0)
  {
  }

  /** What the counting loops compute; kept frames are counted only if the batch has too few. */
  predicate Counted(m: seq<bytes>, sav: seq<bytes>, id: bytes, idx: nat, total: nat, cnt: nat, size: nat) {
    && idx <= |m|
    && var n, z := Sum(Ones(m[idx..], id)), Sum(Sizes(m[idx..], id));
       if n < total then cnt == n + Sum(Ones(sav, id)) && size == HDR + z + Sum(Sizes(sav, id))
       else cnt == n && size == HDR + z
  }

  /** The places for kept frames, one for each sequence number. */
  function Resized(sav: seq<bytes>, total: nat): (r: seq<bytes>)
    ensures |r| == total
  {
    seq(total, x requires 0 <= x < total => if x < |sav| then sav[x] else [])
  }

  /** What is kept after a batch whose frames fs were not enough. */
  function KeptFrom(sav: seq<bytes>, fs: seq<bytes>, id: bytes, total: nat): (r: seq<bytes>)
    ensures |r| == total
  {
    if fs == [] then Resized(sav, total)
    else
      var kept, f := KeptFrom(sav, fs[..|fs| - 1], id, total), fs[|fs| - 1];
      if For(f, id) && Seqno(f) < total then kept[Seqno(f) := f] else kept
  }

  /** A frame of the request with number y is kept at y; without one, what was there stays. */
  lemma {:induction false} KeptMeans(sav: seq<bytes>, fs: seq<bytes>, id: bytes, total: nat, y: nat)
    requires y < total
    ensures var r := KeptFrom(sav, fs, id, total)[y];
            if exists f :: f in fs && For(f, id) && Seqno(f) == y then For(r, id) && Seqno(r) == y && r in fs
            else r == if y < |sav| then sav[y] else []
  {
    if fs != [] {
      var n, f := |fs| - 1, fs[|fs| - 1];
      KeptMeans(sav, fs[..n], id, total, y);
      hide Seqno, For;
      assert fs == fs[..n] + [f];
      assert forall g :: g in fs <==> g in fs[..n] || g == f;
    }
  }

  class EvMemcachedMerge {
    /** Frames kept from earlier batches, by sequence number; [] where there is none. */
    var sav: seq<bytes>

    constructor ()
      ensures sav == []
    {
      sav := [];
    }

    /** Rebuilds the request of mhdr[idx] from the batch mhdr[..nmsgs] and the frames kept; `left`
        is the batch as the loop over the sequence numbers leaves it. */
    method MergeFrames(mhdr: array<bytes>, nmsgs: nat, id: bytes, idx: nat, total: nat, size0: nat)
      returns (r: Outcome, ghost cnt: nat, ghost size: nat, ghost left: seq<bytes>)
      requires idx < nmsgs <= mhdr.Length && For(mhdr[idx], id) && size0 == |mhdr[idx]|
      modifies this, mhdr
      ensures Counted(old(mhdr[..nmsgs]), old(sav), id, idx, total, cnt, size)
      ensures if cnt < total then r == Kept && left == old(mhdr[..nmsgs])
              else Ends(r, old(mhdr[..nmsgs]), old(sav), id, idx, total, size, nmsgs < mhdr.Length)
      ensures |left| == nmsgs && Stage(old(mhdr[..nmsgs]), left, id, idx, total)
      ensures r == Merged ==> Taken(old(mhdr[..nmsgs]), left, id, idx, total) && sav == old(sav)
                              && mhdr[..nmsgs] == left[idx := Glued(old(mhdr[..nmsgs]), old(sav), id, idx, total)]
      ensures r == Spins || r == Overruns ==> mhdr[..nmsgs] == left && sav == old(sav)
      ensures r == Kept ==> sav == KeptFrom(old(sav), left[idx..], id, total)
                            && forall i :: 0 <= i < nmsgs ==> mhdr[i] == if idx <= i && For(left[i], id) then [] else left[i]
      ensures forall j :: nmsgs < j < mhdr.Length ==> mhdr[j] == old(mhdr[j])
    {
      hide For, Seqno, Present, Place, Glued, Counted, Ends, Stage, Taken, KeptFrom;
      StageStart(mhdr[..nmsgs], id, idx);
      StageLater(mhdr[..nmsgs], mhdr[..nmsgs], id, idx, 0, total);
      left := mhdr[..nmsgs];
      var c, z := CountFrames(mhdr, nmsgs, id, idx, total, size0);
      cnt, size := c, z;
      if c >= total {
        var buf;
        r, buf := Concatenate(mhdr, nmsgs, id, idx, total, z);
        left := mhdr[..nmsgs];
        if r == Merged {
          mhdr[idx] := buf;
          assert mhdr[..nmsgs] == left[idx := buf];
        }
        if r != Kept { return; }
      }
      assert mhdr[idx..nmsgs] == left[idx..];
      KeepFrames(mhdr, nmsgs, id, idx, total);
      r := Kept;
    }

    /** The loop over the sequence numbers; the outcome Kept means that it was left early. */
    method Concatenate(mhdr: array<bytes>, nmsgs: nat, id: bytes, idx: nat, total: nat, size: nat) returns (r: Outcome, out: bytes)
      requires idx < nmsgs <= mhdr.Length
      modifies mhdr
      ensures Ends(r, old(mhdr[..nmsgs]), sav, id, idx, total, size, nmsgs < mhdr.Length)
      ensures r == Merged ==> out == Glued(old(mhdr[..nmsgs]), sav, id, idx, total)
      ensures r == Merged ==> Taken(old(mhdr[..nmsgs]), mhdr[..nmsgs], id, idx, total)
      ensures Stage(old(mhdr[..nmsgs]), mhdr[..nmsgs], id, idx, total)
      ensures forall j :: nmsgs < j < mhdr.Length ==> mhdr[j] == old(mhdr[j])
    {
      hide For, Seqno, Present, Place, Glued, Ends, Stage, Taken, SpinsAt, OverrunsAt, Reaches;
      ghost var m0, room := mhdr[..nmsgs], nmsgs < mhdr.Length;
      StageStart(m0, id, idx);
      ReachesStart(m0, sav, id, idx, size, room);
      GluedNone(m0, sav, id, idx);
      var seqno := 0;
      out := [];
      while seqno < total
        invariant seqno <= total && out == Glued(m0, sav, id, idx, seqno)
        invariant Reaches(m0, sav, id, idx, seqno, size, room)
        invariant Stage(m0, mhdr[..nmsgs], id, idx, seqno) && Taken(m0, mhdr[..nmsgs], id, idx, seqno)
        invariant seqno == total ==> total == 0 || |out| != size
        invariant forall j :: nmsgs < j < mhdr.Length ==> mhdr[j] == old(mhdr[j])
      {
        r, out := AppendFrame(mhdr, nmsgs, id, idx, seqno, total, out, size, m0);
        if r != Merged {
          return;
        }
        seqno := seqno + 1;
        if seqno == total && |out| == size {
          EndsAtTotal(m0, sav, id, idx, total, size, room);
          return;
        }
      }
      EndsAtTotal(m0, sav, id, idx, total, size, room);
      r := Kept;
    }

    /** One round of that loop; the outcome Merged means that it goes on. */
    method AppendFrame(mhdr: array<bytes>, nmsgs: nat, id: bytes, idx: nat, seqno: nat, ghost total: nat,
                       out0: bytes, size: nat, ghost m0: seq<bytes>) returns (r: Outcome, out: bytes)
      requires idx < nmsgs <= mhdr.Length && seqno < total && out0 == Glued(m0, sav, id, idx, seqno)
      requires Reaches(m0, sav, id, idx, seqno, size, nmsgs < mhdr.Length)
      requires Stage(m0, mhdr[..nmsgs], id, idx, seqno) && Taken(m0, mhdr[..nmsgs], id, idx, seqno)
      modifies mhdr
      ensures Stage(m0, mhdr[..nmsgs], id, idx, if r == Merged then seqno + 1 else total)
      ensures r == Merged ==> Taken(m0, mhdr[..nmsgs], id, idx, seqno + 1)
      ensures r == Merged ==> Reaches(m0, sav, id, idx, seqno + 1, size, nmsgs < mhdr.Length)
      ensures r == Merged ==> out == Glued(m0, sav, id, idx, seqno + 1)
      ensures r != Merged ==> Ends(r, m0, sav, id, idx, total, size, nmsgs < mhdr.Length)
      ensures forall j :: nmsgs < j < mhdr.Length ==> mhdr[j] == old(mhdr[j])
    {
      hide For, Seqno, Place, Glued, Ends, Stage, Taken, Appended, Present, Reaches;
      ghost var room := nmsgs < mhdr.Length;
      var found, j, h := FindFrame(mhdr, nmsgs, id, idx, seqno, m0);
      StageLater(m0, mhdr[..nmsgs], id, idx, seqno + 1, total);
      out := out0;
      if !found {
        EndsSpinning(m0, sav, id, idx, seqno, total, size, room);
        return Spins, out;
      }
      GluedMore(m0, sav, id, idx, seqno);
      if |Appended(out, h)| > size {
        EndsExceeding(m0, sav, id, idx, seqno, total, size, room);
        return Kept, out;
      }
      out := Appended(out, h);
      if j == mhdr.Length {
        EndsOverrunning(m0, sav, id, idx, seqno, total, size, room);
        return Overruns, out;
      }
      ghost var m1 := mhdr[..nmsgs];
      assert j < nmsgs ==> m1[j] == [];
      mhdr[j] := [];
      assert mhdr[..nmsgs] == m1;
      ReachesMore(m0, sav, id, idx, seqno, size, room);
      r := Merged;
    }

    /** The two counting loops. */
    method CountFrames(mhdr: array<bytes>, nmsgs: nat, id: bytes, idx: nat, total: nat, size0: nat)
      returns (cnt: nat, size: nat)
      requires idx < nmsgs <= mhdr.Length && For(mhdr[idx], id) && size0 == |mhdr[idx]|
      ensures Counted(mhdr[..nmsgs], sav, id, idx, total, cnt, size)
    {
      ghost var m := mhdr[..nmsgs];
      hide Sum, Ones, Sizes;
      cnt, size := 1, size0;
      SumStart(m, id, idx);
      var j := idx + 1;
      while j < nmsgs
        invariant idx < j <= nmsgs
        invariant cnt == Sum(Ones(m[idx..j], id)) && size == HDR + Sum(Sizes(m[idx..j], id))
      {
        SumSlice(m, id, idx, j);
        if |mhdr[j]| > HDR {
          if mhdr[j][..2] == id {
            cnt := cnt + 1;
            size := size + |mhdr[j]| - HDR;
          }
        }
        j := j + 1;
      }
      assert m[idx..nmsgs] == m[idx..];
      if cnt < total {
        ghost var n, z := cnt, size;
        SumNothing(sav, id);
        j := 0;
        while j < |sav|
          invariant 0 <= j <= |sav|
          invariant cnt == n + Sum(Ones(sav[0..j], id)) && size == z + Sum(Sizes(sav[0..j], id))
        {
          SumSlice(sav, id, 0, j);
          if |sav[j]| > HDR {
            if sav[j][..2] == id {
              cnt := cnt + 1;
              size := size + |sav[j]| - HDR;
            }
          }
          j := j + 1;
        }
        assert sav[0..|sav|] == sav;
      }
    }

    /** The search for the frame with the next sequence number: in the batch, where frames with
        lower numbers are dropped on the way, then among those kept. */
    method FindFrame(mhdr: array<bytes>, nmsgs: nat, id: bytes, idx: nat, seqno: nat, ghost m0: seq<bytes>)
      returns (found: bool, j: nat, h: bytes)
      requires idx < nmsgs <= mhdr.Length
      requires Stage(m0, mhdr[..nmsgs], id, idx, seqno) && Taken(m0, mhdr[..nmsgs], id, idx, seqno)
      modifies mhdr
      ensures found <==> Present(m0, sav, id, idx, seqno)
      ensures j == Place(m0, id, idx, seqno) <= nmsgs && (found ==> |h| > HDR && h == FrameAt(m0, sav, id, idx, seqno))
      ensures j < nmsgs ==> mhdr[j] == []
      ensures Stage(m0, mhdr[..nmsgs], id, idx, seqno + 1) && Taken(m0, mhdr[..nmsgs], id, idx, seqno + 1)
      ensures forall i :: nmsgs <= i < mhdr.Length ==> mhdr[i] == old(mhdr[i])
    {
      hide Taken, Place, Stage;
      ghost var ma := mhdr[..nmsgs];
      StageLater(m0, ma, id, idx, seqno, seqno + 1);
      StageSize(m0, ma, id, idx, seqno);
      j, found, h := idx, false, [];
      while j < nmsgs
        invariant idx <= j <= nmsgs && !found && |m0| == nmsgs
        invariant forall i :: j <= i < mhdr.Length ==> mhdr[i] == old(mhdr[i])
        invariant forall i :: idx <= i < j ==> !IsFrame(m0[i], id, seqno)
        invariant Stage(m0, mhdr[..nmsgs], id, idx, seqno + 1) && Taken(m0, mhdr[..nmsgs], id, idx, seqno)
      {
        ghost var m := mhdr[..nmsgs];
        assert m[j] == ma[j];
        LookAt(m0, ma, m, id, idx, seqno, j);
        if |mhdr[j]| > HDR && mhdr[j][..2] == id {
          h := mhdr[j];
          if Seqno(h) <= seqno {
            mhdr[j] := [];
            assert mhdr[..nmsgs] == m[j := []];
            if Seqno(h) == seqno {
              found := true;
              break;
            }
          }
        }
        j := j + 1;
      }
      PlaceIs(m0, id, idx, seqno, j);
      if !found && seqno < |sav| {
        if For(sav[seqno], id) && Seqno(sav[seqno]) == seqno {
          found, h := true, sav[seqno];
        }
      }
      TakenMore(m0, mhdr[..nmsgs], id, idx, seqno);
    }

    /** Keeps the request's frames of this batch, one for each sequence number. */
    method KeepFrames(mhdr: array<bytes>, nmsgs: nat, id: bytes, idx: nat, total: nat)
      requires idx < nmsgs <= mhdr.Length
      modifies this, mhdr
      ensures forall i :: 0 <= i < mhdr.Length && (i < idx || i >= nmsgs) ==> mhdr[i] == old(mhdr[i])
      ensures forall i :: idx <= i < nmsgs ==> mhdr[i] == if For(old(mhdr[i]), id) then [] else old(mhdr[i])
      ensures sav == KeptFrom(old(sav), old(mhdr[idx..nmsgs]), id, total)
    {
      hide KeptFrom;
      ghost var fs := mhdr[idx..nmsgs];
      KeptNone(sav, id, total);
      sav := Resized(sav, total);
      var j := idx;
      assert fs[..0] == [];
      while j < nmsgs
        invariant idx <= j <= nmsgs && sav == KeptFrom(old(sav), fs[..j - idx], id, total)
        invariant forall i :: 0 <= i < mhdr.Length && (i < idx || i >= j) ==> mhdr[i] == old(mhdr[i])
        invariant forall i :: idx <= i < j ==> mhdr[i] == if For(old(mhdr[i]), id) then [] else old(mhdr[i])
      {
        assert fs[j - idx] == mhdr[j];
        KeptOneMore(old(sav), fs, id, total, j - idx);
        if |mhdr[j]| > HDR && mhdr[j][..2] == id {
          var h := mhdr[j];
          mhdr[j] := [];
          if Seqno(h) < total {
            sav := sav[Seqno(h) := h];
          }
        }
        j := j + 1;
      }
      assert fs[..nmsgs - idx] == fs;
    }
  }

  lemma KeptNone(sav: seq<bytes>, id: bytes, total: nat)
    ensures KeptFrom(sav, [], id, total) == Resized(sav, total)
  {
  }

  lemma KeptOneMore(sav: seq<bytes>, fs: seq<bytes>, id: bytes, total: nat, n: nat)
    requires n < |fs|
    ensures KeptFrom(sav, fs[..n + 1], id, total) ==
      var kept := KeptFrom(sav, fs[..n], id, total);
      if For(fs[n], id) && Seqno(fs[n]) < total then kept[Seqno(fs[n]) := fs[n]] else kept
  {
    assert fs[..n + 1][..n] == fs[..n];
  }

  lemma SumNothing(m: seq<bytes>, id: bytes)
    ensures Sum(Ones(m[0..0], id)) == Sum(Sizes(m[0..0], id)) == 0
  {
    assert Ones(m[0..0], id) == [] && Sizes(m[0..0], id) == [];
    SumEmpty();
  }

  lemma SumEmpty()
    ensures Sum([]) == 0
  {
  }

  lemma SumStart(m: seq<bytes>, id: bytes, i: nat)
    requires i < |m| && For(m[i], id)
    ensures Sum(Ones(m[i..i + 1], id)) == 1 && Sum(Sizes(m[i..i + 1], id)) == |m[i]| - HDR
  {
    SumSlice(m, id, i, i);
    assert Ones(m[i..i], id) == [] && Sizes(m[i..i], id) == [];
    SumEmpty();
  }

  lemma SumSlice(m: seq<bytes>, id: bytes, i: nat, j: nat)
    requires i <= j < |m|
    ensures Sum(Ones(m[i..j + 1], id)) == Sum(Ones(m[i..j], id)) + if For(m[j], id) then 1 else 0
    ensures Sum(Sizes(m[i..j + 1], id)) == Sum(Sizes(m[i..j], id)) + if For(m[j], id) then |m[j]| - HDR else 0
  {
    SumSnoc(Ones(m[i..j], id), if For(m[j], id) then 1 else 0);
    SumSnoc(Sizes(m[i..j], id), if For(m[j], id) then |m[j]| - HDR else 0);
    assert m[i..j + 1] == m[i..j] + [m[j]];
    hide For, Sum;
    assert Ones(m[i..j + 1], id) == Ones(m[i..j], id) + [if For(m[j], id) then 1 else 0];
    assert Sizes(m[i..j + 1], id) == Sizes(m[i..j], id) + [if For(m[j], id) then |m[j]| - HDR else 0];
  }

  lemma StageLater(m0: seq<bytes>, m: seq<bytes>, id: bytes, idx: nat, x: nat, y: nat)
    requires Stage(m0, m, id, idx, x) && x <= y
    ensures Stage(m0, m, id, idx, y)
  {
  }

  lemma ReachesStart(m: seq<bytes>, sav: seq<bytes>, id: bytes, idx: nat, size: nat, room: bool)
    ensures Reaches(m, sav, id, idx, 0, size, room)
  {
  }

  lemma ReachesMore(m: seq<bytes>, sav: seq<bytes>, id: bytes, idx: nat, x: nat, size: nat, room: bool)
    requires Reaches(m, sav, id, idx, x, size, room) && Present(m, sav, id, idx, x)
    requires |Glued(m, sav, id, idx, x + 1)| <= size && (room || Place(m, id, idx, x) < |m|)
    ensures Reaches(m, sav, id, idx, x + 1, size, room)
  {
    hide Present, Place, Glued;
  }

  lemma GluedNone(m: seq<bytes>, sav: seq<bytes>, id: bytes, idx: nat)
    ensures Glued(m, sav, id, idx, 0) == []
  {
  }

  lemma GluedMore(m: seq<bytes>, sav: seq<bytes>, id: bytes, idx: nat, x: nat)
    requires Present(m, sav, id, idx, x)
    ensures Glued(m, sav, id, idx, x + 1) == Appended(Glued(m, sav, id, idx, x), FrameAt(m, sav, id, idx, x))
  {
  }

  lemma StageSize(m0: seq<bytes>, m: seq<bytes>, id: bytes, idx: nat, x: nat)
    requires Stage(m0, m, id, idx, x)
    ensures |m| == |m0|
  {
  }

  /** What a slot holds that the search has not reached yet, and what dropping it means. */
  lemma LookAt(m0: seq<bytes>, ma: seq<bytes>, m: seq<bytes>, id: bytes, idx: nat, x: nat, j: nat)
    requires Stage(m0, ma, id, idx, x) && Stage(m0, m, id, idx, x + 1) && Taken(m0, m, id, idx, x)
    requires idx <= j < |m| && m[j] == ma[j]
    ensures IsFrame(m[j], id, x) <==> IsFrame(m0[j], id, x)
    ensures IsFrame(m0[j], id, x) ==> m[j] == m0[j]
    ensures For(m[j], id) && Seqno(m[j]) <= x ==> Stage(m0, m[j := []], id, idx, x + 1) && Taken(m0, m[j := []], id, idx, x)
  {
    hide Place, Seqno;
  }

  lemma PlaceIs(m: seq<bytes>, id: bytes, idx: nat, x: nat, j: nat)
    requires idx <= j <= |m| && (j < |m| ==> IsFrame(m[j], id, x)) && forall i :: idx <= i < j ==> !IsFrame(m[i], id, x)
    ensures Place(m, id, idx, x) == j
  {
    hide IsFrame;
  }

  lemma TakenMore(m0: seq<bytes>, m: seq<bytes>, id: bytes, idx: nat, x: nat)
    requires Taken(m0, m, id, idx, x) && (Place(m0, id, idx, x) < |m| ==> m[Place(m0, id, idx, x)] == [])
    ensures Taken(m0, m, id, idx, x + 1)
  {
    hide Place;
  }
}
