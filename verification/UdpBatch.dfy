/** The loop over a received batch (src/ev_memcached.cpp:359-413): several requests in one batch,
    each of them whole, split, or split with datagrams missing. */
module UdpBatch {

  import opened Bytes
  import opened UdpCuts
  import opened UdpMerge
  import opened UdpFraming
  import opened UdpRoundTrip

  // ---------------------------------------------------------------- what arrives

  /** A request and where its datagrams have arrived; the length of the batch stands for nowhere. */
  datatype Arrival = Arrival(p: bytes, pos: seq<nat>)

  ghost predicate Arrives(b: seq<bytes>, id: bytes, a: Arrival, F: nat)
    requires F > HDR
  {
    && FreshHeader(a.p) && |a.p| > HDR && a.p[..2] == id && |a.pos| == |Datagrams(a.p, F)| < 65536
    && forall x :: 0 <= x < |a.pos| ==> a.pos[x] <= |b| && (a.pos[x] < |b| ==> b[a.pos[x]] == Datagrams(a.p, F)[x])
  }

  /** The batch consists of datagrams of requests with different ids, each at most once. */
  ghost predicate Mixed(b: seq<bytes>, reqs: map<bytes, Arrival>, F: nat) {
    && F > HDR && (forall id :: id in reqs ==> Arrives(b, id, reqs[id], F))
    && forall j :: 0 <= j < |b| && |b[j]| > HDR ==>
         b[j][..2] in reqs && exists x :: 0 <= x < |reqs[b[j][..2]].pos| && reqs[b[j][..2]].pos[x] == j
  }

  predicate Complete(a: Arrival, n: nat) {
    forall x :: 0 <= x < |a.pos| ==> a.pos[x] < n
  }

  ghost predicate Seen(b: seq<bytes>, id: bytes, i: nat) {
    exists j :: 0 <= j < i && j < |b| && For(b[j], id)
  }

  /** Datagram j is the first one of its request. */
  ghost predicate First(b: seq<bytes>, j: nat)
    requires j < |b|
  {
    |b[j]| > HDR && !Seen(b, b[j][..2], j)
  }

  /** The requests delivered by the time that n datagrams have been looked at: those that are
      complete, in the order in which their first datagrams have arrived. */
  ghost function Deliveries(b: seq<bytes>, reqs: map<bytes, Arrival>, n: nat): seq<bytes>
    requires n <= |b|
  {
    if n == 0 then []
    else
      var out := Deliveries(b, reqs, n - 1);
      if First(b, n - 1) && b[n - 1][..2] in reqs && Complete(reqs[b[n - 1][..2]], |b|) then
        out + [reqs[b[n - 1][..2]].p]
      else out
  }

  /** The frames kept by then, in the same order. */
  ghost function KeptAfter(b: seq<bytes>, sav: seq<bytes>, reqs: map<bytes, Arrival>, n: nat): seq<bytes>
    requires n <= |b|
  {
    if n == 0 then sav
    else
      var kept := KeptAfter(b, sav, reqs, n - 1);
      if First(b, n - 1) && b[n - 1][..2] in reqs && !Complete(reqs[b[n - 1][..2]], |b|) then
        KeptFrom(kept, b, b[n - 1][..2], |reqs[b[n - 1][..2]].pos|)
      else kept
  }

  // ---------------------------------------------------------------- while the loop is at i

  /** The requests seen so far are no longer in the batch, the others are untouched. */
  ghost predicate LeftAt(b: seq<bytes>, m: seq<bytes>, i: nat) {
    && |m| == |b|
    && forall j :: i <= j < |b| ==> m[j] == if |b[j]| > HDR && Seen(b, b[j][..2], i) then [] else b[j]
  }

  /** Only frames of requests seen so far are kept for the requests of the batch. */
  ghost predicate SavOk(b: seq<bytes>, sav: seq<bytes>, reqs: map<bytes, Arrival>, i: nat) {
    forall y :: 0 <= y < |sav| && |sav[y]| > HDR && sav[y][..2] in reqs ==> Seen(b, sav[y][..2], i)
  }

  lemma SeenMore(b: seq<bytes>, id: bytes, i: nat)
    requires i < |b|
    ensures Seen(b, id, i + 1) <==> Seen(b, id, i) || For(b[i], id)
  {
  }

  lemma FreshAt(b: seq<bytes>, m: seq<bytes>, i: nat)
    requires LeftAt(b, m, i) && i < |b|
    ensures |m[i]| > HDR <==> First(b, i)
    ensures |m[i]| > HDR ==> m[i] == b[i]
  {
    hide Seen;
  }

  /** Of a request not seen so far everything is still there. */
  lemma LeftFrames(b: seq<bytes>, m: seq<bytes>, i: nat, id: bytes, j: nat)
    requires LeftAt(b, m, i) && !Seen(b, id, i) && i <= j < |b|
    ensures (For(m[j], id) <==> For(b[j], id)) && (For(b[j], id) ==> m[j] == b[j])
  {
    hide Seen;
  }

  lemma Unkept(b: seq<bytes>, sav: seq<bytes>, reqs: map<bytes, Arrival>, i: nat, id: bytes)
    requires SavOk(b, sav, reqs, i) && id in reqs && !Seen(b, id, i)
    ensures forall y :: 0 <= y < |sav| ==> !For(sav[y], id)
  {
    hide Seen;
  }

  /** The frames of a request that have arrived. */
  lemma ArrivedFrames(b: seq<bytes>, reqs: map<bytes, Arrival>, F: nat, id: bytes, x: nat)
    requires Mixed(b, reqs, F) && id in reqs && x < |reqs[id].pos|
    ensures (exists f :: f in b && IsFrame(f, id, x)) <==> reqs[id].pos[x] < |b|
    ensures forall f :: f in b && IsFrame(f, id, x) ==> f == Datagrams(reqs[id].p, F)[x]
  {
    var a := reqs[id];
    var ds := Datagrams(a.p, F);
    DatagramsAreFrames(a.p, F, x);
    hide Datagrams, Seqno, FreshHeader;
    if a.pos[x] < |b| { assert b[a.pos[x]] in b; }
    forall f | f in b && IsFrame(f, id, x) ensures f == ds[x] && a.pos[x] < |b| {
      var j :| 0 <= j < |b| && b[j] == f;
      var y :| 0 <= y < |a.pos| && a.pos[y] == j;
      DatagramsAreFrames(a.p, F, y);
    }
  }

  /** The request of datagram i, one of its frames, says how many there are. */
  lemma FirstFacts(b: seq<bytes>, reqs: map<bytes, Arrival>, F: nat, i: nat)
    requires Mixed(b, reqs, F) && i < |b| && |b[i]| > HDR
    ensures var id := b[i][..2]; id in reqs && GetU16(b[i][4..6]) == |reqs[id].pos|
    ensures |reqs[b[i][..2]].pos| == 1 ==> Complete(reqs[b[i][..2]], |b|)
  {
    var a := reqs[b[i][..2]];
    var x :| 0 <= x < |a.pos| && a.pos[x] == i;
    TotalField(a.p, Chunks(a.p, F, F), x);
    hide Framed, Chunks, FreshHeader;
  }

  lemma CompleteIsDelivered(b: seq<bytes>, m: seq<bytes>, reqs: map<bytes, Arrival>, F: nat, i: nat)
    requires Mixed(b, reqs, F) && LeftAt(b, m, i) && i < |b| && First(b, i)
    requires b[i][..2] in reqs && Complete(reqs[b[i][..2]], |b|)
    ensures var id := b[i][..2]; Delivered(m, i, Datagrams(reqs[id].p, F), id, reqs[id].pos)
  {
    var id := b[i][..2];
    var a := reqs[id];
    var ds := Datagrams(a.p, F);
    FreshAt(b, m, i);
    RoundTrip(a.p, F);
    hide Datagrams, FreshHeader, LeftAt;
    forall x | 0 <= x < |a.pos| ensures i <= a.pos[x] < |m| && m[a.pos[x]] == ds[x] {
      DatagramIsFor(a.p, F, x);
      assert For(b[a.pos[x]], id);
      LeftFrames(b, m, i, id, a.pos[x]);
    }
    forall j | i <= j < |m| && For(m[j], id) ensures exists x :: 0 <= x < |a.pos| && a.pos[x] == j {
      LeftFrames(b, m, i, id, j);
    }
  }

  lemma DatagramIsFor(p: bytes, F: nat, x: nat)
    requires FreshHeader(p) && |p| > HDR && F > HDR && x < |Datagrams(p, F)| < 65536
    ensures For(Datagrams(p, F)[x], p[..2])
  {
    DatagramsAreFrames(p, F, x);
  }

  /** Keeping what is left of a request is keeping what has arrived of it. */
  lemma KeptSame(b: seq<bytes>, m: seq<bytes>, sav: seq<bytes>, reqs: map<bytes, Arrival>, F: nat, i: nat, id: bytes)
    requires Mixed(b, reqs, F) && LeftAt(b, m, i) && i <= |b| && !Seen(b, id, i) && id in reqs
    ensures KeptFrom(sav, m[i..], id, |reqs[id].pos|) == KeptFrom(sav, b, id, |reqs[id].pos|)
  {
    var t := |reqs[id].pos|;
    SameFrames(b, m, i, id);
    hide KeptFrom, Mixed, LeftAt, Seen, Seqno, For, Datagrams;
    forall y | 0 <= y < t ensures KeptFrom(sav, m[i..], id, t)[y] == KeptFrom(sav, b, id, t)[y] {
      FramesAreLong(b, reqs, F, id);
      ArrivedFrames(b, reqs, F, id, y);
      KeptAlike(sav, m[i..], b, id, t, y, Datagrams(reqs[id].p, F)[y]);
    }
  }

  lemma FramesAreLong(b: seq<bytes>, reqs: map<bytes, Arrival>, F: nat, id: bytes)
    requires Mixed(b, reqs, F) && id in reqs
    ensures F > HDR && |reqs[id].p| > HDR && |Datagrams(reqs[id].p, F)| == |reqs[id].pos|
  {
    hide Datagrams;
  }

  lemma KeptAlike(sav: seq<bytes>, fs: seq<bytes>, gs: seq<bytes>, id: bytes, t: nat, y: nat, d: bytes)
    requires y < t && forall f :: For(f, id) ==> (f in fs <==> f in gs)
    requires forall f :: f in gs && IsFrame(f, id, y) ==> f == d
    ensures KeptFrom(sav, fs, id, t)[y] == KeptFrom(sav, gs, id, t)[y]
  {
    hide KeptFrom, For, Seqno;
    KeptMeans(sav, fs, id, t, y);
    KeptMeans(sav, gs, id, t, y);
  }

  lemma SameFrames(b: seq<bytes>, m: seq<bytes>, i: nat, id: bytes)
    requires LeftAt(b, m, i) && i <= |b| && !Seen(b, id, i)
    ensures forall f :: For(f, id) ==> (f in m[i..] <==> f in b)
  {
    forall f | For(f, id) ensures f in m[i..] <==> f in b {
      if f in m[i..] {
        var j :| 0 <= j < |m[i..]| && m[i..][j] == f;
        LeftFrames(b, m, i, id, i + j);
      }
      if f in b {
        var j :| 0 <= j < |b| && b[j] == f;
        LeftFrames(b, m, i, id, j);
        assert m[i..][j - i] == f;
      }
    }
  }

  // ---------------------------------------------------------------- one step of the loop

  /** The step drops the request of datagram i from the batch. */
  lemma LeftMore(b: seq<bytes>, m: seq<bytes>, m': seq<bytes>, i: nat)
    requires LeftAt(b, m, i) && i < |b| && First(b, i) && |m'| == |m|
    requires forall j :: i < j < |b| ==> m'[j] == if For(m[j], b[i][..2]) then [] else m[j]
    ensures LeftAt(b, m', i + 1)
  {
    var id := b[i][..2];
    forall j | i + 1 <= j < |b| ensures m'[j] == if |b[j]| > HDR && Seen(b, b[j][..2], i + 1) then [] else b[j] {
      LeftFrames(b, m, i, id, j);
      if |b[j]| > HDR { SeenMore(b, b[j][..2], i); }
      hide Seen;
    }
  }

  lemma SavMore(b: seq<bytes>, m: seq<bytes>, sav: seq<bytes>, reqs: map<bytes, Arrival>, i: nat, t: nat)
    requires i < |b| && |b[i]| > HDR && SavOk(b, sav, reqs, i)
    ensures SavOk(b, sav, reqs, i + 1)
    ensures SavOk(b, KeptFrom(sav, m, b[i][..2], t), reqs, i + 1)
  {
    var id, kept := b[i][..2], KeptFrom(sav, m, b[i][..2], t);
    SeenMore(b, id, i);
    forall y | 0 <= y < |sav| && |sav[y]| > HDR && sav[y][..2] in reqs ensures Seen(b, sav[y][..2], i + 1) {
      SeenMore(b, sav[y][..2], i);
    }
    forall y | 0 <= y < |kept| && |kept[y]| > HDR && kept[y][..2] in reqs ensures Seen(b, kept[y][..2], i + 1) {
      KeptMeans(sav, m, id, t, y);
      hide Seen, KeptFrom, Seqno;
    }
  }

  /** Main step: a datagram that is still there is the first one of its request, which is delivered
      if it is complete and kept if it is not. */
  lemma BatchStep(b: seq<bytes>, m: seq<bytes>, m': seq<bytes>, left: seq<bytes>, sav: seq<bytes>, sav': seq<bytes>,
                  reqs: map<bytes, Arrival>, F: nat, i: nat, r: Outcome, out: bytes, cnt: nat, size: nat, room: bool)
    requires Mixed(b, reqs, F) && LeftAt(b, m, i) && SavOk(b, sav, reqs, i) && i < |b| && |m[i]| > HDR
    requires Processed(r, out, m, sav, i, cnt, size, room) && UsedUp(r, m, m', left, sav, sav', i, cnt)
    ensures First(b, i) && b[i][..2] in reqs
    ensures var id := b[i][..2];
            if Complete(reqs[id], |b|) then r == Merged && out == reqs[id].p && sav' == sav
            else r == Kept && sav' == KeptFrom(sav, b, id, |reqs[id].pos|)
    ensures LeftAt(b, m', i + 1) && SavOk(b, sav', reqs, i + 1)
  {
    var id := b[i][..2];
    hide Mixed, LeftAt, SavOk, Complete, Processed, UsedUp, KeptFrom, First;
    FreshAt(b, m, i);
    FirstIsLong(b, i);
    FirstFacts(b, reqs, F, i);
    SavMore(b, b, sav, reqs, i, |reqs[id].pos|);
    if Complete(reqs[id], |b|) {
      StepComplete(b, m, m', left, sav, sav', reqs, F, i, r, out, cnt, size, room);
    } else {
      StepIncomplete(b, m, m', left, sav, sav', reqs, F, i, r, out, cnt, size, room);
    }
    LeftMore(b, m, m', i);
  }

  lemma FirstIsLong(b: seq<bytes>, i: nat)
    requires i < |b| && First(b, i)
    ensures |b[i]| > HDR && !Seen(b, b[i][..2], i)
  {
  }

  lemma StepComplete(b: seq<bytes>, m: seq<bytes>, m': seq<bytes>, left: seq<bytes>, sav: seq<bytes>, sav': seq<bytes>,
                     reqs: map<bytes, Arrival>, F: nat, i: nat, r: Outcome, out: bytes, cnt: nat, size: nat, room: bool)
    requires Mixed(b, reqs, F) && LeftAt(b, m, i) && SavOk(b, sav, reqs, i) && i < |b| && First(b, i) && m[i] == b[i]
    requires b[i][..2] in reqs && Complete(reqs[b[i][..2]], |b|) && GetU16(b[i][4..6]) == |reqs[b[i][..2]].pos|
    requires Processed(r, out, m, sav, i, cnt, size, room) && UsedUp(r, m, m', left, sav, sav', i, cnt)
    ensures r == Merged && out == reqs[b[i][..2]].p && sav' == sav && |m'| == |m|
    ensures forall j :: i < j < |b| ==> m'[j] == if For(m[j], b[i][..2]) then [] else m[j]
  {
    var id := b[i][..2];
    var a := reqs[id];
    assert Arrives(b, id, a, F);
    var ds := Datagrams(a.p, F);
    FirstIsLong(b, i);
    Unkept(b, sav, reqs, i, id);
    CompleteIsDelivered(b, m, reqs, F, i);
    RoundTrip(a.p, F);
    hide Mixed, LeftAt, SavOk, Complete, First, Delivered, Datagrams, FreshHeader, Counted, Ends, Stage, Taken, Glued, KeptFrom, For, Processed;
    ExactIsRebuilt(a.p, F, m, sav, i, a.pos, r, out, cnt, size, room);
    if |ds| == 1 {
      OneLeft(m, i, ds, id, a.pos);
    } else {
      DeliveredIsComplete(a.p, F, m, sav, i, a.pos);
      forall j | i < j < |m| ensures left[j] == if For(m[j], id) then [] else m[j] {
        CompleteDrops(m, left, sav, id, i, ds, a.pos, j);
      }
    }
  }

  lemma OneLeft(m: seq<bytes>, i: nat, ds: seq<bytes>, id: bytes, pos: seq<nat>)
    requires Delivered(m, i, ds, id, pos) && |ds| == 1
    ensures forall j :: i < j < |m| ==> !For(m[j], id)
  {
  }

  lemma StepIncomplete(b: seq<bytes>, m: seq<bytes>, m': seq<bytes>, left: seq<bytes>, sav: seq<bytes>, sav': seq<bytes>,
                       reqs: map<bytes, Arrival>, F: nat, i: nat, r: Outcome, out: bytes, cnt: nat, size: nat, room: bool)
    requires Mixed(b, reqs, F) && LeftAt(b, m, i) && SavOk(b, sav, reqs, i) && i < |b| && First(b, i) && m[i] == b[i]
    requires b[i][..2] in reqs && !Complete(reqs[b[i][..2]], |b|)
    requires GetU16(b[i][4..6]) == |reqs[b[i][..2]].pos| != 1
    requires Processed(r, out, m, sav, i, cnt, size, room) && UsedUp(r, m, m', left, sav, sav', i, cnt)
    ensures r == Kept && sav' == KeptFrom(sav, b, b[i][..2], |reqs[b[i][..2]].pos|) && |m'| == |m|
    ensures forall j :: i < j < |b| ==> m'[j] == if For(m[j], b[i][..2]) then [] else m[j]
  {
    var id := b[i][..2];
    var a := reqs[id];
    var x :| 0 <= x < |a.pos| && a.pos[x] >= |b|;
    FirstIsLong(b, i);
    Unkept(b, sav, reqs, i, id);
    KeptSame(b, m, sav, reqs, F, i, id);
    forall j | i <= j < |m| && For(m[j], id) ensures exists y :: 0 <= y < |a.pos| && y != x && a.pos[y] == j {
      LeftFrames(b, m, i, id, j);
      var y :| 0 <= y < |a.pos| && a.pos[y] == j;
    }
    hide Mixed, LeftAt, SavOk, Complete, First, Counted, Ends, Stage, Taken, Glued, KeptFrom, For;
    MissingIsLow(m, sav, id, i, a.pos, x, cnt, size);
  }

  /** A datagram whose request has been handled, or without payload. */
  lemma NothingToDo(b: seq<bytes>, m: seq<bytes>, sav: seq<bytes>, reqs: map<bytes, Arrival>, i: nat)
    requires LeftAt(b, m, i) && SavOk(b, sav, reqs, i) && i < |b| && |m[i]| <= HDR
    ensures !First(b, i) && LeftAt(b, m, i + 1) && SavOk(b, sav, reqs, i + 1)
  {
    FreshAt(b, m, i);
    forall id ensures Seen(b, id, i + 1) <==> Seen(b, id, i) {
      SeenMore(b, id, i);
      if For(b[i], id) { assert |b[i]| > HDR && b[i][..2] == id; }
    }
    hide Seen;
  }

  // ---------------------------------------------------------------- the loop

  /** Where the loop stands before it looks at datagram i. */
  ghost predicate Stands(b: seq<bytes>, sav0: seq<bytes>, reqs: map<bytes, Arrival>, i: nat, m: seq<bytes>, sav: seq<bytes>, out: seq<bytes>) {
    && i <= |b| && LeftAt(b, m, i) && SavOk(b, sav, reqs, i)
    && out == Deliveries(b, reqs, i) && sav == KeptAfter(b, sav0, reqs, i)
  }

  lemma StandsStart(b: seq<bytes>, sav: seq<bytes>, reqs: map<bytes, Arrival>)
    requires SavOk(b, sav, reqs, 0)
    ensures Stands(b, sav, reqs, 0, b, sav, [])
  {
    hide LeftAt, SavOk, Deliveries, KeptAfter;
    StartBatch(b, sav, reqs);
  }

  lemma StandsAfter(b: seq<bytes>, sav0: seq<bytes>, reqs: map<bytes, Arrival>, F: nat, i: nat,
                    m: seq<bytes>, m': seq<bytes>, left: seq<bytes>, sav: seq<bytes>, sav': seq<bytes>, out: seq<bytes>,
                    r: Outcome, p: bytes, cnt: nat, size: nat, room: bool)
    requires Mixed(b, reqs, F) && Stands(b, sav0, reqs, i, m, sav, out) && i < |b| && |m| == |b| && |m[i]| > HDR
    requires Processed(r, p, m, sav, i, cnt, size, room) && UsedUp(r, m, m', left, sav, sav', i, cnt)
    ensures r == Merged || r == Kept
    ensures Stands(b, sav0, reqs, i + 1, m', sav', if r == Merged then out + [p] else out)
  {
    hide Mixed, LeftAt, SavOk, Complete, First, Processed, UsedUp, KeptFrom, Deliveries, KeptAfter;
    BatchStep(b, m, m', left, sav, sav', reqs, F, i, r, p, cnt, size, room);
    FirstOrNot(b, i);
    BatchMore(b, sav0, reqs, i);
  }

  lemma StandsStill(b: seq<bytes>, sav0: seq<bytes>, reqs: map<bytes, Arrival>, i: nat, m: seq<bytes>, sav: seq<bytes>, out: seq<bytes>)
    requires Stands(b, sav0, reqs, i, m, sav, out) && i < |b| && |m| == |b| && |m[i]| <= HDR
    ensures Stands(b, sav0, reqs, i + 1, m, sav, out)
  {
    hide LeftAt, SavOk, First, Deliveries, KeptAfter;
    NothingToDo(b, m, sav, reqs, i);
    BatchMore(b, sav0, reqs, i);
  }

  lemma StandsEnd(b: seq<bytes>, sav0: seq<bytes>, reqs: map<bytes, Arrival>, m: seq<bytes>, sav: seq<bytes>, out: seq<bytes>)
    requires Stands(b, sav0, reqs, |b|, m, sav, out)
    ensures out == Deliveries(b, reqs, |b|) && sav == KeptAfter(b, sav0, reqs, |b|)
  {
  }

  /** EvMemcachedUdp::process: done unless a search never ends or the array is overrun.  A request
      that was rebuilt is looked at again, with total 1, and delivered. */
  method ProcessBatch(merge: EvMemcachedMerge, mhdr: array<bytes>, nmsgs: nat, ghost reqs: map<bytes, Arrival>, ghost F: nat)
    returns (done: bool, delivered: seq<bytes>)
    requires nmsgs <= mhdr.Length
    modifies merge, mhdr
    ensures var b, sav := old(mhdr[..nmsgs]), old(merge.sav);
            Mixed(b, reqs, F) && SavOk(b, sav, reqs, 0) ==>
              done && delivered == Deliveries(b, reqs, nmsgs) && merge.sav == KeptAfter(b, sav, reqs, nmsgs)
  {
    ghost var b, sav := mhdr[..nmsgs], merge.sav;
    ghost var mixed := Mixed(b, reqs, F) && SavOk(b, sav, reqs, 0);
    hide *;
    if mixed { StandsStart(b, sav, reqs); }
    var i := 0;
    delivered := [];
    while i < nmsgs
      invariant i <= nmsgs && (mixed ==> Stands(b, sav, reqs, i, mhdr[..nmsgs], merge.sav, delivered))
    {
      done, delivered := LookAtMessage(merge, mhdr, nmsgs, i, delivered, b, sav, reqs, F);
      if !done {
        return;
      }
      i := i + 1;
    }
    if mixed { StandsEnd(b, sav, reqs, mhdr[..nmsgs], merge.sav, delivered); }
    done := true;
  }

  /** The body of the loop; `out` is what has been delivered before. */
  method LookAtMessage(merge: EvMemcachedMerge, mhdr: array<bytes>, nmsgs: nat, i: nat, out: seq<bytes>,
                       ghost b: seq<bytes>, ghost sav: seq<bytes>, ghost reqs: map<bytes, Arrival>, ghost F: nat)
    returns (done: bool, delivered: seq<bytes>)
    requires i < nmsgs <= mhdr.Length && |b| == nmsgs
    modifies merge, mhdr
    ensures old(Mixed(b, reqs, F) && Stands(b, sav, reqs, i, mhdr[..nmsgs], merge.sav, out)) ==>
      done && Stands(b, sav, reqs, i + 1, mhdr[..nmsgs], merge.sav, delivered)
  {
    hide *;
    ghost var m, kept := mhdr[..nmsgs], merge.sav;
    ghost var mixed := Mixed(b, reqs, F) && Stands(b, sav, reqs, i, m, kept, out);
    done, delivered := true, out;
    if |mhdr[i]| > HDR {
      ghost var cnt, size, left;
      var r;
      r, cnt, size, left := ProcessFrame(merge, mhdr, nmsgs, i);
      if mixed {
        StandsAfter(b, sav, reqs, F, i, m, mhdr[..nmsgs], left, kept, merge.sav, out, r, mhdr[i], cnt, size, nmsgs < mhdr.Length);
      }
      if r == Merged {
        delivered := delivered + [mhdr[i]];
      } else if r != Kept {
        done := false;
      }
    } else if mixed {
      StandsStill(b, sav, reqs, i, m, kept, out);
    }
  }

  lemma StartBatch(b: seq<bytes>, sav: seq<bytes>, reqs: map<bytes, Arrival>)
    ensures LeftAt(b, b, 0) && Deliveries(b, reqs, 0) == [] && KeptAfter(b, sav, reqs, 0) == sav
  {
  }

  lemma BatchMore(b: seq<bytes>, sav: seq<bytes>, reqs: map<bytes, Arrival>, i: nat)
    requires i < |b|
    ensures !First(b, i) ==>
      Deliveries(b, reqs, i + 1) == Deliveries(b, reqs, i) && KeptAfter(b, sav, reqs, i + 1) == KeptAfter(b, sav, reqs, i)
    ensures First(b, i) && |b[i]| > HDR && b[i][..2] in reqs ==>
      var id, out, kept := b[i][..2], Deliveries(b, reqs, i), KeptAfter(b, sav, reqs, i);
      if Complete(reqs[id], |b|) then Deliveries(b, reqs, i + 1) == out + [reqs[id].p] && KeptAfter(b, sav, reqs, i + 1) == kept
      else Deliveries(b, reqs, i + 1) == out && KeptAfter(b, sav, reqs, i + 1) == KeptFrom(kept, b, id, |reqs[id].pos|)
  {
    FirstOrNot(b, i);
    hide Complete, KeptFrom, First;
  }

  lemma FirstOrNot(b: seq<bytes>, i: nat)
    requires i < |b|
    ensures First(b, i) ==> |b[i]| > HDR
  {
  }

  // ---------------------------------------------------------------- what is delivered

  /** The messages of a list that carry the id. */
  function Of(out: seq<bytes>, id: bytes): seq<bytes> {
    if out == [] then []
    else
      var last := out[|out| - 1];
      Of(out[..|out| - 1], id) + if |last| >= 2 && last[..2] == id then [last] else []
  }

  lemma OfMore(out: seq<bytes>, p: bytes, id: bytes)
    requires |p| >= 2
    ensures Of(out + [p], id) == Of(out, id) + if p[..2] == id then [p] else []
  {
    assert (out + [p])[..|out|] == out;
  }

  lemma {:induction false} DeliveredUpTo(b: seq<bytes>, reqs: map<bytes, Arrival>, F: nat, id: bytes, n: nat)
    requires Mixed(b, reqs, F) && id in reqs && n <= |b|
    ensures Of(Deliveries(b, reqs, n), id) == if Seen(b, id, n) && Complete(reqs[id], |b|) then [reqs[id].p] else []
    decreases n
  {
    hide Deliveries, KeptAfter, Of, Complete, Mixed, Seen, FreshHeader, Datagrams;
    if n == 0 {
      StartBatch(b, [], reqs);
      NoneSeen(b, id);
    } else {
      DeliveredUpTo(b, reqs, F, id, n - 1);
      SeenMore(b, id, n - 1);
      BatchMore(b, [], reqs, n - 1);
      if |b[n - 1]| > HDR {
        var i := b[n - 1][..2];
        FirstFacts(b, reqs, F, n - 1);
        IdOf(b, reqs, F, i);
        OfMore(Deliveries(b, reqs, n - 1), reqs[i].p, id);
      }
    }
  }

  lemma NoneSeen(b: seq<bytes>, id: bytes)
    ensures !Seen(b, id, 0) && Of([], id) == []
  {
  }

  lemma IdOf(b: seq<bytes>, reqs: map<bytes, Arrival>, F: nat, id: bytes)
    requires Mixed(b, reqs, F) && id in reqs
    ensures |reqs[id].p| > HDR && reqs[id].p[..2] == id
  {
    hide Datagrams, FreshHeader;
  }

  /** Main result on whole batches: of every request exactly one message is delivered, the request
      byte for byte, if all its datagrams have arrived, and none otherwise. */
  lemma DeliveredOnceIff(b: seq<bytes>, reqs: map<bytes, Arrival>, F: nat, id: bytes)
    requires Mixed(b, reqs, F) && id in reqs
    ensures Of(Deliveries(b, reqs, |b|), id) == if Complete(reqs[id], |b|) then [reqs[id].p] else []
  {
    DeliveredUpTo(b, reqs, F, id, |b|);
    var a := reqs[id];
    if Complete(a, |b|) {
      SomeDatagram(a.p, F);
      DatagramIsFor(a.p, F, 0);
      assert For(b[a.pos[0]], id);
      hide Datagrams, For;
    }
  }

  /** And nothing else is delivered. */
  lemma {:induction false} OnlyRequests(b: seq<bytes>, reqs: map<bytes, Arrival>, F: nat, n: nat)
    requires Mixed(b, reqs, F) && n <= |b|
    ensures forall p :: p in Deliveries(b, reqs, n) ==> |p| > HDR && p[..2] in reqs && reqs[p[..2]].p == p
    decreases n
  {
    hide Deliveries, Complete, Mixed;
    if n == 0 {
      StartBatch(b, [], reqs);
    } else {
      OnlyRequests(b, reqs, F, n - 1);
      BatchMore(b, [], reqs, n - 1);
      if |b[n - 1]| > HDR {
        FirstFacts(b, reqs, F, n - 1);
        IdOf(b, reqs, F, b[n - 1][..2]);
      }
    }
  }

  lemma SomeDatagram(p: bytes, F: nat)
    requires |p| >= HDR && F > HDR
    ensures |Datagrams(p, F)| >= 1
  {
  }

  // ---------------------------------------------------------------- what is kept

  /** Frame x of request id is among those kept. */
  predicate IsKept(kept: seq<bytes>, f: bytes, x: nat) {
    x < |kept| && kept[x] == f
  }

  /** Datagram j begins an incomplete request that takes the place of frame x. */
  ghost predicate Displaces(b: seq<bytes>, reqs: map<bytes, Arrival>, j: nat, x: nat)
    requires j < |b|
  {
    && First(b, j) && b[j][..2] in reqs && !Complete(reqs[b[j][..2]], |b|)
    && var pos := reqs[b[j][..2]].pos;
       x >= |pos| || pos[x] < |b|
  }

  ghost predicate Displaced(b: seq<bytes>, reqs: map<bytes, Arrival>, f: nat, n: nat, x: nat)
    requires n <= |b|
  {
    exists j :: f < j < n && Displaces(b, reqs, j, x)
  }

  lemma DisplacedMore(b: seq<bytes>, reqs: map<bytes, Arrival>, f: nat, n: nat, x: nat)
    requires f < n < |b|
    ensures Displaced(b, reqs, f, n + 1, x) <==> Displaced(b, reqs, f, n, x) || Displaces(b, reqs, n, x)
    ensures !Displaced(b, reqs, f, f + 1, x)
  {
    hide Displaces;
  }

  lemma {:induction false} KeptUpTo(b: seq<bytes>, sav: seq<bytes>, reqs: map<bytes, Arrival>, F: nat, f: nat, x: nat, n: nat)
    requires Mixed(b, reqs, F) && f < n <= |b| && First(b, f) && b[f][..2] in reqs
    requires var a := reqs[b[f][..2]]; !Complete(a, |b|) && x < |a.pos| && a.pos[x] < |b|
    ensures IsKept(KeptAfter(b, sav, reqs, n), b[reqs[b[f][..2]].pos[x]], x) <==> !Displaced(b, reqs, f, n, x)
    decreases n
  {
    hide KeptAfter, Complete, Mixed, First, Displaced, IsKept, FreshHeader, Datagrams;
    FirstIsLong(b, f);
    if n == f + 1 {
      KeptAtFirst(b, sav, reqs, F, f, x);
      NotYetDisplaced(b, reqs, f, x);
    } else {
      KeptUpTo(b, sav, reqs, F, f, x, n - 1);
      KeptStep(b, sav, reqs, F, f, x, n - 1);
      DisplacedMore(b, reqs, f, n - 1, x);
    }
  }

  lemma NotYetDisplaced(b: seq<bytes>, reqs: map<bytes, Arrival>, f: nat, x: nat)
    requires f < |b|
    ensures !Displaced(b, reqs, f, f + 1, x)
  {
  }

  lemma KeptAtFirst(b: seq<bytes>, sav: seq<bytes>, reqs: map<bytes, Arrival>, F: nat, f: nat, x: nat)
    requires Mixed(b, reqs, F) && f < |b| && First(b, f) && |b[f]| > HDR && b[f][..2] in reqs
    requires var a := reqs[b[f][..2]]; !Complete(a, |b|) && x < |a.pos| && a.pos[x] < |b|
    ensures IsKept(KeptAfter(b, sav, reqs, f + 1), b[reqs[b[f][..2]].pos[x]], x)
  {
    var id := b[f][..2];
    hide KeptAfter, Complete, Mixed, KeptFrom, First, IsKept;
    BatchMore(b, sav, reqs, f);
    FrameOf(b, reqs, F, id, x);
    KeptOver(b, KeptAfter(b, sav, reqs, f), reqs, F, id, x, b[reqs[id].pos[x]]);
  }

  lemma KeptStep(b: seq<bytes>, sav: seq<bytes>, reqs: map<bytes, Arrival>, F: nat, f: nat, x: nat, n: nat)
    requires Mixed(b, reqs, F) && f < n < |b| && |b[f]| > HDR && b[f][..2] in reqs
    requires var a := reqs[b[f][..2]]; x < |a.pos| && a.pos[x] < |b|
    ensures var d := b[reqs[b[f][..2]].pos[x]];
            IsKept(KeptAfter(b, sav, reqs, n + 1), d, x) <==> IsKept(KeptAfter(b, sav, reqs, n), d, x) && !Displaces(b, reqs, n, x)
  {
    var id := b[f][..2];
    hide KeptAfter, Complete, Mixed, KeptFrom, First, IsKept;
    BatchMore(b, sav, reqs, n);
    FirstOrNot(b, n);
    FrameOf(b, reqs, F, id, x);
    if First(b, n) {
      FirstFacts(b, reqs, F, n);
      OtherId(b, f, n);
      KeptOver(b, KeptAfter(b, sav, reqs, n), reqs, F, b[n][..2], x, b[reqs[id].pos[x]]);
    }
  }

  lemma OtherId(b: seq<bytes>, f: nat, j: nat)
    requires f < j < |b| && |b[f]| > HDR && First(b, j)
    ensures |b[j]| > HDR && b[j][..2] != b[f][..2]
  {
    assert For(b[f], b[f][..2]);
  }

  lemma FrameOf(b: seq<bytes>, reqs: map<bytes, Arrival>, F: nat, id: bytes, x: nat)
    requires Mixed(b, reqs, F) && id in reqs && x < |reqs[id].pos| && reqs[id].pos[x] < |b|
    ensures IsFrame(b[reqs[id].pos[x]], id, x)
  {
    DatagramsAreFrames(reqs[id].p, F, x);
    hide Datagrams, FreshHeader;
  }

  /** Keeping request id over what was kept before: a frame d with number x, of this request or of
      another one. */
  lemma KeptOver(b: seq<bytes>, kept: seq<bytes>, reqs: map<bytes, Arrival>, F: nat, id: bytes, x: nat, d: bytes)
    requires Mixed(b, reqs, F) && id in reqs && |d| > HDR
    ensures var pos, k := reqs[id].pos, KeptFrom(kept, b, id, |reqs[id].pos|);
            if d[..2] == id then x < |pos| && pos[x] < |b| && d == b[pos[x]] ==> IsKept(k, d, x)
            else IsKept(k, d, x) <==> IsKept(kept, d, x) && x < |pos| && pos[x] >= |b|
  {
    if x < |reqs[id].pos| {
      ArrivedFrames(b, reqs, F, id, x);
      FramesAreLong(b, reqs, F, id);
      if reqs[id].pos[x] < |b| { FrameOf(b, reqs, F, id, x); }
      KeptMeans(kept, b, id, |reqs[id].pos|, x);
      hide KeptFrom, Mixed, Seqno, Datagrams;
    }
  }

  /** Main result on lost datagrams: after the batch a frame that has arrived of an incomplete
      request is kept if and only if no incomplete request that came later has as few frames, or a
      frame with the same number. */
  lemma KeptIff(b: seq<bytes>, sav: seq<bytes>, reqs: map<bytes, Arrival>, F: nat, f: nat, x: nat)
    requires Mixed(b, reqs, F) && f < |b| && First(b, f) && b[f][..2] in reqs
    requires var a := reqs[b[f][..2]]; !Complete(a, |b|) && x < |a.pos| && a.pos[x] < |b|
    ensures IsKept(KeptAfter(b, sav, reqs, |b|), b[reqs[b[f][..2]].pos[x]], x) <==> forall j :: f < j < |b| ==> !Displaces(b, reqs, j, x)
  {
    KeptUpTo(b, sav, reqs, F, f, x, |b|);
    hide Displaces, IsKept, KeptAfter, Mixed;
  }
}
