/** Running a command over its keys (src/redis_exec.cpp:199-227, 247-272 and 671-1046): the keys are
    visited in turn until each is done, or until one of them ends the command. */
module Scheduler {

  import opened Common
  import opened Bytes

  datatype Val = Val(data: bytes, typ: nat)

  type Store = map<bytes, Val>

  /** The states of a key and of a command, in the order of include/raids/redis_exec.h:32-77. */
  datatype Status =
    | Ok | SetupOk | SendOk | SendNil | SendNull | SendInt | SendZero | SendZeroArr | SendOne | SendNegOne
    | SendZeroString | Success
    | Depends | Continue | Queued | Blocked
    | Quit | Debug | Skip | AbortSendZero | AbortSendNil | SendData
    | KvStatus | BadArgs | BadType | KeyDoesntExist | OtherError(code: nat)

  predicate Live(s: Status) { s.Continue? || s.Depends? }

  predicate Succeeds(s: Status) {
    || s.Ok? || s.SetupOk? || s.SendOk? || s.SendNil? || s.SendNull? || s.SendInt? || s.SendZero? || s.SendZeroArr?
    || s.SendOne? || s.SendNegOne? || s.SendZeroString? || s.Success?
  }

  /** The states up to the blocked one leave the other keys alone. */
  predicate GoesOn(s: Status) {
    Succeeds(s) || Live(s) || s.Queued? || s.Blocked?
  }

  datatype Reply =
    | SimpleOk | NilReply | NullArray | EmptyArray | EmptyString | QueuedReply
    | IntReply(n: int) | ErrorReply(why: Status) | Bulk(data: bytes) | Items(items: seq<Option<bytes>>)

  /** A key of the running command: its state, how often it had to wait, and what it saved. */
  datatype KeyCtx = KeyCtx(status: Status, dep: nat, ival: int, part: Option<bytes>, typ: nat)

  datatype Run = Run(store: Store, keys: seq<KeyCtx>, keyDone: nat, strm: seq<Reply>)

  /** What one visit of a key makes of the store and of the key, and what it sends itself. */
  datatype Visit = Visit(store: Store, ctx: KeyCtx, readOnly: bool, out: seq<Reply> := [])

  /** A command is what it does when it is given one of its keys. */
  datatype Command = Command(visit: (Run, nat) -> Visit, mget: bool)

  function Sum(keys: seq<KeyCtx>): int {
    if keys == [] then 0 else keys[0].ival + Sum(keys[1..])
  }

  /** What the end of a command writes to the stream. */
  function ReplyOf(s: Status, keys: seq<KeyCtx>): (rs: seq<Reply>)
    ensures |rs| <= 1 && (|rs| == 0 <==> s.Ok? || s.SetupOk? || s.Success? || Live(s) || s.Blocked? || s.Skip? || s.SendData?)
  {
    match s
    case Ok | SetupOk | Success | Depends | Continue | Blocked | Skip | SendData => []
    case SendOk | Quit | Debug => [SimpleOk]
    case SendNil | AbortSendNil => [NilReply]
    case SendNull => [NullArray]
    case SendInt => [IntReply(Sum(keys))]
    case SendZeroArr | AbortSendZero => [EmptyArray]
    case SendZero => [IntReply(0)]
    case SendOne => [IntReply(1)]
    case SendNegOne => [IntReply(-1)]
    case SendZeroString => [EmptyString]
    case Queued => [QueuedReply]
    case KvStatus | BadArgs | BadType | KeyDoesntExist | OtherError(_) => [ErrorReply(s)]
  }

  function Parts(keys: seq<KeyCtx>): (ps: seq<Option<bytes>>)
    ensures |ps| == |keys|
  {
    seq(|keys|, i requires 0 <= i < |keys| => keys[i].part)
  }

  function AllWith(keys: seq<KeyCtx>, s: Status): (ks: seq<KeyCtx>)
    ensures |ks| == |keys|
  {
    seq(|keys|, i requires 0 <= i < |keys| => keys[i].(status := s))
  }

  function Sent(strm: seq<Reply>, out: seq<Reply>): seq<Reply> {
    if out == [] then strm else strm + out
  }

  /** The run after the key at i has been visited. */
  function Step(cmd: Command, r: Run, i: nat): (r': Run)
    requires i < |r.keys|
    ensures |r'.keys| == |r.keys|
  {
    var v := cmd.visit(r, i);
    if v.ctx.status.Depends? && v.readOnly then
      r.(store := v.store, keys := r.keys[i := v.ctx.(dep := v.ctx.dep + 1)], strm := Sent(r.strm, v.out))
    else
      Completed(cmd, r.(store := v.store, keys := r.keys[i := v.ctx], keyDone := r.keyDone + 1, strm := Sent(r.strm, v.out)),
                v.ctx.status)
  }

  /** The visit to the key at i is the last one. */
  predicate IsEnd(cmd: Command, r: Run, i: nat)
    requires i < |r.keys|
  {
    var v := cmd.visit(r, i);
    !(v.ctx.status.Depends? && v.readOnly) && (r.keyDone + 1 == |r.keys| || v.ctx.status.SendData?)
  }

  /** The run after one more key is done, which returned s. */
  function Completed(cmd: Command, r: Run, s: Status): (r': Run)
    ensures |r'.keys| == |r.keys|
  {
    if r.keyDone == |r.keys| then r.(strm := r.strm + LastReply(cmd, s, r.keys))
    else if GoesOn(s) then r
    else r.(keys := AllWith(r.keys, s), strm := r.strm + ReplyOf(s, AllWith(r.keys, s)))
  }

  /** What the last key writes; several reads at once are answered with the list of what was saved. */
  function LastReply(cmd: Command, s: Status, keys: seq<KeyCtx>): (rs: seq<Reply>)
    ensures |rs| <= 1
  {
    if cmd.mget && Succeeds(s) then [Items(Parts(keys))] else ReplyOf(s, keys)
  }

  // ---------------------------------------------------------------- sequences of visits

  function Play(cmd: Command, start: Run, vs: seq<nat>): (r: Run)
    requires forall k :: 0 <= k < |vs| ==> vs[k] < |start.keys|
    ensures |r.keys| == |start.keys|
  {
    if vs == [] then start else Step(cmd, Play(cmd, start, vs[..|vs| - 1]), vs[|vs| - 1])
  }

  predicate Halted(r: Run) {
    forall i :: 0 <= i < |r.keys| ==> !Live(r.keys[i].status)
  }

  /** Only keys which are not done are visited, in whatever order. */
  ghost predicate Legal(cmd: Command, start: Run, vs: seq<nat>) {
    && (forall k :: 0 <= k < |vs| ==> vs[k] < |start.keys|)
    && (forall k :: 0 <= k < |vs| ==> Live(Play(cmd, start, vs[..k]).keys[vs[k]].status))
  }

  /** v is the first key from i on, around the end, which is not done. */
  ghost predicate NextLive(r: Run, i: nat, v: nat) {
    && v < |r.keys| && Live(r.keys[v].status)
    && exists d :: FoundAfter(r, i, v, d)
  }

  ghost predicate FoundAfter(r: Run, i: nat, v: nat, d: nat) {
    d < |r.keys| && v == Around(i + d, |r.keys|) && forall x :: i <= x < i + d ==> Passed(r, x)
  }

  /** The position of x, which may be up to one turn beyond the end. */
  function Around(x: nat, n: nat): nat { if x < n then x else x - n }

  predicate Passed(r: Run, x: nat) {
    var p := Around(x, |r.keys|);
    p < |r.keys| && !Live(r.keys[p].status)
  }

  function After(vs: seq<nat>, n: nat): nat
    requires n > 0
  {
    if vs == [] then 0 else Around(vs[|vs| - 1] + 1, n)
  }

  /** Each visit is to the next key, after the one before, which is not done. */
  ghost predicate RoundRobin(cmd: Command, start: Run, vs: seq<nat>) {
    && |start.keys| > 0
    && (forall k :: 0 <= k < |vs| ==> vs[k] < |start.keys|)
    && (forall k :: 0 <= k < |vs| ==> NextLive(Play(cmd, start, vs[..k]), After(vs[..k], |start.keys|), vs[k]))
  }

  lemma RoundRobinIsLegal(cmd: Command, start: Run, vs: seq<nat>)
    requires RoundRobin(cmd, start, vs)
    ensures Legal(cmd, start, vs)
  {
  }

  lemma LegalPrefix(cmd: Command, start: Run, vs: seq<nat>, k: nat)
    requires k <= |vs|
    ensures Legal(cmd, start, vs) ==> Legal(cmd, start, vs[..k])
    ensures RoundRobin(cmd, start, vs) ==> RoundRobin(cmd, start, vs[..k])
  {
    assert forall j :: 0 <= j < k ==> vs[..k][..j] == vs[..j];
  }

  lemma LastVisit(cmd: Command, start: Run, vs: seq<nat>)
    requires RoundRobin(cmd, start, vs) && vs != []
    ensures var before, v := vs[..|vs| - 1], vs[|vs| - 1];
            && RoundRobin(cmd, start, before) && v < |start.keys|
            && NextLive(Play(cmd, start, before), After(before, |start.keys|), v)
            && Play(cmd, start, vs) == Step(cmd, Play(cmd, start, before), v)
  {
    LegalPrefix(cmd, start, vs, |vs| - 1);
  }

  /** How every command behaves: what is done is done, only a key that is read may wait, and only the
      key that ends the command may send something itself. */
  ghost predicate Obeys(cmd: Command) {
    forall r: Run, i: nat :: i < |r.keys| && Live(r.keys[i].status) ==>
      Proper(cmd.visit(r, i), r.keys[i]) && SendsOnce(cmd, cmd.visit(r, i), r)
  }

  predicate SendsOnce(cmd: Command, v: Visit, r: Run) {
    v.out != [] ==>
      |v.out| == 1 && !cmd.mget && (v.ctx.status.SendData? || (v.ctx.status.Ok? && r.keyDone + 1 == |r.keys|))
  }

  predicate Proper(v: Visit, ctx: KeyCtx) {
    !v.ctx.status.Continue? && !v.ctx.status.Blocked? && (v.ctx.status.Depends? ==> v.readOnly) && v.ctx.dep == ctx.dep
  }

  /** Nothing has been done yet. */
  predicate Fresh(r: Run) {
    && r.keys != [] && r.keyDone == 0 && r.strm == []
    && forall i :: 0 <= i < |r.keys| ==> r.keys[i].status.Continue? && r.keys[i].dep == 0
  }

  // ---------------------------------------------------------------- what is counted and replied

  /** The keys which were done by these visits, in that order. */
  function DoneBy(cmd: Command, start: Run, vs: seq<nat>): (ds: seq<nat>)
    requires forall k :: 0 <= k < |vs| ==> vs[k] < |start.keys|
    ensures forall d :: 0 <= d < |ds| ==> ds[d] < |start.keys|
  {
    if vs == [] then []
    else
      var before, i := vs[..|vs| - 1], vs[|vs| - 1];
      DoneBy(cmd, start, before) + if cmd.visit(Play(cmd, start, before), i).ctx.status.Depends? then [] else [i]
  }

  predicate Distinct(ds: seq<nat>) {
    forall a, b :: 0 <= a < b < |ds| ==> ds[a] != ds[b]
  }

  /** The command goes on: no reply yet, and the keys done are those which are not live. */
  predicate Working(r: Run, ds: seq<nat>) {
    && r.keyDone < |r.keys| && r.strm == []
    && forall i :: 0 <= i < |r.keys| ==> (i in ds <==> !Live(r.keys[i].status)) && GoesOn(r.keys[i].status)
  }

  /** Every key is done; the one done last has replied. */
  predicate AllDone(cmd: Command, r: Run, ds: seq<nat>) {
    && r.keyDone == |r.keys| > 0
    && |ds| > 0 && ds[|ds| - 1] < |r.keys|
    && Replied(r.strm, LastReply(cmd, r.keys[ds[|ds| - 1]].status, r.keys))
    && Halted(r)
  }

  /** The key done last has ended the command: every key has its state, and it has replied. */
  predicate Aborted(r: Run) {
    && 0 < r.keyDone < |r.keys|
    && !GoesOn(r.keys[0].status)
    && (forall i :: 0 <= i < |r.keys| ==> r.keys[i].status == r.keys[0].status)
    && Replied(r.strm, ReplyOf(r.keys[0].status, r.keys))
  }

  /** There is one reply: the one that the last state asks for, or if it asks for none, at most what the
      last visit has sent. */
  predicate Replied(strm: seq<Reply>, rs: seq<Reply>) {
    if rs == [] then |strm| <= 1 else strm == rs
  }

  ghost predicate Accounted(cmd: Command, r: Run, ds: seq<nat>) {
    && Distinct(ds) && |ds| == r.keyDone
    && (forall d :: 0 <= d < |ds| ==> ds[d] < |r.keys|)
    && (Working(r, ds) || AllDone(cmd, r, ds) || Aborted(r))
  }

  /** As many distinct keys as there are keys are all of them. */
  lemma {:induction false} AllKeys(ds: seq<nat>, n: nat)
    requires Distinct(ds) && forall d :: 0 <= d < |ds| ==> ds[d] < n
    ensures |ds| <= n && (|ds| == n ==> forall i :: 0 <= i < n ==> i in ds)
  {
    assert ds != [] ==> ds[0] < n;
    if n > 0 {
      if d :| 0 <= d < |ds| && ds[d] == n - 1 {
        var rest := ds[..d] + ds[d + 1..];
        assert forall x :: 0 <= x < |rest| ==> rest[x] == if x < d then ds[x] else ds[x + 1];
        AllKeys(rest, n - 1);
        assert forall i :: 0 <= i < n - 1 ==> i in rest ==> i in ds;
      } else {
        AllKeys(ds, n - 1);
      }
    }
  }

  lemma {:induction false} AsManyKeys(ds: seq<nat>, n: nat)
    requires Distinct(ds) && forall i :: 0 <= i < n ==> i in ds
    ensures |ds| >= n
  {
    if n > 0 {
      assert n - 1 in ds;
      var d :| 0 <= d < |ds| && ds[d] == n - 1;
      var rest := ds[..d] + ds[d + 1..];
      assert forall x :: 0 <= x < |rest| ==> rest[x] == if x < d then ds[x] else ds[x + 1];
      assert forall i :: 0 <= i < n - 1 ==> i in ds ==> i in rest;
      AsManyKeys(rest, n - 1);
    }
  }

  /** A command that has ended is complete, or one of its keys has ended it. */
  lemma EndedMeans(cmd: Command, r: Run, ds: seq<nat>)
    requires Accounted(cmd, r, ds) && Halted(r)
    ensures AllDone(cmd, r, ds) || Aborted(r)
  {
    if Working(r, ds) {
      AsManyKeys(ds, |r.keys|);
    }
  }

  /** Main result on the bookkeeping, for every order in which keys that are not done are visited:
      each key is counted once when it is done, and there is one reply, when the command ends. */
  lemma {:induction false} CountsEachKeyOnce(cmd: Command, start: Run, vs: seq<nat>)
    requires Obeys(cmd) && Fresh(start) && Legal(cmd, start, vs)
    ensures Accounted(cmd, Play(cmd, start, vs), DoneBy(cmd, start, vs))
  {
    if vs != [] {
      var k := |vs| - 1;
      LegalPrefix(cmd, start, vs, k);
      CountsEachKeyOnce(cmd, start, vs[..k]);
      assert vs[..k][..k] == vs[..k];
      CountStep(cmd, Play(cmd, start, vs[..k]), vs[k], DoneBy(cmd, start, vs[..k]));
    }
  }

  lemma CountStep(cmd: Command, r: Run, i: nat, ds: seq<nat>)
    requires Obeys(cmd) && Accounted(cmd, r, ds) && i < |r.keys| && Live(r.keys[i].status)
    ensures Accounted(cmd, Step(cmd, r, i), ds + if cmd.visit(r, i).ctx.status.Depends? then [] else [i])
  {
    var v := cmd.visit(r, i);
    assert Proper(v, r.keys[i]) && SendsOnce(cmd, v, r);
    assert Working(r, ds);
    hide Obeys;
    if v.ctx.status.Depends? {
      hide AllDone, Aborted, Completed;
      assert ds + [] == ds;
      assert Working(Step(cmd, r, i), ds);
    } else {
      hide Proper;
      CountDone(cmd, r, i, ds);
    }
  }

  /** The states with which a key may have sent something itself ask for no reply. */
  lemma SentItself(cmd: Command, keys: seq<KeyCtx>)
    ensures ReplyOf(SendData, keys) == [] && (!cmd.mget ==> LastReply(cmd, Ok, keys) == LastReply(cmd, SendData, keys) == [])
  {
  }

  lemma CountDone(cmd: Command, r: Run, i: nat, ds: seq<nat>)
    requires Working(r, ds) && Distinct(ds) && |ds| == r.keyDone && forall d :: 0 <= d < |ds| ==> ds[d] < |r.keys|
    requires i < |r.keys| && Live(r.keys[i].status)
    requires var v := cmd.visit(r, i); !Live(v.ctx.status) && SendsOnce(cmd, v, r)
    ensures Accounted(cmd, Step(cmd, r, i), ds + [i])
  {
    var v, r', ds' := cmd.visit(r, i), Step(cmd, r, i), ds + [i];
    AllKeys(ds', |r.keys|);
    SentItself(cmd, r'.keys);
    hide ReplyOf, LastReply, Sum, Parts, Succeeds;
    if r'.keyDone == |r.keys| {
      assert forall x :: 0 <= x < |r.keys| ==> x in ds' ==> x == i || x in ds;
      assert AllDone(cmd, r', ds');
    } else if GoesOn(v.ctx.status) {
      hide AllDone, Aborted;
      assert Working(r', ds');
    } else {
      hide AllDone;
      assert Aborted(r');
    }
  }

  /** While a key is not done the count has not reached the end. */
  lemma LiveMeansWorking(cmd: Command, r: Run, ds: seq<nat>, i: nat)
    requires Accounted(cmd, r, ds) && i < |r.keys| && Live(r.keys[i].status)
    ensures r.keyDone < |r.keys| && r.strm == []
  {
  }

  lemma {:induction false} SumWith(keys: seq<KeyCtx>, i: nat, c: KeyCtx)
    requires i < |keys|
    ensures Sum(keys[i := c]) == Sum(keys) - keys[i].ival + c.ival
  {
    if i == 0 {
      assert keys[i := c][1..] == keys[1..];
    } else {
      assert keys[i := c][1..] == keys[1..][i - 1 := c];
      SumWith(keys[1..], i - 1, c);
    }
  }

  // ---------------------------------------------------------------- waiting ends

  /** A visit after which the key waits although it has waited often enough before. */
  ghost predicate Waits(cmd: Command, r: Run, i: nat, bound: nat) {
    && i < |r.keys| && Live(r.keys[i].status) && r.keys[i].dep >= bound
    && cmd.visit(r, i).ctx.status.Depends?
  }

  /** r' differs from r in nothing but keys that have waited since. */
  ghost predicate Alike(r: Run, r': Run) {
    && r'.store == r.store && r'.keyDone == r.keyDone && r'.strm == r.strm && |r'.keys| == |r.keys|
    && forall j :: 0 <= j < |r.keys| ==> AlikeKey(r.keys[j], r'.keys[j])
  }

  predicate AlikeKey(c: KeyCtx, c': KeyCtx) {
    && (Live(c.status) <==> Live(c'.status)) && c.dep <= c'.dep
    && c' == c.(status := c'.status, dep := c'.dep)
  }

  /** The key at p will not wait again, however long the others do. */
  ghost predicate Ready(cmd: Command, r: Run, p: nat, bound: nat) {
    && p < |r.keys| && Live(r.keys[p].status)
    && forall r' :: Alike(r, r') ==> !Waits(cmd, r', p, bound)
  }

  /** Whenever a command is not done some key can go on: a key waits for others only. */
  ghost predicate Patient(cmd: Command, start: Run, bound: nat) {
    && (forall r: Run, i: nat :: Waits(cmd, r, i, bound) ==>
          cmd.visit(r, i).store == r.store && cmd.visit(r, i).ctx == r.keys[i].(status := Depends))
    && (forall vs :: RoundRobin(cmd, start, vs) && !Halted(Play(cmd, start, vs)) ==>
          exists p :: Ready(cmd, Play(cmd, start, vs), p, bound))
  }

  /** A command whose keys never wait. */
  ghost predicate NeverWaits(cmd: Command) {
    forall r: Run, i: nat :: i < |r.keys| && Live(r.keys[i].status) ==> !cmd.visit(r, i).ctx.status.Depends?
  }

  lemma NeverWaitingIsPatient(cmd: Command, start: Run)
    requires NeverWaits(cmd)
    ensures Patient(cmd, start, 0)
  {
    forall vs | RoundRobin(cmd, start, vs) && !Halted(Play(cmd, start, vs))
      ensures exists p :: Ready(cmd, Play(cmd, start, vs), p, 0)
    {
      var r := Play(cmd, start, vs);
      var p :| 0 <= p < |r.keys| && Live(r.keys[p].status);
      hide Play, RoundRobin;
      assert Ready(cmd, r, p, 0);
    }
  }

  /** How often keys may still wait before they have waited often enough. */
  function Debt(keys: seq<KeyCtx>, bound: nat): nat {
    if keys == [] then 0 else (if keys[0].dep < bound then bound - keys[0].dep else 0) + Debt(keys[1..], bound)
  }

  lemma {:induction false} DebtAfter(keys: seq<KeyCtx>, i: nat, c: KeyCtx, bound: nat)
    requires i < |keys|
    ensures c.dep == keys[i].dep ==> Debt(keys[i := c], bound) == Debt(keys, bound)
    ensures c.dep == keys[i].dep + 1 ==>
      Debt(keys[i := c], bound) + (if keys[i].dep < bound then 1 else 0) == Debt(keys, bound)
  {
    var keys' := keys[i := c];
    if i == 0 {
      assert keys'[1..] == keys[1..];
    } else {
      assert keys'[1..] == keys[1..][i - 1 := c];
      DebtAfter(keys[1..], i - 1, c, bound);
    }
  }

  lemma {:induction false} DebtOfAll(keys: seq<KeyCtx>, s: Status, bound: nat)
    ensures Debt(AllWith(keys, s), bound) == Debt(keys, bound)
  {
    if keys != [] {
      assert AllWith(keys, s)[1..] == AllWith(keys[1..], s);
      DebtOfAll(keys[1..], s, bound);
    }
  }

  /** A visit lowers the debt, or the key is done, or all that happens is that the key waits. */
  lemma VisitCounts(cmd: Command, start: Run, r: Run, i: nat, bound: nat)
    requires Obeys(cmd) && Patient(cmd, start, bound) && i < |r.keys| && Live(r.keys[i].status)
    ensures var r' := Step(cmd, r, i);
            || Debt(r'.keys, bound) < Debt(r.keys, bound)
            || (Debt(r'.keys, bound) == Debt(r.keys, bound) && r'.keyDone == r.keyDone + 1)
            || (Debt(r'.keys, bound) == Debt(r.keys, bound) && r'.keyDone == r.keyDone
                && Waits(cmd, r, i, bound) && Alike(r, r'))
  {
    var v, r' := cmd.visit(r, i), Step(cmd, r, i);
    assert Proper(v, r.keys[i]);
    if v.ctx.status.Depends? {
      DebtAfter(r.keys, i, v.ctx.(dep := v.ctx.dep + 1), bound);
      assert r.keys[i].dep >= bound ==> Waits(cmd, r, i, bound);
    } else {
      DebtAfter(r.keys, i, v.ctx, bound);
      DebtOfAll(r.keys[i := v.ctx], v.ctx.status, bound);
    }
  }

  lemma StillReady(cmd: Command, r: Run, r': Run, p: nat, bound: nat)
    requires Ready(cmd, r, p, bound) && Alike(r, r')
    ensures Ready(cmd, r', p, bound)
  {
  }

  lemma AlikeSelf(r: Run)
    ensures Alike(r, r)
  {
  }

  /** Steps from position i to position p, around the end. */
  function Distance(i: nat, p: nat, n: nat): nat
    requires i < n && p < n
  {
    if p >= i then p - i else p + n - i
  }

  lemma PlayOneMore(cmd: Command, start: Run, vs: seq<nat>, i: nat, d: nat)
    requires RoundRobin(cmd, start, vs) && i < |start.keys|
    requires var r := Play(cmd, start, vs); Live(r.keys[i].status) && FoundAfter(r, After(vs, |start.keys|), i, d)
    ensures RoundRobin(cmd, start, vs + [i])
    ensures Play(cmd, start, vs + [i]) == Step(cmd, Play(cmd, start, vs), i)
  {
    var vs' := vs + [i];
    assert vs'[..|vs|] == vs;
    assert forall k :: 0 <= k < |vs| ==> vs'[..k] == vs[..k];
  }

  lemma FullCircle(r: Run, from: nat)
    requires from < |r.keys| && forall x :: from <= x < from + |r.keys| ==> Passed(r, x)
    ensures Halted(r)
  {
    forall i | 0 <= i < |r.keys| ensures !Live(r.keys[i].status) {
      assert Passed(r, if i < from then i + |r.keys| else i);
    }
  }

  /** The loop is at key i; the j keys before it, back to the one after the last visit, are done. */
  ghost predicate AtWork(cmd: Command, start: Run, bound: nat, vs: seq<nat>, r: Run, i: nat, j: nat) {
    && Ongoing(cmd, start, bound, vs, r) && r.keyDone <= |r.keys|
    && i < |r.keys| && FoundAfter(r, After(vs, |r.keys|), i, j)
  }

  ghost predicate Ongoing(cmd: Command, start: Run, bound: nat, vs: seq<nat>, r: Run) {
    && Fresh(start) && Obeys(cmd) && Patient(cmd, start, bound)
    && RoundRobin(cmd, start, vs) && r == Play(cmd, start, vs)
  }

  lemma Begin(cmd: Command, start: Run, bound: nat) returns (p: nat)
    requires Fresh(start) && Obeys(cmd) && Patient(cmd, start, bound)
    ensures AtWork(cmd, start, bound, [], start, 0, 0) && Ready(cmd, start, p, bound)
  {
    assert RoundRobin(cmd, start, []);
    p :| Ready(cmd, Play(cmd, start, []), p, bound);
  }

  ghost predicate Tallied(cmd: Command, start: Run, vs: seq<nat>, r: Run) {
    && (forall k :: 0 <= k < |vs| ==> vs[k] < |start.keys|)
    && Accounted(cmd, r, DoneBy(cmd, start, vs))
  }

  lemma Tally(cmd: Command, start: Run, bound: nat, vs: seq<nat>, r: Run)
    requires Ongoing(cmd, start, bound, vs, r)
    ensures Tallied(cmd, start, vs, r) && r.keyDone <= |r.keys| && (r.keyDone == |r.keys| ==> Halted(r))
  {
    RoundRobinIsLegal(cmd, start, vs);
    CountsEachKeyOnce(cmd, start, vs);
  }

  lemma OneMore(cmd: Command, start: Run, bound: nat, vs: seq<nat>, r: Run, i: nat, j: nat)
    requires Ongoing(cmd, start, bound, vs, r)
    requires i < |r.keys| && Live(r.keys[i].status) && FoundAfter(r, After(vs, |r.keys|), i, j)
    ensures Ongoing(cmd, start, bound, vs + [i], Step(cmd, r, i))
  {
    PlayOneMore(cmd, start, vs, i, j);
  }

  lemma WorkGoesOn(cmd: Command, start: Run, bound: nat, vs: seq<nat>, r: Run, i: nat, j: nat)
    requires AtWork(cmd, start, bound, vs, r, i, j) && Live(r.keys[i].status)
    ensures Tallied(cmd, start, vs + [i], Step(cmd, r, i))
    ensures AtWork(cmd, start, bound, vs + [i], Step(cmd, r, i), Around(i + 1, |r.keys|), 0)
    ensures r.keyDone < |r.keys|
  {
    hide Ongoing, Step, Tallied;
    Tally(cmd, start, bound, vs, r);
    OneMore(cmd, start, bound, vs, r, i, j);
    Tally(cmd, start, bound, vs + [i], Step(cmd, r, i));
  }

  lemma EndIsSeen(cmd: Command, start: Run, vs: seq<nat>, r: Run, i: nat)
    requires i < |r.keys| && Tallied(cmd, start, vs, Step(cmd, r, i)) && IsEnd(cmd, r, i)
    ensures Halted(Step(cmd, r, i))
  {
  }

  /** What makes the loop end: after a visit less waiting is left, or fewer keys, or the key p
      that can go on is still to come. */
  predicate Nearer(r: Run, r': Run, i: nat, p: nat, p': nat, bound: nat) {
    var d, d' := Debt(r.keys, bound), Debt(r'.keys, bound);
    || d' < d
    || (d' == d && r.keyDone < r'.keyDone)
    || (d' == d && r'.keyDone == r.keyDone && p' == p && p != i && !Halted(r'))
  }

  /** A key was found that is not done, and was visited. */
  lemma Visited(cmd: Command, start: Run, bound: nat, vs: seq<nat>, r: Run, i: nat, j: nat, p: nat) returns (p': nat)
    requires AtWork(cmd, start, bound, vs, r, i, j) && Live(r.keys[i].status) && (Halted(r) || Ready(cmd, r, p, bound))
    ensures var r', n := Step(cmd, r, i), |r.keys|;
            && AtWork(cmd, start, bound, vs + [i], r', Around(i + 1, n), 0)
            && (Halted(r') || Ready(cmd, r', p', bound)) && Nearer(r, r', i, p, p', bound) && r.keyDone < n && r'.keyDone <= n
            && (IsEnd(cmd, r, i) ==> Halted(r'))
  {
    WorkGoesOn(cmd, start, bound, vs, r, i, j);
    if IsEnd(cmd, r, i) { EndIsSeen(cmd, start, vs + [i], r, i); }
    VisitCounts(cmd, start, r, i, bound);
    var r' := Step(cmd, r, i);
    hide Step, Debt, IsEnd;
    if Alike(r, r') {
      assert Ready(cmd, r, p, bound);
      StillReady(cmd, r, r', p, bound);
      AlikeSelf(r);
      p' := p;
    } else if !Halted(r') {
      p' :| Ready(cmd, r', p', bound);
    } else {
      p' := 0;
    }
  }

  /** A key which is done is passed; when all have been passed the command has ended. */
  lemma Skipped(cmd: Command, start: Run, bound: nat, vs: seq<nat>, r: Run, i: nat, j: nat)
    requires AtWork(cmd, start, bound, vs, r, i, j) && !Live(r.keys[i].status)
    ensures if j + 1 == |r.keys| then Halted(r) else AtWork(cmd, start, bound, vs, r, Around(i + 1, |r.keys|), j + 1)
  {
    hide Patient, Obeys, Play;
    var from := After(vs, |r.keys|);
    assert Passed(r, from + j);
    if j + 1 == |r.keys| {
      FullCircle(r, from);
    }
  }

  lemma Ended(cmd: Command, start: Run, bound: nat, vs: seq<nat>, r: Run, i: nat, j: nat)
    requires AtWork(cmd, start, bound, vs, r, i, j)
    ensures RoundRobin(cmd, start, vs) && r == Play(cmd, start, vs) && Accounted(cmd, r, DoneBy(cmd, start, vs))
    ensures Halted(r) ==> AllDone(cmd, r, DoneBy(cmd, start, vs)) || Aborted(r)
  {
    Tally(cmd, start, bound, vs, r);
    if Halted(r) { EndedMeans(cmd, r, DoneBy(cmd, start, vs)); }
  }

  function Setup(store: Store, n: nat): (r: Run)
    requires n > 0
    ensures Fresh(r) && |r.keys| == n
  {
    Run(store, seq(n, _ => KeyCtx(Continue, 0, 0, None, 0)), 0, [])
  }

  // ---------------------------------------------------------------- the program

  class RedisExec {
    var store: Store
    var keys: seq<KeyCtx>
    var keyDone: nat
    var strm: seq<Reply>

    /** Each key is set up by exec_key_setup, ready to be visited. */
    constructor (store: Store, n: nat)
      requires n > 0
      ensures View() == Setup(store, n)
    {
      this.store, keyDone, strm := store, 0, [];
      keys := Setup(store, n).keys;
    }

    function View(): Run
      reads this
    {
      Run(store, keys, keyDone, strm)
    }

    /** Visits the key at i. */
    method ExecKeyContinue(cmd: Command, i: nat) returns (success: bool)
      requires i < |keys|
      modifies this
      ensures old(Live(keys[i].status)) ==> View() == Step(cmd, old(View()), i)
      ensures old(Live(keys[i].status) && keyDone < |keys|) ==> (success <==> IsEnd(cmd, old(View()), i))
      ensures old(!Live(keys[i].status)) ==>
        View() == old(View()).(keyDone := old(keyDone) + 1) && (success <==> keyDone >= |keys|)
    {
      assert !GoesOn(SendData);
      hide Succeeds, ReplyOf, Parts, AllWith, GoesOn, Sent;
      if !Live(keys[i].status) {
        keyDone := keyDone + 1;
        success := keyDone >= |keys|;
        return;
      }
      var v := cmd.visit(View(), i);
      var s := v.ctx.status;
      store := v.store;
      strm := Sent(strm, v.out);
      if v.readOnly && s.Depends? {
        keys := keys[i := v.ctx.(dep := v.ctx.dep + 1)];
        return false;
      }
      keys := keys[i := v.ctx];
      keyDone := keyDone + 1;
      if keyDone == |keys| {
        if cmd.mget {
          if Succeeds(s) {
            strm := strm + [Items(Parts(keys))];
            return true;
          }
        }
      } else {
        if GoesOn(s) {
          return false;
        }
        keys := AllWith(keys, s);
      }
      assert strm + [] == strm;
      match s {
        case SendData => return true;
        case Ok =>
        case Blocked =>
        case _ => strm := strm + ReplyOf(s, keys);
      }
      success := keyDone >= |keys|;
    }

    /** Visits the keys in turn until the command has ended. */
    method ExecRunToCompletion(cmd: Command, ghost bound: nat) returns (ghost vs: seq<nat>)
      requires Fresh(View()) && Obeys(cmd) && Patient(cmd, View(), bound)
      modifies this
      ensures RoundRobin(cmd, old(View()), vs) && View() == Play(cmd, old(View()), vs)
      ensures Halted(View()) && Accounted(cmd, View(), DoneBy(cmd, old(View()), vs))
      ensures AllDone(cmd, View(), DoneBy(cmd, old(View()), vs)) || Aborted(View())
    {
      hide AtWork, Step, RoundRobin, Play, Fresh, Obeys, Patient, Accounted, DoneBy, AllDone, Aborted;
      vs := [];
      ghost var start := View();
      ghost var p := Begin(cmd, start, bound);
      var n := |keys|;
      if n == 1 {
        while Live(keys[0].status)
          invariant |keys| == 1 && keyDone <= 1
          invariant AtWork(cmd, start, bound, vs, View(), 0, 0) && (Halted(View()) || Ready(cmd, View(), p, bound))
          decreases Debt(keys, bound), 1 - keyDone
        {
          ghost var r := View();
          var success := ExecKeyContinue(cmd, 0);
          p := Visited(cmd, start, bound, vs, r, 0, 0, p);
          vs := vs + [0];
          if success { break; }
        }
        Ended(cmd, start, bound, vs, View(), 0, 0);
      } else {
        var i, j := 0, 0;
        while true
          invariant |keys| == n && i < n && j < n && keyDone <= n
          invariant AtWork(cmd, start, bound, vs, View(), i, j) && (Halted(View()) || Ready(cmd, View(), p, bound))
          decreases Debt(keys, bound), n - keyDone, if Halted(View()) then n - j else Distance(i, p, n)
        {
          if Live(keys[i].status) {
            ghost var r := View();
            var success := ExecKeyContinue(cmd, i);
            p := Visited(cmd, start, bound, vs, r, i, j, p);
            vs := vs + [i];
            if success {
              Ended(cmd, start, bound, vs, View(), Around(i + 1, n), 0);
              break;
            }
            j := 0;
          } else {
            Skipped(cmd, start, bound, vs, View(), i, j);
            Ended(cmd, start, bound, vs, View(), i, j);
            j := j + 1;
            if j == n { break; }
          }
          i := i + 1;
          if i == n { i := 0; }
        }
      }
    }
  }
}
