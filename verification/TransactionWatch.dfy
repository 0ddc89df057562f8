/** What WATCH promises over whole runs (src/redis_transaction.cpp:172-196 and 421-452): a key that
    existed when it was watched has not been written when the commands run.  A client's own
    commands between WATCH and MULTI count as those of another client. */
module TransactionWatch {

  import opened Common
  import opened TransactionQueue
  import opened TransactionLocks
  import opened TransactionRuns

  // ---------------------------------------------------------------- writes to one key

  /** The step stores a value for k, or removes it. */
  predicate Writes(s: State, a: Action, k: Key) {
    match a
    case PlainWrite(_, x, _, _) => x == k
    case Run(c, serials) => CanRun(s, c, serials) && k in serials && k in KeySet(s.txs[c].msgs[s.txs[c].phase.pc])
    case _ => false
  }

  predicate Carries(store: map<Key, Entry>, k: Key, serial: nat) {
    k in store && store[k].serial == serial
  }

  /** A step that does not write k leaves its entry alone; one that does removes it or gives it a
      serial that k has never had. */
  ghost predicate OnKey(s: State, s': State, writes: bool, k: Key) {
    && (!writes ==> Lookup(s'.store, k) == Lookup(s.store, k))
    && (writes && k in s'.store ==> (k, s'.store[k].serial) !in s.hist)
    && Extends(s.hist, s'.hist)
  }

  lemma StepOnKey(s: State, a: Action, k: Key)
    requires Enabled(s, a)
    ensures OnKey(s, Do(s, a), Writes(s, a, k), k)
  {
    if a.Run? {
      RunOnKey(s, a.c, a.serials, k);
    } else if !a.PlainWrite? {
      OnlyWritesStore(s, a);
      hide Enabled, Do;
    }
  }

  lemma OnlyWritesStore(s: State, a: Action)
    requires Enabled(s, a) && !a.Run? && !a.PlainWrite?
    ensures Do(s, a).store == s.store && Do(s, a).hist == s.hist
  {
    if a.Acquire? { WalksLeaveStore(s, a.c, Locking); }
    if a.BackOff? { WalksLeaveStore(s, a.c, Locking); }
    if a.Release? { WalksLeaveStore(s, a.c, Finished(s.txs[a.c].phase.committed)); }
    hide FreshSerials, AllWatchesOk, IsSlot, KeyAt, Owns, Owned, HasLock, CanRun, RunNext, View, Lookup, AcquireSlot, ReleaseSlot, FirstCmd;
  }

  lemma WalksLeaveStore(s: State, c: Client, done: Phase)
    requires c in s.txs
    ensures s.txs[c].cur.m < |s.txs[c].msgs| ==> AcquireSlot(s, c).store == s.store && AcquireSlot(s, c).hist == s.hist
    ensures ReleaseSlot(s, c, done).store == s.store && ReleaseSlot(s, c, done).hist == s.hist
  {
    hide AcquireSlot, ReleaseSlot;
    var tx, locks := ReleaseForm(s, c, done);
    if s.txs[c].cur.m < |s.txs[c].msgs| { tx, locks := AcquireForm(s, c); }
  }

  lemma RunOnKey(s: State, c: Client, serials: map<Key, nat>, k: Key)
    requires CanRun(s, c, serials)
    ensures OnKey(s, RunNext(s, c, serials), k in serials && k in KeySet(s.txs[c].msgs[s.txs[c].phase.pc]), k)
  {
    var mm := s.txs[c].msgs[s.txs[c].phase.pc];
    var s' := RunNext(s, c, serials);
    RunHist(s, c, serials);
    if !(k in serials && k in KeySet(mm)) {
      Unchanged(s, mm, serials, k);
    }
    hide RunCmd, View;
  }

  lemma RunHist(s: State, c: Client, serials: map<Key, nat>)
    requires CanRun(s, c, serials)
    ensures Extends(s.hist, RunNext(s, c, serials).hist)
  {
    hide RunCmd, View, KeySet;
    var mm := s.txs[c].msgs[s.txs[c].phase.pc];
    assert forall k :: k in KeySet(mm) && k in serials ==> (k, serials[k]) !in s.hist;
  }

  /** A command leaves the values alone that it does not store with a new serial. */
  lemma Unchanged(s: State, mm: Msg, serials: map<Key, nat>, k: Key)
    requires FreshSerials(s, mm, serials) && !(k in serials && k in KeySet(mm))
    ensures Lookup(RunCmd(View(s.store), mm), k) == Lookup(View(s.store), k)
  {
    if k !in KeySet(mm) {
      assert k in RunCmd(View(s.store), mm) <==> k in s.store;
    }
  }

  /** A serial that a key no longer has never comes back. */
  lemma {:induction false} Gone(s: State, run: seq<Action>, k: Key, serial: nat)
    requires Inv(s) && Legal(s, run) && (k, serial) in s.hist && !Carries(s.store, k, serial)
    ensures !Carries(After(s, run).store, k, serial)
    decreases |run|
  {
    if run != [] {
      StepKeepsInv(s, run[0]);
      StepOnKey(s, run[0], k);
      hide Inv, Enabled, Do, Writes;
      Gone(Do(s, run[0]), run[1..], k, serial);
    }
  }

  /** No step of the run writes k. */
  ghost predicate Unwritten(s: State, run: seq<Action>, k: Key)
    requires Legal(s, run)
    decreases |run|
  {
    run == [] || (!Writes(s, run[0], k) && Unwritten(Do(s, run[0]), run[1..], k))
  }

  /** A key has the serial it had before if and only if it has not been written since. */
  lemma {:induction false} CarriesIff(s: State, run: seq<Action>, k: Key)
    requires Inv(s) && Legal(s, run) && k in s.store
    ensures Carries(After(s, run).store, k, s.store[k].serial) <==> Unwritten(s, run, k)
    decreases |run|
  {
    if run != [] {
      var n := s.store[k].serial;
      assert HistOk(s.store, s.hist);
      assert (k, n) in s.hist;
      StepKeepsInv(s, run[0]);
      StepOnKey(s, run[0], k);
      hide Inv, Enabled, Do, Writes;
      if Carries(Do(s, run[0]).store, k, n) {
        CarriesIff(Do(s, run[0]), run[1..], k);
      } else {
        Gone(Do(s, run[0]), run[1..], k, n);
      }
    }
  }

  // ---------------------------------------------------------------- the record of a watch

  /** The step ends the transaction of c, and its watches. */
  predicate Leaves(a: Action, c: Client) {
    a == DoUnwatch(c) || a == DoDiscard(c) || a == End(c)
  }

  predicate Stays(run: seq<Action>, c: Client) {
    forall i :: 0 <= i < |run| ==> !Leaves(run[i], c)
  }

  predicate Watching(s: State, c: Client, i: nat, w: Watch) {
    c in s.txs && i < |s.txs[c].watches| && s.txs[c].watches[i] == w
  }

  /** The step changes only the record of c in the list of transactions, and not its watches. */
  ghost predicate OwnRecord(s: State, s': State, c: Client) {
    && c in s.txs && c in s'.txs && s'.txs == s.txs[c := s'.txs[c]] && s'.txs[c].watches == s.txs[c].watches
  }

  /** Nor does the phase change to anything but p. */
  ghost predicate OwnPhase(s: State, s': State, c: Client, p: Phase) {
    OwnRecord(s, s', c) && (s'.txs[c].phase == s.txs[c].phase || s'.txs[c].phase == p)
  }

  lemma RecordWith(s: State, c: Client, tx: Tx, locks: map<Key, Client>, p: Phase)
    requires c in s.txs && tx.watches == s.txs[c].watches && (tx.phase == s.txs[c].phase || tx.phase == p)
    ensures OwnPhase(s, WithTx(s, c, tx).(locks := locks), c, p)
  {
  }

  lemma WalkingRecords(s: State, c: Client, done: Phase)
    requires c in s.txs
    ensures s.txs[c].cur.m < |s.txs[c].msgs| ==> OwnPhase(s, AcquireSlot(s, c), c, BackingOff)
    ensures OwnPhase(s, ReleaseSlot(s, c, done), c, done)
  {
    hide AcquireSlot, ReleaseSlot, OwnPhase, WithTx;
    var tx, locks := ReleaseForm(s, c, done);
    RecordWith(s, c, tx, locks, done);
    if s.txs[c].cur.m < |s.txs[c].msgs| {
      tx, locks := AcquireForm(s, c);
      RecordWith(s, c, tx, locks, BackingOff);
    }
  }

  lemma CheckingRecords(s: State, c: Client)
    requires c in s.txs
    ensures OwnRecord(s, CheckWatches(s, c), c)
  {
    hide AllWatchesOk, View;
  }

  lemma RunningRecords(s: State, c: Client, serials: map<Key, nat>)
    requires CanRun(s, c, serials)
    ensures OwnRecord(s, RunNext(s, c, serials), c)
  {
    hide FreshSerials, RunCmd, View, KeySet;
  }

  lemma OthersKeepTx(s: State, a: Action, c: Client)
    requires Enabled(s, a) && a.c != c && c in s.txs
    ensures c in Do(s, a).txs && Do(s, a).txs[c] == s.txs[c]
  {
    hide Owned, HasLock, CanRun, Lookup, AcquireSlot, ReleaseSlot, CheckWatches, RunNext;
    match a
    case Acquire(d) => WalkingRecords(s, d, Locking);
    case BackOff(d) => WalkingRecords(s, d, Locking);
    case Release(d) => WalkingRecords(s, d, Finished(s.txs[d].phase.committed));
    case Check(d) => CheckingRecords(s, d);
    case Run(d, serials) => RunningRecords(s, d, serials);
    case _ =>
  }

  lemma OwnKeepsWatches(s: State, a: Action)
    requires Enabled(s, a) && !Leaves(a, a.c) && a.c in s.txs
    ensures a.c in Do(s, a).txs && s.txs[a.c].watches <= Do(s, a).txs[a.c].watches
  {
    hide Owned, HasLock, CanRun, Lookup, AcquireSlot, ReleaseSlot, CheckWatches, RunNext;
    match a
    case Acquire(d) => WalkingRecords(s, d, Locking);
    case BackOff(d) => WalkingRecords(s, d, Locking);
    case Release(d) => WalkingRecords(s, d, Finished(s.txs[d].phase.committed));
    case Check(d) => CheckingRecords(s, d);
    case Run(d, serials) => RunningRecords(s, d, serials);
    case _ =>
  }

  lemma WatchStays(s: State, a: Action, c: Client, i: nat, w: Watch)
    requires Enabled(s, a) && !Leaves(a, c) && Watching(s, c, i, w)
    ensures Watching(Do(s, a), c, i, w)
  {
    hide Enabled, Do, Leaves;
    if a.c == c {
      OwnKeepsWatches(s, a);
    } else {
      OthersKeepTx(s, a, c);
    }
  }

  lemma {:induction false} WatchKept(s: State, run: seq<Action>, c: Client, i: nat, w: Watch)
    requires Legal(s, run) && Stays(run, c) && Watching(s, c, i, w)
    ensures Watching(After(s, run), c, i, w)
    decreases |run|
  {
    hide Enabled, Do, Watching, Leaves;
    if run != [] {
      WatchStays(s, run[0], c, i, w);
      WatchKept(Do(s, run[0]), run[1..], c, i, w);
    }
  }

  lemma {:induction false} InvAfter(s: State, run: seq<Action>)
    requires Inv(s) && Legal(s, run)
    ensures Inv(After(s, run))
    decreases |run|
  {
    hide Inv, Enabled, Do;
    if run != [] {
      StepKeepsInv(s, run[0]);
      InvAfter(Do(s, run[0]), run[1..]);
    }
  }

  /** What a watch set in state s compares. */
  function Recorded(s: State, k: Key): Watch {
    var seen := Lookup(s.store, k);
    Watch(k, if seen.Some? then seen.value.serial else 0, seen)
  }

  /** Main result on WATCH over whole runs: whatever everybody does after a key was watched, the
      check accepts the key if and only if it existed and has not been written, or it did not
      exist and does not exist now. */
  lemma WatchAcceptsIff(s: State, c: Client, k: Key, run: seq<Action>)
    requires Inv(s) && Enabled(s, DoWatch(c, k)) && Legal(Do(s, DoWatch(c, k)), run) && Stays(run, c)
    ensures var s1, i := Do(s, DoWatch(c, k)), |s.txs[c].watches|;
            && Watching(After(s1, run), c, i, Recorded(s, k))
            && (WatchOk(After(s1, run).store, Recorded(s, k)) <==>
                  if k in s.store then Unwritten(s1, run, k) else k !in After(s1, run).store)
  {
    var s1 := Do(s, DoWatch(c, k));
    StepKeepsInv(s, DoWatch(c, k));
    assert Watching(s1, c, |s.txs[c].watches|, Recorded(s, k));
    WatchKept(s1, run, c, |s.txs[c].watches|, Recorded(s, k));
    if k in s.store {
      CarriesIff(s1, run, k);
    } else {
      InvAfter(s1, run);
    }
  }

  // ---------------------------------------------------------------- the commands

  lemma {:induction false} LegalMore(s: State, run: seq<Action>, a: Action)
    requires Legal(s, run + [a])
    ensures Legal(s, run) && Enabled(After(s, run), a)
    ensures After(s, run + [a]) == Do(After(s, run), a)
    decreases |run|
  {
    hide Enabled, Do;
    if run == [] {
      assert run + [a] == [a];
    } else {
      assert (run + [a])[1..] == run[1..] + [a] && (run + [a])[0] == run[0];
      LegalMore(Do(s, run[0]), run[1..], a);
    }
  }

  predicate Executes(s: State, c: Client) {
    c in s.txs && s.txs[c].phase.Running?
  }

  /** Commands run only after a check. */
  lemma OnlyCheckStarts(s: State, a: Action, c: Client)
    requires Enabled(s, a) && !Executes(s, c) && Executes(Do(s, a), c)
    ensures a == Check(c) && (s.txs[c].watches == [] || AllWatchesOk(s.store, s.txs[c].watches))
  {
    hide AllWatchesOk, Owned, HasLock, FreshSerials, Lookup, AcquireSlot, ReleaseSlot, RunNext, View;
    match a
    case Acquire(d) => WalkingRecords(s, d, Locking);
    case BackOff(d) => WalkingRecords(s, d, Locking);
    case Release(d) => WalkingRecords(s, d, Finished(s.txs[d].phase.committed));
    case Run(d, serials) => RunningRecords(s, d, serials);
    case _ =>
  }

  lemma {:induction false} CheckedAt(s: State, run: seq<Action>, c: Client) returns (p: nat)
    requires Legal(s, run) && !Executes(s, c) && Executes(After(s, run), c)
    ensures p < |run| && run[p] == Check(c) && Legal(s, run[..p])
    ensures var t := After(s, run[..p]);
            c in t.txs && (t.txs[c].watches == [] || AllWatchesOk(t.store, t.txs[c].watches))
    decreases |run|
  {
    hide Enabled, Do, Executes, AllWatchesOk;
    var n := |run| - 1;
    assert run[..n] + [run[n]] == run;
    LegalMore(s, run[..n], run[n]);
    if Executes(After(s, run[..n]), c) {
      p := CheckedAt(s, run[..n], c);
      assert run[..n][..p] == run[..p];
    } else {
      OnlyCheckStarts(After(s, run[..n]), run[n], c);
      OnlyOwn(After(s, run[..n]), c);
      p := n;
    }
  }

  lemma OnlyOwn(s: State, c: Client)
    requires Enabled(s, Check(c))
    ensures c in s.txs
  {
  }

  /** When a command of a transaction runs, some check has come before it, and at that moment the
      watched key had not been written since, or did not exist then and before. */
  lemma CommandsRunUnwritten(s: State, c: Client, k: Key, run: seq<Action>) returns (p: nat)
    requires Inv(s) && Enabled(s, DoWatch(c, k)) && Legal(Do(s, DoWatch(c, k)), run) && Stays(run, c)
    requires Executes(After(Do(s, DoWatch(c, k)), run), c)
    ensures p < |run| && run[p] == Check(c)
    ensures var s1 := Do(s, DoWatch(c, k));
            && Legal(s1, run[..p])
            && (if k in s.store then Unwritten(s1, run[..p], k) else k !in After(s1, run[..p]).store)
  {
    var s1 := Do(s, DoWatch(c, k));
    assert !Executes(s1, c);
    hide Enabled, Do, Executes, Inv, WatchOk;
    p := CheckedAt(s1, run, c);
    WatchAcceptsIff(s, c, k, run[..p]);
  }

  // ---------------------------------------------------------------- an absent key

  lemma OneStep(s: State, a: Action, t: State)
    requires Enabled(s, a) && Do(s, a) == t
    ensures Legal(s, [a]) && After(s, [a]) == t
  {
    hide Enabled, Do;
    assert [a][1..] == [];
  }

  lemma {:induction false} TwoRuns(s: State, r: seq<Action>, q: seq<Action>)
    requires Legal(s, r) && Legal(After(s, r), q)
    ensures Legal(s, r + q) && After(s, r + q) == After(After(s, r), q)
    decreases |r|
  {
    hide Enabled, Do;
    if r == [] {
      assert r + q == q;
    } else {
      assert (r + q)[0] == r[0] && (r + q)[1..] == r[1..] + q;
      TwoRuns(Do(s, r[0]), r[1..], q);
    }
  }

  lemma Then(s: State, r: seq<Action>, t: State, a: Action, u: State)
    requires Legal(s, r) && After(s, r) == t && Enabled(t, a) && Do(t, a) == u
    ensures Legal(s, r + [a]) && After(s, r + [a]) == u
  {
    hide Enabled, Do;
    OneStep(t, a, u);
    TwoRuns(s, r, [a]);
  }

  /** The transaction of the example, at the stages of its life. */
  function Stage(k: Key, msgs: seq<Msg>, phase: Phase, cur: Slot): map<Client, Tx> {
    map[1 := Tx(msgs, [Watch(k, 0, None)], phase, cur, map[])]
  }

  lemma WatchAbsent(k: Key) returns (run: seq<Action>)
    ensures Legal(INITIAL, run) && DoWatch(1, k) in run
    ensures After(INITIAL, run) == State(map[], map[], map[], Stage(k, [], Queueing(false), Slot(0, 0)))
  {
    var begun := State(map[], map[], map[], map[1 := Tx([], [], Queueing(false), Slot(0, 0), map[])]);
    var watched := State(map[], map[], map[], Stage(k, [], Queueing(false), Slot(0, 0)));
    assert [] + [Watch(k, 0, None)] == [Watch(k, 0, None)];
    assert Do(begun, DoWatch(1, k)).txs == watched.txs;
    OneStep(INITIAL, Begin(1), begun);
    Then(INITIAL, [Begin(1)], begun, DoWatch(1, k), watched);
    run := [Begin(1)] + [DoWatch(1, k)];
    assert run[1] == DoWatch(1, k);
  }

  lemma CreateAndDelete(k: Key, v: Val, txs: map<Client, Tx>) returns (run: seq<Action>)
    requires 2 !in txs
    ensures Legal(State(map[], map[], map[], txs), run) && PlainWrite(2, k, Some(v), 1) in run
    ensures After(State(map[], map[], map[], txs), run) == State(map[], map[(k, 1) := v], map[], txs)
  {
    var s := State(map[], map[], map[], txs);
    var locked := s.(locks := map[k := 2]);
    var written := State(map[k := Entry(v, 1)], map[(k, 1) := v], map[k := 2], txs);
    var removed := written.(store := map[]);
    OneStep(s, PlainLock(2, k), locked);
    Then(s, [PlainLock(2, k)], locked, PlainWrite(2, k, Some(v), 1), written);
    run := [PlainLock(2, k)] + [PlainWrite(2, k, Some(v), 1)];
    assert run[1] == PlainWrite(2, k, Some(v), 1);
    Then(s, run, written, PlainWrite(2, k, None, 2), removed);
    run := run + [PlainWrite(2, k, None, 2)];
    Then(s, run, removed, PlainUnlock(2, k), removed.(locks := map[]));
    run := run + [PlainUnlock(2, k)];
  }

  lemma Execute(k: Key, mm: Msg, hist: map<(Key, nat), Val>) returns (run: seq<Action>)
    requires mm.keys == [k] && mm.kptr == [Slot(0, 0)]
    ensures var s := State(map[], hist, map[], Stage(k, [], Queueing(false), Slot(0, 0)));
            Legal(s, run) && Executes(After(s, run), 1)
  {
    var s := State(map[], hist, map[], Stage(k, [], Queueing(false), Slot(0, 0)));
    var queued := s.(txs := Stage(k, [mm], Queueing(true), Slot(0, 0)));
    var walking := s.(txs := Stage(k, [mm], Locking, Slot(0, 0)));
    var held := s.(txs := Stage(k, [mm], Locking, Slot(0, 1)), locks := map[k := 1]);
    var passed := held.(txs := Stage(k, [mm], Locking, Slot(1, 0)));
    QueueStage(k, mm, hist);
    LockStage(k, mm, hist);
    PassStage(k, mm, hist);
    hide Enabled, Do, Stage, Legal, After, Executes;
    OneStep(s, DoMulti(1, mm), queued);
    run := [DoMulti(1, mm)];
    Then(s, run, queued, DoExec(1), walking);
    run := run + [DoExec(1)];
    Then(s, run, walking, Acquire(1), held);
    run := run + [Acquire(1)];
    Then(s, run, held, Acquire(1), passed);
    run := run + [Acquire(1)];
    Then(s, run, passed, Check(1), Do(passed, Check(1)));
    run := run + [Check(1)];
  }

  lemma QueueStage(k: Key, mm: Msg, hist: map<(Key, nat), Val>)
    requires mm.keys == [k] && mm.kptr == [Slot(0, 0)]
    ensures var s := State(map[], hist, map[], Stage(k, [], Queueing(false), Slot(0, 0)));
            var queued := s.(txs := Stage(k, [mm], Queueing(true), Slot(0, 0)));
            && Enabled(s, DoMulti(1, mm)) && Do(s, DoMulti(1, mm)) == queued
            && Enabled(queued, DoExec(1)) && Do(queued, DoExec(1)) == s.(txs := Stage(k, [mm], Locking, Slot(0, 0)))
  {
    OneKeyIsOwned(k, mm);
    hide Owned;
  }

  lemma LockStage(k: Key, mm: Msg, hist: map<(Key, nat), Val>)
    requires mm.keys == [k] && mm.kptr == [Slot(0, 0)]
    ensures var s := State(map[], hist, map[], Stage(k, [mm], Locking, Slot(0, 0)));
            Enabled(s, Acquire(1)) && Do(s, Acquire(1)) == s.(txs := Stage(k, [mm], Locking, Slot(0, 1)), locks := map[k := 1])
  {
    assert IsSlot([mm], Slot(0, 0)) && KeyAt([mm], Slot(0, 0)) == k && Owns([mm], Slot(0, 0));
  }

  lemma PassStage(k: Key, mm: Msg, hist: map<(Key, nat), Val>)
    requires mm.keys == [k] && mm.kptr == [Slot(0, 0)]
    ensures var s := State(map[], hist, map[k := 1], Stage(k, [mm], Locking, Slot(0, 1)));
            var passed := s.(txs := Stage(k, [mm], Locking, Slot(1, 0)));
            && Enabled(s, Acquire(1)) && Do(s, Acquire(1)) == passed
            && Enabled(passed, Check(1)) && Executes(Do(passed, Check(1)), 1)
  {
    assert !IsSlot([mm], Slot(0, 1));
  }

  /** A key is watched while it is absent, another client creates and deletes it, and the check
      lets the transaction go on although the key has been modified. */
  lemma AbsentKeyExample(k: Key, v: Val, mm: Msg) returns (run: seq<Action>)
    requires mm.keys == [k] && mm.kptr == [Slot(0, 0)]
    ensures Legal(INITIAL, run) && Executes(After(INITIAL, run), 1)
    ensures DoWatch(1, k) in run && PlainWrite(2, k, Some(v), 1) in run
  {
    var r1 := WatchAbsent(k);
    var r2 := CreateAndDelete(k, v, Stage(k, [], Queueing(false), Slot(0, 0)));
    var r3 := Execute(k, mm, map[(k, 1) := v]);
    hide Enabled, Do, Stage, Executes;
    TwoRuns(INITIAL, r1, r2);
    TwoRuns(INITIAL, r1 + r2, r3);
    run := r1 + r2 + r3;
  }

  lemma OneKeyIsOwned(k: Key, mm: Msg)
    requires mm.keys == [k] && mm.kptr == [Slot(0, 0)]
    ensures Owned([mm])
  {
  }
}
