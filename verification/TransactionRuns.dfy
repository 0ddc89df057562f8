/** WATCH, MULTI and EXEC as a system of interleaved steps (src/redis_transaction.cpp).

    Any number of clients share a store whose keys are locked one at a time.  A client in a
    transaction goes through the steps of exec_exec; other clients lock, write and unlock
    keys as they like, but respect the locks.  The results hold in every interleaving. */
module TransactionRuns {

  import opened Common
  import opened TransactionQueue
  import opened TransactionLocks

  /** A stored value and the serial it was written with. */
  datatype Entry = Entry(val: Val, serial: nat)

  /** An element of the watch list; `seen` is what WATCH read, kept for the statements only. */
  datatype Watch = Watch(key: Key, serial: nat, seen: Option<Entry>)

  datatype Phase =
    | Queueing(multi: bool)
    | Locking
    | BackingOff
    | Running(pc: nat)
    | Releasing(committed: bool)
    | Finished(committed: bool)

  /** A transaction: `cur` is where the lock walk stands, `snap` the values when the watch check passed. */
  datatype Tx = Tx(msgs: seq<Msg>, watches: seq<Watch>, phase: Phase, cur: Slot, snap: map<Key, Val>)

  /** `hist` records every value ever stored, by key and serial: a key's serials never repeat. */
  datatype State = State(store: map<Key, Entry>, hist: map<(Key, nat), Val>,
                         locks: map<Key, Client>, txs: map<Client, Tx>)

  function Lookup<V>(m: map<Key, V>, k: Key): Option<V> {
    if k in m then Some(m[k]) else None
  }

  function View(store: map<Key, Entry>): map<Key, Val> {
    map k | k in store :: store[k].val
  }

  // ---------------------------------------------------------------- what commands do

  function KeySet(mm: Msg): set<Key> {
    set k | k in mm.keys
  }

  /** A command reads and writes the values of its own keys. */
  function RunCmd(v: map<Key, Val>, mm: Msg): map<Key, Val> {
    var own := KeySet(mm);
    var r := mm.eff(map k | k in v && k in own :: v[k]);
    (map k | k in v && k !in own :: v[k]) + (map k | k in r && k in own :: r[k])
  }

  /** The commands i up to j, back to back. */
  function RunAll(v: map<Key, Val>, msgs: seq<Msg>, i: nat, j: nat): map<Key, Val>
    requires i <= j <= |msgs|
  {
    if i == j then v else RunCmd(RunAll(v, msgs, i, j - 1), msgs[j - 1])
  }

  /** The watch message is checked, not run. */
  function FirstCmd(tx: Tx): nat {
    if tx.watches == [] || tx.msgs == [] then 0 else 1
  }

  // ---------------------------------------------------------------- the steps

  datatype Action =
    | PlainLock(c: Client, k: Key)
    | PlainUnlock(c: Client, k: Key)
    | PlainWrite(c: Client, k: Key, v: Option<Val>, serial: nat)
    | Begin(c: Client)
    | DoWatch(c: Client, k: Key)
    | DoUnwatch(c: Client)
    | DoMulti(c: Client, mm: Msg)
    | DoQueue(c: Client, mm: Msg)
    | DoDiscard(c: Client)
    | DoExec(c: Client)
    | Acquire(c: Client)
    | BackOff(c: Client)
    | Check(c: Client)
    | Run(c: Client, serials: map<Key, nat>)
    | Commit(c: Client)
    | Release(c: Client)
    | End(c: Client)

  predicate HasLock(s: State, c: Client, k: Key) {
    k in s.locks && s.locks[k] == c
  }

  predicate InPhase(s: State, c: Client, p: Phase) {
    c in s.txs && s.txs[c].phase == p
  }

  /** The comparison of exec_exec for one watched key. */
  predicate WatchOk(store: map<Key, Entry>, w: Watch) {
    if w.key in store then w.serial == store[w.key].serial else w.serial == 0
  }

  predicate AllWatchesOk(store: map<Key, Entry>, ws: seq<Watch>) {
    forall i :: 0 <= i < |ws| ==> WatchOk(store, ws[i])
  }

  /** Serials a command may write with: new ones, for every key whose value it changes. */
  predicate FreshSerials(s: State, mm: Msg, serials: map<Key, nat>) {
    forall k :: k in KeySet(mm) ==>
      if k in serials then serials[k] != 0 && (k, serials[k]) !in s.hist
      else Lookup(RunCmd(View(s.store), mm), k) == Lookup(View(s.store), k)
  }

  predicate CanRun(s: State, c: Client, serials: map<Key, nat>) {
    && c in s.txs && s.txs[c].phase.Running? && s.txs[c].phase.pc < |s.txs[c].msgs|
    && FreshSerials(s, s.txs[c].msgs[s.txs[c].phase.pc], serials)
  }

  ghost predicate Enabled(s: State, a: Action) {
    match a
    case PlainLock(c, k) => c !in s.txs && k !in s.locks
    case PlainUnlock(c, k) => c !in s.txs && HasLock(s, c, k)
    case PlainWrite(c, k, v, serial) =>
      c !in s.txs && HasLock(s, c, k) && serial != 0 && (k, serial) !in s.hist
    case Begin(c) => c !in s.txs && forall k :: !HasLock(s, c, k)
    case DoWatch(c, k) => InPhase(s, c, Queueing(false))
    case DoUnwatch(c) => InPhase(s, c, Queueing(false))
    case DoMulti(c, mm) =>
      InPhase(s, c, Queueing(false))
      && var ws := s.txs[c].watches;
         (ws != [] ==> Owned([mm]) && |mm.keys| == |ws| && forall i :: 0 <= i < |ws| ==> mm.keys[i] == ws[i].key)
    case DoQueue(c, mm) => InPhase(s, c, Queueing(true)) && Owned(s.txs[c].msgs + [mm])
    case DoDiscard(c) => c in s.txs && s.txs[c].phase.Queueing?
    case DoExec(c) => c in s.txs && s.txs[c].phase.Queueing?
    case Acquire(c) => InPhase(s, c, Locking) && s.txs[c].cur.m < |s.txs[c].msgs|
    case BackOff(c) => InPhase(s, c, BackingOff)
    case Check(c) => InPhase(s, c, Locking) && s.txs[c].cur.m == |s.txs[c].msgs|
    case Run(c, serials) => CanRun(s, c, serials)
    case Commit(c) => c in s.txs && s.txs[c].phase.Running? && s.txs[c].phase.pc == |s.txs[c].msgs|
    case Release(c) => c in s.txs && s.txs[c].phase.Releasing?
    case End(c) => c in s.txs && s.txs[c].phase.Finished?
  }

  function WithTx(s: State, c: Client, tx: Tx): State {
    s.(txs := s.txs[c := tx])
  }

  function Written(s: State, k: Key, v: Option<Val>, serial: nat): State {
    match v
    case None => s.(store := s.store - {k})
    case Some(x) => s.(store := s.store[k := Entry(x, serial)], hist := s.hist[(k, serial) := x])
  }

  /** multi_try_lock, one slot: go on to the next message, pass a duplicate, acquire, or give up. */
  function AcquireSlot(s: State, c: Client): State
    requires c in s.txs && s.txs[c].cur.m < |s.txs[c].msgs|
  {
    var tx := s.txs[c];
    var m, n := tx.cur.m, tx.cur.n;
    if !IsSlot(tx.msgs, tx.cur) then WithTx(s, c, tx.(cur := Slot(m + 1, 0)))
    else if !Owns(tx.msgs, tx.cur) then WithTx(s, c, tx.(cur := Slot(m, n + 1)))
    else if KeyAt(tx.msgs, tx.cur) in s.locks then WithTx(s, c, tx.(phase := BackingOff))
    else WithTx(s, c, tx.(cur := Slot(m, n + 1))).(locks := s.locks[KeyAt(tx.msgs, tx.cur) := c])
  }

  /** multi_release_lock, one slot; `done` is the phase when the walk is back at the start. */
  function ReleaseSlot(s: State, c: Client, done: Phase): State
    requires c in s.txs
  {
    var tx := s.txs[c];
    var m, n := tx.cur.m, tx.cur.n;
    if n > 0 then
      var a := Slot(m, n - 1);
      var s' := WithTx(s, c, tx.(cur := a));
      if IsSlot(tx.msgs, a) && Owns(tx.msgs, a) then s'.(locks := s.locks - {KeyAt(tx.msgs, a)}) else s'
    else if m > 0 && m - 1 < |tx.msgs| then WithTx(s, c, tx.(cur := Slot(m - 1, |tx.msgs[m - 1].keys|)))
    else WithTx(s, c, tx.(phase := done))
  }

  /** The watch check of exec_exec, made when every key is locked. */
  function CheckWatches(s: State, c: Client): State
    requires c in s.txs
  {
    var tx := s.txs[c];
    if tx.watches != [] && (tx.msgs == [] || !AllWatchesOk(s.store, tx.watches))
    then WithTx(s, c, tx.(phase := Releasing(false)))
    else WithTx(s, c, tx.(phase := Running(FirstCmd(tx)), snap := View(s.store)))
  }

  /** One queued command; the keys in `serials` are stored with those serials. */
  function RunNext(s: State, c: Client, serials: map<Key, nat>): State
    requires c in s.txs && s.txs[c].phase.Running? && s.txs[c].phase.pc < |s.txs[c].msgs|
  {
    var tx := s.txs[c];
    var mm := tx.msgs[tx.phase.pc];
    var r, own := RunCmd(View(s.store), mm), KeySet(mm);
    var s' := WithTx(s, c, tx.(phase := Running(tx.phase.pc + 1)));
    s'.(store := map k | k in r && ((k in own && k in serials) || k in s.store) ::
                   if k in own && k in serials then Entry(r[k], serials[k]) else s.store[k],
        hist := s.hist + map k | k in r && k in own && k in serials :: (k, serials[k]) := r[k])
  }

  ghost function Do(s: State, a: Action): State
    requires Enabled(s, a)
  {
    match a
    case PlainLock(c, k) => s.(locks := s.locks[k := c])
    case PlainUnlock(c, k) => s.(locks := s.locks - {k})
    case PlainWrite(c, k, v, serial) => Written(s, k, v, serial)
    case Begin(c) => WithTx(s, c, Tx([], [], Queueing(false), Slot(0, 0), map[]))
    case DoWatch(c, k) =>
      var tx, seen := s.txs[c], Lookup(s.store, k);
      WithTx(s, c, tx.(watches := tx.watches + [Watch(k, if seen.Some? then seen.value.serial else 0, seen)]))
    case DoUnwatch(c) => s.(txs := s.txs - {c})
    case DoMulti(c, mm) =>
      WithTx(s, c, s.txs[c].(phase := Queueing(true), msgs := if s.txs[c].watches == [] then [] else [mm]))
    case DoQueue(c, mm) => WithTx(s, c, s.txs[c].(msgs := s.txs[c].msgs + [mm]))
    case DoDiscard(c) => s.(txs := s.txs - {c})
    case DoExec(c) => WithTx(s, c, s.txs[c].(phase := Locking, cur := Slot(0, 0)))
    case Acquire(c) => AcquireSlot(s, c)
    case BackOff(c) => ReleaseSlot(s, c, Locking)
    case Check(c) => CheckWatches(s, c)
    case Run(c, serials) => RunNext(s, c, serials)
    case Commit(c) => WithTx(s, c, s.txs[c].(phase := Releasing(true)))
    case Release(c) => ReleaseSlot(s, c, Finished(s.txs[c].phase.committed))
    case End(c) => s.(txs := s.txs - {c})
  }

  // ---------------------------------------------------------------- what every step keeps

  /** The phases in which the keys passed by the walk are locked. */
  predicate Walking(p: Phase) {
    p.Locking? || p.BackingOff? || p.Running? || p.Releasing?
  }

  predicate CursorOk(msgs: seq<Msg>, cur: Slot) {
    if cur.m < |msgs| then cur.n <= |msgs[cur.m].keys| else cur == Slot(|msgs|, 0)
  }

  /** A transaction holds exactly the keys its walk has passed, each of them once. */
  ghost predicate LocksOk(locks: map<Key, Client>, c: Client, tx: Tx) {
    && Owned(tx.msgs)
    && (Walking(tx.phase) ==> CursorOk(tx.msgs, tx.cur))
    && (tx.phase.Running? ==> tx.cur == Slot(|tx.msgs|, 0))
    && forall k :: (k in locks && locks[k] == c) <==> (Walking(tx.phase) && Passed(tx.msgs, tx.cur, k))
  }

  /** What WATCH recorded is an entry that the key really had. */
  predicate WatchRecorded(hist: map<(Key, nat), Val>, w: Watch) {
    match w.seen
    case None => w.serial == 0
    case Some(e) => w.serial == e.serial != 0 && (w.key, w.serial) in hist && hist[(w.key, w.serial)] == e.val
  }

  ghost predicate WatchesOk(hist: map<(Key, nat), Val>, tx: Tx) {
    && (forall i :: 0 <= i < |tx.watches| ==> WatchRecorded(hist, tx.watches[i]))
    && (tx.phase == Queueing(false) ==> tx.msgs == [])
    && (tx.phase == Queueing(true) && tx.watches != [] ==> tx.msgs != [])
    && (tx.watches != [] && tx.msgs != [] ==>
          |tx.msgs[0].keys| == |tx.watches| && forall i :: 0 <= i < |tx.watches| ==> tx.msgs[0].keys[i] == tx.watches[i].key)
  }

  /** The keys of a running transaction have the values that its commands so far, run back to
      back on what the watch check saw, leave in them. */
  ghost predicate ProgressOk(store: map<Key, Entry>, tx: Tx) {
    tx.phase.Running? ==>
      && FirstCmd(tx) <= tx.phase.pc <= |tx.msgs|
      && forall k :: Passed(tx.msgs, tx.cur, k) ==>
           Lookup(View(store), k) == Lookup(RunAll(tx.snap, tx.msgs, FirstCmd(tx), tx.phase.pc), k)
  }

  ghost predicate TxInv(store: map<Key, Entry>, hist: map<(Key, nat), Val>, locks: map<Key, Client>, c: Client, tx: Tx) {
    LocksOk(locks, c, tx) && WatchesOk(hist, tx) && ProgressOk(store, tx)
  }

  predicate HistOk(store: map<Key, Entry>, hist: map<(Key, nat), Val>) {
    forall k :: k in store ==>
      store[k].serial != 0 && (k, store[k].serial) in hist && hist[(k, store[k].serial)] == store[k].val
  }

  ghost predicate Inv(s: State) {
    && HistOk(s.store, s.hist)
    && forall c :: c in s.txs ==> TxInv(s.store, s.hist, s.locks, c, s.txs[c])
  }

  predicate Extends(hist: map<(Key, nat), Val>, hist': map<(Key, nat), Val>) {
    forall x :: x in hist ==> x in hist' && hist'[x] == hist[x]
  }

  /** A transaction is not affected by what others do with keys it does not hold. */
  lemma TxUndisturbed(s: State, s': State, c: Client)
    requires c in s.txs && TxInv(s.store, s.hist, s.locks, c, s.txs[c]) && Extends(s.hist, s'.hist)
    requires forall k :: HasLock(s', c, k) <==> HasLock(s, c, k)
    requires forall k :: HasLock(s, c, k) ==> Lookup(s'.store, k) == Lookup(s.store, k)
    ensures TxInv(s'.store, s'.hist, s'.locks, c, s.txs[c])
  {
    var tx := s.txs[c];
    hide Passed, Owned, RunAll, View;
    assert LocksOk(s'.locks, c, tx) by {
      forall k ensures (k in s'.locks && s'.locks[k] == c) <==> (Walking(tx.phase) && Passed(tx.msgs, tx.cur, k)) {
        assert HasLock(s', c, k) <==> HasLock(s, c, k);
      }
    }
    assert WatchesOk(s'.hist, tx) by {
      forall i | 0 <= i < |tx.watches| ensures WatchRecorded(s'.hist, tx.watches[i]) {
        assert WatchRecorded(s.hist, tx.watches[i]);
      }
    }
    assert ProgressOk(s'.store, tx) by {
      if tx.phase.Running? {
        forall k | Passed(tx.msgs, tx.cur, k) ensures Lookup(View(s'.store), k) == Lookup(View(s.store), k) {
          assert HasLock(s, c, k);
          assert Lookup(s'.store, k) == Lookup(s.store, k);
        }
      }
    }
  }

  /** All transactions but c are undisturbed by a step of c. */
  lemma OthersUndisturbed(s: State, s': State, c: Client)
    requires Inv(s) && Extends(s.hist, s'.hist) && s'.txs.Keys <= s.txs.Keys + {c}
    requires forall d :: d in s'.txs && d != c ==> s'.txs[d] == s.txs[d]
    requires forall d, k :: d in s.txs && d != c ==> (HasLock(s', d, k) <==> HasLock(s, d, k))
    requires forall d, k :: d in s.txs && d != c && HasLock(s, d, k) ==> Lookup(s'.store, k) == Lookup(s.store, k)
    ensures forall d :: d in s'.txs && d != c ==> TxInv(s'.store, s'.hist, s'.locks, d, s'.txs[d])
  {
    hide TxInv, Extends;
    forall d | d in s'.txs && d != c ensures TxInv(s'.store, s'.hist, s'.locks, d, s'.txs[d]) {
      assert d in s.txs;
      TxUndisturbed(s, s', d);
    }
  }

  // ---------------------------------------------------------------- each kind of step

  lemma PlainLockStep(s: State, c: Client, k: Key)
    requires Inv(s) && c !in s.txs && k !in s.locks
    ensures Inv(s.(locks := s.locks[k := c]))
  {
  }

  lemma PlainUnlockStep(s: State, c: Client, k: Key)
    requires Inv(s) && c !in s.txs && HasLock(s, c, k)
    ensures Inv(s.(locks := s.locks - {k}))
  {
    hide TxInv, HistOk;
    OthersUndisturbed(s, s.(locks := s.locks - {k}), c);
  }

  lemma PlainWriteStep(s: State, c: Client, k: Key, v: Option<Val>, serial: nat)
    requires Inv(s) && c !in s.txs && HasLock(s, c, k) && serial != 0 && (k, serial) !in s.hist
    ensures Inv(Written(s, k, v, serial))
  {
    hide TxInv;
    OthersUndisturbed(s, Written(s, k, v, serial), c);
  }

  /** A step that only changes the client's own transaction record. */
  lemma OwnStep(s: State, c: Client, tx: Tx)
    requires Inv(s) && TxInv(s.store, s.hist, s.locks, c, tx)
    ensures Inv(WithTx(s, c, tx))
  {
  }

  lemma LeaveStep(s: State, c: Client)
    requires Inv(s)
    ensures Inv(s.(txs := s.txs - {c}))
  {
  }

  lemma BeginStep(s: State, c: Client)
    requires Inv(s) && Enabled(s, Begin(c))
    ensures Inv(Do(s, Begin(c)))
  {
    var tx := Tx([], [], Queueing(false), Slot(0, 0), map[]);
    assert LocksOk(s.locks, c, tx) by {
      forall k ensures !(k in s.locks && s.locks[k] == c) { assert !HasLock(s, c, k); }
    }
    OwnStep(s, c, tx);
  }

  /** Before EXEC a transaction holds nothing, whatever is added to its lists. */
  lemma StillQueueing(store: map<Key, Entry>, locks: map<Key, Client>, c: Client, tx: Tx, tx': Tx)
    requires LocksOk(locks, c, tx) && !Walking(tx.phase) && !Walking(tx'.phase) && Owned(tx'.msgs)
    ensures LocksOk(locks, c, tx') && ProgressOk(store, tx')
  {
  }

  lemma WatchAdded(hist: map<(Key, nat), Val>, tx: Tx, w: Watch)
    requires WatchesOk(hist, tx) && tx.phase == Queueing(false) && WatchRecorded(hist, w)
    ensures WatchesOk(hist, tx.(watches := tx.watches + [w]))
  {
  }

  lemma WatchStep(s: State, c: Client, k: Key)
    requires Inv(s) && Enabled(s, DoWatch(c, k))
    ensures Inv(Do(s, DoWatch(c, k)))
  {
    var tx, seen := s.txs[c], Lookup(s.store, k);
    var w := Watch(k, if seen.Some? then seen.value.serial else 0, seen);
    var tx' := tx.(watches := tx.watches + [w]);
    assert WatchRecorded(s.hist, w);
    WatchAdded(s.hist, tx, w);
    StillQueueing(s.store, s.locks, c, tx, tx');
    hide Inv, LocksOk, WatchesOk, ProgressOk;
    OwnStep(s, c, tx');
  }

  lemma MultiStep(s: State, c: Client, mm: Msg)
    requires Inv(s) && Enabled(s, DoMulti(c, mm))
    ensures Inv(Do(s, DoMulti(c, mm)))
  {
    hide Owned, HistOk;
    var tx := s.txs[c];
    var tx' := tx.(phase := Queueing(true), msgs := if tx.watches == [] then [] else [mm]);
    NothingIsOwned();
    StillQueueing(s.store, s.locks, c, tx, tx');
    assert WatchesOk(s.hist, tx');
    hide Inv, LocksOk, WatchesOk, ProgressOk;
    OwnStep(s, c, tx');
  }

  lemma NothingIsOwned()
    ensures Owned([])
  {
  }

  lemma QueueStep(s: State, c: Client, mm: Msg)
    requires Inv(s) && Enabled(s, DoQueue(c, mm))
    ensures Inv(Do(s, DoQueue(c, mm)))
  {
    hide Owned, HistOk;
    var tx := s.txs[c];
    var tx' := tx.(msgs := tx.msgs + [mm]);
    StillQueueing(s.store, s.locks, c, tx, tx');
    assert WatchesOk(s.hist, tx');
    hide Inv, LocksOk, WatchesOk, ProgressOk;
    OwnStep(s, c, tx');
  }

  lemma ExecStep(s: State, c: Client)
    requires Inv(s) && Enabled(s, DoExec(c))
    ensures Inv(Do(s, DoExec(c)))
  {
    hide Passed, Owned, HistOk;
    var tx := s.txs[c];
    var tx' := tx.(phase := Locking, cur := Slot(0, 0));
    assert LocksOk(s.locks, c, tx') by {
      forall k { PassNothing(tx.msgs, k); }
    }
    hide LocksOk;
    OwnStep(s, c, tx');
  }

  /** The walk moves to tx', and `key` is the only key whose lock may change. */
  lemma WalkMoves(locks: map<Key, Client>, locks': map<Key, Client>, c: Client, tx: Tx, tx': Tx, key: Key, has: bool)
    requires LocksOk(locks, c, tx) && Walking(tx.phase) && Walking(tx'.phase) && !tx'.phase.Running?
    requires tx'.msgs == tx.msgs && CursorOk(tx'.msgs, tx'.cur)
    requires forall k :: Passed(tx.msgs, tx'.cur, k) <==> if k == key then has else Passed(tx.msgs, tx.cur, k)
    requires forall k :: k != key ==> (k in locks' <==> k in locks) && (k in locks ==> locks'[k] == locks[k])
    requires (key in locks' && locks'[key] == c) <==> has
    ensures LocksOk(locks', c, tx')
  {
  }

  /** Passing slot `cur` forward or backward: only its key, if it is the owner's, changes hands. */
  lemma WalkForward(locks: map<Key, Client>, c: Client, tx: Tx)
    requires LocksOk(locks, c, tx) && Walking(tx.phase) && !tx.phase.Running? && IsSlot(tx.msgs, tx.cur)
    ensures var key, tx' := KeyAt(tx.msgs, tx.cur), tx.(cur := Slot(tx.cur.m, tx.cur.n + 1));
            if Owns(tx.msgs, tx.cur) then key !in locks ==> LocksOk(locks[key := c], c, tx')
            else LocksOk(locks, c, tx')
  {
    var key, next := KeyAt(tx.msgs, tx.cur), Slot(tx.cur.m, tx.cur.n + 1);
    PassSlot(tx.msgs, tx.cur, key);
    forall k ensures Passed(tx.msgs, next, k) <==> k == key || Passed(tx.msgs, tx.cur, k) {
      PassSlot(tx.msgs, tx.cur, k);
    }
    hide Passed, Owned, LocksOk;
    if Owns(tx.msgs, tx.cur) {
      if key !in locks { WalkMoves(locks, locks[key := c], c, tx, tx.(cur := next), key, true); }
    } else {
      HoldsPassed(locks, c, tx, key);
      WalkMoves(locks, locks, c, tx, tx.(cur := next), key, true);
    }
  }

  lemma WalkBackward(locks: map<Key, Client>, c: Client, tx: Tx)
    requires LocksOk(locks, c, tx) && Walking(tx.phase) && !tx.phase.Running? && tx.cur.n > 0
    ensures var a := Slot(tx.cur.m, tx.cur.n - 1);
            && IsSlot(tx.msgs, a) && KeyAt(tx.msgs, a) in locks && locks[KeyAt(tx.msgs, a)] == c
            && LocksOk(if Owns(tx.msgs, a) then locks - {KeyAt(tx.msgs, a)} else locks, c, tx.(cur := a))
  {
    var a := Slot(tx.cur.m, tx.cur.n - 1);
    var key := KeyAt(tx.msgs, a);
    PassSlot(tx.msgs, a, key);
    forall k ensures Passed(tx.msgs, tx.cur, k) <==> k == key || Passed(tx.msgs, a, k) {
      PassSlot(tx.msgs, a, k);
    }
    HoldsPassed(locks, c, tx, key);
    hide Passed, Owned, LocksOk;
    var locks' := if Owns(tx.msgs, a) then locks - {key} else locks;
    WalkMoves(locks, locks', c, tx, tx.(cur := a), key, Passed(tx.msgs, a, key));
  }

  lemma HoldsPassed(locks: map<Key, Client>, c: Client, tx: Tx, k: Key)
    requires LocksOk(locks, c, tx) && Walking(tx.phase)
    ensures (k in locks && locks[k] == c) <==> Passed(tx.msgs, tx.cur, k)
  {
  }

  lemma WalkOver(locks: map<Key, Client>, c: Client, tx: Tx, m: nat)
    requires Walking(tx.phase) && !tx.phase.Running? && m < |tx.msgs|
    ensures LocksOk(locks, c, tx.(cur := Slot(m, |tx.msgs[m].keys|))) <==> LocksOk(locks, c, tx.(cur := Slot(m + 1, 0)))
  {
    forall k { PassMessage(tx.msgs, m, k); }
    hide Passed, Owned;
  }

  lemma AcquireStepInv(s: State, c: Client)
    requires Inv(s) && Enabled(s, Acquire(c))
    ensures Inv(AcquireSlot(s, c))
  {
    var tx, s' := s.txs[c], AcquireSlot(s, c);
    AcquireWalks(s, c);
    hide Passed, Owned, HistOk, LocksOk, WatchesOk, ProgressOk, AcquireSlot, ReleaseSlot;
    AcquireLocks(s.locks, s'.locks, c, tx, s'.txs[c], s, s');
    WatchesOnWalk(s.hist, tx, s'.txs[c]);
    hide Inv, HasLock;
    OwnWalk(s, s', c);
  }

  /** What the steps of the walk have in common. */
  ghost predicate Walks(s: State, s': State, c: Client) {
    && c in s.txs && s'.txs.Keys == s.txs.Keys && s'.store == s.store && s'.hist == s.hist
    && (forall d :: d in s.txs && d != c ==> s'.txs[d] == s.txs[d])
    && (forall d, k :: d != c ==> (HasLock(s', d, k) <==> HasLock(s, d, k)))
    && var tx, tx' := s.txs[c], s'.txs[c];
       tx'.msgs == tx.msgs && tx'.watches == tx.watches && !tx'.phase.Queueing? && !tx'.phase.Running?
  }

  /** A step that replaces the record of c and locks or unlocks a key for it. */
  lemma WalksWith(s: State, c: Client, tx: Tx, locks: map<Key, Client>)
    requires c in s.txs && tx.msgs == s.txs[c].msgs && tx.watches == s.txs[c].watches
    requires !tx.phase.Queueing? && !tx.phase.Running?
    requires forall d, k :: d != c ==> ((k in locks && locks[k] == d) <==> HasLock(s, d, k))
    ensures Walks(s, WithTx(s, c, tx).(locks := locks), c)
  {
  }

  lemma AcquireWalks(s: State, c: Client)
    requires c in s.txs && s.txs[c].phase == Locking && s.txs[c].cur.m < |s.txs[c].msgs|
    ensures Walks(s, AcquireSlot(s, c), c)
  {
    hide AcquireSlot, Walks, WithTx;
    var tx, locks := AcquireForm(s, c);
    WalksWith(s, c, tx, locks);
  }

  /** What the steps of the walk assign. */
  lemma AcquireForm(s: State, c: Client) returns (tx: Tx, locks: map<Key, Client>)
    requires c in s.txs && s.txs[c].cur.m < |s.txs[c].msgs|
    ensures AcquireSlot(s, c) == WithTx(s, c, tx).(locks := locks)
    ensures tx.msgs == s.txs[c].msgs && tx.watches == s.txs[c].watches && (tx.phase == s.txs[c].phase || tx.phase == BackingOff)
    ensures forall d, k :: d != c ==> ((k in locks && locks[k] == d) <==> HasLock(s, d, k))
  {
    tx, locks := s.txs[c], s.locks;
    var msgs, m, n := tx.msgs, tx.cur.m, tx.cur.n;
    hide Owns, KeyAt, IsSlot;
    if !IsSlot(msgs, tx.cur) {
      tx := tx.(cur := Slot(m + 1, 0));
    } else if !Owns(msgs, tx.cur) {
      tx := tx.(cur := Slot(m, n + 1));
    } else if KeyAt(msgs, tx.cur) in s.locks {
      tx := tx.(phase := BackingOff);
    } else {
      locks := s.locks[KeyAt(msgs, tx.cur) := c];
      tx := tx.(cur := Slot(m, n + 1));
    }
  }

  lemma ReleaseForm(s: State, c: Client, done: Phase) returns (tx: Tx, locks: map<Key, Client>)
    requires c in s.txs
    ensures ReleaseSlot(s, c, done) == WithTx(s, c, tx).(locks := locks)
    ensures tx.msgs == s.txs[c].msgs && tx.watches == s.txs[c].watches && (tx.phase == s.txs[c].phase || tx.phase == done)
    ensures HoldsBehind(s, c) ==> forall d, k :: d != c ==> ((k in locks && locks[k] == d) <==> HasLock(s, d, k))
  {
    tx, locks := s.txs[c], s.locks;
    var msgs, m, n := tx.msgs, tx.cur.m, tx.cur.n;
    hide Owns, KeyAt, IsSlot;
    if n > 0 {
      var a := Slot(m, n - 1);
      if IsSlot(msgs, a) && Owns(msgs, a) { locks := locks - {KeyAt(msgs, a)}; }
      tx := tx.(cur := a);
    } else if m > 0 && m - 1 < |msgs| {
      tx := tx.(cur := Slot(m - 1, |msgs[m - 1].keys|));
    } else {
      tx := tx.(phase := done);
    }
  }

  /** The key that the walk goes back over next is locked by c. */
  predicate HoldsBehind(s: State, c: Client)
    requires c in s.txs
  {
    var msgs, cur := s.txs[c].msgs, s.txs[c].cur;
    cur.n > 0 && IsSlot(msgs, Slot(cur.m, cur.n - 1)) ==> HasLock(s, c, KeyAt(msgs, Slot(cur.m, cur.n - 1)))
  }

  lemma ReleaseWalks(s: State, c: Client, done: Phase)
    requires c in s.txs && Walking(s.txs[c].phase) && !s.txs[c].phase.Running? && (done.Locking? || done.Finished?)
    requires HoldsBehind(s, c)
    ensures Walks(s, ReleaseSlot(s, c, done), c)
  {
    hide ReleaseSlot, Walks, WithTx, HoldsBehind;
    var tx, locks := ReleaseForm(s, c, done);
    WalksWith(s, c, tx, locks);
  }

  lemma WatchesOnWalk(hist: map<(Key, nat), Val>, tx: Tx, tx': Tx)
    requires WatchesOk(hist, tx) && tx'.msgs == tx.msgs && tx'.watches == tx.watches && !tx'.phase.Queueing?
    ensures WatchesOk(hist, tx')
  {
  }

  lemma AcquireLocks(locks: map<Key, Client>, locks': map<Key, Client>, c: Client, tx: Tx, tx': Tx, s: State, s': State)
    requires LocksOk(locks, c, tx) && tx.phase == Locking && tx.cur.m < |tx.msgs|
    requires c in s.txs && s.txs[c] == tx && s.locks == locks && s' == AcquireSlot(s, c)
    requires c in s'.txs && s'.txs[c] == tx' && s'.locks == locks'
    ensures LocksOk(locks', c, tx')
  {
    hide Passed, Owned;
    if IsSlot(tx.msgs, tx.cur) {
      WalkForward(locks, c, tx);
    } else {
      assert tx.(cur := Slot(tx.cur.m, |tx.msgs[tx.cur.m].keys|)) == tx;
      WalkOver(locks, c, tx, tx.cur.m);
    }
  }

  /** A step of the walk leaves the store and the other clients' locks alone. */
  lemma OwnWalk(s: State, s': State, c: Client)
    requires Inv(s) && c in s.txs && s'.txs.Keys == s.txs.Keys && s'.store == s.store && s'.hist == s.hist
    requires forall d :: d in s.txs && d != c ==> s'.txs[d] == s.txs[d]
    requires forall d, k :: d != c ==> (HasLock(s', d, k) <==> HasLock(s, d, k))
    requires LocksOk(s'.locks, c, s'.txs[c]) && WatchesOk(s.hist, s'.txs[c]) && !s'.txs[c].phase.Running?
    ensures Inv(s')
  {
    hide LocksOk, WatchesOk;
    assert TxInv(s'.store, s'.hist, s'.locks, c, s'.txs[c]);
    hide TxInv, HistOk;
    OthersUndisturbed(s, s', c);
  }

  lemma ReleaseStepInv(s: State, c: Client, done: Phase)
    requires Inv(s) && c in s.txs && !s.txs[c].phase.Running? && Walking(s.txs[c].phase)
    requires done.Locking? || done.Finished?
    ensures Inv(ReleaseSlot(s, c, done))
  {
    var tx, s' := s.txs[c], ReleaseSlot(s, c, done);
    hide Passed, Owned, HistOk, WatchesOk, ProgressOk;
    ReleaseLocks(s, c, done);
    ReleaseWalks(s, c, done);
    hide LocksOk, ReleaseSlot;
    WatchesOnWalk(s.hist, tx, s'.txs[c]);
    hide Inv, HasLock;
    OwnWalk(s, s', c);
  }

  lemma ReleaseLocks(s: State, c: Client, done: Phase)
    requires c in s.txs && LocksOk(s.locks, c, s.txs[c]) && Walking(s.txs[c].phase) && !s.txs[c].phase.Running?
    requires done.Locking? || done.Finished?
    ensures HoldsBehind(s, c)
    ensures var s' := ReleaseSlot(s, c, done); c in s'.txs && LocksOk(s'.locks, c, s'.txs[c])
  {
    hide Passed, Owned;
    var tx := s.txs[c];
    if tx.cur.n > 0 {
      WalkBackward(s.locks, c, tx);
      hide LocksOk;
    } else if tx.cur.m > 0 {
      assert tx.(cur := Slot(tx.cur.m, 0)) == tx;
      WalkOver(s.locks, c, tx, tx.cur.m - 1);
      assert tx.cur.m - 1 < |tx.msgs|;
      hide LocksOk;
    } else {
      assert tx.cur == Slot(0, 0);
      forall k ensures !Passed(tx.msgs, tx.cur, k) { PassNothing(tx.msgs, k); }
    }
  }

  lemma CheckStep(s: State, c: Client)
    requires Inv(s) && Enabled(s, Check(c))
    ensures Inv(CheckWatches(s, c))
  {
    hide HistOk, LocksOk, WatchesOk, ProgressOk, AllWatchesOk, View;
    var tx, tx' := s.txs[c], CheckWatches(s, c).txs[c];
    CheckLocks(s.locks, c, tx, tx');
    WatchesOnWalk(s.hist, tx, tx');
    CheckProgress(s.store, tx');
    hide Inv;
    OwnStep(s, c, tx');
  }

  lemma CheckProgress(store: map<Key, Entry>, tx: Tx)
    requires tx.phase.Running? ==> tx.phase.pc == FirstCmd(tx) && tx.snap == View(store)
    ensures ProgressOk(store, tx)
  {
  }

  lemma CheckLocks(locks: map<Key, Client>, c: Client, tx: Tx, tx': Tx)
    requires LocksOk(locks, c, tx) && tx.phase.Locking? && tx.cur.m == |tx.msgs|
    requires tx'.msgs == tx.msgs && tx'.cur == tx.cur && (tx'.phase.Running? || tx'.phase.Releasing?)
    ensures LocksOk(locks, c, tx')
  {
  }

  lemma CommitStep(s: State, c: Client)
    requires Inv(s) && Enabled(s, Commit(c))
    ensures Inv(Do(s, Commit(c)))
  {
  }

  /** A command leaves other keys alone, and what it does to its own depends on them only. */
  lemma RunCmdLocal(v: map<Key, Val>, w: map<Key, Val>, mm: Msg, k: Key)
    ensures k !in KeySet(mm) ==> Lookup(RunCmd(v, mm), k) == Lookup(v, k)
    ensures (forall x :: x in KeySet(mm) ==> Lookup(v, x) == Lookup(w, x)) && k in KeySet(mm)
      ==> Lookup(RunCmd(v, mm), k) == Lookup(RunCmd(w, mm), k)
  {
    var own := KeySet(mm);
    if forall x :: x in own ==> Lookup(v, x) == Lookup(w, x) {
      assert (map x | x in v && x in own :: v[x]) == (map x | x in w && x in own :: w[x]) by {
        forall x | x in own ensures (x in v <==> x in w) && (x in v ==> v[x] == w[x]) {
          assert Lookup(v, x) == Lookup(w, x);
        }
      }
    }
  }

  /** The same for a sequence of commands and any set of keys that contains theirs. */
  lemma {:induction false} RunAllLocal(v: map<Key, Val>, w: map<Key, Val>, msgs: seq<Msg>, i: nat, j: nat, ks: iset<Key>)
    requires i <= j <= |msgs| && forall p :: i <= p < j ==> forall k :: k in KeySet(msgs[p]) ==> k in ks
    ensures forall k :: k !in ks ==> Lookup(RunAll(v, msgs, i, j), k) == Lookup(v, k)
    ensures (forall k :: k in ks ==> Lookup(v, k) == Lookup(w, k))
      ==> forall k :: k in ks ==> Lookup(RunAll(v, msgs, i, j), k) == Lookup(RunAll(w, msgs, i, j), k)
  {
    if i < j {
      RunAllLocal(v, w, msgs, i, j - 1, ks);
      var v', w', mm := RunAll(v, msgs, i, j - 1), RunAll(w, msgs, i, j - 1), msgs[j - 1];
      hide RunCmd, KeySet;
      forall k { RunCmdLocal(v', w', mm, k); }
    }
  }

  /** What RunNext stores: the command's results, read back as values. */
  lemma RunNextView(s: State, c: Client, serials: map<Key, nat>, k: Key)
    requires c in s.txs && s.txs[c].phase.Running? && s.txs[c].phase.pc < |s.txs[c].msgs|
    requires FreshSerials(s, s.txs[c].msgs[s.txs[c].phase.pc], serials)
    ensures var mm := s.txs[c].msgs[s.txs[c].phase.pc];
            var s' := RunNext(s, c, serials);
            && Lookup(View(s'.store), k) == Lookup(RunCmd(View(s.store), mm), k)
            && (k !in KeySet(mm) ==> Lookup(s'.store, k) == Lookup(s.store, k))
  {
  }

  lemma RunNextHist(s: State, c: Client, serials: map<Key, nat>)
    requires c in s.txs && s.txs[c].phase.Running? && s.txs[c].phase.pc < |s.txs[c].msgs|
    requires FreshSerials(s, s.txs[c].msgs[s.txs[c].phase.pc], serials) && HistOk(s.store, s.hist)
    ensures var s' := RunNext(s, c, serials); HistOk(s'.store, s'.hist) && Extends(s.hist, s'.hist)
  {
    hide RunCmd, KeySet, View, Lookup;
  }

  /** The keys of every command of a running transaction are locked by it. */
  lemma CommandKeysHeld(s: State, c: Client, p: nat)
    requires Inv(s) && c in s.txs && s.txs[c].phase.Running? && p < |s.txs[c].msgs|
    ensures forall k :: k in KeySet(s.txs[c].msgs[p]) ==> Passed(s.txs[c].msgs, s.txs[c].cur, k) && HasLock(s, c, k)
  {
    var tx := s.txs[c];
    forall k | k in KeySet(tx.msgs[p]) ensures Passed(tx.msgs, tx.cur, k) && HasLock(s, c, k) {
      var n :| 0 <= n < |tx.msgs[p].keys| && tx.msgs[p].keys[n] == k;
      var a := Slot(p, n);
      assert IsSlot(tx.msgs, a) && Before(a, tx.cur);
      HoldsPassed(s.locks, c, tx, k);
    }
  }

  lemma RunNextFrame(s: State, c: Client, serials: map<Key, nat>)
    requires c in s.txs && s.txs[c].phase.Running? && s.txs[c].phase.pc < |s.txs[c].msgs|
    ensures var s' := RunNext(s, c, serials);
            s'.locks == s.locks && s'.txs == s.txs[c := s.txs[c].(phase := Running(s.txs[c].phase.pc + 1))]
  {
  }

  lemma ProgressAt(s: State, c: Client, serials: map<Key, nat>, r: map<Key, Val>, k: Key)
    requires c in s.txs && s.txs[c].phase.Running? && s.txs[c].phase.pc < |s.txs[c].msgs|
    requires var mm := s.txs[c].msgs[s.txs[c].phase.pc];
             && FreshSerials(s, mm, serials)
             && (forall x :: x in KeySet(mm) ==> Lookup(View(s.store), x) == Lookup(r, x))
             && Lookup(View(s.store), k) == Lookup(r, k)
    ensures Lookup(View(RunNext(s, c, serials).store), k) == Lookup(RunCmd(r, s.txs[c].msgs[s.txs[c].phase.pc]), k)
  {
    hide RunCmd, RunNext, KeySet, View, FreshSerials;
    var mm := s.txs[c].msgs[s.txs[c].phase.pc];
    RunNextView(s, c, serials, k);
    RunCmdLocal(View(s.store), r, mm, k);
    RunCmdLocal(r, r, mm, k);
  }

  lemma RunProgress(s: State, c: Client, serials: map<Key, nat>)
    requires CanRun(s, c, serials) && Inv(s)
    ensures ProgressOk(RunNext(s, c, serials).store, s.txs[c].(phase := Running(s.txs[c].phase.pc + 1)))
  {
    hide RunCmd, RunNext, KeySet, View, Passed, FreshSerials, LocksOk, WatchesOk, HistOk, Lookup;
    var tx := s.txs[c];
    var pc, i := tx.phase.pc, FirstCmd(tx);
    CommandKeysHeld(s, c, pc);
    assert ProgressOk(s.store, tx);
    var r := RunAll(tx.snap, tx.msgs, i, pc);
    forall k | Passed(tx.msgs, tx.cur, k)
      ensures Lookup(View(RunNext(s, c, serials).store), k) == Lookup(RunCmd(r, tx.msgs[pc]), k)
    {
      ProgressAt(s, c, serials, r, k);
    }
  }

  lemma RunStep(s: State, c: Client, serials: map<Key, nat>)
    requires CanRun(s, c, serials) && Inv(s)
    ensures Inv(RunNext(s, c, serials))
  {
    hide RunCmd, RunAll, RunNext, Passed, Owned, KeySet;
    var tx, s' := s.txs[c], RunNext(s, c, serials);
    RunNextHist(s, c, serials);
    RunNextFrame(s, c, serials);
    RunProgress(s, c, serials);
    RunKeepsOthers(s, s', c, serials);
    assert LocksOk(s'.locks, c, s'.txs[c]);
    assert WatchesOk(s.hist, s'.txs[c]);
    WatchesStay(s.hist, s'.hist, s'.txs[c]);
    hide LocksOk, WatchesOk, ProgressOk;
    assert TxInv(s'.store, s'.hist, s'.locks, c, s'.txs[c]);
    hide TxInv, Extends, HistOk;
    OthersUndisturbed(s, s', c);
  }

  lemma WatchesStay(hist: map<(Key, nat), Val>, hist': map<(Key, nat), Val>, tx: Tx)
    requires WatchesOk(hist, tx) && Extends(hist, hist')
    ensures WatchesOk(hist', tx)
  {
  }

  lemma RunKeepsOther(s: State, s': State, c: Client, serials: map<Key, nat>, d: Client, k: Key)
    requires CanRun(s, c, serials) && s' == RunNext(s, c, serials)
    requires Inv(s) && d != c && HasLock(s, d, k)
    ensures Lookup(s'.store, k) == Lookup(s.store, k)
  {
    CommandKeysHeld(s, c, s.txs[c].phase.pc);
    hide Inv, RunNext, Lookup, KeySet, FreshSerials;
    RunNextView(s, c, serials, k);
  }

  lemma RunKeepsOthers(s: State, s': State, c: Client, serials: map<Key, nat>)
    requires CanRun(s, c, serials) && s' == RunNext(s, c, serials)
    requires Inv(s)
    ensures forall d, k :: d in s.txs && d != c && HasLock(s, d, k) ==> Lookup(s'.store, k) == Lookup(s.store, k)
  {
    hide *;
    forall d, k | d in s.txs && d != c && HasLock(s, d, k) ensures Lookup(s'.store, k) == Lookup(s.store, k) {
      RunKeepsOther(s, s', c, serials, d, k);
    }
  }

  // ---------------------------------------------------------------- the invariant of every run

  /** Every step of every client keeps the invariant. */
  lemma StepKeepsInv(s: State, a: Action)
    requires Inv(s) && Enabled(s, a)
    ensures Inv(Do(s, a))
  {
    hide Inv, AcquireSlot, ReleaseSlot, CheckWatches, RunNext, Written, WithTx, Owned, FreshSerials, Lookup;
    match a
    case PlainLock(c, k) => PlainLockStep(s, c, k);
    case PlainUnlock(c, k) => PlainUnlockStep(s, c, k);
    case PlainWrite(c, k, v, serial) => PlainWriteStep(s, c, k, v, serial);
    case Begin(c) => BeginStep(s, c);
    case DoWatch(c, k) => WatchStep(s, c, k);
    case DoUnwatch(c) => LeaveStep(s, c);
    case DoMulti(c, mm) => MultiStep(s, c, mm);
    case DoQueue(c, mm) => QueueStep(s, c, mm);
    case DoDiscard(c) => LeaveStep(s, c);
    case DoExec(c) => ExecStep(s, c);
    case Acquire(c) => AcquireStepInv(s, c);
    case BackOff(c) => ReleaseStepInv(s, c, Locking);
    case Check(c) => CheckStep(s, c);
    case Run(c, serials) => RunStep(s, c, serials);
    case Commit(c) => CommitStep(s, c);
    case Release(c) => ReleaseStepInv(s, c, Finished(s.txs[c].phase.committed));
    case End(c) => LeaveStep(s, c);
  }

  // ---------------------------------------------------------------- atomicity

  /** The committed value of a key: what a running transaction has written counts from its commit
      on.  A client that acquires the key finds this value; WATCH, which acquires nothing, reads
      the store, which may be ahead of it. */
  function Look(s: State, k: Key): Option<Val> {
    if k in s.locks && s.locks[k] in s.txs && s.txs[s.locks[k]].phase.Running? then Lookup(s.txs[s.locks[k]].snap, k)
    else Lookup(View(s.store), k)
  }

  function Committed(s: State): map<Key, Val> {
    map k | k in s.store.Keys + s.locks.Keys && Look(s, k).Some? :: Look(s, k).value
  }

  lemma CommittedLook(s: State, k: Key)
    ensures Lookup(Committed(s), k) == Look(s, k)
  {
  }

  lemma SameLookups(v: map<Key, Val>, w: map<Key, Val>)
    requires forall k :: Lookup(v, k) == Lookup(w, k)
    ensures v == w
  {
    forall k ensures (k in v <==> k in w) && (k in v ==> v[k] == w[k]) {
      assert Lookup(v, k) == Lookup(w, k);
    }
  }

  /** The values of a command's own keys. */
  function OwnValues(v: map<Key, Val>, mm: Msg): map<Key, Val> {
    map k | k in v && k in mm.keys :: v[k]
  }

  /** From v to w the command mm has run: its keys have what its effect makes of the values of its
      keys, and all other keys have what they had. */
  ghost predicate Applies(mm: Msg, v: map<Key, Val>, w: map<Key, Val>) {
    forall k :: Lookup(w, k) == if k in mm.keys then Lookup(mm.eff(OwnValues(v, mm)), k) else Lookup(v, k)
  }

  /** The commands q have run one after the other, each of them once. */
  ghost predicate Chain(q: seq<Msg>, vs: seq<map<Key, Val>>) {
    |vs| == |q| + 1 && forall i :: 0 <= i < |q| ==> Applies(q[i], vs[i], vs[i + 1])
  }

  ghost predicate Applied(q: seq<Msg>, v: map<Key, Val>, w: map<Key, Val>) {
    exists vs :: Chain(q, vs) && vs[0] == v && vs[|q|] == w
  }

  lemma RunCmdApplies(v: map<Key, Val>, mm: Msg)
    ensures Applies(mm, v, RunCmd(v, mm))
  {
    assert OwnValues(v, mm) == map k | k in v && k in KeySet(mm) :: v[k];
  }

  /** Running the commands from the i-th on is running them one after the other. */
  lemma {:induction false} RunAllApplies(v: map<Key, Val>, msgs: seq<Msg>, i: nat, j: nat) returns (vs: seq<map<Key, Val>>)
    requires i <= j <= |msgs|
    ensures Chain(msgs[i..j], vs) && vs[0] == v && vs[j - i] == RunAll(v, msgs, i, j)
    decreases j
  {
    hide Applies, RunCmd;
    if i == j {
      vs := [v];
    } else {
      var before := RunAllApplies(v, msgs, i, j - 1);
      RunCmdApplies(before[j - 1 - i], msgs[j - 1]);
      vs := before + [RunAll(v, msgs, i, j)];
      assert forall p :: 0 <= p < j - 1 - i ==> msgs[i..j][p] == msgs[i..j - 1][p];
    }
  }

  /** The list of the transaction is q, after the message with the watched keys if there is one. */
  ghost predicate QueueIs(tx: Tx, q: seq<Msg>) {
    if tx.watches == [] || tx.msgs == [] then tx.msgs == q else tx.msgs[1..] == q
  }

  /** What a step makes of the committed values: a commit runs the commands q of the transaction one
      after the other, a write by a client outside of transactions changes its key, and every other
      step changes nothing. */
  ghost predicate Effects(a: Action, q: seq<Msg>, v: map<Key, Val>, w: map<Key, Val>) {
    match a
    case Commit(_) => Applied(q, v, w)
    case PlainWrite(_, k, x, _) => forall j :: Lookup(w, j) == if j == k then x else Lookup(v, j)
    case _ => w == v
  }

  /** The client c is not running a transaction. */
  predicate NotRunning(s: State, c: Client) {
    c in s.txs ==> !s.txs[c].phase.Running?
  }

  /** Locks, phases other than Running and the rest of c's record do not matter to what is committed. */
  lemma LookUnchanged(s: State, s': State, c: Client, k: Key)
    requires s'.store == s.store && s'.txs.Keys <= s.txs.Keys + {c} && s.txs.Keys <= s'.txs.Keys + {c}
    requires forall d :: d in s.txs && d in s'.txs && d != c ==> s'.txs[d] == s.txs[d]
    requires NotRunning(s, c) && NotRunning(s', c)
    requires forall d :: d != c ==> (HasLock(s', d, k) <==> HasLock(s, d, k))
    ensures Look(s', k) == Look(s, k)
  {
    assert k in s.locks && s.locks[k] != c ==> HasLock(s', s.locks[k], k);
    assert k in s'.locks && s'.locks[k] != c ==> HasLock(s, s'.locks[k], k);
  }

  lemma LooksUnchanged(s: State, s': State, c: Client)
    requires s'.store == s.store && s'.txs.Keys <= s.txs.Keys + {c} && s.txs.Keys <= s'.txs.Keys + {c}
    requires forall d :: d in s.txs && d in s'.txs && d != c ==> s'.txs[d] == s.txs[d]
    requires NotRunning(s, c) && NotRunning(s', c)
    requires forall d, k :: d != c ==> (HasLock(s', d, k) <==> HasLock(s, d, k))
    ensures Committed(s') == Committed(s)
  {
    hide Look, Committed, Lookup, NotRunning;
    forall k ensures Lookup(Committed(s'), k) == Lookup(Committed(s), k) {
      LookUnchanged(s, s', c, k);
      CommittedLook(s, k);
      CommittedLook(s', k);
    }
    SameLookups(Committed(s'), Committed(s));
  }

  lemma OwnRecordIsQuiet(s: State, c: Client, tx: Tx)
    requires NotRunning(s, c) && !tx.phase.Running?
    ensures Committed(WithTx(s, c, tx)) == Committed(s)
  {
    LooksUnchanged(s, WithTx(s, c, tx), c);
  }

  lemma LeavingIsQuiet(s: State, c: Client)
    requires NotRunning(s, c)
    ensures Committed(s.(txs := s.txs - {c})) == Committed(s)
  {
  }

  lemma PlainLocksAreQuiet(s: State, c: Client, k: Key)
    requires c !in s.txs
    ensures k !in s.locks ==> Committed(s.(locks := s.locks[k := c])) == Committed(s)
    ensures HasLock(s, c, k) ==> Committed(s.(locks := s.locks - {k})) == Committed(s)
  {
    hide Committed;
    if k !in s.locks { LooksUnchanged(s, s.(locks := s.locks[k := c]), c); }
    if HasLock(s, c, k) { LooksUnchanged(s, s.(locks := s.locks - {k}), c); }
  }

  lemma AcquiringIsQuiet(s: State, c: Client)
    requires InPhase(s, c, Locking) && s.txs[c].cur.m < |s.txs[c].msgs|
    ensures Committed(AcquireSlot(s, c)) == Committed(s)
  {
    hide Committed;
    LooksUnchanged(s, AcquireSlot(s, c), c);
  }

  lemma ReleasingIsQuiet(s: State, c: Client, done: Phase)
    requires Inv(s) && c in s.txs && !s.txs[c].phase.Running? && Walking(s.txs[c].phase) && !done.Running?
    ensures Committed(ReleaseSlot(s, c, done)) == Committed(s)
  {
    hide Committed, Owned, Passed, WatchesOk, ProgressOk, HistOk;
    var tx := s.txs[c];
    if tx.cur.n > 0 { WalkBackward(s.locks, c, tx); }
    hide Inv, LocksOk;
    LooksUnchanged(s, ReleaseSlot(s, c, done), c);
  }

  /** When the watch check passes, what the transaction sees is what is committed. */
  lemma CheckingIsQuiet(s: State, c: Client)
    requires InPhase(s, c, Locking)
    ensures Committed(CheckWatches(s, c)) == Committed(s)
  {
    hide Committed, AllWatchesOk;
    var s' := CheckWatches(s, c);
    forall k ensures Lookup(Committed(s'), k) == Lookup(Committed(s), k) {
      CommittedLook(s, k);
      CommittedLook(s', k);
    }
    SameLookups(Committed(s'), Committed(s));
  }

  /** A command of a running transaction writes only keys it has locked, whose committed values stay. */
  lemma RunningIsQuiet(s: State, s': State, c: Client, serials: map<Key, nat>)
    requires CanRun(s, c, serials) && s' == RunNext(s, c, serials)
    requires Inv(s)
    ensures Committed(s') == Committed(s)
  {
    CommandKeysHeld(s, c, s.txs[c].phase.pc);
    hide Inv, Committed, RunCmd, RunNext, KeySet, FreshSerials;
    RunNextFrame(s, c, serials);
    forall k ensures Lookup(Committed(s'), k) == Lookup(Committed(s), k) {
      CommittedLook(s, k);
      CommittedLook(s', k);
      RunNextView(s, c, serials, k);
      RunLook(s, s', c, k);
    }
    SameLookups(Committed(s'), Committed(s));
  }

  lemma RunLook(s: State, s': State, c: Client, k: Key)
    requires c in s.txs && s.txs[c].phase.Running? && s'.locks == s.locks
    requires s'.txs == s.txs[c := s.txs[c].(phase := Running(s.txs[c].phase.pc + 1))]
    requires HasLock(s, c, k) || Lookup(s'.store, k) == Lookup(s.store, k)
    ensures Look(s', k) == Look(s, k)
  {
  }

  lemma WriteEffect(s: State, c: Client, k: Key, v: Option<Val>, serial: nat)
    requires c !in s.txs && HasLock(s, c, k)
    ensures forall x :: Lookup(Committed(Written(s, k, v, serial)), x) == if x == k then v else Lookup(Committed(s), x)
  {
    var s' := Written(s, k, v, serial);
    hide Committed;
    forall x ensures Lookup(Committed(s'), x) == if x == k then v else Lookup(Committed(s), x) {
      CommittedLook(s, x);
      CommittedLook(s', x);
    }
  }

  lemma CommitProgress(s: State, c: Client, k: Key)
    requires Inv(s) && c in s.txs && s.txs[c].phase == Running(|s.txs[c].msgs|)
    ensures var tx := s.txs[c];
            && FirstCmd(tx) <= |tx.msgs|
            && (HasLock(s, c, k) ==>
                  Lookup(View(s.store), k) == Lookup(RunAll(tx.snap, tx.msgs, FirstCmd(tx), |tx.msgs|), k))
  {
  }

  /** From wherever in the list they begin, the commands do to what is committed what they did to
      what the watch check saw. */
  lemma CommitRuns(s: State, c: Client, v: map<Key, Val>, i: nat, k: Key)
    requires Inv(s) && c in s.txs && s.txs[c].phase == Running(|s.txs[c].msgs|) && i <= |s.txs[c].msgs|
    requires forall x :: HasLock(s, c, x) ==> Lookup(v, x) == Lookup(s.txs[c].snap, x)
    ensures var tx := s.txs[c];
            var r := Lookup(RunAll(v, tx.msgs, i, |tx.msgs|), k);
            r == if HasLock(s, c, k) then Lookup(RunAll(tx.snap, tx.msgs, i, |tx.msgs|), k) else Lookup(v, k)
  {
    var tx := s.txs[c];
    var held := iset k: Key | HasLock(s, c, k);
    forall p | 0 <= p < |tx.msgs| ensures forall k :: k in KeySet(tx.msgs[p]) ==> k in held { CommandKeysHeld(s, c, p); }
    hide Inv, RunAll, KeySet, Lookup, HasLock;
    RunAllLocal(v, tx.snap, tx.msgs, i, |tx.msgs|, held);
  }

  /** One key at a commit: its own keys have the values of the commands, run on what was
      committed so far, and all others stay. */
  lemma CommitLook(s: State, c: Client, v: map<Key, Val>, k: Key)
    requires Inv(s) && c in s.txs && s.txs[c].phase == Running(|s.txs[c].msgs|)
    requires forall x :: Lookup(v, x) == Look(s, x)
    ensures FirstCmd(s.txs[c]) <= |s.txs[c].msgs|
    ensures Look(WithTx(s, c, s.txs[c].(phase := Releasing(true))), k)
         == Lookup(RunAll(v, s.txs[c].msgs, FirstCmd(s.txs[c]), |s.txs[c].msgs|), k)
  {
    hide Inv, RunAll, FirstCmd, View, Lookup;
    CommitProgress(s, c, k);
    forall x | HasLock(s, c, x) ensures Lookup(v, x) == Lookup(s.txs[c].snap, x) { assert Lookup(v, x) == Look(s, x); }
    CommitRuns(s, c, v, FirstCmd(s.txs[c]), k);
    assert Lookup(v, k) == Look(s, k);
  }

  /** What is committed after a commit: the commands have run on what was committed before. */
  lemma CommitRunsAll(s: State, c: Client)
    requires Inv(s) && Enabled(s, Commit(c))
    ensures var tx := s.txs[c];
            && FirstCmd(tx) <= |tx.msgs|
            && Committed(Do(s, Commit(c))) == RunAll(Committed(s), tx.msgs, FirstCmd(tx), |tx.msgs|)
  {
    var s', v, tx := Do(s, Commit(c)), Committed(s), s.txs[c];
    forall x ensures Lookup(v, x) == Look(s, x) { CommittedLook(s, x); }
    assert FirstCmd(tx) <= |tx.msgs| by { CommitProgress(s, c, Key(0, 0)); }
    hide Inv, Committed, RunAll, Look;
    forall k ensures Lookup(Committed(s'), k) == Lookup(RunAll(v, tx.msgs, FirstCmd(tx), |tx.msgs|), k) {
      CommitLook(s, c, v, k);
      CommittedLook(s', k);
    }
    SameLookups(Committed(s'), RunAll(v, tx.msgs, FirstCmd(tx), |tx.msgs|));
  }

  /** Committing makes the whole transaction count at once, as if its commands had been run one
      after the other at that moment. */
  lemma CommitEffect(s: State, c: Client, q: seq<Msg>)
    requires Inv(s) && Enabled(s, Commit(c)) && QueueIs(s.txs[c], q)
    ensures Applied(q, Committed(s), Committed(Do(s, Commit(c))))
  {
    CommitRunsAll(s, c);
    var tx := s.txs[c];
    var i := FirstCmd(tx);
    var vs := RunAllApplies(Committed(s), tx.msgs, i, |tx.msgs|);
    hide Inv, Committed, RunAll, Do, Enabled, Chain;
    assert tx.msgs[i..|tx.msgs|] == q;
  }

  /** Main result: every step of every interleaving either commits nothing, or is one write by a
      client outside of transactions, or one whole transaction. */
  lemma StepEffect(s: State, a: Action, q: seq<Msg>)
    requires Inv(s) && Enabled(s, a) && (a.Commit? ==> QueueIs(s.txs[a.c], q))
    ensures Effects(a, q, Committed(s), Committed(Do(s, a)))
  {
    hide Inv, Committed, Applied;
    match a
    case PlainLock(c, k) => PlainLocksAreQuiet(s, c, k);
    case PlainUnlock(c, k) => PlainLocksAreQuiet(s, c, k);
    case PlainWrite(c, k, v, serial) => WriteEffect(s, c, k, v, serial);
    case Begin(c) => OwnRecordIsQuiet(s, c, Do(s, a).txs[c]);
    case DoWatch(c, k) => OwnRecordIsQuiet(s, c, Do(s, a).txs[c]);
    case DoUnwatch(c) => LeavingIsQuiet(s, c);
    case DoMulti(c, mm) => OwnRecordIsQuiet(s, c, Do(s, a).txs[c]);
    case DoQueue(c, mm) => OwnRecordIsQuiet(s, c, Do(s, a).txs[c]);
    case DoDiscard(c) => LeavingIsQuiet(s, c);
    case DoExec(c) => OwnRecordIsQuiet(s, c, Do(s, a).txs[c]);
    case Acquire(c) => AcquiringIsQuiet(s, c);
    case BackOff(c) => ReleasingIsQuiet(s, c, Locking);
    case Check(c) => CheckingIsQuiet(s, c);
    case Run(c, serials) => RunningIsQuiet(s, Do(s, a), c, serials);
    case Commit(c) => CommitEffect(s, c, q);
    case Release(c) => ReleasingIsQuiet(s, c, Finished(s.txs[c].phase.committed));
    case End(c) => LeavingIsQuiet(s, c);
  }

  // ---------------------------------------------------------------- whole runs

  ghost predicate Legal(s: State, run: seq<Action>)
    decreases |run|
  {
    run == [] || (Enabled(s, run[0]) && Legal(Do(s, run[0]), run[1..]))
  }

  ghost function After(s: State, run: seq<Action>): State
    requires Legal(s, run)
    decreases |run|
  {
    if run == [] then s else After(Do(s, run[0]), run[1..])
  }

  const INITIAL := State(map[], map[], map[], map[])

  lemma InitialInv()
    ensures Inv(INITIAL)
  {
  }

  /** When no transaction is running, the store holds what is committed. */
  lemma QuiescentStore(s: State)
    requires forall c :: c in s.txs ==> !s.txs[c].phase.Running?
    ensures Committed(s).Keys == s.store.Keys && forall k :: k in s.store ==> Committed(s)[k] == s.store[k].val
  {
    forall k ensures Lookup(Committed(s), k) == Lookup(View(s.store), k) { CommittedLook(s, k); }
    SameLookups(Committed(s), View(s.store));
  }

  /** No transaction that is over, discarded or not yet executing holds a lock. */
  lemma NothingLeftLocked(s: State, c: Client, k: Key)
    requires Inv(s) && c in s.txs && (s.txs[c].phase.Finished? || s.txs[c].phase.Queueing?)
    ensures !HasLock(s, c, k)
  {
  }

  /** Nor does a client whose transaction has just been discarded, unwatched or ended. */
  lemma LeavesNothingLocked(s: State, a: Action, k: Key)
    requires Inv(s) && Enabled(s, a) && (a.DoDiscard? || a.DoUnwatch? || a.End?)
    ensures a.c !in Do(s, a).txs && !HasLock(Do(s, a), a.c, k)
  {
    NothingLeftLocked(s, a.c, k);
  }

  /** The lock walk never finds a key busy because the transaction itself holds it: at an owning
      slot the key has not been acquired yet. */
  lemma NoSelfConflict(s: State, c: Client)
    requires Inv(s) && InPhase(s, c, Locking) && IsSlot(s.txs[c].msgs, s.txs[c].cur)
    ensures Owns(s.txs[c].msgs, s.txs[c].cur) <==> !HasLock(s, c, KeyAt(s.txs[c].msgs, s.txs[c].cur))
  {
  }

  // ---------------------------------------------------------------- the watch check

  /** The comparison with the recorded serial is exact: it succeeds if and only if the key is
      in the state, absent or the very same entry, that WATCH saw. */
  lemma WatchOkIff(store: map<Key, Entry>, hist: map<(Key, nat), Val>, w: Watch)
    requires HistOk(store, hist) && WatchRecorded(hist, w)
    ensures WatchOk(store, w) <==> Lookup(store, w.key) == w.seen
  {
  }

  /** When the check is made, the transaction has locked every watched key. */
  lemma WatchedKeysHeld(s: State, c: Client, i: nat)
    requires Inv(s) && InPhase(s, c, Locking) && s.txs[c].cur.m == |s.txs[c].msgs| > 0
    requires i < |s.txs[c].watches|
    ensures HasLock(s, c, s.txs[c].watches[i].key)
  {
    var tx := s.txs[c];
    assert WatchesOk(s.hist, tx) && LocksOk(s.locks, c, tx);
    hide Inv;
    var a := Slot(0, i);
    assert IsSlot(tx.msgs, a) && Before(a, tx.cur) && KeyAt(tx.msgs, a) == tx.watches[i].key;
    hide LocksOk, WatchesOk;
    HoldsPassed(s.locks, c, tx, tx.watches[i].key);
  }

  /** Main result on WATCH: a transaction goes on to its commands if and only if it watches nothing, or
      has a list and every watched key is still, with all of them locked by the transaction, in the
      state that WATCH saw. */
  lemma WatchCheckIff(s: State, c: Client)
    requires Inv(s) && InPhase(s, c, Locking) && s.txs[c].cur.m == |s.txs[c].msgs|
    ensures var tx, tx' := s.txs[c], CheckWatches(s, c).txs[c];
            && (tx.msgs != [] ==> forall i :: 0 <= i < |tx.watches| ==> HasLock(s, c, tx.watches[i].key))
            && (tx'.phase.Running? || tx'.phase == Releasing(false))
            && (tx'.phase.Running? <==>
                  || tx.watches == []
                  || (tx.msgs != [] && forall i :: 0 <= i < |tx.watches| ==> Lookup(s.store, tx.watches[i].key) == tx.watches[i].seen))
  {
    var tx := s.txs[c];
    var ws := tx.watches;
    assert WatchesOk(s.hist, tx);
    hide LocksOk, ProgressOk;
    if tx.msgs != [] {
      forall i | 0 <= i < |ws| ensures HasLock(s, c, ws[i].key) { WatchedKeysHeld(s, c, i); }
    }
    forall i | 0 <= i < |ws| ensures WatchOk(s.store, ws[i]) <==> Lookup(s.store, ws[i].key) == ws[i].seen {
      WatchOkIff(s.store, s.hist, ws[i]);
    }
    hide Inv, WatchOk, Lookup, HasLock;
  }
}
