/** What EXEC has done at the end of a run, told from the actions of the run alone
    (src/redis_transaction.cpp:148-249 and 251-303): a commit runs the commands that its client has
    queued since MULTI, each of them once and in that order. */
module TransactionHistory {

  import opened Common
  import opened TransactionQueue
  import opened TransactionLocks
  import opened TransactionRuns
  import opened TransactionWatch

  /** The commands that c has sent in the run since its last MULTI, in order. */
  function Queued(run: seq<Action>, c: Client): seq<Msg> {
    if run == [] then []
    else QueuedNext(Queued(run[..|run| - 1], c), run[|run| - 1], c)
  }

  function QueuedNext(q: seq<Msg>, a: Action, c: Client): seq<Msg> {
    match a
    case Begin(d) => if d == c then [] else q
    case DoMulti(d, _) => if d == c then [] else q
    case DoQueue(d, mm) => if d == c then q + [mm] else q
    case _ => q
  }

  // ---------------------------------------------------------------- the list of a transaction

  lemma OthersComeWithBegin(s: State, a: Action, c: Client)
    requires Enabled(s, a) && c !in s.txs && c in Do(s, a).txs
    ensures a == Begin(c)
  {
    hide Owned, HasLock, CanRun, Lookup, AcquireSlot, ReleaseSlot, CheckWatches, RunNext;
    match a
    case Acquire(d) => WalkingRecords(s, d, Locking);
    case BackOff(d) => WalkingRecords(s, d, Locking);
    case Release(d) => WalkingRecords(s, d, Finished(s.txs[d].phase.committed));
    case Check(d) => CheckingRecords(s, d);
    case Run(d, serials) => RunningRecords(s, d, serials);
    case _ =>
  }

  /** The steps of EXEC leave the list and the watches alone. */
  lemma WalksKeepLists(s: State, c: Client, done: Phase)
    requires c in s.txs
    ensures s.txs[c].cur.m < |s.txs[c].msgs| ==>
      var s' := AcquireSlot(s, c); c in s'.txs && s'.txs[c].msgs == s.txs[c].msgs && s'.txs[c].watches == s.txs[c].watches
    ensures var s' := ReleaseSlot(s, c, done);
            c in s'.txs && s'.txs[c].msgs == s.txs[c].msgs && s'.txs[c].watches == s.txs[c].watches
  {
    hide AcquireSlot, ReleaseSlot;
    var tx, locks := ReleaseForm(s, c, done);
    if s.txs[c].cur.m < |s.txs[c].msgs| { tx, locks := AcquireForm(s, c); }
  }

  lemma ExecKeepsLists(s: State, a: Action)
    requires Enabled(s, a) && a.c in s.txs && (a.Acquire? || a.BackOff? || a.Check? || a.Run? || a.Commit? || a.Release? || a.DoExec?)
    ensures a.c in Do(s, a).txs
    ensures Do(s, a).txs[a.c].msgs == s.txs[a.c].msgs && Do(s, a).txs[a.c].watches == s.txs[a.c].watches
  {
    hide Owned, HasLock, FreshSerials, Lookup, AcquireSlot, ReleaseSlot, AllWatchesOk, View, RunCmd;
    match a
    case Acquire(c) => WalksKeepLists(s, c, Locking);
    case BackOff(c) => WalksKeepLists(s, c, Locking);
    case Release(c) => WalksKeepLists(s, c, Finished(s.txs[c].phase.committed));
    case _ =>
  }

  lemma QueueingQueues(s: State, a: Action, q: seq<Msg>)
    requires Enabled(s, a) && a.c in s.txs && (a.DoWatch? || a.DoMulti? || a.DoQueue?)
    requires WatchesOk(s.hist, s.txs[a.c]) && QueueIs(s.txs[a.c], q)
    ensures a.c in Do(s, a).txs && QueueIs(Do(s, a).txs[a.c], QueuedNext(q, a, a.c))
  {
    hide Owned, Lookup;
  }

  lemma StartsWithNothing(s: State, a: Action, q: seq<Msg>)
    requires Enabled(s, a) && (a.Begin? || a.PlainLock? || a.PlainUnlock? || a.PlainWrite?)
    ensures a.c in Do(s, a).txs ==> QueueIs(Do(s, a).txs[a.c], QueuedNext(q, a, a.c))
  {
    hide Owned, HasLock, Lookup;
  }

  lemma HasRecord(s: State, a: Action)
    requires Enabled(s, a) && !(a.Begin? || a.PlainLock? || a.PlainUnlock? || a.PlainWrite?)
    ensures a.c in s.txs
    ensures a.DoUnwatch? || a.DoDiscard? || a.End? ==> a.c !in Do(s, a).txs
  {
    hide Owned, Lookup, FreshSerials, AcquireSlot, ReleaseSlot, CheckWatches, RunNext;
  }

  /** One step of c itself. */
  lemma OwnStepQueues(s: State, a: Action, q: seq<Msg>)
    requires Inv(s) && Enabled(s, a) && a.c in Do(s, a).txs && (a.c in s.txs ==> QueueIs(s.txs[a.c], q))
    ensures QueueIs(Do(s, a).txs[a.c], QueuedNext(q, a, a.c))
  {
    hide Enabled, Do, TxInv;
    if a.Begin? || a.PlainLock? || a.PlainUnlock? || a.PlainWrite? {
      StartsWithNothing(s, a, q);
    } else {
      HasRecord(s, a);
      RecordIsOk(s, a.c);
      if a.DoWatch? || a.DoMulti? || a.DoQueue? {
        QueueingQueues(s, a, q);
      } else {
        ExecKeepsLists(s, a);
        hide WatchesOk, Inv;
      }
    }
  }

  lemma RecordIsOk(s: State, c: Client)
    requires Inv(s) && c in s.txs
    ensures WatchesOk(s.hist, s.txs[c])
  {
    hide LocksOk, ProgressOk, HistOk, WatchesOk;
  }

  lemma StepQueues(s: State, a: Action, c: Client, q: seq<Msg>)
    requires Inv(s) && Enabled(s, a) && c in Do(s, a).txs && (c in s.txs ==> QueueIs(s.txs[c], q))
    ensures QueueIs(Do(s, a).txs[c], QueuedNext(q, a, c))
  {
    if a.c == c {
      hide Inv, Enabled, Do, QueueIs;
      OwnStepQueues(s, a, q);
    } else {
      if c !in s.txs { OthersComeWithBegin(s, a, c); }
      OthersKeepTx(s, a, c);
      hide Inv, Enabled, Do, QueueIs;
    }
  }

  /** In every run the list of a transaction is what its client has queued, and nothing else. */
  lemma {:induction false} ListIsQueued(s: State, run: seq<Action>, c: Client)
    requires Inv(s) && s.txs == map[] && Legal(s, run) && c in After(s, run).txs
    ensures QueueIs(After(s, run).txs[c], Queued(run, c))
    decreases |run|
  {
    if run != [] {
      hide Inv, Enabled, Do, QueueIs, QueuedNext;
      var n := |run| - 1;
      assert run[..n] + [run[n]] == run;
      LegalMore(s, run[..n], run[n]);
      InvAfter(s, run[..n]);
      if c in After(s, run[..n]).txs { ListIsQueued(s, run[..n], c); }
      StepQueues(After(s, run[..n]), run[n], c, Queued(run[..n], c));
    }
  }

  // ---------------------------------------------------------------- what the client is told

  /** The transaction that c has begun last has been committed in the run. */
  function HasCommitted(run: seq<Action>, c: Client): bool {
    run != [] && CommittedNext(HasCommitted(run[..|run| - 1], c), run[|run| - 1], c)
  }

  predicate CommittedNext(b: bool, a: Action, c: Client) {
    if a == Begin(c) then false else if a == Commit(c) then true else b
  }

  predicate Tells(tx: Tx, b: bool) {
    b <==> tx.phase == Releasing(true) || tx.phase == Finished(true)
  }

  lemma OwnStepTells(s: State, a: Action, b: bool)
    requires Enabled(s, a) && a.c in Do(s, a).txs && (a.c in s.txs ==> Tells(s.txs[a.c], b))
    ensures Tells(Do(s, a).txs[a.c], CommittedNext(b, a, a.c))
  {
    hide Owned, HasLock, FreshSerials, Lookup, AcquireSlot, ReleaseSlot, AllWatchesOk, View, RunCmd, KeySet;
    match a
    case Acquire(c) => WalkingRecords(s, c, Locking);
    case BackOff(c) => WalkingRecords(s, c, Locking);
    case Release(c) => WalkingRecords(s, c, Finished(s.txs[c].phase.committed));
    case _ =>
  }

  lemma StepTells(s: State, a: Action, c: Client, b: bool)
    requires Enabled(s, a) && c in Do(s, a).txs && (c in s.txs ==> Tells(s.txs[c], b))
    ensures Tells(Do(s, a).txs[c], CommittedNext(b, a, c))
  {
    hide Enabled, Do, Tells;
    if a.c == c {
      OwnStepTells(s, a, b);
    } else {
      if c !in s.txs { OthersComeWithBegin(s, a, c); }
      OthersKeepTx(s, a, c);
    }
  }

  /** EXEC ends with results if and only if the transaction has been committed, in every run. */
  lemma {:induction false} ToldIfCommitted(s: State, run: seq<Action>, c: Client)
    requires s.txs == map[] && Legal(s, run) && c in After(s, run).txs
    ensures var p := After(s, run).txs[c].phase;
            HasCommitted(run, c) <==> p == Releasing(true) || p == Finished(true)
    decreases |run|
  {
    if run != [] {
      hide Enabled, Do, CommittedNext;
      var n := |run| - 1;
      assert run[..n] + [run[n]] == run;
      LegalMore(s, run[..n], run[n]);
      if c in After(s, run[..n]).txs { ToldIfCommitted(s, run[..n], c); }
      StepTells(After(s, run[..n]), run[n], c, HasCommitted(run[..n], c));
    }
  }

  // ---------------------------------------------------------------- the committed values

  lemma {:induction false} LegalPart(s: State, run: seq<Action>, i: nat)
    requires Legal(s, run) && i <= |run|
    ensures Legal(s, run[..i])
    decreases |run| - i
  {
    hide Enabled, Do;
    if i == |run| {
      assert run[..i] == run;
    } else {
      LegalPart(s, run, i + 1);
      assert run[..i + 1] == run[..i] + [run[i]];
      LegalMore(s, run[..i], run[i]);
    }
  }

  /** What is committed after the first i actions of a run. */
  ghost function ValuesAt(s: State, run: seq<Action>, i: nat): map<Key, Val>
    requires Legal(s, run) && i <= |run|
  {
    LegalPart(s, run, i);
    Committed(After(s, run[..i]))
  }

  lemma ValuesStep(s: State, run: seq<Action>, i: nat)
    requires Inv(s) && Legal(s, run) && i < |run|
    ensures Legal(s, run[..i]) && Inv(After(s, run[..i])) && Enabled(After(s, run[..i]), run[i])
    ensures ValuesAt(s, run, i) == Committed(After(s, run[..i]))
    ensures ValuesAt(s, run, i + 1) == Committed(Do(After(s, run[..i]), run[i]))
  {
    hide Inv, Enabled, Do, Committed, After, Legal;
    LegalPart(s, run, i);
    LegalPart(s, run, i + 1);
    assert run[..i + 1] == run[..i] + [run[i]];
    LegalMore(s, run[..i], run[i]);
    InvAfter(s, run[..i]);
  }

  lemma CommitsOwn(s: State, c: Client)
    requires Enabled(s, Commit(c))
    ensures c in s.txs
  {
  }

  lemma ActionEffect(s: State, run: seq<Action>, i: nat)
    requires Inv(s) && s.txs == map[] && Legal(s, run) && i < |run|
    ensures Effects(run[i], Queued(run[..i], run[i].c), ValuesAt(s, run, i), ValuesAt(s, run, i + 1))
  {
    hide Inv, Enabled, Do, QueueIs, Effects, Committed, Legal, After, Queued, ValuesAt;
    ValuesStep(s, run, i);
    var t := After(s, run[..i]);
    if run[i].Commit? {
      CommitsOwn(t, run[i].c);
      ListIsQueued(s, run[..i], run[i].c);
    }
    StepEffect(t, run[i], Queued(run[..i], run[i].c));
  }

  /** Main result over whole runs: in every interleaving of every set of clients, each action makes
      of the committed values what it makes of them when nobody else is there.  A commit runs exactly
      the commands that its client has queued since MULTI, one after the other, and all other
      actions of transactions change nothing. */
  lemma RunsAreSerial(s: State, run: seq<Action>)
    requires Inv(s) && s.txs == map[] && Legal(s, run)
    ensures Inv(After(s, run)) && ValuesAt(s, run, |run|) == Committed(After(s, run))
    ensures forall i :: 0 <= i < |run| ==>
      Effects(run[i], Queued(run[..i], run[i].c), ValuesAt(s, run, i), ValuesAt(s, run, i + 1))
  {
    InvAfter(s, run);
    assert run[..|run|] == run;
    hide Inv, Enabled, Effects, Committed, Legal, After, Queued;
    forall i | 0 <= i < |run|
      ensures Effects(run[i], Queued(run[..i], run[i].c), ValuesAt(s, run, i), ValuesAt(s, run, i + 1))
    {
      ActionEffect(s, run, i);
    }
  }

  lemma {:induction false} SameChain(q: seq<Msg>, vs: seq<map<Key, Val>>, ws: seq<map<Key, Val>>, i: nat)
    requires Chain(q, vs) && Chain(q, ws) && vs[0] == ws[0] && i <= |q|
    ensures vs[i] == ws[i]
  {
    if i > 0 {
      SameChain(q, vs, ws, i - 1);
      assert Applies(q[i - 1], vs[i - 1], vs[i]) && Applies(q[i - 1], ws[i - 1], ws[i]);
      hide Lookup;
      SameLookups(vs[i], ws[i]);
    }
  }

  /** There is only one outcome of running commands one after the other. */
  lemma AppliedOnce(q: seq<Msg>, v: map<Key, Val>, w: map<Key, Val>, x: map<Key, Val>)
    requires Applied(q, v, w) && Applied(q, v, x)
    ensures w == x
  {
    var vs :| Chain(q, vs) && vs[0] == v && vs[|q|] == w;
    var ws :| Chain(q, ws) && ws[0] == v && ws[|q|] == x;
    hide Chain;
    SameChain(q, vs, ws, |q|);
  }
}
