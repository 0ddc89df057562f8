/** DEL, RENAME and RENAMENX (src/redis_key.cpp:17-31 and 291-373) run by the scheduler, while no other
    client works on the keys. */
module KeyCommands {

  import opened Common
  import opened Bytes
  import opened Scheduler

  // ---------------------------------------------------------------- DEL

  /** exec_del. */
  function DelCommand(names: seq<bytes>): Command {
    Command((r: Run, i: nat) =>
      if i >= |r.keys| then Visit(r.store, KeyCtx(Ok, 0, 0, None, 0), true)
      else if i >= |names| then Visit(r.store, r.keys[i].(status := Ok), true)
      else if names[i] in r.store then Visit(r.store - {names[i]}, r.keys[i].(status := SendInt, ival := 1), false)
      else Visit(r.store, r.keys[i].(status := SendInt, ival := 0), false), false)
  }

  /** The keys that are done have been deleted, and as many keys are missing as have been counted. */
  ghost predicate DelWorks(store: Store, names: seq<bytes>, r: Run) {
    && |r.keys| == |names|
    && (forall i :: 0 <= i < |names| ==>
          if Live(r.keys[i].status) then r.keys[i] == KeyCtx(Continue, 0, 0, None, 0)
          else r.keys[i].status == SendInt && names[i] !in r.store)
    && (forall k :: k in r.store ==> k in store && r.store[k] == store[k])
    && (forall k :: k in store && k !in names ==> k in r.store)
    && Sum(r.keys) + |r.store| == |store|
    && r.strm == (if r.keyDone == |names| then [IntReply(Sum(r.keys))] else [])
  }

  lemma DelStep(store: Store, names: seq<bytes>, r: Run, i: nat)
    requires DelWorks(store, names, r) && i < |names| && Live(r.keys[i].status) && r.keyDone < |names| && r.strm == []
    ensures DelWorks(store, names, Step(DelCommand(names), r, i))
  {
    hide Sum;
    var there := names[i] in r.store;
    DelVisit(names, r, i);
    SumWith(r.keys, i, r.keys[i].(status := SendInt, ival := if there then 1 else 0));
    if there { Without(r.store, names[i]); }
    hide Step, DelCommand;
  }

  lemma DelVisit(names: seq<bytes>, r: Run, i: nat)
    requires |r.keys| == |names| && i < |names| && r.keyDone < |names| && r.strm == []
    ensures var there, n := names[i] in r.store, r.keyDone + 1;
            var keys := r.keys[i := r.keys[i].(status := SendInt, ival := if there then 1 else 0)];
            Step(DelCommand(names), r, i) == Run(if there then r.store - {names[i]} else r.store, keys, n,
                                                 if n == |names| then [IntReply(Sum(keys))] else [])
  {
    hide Sum;
  }

  lemma Without(store: Store, k: bytes)
    requires k in store
    ensures |store - {k}| == |store| - 1
  {
    assert (store - {k}).Keys == store.Keys - {k};
    assert |store.Keys - {k}| == |store.Keys| - 1;
  }

  lemma DelObeys(names: seq<bytes>)
    ensures Obeys(DelCommand(names)) && NeverWaits(DelCommand(names))
  {
  }

  lemma DelBegins(store: Store, names: seq<bytes>)
    requires names != []
    ensures DelWorks(store, names, Setup(store, |names|))
  {
    SumOfNothing(Setup(store, |names|).keys);
  }

  lemma {:induction false} SumOfNothing(keys: seq<KeyCtx>)
    requires forall i :: 0 <= i < |keys| ==> keys[i].ival == 0
    ensures Sum(keys) == 0
  {
    if keys != [] { SumOfNothing(keys[1..]); }
  }

  lemma {:induction false} DelKeeps(store: Store, names: seq<bytes>, vs: seq<nat>)
    requires names != [] && Legal(DelCommand(names), Setup(store, |names|), vs)
    ensures DelWorks(store, names, Play(DelCommand(names), Setup(store, |names|), vs))
  {
    var cmd, start, k := DelCommand(names), Setup(store, |names|), |vs| - 1;
    if vs == [] {
      DelBegins(store, names);
    } else {
      LegalPrefix(cmd, start, vs, k);
      DelKeeps(store, names, vs[..k]);
      DelObeys(names);
      CountsEachKeyOnce(cmd, start, vs[..k]);
      assert Live(Play(cmd, start, vs[..k]).keys[vs[k]].status);
      hide DelCommand, Setup, Obeys, NeverWaits, Accounted, Step;
      LiveMeansWorking(cmd, Play(cmd, start, vs[..k]), DoneBy(cmd, start, vs[..k]), vs[k]);
      DelStep(store, names, Play(cmd, start, vs[..k]), vs[k]);
      hide DelWorks;
    }
  }

  /** What DEL does and answers: the names are gone, all other keys are as before, and the reply is the
      number of names that were there, each counted once. */
  ghost predicate Deleted(store: Store, names: seq<bytes>, after: Store, strm: seq<Reply>) {
    && after.Keys == store.Keys - (set k | k in names)
    && (forall k :: k in after ==> after[k] == store[k])
    && strm == [IntReply(|set k | k in names && k in store|)]
  }

  lemma DelSettled(cmd: Command, store: Store, names: seq<bytes>, r: Run, ds: seq<nat>)
    requires names != [] && DelWorks(store, names, r) && Accounted(cmd, r, ds) && Halted(r)
    ensures r.keyDone == |names| && forall k :: k in names ==> k !in r.store
  {
    EndedMeans(cmd, r, ds);
    hide Accounted, Sum, Parts, ReplyOf, LastReply;
    assert GoesOn(SendInt);
  }

  lemma DelEnd(cmd: Command, store: Store, names: seq<bytes>, r: Run, ds: seq<nat>)
    requires names != [] && DelWorks(store, names, r) && Accounted(cmd, r, ds) && Halted(r)
    ensures Deleted(store, names, r.store, r.strm)
  {
    DelSettled(cmd, store, names, r, ds);
    assert r.strm == [IntReply(Sum(r.keys))] && Sum(r.keys) + |r.store| == |store|;
    assert forall k :: k in r.store ==> k in store && r.store[k] == store[k];
    assert forall k :: k in store && k !in names ==> k in r.store;
    hide Accounted, Halted, Sum, DelWorks;
    DelCounts(store, names, r.store);
  }

  lemma DelCounts(store: Store, names: seq<bytes>, after: Store)
    requires forall k :: k in after ==> k in store && k !in names
    requires forall k :: k in store && k !in names ==> k in after
    ensures after.Keys == store.Keys - (set k | k in names)
    ensures |store| == |after| + |set k | k in names && k in store|
  {
    var gone := set k | k in names && k in store;
    assert store.Keys == after.Keys + gone;
    assert |store.Keys| == |after.Keys| + |gone|;
  }

  /** Main result on DEL, for any number of names, also with repetitions, in whatever order its keys are
      visited. */
  lemma DelEnds(store: Store, names: seq<bytes>, vs: seq<nat>)
    requires names != [] && Legal(DelCommand(names), Setup(store, |names|), vs)
    requires Halted(Play(DelCommand(names), Setup(store, |names|), vs))
    ensures var r := Play(DelCommand(names), Setup(store, |names|), vs); Deleted(store, names, r.store, r.strm)
  {
    var cmd, start := DelCommand(names), Setup(store, |names|);
    DelKeeps(store, names, vs);
    DelObeys(names);
    CountsEachKeyOnce(cmd, start, vs);
    hide *;
    DelEnd(cmd, store, names, Play(cmd, start, vs), DoneBy(cmd, start, vs));
  }

  method DelKeys(store: Store, names: seq<bytes>) returns (store': Store, strm: seq<Reply>)
    requires names != []
    ensures Deleted(store, names, store', strm)
  {
    DelObeys(names);
    NeverWaitingIsPatient(DelCommand(names), Setup(store, |names|));
    hide Obeys, Patient, NeverWaits, RoundRobin, Play, Halted, Accounted, AllDone, Aborted, Deleted;
    var exec := new RedisExec(store, |names|);
    var vs := exec.ExecRunToCompletion(DelCommand(names), 0);
    RoundRobinIsLegal(DelCommand(names), Setup(store, |names|), vs);
    DelEnds(store, names, vs);
    store', strm := exec.store, exec.strm;
  }

  // ---------------------------------------------------------------- RENAME and RENAMENX

  /** exec_rename; nx tells it from exec_renamenx. Key 0 is the old name, key 1 the new one. */
  function Rename(src: bytes, dst: bytes, nx: bool, r: Run, i: nat): Visit
    requires i < |r.keys|
  {
    var ctx := r.keys[i];
    if i == 1 then
      if r.keys[0].part.None? then Visit(r.store, ctx.(status := Depends), true)
      else
        var data := r.keys[0].part.value;
        if |data| == 0 then Visit(r.store, ctx.(status := KeyDoesntExist), true)
        else Visit(r.store[dst := Val(data, r.keys[0].typ)], ctx.(status := if nx then SendInt else SendOk), false)
    else if ctx.dep == 0 then
      if src in r.store then
        Visit(r.store, ctx.(status := Depends, part := Some(r.store[src].data), typ := r.store[src].typ), true)
      else Visit(r.store, ctx.(status := Depends, part := Some([])), true)
    else
      Visit(r.store - {src}, if nx then ctx.(status := SendInt, ival := 1) else ctx.(status := SendOk), false)
  }

  function RenameNx(src: bytes, dst: bytes, r: Run, i: nat): Visit
    requires i < |r.keys|
  {
    if i == 1 && r.keys[i].dep == 0 && dst in r.store then
      Visit(r.store, r.keys[i].(status := AbortSendZero, typ := r.store[dst].typ), true)
    else Rename(src, dst, true, r, i)
  }

  function RenameCommand(src: bytes, dst: bytes, nx: bool): Command {
    Command((r: Run, i: nat) =>
      if i >= |r.keys| then Visit(r.store, KeyCtx(Ok, 0, 0, None, 0), true)
      else if nx then RenameNx(src, dst, r, i)
      else Rename(src, dst, false, r, i), false)
  }

  /** What the last visit leaves; when RENAMENX refuses, the reply is an empty list. */
  function Renamed(store: Store, src: bytes, dst: bytes, nx: bool): (Store, seq<Reply>) {
    if nx && dst in store then (store, [EmptyArray])
    else if src !in store || store[src].data == [] then (store, [ErrorReply(KeyDoesntExist)])
    else (store[dst := store[src]] - {src}, [if nx then IntReply(1) else SimpleOk])
  }

  lemma RenameObeys(src: bytes, dst: bytes, nx: bool)
    ensures Obeys(RenameCommand(src, dst, nx))
  {
  }

  /** The old name never waits twice. */
  lemma OldNameIsReady(src: bytes, dst: bytes, nx: bool, r: Run)
    requires |r.keys| == 2 && Live(r.keys[0].status)
    ensures Ready(RenameCommand(src, dst, nx), r, 0, 1)
  {
  }

  /** The run after m visits: of the old name, the new one, and the old one again. */
  function RenameAfter(store: Store, src: bytes, dst: bytes, nx: bool, m: nat): (r: Run)
    ensures |r.keys| == 2
  {
    if m == 0 then Setup(store, 2)
    else Step(RenameCommand(src, dst, nx), RenameAfter(store, src, dst, nx, m - 1), if m == 2 then 1 else 0)
  }

  /** Whether the visit of the new name goes through. */
  predicate Renames(store: Store, src: bytes, dst: bytes, nx: bool) {
    src in store && store[src].data != [] && !(nx && dst in store)
  }

  lemma RenameSaved(store: Store, src: bytes, dst: bytes, nx: bool)
    ensures RenameAfter(store, src, dst, nx, 1) == Setup(store, 2).(keys := [
      KeyCtx(Depends, 1, 0, Some(if src in store then store[src].data else []), if src in store then store[src].typ else 0),
      KeyCtx(Continue, 0, 0, None, 0)])
  {
  }

  lemma RenameWritten(store: Store, src: bytes, dst: bytes, nx: bool)
    ensures var r, cmd := RenameAfter(store, src, dst, nx, 2), RenameCommand(src, dst, nx);
            if Renames(store, src, dst, nx) then
              && r.store == store[dst := store[src]] && r.keyDone == 1 && r.strm == []
              && r.keys[0].status == Depends && r.keys[0].dep == 1 && r.keys[0].ival == r.keys[1].ival == 0
              && !Live(r.keys[1].status)
            else Halted(r) && (r.store, r.strm) == Renamed(store, src, dst, nx)
  {
    var r1 := RenameAfter(store, src, dst, nx, 1);
    RenameSaved(store, src, dst, nx);
    assert RenameAfter(store, src, dst, nx, 2) == Step(RenameCommand(src, dst, nx), r1, 1);
    hide RenameAfter, Step, RenameCommand;
    if Renames(store, src, dst, nx) {
      NewNameWritten(store, src, dst, nx, r1);
    } else {
      NewNameRefused(store, src, dst, nx, r1);
    }
  }

  lemma NewNameWritten(store: Store, src: bytes, dst: bytes, nx: bool, r1: Run)
    requires Renames(store, src, dst, nx)
    requires r1 == Setup(store, 2).(keys := [
      KeyCtx(Depends, 1, 0, Some(store[src].data), store[src].typ), KeyCtx(Continue, 0, 0, None, 0)])
    ensures var r := Step(RenameCommand(src, dst, nx), r1, 1);
            && r.store == store[dst := store[src]] && r.keyDone == 1 && r.strm == []
            && r.keys[0].status == Depends && r.keys[0].dep == 1 && r.keys[0].ival == r.keys[1].ival == 0
            && !Live(r.keys[1].status)
  {
    hide Parts, Sum, AllWith;
  }

  lemma NewNameRefused(store: Store, src: bytes, dst: bytes, nx: bool, r1: Run)
    requires !Renames(store, src, dst, nx)
    requires r1 == Setup(store, 2).(keys := [
      KeyCtx(Depends, 1, 0, Some(if src in store then store[src].data else []), if src in store then store[src].typ else 0),
      KeyCtx(Continue, 0, 0, None, 0)])
    ensures var r := Step(RenameCommand(src, dst, nx), r1, 1);
            Halted(r) && (r.store, r.strm) == Renamed(store, src, dst, nx)
  {
    var r := Step(RenameCommand(src, dst, nx), r1, 1);
    assert r.store == store;
    assert r.strm == ReplyOf(r.keys[0].status, r.keys);
  }

  lemma RenameFinished(store: Store, src: bytes, dst: bytes, nx: bool)
    requires Renames(store, src, dst, nx)
    ensures var r := RenameAfter(store, src, dst, nx, 3);
            Halted(r) && (r.store, r.strm) == Renamed(store, src, dst, nx)
  {
    RenameWritten(store, src, dst, nx);
    var r2, cmd := RenameAfter(store, src, dst, nx, 2), RenameCommand(src, dst, nx);
    hide Renames;
    assert RenameAfter(store, src, dst, nx, 3) == Step(cmd, r2, 0);
    var r := Step(cmd, r2, 0);
    hide RenameAfter, Parts, AllWith, Sum;
    assert r.keys == [r.keys[0], r.keys[1]];
    TwoKeys(r.keys[0], r.keys[1]);
    assert r.strm == ReplyOf(r.keys[0].status, r.keys);
    assert r.store == store[dst := store[src]] - {src};
  }

  lemma TwoKeys(a: KeyCtx, b: KeyCtx)
    ensures Sum([a, b]) == a.ival + b.ival
  {
    assert [a, b][1..] == [b];
    assert Sum([b]) == b.ival + Sum([]);
  }

  /** The visits of a run are those, until it has ended. */
  lemma RenameNext(store: Store, src: bytes, dst: bytes, nx: bool, before: seq<nat>, v: nat)
    requires |before| <= (if Renames(store, src, dst, nx) then 3 else 2) && before == [0, 1, 0][..|before|]
    requires NextLive(RenameAfter(store, src, dst, nx, |before|), After(before, 2), v)
    ensures |before| < (if Renames(store, src, dst, nx) then 3 else 2) && v == [0, 1, 0][|before|]
  {
    var m := |before|;
    RenameSaved(store, src, dst, nx);
    RenameWritten(store, src, dst, nx);
    if Renames(store, src, dst, nx) { RenameFinished(store, src, dst, nx); }
    hide Renames, Renamed;
    var r := RenameAfter(store, src, dst, nx, m);
    hide RenameAfter;
    var d :| FoundAfter(r, After(before, 2), v, d);
    assert d == 1 ==> Passed(r, After(before, 2));
    assert m == 1 ==> before == [0];
    assert m == 2 ==> before == [0, 1];
  }

  lemma {:induction false} RenameRun(store: Store, src: bytes, dst: bytes, nx: bool, vs: seq<nat>)
    requires RoundRobin(RenameCommand(src, dst, nx), Setup(store, 2), vs)
    ensures |vs| <= if Renames(store, src, dst, nx) then 3 else 2
    ensures vs == [0, 1, 0][..|vs|]
    ensures Play(RenameCommand(src, dst, nx), Setup(store, 2), vs) == RenameAfter(store, src, dst, nx, |vs|)
    decreases |vs|
  {
    hide Renames, RoundRobin, Step, NextLive, RenameCommand;
    var cmd, start := RenameCommand(src, dst, nx), Setup(store, 2);
    if vs != [] {
      LastVisit(cmd, start, vs);
      var before, v := vs[..|vs| - 1], vs[|vs| - 1];
      RenameRun(store, src, dst, nx, before);
      RenameNext(store, src, dst, nx, before, v);
      assert vs == before + [v];
    }
  }

  lemma RenameIsPatient(store: Store, src: bytes, dst: bytes, nx: bool)
    ensures Patient(RenameCommand(src, dst, nx), Setup(store, 2), 1)
  {
    var cmd, start := RenameCommand(src, dst, nx), Setup(store, 2);
    forall vs | RoundRobin(cmd, start, vs) && !Halted(Play(cmd, start, vs))
      ensures exists p :: Ready(cmd, Play(cmd, start, vs), p, 1)
    {
      RenameRun(store, src, dst, nx, vs);
      RenameKeyZero(store, src, dst, nx, |vs|);
      hide RoundRobin, Play, RenameAfter, Renames;
      OldNameIsReady(src, dst, nx, Play(cmd, start, vs));
    }
  }

  lemma RenameKeyZero(store: Store, src: bytes, dst: bytes, nx: bool, m: nat)
    requires m <= if Renames(store, src, dst, nx) then 3 else 2
    ensures var r := RenameAfter(store, src, dst, nx, m);
            if m == (if Renames(store, src, dst, nx) then 3 else 2)
            then Halted(r) && (r.store, r.strm) == Renamed(store, src, dst, nx) else Live(r.keys[0].status)
  {
    RenameSaved(store, src, dst, nx);
    RenameWritten(store, src, dst, nx);
    if Renames(store, src, dst, nx) { RenameFinished(store, src, dst, nx); }
  }

  /** The new name has the value and type, the old name is gone, everything else is as before. */
  ghost predicate Moved(before: Store, after: Store, src: bytes, dst: bytes) {
    && src in before && src !in after
    && dst in after && after[dst] == before[src]
    && (forall k :: k != src && k != dst ==> (k in after <==> k in before) && (k in before ==> after[k] == before[k]))
  }

  /** What the two commands do and answer, in every case. */
  ghost predicate Outcome(store: Store, after: Store, strm: seq<Reply>, src: bytes, dst: bytes, nx: bool) {
    if nx && dst in store then after == store && strm == [EmptyArray]
    else if src !in store || store[src].data == [] then after == store && strm == [ErrorReply(KeyDoesntExist)]
    else
      && (src != dst ==> Moved(store, after, src, dst))
      && (src == dst ==> src !in after && forall k :: k != src ==> (k in after <==> k in store) && (k in store ==> after[k] == store[k]))
      && strm == [if nx then IntReply(1) else SimpleOk]
  }

  lemma RenamedMeans(store: Store, after: Store, strm: seq<Reply>, src: bytes, dst: bytes, nx: bool)
    requires (after, strm) == Renamed(store, src, dst, nx)
    ensures Outcome(store, after, strm, src, dst, nx)
  {
  }

  /** Main result on the two commands: every run that has ended has moved the key, or has refused to
      and changed nothing, or, when both names are the same, has lost the key. */
  lemma RenameEnds(store: Store, src: bytes, dst: bytes, nx: bool, vs: seq<nat>)
    requires RoundRobin(RenameCommand(src, dst, nx), Setup(store, 2), vs)
    requires Halted(Play(RenameCommand(src, dst, nx), Setup(store, 2), vs))
    ensures var r := Play(RenameCommand(src, dst, nx), Setup(store, 2), vs);
            Outcome(store, r.store, r.strm, src, dst, nx)
  {
    RenameRun(store, src, dst, nx, vs);
    RenameKeyZero(store, src, dst, nx, |vs|);
    hide *;
    var r := Play(RenameCommand(src, dst, nx), Setup(store, 2), vs);
    RenamedMeans(store, r.store, r.strm, src, dst, nx);
  }

  method RenameKeys(store: Store, src: bytes, dst: bytes, nx: bool) returns (store': Store, strm: seq<Reply>)
    ensures Outcome(store, store', strm, src, dst, nx)
  {
    RenameObeys(src, dst, nx);
    RenameIsPatient(store, src, dst, nx);
    hide Obeys, Patient, RoundRobin, Play, Halted, Accounted, AllDone, Aborted, Outcome;
    var exec := new RedisExec(store, 2);
    var vs := exec.ExecRunToCompletion(RenameCommand(src, dst, nx), 1);
    RenameEnds(store, src, dst, nx, vs);
    store', strm := exec.store, exec.strm;
  }

  /** RENAME moves a key if and only if it exists, its value is not empty, which the code takes for
      a missing key, and the names differ. */
  lemma RenameMovesIff(store: Store, src: bytes, dst: bytes, vs: seq<nat>)
    requires RoundRobin(RenameCommand(src, dst, false), Setup(store, 2), vs)
    requires Halted(Play(RenameCommand(src, dst, false), Setup(store, 2), vs))
    ensures Moved(store, Play(RenameCommand(src, dst, false), Setup(store, 2), vs).store, src, dst)
      <==> src in store && store[src].data != [] && src != dst
  {
    RenameEnds(store, src, dst, false, vs);
    hide RoundRobin, Halted, Play, RenameCommand;
  }

  /** RENAMENX moves it if and only if it exists, its value is not empty and there is no new key;
      otherwise it changes nothing. */
  lemma RenameNxMovesIff(store: Store, src: bytes, dst: bytes, vs: seq<nat>)
    requires RoundRobin(RenameCommand(src, dst, true), Setup(store, 2), vs)
    requires Halted(Play(RenameCommand(src, dst, true), Setup(store, 2), vs))
    ensures var after := Play(RenameCommand(src, dst, true), Setup(store, 2), vs).store;
            && (Moved(store, after, src, dst) <==> src in store && store[src].data != [] && dst !in store)
            && (!Moved(store, after, src, dst) ==> after == store)
  {
    RenameEnds(store, src, dst, true, vs);
    hide RoundRobin, Halted, Play, RenameCommand;
  }
}
