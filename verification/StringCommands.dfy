/** GET, MGET and MSETNX (src/redis_string.cpp:624-644 and 879-922) run by the scheduler, while no other
    client works on the keys. */
module StringCommands {

  import opened Common
  import opened Bytes
  import opened Scheduler

  /** The type of string values; which number it is does not matter. */
  const STRING: nat := 2

  // ---------------------------------------------------------------- GET

  /** exec_get: the value is sent at once. GET has one key. */
  function GetCommand(name: bytes): Command {
    Command((r: Run, i: nat) =>
      if i >= |r.keys| then Visit(r.store, KeyCtx(Ok, 0, 0, None, 0), true)
      else if |r.keys| != 1 || r.keyDone != 0 then Visit(r.store, r.keys[i].(status := Ok), true)
      else if name !in r.store then Visit(r.store, r.keys[i].(status := SendNil), true)
      else if r.store[name].typ != STRING then Visit(r.store, r.keys[i].(status := BadType), true)
      else Visit(r.store, r.keys[i].(status := Ok), true, [Bulk(r.store[name].data)]), false)
  }

  /** The one reply of GET: the value, or nil if there is none, or an error if it is no string. */
  predicate GetAnswers(store: Store, name: bytes, after: Store, strm: seq<Reply>) {
    && after == store && |strm| == 1
    && (name !in store ==> strm[0] == NilReply)
    && (name in store && store[name].typ == STRING ==> strm[0] == Bulk(store[name].data))
    && (name in store && store[name].typ != STRING ==> strm[0] == ErrorReply(BadType))
  }

  lemma GetObeys(name: bytes)
    ensures Obeys(GetCommand(name)) && NeverWaits(GetCommand(name))
  {
  }

  lemma GetOnce(store: Store, name: bytes)
    ensures var r := Step(GetCommand(name), Setup(store, 1), 0); Halted(r) && GetAnswers(store, name, r.store, r.strm)
  {
  }

  /** Main result on GET, for every run that has ended. */
  lemma {:induction false} GetEnds(store: Store, name: bytes, vs: seq<nat>)
    requires Legal(GetCommand(name), Setup(store, 1), vs)
    ensures Halted(Play(GetCommand(name), Setup(store, 1), vs)) ==> |vs| == 1
    ensures var r := Play(GetCommand(name), Setup(store, 1), vs); Halted(r) ==> GetAnswers(store, name, r.store, r.strm)
  {
    var cmd, start := GetCommand(name), Setup(store, 1);
    hide GetCommand, GetAnswers, Step;
    assert Live(start.keys[0].status);
    if vs != [] {
      assert vs[..1] == [vs[0]] && vs[..0] == [];
      GetOnce(store, name);
      assert Play(cmd, start, vs[..1]) == Step(cmd, start, 0);
      assert vs[..1] == vs;
    }
  }

  method GetKey(store: Store, name: bytes) returns (store': Store, strm: seq<Reply>)
    ensures GetAnswers(store, name, store', strm)
  {
    GetObeys(name);
    NeverWaitingIsPatient(GetCommand(name), Setup(store, 1));
    hide Obeys, Patient, NeverWaits, RoundRobin, Play, Halted, Accounted, AllDone, Aborted, GetAnswers;
    var exec := new RedisExec(store, 1);
    var vs := exec.ExecRunToCompletion(GetCommand(name), 0);
    RoundRobinIsLegal(GetCommand(name), Setup(store, 1), vs);
    GetEnds(store, name, vs);
    store', strm := exec.store, exec.strm;
  }

  // ---------------------------------------------------------------- MGET

  function StringAt(store: Store, name: bytes): Option<bytes> {
    if name in store && store[name].typ == STRING then Some(store[name].data) else None
  }

  function MGetCommand(names: seq<bytes>): Command {
    Command((r: Run, i: nat) =>
      if i >= |r.keys| then Visit(r.store, KeyCtx(Ok, 0, 0, None, 0), true)
      else if i >= |names| then Visit(r.store, r.keys[i].(status := Ok), true)
      else Visit(r.store, r.keys[i].(status := Ok, part := StringAt(r.store, names[i])), true), true)
  }

  ghost predicate MGetWorks(store: Store, names: seq<bytes>, r: Run) {
    && r.store == store && |r.keys| == |names|
    && (forall i :: 0 <= i < |names| ==>
          if Live(r.keys[i].status) then r.keys[i] == KeyCtx(Continue, 0, 0, None, 0)
          else r.keys[i].status == Ok && r.keys[i].part == StringAt(store, names[i]))
    && r.strm == (if r.keyDone == |names| then [Items(Parts(r.keys))] else [])
  }

  lemma MGetStep(store: Store, names: seq<bytes>, r: Run, i: nat)
    requires MGetWorks(store, names, r) && i < |names| && Live(r.keys[i].status) && r.keyDone < |names|
    ensures MGetWorks(store, names, Step(MGetCommand(names), r, i))
  {
  }

  lemma MGetObeys(names: seq<bytes>)
    ensures Obeys(MGetCommand(names)) && NeverWaits(MGetCommand(names))
  {
  }

  lemma {:induction false} MGetKeeps(store: Store, names: seq<bytes>, vs: seq<nat>)
    requires names != [] && Legal(MGetCommand(names), Setup(store, |names|), vs)
    ensures MGetWorks(store, names, Play(MGetCommand(names), Setup(store, |names|), vs))
  {
    if vs != [] {
      var cmd, start, k := MGetCommand(names), Setup(store, |names|), |vs| - 1;
      LegalPrefix(cmd, start, vs, k);
      MGetKeeps(store, names, vs[..k]);
      MGetObeys(names);
      CountsEachKeyOnce(cmd, start, vs[..k]);
      assert Live(Play(cmd, start, vs[..k]).keys[vs[k]].status);
      hide MGetWorks, MGetCommand, Setup, Obeys, NeverWaits, Accounted, Step;
      LiveMeansWorking(cmd, Play(cmd, start, vs[..k]), DoneBy(cmd, start, vs[..k]), vs[k]);
      MGetStep(store, names, Play(cmd, start, vs[..k]), vs[k]);
    }
  }

  /** The one reply of MGET: one item for each name, in the order of the names, which has a value if
      and only if there is a string of that name, and then that string. */
  ghost predicate MGetAnswers(store: Store, names: seq<bytes>, after: Store, strm: seq<Reply>) {
    && after == store && |strm| == 1 && strm[0].Items? && |strm[0].items| == |names|
    && forall i, d :: 0 <= i < |names| ==>
         (strm[0].items[i] == Some(d) <==> names[i] in store && store[names[i]] == Val(d, STRING))
  }

  lemma MGetEnd(cmd: Command, store: Store, names: seq<bytes>, r: Run, ds: seq<nat>)
    requires names != [] && MGetWorks(store, names, r) && Accounted(cmd, r, ds) && Halted(r)
    ensures MGetAnswers(store, names, r.store, r.strm)
  {
    EndedMeans(cmd, r, ds);
    hide Accounted, AllDone;
    assert AllDone(cmd, r, ds) ==> r.keyDone == |r.keys|;
    assert r.strm == [Items(Parts(r.keys))];
  }

  /** Main result on MGET: in whatever order its keys are visited, there is this reply. */
  lemma MGetInOrder(store: Store, names: seq<bytes>, vs: seq<nat>)
    requires names != [] && Legal(MGetCommand(names), Setup(store, |names|), vs)
    requires Halted(Play(MGetCommand(names), Setup(store, |names|), vs))
    ensures var r := Play(MGetCommand(names), Setup(store, |names|), vs);
            MGetAnswers(store, names, r.store, r.strm)
  {
    var cmd, start := MGetCommand(names), Setup(store, |names|);
    MGetKeeps(store, names, vs);
    MGetObeys(names);
    CountsEachKeyOnce(cmd, start, vs);
    hide *;
    MGetEnd(cmd, store, names, Play(cmd, start, vs), DoneBy(cmd, start, vs));
  }

  method MGetKeys(store: Store, names: seq<bytes>) returns (store': Store, strm: seq<Reply>)
    requires names != []
    ensures MGetAnswers(store, names, store', strm)
  {
    MGetObeys(names);
    NeverWaitingIsPatient(MGetCommand(names), Setup(store, |names|));
    hide Obeys, Patient, NeverWaits, RoundRobin, Play, Halted, Accounted, AllDone, Aborted, MGetAnswers;
    var exec := new RedisExec(store, |names|);
    var vs := exec.ExecRunToCompletion(MGetCommand(names), 0);
    RoundRobinIsLegal(MGetCommand(names), Setup(store, |names|), vs);
    MGetInOrder(store, names, vs);
    store', strm := exec.store, exec.strm;
  }

  // ---------------------------------------------------------------- MSETNX

  /** exec_msetnx and do_set_value: a key is looked up on its first visit and set on its second.
      The last value may be missing: only the least number of arguments is checked before. */
  function MSetNx(names: seq<bytes>, values: seq<bytes>, r: Run, i: nat): Visit
    requires i < |r.keys| && i < |names|
  {
    var ctx := r.keys[i];
    if ctx.dep == 0 && names[i] in r.store then
      Visit(r.store, ctx.(status := AbortSendZero, typ := r.store[names[i]].typ), true)
    else if ctx.dep == 0 && r.keyDone + 1 < |r.keys| then Visit(r.store, ctx.(status := Depends), true)
    else if i >= |values| then Visit(r.store, ctx.(status := BadArgs), true)
    else Visit(r.store[names[i] := Val(values[i], STRING)], ctx.(status := SendOne), false)
  }

  function MSetNxCommand(names: seq<bytes>, values: seq<bytes>): Command {
    Command((r: Run, i: nat) =>
      if i >= |r.keys| then Visit(r.store, KeyCtx(Ok, 0, 0, None, 0), true)
      else if i >= |names| then Visit(r.store, r.keys[i].(status := Ok), true)
      else MSetNx(names, values, r, i), false)
  }

  ghost predicate Free(store: Store, names: seq<bytes>, m: nat) {
    forall j :: 0 <= j < m && j < |names| ==> names[j] !in store
  }

  /** The first q values set, one after the other. */
  function SetFirst(store: Store, names: seq<bytes>, values: seq<bytes>, q: nat): Store
    requires q <= |values| <= |names|
  {
    if q == 0 then store else SetFirst(store, names, values, q - 1)[names[q - 1] := Val(values[q - 1], STRING)]
  }

  lemma {:induction false} SetFirstMeans(store: Store, names: seq<bytes>, values: seq<bytes>, q: nat, k: bytes)
    requires q <= |values| <= |names|
    ensures var after := SetFirst(store, names, values, q);
            && (k in names[..q] ==> k in after && exists j: nat :: LastFor(names, q, k, j) && after[k] == Val(values[j], STRING))
            && (k !in names[..q] ==> (k in after <==> k in store) && (k in store ==> after[k] == store[k]))
  {
    if q > 0 {
      SetFirstMeans(store, names, values, q - 1, k);
      assert names[..q] == names[..q - 1] + [names[q - 1]];
      if k == names[q - 1] {
        assert LastFor(names, q, k, q - 1);
      } else if k in names[..q - 1] {
        var j: nat :| LastFor(names, q - 1, k, j) && SetFirst(store, names, values, q - 1)[k] == Val(values[j], STRING);
        assert LastFor(names, q, k, j);
      }
    }
  }

  predicate LastFor(names: seq<bytes>, q: nat, k: bytes, j: nat) {
    j < q <= |names| && names[j] == k && forall i :: j < i < q ==> names[i] != k
  }

  /** What MSETNX does. */
  ghost function MSetNxResult(store: Store, names: seq<bytes>, values: seq<bytes>): (Store, seq<Reply>)
    requires |values| <= |names|
  {
    if !Free(store, names, |names|) then (store, [EmptyArray])
    else (SetFirst(store, names, values, |values|), [if |values| == |names| then IntReply(1) else ErrorReply(BadArgs)])
  }

  /** The run when m keys have been looked up and none was there. */
  function Sought(store: Store, n: nat, m: nat): (r: Run)
    requires n > 0
    ensures |r.keys| == n
  {
    Run(store, seq(n, j => if j < m then KeyCtx(Depends, 1, 0, None, 0) else KeyCtx(Continue, 0, 0, None, 0)), 0, [])
  }

  /** The run when all have been looked up and q have been set. */
  function Written(store: Store, names: seq<bytes>, values: seq<bytes>, q: nat): (r: Run)
    requires q <= |values| <= |names|
    ensures |r.keys| == |names|
  {
    Run(SetFirst(store, names, values, q),
        seq(|names|, j => KeyCtx(if j < q then SendOne else Depends, 1, 0, None, 0)),
        q, if q == |names| then [IntReply(1)] else [])
  }

  /** The run after m visits, for two names or more. */
  ghost predicate MSetNxAt(store: Store, names: seq<bytes>, values: seq<bytes>, m: nat, r: Run)
    requires |values| <= |names| && 1 < |names|
  {
    var n := |names|;
    || (m <= n && Free(store, names, m) && r == Sought(store, n, m))
    || (n <= m <= n + |values| && Free(store, names, n) && r == Written(store, names, values, m - n))
    || MSetNxEnd(store, names, values, r)
  }

  ghost predicate MSetNxEnd(store: Store, names: seq<bytes>, values: seq<bytes>, r: Run)
    requires |values| <= |names|
  {
    Halted(r) && (r.store, r.strm) == MSetNxResult(store, names, values)
  }

  /** Where the loop stands after m visits. */
  function Turn(m: nat, n: nat): nat { if m < n then m else if m < 2 * n then m - n else 0 }

  lemma SeekStep(store: Store, names: seq<bytes>, values: seq<bytes>, m: nat)
    requires |values| <= |names| && m < |names| && 1 < |names| && Free(store, names, m)
    ensures MSetNxAt(store, names, values, m + 1, Step(MSetNxCommand(names, values), Sought(store, |names|, m), m))
  {
    var r := Sought(store, |names|, m);
    var r' := Step(MSetNxCommand(names, values), r, m);
    if names[m] in store {
      assert !Free(store, names, |names|);
      assert r'.strm == [EmptyArray];
      assert MSetNxEnd(store, names, values, r');
    } else {
      assert Free(store, names, m + 1);
      assert r'.keys == Sought(store, |names|, m + 1).keys;
    }
  }

  lemma WriteStep(store: Store, names: seq<bytes>, values: seq<bytes>, q: nat)
    requires q <= |values| <= |names| && q < |names| && 1 < |names| && Free(store, names, |names|)
    ensures MSetNxAt(store, names, values, |names| + q + 1, Step(MSetNxCommand(names, values), Written(store, names, values, q), q))
  {
    if q < |values| {
      WriteOne(store, names, values, q);
    } else {
      WriteMissing(store, names, values);
    }
    hide Written, Step, MSetNxCommand, MSetNxEnd, SetFirst;
  }

  lemma WriteOne(store: Store, names: seq<bytes>, values: seq<bytes>, q: nat)
    requires q < |values| <= |names| && 1 < |names|
    ensures Step(MSetNxCommand(names, values), Written(store, names, values, q), q) == Written(store, names, values, q + 1)
  {
    var r' := Step(MSetNxCommand(names, values), Written(store, names, values, q), q);
    assert r'.keys == Written(store, names, values, q + 1).keys;
  }

  lemma WriteMissing(store: Store, names: seq<bytes>, values: seq<bytes>)
    requires |values| < |names| && 1 < |names| && Free(store, names, |names|)
    ensures MSetNxEnd(store, names, values, Step(MSetNxCommand(names, values), Written(store, names, values, |values|), |values|))
  {
    var r' := Step(MSetNxCommand(names, values), Written(store, names, values, |values|), |values|);
    assert r'.strm == [ErrorReply(BadArgs)];
  }

  lemma FirstIsLive(r: Run, from: nat, v: nat)
    requires NextLive(r, from, v) && from < |r.keys| && Live(r.keys[from].status)
    ensures v == from
  {
    var d :| FoundAfter(r, from, v, d);
    assert d > 0 ==> Passed(r, from);
  }

  /** A run that is not done has its next visit at the expected key. */
  lemma MSetNxNext(store: Store, names: seq<bytes>, values: seq<bytes>, m: nat, r: Run, v: nat)
    requires |values| <= |names| && 1 < |names| && MSetNxAt(store, names, values, m, r)
    requires NextLive(r, Turn(m, |names|), v)
    ensures v == Turn(m, |names|) && MSetNxAt(store, names, values, m + 1, Step(MSetNxCommand(names, values), r, v))
    ensures Turn(m + 1, |names|) == Around(v + 1, |names|)
  {
    hide MSetNxAt, Step, MSetNxEnd, MSetNxCommand, Sought, Written, Free, NextLive, Live;
    var n := |names|;
    NextIsLive(r, Turn(m, n), v);
    MSetNxLive(store, names, values, m, r, v);
    FirstIsLive(r, Turn(m, n), v);
    if m < n {
      SeekStep(store, names, values, m);
    } else {
      WriteStep(store, names, values, m - n);
    }
  }

  lemma NextIsLive(r: Run, from: nat, v: nat)
    requires NextLive(r, from, v)
    ensures v < |r.keys| && Live(r.keys[v].status)
  {
    hide Live;
  }

  lemma MSetNxLive(store: Store, names: seq<bytes>, values: seq<bytes>, m: nat, r: Run, v: nat)
    requires |values| <= |names| && 1 < |names| && MSetNxAt(store, names, values, m, r)
    requires v < |r.keys| && Live(r.keys[v].status)
    ensures m < 2 * |names| && |r.keys| == |names| && Live(r.keys[Turn(m, |names|)].status)
    ensures if m < |names| then Free(store, names, m) && r == Sought(store, |names|, m)
            else m - |names| <= |values| && Free(store, names, |names|) && r == Written(store, names, values, m - |names|)
  {
  }

  lemma SoughtAll(store: Store, names: seq<bytes>, values: seq<bytes>)
    requires |values| <= |names| && 1 < |names|
    ensures Sought(store, |names|, |names|) == Written(store, names, values, 0)
  {
  }

  lemma {:induction false} MSetNxRun(store: Store, names: seq<bytes>, values: seq<bytes>, vs: seq<nat>)
    requires |values| <= |names| && 1 < |names|
    requires RoundRobin(MSetNxCommand(names, values), Setup(store, |names|), vs)
    ensures MSetNxAt(store, names, values, |vs|, Play(MSetNxCommand(names, values), Setup(store, |names|), vs))
    ensures After(vs, |names|) == Turn(|vs|, |names|)
    decreases |vs|
  {
    var cmd, start := MSetNxCommand(names, values), Setup(store, |names|);
    if vs == [] {
      assert start.keys == Sought(store, |names|, 0).keys;
    } else {
      hide RoundRobin, Step, NextLive, MSetNxCommand, MSetNxAt;
      LastVisit(cmd, start, vs);
      MSetNxRun(store, names, values, vs[..|vs| - 1]);
      MSetNxNext(store, names, values, |vs| - 1, Play(cmd, start, vs[..|vs| - 1]), vs[|vs| - 1]);
    }
  }

  /** With one name looking up and setting are one visit. */
  lemma MSetNxOne(store: Store, names: seq<bytes>, values: seq<bytes>)
    requires |values| <= |names| == 1
    ensures MSetNxEnd(store, names, values, Step(MSetNxCommand(names, values), Setup(store, 1), 0))
  {
    var r := Step(MSetNxCommand(names, values), Setup(store, 1), 0);
    assert names[0] in store ==> !Free(store, names, 1);
    assert SetFirst(store, names, values, 0) == store;
    assert r.store == MSetNxResult(store, names, values).0;
    assert r.strm == MSetNxResult(store, names, values).1;
  }

  lemma {:induction false} MSetNxRunOne(store: Store, names: seq<bytes>, values: seq<bytes>, vs: seq<nat>)
    requires |values| <= |names| == 1
    requires RoundRobin(MSetNxCommand(names, values), Setup(store, 1), vs)
    ensures vs == [] || MSetNxEnd(store, names, values, Play(MSetNxCommand(names, values), Setup(store, 1), vs))
    decreases |vs|
  {
    var cmd, start := MSetNxCommand(names, values), Setup(store, 1);
    if vs != [] {
      LastVisit(cmd, start, vs);
      MSetNxRunOne(store, names, values, vs[..|vs| - 1]);
      MSetNxOne(store, names, values);
      hide RoundRobin, Step, MSetNxCommand, Setup;
    }
  }

  /** Main result on MSETNX: when a name exists nothing is changed, otherwise the values are set. */
  lemma MSetNxEnds(store: Store, names: seq<bytes>, values: seq<bytes>, vs: seq<nat>)
    requires |values| <= |names| && names != []
    requires RoundRobin(MSetNxCommand(names, values), Setup(store, |names|), vs)
    requires Halted(Play(MSetNxCommand(names, values), Setup(store, |names|), vs))
    ensures var r := Play(MSetNxCommand(names, values), Setup(store, |names|), vs);
            (r.store, r.strm) == MSetNxResult(store, names, values)
  {
    var r := Play(MSetNxCommand(names, values), Setup(store, |names|), vs);
    if |names| == 1 {
      assert vs == [] ==> Live(r.keys[0].status);
      MSetNxRunOne(store, names, values, vs);
    } else {
      MSetNxRun(store, names, values, vs);
      hide RoundRobin, Play, MSetNxCommand, Free, Setup;
      HaltedMSetNx(store, names, values, |vs|, r);
    }
  }

  lemma HaltedMSetNx(store: Store, names: seq<bytes>, values: seq<bytes>, m: nat, r: Run)
    requires |values| <= |names| && 1 < |names| && MSetNxAt(store, names, values, m, r) && Halted(r)
    ensures MSetNxEnd(store, names, values, r)
  {
    var n := |names|;
    SoughtAll(store, names, values);
    if m < n && r == Sought(store, n, m) {
      assert Live(r.keys[m].status);
    } else if n <= m <= n + |values| && r == Written(store, names, values, m - n) && m < 2 * n {
      assert Live(r.keys[m - n].status);
    }
  }

  lemma MSetNxIsPatient(store: Store, names: seq<bytes>, values: seq<bytes>)
    requires |values| <= |names| && names != []
    ensures Patient(MSetNxCommand(names, values), Setup(store, |names|), 1)
  {
    var cmd, start := MSetNxCommand(names, values), Setup(store, |names|);
    MSetNxWaits(names, values);
    hide RoundRobin, Play, MSetNxCommand, Setup, Waits, Ready;
    forall vs | RoundRobin(cmd, start, vs) && !Halted(Play(cmd, start, vs))
      ensures exists p :: Ready(cmd, Play(cmd, start, vs), p, 1)
    {
      var r := Play(cmd, start, vs);
      var p: nat :| p < |r.keys| && Live(r.keys[p].status);
      MSetNxReady(names, values, r, p);
    }
  }

  lemma MSetNxWaits(names: seq<bytes>, values: seq<bytes>)
    ensures var cmd := MSetNxCommand(names, values);
            forall r: Run, i: nat :: Waits(cmd, r, i, 1) ==>
              cmd.visit(r, i).store == r.store && cmd.visit(r, i).ctx == r.keys[i].(status := Depends)
  {
  }

  lemma MSetNxReady(names: seq<bytes>, values: seq<bytes>, r: Run, p: nat)
    requires p < |r.keys| && Live(r.keys[p].status)
    ensures Ready(MSetNxCommand(names, values), r, p, 1)
  {
  }

  lemma MSetNxObeys(names: seq<bytes>, values: seq<bytes>)
    ensures Obeys(MSetNxCommand(names, values))
  {
  }

  method MSetNxKeys(store: Store, names: seq<bytes>, values: seq<bytes>) returns (store': Store, strm: seq<Reply>)
    requires |values| <= |names| && names != []
    ensures (store', strm) == MSetNxResult(store, names, values)
  {
    MSetNxObeys(names, values);
    MSetNxIsPatient(store, names, values);
    hide Obeys, Patient, RoundRobin, Play, Halted, Accounted, AllDone, Aborted;
    var exec := new RedisExec(store, |names|);
    var vs := exec.ExecRunToCompletion(MSetNxCommand(names, values), 1);
    MSetNxEnds(store, names, values, vs);
    store', strm := exec.store, exec.strm;
  }

  /** All keys are created or none is, unless the last value is missing: then the keys before are
      created although the command fails. */
  lemma AllOrNothingIff(store: Store, names: seq<bytes>, values: seq<bytes>)
    requires |values| <= |names| && names != []
    ensures var after := MSetNxResult(store, names, values).0;
            after == store || (|values| == |names| && after == SetFirst(store, names, values, |names|))
            <==> !Free(store, names, |names|) || |values| == 0 || |values| == |names|
  {
  }
}
