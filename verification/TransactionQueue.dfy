/** Queuing a Redis transaction (src/redis_transaction.cpp:251-407).

    WATCH and MULTI and the commands queued after it build a list of messages.  Each key of
    a message has a slot; all slots of one key share the lock context of its first slot, the
    owner, which is found by a linear search guarded by a 256-bit filter. */
module TransactionQueue {

  import opened Common

  /** Keys are compared by their two hashes only. */
  datatype Key = Key(hash1: nat, hash2: nat)

  type Val = string

  /** The place of a key: message m of the list, key n of the message. */
  datatype Slot = Slot(m: nat, n: nat)

  /** A queued command: its keys, for each the slot whose lock context it uses (kptr), and
      what it does to the values of its keys. */
  datatype Msg = Msg(keys: seq<Key>, kptr: seq<Slot>, eff: map<Key, Val> -> map<Key, Val>)

  // ---------------------------------------------------------------- slots and owners

  predicate Before(a: Slot, b: Slot) {
    a.m < b.m || (a.m == b.m && a.n < b.n)
  }

  predicate IsSlot(msgs: seq<Msg>, a: Slot) {
    a.m < |msgs| && a.n < |msgs[a.m].keys|
  }

  function KeyAt(msgs: seq<Msg>, a: Slot): Key
    requires IsSlot(msgs, a)
  {
    msgs[a.m].keys[a.n]
  }

  /** Slot a is the first one of key k. */
  ghost predicate IsFirst(msgs: seq<Msg>, a: Slot, k: Key) {
    && IsSlot(msgs, a) && KeyAt(msgs, a) == k
    && forall b :: IsSlot(msgs, b) && Before(b, a) ==> KeyAt(msgs, b) != k
  }

  /** Every slot uses the lock context of the first slot of its key. */
  ghost predicate Owned(msgs: seq<Msg>) {
    && (forall m :: 0 <= m < |msgs| ==> |msgs[m].kptr| == |msgs[m].keys|)
    && (forall a :: IsSlot(msgs, a) ==> IsFirst(msgs, msgs[a.m].kptr[a.n], KeyAt(msgs, a)))
  }

  predicate Owns(msgs: seq<Msg>, a: Slot)
    requires IsSlot(msgs, a)
  {
    a.n < |msgs[a.m].kptr| && msgs[a.m].kptr[a.n] == a
  }

  /** Every distinct key has exactly one owning slot, and all its slots point there. */
  lemma OneOwnerPerKey(msgs: seq<Msg>, a: Slot, b: Slot)
    requires Owned(msgs) && IsSlot(msgs, a) && IsSlot(msgs, b) && KeyAt(msgs, a) == KeyAt(msgs, b)
    ensures msgs[a.m].kptr[a.n] == msgs[b.m].kptr[b.n]
    ensures var o := msgs[a.m].kptr[a.n]; IsSlot(msgs, o) && Owns(msgs, o) && KeyAt(msgs, o) == KeyAt(msgs, a)
    ensures Owns(msgs, a) && Owns(msgs, b) ==> a == b
  {
  }

  /** A slot that is not the owner comes after it; the owner is the first of its key. */
  lemma OwnerComesFirst(msgs: seq<Msg>, a: Slot)
    requires Owned(msgs) && IsSlot(msgs, a)
    ensures var o := msgs[a.m].kptr[a.n];
            && IsSlot(msgs, o) && KeyAt(msgs, o) == KeyAt(msgs, a) && (o == a || Before(o, a))
    ensures Owns(msgs, a) ==> forall b :: IsSlot(msgs, b) && Before(b, a) ==> KeyAt(msgs, b) != KeyAt(msgs, a)
  {
  }

  /** The list with one more key at the end of its last message, using the context at o. */
  function WithKey(msgs: seq<Msg>, k: Key, o: Slot): seq<Msg>
    requires msgs != []
  {
    var last := |msgs| - 1;
    msgs[last := msgs[last].(keys := msgs[last].keys + [k], kptr := msgs[last].kptr + [o])]
  }

  function NextSlot(msgs: seq<Msg>): Slot
    requires msgs != []
  {
    Slot(|msgs| - 1, |msgs[|msgs| - 1].keys|)
  }

  lemma WithKeySlots(msgs: seq<Msg>, k: Key, o: Slot, a: Slot)
    requires msgs != []
    ensures var msgs', x := WithKey(msgs, k, o), NextSlot(msgs);
            && (IsSlot(msgs', a) <==> IsSlot(msgs, a) || a == x)
            && (IsSlot(msgs, a) ==> KeyAt(msgs', a) == KeyAt(msgs, a) && Before(a, x))
            && KeyAt(msgs', x) == k
  {
  }

  lemma WithKeyContexts(msgs: seq<Msg>, k: Key, o: Slot)
    requires msgs != [] && forall m :: 0 <= m < |msgs| ==> |msgs[m].kptr| == |msgs[m].keys|
    ensures var msgs', x := WithKey(msgs, k, o), NextSlot(msgs);
            && (forall m :: 0 <= m < |msgs'| ==> |msgs'[m].kptr| == |msgs'[m].keys|)
            && (forall a :: IsSlot(msgs, a) ==> msgs'[a.m].kptr[a.n] == msgs[a.m].kptr[a.n])
            && msgs'[x.m].kptr[x.n] == o
  {
  }

  /** The first slot of a key stays the first; a new slot is the first of a key that had none. */
  lemma FirstStays(msgs: seq<Msg>, k: Key, o: Slot, f: Slot, of: Key)
    requires msgs != []
    requires IsFirst(msgs, f, of) || (f == NextSlot(msgs) && of == k && forall b :: IsSlot(msgs, b) ==> KeyAt(msgs, b) != k)
    ensures IsFirst(WithKey(msgs, k, o), f, of)
  {
    forall a ensures
      var msgs', x := WithKey(msgs, k, o), NextSlot(msgs);
      && (IsSlot(msgs', a) <==> IsSlot(msgs, a) || a == x)
      && (IsSlot(msgs, a) ==> KeyAt(msgs', a) == KeyAt(msgs, a) && Before(a, x))
      && KeyAt(msgs', x) == k { WithKeySlots(msgs, k, o, a); }
    hide WithKey, NextSlot, IsSlot, KeyAt;
  }

  lemma AddedKeyIsOwned(msgs: seq<Msg>, k: Key, o: Slot)
    requires msgs != [] && Owned(msgs)
    requires IsFirst(msgs, o, k) || (o == NextSlot(msgs) && forall b :: IsSlot(msgs, b) ==> KeyAt(msgs, b) != k)
    ensures Owned(WithKey(msgs, k, o))
  {
    var msgs', x := WithKey(msgs, k, o), NextSlot(msgs);
    WithKeyContexts(msgs, k, o);
    FirstStays(msgs, k, o, o, k);
    forall a | IsSlot(msgs', a) ensures IsFirst(msgs', msgs'[a.m].kptr[a.n], KeyAt(msgs', a)) {
      hide WithKey, IsFirst;
      WithKeySlots(msgs, k, o, a);
      if a != x {
        FirstStays(msgs, k, o, msgs[a.m].kptr[a.n], KeyAt(msgs, a));
      }
    }
    hide WithKey, IsFirst, IsSlot, KeyAt;
  }

  // ---------------------------------------------------------------- the duplicate filter

  /** The bit that test_set_filter uses: bit h % 64 of word ( h / 64 ) % 4. */
  function FilterBit(k: Key): (nat, nat) {
    ((k.hash1 / 64) % 4, k.hash1 % 64)
  }

  /** The keys up to the first missing argument. */
  function Found(args: seq<Option<Key>>): (ks: seq<Key>)
    ensures |ks| <= |args| && (|ks| < |args| ==> args[|ks|].None?)
    ensures forall i :: 0 <= i < |ks| ==> args[i] == Some(ks[i])
  {
    if args == [] || args[0].None? then [] else [args[0].value] + Found(args[1..])
  }

  /** The last message of the list has got the keys ks; nothing else has changed. */
  ghost predicate Filled(before: seq<Msg>, now: seq<Msg>, ks: seq<Key>) {
    && |now| == |before| > 0 && now[..|now| - 1] == before[..|now| - 1]
    && now[|now| - 1].keys == ks && now[|now| - 1].eff == before[|now| - 1].eff
  }

  lemma NothingFilled(msgs: seq<Msg>)
    requires msgs != [] && msgs[|msgs| - 1].keys == []
    ensures Filled(msgs, msgs, [])
  {
  }

  lemma FillOne(before: seq<Msg>, now: seq<Msg>, ks: seq<Key>, k: Key, o: Slot)
    requires Filled(before, now, ks) && now != []
    ensures WithKey(now, k, o) != [] && Filled(before, WithKey(now, k, o), ks + [k])
  {
  }

  /** Keys that stop at the end of the arguments or at a missing one are those found. */
  lemma FoundIs(args: seq<Option<Key>>, ks: seq<Key>)
    requires |ks| <= |args| && (|ks| < |args| ==> args[|ks|].None?)
    requires forall i :: 0 <= i < |ks| ==> args[i] == Some(ks[i])
    ensures Found(args) == ks
  {
    var fs := Found(args);
    hide Found;
    var n := if |fs| <= |ks| then |fs| else |ks|;
    var stop := if n < |args| then args[n] else None;
    assert |fs| == |ks|;
    forall i | 0 <= i < |fs| ensures fs[i] == ks[i] { assert args[i] == Some(fs[i]); }
  }

  // ---------------------------------------------------------------- the queue

  class RedisMultiExec {
    var msgs: seq<Msg>
    var filter: set<(nat, nat)>
    var multiStart: bool
    var multiAbort: bool
    var watchCount: nat
    /** For each command that was put into the list since MULTI: was it answered with QUEUED? */
    ghost var answers: seq<bool>

    /** The messages are owned, and the filter has a bit for every key in them. */
    ghost predicate Valid()
      reads this
    {
      Owned(msgs) && forall a :: IsSlot(msgs, a) ==> FilterBit(KeyAt(msgs, a)) in filter
    }

    /** The list is the message with the watched keys, if there are any, and those commands. */
    ghost predicate Answered()
      reads this
    {
      && |msgs| == |answers| + (if multiStart && watchCount > 0 then 1 else 0)
      && (!multiStart ==> answers == [])
    }

    constructor ()
      ensures Valid() && Answered() && msgs == [] && filter == {} && !multiStart && !multiAbort && watchCount == 0
    {
      msgs, filter, multiStart, multiAbort, watchCount := [], {}, false, false, 0;
      answers := [];
    }

    /** Is the key's filter bit set?  Sets it. */
    method TestSetFilter(k: Key) returns (isSet: bool)
      modifies this`filter
      ensures isSet == (FilterBit(k) in old(filter))
      ensures filter == old(filter) + {FilterBit(k)}
    {
      isSet := FilterBit(k) in filter;
      filter := filter + {FilterBit(k)};
    }

    /** The first slot of a key, searching all messages. */
    method GetDupKctx(k: Key) returns (found: bool, a: Slot)
      ensures found ==> IsFirst(msgs, a, k)
      ensures !found ==> forall b :: IsSlot(msgs, b) ==> KeyAt(msgs, b) != k
    {
      var p := 0;
      while p < |msgs|
        invariant p <= |msgs|
        invariant forall b :: IsSlot(msgs, b) && b.m < p ==> KeyAt(msgs, b) != k
      {
        var j := 0;
        while j < |msgs[p].keys|
          invariant j <= |msgs[p].keys|
          invariant forall b :: IsSlot(msgs, b) && Before(b, Slot(p, j)) ==> KeyAt(msgs, b) != k
        {
          if msgs[p].keys[j].hash1 == k.hash1 && msgs[p].keys[j].hash2 == k.hash2 {
            return true, Slot(p, j);
          }
          j := j + 1;
        }
        p := p + 1;
      }
      return false, Slot(0, 0);
    }

    /** The loop body shared by MULTI and by queuing: one more key in the last message. */
    method AddKey(k: Key) returns (ghost owner: Slot)
      requires Valid() && msgs != []
      modifies this`msgs, this`filter
      ensures Valid()
      ensures msgs == WithKey(old(msgs), k, owner)
    {
      var o := NextSlot(msgs);
      var isSet := TestSetFilter(k);
      if isSet {
        var found, a := GetDupKctx(k);
        if found { o := a; }
      }
      assert !isSet ==> forall b :: IsSlot(msgs, b) ==> KeyAt(msgs, b) != k;
      AddedKeyIsOwned(msgs, k, o);
      forall a { WithKeySlots(msgs, k, o, a); }
      msgs := WithKey(msgs, k, o);
      owner := o;
    }

    /** Appends a message with the given keys to the list. */
    method AddMessage(keys: seq<Key>, eff: map<Key, Val> -> map<Key, Val>)
      requires Valid()
      modifies this`msgs, this`filter
      ensures Valid() && |msgs| == |old(msgs)| + 1 && msgs[..|old(msgs)|] == old(msgs)
      ensures var mm := msgs[|old(msgs)|]; mm.keys == keys && mm.eff == eff
    {
      ghost var before := msgs;
      assert forall a :: IsSlot(msgs + [Msg([], [], eff)], a) <==> IsSlot(msgs, a);
      EmptyMessageIsOwned(msgs, eff);
      msgs := msgs + [Msg([], [], eff)];
      var j := 0;
      while j < |keys|
        invariant j <= |keys| && Valid()
        invariant |msgs| == |before| + 1 && msgs[..|before|] == before
        invariant msgs[|before|].keys == keys[..j] && msgs[|before|].eff == eff
      {
        ghost var o := AddKey(keys[j]);
        j := j + 1;
      }
    }

    /** Queues a command of which keyCount keys are expected: args are the arguments at the places
        of its keys, as far as there are any.  A command that is refused stays queued with the keys
        found so far. */
    method MultiQueued(args: seq<Option<Key>>, keyCount: nat, eff: map<Key, Val> -> map<Key, Val>) returns (ok: bool)
      requires Valid() && (keyCount > 0 ==> args != [])
      modifies this`msgs, this`filter
      ensures Valid() && |msgs| == |old(msgs)| + 1 && msgs[..|old(msgs)|] == old(msgs)
      ensures var mm := msgs[|old(msgs)|]; mm.keys == (if keyCount == 0 then [] else Found(args)) && mm.eff == eff
      ensures ok <==> keyCount == 0 || |Found(args)| == |args| == keyCount
    {
      AddMessage([], eff);
      ok := true;
      if keyCount > 0 {
        ok := AddFound(args);
        ok := ok && |args| == keyCount;
      }
    }

    /** The loop over the keys; false when an argument is missing. */
    method AddFound(args: seq<Option<Key>>) returns (ok: bool)
      requires Valid() && msgs != [] && msgs[|msgs| - 1].keys == []
      modifies this`msgs, this`filter
      ensures Valid() && Filled(old(msgs), msgs, Found(args))
      ensures ok <==> |Found(args)| == |args|
    {
      hide Owned, Found, Filled, WithKey, RedisMultiExec.Valid;
      var j := 0;
      ghost var ks := [];
      NothingFilled(msgs);
      while j < |args|
        invariant j == |ks| <= |args| && Valid() && msgs != []
        invariant Filled(old(msgs), msgs, ks)
        invariant forall i :: 0 <= i < j ==> args[i] == Some(ks[i])
      {
        if args[j].None? {
          FoundIs(args, ks);
          return false;
        }
        ghost var k, before := args[j].value, msgs;
        ghost var o := AddKey(args[j].value);
        FillOne(old(msgs), before, ks, k, o);
        ks := ks + [k];
        j := j + 1;
      }
      FoundIs(args, ks);
      ok := true;
    }

    /** MULTI: the watched keys become the first message of the list. */
    method ExecMulti(watchKeys: seq<Key>) returns (ok: bool)
      requires Valid() && Answered()
      modifies this
      ensures Valid() && Answered() && multiStart && ok == !old(multiStart)
      ensures multiAbort == old(multiAbort) && answers == old(answers)
      ensures watchCount == if ok then |watchKeys| else old(watchCount)
      ensures !ok || watchKeys == [] ==> msgs == old(msgs)
      ensures ok && watchKeys != [] ==> |msgs| == 1 && msgs[0].keys == watchKeys
    {
      if multiStart {
        return false;
      }
      multiStart, watchCount := true, |watchKeys|;
      if watchCount != 0 {
        AddMessage(watchKeys, view => view);
      }
      ok := true;
    }

    /** A command between MULTI and EXEC; parsed says that it is known and has enough arguments. */
    method Receive(parsed: bool, args: seq<Option<Key>>, keyCount: nat, eff: map<Key, Val> -> map<Key, Val>) returns (ok: bool)
      requires Valid() && Answered() && multiStart && (keyCount > 0 ==> args != [])
      modifies this
      ensures Valid() && Answered() && multiStart && watchCount == old(watchCount)
      ensures multiAbort == (old(multiAbort) || !parsed)
      ensures !parsed ==> !ok && msgs == old(msgs) && answers == old(answers)
      ensures parsed ==> |msgs| == |old(msgs)| + 1 && msgs[..|old(msgs)|] == old(msgs) && answers == old(answers) + [ok]
      ensures parsed ==>
        msgs[|old(msgs)|].keys == (if keyCount == 0 then [] else Found(args)) && msgs[|old(msgs)|].eff == eff
      ensures parsed ==> (ok <==> keyCount == 0 || |Found(args)| == |args| == keyCount)
    {
      hide Owned;
      if !parsed {
        multiAbort := true;
        return false;
      }
      ok := MultiQueued(args, keyCount, eff);
      answers := answers + [ok];
    }

    /** The commands that EXEC runs; watched says that the watched keys are as WATCH saw them. */
    method ExecExec(watched: bool) returns (ran: seq<Msg>)
      requires Answered()
      ensures ran == if multiAbort || (watchCount > 0 && (msgs == [] || !watched)) then [] else msgs[|msgs| - |answers|..]
      ensures (forall i :: 0 <= i < |ran| ==> i < |answers| && answers[i])
        <==> multiAbort || (watchCount > 0 && !watched) || false !in answers
    {
      ran := [];
      if multiAbort {
        return;
      }
      var m := 0;
      if watchCount > 0 {
        if msgs == [] || !watched {
          return;
        }
        m := 1;
      }
      ghost var first := m;
      while m < |msgs|
        invariant first <= m <= |msgs| && ran == msgs[first..m]
      {
        ran := ran + [msgs[m]];
        m := m + 1;
      }
    }
  }

  /** MSET with the last value missing in a transaction: one key is expected and two are found, the
      command is refused, and EXEC runs it. */
  method RefusedExample(k: Key, k': Key, eff: map<Key, Val> -> map<Key, Val>) returns (ok: bool, ran: seq<Msg>)
    ensures !ok && |ran| == 1 && ran[0].keys == [k, k'] && ran[0].eff == eff
  {
    hide Owned;
    var multi := new RedisMultiExec();
    var started := multi.ExecMulti([]);
    FoundIs([Some(k), Some(k')], [k, k']);
    ok := multi.Receive(true, [Some(k), Some(k')], 1, eff);
    ran := multi.ExecExec(true);
  }

  lemma EmptyMessageIsOwned(msgs: seq<Msg>, eff: map<Key, Val> -> map<Key, Val>)
    requires Owned(msgs)
    ensures Owned(msgs + [Msg([], [], eff)])
  {
    var msgs' := msgs + [Msg([], [], eff)];
    assert forall m :: 0 <= m < |msgs'| ==> |msgs'[m].kptr| == |msgs'[m].keys|;
    forall a ensures (IsSlot(msgs', a) <==> IsSlot(msgs, a)) && (IsSlot(msgs, a) ==> KeyAt(msgs', a) == KeyAt(msgs, a)) {}
    forall a | IsSlot(msgs', a) ensures IsFirst(msgs', msgs'[a.m].kptr[a.n], KeyAt(msgs', a)) {
      assert msgs'[a.m].kptr[a.n] == msgs[a.m].kptr[a.n];
      assert IsFirst(msgs, msgs[a.m].kptr[a.n], KeyAt(msgs, a));
      hide IsSlot, KeyAt;
    }
    hide IsSlot, KeyAt, IsFirst;
  }
}
