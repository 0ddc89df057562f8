/** Locking the keys of a transaction (src/redis_transaction.cpp:103-146).

    EXEC walks the message list and acquires the key of every owning slot; when one is busy
    it walks back over the slots it has passed and releases what it had acquired. */
module TransactionLocks {

  import opened TransactionQueue

  type Client = nat

  /** Key k has a slot before position cur of the list. */
  ghost predicate Passed(msgs: seq<Msg>, cur: Slot, k: Key) {
    exists a :: IsSlot(msgs, a) && Before(a, cur) && KeyAt(msgs, a) == k
  }

  /** Passing a slot adds its key, which was there before unless the slot is the owner. */
  lemma PassSlot(msgs: seq<Msg>, cur: Slot, k: Key)
    requires Owned(msgs) && IsSlot(msgs, cur)
    ensures Passed(msgs, Slot(cur.m, cur.n + 1), k) <==> Passed(msgs, cur, k) || k == KeyAt(msgs, cur)
    ensures Owns(msgs, cur) <==> !Passed(msgs, cur, KeyAt(msgs, cur))
  {
    var next := Slot(cur.m, cur.n + 1);
    if Passed(msgs, next, k) {
      var a :| IsSlot(msgs, a) && Before(a, next) && KeyAt(msgs, a) == k;
      assert a == cur || Before(a, cur);
    }
    if k == KeyAt(msgs, cur) { assert Before(cur, next); }
    OwnerComesFirst(msgs, cur);
  }

  lemma PassMessage(msgs: seq<Msg>, m: nat, k: Key)
    requires m < |msgs|
    ensures Passed(msgs, Slot(m, |msgs[m].keys|), k) <==> Passed(msgs, Slot(m + 1, 0), k)
  {
  }

  lemma PassNothing(msgs: seq<Msg>, k: Key)
    ensures !Passed(msgs, Slot(0, 0), k)
  {
  }

  /** The keys that client me holds are exactly those passed at cur; other locks are as in h0. */
  ghost predicate Holding(h0: map<Key, Client>, h: map<Key, Client>, me: Client, msgs: seq<Msg>, cur: Slot) {
    forall k :: if Passed(msgs, cur, k) then k in h && h[k] == me && k !in h0
                else (k in h <==> k in h0) && (k in h ==> h[k] == h0[k])
  }

  /** Acquiring at an owning slot, and passing any other. */
  lemma AcquireStep(h0: map<Key, Client>, h: map<Key, Client>, me: Client, msgs: seq<Msg>, cur: Slot)
    requires Owned(msgs) && IsSlot(msgs, cur) && Holding(h0, h, me, msgs, cur)
    ensures |msgs[cur.m].kptr| == |msgs[cur.m].keys|
    ensures var k := KeyAt(msgs, cur);
            if Owns(msgs, cur) then
              && (k in h <==> k in h0)
              && (k !in h ==> Holding(h0, h[k := me], me, msgs, Slot(cur.m, cur.n + 1)))
            else Holding(h0, h, me, msgs, Slot(cur.m, cur.n + 1))
  {
    var next, key := Slot(cur.m, cur.n + 1), KeyAt(msgs, cur);
    forall k ensures Passed(msgs, next, k) <==> Passed(msgs, cur, k) || k == key { PassSlot(msgs, cur, k); }
    PassSlot(msgs, cur, key);
    HoldingMore(h0, h, me, msgs, cur, next, key);
  }

  lemma HoldingMore(h0: map<Key, Client>, h: map<Key, Client>, me: Client, msgs: seq<Msg>, cur: Slot, next: Slot, key: Key)
    requires forall k :: Passed(msgs, next, k) <==> Passed(msgs, cur, k) || k == key
    requires Holding(h0, h, me, msgs, cur)
    ensures Passed(msgs, cur, key) ==> Holding(h0, h, me, msgs, next)
    ensures !Passed(msgs, cur, key) ==> (key in h <==> key in h0)
    ensures !Passed(msgs, cur, key) && key !in h ==> Holding(h0, h[key := me], me, msgs, next)
  {
    hide Passed;
  }

  /** Releasing at an owning slot, and passing back over any other. */
  lemma ReleaseStep(h0: map<Key, Client>, h: map<Key, Client>, me: Client, msgs: seq<Msg>, cur: Slot)
    requires Owned(msgs) && IsSlot(msgs, cur) && Holding(h0, h, me, msgs, Slot(cur.m, cur.n + 1))
    ensures |msgs[cur.m].kptr| == |msgs[cur.m].keys|
    ensures Holding(h0, if Owns(msgs, cur) then h - {KeyAt(msgs, cur)} else h, me, msgs, cur)
  {
    var next, key := Slot(cur.m, cur.n + 1), KeyAt(msgs, cur);
    forall k ensures Passed(msgs, next, k) <==> Passed(msgs, cur, k) || k == key { PassSlot(msgs, cur, k); }
    PassSlot(msgs, cur, key);
    HoldingLess(h0, h, me, msgs, cur, next, key);
    hide Passed, Owned, Holding;
  }

  lemma HoldingLess(h0: map<Key, Client>, h: map<Key, Client>, me: Client, msgs: seq<Msg>, cur: Slot, next: Slot, key: Key)
    requires forall k :: Passed(msgs, next, k) <==> Passed(msgs, cur, k) || k == key
    requires Holding(h0, h, me, msgs, next)
    ensures Passed(msgs, cur, key) ==> Holding(h0, h, me, msgs, cur)
    ensures !Passed(msgs, cur, key) ==> Holding(h0, h - {key}, me, msgs, cur)
  {
    hide Passed;
  }

  lemma NextMessage(h0: map<Key, Client>, h: map<Key, Client>, me: Client, msgs: seq<Msg>, m: nat)
    requires m < |msgs|
    ensures Holding(h0, h, me, msgs, Slot(m, |msgs[m].keys|)) <==> Holding(h0, h, me, msgs, Slot(m + 1, 0))
  {
  }

  lemma HoldingNothing(h0: map<Key, Client>, h: map<Key, Client>, me: Client, msgs: seq<Msg>)
    ensures Holding(h0, h, me, msgs, Slot(0, 0)) <==> h == h0
  {
  }

  /** The lock state of the shared store: which client has acquired which key. */
  class KeyLocks {
    var holder: map<Key, Client>

    constructor ()
      ensures holder == map[]
    {
      holder := map[];
    }

    /** Acquires every key of the list once, or stops at the first one held by somebody else. */
    method MultiTryLock(msgs: seq<Msg>, me: Client) returns (ok: bool, cur: Slot)
      requires Owned(msgs)
      modifies this
      ensures Holding(old(holder), holder, me, msgs, cur)
      ensures ok ==> cur == Slot(|msgs|, 0)
      ensures !ok ==> IsSlot(msgs, cur) && Owns(msgs, cur) && KeyAt(msgs, cur) in old(holder)
    {
      hide Holding, Owned;
      ghost var h0 := holder;
      var m := 0;
      HoldingNothing(h0, h0, me, msgs);
      while m < |msgs|
        invariant m <= |msgs| && Holding(h0, holder, me, msgs, Slot(m, 0))
      {
        var n := 0;
        while n < |msgs[m].keys|
          invariant n <= |msgs[m].keys| && Holding(h0, holder, me, msgs, Slot(m, n))
        {
          AcquireStep(h0, holder, me, msgs, Slot(m, n));
          if msgs[m].kptr[n] == Slot(m, n) {
            if msgs[m].keys[n] in holder {
              return false, Slot(m, n);
            }
            holder := holder[msgs[m].keys[n] := me];
          }
          n := n + 1;
        }
        NextMessage(h0, holder, me, msgs, m);
        m := m + 1;
      }
      return true, Slot(|msgs|, 0);
    }

    /** Walks back from cur and releases the key of every owning slot. */
    method MultiReleaseLock(msgs: seq<Msg>, me: Client, cur: Slot, ghost h0: map<Key, Client>)
      requires Owned(msgs) && Holding(h0, holder, me, msgs, cur)
      requires IsSlot(msgs, cur) || cur == Slot(|msgs|, 0)
      modifies this
      ensures holder == h0
    {
      hide Holding, Owned;
      var m: nat, n: nat := cur.m, cur.n;
      while true
        invariant Holding(h0, holder, me, msgs, Slot(m, n))
        invariant if m < |msgs| then n <= |msgs[m].keys| else m == |msgs| && n == 0
        decreases m
      {
        while n > 0
          invariant Holding(h0, holder, me, msgs, Slot(m, n))
          invariant if m < |msgs| then n <= |msgs[m].keys| else m == |msgs| && n == 0
        {
          n := n - 1;
          ReleaseStep(h0, holder, me, msgs, Slot(m, n));
          if msgs[m].kptr[n] == Slot(m, n) {
            holder := holder - {msgs[m].keys[n]};
          }
        }
        if m == 0 {
          break;
        }
        m := m - 1;
        NextMessage(h0, holder, me, msgs, m);
        n := |msgs[m].keys|;
      }
      HoldingNothing(h0, holder, me, msgs);
    }

    /** A failed attempt is undone completely, as in the retry loop of EXEC. */
    method TryOnce(msgs: seq<Msg>, me: Client) returns (ok: bool)
      requires Owned(msgs)
      modifies this
      ensures !ok ==> holder == old(holder)
      ensures ok <==> forall a :: IsSlot(msgs, a) ==> KeyAt(msgs, a) !in old(holder)
      ensures ok ==> Holding(old(holder), holder, me, msgs, Slot(|msgs|, 0))
    {
      ghost var h0 := holder;
      var cur;
      ok, cur := MultiTryLock(msgs, me);
      if !ok {
        MultiReleaseLock(msgs, me, cur, h0);
      } else {
        forall a | IsSlot(msgs, a) ensures KeyAt(msgs, a) !in h0 {
          assert Passed(msgs, cur, KeyAt(msgs, a));
        }
      }
    }
  }
}
