/** The open-addressing hash table of the HTTP client (src/ev_http_client.cpp, VarHT).

    Keys and values are byte strings; a slot whose key is empty is vacant.  Collisions
    are resolved by linear probing, and the table doubles in place: every entry is walked
    from its home slot under the new mask while other entries still sit at their old
    places.  This file proves that doubling keeps every entry reachable and that the
    table implements a finite map. */
module VarTable {

  import opened Common

  type Val = string

  datatype Pair = Pair(x: Val, y: Val) {
    predicate IsEmpty() { x == "" }
  }

  const VACANT := Pair("", "")

  // ---------------------------------------------------------------- the mask

  /** The source's `h & m`, bit by bit. */
  function And(a: nat, b: nat): nat {
    if a == 0 || b == 0 then 0
    else (if a % 2 == 1 && b % 2 == 1 then 1 else 0) + 2 * And(a / 2, b / 2)
  }

  ghost predicate IsPow2(n: nat) {
    n == 1 || (n > 1 && n % 2 == 0 && IsPow2(n / 2))
  }

  lemma {:induction false} MaskIsModulo(h: nat, n: nat)
    requires IsPow2(n)
    ensures And(h, n - 1) == h % n
    decreases n
  {
    if n > 1 {
      MaskIsModulo(h / 2, n / 2);
      MaskDoubles(h, n / 2);
    }
  }

  lemma MaskDoubles(h: nat, m: nat)
    requires m > 0 && And(h / 2, m - 1) == (h / 2) % m
    ensures And(h, 2 * m - 1) == h % (2 * m)
  {
    AndOdd(h, m);
    hide And;
    HalveModulo(h, m);
  }

  lemma AndOdd(h: nat, m: nat)
    requires m > 0
    ensures And(h, 2 * m - 1) == h % 2 + 2 * And(h / 2, m - 1)
  {
    assert (2 * m - 1) % 2 == 1 && (2 * m - 1) / 2 == m - 1;
    assert h == 0 ==> And(h / 2, m - 1) == 0;
  }

  lemma {:induction false} HalveModulo(h: nat, m: nat)
    requires m > 0
    ensures h % (2 * m) == h % 2 + 2 * ((h / 2) % m)
    decreases h
  {
    if h >= 2 * m {
      HalveModulo(h - 2 * m, m);
      SubtractDivisor(h, 2 * m);
      assert (h - 2 * m) / 2 == h / 2 - m;
      SubtractDivisor(h / 2, m);
    } else {
      SmallModulo(h, 2 * m);
      SmallModulo(h / 2, m);
    }
  }

  lemma SmallModulo(a: nat, n: nat)
    requires a < n
    ensures a % n == a
  {
  }

  lemma WholeModulo(n: nat)
    requires n > 0
    ensures n % n == 0
  {
  }

  lemma SubtractDivisor(a: nat, n: nat)
    requires 0 < n <= a
    ensures (a - n) % n == a % n
  {
    var k, r := a / n, a % n;
    var k', r' := (a - n) / n, (a - n) % n;
    assert a == n * k + r && a - n == n * k' + r';
    assert n * (k' + 1) == n * k' + n;
    var d := k - k' - 1;
    assert n * d == n * k - n * (k' + 1);
    if d >= 1 {
      AtLeastOnce(n, d);
    } else if d <= -1 {
      assert n * -d == -(n * d);
      AtLeastOnce(n, -d);
    }
  }

  lemma AtLeastOnce(n: nat, d: nat)
    requires d >= 1
    ensures n * d >= n
  {
  }

  // ---------------------------------------------------------------- tables as sequences

  /** The slot where the search for each key starts in a table of n slots. */
  function HomeOf(hash: Val -> nat, n: nat): Val -> nat {
    (x: Val) => if n == 0 then 0 else And(hash(x), n - 1)
  }

  lemma HomeInRange(hash: Val -> nat, x: Val, n: nat)
    requires IsPow2(n)
    ensures HomeOf(hash, n)(x) < n
  {
    MaskIsModulo(hash(x), n);
  }

  /** Slot t lies on the cyclic walk from slot h up to, but not including, slot q. */
  predicate OnPath(h: nat, q: nat, t: nat) {
    if h <= q then h <= t < q else h <= t || t < q
  }

  /** A search that starts at slot h reaches slot q without meeting a vacant slot. */
  ghost predicate Filled(s: seq<Pair>, h: nat, q: nat) {
    forall t :: 0 <= t < |s| && OnPath(h, q, t) ==> !s[t].IsEmpty()
  }

  ghost predicate Reachable(s: seq<Pair>, home: Val -> nat, q: nat)
    requires q < |s|
  {
    Filled(s, home(s[q].x), q)
  }

  /** The occupied slots of s hold exactly the bindings of m, each key once. */
  ghost predicate Holds(s: seq<Pair>, m: map<Val, Val>) {
    && "" !in m
    && (forall q :: 0 <= q < |s| && !s[q].IsEmpty() ==> s[q].x in m && m[s[q].x] == s[q].y)
    && (forall k :: k in m ==> exists q :: 0 <= q < |s| && s[q].x == k)
    && (forall a, b :: 0 <= a < b < |s| && !s[a].IsEmpty() ==> s[a].x != s[b].x)
  }

  ghost predicate AllReachable(s: seq<Pair>, home: Val -> nat, i: nat)
    requires i <= |s|
  {
    forall q :: 0 <= q < i && !s[q].IsEmpty() ==> Reachable(s, home, q)
  }

  /** What every table between two operations satisfies. */
  ghost predicate Table(s: seq<Pair>, home: Val -> nat, m: map<Val, Val>) {
    Holds(s, m) && AllReachable(s, home, |s|)
  }

  /** A run of occupied slots is no longer than the number of bindings. */
  lemma RunBound(s: seq<Pair>, m: map<Val, Val>, a: nat, b: nat)
    requires a <= b <= |s| && Holds(s, m)
    requires forall q :: a <= q < b ==> !s[q].IsEmpty()
    ensures b - a <= |m|
  {
    var keys := {};
    var c := a;
    while c < b
      invariant a <= c <= b && keys <= m.Keys && |keys| == c - a
      invariant forall k :: k in keys ==> exists q :: a <= q < c && s[q].x == k
    {
      keys := keys + {s[c].x};
      c := c + 1;
    }
    SubsetSize(keys, m.Keys);
  }

  // ---------------------------------------------------------------- doubling in place

  /** Every entry in an upper slot from i on has every upper slot of its path from i on
      occupied, because only a visit vacates a slot. */
  ghost predicate UpperOk(s: seq<Pair>, home: Val -> nat, n: nat, i: nat) {
    forall q :: n <= q < |s| && i <= q && !s[q].IsEmpty() ==> UpperEntryOk(s, home, n, i, q)
  }

  ghost predicate UpperEntryOk(s: seq<Pair>, home: Val -> nat, n: nat, i: nat, q: nat)
    requires q < |s|
  {
    && home(s[q].x) <= q
    && (forall t :: home(s[q].x) <= t < q && i <= t && n <= t ==> !s[t].IsEmpty())
  }

  /** Once the upper half is being visited, u is the table when the visit of slot n ended:
      the upper slots visited since were occupied then, the others have not changed. */
  ghost predicate UpperPhase(s: seq<Pair>, m: map<Val, Val>, n: nat, i: nat, u: seq<Pair>) {
    i > n ==>
      && |u| == |s| && Holds(u, m)
      && (forall q :: n < q < i && q < |u| ==> !u[q].IsEmpty())
      && (forall q :: i <= q < |u| ==> u[q] == s[q])
  }

  /** The table before slot i is visited while n slots are doubled. */
  ghost predicate Doubling(s: seq<Pair>, home: Val -> nat, m: map<Val, Val>, n: nat, i: nat, u: seq<Pair>) {
    && n >= 8 && |s| == 2 * n && i <= 2 * n && 2 * |m| <= n
    && Holds(s, m)
    && AllReachable(s, home, i)
    && UpperOk(s, home, n, i)
    && UpperPhase(s, m, n, i, u)
  }

  /** A vacant slot, or an entry whose whole path is occupied, is left alone. */
  lemma SkipStep(s: seq<Pair>, home: Val -> nat, m: map<Val, Val>, n: nat, i: nat, u: seq<Pair>)
    requires Doubling(s, home, m, n, i, u) && i < 2 * n
    requires if s[i].IsEmpty() then i <= n else Reachable(s, home, i)
    ensures Doubling(s, home, m, n, i + 1, if i <= n then s else u)
  {
    hide Holds, Reachable;
    assert UpperOk(s, home, n, i + 1) by {
      forall q | n <= q < |s| && i + 1 <= q && !s[q].IsEmpty() ensures UpperEntryOk(s, home, n, i + 1, q) {
        assert UpperEntryOk(s, home, n, i, q);
      }
    }
  }

  function Moved(s: seq<Pair>, i: nat, j: nat): seq<Pair>
    requires i < |s| && j < |s|
  {
    s[j := s[i]][i := VACANT]
  }

  lemma MoveKeepsBindings(s: seq<Pair>, m: map<Val, Val>, i: nat, j: nat)
    requires i < |s| && j < |s| && i != j && Holds(s, m)
    requires !s[i].IsEmpty() && s[j].IsEmpty()
    ensures Holds(Moved(s, i, j), m)
  {
    var s' := Moved(s, i, j);
    MovedSlots(s, i, j);
    forall q | 0 <= q < |s'| && !s'[q].IsEmpty() ensures s'[q].x in m && m[s'[q].x] == s'[q].y {
      assert s'[q] == s[if q == j then i else q];
    }
    forall k | k in m ensures exists q :: 0 <= q < |s'| && s'[q].x == k {
      var q :| 0 <= q < |s| && s[q].x == k;
      assert s'[if q == i then j else q].x == k;
    }
    forall a, b | 0 <= a < b < |s'| && !s'[a].IsEmpty() ensures s'[a].x != s'[b].x {
      if s'[b] != VACANT {
        var a', b' := if a == j then i else a, if b == j then i else b;
        assert s'[a] == s[a'] && s'[b] == s[b'] && a' != b';
      }
    }
  }

  lemma MovedSlots(s: seq<Pair>, i: nat, j: nat)
    requires i < |s| && j < |s| && i != j
    ensures var s' := Moved(s, i, j);
            |s'| == |s| && forall q :: 0 <= q < |s| ==> s'[q] == if q == i then VACANT else if q == j then s[i] else s[q]
  {
  }

  /** No reachable entry in a visited slot has the slot being visited on its path: its path
      would wrap around the end, so all slots from i up would be occupied, and together with
      the upper slots already visited these are more than the table has entries. */
  lemma VisitedPathsAvoid(s: seq<Pair>, home: Val -> nat, m: map<Val, Val>, n: nat, i: nat, u: seq<Pair>, q: nat)
    requires Doubling(s, home, m, n, i, u) && q < i < 2 * n
    requires !s[i].IsEmpty() && !s[q].IsEmpty()
    ensures !OnPath(home(s[q].x), q, i)
  {
    hide Holds, UpperOk;
    var h := home(s[q].x);
    if OnPath(h, q, i) {
      assert Reachable(s, home, q);
      forall t | i <= t < 2 * n ensures !s[t].IsEmpty() { assert OnPath(h, q, t); }
      if i <= n {
        RunBound(s, m, n, 2 * n);
      } else {
        forall t | n < t < 2 * n ensures !u[t].IsEmpty() {
          if t >= i { assert u[t] == s[t]; }
        }
        RunBound(u, m, n + 1, 2 * n);
      }
    }
  }

  /** A path into a slot of the upper half never wraps: it would fill the lower half. */
  lemma UpperPathsDoNotWrap(s: seq<Pair>, m: map<Val, Val>, n: nat, h: nat, j: nat)
    requires |s| == 2 * n && Holds(s, m) && 2 * |m| <= n && n > 0
    requires n <= j < 2 * n && Filled(s, h, j)
    ensures h <= j
  {
    hide Holds;
    if h > j {
      forall t | 0 <= t < n ensures !s[t].IsEmpty() { assert OnPath(h, j, t); }
      RunBound(s, m, 0, n);
    }
  }

  /** The visited entry moves to the first vacant slot of its walk. */
  lemma MoveStep(s: seq<Pair>, home: Val -> nat, m: map<Val, Val>, n: nat, i: nat, u: seq<Pair>, j: nat)
    requires Doubling(s, home, m, n, i, u) && i < 2 * n && j < 2 * n && i != j
    requires !s[i].IsEmpty() && s[j].IsEmpty()
    requires Filled(s, home(s[i].x), j) && !OnPath(home(s[i].x), j, i)
    ensures var s' := Moved(s, i, j); Doubling(s', home, m, n, i + 1, if i <= n then s' else u)
  {
    hide Holds;
    var s' := Moved(s, i, j);
    MoveKeepsBindings(s, m, i, j);
    if i >= n { assert UpperEntryOk(s, home, n, i, i); }
    MoveKeepsReachable(s, home, m, n, i, u, j);
    MoveKeepsUpper(s, home, m, n, i, u, j);
  }

  lemma MoveKeepsReachable(s: seq<Pair>, home: Val -> nat, m: map<Val, Val>, n: nat, i: nat, u: seq<Pair>, j: nat)
    requires Doubling(s, home, m, n, i, u) && i < 2 * n && j < 2 * n && i != j
    requires !s[i].IsEmpty() && s[j].IsEmpty()
    requires Filled(s, home(s[i].x), j) && !OnPath(home(s[i].x), j, i)
    ensures AllReachable(Moved(s, i, j), home, i + 1)
  {
    hide Holds, UpperOk, UpperPhase;
    var s' := Moved(s, i, j);
    forall q | 0 <= q < i + 1 && !s'[q].IsEmpty() ensures Reachable(s', home, q) {
      if q != j {
        VisitedPathsAvoid(s, home, m, n, i, u, q);
        assert Reachable(s, home, q);
      }
    }
  }

  lemma MoveKeepsUpper(s: seq<Pair>, home: Val -> nat, m: map<Val, Val>, n: nat, i: nat, u: seq<Pair>, j: nat)
    requires Doubling(s, home, m, n, i, u) && i < 2 * n && j < 2 * n && i != j
    requires !s[i].IsEmpty() && s[j].IsEmpty()
    requires Filled(s, home(s[i].x), j) && !OnPath(home(s[i].x), j, i)
    ensures UpperOk(Moved(s, i, j), home, n, i + 1)
    ensures i >= n ==> j < i
  {
    hide Holds, AllReachable, UpperPhase;
    var s' := Moved(s, i, j);
    if j >= n { UpperPathsDoNotWrap(s, m, n, home(s[i].x), j); }
    if i >= n { assert UpperEntryOk(s, home, n, i, i); }
    forall q | n <= q < 2 * n && i + 1 <= q && !s'[q].IsEmpty() ensures UpperEntryOk(s', home, n, i + 1, q) {
      if q != j {
        assert UpperEntryOk(s, home, n, i, q);
      } else {
        assert forall t :: home(s[i].x) <= t < j ==> OnPath(home(s[i].x), j, t);
      }
    }
  }

  /** Past the old size, the first vacant slot ends the doubling. */
  lemma StopEarly(s: seq<Pair>, home: Val -> nat, m: map<Val, Val>, n: nat, i: nat, u: seq<Pair>)
    requires Doubling(s, home, m, n, i, u) && n < i < 2 * n && s[i].IsEmpty()
    ensures Table(s, home, m)
  {
    hide Holds, UpperPhase;
    forall q | 0 <= q < |s| && !s[q].IsEmpty() ensures Reachable(s, home, q) {
      if q >= i {
        assert UpperEntryOk(s, home, n, i, q);
      }
    }
  }

  /** The walk goes on from an occupied slot and never comes back to where it started. */
  lemma ExtendWalk(s: seq<Pair>, h: nat, i: nat, j: nat)
    requires h < |s| && i < |s| && j < |s| && i != j
    requires Filled(s, h, j) && !OnPath(h, j, i) && !s[j].IsEmpty()
    ensures var k := if j + 1 == |s| then 0 else j + 1; Filled(s, h, k) && !OnPath(h, k, i)
  {
    var k := if j + 1 == |s| then 0 else j + 1;
    assert k != h;
    assert forall t :: 0 <= t < |s| && OnPath(h, k, t) ==> t == j || OnPath(h, j, t);
  }

  /** `( j + 1 ) & mask` steps to the next slot around the ring. */
  lemma NextSlot(j: nat, n: nat)
    requires IsPow2(n) && j < n
    ensures And(j + 1, n - 1) == if j + 1 == n then 0 else j + 1
  {
    hide And, IsPow2;
    MaskIsModulo(j + 1, n);
    if j + 1 < n { SmallModulo(j + 1, n); } else { WholeModulo(n); }
  }

  lemma FinishDoubling(s: seq<Pair>, home: Val -> nat, m: map<Val, Val>, n: nat, u: seq<Pair>)
    requires Doubling(s, home, m, n, 2 * n, u)
    ensures Table(s, home, m)
  {
  }

  lemma VacantTable(s: seq<Pair>, home: Val -> nat)
    requires forall q :: 0 <= q < |s| ==> s[q] == VACANT
    ensures Table(s, home, map[])
  {
  }

  lemma StartDoubling(s: seq<Pair>, s': seq<Pair>, home: Val -> nat, m: map<Val, Val>, n: nat, u: seq<Pair>)
    requires n >= 8 && |s| == n && |s'| == 2 * n && 2 * |m| <= n && Holds(s, m)
    requires forall q :: 0 <= q < 2 * n ==> s'[q] == if q < n then s[q] else VACANT
    ensures Doubling(s', home, m, n, 0, u)
  {
    HoldsLonger(s, s', m, n);
    hide Holds;
  }

  lemma HoldsLonger(s: seq<Pair>, s': seq<Pair>, m: map<Val, Val>, n: nat)
    requires |s| == n && |s'| == 2 * n && Holds(s, m)
    requires forall q :: 0 <= q < 2 * n ==> s'[q] == if q < n then s[q] else VACANT
    ensures Holds(s', m)
  {
    forall k | k in m ensures exists q :: 0 <= q < |s'| && s'[q].x == k {
      var q :| 0 <= q < |s| && s[q].x == k;
      assert s'[q].x == k;
    }
  }

  // ---------------------------------------------------------------- the map

  /** An addition binds its key; an empty key binds nothing. */
  ghost function Bind(m: map<Val, Val>, e: Pair): map<Val, Val> {
    if e.IsEmpty() then m else m[e.x := e.y]
  }

  /** The bindings after a sequence of additions. */
  ghost function Replay(log: seq<Pair>): map<Val, Val> {
    if log == [] then map[] else Bind(Replay(log[..|log| - 1]), log[|log| - 1])
  }

  lemma ReplayAppend(log: seq<Pair>, e: Pair)
    ensures Replay(log + [e]) == Bind(Replay(log), e)
    ensures "" !in Replay(log)
    ensures |Bind(Replay(log), e)| == |Replay(log)| + if !e.IsEmpty() && e.x !in Replay(log) then 1 else 0
  {
    assert (log + [e])[..|log|] == log;
  }

  /** Entry i of the log is the last one with key k. */
  ghost predicate LastAdded(log: seq<Pair>, k: Val, i: nat) {
    i < |log| && log[i].x == k && forall j :: i < j < |log| ==> log[j].x != k
  }

  /** Replaying binds exactly the non-empty keys added, to the values they were last added with. */
  lemma {:induction false} ReplayIsLastAdded(log: seq<Pair>, k: Val)
    ensures k in Replay(log) <==> k != "" && exists i: nat :: LastAdded(log, k, i)
    ensures k in Replay(log) ==> forall i: nat :: LastAdded(log, k, i) ==> Replay(log)[k] == log[i].y
  {
    if log != [] {
      var n := |log| - 1;
      ReplayIsLastAdded(log[..n], k);
      if log[n].x == k {
        assert LastAdded(log, k, n);
      } else {
        assert forall i: nat :: LastAdded(log, k, i) ==> LastAdded(log[..n], k, i);
        assert forall i: nat :: LastAdded(log[..n], k, i) ==> LastAdded(log, k, i);
      }
    }
  }

  /** A vacant slot at the end of the key's walk shows that the key is absent. */
  lemma AbsentAtVacancy(s: seq<Pair>, home: Val -> nat, m: map<Val, Val>, x: Val, k: nat)
    requires Table(s, home, m) && k < |s| && s[k].IsEmpty() && x != ""
    requires forall t :: 0 <= t < |s| && OnPath(home(x), k, t) ==> s[t].x != x
    ensures x !in m
  {
    forall q | 0 <= q < |s| && !s[q].IsEmpty() ensures s[q].x != x {
      assert Reachable(s, home, q);
    }
  }

  // ---------------------------------------------------------------- the search loop

  /** Slot t is one of the first i slots of the walk from h around n slots. */
  predicate Walked(h: nat, n: nat, i: nat, t: nat) {
    h <= t < h + i || t + n < h + i
  }

  /** A search for x stands at slot k after i slots, all occupied by other keys. */
  ghost predicate Probing(s: seq<Pair>, home: Val -> nat, x: Val, i: nat, k: nat) {
    && home(x) < |s| && IsPow2(|s|) && i < |s|
    && k == (if home(x) + i < |s| then home(x) + i else home(x) + i - |s|)
    && (forall t :: 0 <= t < |s| && Walked(home(x), |s|, i, t) ==> !s[t].IsEmpty() && s[t].x != x)
  }

  lemma StartProbe(s: seq<Pair>, hash: Val -> nat, x: Val)
    requires IsPow2(|s|)
    ensures Probing(s, HomeOf(hash, |s|), x, 0, And(hash(x), |s| - 1))
  {
    HomeInRange(hash, x, |s|);
  }

  /** A table is never full, so the search stops before it has come around. */
  lemma ProbeGoesOn(s: seq<Pair>, home: Val -> nat, m: map<Val, Val>, x: Val, i: nat, k: nat)
    requires Probing(s, home, x, i, k) && Holds(s, m) && 2 * |m| <= |s|
    requires !s[k].IsEmpty() && s[k].x != x
    ensures Probing(s, home, x, i + 1, And(k + 1, |s| - 1))
  {
    hide Holds;
    NextSlot(k, |s|);
    assert forall t :: 0 <= t < |s| && Walked(home(x), |s|, i + 1, t) ==> t == k || Walked(home(x), |s|, i, t);
    if i + 1 == |s| {
      RunBound(s, m, 0, |s|);
    }
  }

  /** A search that ends at a vacant slot walked only over other keys, and its key is absent. */
  lemma ProbeEndsAtVacancy(s: seq<Pair>, home: Val -> nat, m: map<Val, Val>, x: Val, i: nat, k: nat)
    requires Probing(s, home, x, i, k) && Table(s, home, m) && s[k].IsEmpty()
    ensures Filled(s, home(x), k)
    ensures x != "" ==> x !in m
  {
    hide Holds;
    assert forall t :: 0 <= t < |s| && OnPath(home(x), k, t) ==> Walked(home(x), |s|, i, t);
    if x != "" { AbsentAtVacancy(s, home, m, x, k); }
  }

  lemma TableLookup(s: seq<Pair>, m: map<Val, Val>, k: nat)
    requires Holds(s, m) && k < |s| && !s[k].IsEmpty()
    ensures s[k].x in m && m[s[k].x] == s[k].y
  {
  }

  /** Filling the vacant slot at the end of the key's walk adds a binding. */
  lemma InsertAtVacancy(s: seq<Pair>, home: Val -> nat, m: map<Val, Val>, e: Pair, k: nat)
    requires Table(s, home, m) && k < |s| && s[k].IsEmpty() && !e.IsEmpty()
    requires Filled(s, home(e.x), k) && e.x !in m
    ensures Table(s[k := e], home, m[e.x := e.y])
  {
    var s', m' := s[k := e], m[e.x := e.y];
    assert Holds(s', m') by {
      forall c | c in m' ensures exists q :: 0 <= q < |s'| && s'[q].x == c {
        if c == e.x {
          assert s'[k].x == c;
        } else {
          var q :| 0 <= q < |s| && s[q].x == c;
          assert s'[q].x == c;
        }
      }
    }
    InsertKeepsReachable(s, home, e, k);
  }

  lemma InsertKeepsReachable(s: seq<Pair>, home: Val -> nat, e: Pair, k: nat)
    requires AllReachable(s, home, |s|) && k < |s|
    requires if s[k].IsEmpty() then Filled(s, home(e.x), k) || e.IsEmpty() else e.x == s[k].x
    ensures AllReachable(s[k := e], home, |s|)
  {
    var s' := s[k := e];
    forall q | 0 <= q < |s'| && !s'[q].IsEmpty() ensures Reachable(s', home, q) {
      if q != k || !s[k].IsEmpty() { assert Reachable(s, home, q); }
    }
  }

  /** Overwriting the value in the slot that holds a key rebinds it. */
  lemma RebindInPlace(s: seq<Pair>, home: Val -> nat, m: map<Val, Val>, k: nat, y: Val)
    requires Table(s, home, m) && k < |s|
    ensures Table(s[k := s[k].(y := y)], home, if s[k].IsEmpty() then m else m[s[k].x := y])
  {
    var s' := s[k := s[k].(y := y)];
    var m' := if s[k].IsEmpty() then m else m[s[k].x := y];
    assert Holds(s', m') by {
      forall c | c in m' ensures exists q :: 0 <= q < |s'| && s'[q].x == c {
        var q :| 0 <= q < |s| && s[q].x == c;
        assert s'[q].x == c;
      }
    }
    InsertKeepsReachable(s, home, s[k].(y := y), k);
  }

  // ---------------------------------------------------------------- the size of the table

  /** The size after an addition, which looks at the count of used slots first. */
  function Grown(used: nat, sz: nat): nat {
    if used < sz / 2 then sz else if sz == 0 then 8 else 2 * sz
  }

  /** The size after a sequence of additions, when the count was unset at first. */
  ghost function SizeAfter(unset: nat, log: seq<Pair>): nat {
    if log == [] then 0
    else
      var init := log[..|log| - 1];
      Grown(unset + |Replay(init)|, SizeAfter(unset, init))
  }

  function Pow2(k: nat): (r: nat)
    ensures r > 0
  {
    if k == 0 then 1 else 2 * Pow2(k - 1)
  }

  lemma {:induction false} ReplayGrows(log: seq<Pair>)
    requires log != []
    ensures |Replay(log[..|log| - 1])| <= |Replay(log)| <= |Replay(log[..|log| - 1])| + 1
  {
  }

  /** Main result on the unset count: every one of the additions so far has doubled the table if and
      only if the count before the last one had reached half the size that this takes.  The table
      never gets larger than that. */
  lemma {:induction false} DoublesEachTime(unset: nat, log: seq<Pair>)
    requires log != []
    ensures SizeAfter(unset, log) <= 4 * Pow2(|log|)
    ensures SizeAfter(unset, log) == 4 * Pow2(|log|) <==>
      |log| == 1 || unset + |Replay(log[..|log| - 1])| >= Pow2(|log|)
    decreases |log|
  {
    hide Replay;
    var n, init := |log|, log[..|log| - 1];
    if n == 1 {
      assert init == [];
    } else {
      DoublesEachTime(unset, init);
      ReplayGrows(init);
      LargePower(n - 1);
    }
  }

  lemma {:induction false} LargePower(k: nat)
    ensures Pow2(k) >= 1 && (k >= 1 ==> Pow2(k) >= 2)
  {
    if k >= 1 { assert Pow2(k) == 2 * Pow2(k - 1); }
  }

  // ---------------------------------------------------------------- the class

  class VarHT {
    var p: array<Pair>
    var used: nat
    var sz: nat
    const hash: Val -> nat

    /** The value `used` starts with: the source's constructor leaves the field unset. */
    ghost const junk: nat
    /** Every pair passed to Add so far, in order. */
    ghost var log: seq<Pair>

    ghost predicate Valid()
      reads this, p
    {
      && p.Length == sz
      && (sz == 0 || (sz >= 8 && IsPow2(sz)))
      && Table(p[..], HomeOf(hash, sz), Replay(log))
      && 2 * |Replay(log)| <= sz
      && used == junk + |Replay(log)|
    }

    /** The size is the one that the additions so far lead to. */
    ghost predicate Sized()
      reads this
    {
      sz == SizeAfter(junk, log)
    }

    constructor (hash: Val -> nat, unset: nat)
      ensures Valid() && Sized() && fresh(p)
      ensures sz == 0 && log == [] && this.hash == hash && junk == unset
    {
      this.hash, junk := hash, unset;
      p := new Pair[0];
      used, sz := unset, 0;
      log := [];
    }

    /** Binds a key, doubling the table first when it is half full. */
    method Add(pair: Pair)
      requires Valid()
      modifies this, p
      ensures Valid() && log == old(log) + [pair]
      ensures p == old(p) || fresh(p)
      ensures sz == Grown(old(used), old(sz)) && (old(Sized()) ==> Sized())
    {
      hide Table, HomeOf, IsPow2, Replay, Bind;
      if used >= sz / 2 {
        Resize();
      }
      ghost var m := Replay(log);
      ReplayAppend(log, pair);
      log := log + [pair];
      var added := Put(p, hash, pair, m);
      if added { used := used + 1; }
      assert log[..|log| - 1] == old(log);
    }

    /** The loop of add: stores the pair in its slot, or in the first vacant one. */
    static method Put(p: array<Pair>, hash: Val -> nat, pair: Pair, ghost m: map<Val, Val>) returns (added: bool)
      requires IsPow2(p.Length) && 2 * |m| <= p.Length
      requires Table(p[..], HomeOf(hash, p.Length), m)
      modifies p
      ensures Table(p[..], HomeOf(hash, p.Length), Bind(m, pair))
      ensures added == (!pair.IsEmpty() && pair.x !in m)
    {
      hide Holds, AllReachable, HomeOf, Filled, IsPow2;
      ghost var s, home := p[..], HomeOf(hash, p.Length);
      StartProbe(s, hash, pair.x);
      var k := And(hash(pair.x), p.Length - 1);
      var i := 0;
      while i < p.Length
        invariant 0 <= i <= p.Length && p[..] == s && Probing(s, home, pair.x, i, k)
      {
        if p[k].x == pair.x {
          RebindInPlace(s, home, m, k, pair.y);
          if !pair.IsEmpty() { TableLookup(s, m, k); }
          p[k] := p[k].(y := pair.y);
          assert p[..] == s[k := s[k].(y := pair.y)];
          return false;
        }
        if p[k].IsEmpty() {
          ProbeEndsAtVacancy(s, home, m, pair.x, i, k);
          InsertAtVacancy(s, home, m, pair, k);
          p[k] := pair;
          assert p[..] == s[k := pair];
          return true;
        }
        ProbeGoesOn(s, home, m, pair.x, i, k);
        k := And(k + 1, p.Length - 1);
        i := i + 1;
      }
    }

    /** Looks a key up. */
    method Get(x: Val) returns (found: bool, y: Val)
      requires Valid()
      ensures x != "" ==> found == (x in Replay(log))
      ensures x != "" && found ==> y == Replay(log)[x]
      ensures x == "" ==> found == (sz > 0)
      ensures !found ==> y == ""
    {
      hide Holds, AllReachable, HomeOf;
      if sz != 0 {
        ghost var m, home := Replay(log), HomeOf(hash, sz);
        StartProbe(p[..], hash, x);
        var k := And(hash(x), sz - 1);
        var i := 0;
        while i < sz
          invariant 0 <= i <= sz && Probing(p[..], home, x, i, k)
        {
          if p[k].x == x {
            if x != "" { TableLookup(p[..], m, k); }
            return true, p[k].y;
          }
          if p[k].IsEmpty() {
            ProbeEndsAtVacancy(p[..], home, m, x, i, k);
            break;
          }
          ProbeGoesOn(p[..], home, m, x, i, k);
          k := And(k + 1, sz - 1);
          i := i + 1;
        }
      }
      return false, "";
    }

    /** Doubles the table, or creates its first eight slots. */
    method Resize()
      requires Valid()
      modifies this`p, this`sz
      ensures Valid() && fresh(p)
      ensures sz == if old(sz) == 0 then 8 else 2 * old(sz)
    {
      hide Holds, AllReachable, UpperOk, UpperPhase, Doubling, HomeOf;
      var n := sz;
      var sz2 := if n == 0 then 8 else n * 2;
      ghost var s, m := p[..], Replay(log);
      var a := new Pair[sz2](_ => VACANT);
      forall i | 0 <= i < n { a[i] := p[i]; }
      p := a;
      assert IsPow2(sz2) by { if n != 0 { assert sz2 / 2 == n; } }
      if n != 0 { StartDoubling(s, a[..], HomeOf(hash, sz2), m, n, a[..]); }
      Rehash(a, n, hash, m);
      sz := sz2;
    }

    /** The second loop of the source's resize: every entry is put where a search finds it. */
    static method Rehash(a: array<Pair>, n: nat, hash: Val -> nat, ghost m: map<Val, Val>)
      requires IsPow2(a.Length) && (n == 0 || a.Length == 2 * n)
      requires n == 0 ==> m == map[] && forall q :: 0 <= q < a.Length ==> a[q] == VACANT
      requires n != 0 ==> Doubling(a[..], HomeOf(hash, a.Length), m, n, 0, a[..])
      modifies a
      ensures Table(a[..], HomeOf(hash, a.Length), m)
    {
      hide Holds, AllReachable, UpperOk, UpperPhase, Filled, OnPath, Doubling, Table, HomeOf, IsPow2;
      ghost var home, u := HomeOf(hash, a.Length), a[..];
      var i := 0;
      while i < a.Length
        invariant 0 <= i <= a.Length
        invariant n == 0 ==> i <= 1 && forall q :: 0 <= q < a.Length ==> a[q] == VACANT
        invariant n != 0 ==> Doubling(a[..], home, m, n, i, u)
      {
        ghost var s := a[..];
        if a[i].IsEmpty() {
          if i > n {
            if n != 0 { StopEarly(s, home, m, n, i, u); }
            break;
          }
          if n != 0 { SkipStep(s, home, m, n, i, u); }
        } else {
          var j := Walk(a, i, hash);
          if j == i {
            SkipStep(s, home, m, n, i, u);
          } else {
            MoveStep(s, home, m, n, i, u, j);
            a[j], a[i] := a[i], VACANT;
            assert a[..] == s[j := s[i]][i := VACANT];
          }
        }
        if i <= n { u := a[..]; }
        i := i + 1;
      }
      if n == 0 {
        VacantTable(a[..], home);
      } else if i == a.Length {
        FinishDoubling(a[..], home, m, n, u);
      }
    }

    /** The inner loop: the first vacant slot on the way from the entry's home to slot i, or i. */
    static method Walk(a: array<Pair>, i: nat, hash: Val -> nat) returns (j: nat)
      requires IsPow2(a.Length) && i < a.Length && !a[i].IsEmpty()
      ensures j < a.Length && (j == i || a[j].IsEmpty())
      ensures var h := HomeOf(hash, a.Length)(a[i].x); Filled(a[..], h, j) && !OnPath(h, j, i)
    {
      ghost var h := HomeOf(hash, a.Length)(a[i].x);
      HomeInRange(hash, a[i].x, a.Length);
      j := And(hash(a[i].x), a.Length - 1);
      while j != i && !a[j].IsEmpty()
        invariant j < a.Length && Filled(a[..], h, j) && !OnPath(h, j, i)
        decreases if j <= i then i - j else i + a.Length - j
      {
        ExtendWalk(a[..], h, i, j);
        NextSlot(j, a.Length);
        j := And(j + 1, a.Length - 1);
      }
    }
  }
}
