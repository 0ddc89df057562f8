/** The least-recently-used map of the bundled terminal (console/xterm.js:7749-7852).

    LRUMap keeps its nodes in a doubly linked list ordered by last use and in a table by key;
    a full map reuses the node of the least recently used key. */
module LruMap {

  import opened Common

  /** A 32-bit number, which JavaScript turns into the name of a property. */
  datatype Key = Key(bits: bv32)

  type Value = nat

  datatype Entry = Entry(key: Key, value: Value)

  // ---------------------------------------------------------------- the intended behaviour

  /** Entries from the least to the most recently used one. */
  type Entries = seq<Entry>

  predicate Has(es: Entries, k: Key) {
    exists i :: 0 <= i < |es| && es[i].key == k
  }

  function Position(es: Entries, k: Key): (i: nat)
    requires Has(es, k)
    ensures i < |es| && es[i].key == k
    ensures forall j :: 0 <= j < i ==> es[j].key != k
  {
    if es[0].key == k then 0
    else
      var j :| 0 <= j < |es| && es[j].key == k;
      assert es[1..][j - 1].key == k;
      1 + Position(es[1..], k)
  }

  predicate Distinct(es: Entries) {
    forall i, j :: 0 <= i < j < |es| ==> es[i].key != es[j].key
  }

  function Removed(es: Entries, i: nat): Entries
    requires i < |es|
  {
    es[..i] + es[i + 1..]
  }

  /** A key that is used becomes the most recently used one. */
  function Used(es: Entries, k: Key, v: Value): Entries {
    if Has(es, k) then Removed(es, Position(es, k)) + [Entry(k, v)] else es
  }

  /** Storing a key drops the least recently used entry if the map is full. */
  function Put(es: Entries, k: Key, v: Value, capacity: nat): Entries {
    if Has(es, k) then Used(es, k, v)
    else if |es| >= capacity && |es| > 0 then es[1..] + [Entry(k, v)]
    else es + [Entry(k, v)]
  }

  datatype Op = GetOp(key: Key) | SetOp(key: Key, value: Value)

  /** The entries after one more call. */
  function Apply(es: Entries, op: Op, capacity: nat): Entries {
    match op
    case GetOp(k) => if Has(es, k) then Used(es, k, es[Position(es, k)].value) else es
    case SetOp(k, v) => Put(es, k, v, capacity)
  }

  /** The entries after a sequence of calls. */
  function Replay(ops: seq<Op>, capacity: nat): Entries {
    if ops == [] then [] else Apply(Replay(ops[..|ops| - 1], capacity), ops[|ops| - 1], capacity)
  }

  lemma ReplayMore(ops: seq<Op>, op: Op, capacity: nat)
    ensures Replay(ops + [op], capacity) == Apply(Replay(ops, capacity), op, capacity)
  {
    assert (ops + [op])[..|ops|] == ops;
  }

  lemma UsedMeans(es: Entries, k: Key, v: Value)
    requires Has(es, k)
    ensures Used(es, k, v) == Removed(es, Position(es, k)) + [Entry(k, v)]
  {
  }

  /** When a key was last asked for or stored; -1 if never. */
  function LastUse(ops: seq<Op>, k: Key): int {
    if ops == [] then -1
    else if ops[|ops| - 1].key == k then |ops| - 1
    else LastUse(ops[..|ops| - 1], k)
  }

  lemma {:induction false} LastUseBound(ops: seq<Op>, k: Key)
    ensures -1 <= LastUse(ops, k) < |ops|
  {
    if ops != [] && ops[|ops| - 1].key != k { LastUseBound(ops[..|ops| - 1], k); }
  }

  /** Sorted by last use, and each key at most once. */
  predicate InUseOrder(es: Entries, ops: seq<Op>) {
    && (forall i :: 0 <= i < |es| ==> 0 <= LastUse(ops, es[i].key) < |ops|)
    && (forall i, j :: 0 <= i < j < |es| ==> LastUse(ops, es[i].key) < LastUse(ops, es[j].key))
  }

  /** After any calls the list is in order of last use, so the entry that a full map drops is
      the one that was not used for the longest time. */
  lemma {:induction false} OrderOfLastUse(ops: seq<Op>, capacity: nat)
    requires capacity >= 1
    ensures InUseOrder(Replay(ops, capacity), ops) && |Replay(ops, capacity)| <= capacity
  {
    if ops != [] {
      var init, op := ops[..|ops| - 1], ops[|ops| - 1];
      var es := Replay(init, capacity);
      OrderOfLastUse(init, capacity);
      if Has(es, op.key) {
        var v := if op.GetOp? then es[Position(es, op.key)].value else op.value;
        UsedLast(es, Position(es, op.key), v, ops);
      } else if op.SetOp? {
        PutLast(es, Entry(op.key, op.value), ops);
      } else {
        NotUsed(es, ops);
      }
    }
  }

  lemma NotUsed(es: Entries, ops: seq<Op>)
    requires ops != [] && InUseOrder(es, ops[..|ops| - 1])
    requires forall i :: 0 <= i < |es| ==> es[i].key != ops[|ops| - 1].key
    ensures InUseOrder(es, ops)
  {
  }

  lemma PutLast(es: Entries, e: Entry, ops: seq<Op>)
    requires ops != [] && InUseOrder(es, ops[..|ops| - 1]) && ops[|ops| - 1].key == e.key && !Has(es, e.key)
    ensures InUseOrder(es + [e], ops)
    ensures es != [] ==> InUseOrder(es[1..] + [e], ops)
  {
  }

  lemma UsedLast(es: Entries, p: nat, v: Value, ops: seq<Op>)
    requires ops != [] && InUseOrder(es, ops[..|ops| - 1]) && p < |es| && es[p].key == ops[|ops| - 1].key
    ensures InUseOrder(Removed(es, p) + [Entry(es[p].key, v)], ops)
  {
  }

  // ---------------------------------------------------------------- the linked structure

  class Node {
    var prev: Node?
    var next: Node?
    var key: Key
    var value: Value

    constructor (key: Key, value: Value)
      ensures prev == null && next == null && this.key == key && this.value == value
    {
      prev, next, this.key, this.value := null, null, key, value;
    }
  }

  ghost function ContentOf(ns: seq<Node>): (es: Entries)
    reads ns
    ensures |es| == |ns|
  {
    seq(|ns|, i requires 0 <= i < |ns| reads ns => Entry(ns[i].key, ns[i].value))
  }

  /** The table holds exactly the listed nodes, under the keys of their entries. */
  ghost predicate IndexedBy(ns: seq<Node>, es: Entries, table: map<Key, Node>) {
    && |ns| == |es|
    && (forall i :: 0 <= i < |ns| ==> es[i].key in table && table[es[i].key] == ns[i])
    && (forall k :: k in table ==> exists i :: 0 <= i < |ns| && ns[i] == table[k] && es[i].key == k)
  }

  lemma DropFirst(ns: seq<Node>, es: Entries, table: map<Key, Node>)
    requires ns != [] && IndexedBy(ns, es, table) && forall i, j :: 0 <= i < j < |ns| ==> ns[i] != ns[j]
    ensures IndexedBy(ns[1..], es[1..], table - {es[0].key})
  {
  }

  lemma AddLast(ns: seq<Node>, es: Entries, table: map<Key, Node>, n: Node, e: Entry)
    requires IndexedBy(ns, es, table) && e.key !in table
    ensures IndexedBy(ns + [n], es + [e], table[e.key := n])
  {
    var t := table[e.key := n];
    forall k | k in t ensures exists i :: 0 <= i < |ns + [n]| && (ns + [n])[i] == t[k] && (es + [e])[i].key == k {
      if k == e.key {
        assert (ns + [n])[|ns|] == t[k];
      } else {
        var i :| 0 <= i < |ns| && ns[i] == table[k] && es[i].key == k;
        assert (ns + [n])[i] == t[k];
      }
    }
  }

  lemma MoveLast(ns: seq<Node>, es: Entries, table: map<Key, Node>, p: nat, v: Value)
    requires IndexedBy(ns, es, table) && p < |ns|
    ensures IndexedBy(Rotated(ns, p), Removed(es, p) + [Entry(es[p].key, v)], table)
  {
    var ns', es' := Rotated(ns, p), Removed(es, p) + [Entry(es[p].key, v)];
    assert forall i :: 0 <= i < |ns| ==> ns'[i] == ns[Origin(|ns|, p, i)] && es'[i].key == es[Origin(|ns|, p, i)].key;
    forall k | k in table ensures exists i :: 0 <= i < |ns'| && ns'[i] == table[k] && es'[i].key == k {
      var i :| 0 <= i < |ns| && ns[i] == table[k] && es[i].key == k;
      var j := if i < p then i else if i == p then |ns| - 1 else i - 1;
      assert Origin(|ns|, p, j) == i && ns'[j] == table[k];
    }
  }

  class LRUMap {
    const capacity: nat
    var table: map<Key, Node>
    var head: Node?
    var tail: Node?
    var nodePool: seq<Node>
    var size: nat
    /** The nodes in the list, from head to tail. */
    ghost var order: seq<Node>
    /** The calls of get and set so far. */
    ghost var log: seq<Op>

    ghost predicate Linked()
      reads this`order, this`head, this`tail, order
    {
      && (forall i, j :: 0 <= i < j < |order| ==> order[i] != order[j])
      && (order == [] ==> head == null && tail == null)
      && (order != [] ==> head == order[0] && tail == order[|order| - 1] && head.prev == null && tail.next == null)
      && (forall i {:trigger order[i].prev} :: 1 <= i < |order| ==> order[i].prev == order[i - 1])
      && (forall i {:trigger order[i].next} :: 0 <= i < |order| - 1 ==> order[i].next == order[i + 1])
    }

    ghost predicate Pooled()
      reads this`order, this`nodePool
    {
      && (forall i, j :: 0 <= i < j < |nodePool| ==> nodePool[i] != nodePool[j])
      && (forall n :: n in nodePool ==> n !in order)
    }

    ghost predicate Indexed()
      reads this`order, this`table, order
    {
      IndexedBy(order, Content(), table)
    }

    ghost predicate Sound()
      reads this`order, this`head, this`tail, this`nodePool, this`table, this`size, order
    {
      Linked() && Pooled() && Indexed() && size == |order| <= capacity && capacity >= 1
    }

    ghost predicate Valid()
      reads this, order
    {
      Sound() && Content() == Replay(log, capacity)
    }

    ghost function Nodes(): set<Node>
      reads this`order, this`nodePool
    {
      (set n | n in order) + (set n | n in nodePool)
    }

    ghost function Content(): Entries
      reads this`order, order
    {
      ContentOf(order)
    }

    constructor (capacity: nat)
      requires capacity >= 1
      ensures Valid() && Content() == [] && log == [] && this.capacity == capacity && Nodes() == {}
    {
      this.capacity := capacity;
      table, head, tail, nodePool, size := map[], null, null, [], 0;
      order, log := [], [];
    }

    /** Fills the pool. */
    method Prealloc(count: nat)
      requires Valid()
      modifies this`nodePool
      ensures Valid() && Content() == old(Content()) && fresh(Nodes() - old(Nodes()))
    {
      hide IndexedBy, Linked, Replay;
      var i := 0;
      while i < count
        invariant i <= count && Valid() && Content() == old(Content()) && fresh(Nodes() - old(Nodes()))
      {
        var node := new Node(Key(0), 0);
        nodePool := nodePool + [node];
        i := i + 1;
      }
    }

    /** Takes a node out of the list; its own links are left as they are. */
    method UnlinkNode(node: Node, ghost i: nat)
      requires Linked() && i < |order| && order[i] == node
      modifies this`head, this`tail, this`order, (set n | n in order)
      ensures Linked() && order == old(order)[..i] + old(order)[i + 1..]
      ensures forall n :: n in old(order) ==> n.key == old(n.key) && n.value == old(n.value)
    {
      var prev, next := node.prev, node.next;
      assert prev == if i == 0 then null else order[i - 1];
      assert next == if i == |order| - 1 then null else order[i + 1];
      if node == head {
        head := next;
      }
      if node == tail {
        tail := prev;
      }
      if prev != null {
        prev.next := next;
      }
      if next != null {
        next.prev := prev;
      }
      order := order[..i] + order[i + 1..];
    }

    /** The same, as seen in the content. */
    method UnlinkAt(node: Node, ghost i: nat)
      requires Linked() && i < |order| && order[i] == node
      modifies this`head, this`tail, this`order, (set n | n in order)
      ensures Linked() && node !in order && order == old(order)[..i] + old(order)[i + 1..]
      ensures Content() == Removed(old(Content()), i)
      ensures node.key == old(node.key) && node.value == old(node.value)
    {
      OrderDistinct();
      hide Linked;
      UnlinkNode(node, i);
    }

    /** Puts a node at the end of the list. */
    method AppendNode(node: Node)
      requires Linked() && node !in order
      modifies this`head, this`tail, this`order, node, (set n | n in order)
      ensures Linked() && order == old(order) + [node]
      ensures node.key == old(node.key) && node.value == old(node.value)
      ensures forall n :: n in old(order) ==> n.key == old(n.key) && n.value == old(n.value)
    {
      var t := tail;
      if t != null {
        t.next := node;
      }
      node.prev := t;
      node.next := null;
      tail := node;
      if head == null {
        head := node;
      }
      order := order + [node];
    }

    /** The same, as seen in the content. */
    method AppendAt(node: Node)
      requires Linked() && node !in order
      modifies this`head, this`tail, this`order, node, (set n | n in order)
      ensures Linked() && order == old(order) + [node] && node.key == old(node.key) && node.value == old(node.value)
      ensures Content() == old(Content()) + [Entry(node.key, node.value)]
    {
      hide Linked;
      AppendNode(node);
      assert forall i :: 0 <= i < |old(order)| ==> order[i] in old(order);
    }

    /** Unlinks a node and appends it, as get and set do for a key that is present. */
    method MoveToEnd(node: Node, ghost i: nat, value: Value)
      requires Linked() && i < |order| && order[i] == node
      modifies this`head, this`tail, this`order, (set n | n in order)
      ensures Linked() && order == Rotated(old(order), i) && node.key == old(node.key) && node.value == value
      ensures Content() == Removed(old(Content()), i) + [Entry(node.key, value)]
    {
      hide Linked;
      UnlinkAt(node, i);
      node.value := value;
      AppendAt(node);
      assert order == Rotated(old(order), i);
    }

    /** The value of a key, which becomes the most recently used one. */
    method Get(key: Key) returns (v: Option<Value>)
      requires Valid()
      modifies this`head, this`tail, this`order, this`log, (set n | n in order)
      ensures Valid() && size == old(size) && Nodes() == old(Nodes()) && log == old(log) + [GetOp(key)]
      ensures v == if Has(old(Content()), key) then Some(old(Content())[Position(old(Content()), key)].value) else None
      ensures Content() == if v.Some? then Used(old(Content()), key, v.value) else old(Content())
    {
      hide Has, Position, Linked, Pooled, Indexed, Replay, Used;
      ContentKeys(key);
      ReplayMore(log, GetOp(key), capacity);
      log := log + [GetOp(key)];
      v := None;
      if key in table {
        v := Some(table[key].value);
        NodeValue(key);
        UseNode(key, table[key].value);
      }
    }

    /** The value of a key, without using it. */
    method PeekValue(key: Key) returns (v: Option<Value>)
      requires Valid()
      ensures v == if Has(Content(), key) then Some(Content()[Position(Content(), key)].value) else None
    {
      ContentKeys(key);
      if key in table {
        assert order[Position(Content(), key)] == table[key];
        return Some(table[key].value);
      }
      return None;
    }

    /** The value of the least recently used key. */
    method Peek() returns (v: Option<Value>)
      requires Valid()
      ensures v == if Content() == [] then None else Some(Content()[0].value)
    {
      if head == null {
        return None;
      }
      return Some(head.value);
    }

    /** The list is in order of last use. */
    lemma ListedByLastUse()
      requires Valid()
      ensures InUseOrder(Content(), log) && |Content()| <= capacity
    {
      OrderOfLastUse(log, capacity);
    }

    lemma ContentKeys(key: Key)
      requires Sound()
      ensures Distinct(Content())
      ensures Has(Content(), key) <==> key in table
      ensures key in table ==> order[Position(Content(), key)] == table[key]
    {
    }

    /** Stores a value; a full map takes the node of its least recently used key. */
    method Set(key: Key, value: Value)
      requires Valid()
      modifies this, (set n | n in order), (set n | n in nodePool)
      ensures Valid() && Content() == Put(old(Content()), key, value, capacity)
      ensures fresh(Nodes() - old(Nodes())) && log == old(log) + [SetOp(key, value)]
    {
      hide Has, Position, Linked, Pooled, Indexed, Replay;
      ContentKeys(key);
      ReplayMore(log, SetOp(key, value), capacity);
      log := log + [SetOp(key, value)];
      if key in table {
        UseNode(key, value);
      } else if size >= capacity {
        SetEvicting(key, value);
      } else {
        SetNew(key, value);
      }
    }

    lemma NodeValue(key: Key)
      requires Sound() && key in table && Has(Content(), key)
      ensures Content()[Position(Content(), key)].value == table[key].value
    {
      ContentKeys(key);
    }

    /** The node of a key that is present goes to the end of the list. */
    method UseNode(key: Key, value: Value)
      requires Sound() && key in table
      modifies this`head, this`tail, this`order, (set n | n in order)
      ensures Sound() && Nodes() == old(Nodes())
      ensures Has(old(Content()), key) && Content() == Used(old(Content()), key, value)
    {
      hide Position, Linked, IndexedBy;
      ContentKeys(key);
      UsedMeans(Content(), key, value);
      hide Has, Used;
      var node := table[key];
      ghost var i := Position(Content(), key);
      RotatedNodes(order, i);
      MoveLast(order, Content(), table, i, value);
      MoveToEnd(node, i, value);
    }

    method SetEvicting(key: Key, value: Value)
      requires Sound() && key !in table && size >= capacity
      modifies this`head, this`tail, this`order, this`table, (set n | n in order)
      ensures Sound() && Nodes() == old(Nodes())
      ensures |old(Content())| > 0 && Content() == old(Content())[1..] + [Entry(key, value)]
    {
      hide IndexedBy, Linked;
      RotatedNodes(order, 0);
      assert order != [];
      var node := Evict();
      node.key := key;
      node.value := value;
      StoreNode(node, key);
      assert order == Rotated(old(order), 0);
    }

    /** Takes the least recently used node out of the list and of the table. */
    method Evict() returns (node: Node)
      requires Sound() && order != []
      modifies this`head, this`tail, this`order, this`table, (set n | n in order)
      ensures Linked() && Pooled() && Indexed()
      ensures node == old(order)[0] && node !in order && node !in nodePool && order == old(order)[1..]
      ensures table == old(table) - {node.key}
      ensures Content() == old(Content())[1..]
    {
      hide IndexedBy, Linked;
      OrderDistinct();
      DropFirst(order, Content(), table);
      assert Content()[0].key == order[0].key;
      node := head;
      assert node in order;
      UnlinkAt(node, 0);
      assert order == old(order)[1..];
      assert Content() == old(Content())[1..];
      table := table - {node.key};
    }

    lemma OrderDistinct()
      requires Linked()
      ensures forall i, j :: 0 <= i < j < |order| ==> order[i] != order[j]
      ensures order != [] ==> head == order[0]
    {
    }

    method SetNew(key: Key, value: Value)
      requires Sound() && key !in table && size < capacity
      modifies this`head, this`tail, this`order, this`table, this`nodePool, this`size, (set n | n in order), (set n | n in nodePool)
      ensures Sound() && fresh(Nodes() - old(Nodes()))
      ensures Content() == old(Content()) + [Entry(key, value)]
    {
      hide IndexedBy, Linked;
      var node := TakeNode(key, value);
      size := size + 1;
      StoreNode(node, key);
    }

    /** A node from the pool, or a new one. */
    method TakeNode(key: Key, value: Value) returns (node: Node)
      requires Linked() && Pooled() && Indexed()
      modifies this`nodePool, (set n | n in nodePool)
      ensures Linked() && Pooled() && Indexed() && Content() == old(Content())
      ensures node !in order && node !in nodePool && node.key == key && node.value == value
      ensures fresh(node) || node in old(nodePool)
      ensures forall n :: n in nodePool ==> n in old(nodePool)
    {
      hide IndexedBy, Linked;
      if |nodePool| > 0 {
        node := nodePool[|nodePool| - 1];
        nodePool := nodePool[..|nodePool| - 1];
        node.key := key;
        node.value := value;
      } else {
        node := new Node(key, value);
      }
    }

    /** Enters a node that is not in the list under its key. */
    method StoreNode(node: Node, key: Key)
      requires Linked() && Pooled() && Indexed() && node !in order && node !in nodePool
      requires node.key == key && key !in table
      modifies this`head, this`tail, this`order, this`table, node, (set n | n in order)
      ensures Linked() && Pooled() && Indexed() && order == old(order) + [node]
      ensures Content() == old(Content()) + [Entry(key, old(node.value))]
    {
      hide IndexedBy, Linked;
      AddLast(order, Content(), table, node, Entry(key, node.value));
      AppendAt(node);
      table := table[key := node];
    }
  }

  function Rotated(ns: seq<Node>, i: nat): seq<Node>
    requires i < |ns|
  {
    ns[..i] + ns[i + 1..] + [ns[i]]
  }

  lemma RotatedNodes(ns: seq<Node>, i: nat)
    requires i < |ns|
    ensures |Rotated(ns, i)| == |ns| && forall n :: n in Rotated(ns, i) <==> n in ns
  {
  }

  /** Where entry i of the list was before entry p moved to the end. */
  function Origin(n: nat, p: nat, i: nat): (o: nat)
    requires p < n && i < n
    ensures o < n
  {
    if i < p then i else if i < n - 1 then i + 1 else p
  }
}
