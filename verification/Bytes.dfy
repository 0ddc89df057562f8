/** Bytes, texts, and the big-endian 16-bit fields of packet headers. */
module Bytes {

  newtype byte = x: int | 0 <= x < 256

  type bytes = seq<byte>

  /** The bytes of a text. */
  function Ascii(w: string): (s: bytes)
    requires forall i :: 0 <= i < |w| ==> w[i] < 128 as char
    ensures |s| == |w|
  {
    seq(|w|, i requires 0 <= i < |w| => w[i] as int as byte)
  }

  /** A 16-bit value in network order. */
  function PutU16(v: nat): (b: bytes)
    ensures |b| == 2
  {
    [((v / 256) % 256) as byte, (v % 256) as byte]
  }

  function GetU16(b: bytes): nat
    requires |b| == 2
  {
    b[0] as nat * 256 + b[1] as nat
  }

  function Flatten<T>(ss: seq<seq<T>>): seq<T> {
    if ss == [] then [] else ss[0] + Flatten(ss[1..])
  }

  lemma {:induction false} FlattenAppend<T>(a: seq<seq<T>>, b: seq<seq<T>>)
    ensures Flatten(a + b) == Flatten(a) + Flatten(b)
    decreases |a|
  {
    hide Flatten;
    if a == [] {
      FlattenNone<T>();
      assert a + b == b;
    } else {
      var x, rest := a[0], a[1..];
      FlattenAppend(rest, b);
      FlattenCons(x, rest + b);
      FlattenCons(x, rest);
      assert a == [x] + rest;
      assert a + b == [x] + (rest + b);
    }
  }

  lemma FlattenNone<T>()
    ensures Flatten<T>([]) == []
  {
  }

  lemma FlattenOne<T>(s: seq<T>)
    ensures Flatten([s]) == s
  {
  }

  lemma FlattenCons<T>(x: seq<T>, ss: seq<seq<T>>)
    ensures Flatten([x] + ss) == x + Flatten(ss)
  {
  }
}
