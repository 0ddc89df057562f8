/** What a command line that does not parse does to the stream (src/ev_memcached.cpp:156-169): the
    rest of what has arrived is dropped, and decoding resumes wherever the next read begins. */
module MemcachedErrors {

  import opened Common
  import opened Bytes
  import opened MemcachedMsg
  import opened MemcachedStream

  /** A line that is refused. */
  predicate IsBad(num: Reader, line: bytes) {
    IsLine(line) && ParseLine(num, DropSpaces(line)).Err?
  }

  lemma BadThere(num: Reader, l: bytes, bad: bytes, y: bytes)
    requires IsLead(l) && IsBad(num, bad)
    ensures Unpack(num, l + (bad + EOL + y)).Failed?
  {
    LineThere(num, bad, y);
    if l == [] {
      assert l + (bad + EOL + y) == bad + EOL + y;
    } else {
      LeadThere(num, l, bad + EOL + y);
    }
  }

  lemma BehindLead(l: bytes, t: bytes, n: nat)
    requires |l| <= n <= |l| + |t|
    ensures (l + t)[..n] == l + t[..n - |l|] && (l + t)[..n][|l|..] == t[..n - |l|]
  {
  }

  lemma BadNotYet(num: Reader, l: bytes, bad: bytes, b: bytes)
    requires IsLead(l) && IsLine(bad) && |b| < |l| + |bad| + 2 && b == (l + (bad + EOL))[..|b|]
    ensures Unpack(num, b) == Partial
  {
    hide Unpack, IsLine;
    if |b| < |l| {
      assert forall i :: 0 <= i < |b| ==> b[i] == l[i];
      NoLineYet(num, b);
    } else {
      var b' := b[|l|..];
      BehindLead(l, bad + EOL, |b|);
      NoCommandYet(num, bad, b');
      if l != [] {
        LeadThere(num, l, b');
      } else {
        assert b == b';
      }
    }
  }

  /** When everything is there in one read, the commands before the line are decoded and the rest
      is dropped. */
  lemma OneRead(num: Reader, cs: seq<Command>, bad: bytes, y: bytes) returns (ms: seq<Msg>)
    requires AllWellFormed(num, cs) && NoQuit(num, cs) && IsBad(num, bad)
    ensures Drain(num, Stream(num, cs) + (bad + EOL + y)) == Fed(ms, [], false) && AllDecode(num, ms, cs)
  {
    assert IsLead([]);
    hide AllWellFormed, NoQuit, IsBad, Stream, IsLead, AllDecode, Drain, Unpack;
    var tail := bad + EOL + y;
    var buf := Stream(num, cs) + tail;
    assert buf + [] == [] + buf;
    var k, l, b;
    ms, k, l, b := DrainsStream(num, buf, [], [], cs, tail);
    assert cs[..k] == cs && cs[k..] == [];
    BeginsTail(num, b, [], l, tail);
    assert b + [] == b;
    BadThere(num, l, bad, y);
    NothingDrained(num, b);
    assert ms + [] == ms;
  }

  /** However the line arrives, once it is complete decoding resumes at some place after it. */
  lemma {:induction false} BadDrops(num: Reader, buf: bytes, chunks: seq<bytes>, l: bytes, bad: bytes, s: bytes)
    returns (rest: seq<bytes>, q: nat)
    requires IsLead(l) && IsBad(num, bad) && chunks != [] && buf + Flatten(chunks) == l + (bad + EOL + s)
    ensures q <= |s| && Flatten(rest) == s[q..] && Feed(num, buf, chunks) == Feed(num, [], rest)
    decreases |chunks|
  {
    hide IsLead, Unpack, Drain, IsBad, Flatten, EOL;
    var b, future := buf + chunks[0], Flatten(chunks[1..]);
    FirstChunkOf(chunks);
    assert b + future == l + (bad + EOL + s);
    if |b| < |l| + |bad| + 2 {
      LineWaits(num, b, future, l, bad, s);
      FlattenNothing(chunks[1..]);
      rest, q := BadDrops(num, b, chunks[1..], l, bad, s);
      assert [] + Feed(num, b, chunks[1..]) == Feed(num, b, chunks[1..]);
    } else {
      q := LineFails(num, b, future, l, bad, s);
      rest := chunks[1..];
      assert [] + Feed(num, [], rest) == Feed(num, [], rest);
    }
  }

  lemma FirstChunkOf(chunks: seq<bytes>)
    requires chunks != []
    ensures Flatten(chunks) == chunks[0] + Flatten(chunks[1..])
  {
  }

  lemma BadIsLine(num: Reader, bad: bytes)
    requires IsBad(num, bad)
    ensures IsLine(bad)
  {
    hide IsLine, ParseLine;
  }

  lemma LineWaits(num: Reader, b: bytes, future: bytes, l: bytes, bad: bytes, s: bytes)
    requires IsLead(l) && IsBad(num, bad) && |b| < |l| + |bad| + 2 && b + future == l + (bad + EOL + s)
    ensures Drain(num, b) == Fed([], b, false) && future != []
  {
    hide IsLead, Unpack, IsBad, IsLine, Drain;
    BadIsLine(num, bad);
    var front := l + (bad + EOL);
    assert l + (bad + EOL + s) == front + s;
    PrefixPart(front, s, b, future);
    assert |b + future| >= |front|;
    BadNotYet(num, l, bad, b);
    NothingDrained(num, b);
  }

  lemma LineFails(num: Reader, b: bytes, future: bytes, l: bytes, bad: bytes, s: bytes) returns (q: nat)
    requires IsLead(l) && IsBad(num, bad) && |b| >= |l| + |bad| + 2 && b + future == l + (bad + EOL + s)
    ensures q <= |s| && future == s[q..] && Drain(num, b) == Fed([], [], false)
  {
    hide IsLead, Unpack, IsBad, IsLine, Drain;
    var front := l + (bad + EOL);
    assert l + (bad + EOL + s) == front + s;
    PrefixPart(front, s, b, future);
    var y := b[|front|..];
    assert b == l + (bad + EOL + y);
    BadThere(num, l, bad, y);
    NothingDrained(num, b);
    q := |y|;
    assert (y + future)[q..] == future;
  }

  // ---------------------------------------------------------------- main results

  /** All cuttings of a stream give the same commands. */
  ghost predicate Independent(num: Reader, s: bytes) {
    forall c1, c2 :: Flatten(c1) == s && Flatten(c2) == s ==> Feed(num, [], c1) == Feed(num, [], c2)
  }

  lemma DecodeOnly(num: Reader, ms: seq<Msg>, ns: seq<Msg>, cs: seq<Command>)
    requires AllDecode(num, ms, cs) && AllDecode(num, ns, cs)
    ensures ms == ns
  {
    hide Header;
  }

  /** If no command begins anywhere behind a line that does not parse, exactly the commands before
      it are decoded, however the stream is cut. */
  lemma OnlyCommandsBefore(num: Reader, cs: seq<Command>, bad: bytes, s: bytes, chunks: seq<bytes>)
    requires AllWellFormed(num, cs) && NoQuit(num, cs) && IsBad(num, bad) && Harmless(num, s)
    requires Flatten(chunks) == Stream(num, cs) + (bad + EOL + s)
    ensures AllDecode(num, Feed(num, [], chunks), cs)
  {
    assert IsLead([]);
    hide AllWellFormed, NoQuit, IsBad, Harmless, Stream, IsLead, AllDecode, Feed, Flatten, EOL;
    var tail := bad + EOL + s;
    StreamHasBytes(chunks, Stream(num, cs), bad, s);
    assert [] + Flatten(chunks) == [] + (Stream(num, cs) + tail);
    var ms, b, rest, l := ReachesTail(num, [], chunks, [], cs, tail);
    FlattenCons([], rest);
    assert [] + Flatten(rest) == Flatten(rest);
    var rest2, q := BadDrops(num, b, [[]] + rest, l, bad, s);
    assert [] + Flatten(rest2) == s[q..];
    HarmlessYieldsNothing(num, [], rest2, s, q);
    assert ms + [] == ms;
  }

  lemma StreamHasBytes(chunks: seq<bytes>, a: bytes, bad: bytes, s: bytes)
    requires Flatten(chunks) == a + (bad + EOL + s)
    ensures chunks != []
  {
  }

  /** Main result: with a line that does not parse in it, a stream is decoded the same way however
      it is cut if and only if no command begins anywhere behind that line, be it in the middle of
      another line or of a block of data. */
  lemma IndependentIff(num: Reader, cs: seq<Command>, bad: bytes, s: bytes)
    requires AllWellFormed(num, cs) && NoQuit(num, cs) && IsBad(num, bad)
    ensures Independent(num, Stream(num, cs) + (bad + EOL + s)) <==> Harmless(num, s)
  {
    hide AllWellFormed, NoQuit, IsBad, AllDecode, Feed, Flatten, Stream, EOL;
    var stream := Stream(num, cs) + (bad + EOL + s);
    if Harmless(num, s) {
      forall c1, c2 | Flatten(c1) == stream && Flatten(c2) == stream ensures Feed(num, [], c1) == Feed(num, [], c2) {
        OnlyCommandsBefore(num, cs, bad, s, c1);
        OnlyCommandsBefore(num, cs, bad, s, c2);
        DecodeOnly(num, Feed(num, [], c1), Feed(num, [], c2), cs);
      }
    } else {
      var q: nat :| q <= |s| && Unpack(num, s[q..]).Done?;
      var c1, c2 := CutsThatDiffer(num, cs, bad, s, q);
      assert Feed(num, [], c1) != Feed(num, [], c2);
    }
  }

  /** In one read nothing behind the line is decoded; with a cut where a command begins, it is. */
  lemma CutsThatDiffer(num: Reader, cs: seq<Command>, bad: bytes, s: bytes, q: nat) returns (c1: seq<bytes>, c2: seq<bytes>)
    requires AllWellFormed(num, cs) && NoQuit(num, cs) && IsBad(num, bad)
    requires q <= |s| && Unpack(num, s[q..]).Done?
    ensures var stream := Stream(num, cs) + (bad + EOL + s); Flatten(c1) == stream && Flatten(c2) == stream
    ensures |Feed(num, [], c1)| == |cs| < |Feed(num, [], c2)|
  {
    hide AllWellFormed, NoQuit, IsBad, Unpack, Stream, EOL, Decodes, Feed, Drain, Flatten;
    var one, two, more := Stream(num, cs) + (bad + EOL + s), Stream(num, cs) + (bad + EOL + s[..q]), s[q..];
    c1, c2 := [one], [two, more];
    var ms := OneRead(num, cs, bad, s);
    var ns := OneRead(num, cs, bad, s[..q]);
    FedOnce(num, one, ms);
    FedTwice(num, two, more, ns);
    JoinCut(Stream(num, cs), bad + EOL, s, q);
  }

  lemma JoinCut(a: bytes, b: bytes, s: bytes, q: nat)
    requires q <= |s|
    ensures a + (b + s[..q]) + s[q..] == a + (b + s)
  {
  }

  lemma FedOnce(num: Reader, one: bytes, ms: seq<Msg>)
    requires Drain(num, one) == Fed(ms, [], false)
    ensures Feed(num, [], [one]) == ms && Flatten([one]) == one
  {
    hide Drain;
    assert [] + one == one && [one][1..] == [];
  }

  lemma FedTwice(num: Reader, two: bytes, more: bytes, ms: seq<Msg>)
    requires Drain(num, two) == Fed(ms, [], false) && Unpack(num, more).Done?
    ensures |Feed(num, [], [two, more])| > |ms| && Flatten([two, more]) == two + more
  {
    assert Drain(num, more).ms != [];
    hide Drain, Unpack;
    assert [] + two == two && [] + more == more && [two, more][1..] == [more];
    assert Flatten([more]) == more;
  }

  /** In particular the cutting matters whenever a well-formed command comes after such a line. */
  lemma CommandsAreHarmful(num: Reader, x: bytes, c: Command, y: bytes)
    requires WellFormed(num, c)
    ensures !Harmless(num, x + (Encoded(num, c) + y))
  {
    hide ParseLine, DropSpaces, Unpack, Eaten, Stores;
    var s, rest := x + (Encoded(num, c) + y), Body(num, c) + y;
    assert s[|x|..] == c.line + EOL + rest;
    AfterLine(num, c, rest);
    hide WellFormed;
    assert Unpack(num, s[|x|..]).Done?;
  }

  /** `get a`, and `set get a`. */
  const GET_A: bytes := [103, 101, 116, 32, 97]
  const SET_GET_A: bytes := [115, 101, 116, 32] + GET_A

  /** But a line that does not parse can be followed by another one and still be cut so that a
      command is decoded: the last part of `set get a`, which has too few arguments, is one. */
  lemma TwoBadLinesExample(num: Reader)
    ensures IsBad(num, SET_GET_A) && !Harmless(num, SET_GET_A + EOL)
  {
    SetIsBad(num);
    GetIsWellFormed(num);
    hide WellFormed, IsBad, Harmless, Header, Body;
    var c := Command(GET_A, []);
    CommandsAreHarmful(num, [115, 101, 116, 32], c, []);
    assert [115, 101, 116, 32] + (Encoded(num, c) + []) == SET_GET_A + EOL;
  }

  lemma GetIsWellFormed(num: Reader)
    ensures WellFormed(num, Command(GET_A, [])) && Body(num, Command(GET_A, [])) == []
  {
    hide ParseLine, DropSpaces, Words, Keyword;
    GetParses(num);
    DropSpacesIs(GET_A, 0);
    assert GET_A[0..] == GET_A;
  }

  lemma GetParses(num: Reader)
    ensures ParseLine(num, GET_A).Ok? && ParseLine(num, GET_A).msg.cmd == Get
  {
    WordEndIs(GET_A, 3);
    GetIsKeyword();
    hide Keyword, Words;
    TwoWords();
  }

  lemma GetIsKeyword()
    ensures Keyword(GET_A) == Some(Get)
  {
    assert IsKeyword(GET_A, "GET ");
    assert Mask(GET_A[0] as int) == 71 && Mask(GET_A[1] as int) == 69;
  }

  /** The words after `get` and after `set`. */
  lemma TwoWords()
    ensures |Words(GET_A[3..])| == 1 && |Words(SET_GET_A[3..])| == 2
  {
    var a, ga := [32, 97], [32, 103, 101, 116, 32, 97];
    assert GET_A[3..] == a && SET_GET_A[3..] == ga;
    DropSpacesIs(a, 1);
    WordEndIs(a[1..], 1);
    DropSpacesIs(ga, 1);
    WordEndIs(ga[1..], 3);
    assert a[1..][1..] == [] && ga[1..][3..] == a;
    DropSpacesIs([], 0);
  }

  lemma SetIsBad(num: Reader)
    ensures IsBad(num, SET_GET_A)
  {
    DropSpacesIs(SET_GET_A, 0);
    assert SET_GET_A[0..] == SET_GET_A;
    SetFails(num);
    hide ParseLine, DropSpaces;
  }

  lemma SetFails(num: Reader)
    ensures ParseLine(num, SET_GET_A).Err?
  {
    WordEndIs(SET_GET_A, 3);
    assert IsKeyword(SET_GET_A, "SET ");
    assert Keyword(SET_GET_A) == Some(Set);
    TwoWords();
    hide Keyword, Words;
  }
}
