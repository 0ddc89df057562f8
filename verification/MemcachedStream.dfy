/** Decoding a stream of memcached text commands from buffers that are cut anywhere
    (src/ev_memcached.cpp:147-193 with src/memcached_exec.cpp:337-489). */
module MemcachedStream {

  import opened Common
  import opened Bytes
  import opened MemcachedMsg

  /** A command as a client writes it: its line, and the data if it stores some. */
  datatype Command = Command(line: bytes, block: bytes)

  /** What the line says, without the data. */
  function Header(num: Reader, c: Command): Parsed {
    ParseLine(num, DropSpaces(c.line))
  }

  /** A line that parses, and exactly as much data as it announces. */
  predicate WellFormed(num: Reader, c: Command) {
    && c.line != [] && c.line[0] != BINARY && (forall i :: 0 <= i < |c.line| ==> c.line[i] != LF)
    && Header(num, c).Ok?
    && if Stores(Header(num, c).msg.cmd) then |c.block| == Header(num, c).msg.msglen else c.block == []
  }

  /** The bytes of a command; the data has a line end of its own. */
  function Encoded(num: Reader, c: Command): (s: bytes)
    ensures s != []
  {
    c.line + EOL + Body(num, c)
  }

  function Body(num: Reader, c: Command): bytes {
    if Header(num, c).Ok? && Stores(Header(num, c).msg.cmd) then c.block + EOL else []
  }

  function Stream(num: Reader, cs: seq<Command>): bytes {
    if cs == [] then [] else Encoded(num, cs[0]) + Stream(num, cs[1..])
  }

  predicate AllWellFormed(num: Reader, cs: seq<Command>) {
    forall i :: 0 <= i < |cs| ==> WellFormed(num, cs[i])
  }

  /** The message says what the line says, and has the data. */
  predicate Decodes(num: Reader, m: Msg, c: Command) {
    Header(num, c).Ok? && m == Header(num, c).msg.(block := c.block)
  }

  predicate AllDecode(num: Reader, ms: seq<Msg>, cs: seq<Command>) {
    |ms| == |cs| && forall i :: 0 <= i < |cs| ==> Decodes(num, ms[i], cs[i])
  }

  /** What may be left of the line end after a block that was taken before the line end came. */
  predicate IsLead(l: bytes) {
    l == [] || l == [LF] || l == EOL
  }

  /** The bytes that are there begin what is still to come: some commands, after a line end, and
      then anything. */
  ghost predicate Begins(num: Reader, buf: bytes, future: bytes, l: bytes, cs: seq<Command>, tail: bytes) {
    AllWellFormed(num, cs) && IsLead(l) && buf + future == l + (Stream(num, cs) + tail)
  }

  // ---------------------------------------------------------------- one command

  lemma NoLineYet(num: Reader, buf: bytes)
    requires (forall i :: 0 <= i < |buf| ==> buf[i] != LF) && (buf != [] ==> buf[0] != BINARY)
    ensures Unpack(num, buf) == Partial
  {
  }

  /** A line that is not empty, in text. */
  predicate IsLine(line: bytes) {
    line != [] && line[0] != BINARY && (forall i :: 0 <= i < |line| ==> line[i] != LF) && DropSpaces(line) != []
  }

  /** The line is there. */
  lemma LineThere(num: Reader, line: bytes, rest: bytes)
    requires IsLine(line)
    ensures Unpack(num, line + EOL + rest) == WithBlock(num, DropSpaces(line), rest, |line| + 2)
  {
    var buf, e := line + EOL + rest, |line| + 1;
    assert buf[e] == LF && forall i :: 0 <= i < e ==> buf[i] != LF;
    EolIs(buf, e);
    assert buf[..e] == line + [CR];
    assert TrimCr(line + [CR]) == line;
    assert buf[e + 1..] == rest;
    UnpackUnfolds(num, buf);
  }

  /** An empty line is skipped. */
  lemma LeadThere(num: Reader, l: bytes, rest: bytes)
    requires IsLead(l) && l != []
    ensures Unpack(num, l + rest) == Later(Unpack(num, rest), |l|)
  {
    var buf, e := l + rest, |l| - 1;
    assert buf[e] == LF && forall i :: 0 <= i < e ==> buf[i] != LF;
    EolIs(buf, e);
    assert buf[..e] == l[..e];
    assert DropSpaces(TrimCr(l[..e])) == [];
    assert buf[e + 1..] == rest;
    UnpackUnfolds(num, buf);
  }

  /** What unpacking one buffer yields: the next command, or nothing because it is not complete. */
  ghost predicate Steps(num: Reader, buf: bytes, future: bytes, cs: seq<Command>, tail: bytes) {
    var u := Unpack(num, buf);
    cs != [] ==>
      if u.Done? then Decodes(num, u.msg, cs[0]) && exists l :: Begins(num, buf[u.n..], future, l, cs[1..], tail)
      else u == Partial && future != []
  }

  lemma PrefixPart(a: bytes, b: bytes, buf: bytes, future: bytes)
    requires buf + future == a + b
    ensures |buf| >= |a| ==> buf == a + buf[|a|..] && buf[|a|..] + future == b
    ensures |buf| < |a| ==> buf == a[..|buf|]
  {
    assert forall i :: 0 <= i < |buf| ==> buf[i] == (a + b)[i];
    if |buf| >= |a| {
      assert (buf + future)[|a|..] == buf[|a|..] + future;
      assert (a + b)[|a|..] == b;
    }
  }

  /** As much of a line end as is there is taken with the block. */
  lemma LineEndThere(r: bytes, future: bytes, tail: bytes) returns (l: bytes)
    requires r + future == EOL + tail
    ensures IsLead(l) && r[Eaten(r)..] + future == l + tail
  {
    PrefixPart(EOL, tail, r, future);
    l := if |r| == 0 then EOL else if |r| == 1 then [LF] else [];
    if |r| == 1 {
      assert (r + future)[1..] == future && (EOL + tail)[1..] == [LF] + tail;
    } else if |r| >= 2 {
      assert r[0] == EOL[0] && r[1] == EOL[1];
    }
  }

  lemma HasWord(num: Reader, c: Command)
    requires WellFormed(num, c)
    ensures IsLine(c.line)
  {
  }

  /** Unpacking once the line is there. */
  lemma AfterLine(num: Reader, c: Command, rest: bytes)
    requires WellFormed(num, c)
    ensures Header(num, c).Ok?
    ensures var u, n, m := Unpack(num, c.line + EOL + rest), |c.block|, |c.line| + 2;
            if !Stores(Header(num, c).msg.cmd) then u.Done? && Decodes(num, u.msg, c) && u.n == m
            else if |rest| < n then u == Partial
            else u == Done(Header(num, c).msg.(block := rest[..n]), m + n + Eaten(rest[n..]))
  {
    hide ParseLine, DropSpaces, Unpack, Eaten;
    assert IsLine(c.line) by { HasWord(num, c); }
    LineThere(num, c.line, rest);
    assert ParseLine(num, DropSpaces(c.line)) == Header(num, c);
  }

  /** The data of a command that stores: complete or not, and with how much of its line end. */
  lemma BlockThere(c: Command, rest: bytes, future: bytes, tail: bytes) returns (l: bytes)
    requires rest + future == c.block + EOL + tail && |rest| >= |c.block|
    ensures IsLead(l) && rest[..|c.block|] == c.block
    ensures rest[|c.block| + Eaten(rest[|c.block|..])..] + future == l + tail
  {
    var n := |c.block|;
    assert c.block + EOL + tail == c.block + (EOL + tail);
    PrefixPart(c.block, EOL + tail, rest, future);
    var r := rest[n..];
    l := LineEndThere(r, future, tail);
    assert rest[n + Eaten(r)..] == r[Eaten(r)..];
  }

  lemma NoCommandYet(num: Reader, line: bytes, buf: bytes)
    requires IsLine(line) && |buf| < |line| + 2 && buf == (line + EOL)[..|buf|]
    ensures Unpack(num, buf) == Partial
  {
    hide DropSpaces, Unpack;
    forall i | 0 <= i < |buf| ensures buf[i] != LF {
      assert i < |line| ==> buf[i] == line[i];
      assert i == |line| ==> buf[i] == EOL[0];
    }
    NoLineYet(num, buf);
  }

  /** One command at the front: it is taken with as much of its line end as is there, or is not
      complete. */
  lemma CommandThere(num: Reader, c: Command, buf: bytes, future: bytes, tail: bytes) returns (l: bytes)
    requires WellFormed(num, c) && buf + future == Encoded(num, c) + tail
    ensures IsTaken(num, c, Unpack(num, buf), buf, future, l, tail)
  {
    hide WellFormed, Header, Unpack, Eaten, Stores, IsTaken;
    var m, body := |c.line| + 2, Body(num, c);
    assert Encoded(num, c) + tail == (c.line + EOL) + (body + tail);
    PrefixPart(c.line + EOL, body + tail, buf, future);
    l := [];
    if |buf| < m {
      HasWord(num, c);
      NoCommandYet(num, c.line, buf);
      NotTaken(num, c, buf, future, tail);
    } else {
      AfterLine(num, c, buf[m..]);
      l := RestThere(num, c, buf, buf[m..], future, tail);
    }
  }

  ghost predicate IsTaken(num: Reader, c: Command, u: Unpacked, buf: bytes, future: bytes, l: bytes, tail: bytes) {
    if u.Done? then Decodes(num, u.msg, c) && u.n <= |buf| && IsLead(l) && buf[u.n..] + future == l + tail
    else u == Partial && future != []
  }

  lemma NotTaken(num: Reader, c: Command, buf: bytes, future: bytes, tail: bytes)
    requires WellFormed(num, c) && buf + future == Encoded(num, c) + tail && |buf| < |c.line| + 2
    ensures IsTaken(num, c, Partial, buf, future, [], tail)
  {
    assert |buf + future| >= |c.line| + 2;
  }

  lemma RestThere(num: Reader, c: Command, buf: bytes, rest: bytes, future: bytes, tail: bytes) returns (l: bytes)
    requires WellFormed(num, c) && Header(num, c).Ok? && |buf| >= |c.line| + 2 && rest == buf[|c.line| + 2..]
    requires rest + future == Body(num, c) + tail
    requires var u, n, m := Unpack(num, buf), |c.block|, |c.line| + 2;
             if !Stores(Header(num, c).msg.cmd) then u.Done? && Decodes(num, u.msg, c) && u.n == m
             else if |rest| < n then u == Partial
             else u == Done(Header(num, c).msg.(block := rest[..n]), m + n + Eaten(rest[n..]))
    ensures IsTaken(num, c, Unpack(num, buf), buf, future, l, tail)
  {
    hide WellFormed, Header, Unpack, Eaten, Stores, EOL;
    l := [];
    var m, n := |c.line| + 2, |c.block|;
    if !Stores(Header(num, c).msg.cmd) {
      assert rest + future == l + tail;
    } else if |rest| >= n {
      l := BlockThere(c, rest, future, tail);
      assert buf[m + (n + Eaten(rest[n..]))..] == rest[n + Eaten(rest[n..])..];
    } else {
      assert |rest + future| >= n;
    }
  }

  lemma CommandStep(num: Reader, buf: bytes, future: bytes, cs: seq<Command>, tail: bytes)
    requires AllWellFormed(num, cs) && cs != [] && buf + future == Stream(num, cs) + tail
    ensures Steps(num, buf, future, cs, tail)
  {
    hide WellFormed, Unpack, Encoded, AllWellFormed, Stream, Header, IsLead;
    StreamCons(num, cs, tail);
    FirstWellFormed(num, cs);
    var l := CommandThere(num, cs[0], buf, future, Stream(num, cs[1..]) + tail);
    var u := Unpack(num, buf);
    assert u.Done? ==> Begins(num, buf[u.n..], future, l, cs[1..], tail);
  }

  lemma StreamCons(num: Reader, cs: seq<Command>, tail: bytes)
    requires cs != []
    ensures Stream(num, cs) + tail == Encoded(num, cs[0]) + (Stream(num, cs[1..]) + tail)
  {
    hide Encoded;
  }

  lemma FirstWellFormed(num: Reader, cs: seq<Command>)
    requires AllWellFormed(num, cs) && cs != []
    ensures WellFormed(num, cs[0]) && AllWellFormed(num, cs[1..])
  {
    hide WellFormed;
  }

  /** One round of the loop, whatever the buffer holds of the stream. */
  lemma StreamStep(num: Reader, buf: bytes, future: bytes, l: bytes, cs: seq<Command>, tail: bytes)
    requires Begins(num, buf, future, l, cs, tail) && cs != []
    ensures Steps(num, buf, future, cs, tail)
  {
    hide Unpack, Stream, AllWellFormed;
    PrefixPart(l, Stream(num, cs) + tail, buf, future);
    if |buf| < |l| {
      NoLineYet(num, buf);
      assert future != [] by { assert |buf + future| >= |l|; }
    } else {
      var rest := buf[|l|..];
      CommandStep(num, rest, future, cs, tail);
      if l != [] {
        LeadThere(num, l, rest);
        var u, v := Unpack(num, buf), Unpack(num, rest);
        if v.Done? { assert buf[u.n..] == rest[v.n..]; }
      }
    }
  }

  // ---------------------------------------------------------------- the loop over one buffer

  /** What process_loop takes from a buffer, what it leaves, and whether it closes the connection. */
  datatype Fed = Fed(ms: seq<Msg>, rest: bytes, quit: bool)

  function Before(ms: seq<Msg>, f: Fed): Fed {
    f.(ms := ms + f.ms)
  }

  /** All complete commands, up to one that closes the connection; after an error, nothing is left.
      Binary commands are not part of this model: they stay. */
  function Drain(num: Reader, buf: bytes): Fed
    decreases |buf|
  {
    match Unpack(num, buf)
    case Done(msg, n) =>
      if msg.cmd.Quit? then Fed([msg], buf[n..], true) else Before([msg], Drain(num, buf[n..]))
    case Failed(_) => Fed([], [], false)
    case _ => Fed([], buf, false)
  }

  /** One round of the loop, after which ms have been decoded from was. */
  lemma DrainStep(num: Reader, was: bytes, ms: seq<Msg>, buf: bytes)
    requires Drain(num, was) == Before(ms, Drain(num, buf))
    ensures var u := Unpack(num, buf);
            Drain(num, was) ==
              if u.Done? && u.msg.cmd.Quit? then Fed(ms + [u.msg], buf[u.n..], true)
              else if u.Done? then Before(ms + [u.msg], Drain(num, buf[u.n..]))
              else Fed(ms, if u.Failed? then [] else buf, false)
  {
  }

  predicate IsQuit(num: Reader, c: Command) {
    Header(num, c).Ok? && Header(num, c).msg.cmd.Quit?
  }

  predicate NoQuit(num: Reader, cs: seq<Command>) {
    forall i :: 0 <= i < |cs| ==> !IsQuit(num, cs[i])
  }

  lemma SplitCommands(num: Reader, cs: seq<Command>, k: nat)
    requires k <= |cs|
    ensures AllWellFormed(num, cs) ==> AllWellFormed(num, cs[k..])
    ensures NoQuit(num, cs) ==> NoQuit(num, cs[k..])
  {
  }

  lemma DecodeMore(num: Reader, ms: seq<Msg>, ns: seq<Msg>, cs: seq<Command>, ds: seq<Command>)
    requires AllDecode(num, ms, cs) && AllDecode(num, ns, ds)
    ensures AllDecode(num, ms + ns, cs + ds)
  {
    hide Decodes;
  }

  lemma DecodeFirst(num: Reader, m: Msg, ms: seq<Msg>, c: Command, cs: seq<Command>)
    requires Decodes(num, m, c) && AllDecode(num, ms, cs)
    ensures AllDecode(num, [m] + ms, [c] + cs)
  {
    hide Decodes;
  }

  lemma DecodeNone(num: Reader)
    ensures AllDecode(num, [], [])
  {
  }

  /** One round: a command is taken, or the loop stops. */
  lemma TakeOne(num: Reader, buf: bytes, future: bytes, l: bytes, cs: seq<Command>, tail: bytes)
    returns (taken: bool, n: nat, m: Msg, l': bytes)
    requires Begins(num, buf, future, l, cs, tail) && cs != []
    ensures taken ==>
      && n <= |buf| && Decodes(num, m, cs[0]) && Begins(num, buf[n..], future, l', cs[1..], tail)
      && Drain(num, buf) == if IsQuit(num, cs[0]) then Fed([m], buf[n..], true) else Before([m], Drain(num, buf[n..]))
    ensures !taken ==> Drain(num, buf) == Fed([], buf, false) && future != []
  {
    StreamStep(num, buf, future, l, cs, tail);
    hide WellFormed, Header, Stream, Unpack, IsLead;
    var u := Unpack(num, buf);
    taken := u.Done?;
    if taken {
      n, m := u.n, u.msg;
      l' :| Begins(num, buf[n..], future, l', cs[1..], tail);
    } else {
      n, m, l' := 0, Msg(NoOp, [], 0, 0, false, 0, 0, 0, 0, 0, []), [];
    }
  }

  /** The loop takes commands from the front of the stream: all of them, when it goes on at b with
      what comes after them, or as many as have arrived. */
  lemma {:induction false} DrainsStream(num: Reader, buf: bytes, future: bytes, l: bytes, cs: seq<Command>, tail: bytes)
    returns (ms: seq<Msg>, k: nat, l': bytes, b: bytes)
    requires Begins(num, buf, future, l, cs, tail) && NoQuit(num, cs)
    ensures k <= |cs| && AllDecode(num, ms, cs[..k]) && Begins(num, b, future, l', cs[k..], tail)
    ensures Drain(num, buf) == Before(ms, Drain(num, b))
    ensures k < |cs| ==> Drain(num, b) == Fed([], b, false) && future != []
    decreases |cs|
  {
    hide Begins, NoQuit, Drain, Decodes, AllDecode, IsQuit, Before;
    DecodeNone(num);
    BeforeNone(Drain(num, buf));
    ms, k, l', b := [], 0, l, buf;
    assert cs[..0] == [] && cs[0..] == cs;
    if cs != [] {
      FirstIsNoQuit(num, cs);
      var taken, n, m, l1 := TakeOne(num, buf, future, l, cs, tail);
      if taken {
        ms, k, l', b := DrainsStream(num, buf[n..], future, l1, cs[1..], tail);
        DecodeFirst(num, m, ms, cs[0], cs[1..][..k]);
        FirstAndMore(cs, k);
        BeforeTwice([m], ms, Drain(num, b));
        k, ms := k + 1, [m] + ms;
      }
    }
  }

  lemma FirstIsNoQuit(num: Reader, cs: seq<Command>)
    requires NoQuit(num, cs) && cs != []
    ensures !IsQuit(num, cs[0]) && NoQuit(num, cs[1..])
  {
    hide IsQuit;
  }

  lemma FirstAndMore<T>(cs: seq<T>, k: nat)
    requires k < |cs|
    ensures cs[..k + 1] == [cs[0]] + cs[1..][..k] && cs[k + 1..] == cs[1..][k..]
  {
  }

  lemma BeforeNone(f: Fed)
    ensures Before([], f) == f
  {
    assert [] + f.ms == f.ms;
  }

  lemma BeforeTwice(a: seq<Msg>, b: seq<Msg>, f: Fed)
    ensures Before(a, Before(b, f)) == Before(a + b, f)
  {
    assert a + (b + f.ms) == a + b + f.ms;
  }

  // ---------------------------------------------------------------- streams cut anywhere

  /** What is decoded when the chunks arrive one after the other, until the connection is closed. */
  function Feed(num: Reader, buf: bytes, chunks: seq<bytes>): seq<Msg>
    decreases |chunks|
  {
    if chunks == [] then []
    else
      var f := Drain(num, buf + chunks[0]);
      if f.quit then f.ms else f.ms + Feed(num, f.rest, chunks[1..])
  }

  /** Draining goes on at b: what is decoded before comes first. */
  lemma FeedSplits(num: Reader, buf: bytes, chunks: seq<bytes>, ms: seq<Msg>, b: bytes)
    requires chunks != [] && Drain(num, buf + chunks[0]) == Before(ms, Drain(num, b))
    ensures Feed(num, buf, chunks) == ms + Feed(num, b, [[]] + chunks[1..])
  {
    hide Drain;
    assert b + [] == b;
    assert ([[]] + chunks[1..])[1..] == chunks[1..];
    var f := Drain(num, b);
    assert ms + (f.ms + Feed(num, f.rest, chunks[1..])) == ms + f.ms + Feed(num, f.rest, chunks[1..]);
  }

  /** However the stream is cut, its commands are decoded, and decoding goes on with what comes
      after them. */
  lemma {:induction false} ReachesTail(num: Reader, buf: bytes, chunks: seq<bytes>, l: bytes, cs: seq<Command>, tail: bytes)
    returns (ms: seq<Msg>, b: bytes, rest: seq<bytes>, l': bytes)
    requires Begins(num, buf, Flatten(chunks), l, cs, tail) && NoQuit(num, cs) && chunks != []
    ensures AllDecode(num, ms, cs) && Feed(num, buf, chunks) == ms + Feed(num, b, [[]] + rest)
    ensures IsLead(l') && b + Flatten(rest) == l' + tail
    decreases |chunks|
  {
    hide Begins, Decodes, Stream, Drain, IsLead, NoQuit, AllDecode, Feed, Flatten, Before;
    var future := Flatten(chunks[1..]);
    var k;
    ChunkBegins(num, buf, chunks, l, cs, tail);
    ms, k, l', b := DrainsStream(num, buf + chunks[0], future, l, cs, tail);
    rest := chunks[1..];
    FeedSplits(num, buf, chunks, ms, b);
    if k == |cs| {
      assert cs[..k] == cs && cs[k..] == [];
      BeginsTail(num, b, future, l', tail);
    } else {
      SplitCommands(num, cs, k);
      WaitsOn(num, b, rest);
      FlattenNothing(rest);
      var ms1, b1 := ms, b;
      var ms2;
      ms2, b, rest, l' := ReachesTail(num, b1, chunks[1..], l', cs[k..], tail);
      DecodeMore(num, ms1, ms2, cs[..k], cs[k..]);
      assert cs == cs[..k] + cs[k..];
      AddMore(ms1, ms2, Feed(num, b, [[]] + rest));
      ms := ms1 + ms2;
    }
  }

  lemma ChunkBegins(num: Reader, buf: bytes, chunks: seq<bytes>, l: bytes, cs: seq<Command>, tail: bytes)
    requires Begins(num, buf, Flatten(chunks), l, cs, tail) && chunks != []
    ensures Begins(num, buf + chunks[0], Flatten(chunks[1..]), l, cs, tail)
  {
    hide Stream, AllWellFormed, IsLead;
    assert buf + (chunks[0] + Flatten(chunks[1..])) == buf + chunks[0] + Flatten(chunks[1..]);
  }

  lemma BeginsTail(num: Reader, b: bytes, future: bytes, l: bytes, tail: bytes)
    requires Begins(num, b, future, l, [], tail)
    ensures IsLead(l) && b + future == l + tail
  {
    EmptyStream(num, tail);
  }

  lemma FlattenNothing(rest: seq<bytes>)
    ensures Flatten(rest) != [] ==> rest != []
  {
  }

  lemma EmptyStream(num: Reader, tail: bytes)
    ensures Stream(num, []) + tail == tail
  {
  }

  /** A buffer from which nothing is taken waits for the next chunk. */
  lemma WaitsOn(num: Reader, b: bytes, rest: seq<bytes>)
    requires Drain(num, b) == Fed([], b, false)
    ensures Feed(num, b, [[]] + rest) == Feed(num, b, rest)
  {
    hide Drain;
    assert b + [] == b && ([[]] + rest)[1..] == rest;
    assert [] + Feed(num, b, rest) == Feed(num, b, rest);
  }

  // ---------------------------------------------------------------- what comes after

  /** More bytes do not change the first command of a buffer. */
  lemma {:induction false} FirstCommandStays(num: Reader, b: bytes, x: bytes)
    requires Unpack(num, b).Done?
    ensures Unpack(num, b + x).Done? && Unpack(num, b + x).msg == Unpack(num, b).msg
    decreases |b|
  {
    hide Unpack, Eol, DropSpaces, TrimCr, WithBlock;
    UnpackUnfolds(num, b);
    UnpackUnfolds(num, b + x);
    EolStays(b, x);
    var e := Eol(b);
    var text := DropSpaces(TrimCr(b[..e]));
    if text == [] {
      FirstCommandStays(num, b[e + 1..], x);
    } else {
      WithBlockStays(num, text, b[e + 1..], x, e + 1);
    }
  }

  lemma EolStays(b: bytes, x: bytes)
    requires Eol(b) < |b|
    ensures Eol(b + x) == Eol(b) && (b + x)[0] == b[0]
    ensures (b + x)[..Eol(b)] == b[..Eol(b)] && (b + x)[Eol(b) + 1..] == b[Eol(b) + 1..] + x
  {
    var e := Eol(b);
    assert (b + x)[e] == LF && forall i :: 0 <= i < e ==> (b + x)[i] == b[i];
    hide Eol;
    EolIs(b + x, e);
  }

  lemma WithBlockStays(num: Reader, text: bytes, rest: bytes, x: bytes, n: nat)
    requires WithBlock(num, text, rest, n).Done?
    ensures WithBlock(num, text, rest + x, n).Done?
    ensures WithBlock(num, text, rest + x, n).msg == WithBlock(num, text, rest, n).msg
  {
    hide ParseLine, Eaten;
    assert forall k: nat :: k <= |rest| ==> (rest + x)[..k] == rest[..k];
  }

  /** No command begins anywhere in s. */
  ghost predicate Harmless(num: Reader, s: bytes) {
    forall q: nat :: q <= |s| ==> !Unpack(num, s[q..]).Done?
  }

  lemma NoCommandIn(num: Reader, b: bytes, future: bytes, s: bytes, q: nat)
    requires Harmless(num, s) && q <= |s| && b + future == s[q..]
    ensures !Unpack(num, b).Done?
  {
    hide Unpack;
    if Unpack(num, b).Done? {
      FirstCommandStays(num, b, future);
    }
  }

  lemma NothingDrained(num: Reader, b: bytes)
    requires !Unpack(num, b).Done?
    ensures Drain(num, b) == Fed([], if Unpack(num, b).Failed? then [] else b, false)
  {
    hide Unpack;
  }

  lemma {:induction false} HarmlessYieldsNothing(num: Reader, buf: bytes, chunks: seq<bytes>, s: bytes, q: nat)
    requires Harmless(num, s) && q <= |s| && buf + Flatten(chunks) == s[q..]
    ensures Feed(num, buf, chunks) == []
    decreases |chunks|
  {
    hide Harmless, Drain;
    if chunks != [] {
      var keep, q' := NothingFed(num, buf, chunks[0], Flatten(chunks[1..]), s, q);
      HarmlessYieldsNothing(num, keep, chunks[1..], s, q');
    }
  }

  lemma NothingFed(num: Reader, buf: bytes, chunk: bytes, future: bytes, s: bytes, q: nat) returns (keep: bytes, q': nat)
    requires Harmless(num, s) && q <= |s| && buf + (chunk + future) == s[q..]
    ensures Drain(num, buf + chunk) == Fed([], keep, false) && q' <= |s| && keep + future == s[q'..]
  {
    hide Harmless, Unpack, Drain;
    var b := buf + chunk;
    assert b + future == s[q..];
    NoCommandIn(num, b, future, s, q);
    NothingDrained(num, b);
    if Unpack(num, b).Failed? {
      keep, q' := [], q + |b|;
      assert s[q..][|b|..] == s[q'..] && [] + future == future;
    } else {
      keep, q' := b, q;
    }
  }

  lemma LeadIsHarmless(num: Reader, l: bytes)
    requires IsLead(l)
    ensures Harmless(num, l)
  {
    forall q: nat | q <= |l| ensures !Unpack(num, l[q..]).Done? {
      if l[q..] == [] {
        NoLineYet(num, l[q..]);
      } else {
        assert IsLead(l[q..]);
        LeadThere(num, l[q..], []);
        assert l[q..] + [] == l[q..];
        NoLineYet(num, []);
      }
    }
  }

  /** QUIT ends the decoding, whatever is sent after it. */
  lemma {:induction false} QuitEnds(num: Reader, buf: bytes, chunks: seq<bytes>, l: bytes, c: Command, tail: bytes) returns (m: Msg)
    requires Begins(num, buf, Flatten(chunks), l, [c], tail) && IsQuit(num, c) && chunks != []
    ensures Feed(num, buf, chunks) == [m] && Decodes(num, m, c)
    decreases |chunks|
  {
    var b, future := buf + chunks[0], Flatten(chunks[1..]);
    assert buf + (chunks[0] + future) == b + future;
    hide Stream, IsLead, WellFormed, Header, Drain;
    var taken, n, l1;
    taken, n, m, l1 := TakeOne(num, b, future, l, [c], tail);
    if !taken {
      m := QuitEnds(num, b, chunks[1..], l, c, tail);
    }
  }

  // ---------------------------------------------------------------- main results

  /** The commands up to the first QUIT. */
  function UpToQuit(num: Reader, cs: seq<Command>): seq<Command> {
    if cs == [] then [] else if IsQuit(num, cs[0]) then [cs[0]] else [cs[0]] + UpToQuit(num, cs[1..])
  }

  /** Either there is no QUIT, or the commands are those before it, it, and others. */
  lemma {:induction false} SplitAtQuit(num: Reader, cs: seq<Command>) returns (k: nat)
    ensures k <= |cs| && NoQuit(num, cs[..k])
    ensures k == |cs| ==> UpToQuit(num, cs) == cs
    ensures k < |cs| ==> IsQuit(num, cs[k]) && UpToQuit(num, cs) == cs[..k] + [cs[k]]
    decreases |cs|
  {
    hide IsQuit;
    k := 0;
    if cs != [] && !IsQuit(num, cs[0]) {
      k := SplitAtQuit(num, cs[1..]);
      FirstAndMore(cs, k);
      k := k + 1;
    }
  }

  lemma {:induction false} StreamAt(num: Reader, cs: seq<Command>, k: nat)
    requires k < |cs|
    ensures Stream(num, cs) == Stream(num, cs[..k]) + (Encoded(num, cs[k]) + Stream(num, cs[k + 1..]))
    decreases k
  {
    hide Encoded;
    if k > 0 {
      StreamAt(num, cs[1..], k - 1);
      assert cs[..k][1..] == cs[1..][..k - 1] && cs[1..][k - 1 + 1..] == cs[k + 1..];
    }
  }

  /** Main result: however a stream of well-formed commands is cut into reads, the commands that
      are decoded are those of the stream, with their data, up to the first QUIT; what comes after
      a QUIT may be anything. */
  lemma CutsDoNotMatter(num: Reader, cs: seq<Command>, after: bytes, chunks: seq<bytes>)
    requires AllWellFormed(num, cs) && Flatten(chunks) == Stream(num, cs) + after
    requires after == [] || !NoQuit(num, cs)
    ensures AllDecode(num, Feed(num, [], chunks), UpToQuit(num, cs))
  {
    hide AllWellFormed, NoQuit, Stream, Encoded, IsQuit, WellFormed, Feed, AllDecode, Decodes, UpToQuit;
    var k := SplitAtQuit(num, cs);
    if k == |cs| {
      assert cs[..k] == cs;
      assert Stream(num, cs) + [] == Stream(num, cs);
      NoQuitStream(num, cs, chunks);
    } else {
      PartsWellFormed(num, cs, k);
      var more := Stream(num, cs[k + 1..]) + after;
      StreamAt(num, cs, k);
      JoinTwice(Stream(num, cs[..k]), Encoded(num, cs[k]), Stream(num, cs[k + 1..]), after);
      QuitStream(num, cs[..k], cs[k], more, chunks);
    }
  }

  lemma JoinTwice(a: bytes, b: bytes, c: bytes, d: bytes)
    ensures a + (b + c) + d == a + (b + (c + d))
  {
  }

  lemma PartsWellFormed(num: Reader, cs: seq<Command>, k: nat)
    requires AllWellFormed(num, cs) && k < |cs|
    ensures AllWellFormed(num, cs[..k]) && WellFormed(num, cs[k])
  {
    hide WellFormed;
  }

  lemma StreamNotEmpty(num: Reader, cs: seq<Command>)
    ensures cs != [] ==> Stream(num, cs) != []
  {
  }

  lemma NoQuitStream(num: Reader, cs: seq<Command>, chunks: seq<bytes>)
    requires AllWellFormed(num, cs) && NoQuit(num, cs) && Flatten(chunks) == Stream(num, cs)
    ensures AllDecode(num, Feed(num, [], chunks), cs)
  {
    assert IsLead([]);
    hide AllWellFormed, NoQuit, AllDecode, Stream, IsLead, Decodes, Feed, Harmless;
    if chunks == [] {
      StreamNotEmpty(num, cs);
      DecodeNone(num);
      FeedNothing(num);
    } else {
      assert [] + Flatten(chunks) == [] + (Stream(num, cs) + []);
      var ms, b, rest, l := ReachesTail(num, [], chunks, [], cs, []);
      LeadIsHarmless(num, l);
      FlattenCons([], rest);
      assert [] + Flatten(rest) == Flatten(rest) && l + [] == l[0..];
      HarmlessYieldsNothing(num, b, [[]] + rest, l, 0);
      assert ms + [] == ms;
    }
  }

  lemma FeedNothing(num: Reader)
    ensures Feed(num, [], []) == []
  {
  }

  lemma QuitStream(num: Reader, cs: seq<Command>, c: Command, after: bytes, chunks: seq<bytes>)
    requires AllWellFormed(num, cs) && NoQuit(num, cs) && WellFormed(num, c) && IsQuit(num, c)
    requires Flatten(chunks) == Stream(num, cs) + (Encoded(num, c) + after)
    ensures AllDecode(num, Feed(num, [], chunks), cs + [c])
  {
    assert IsLead([]);
    assert chunks != [] by { assert Encoded(num, c) != []; }
    hide AllWellFormed, NoQuit, Stream, Encoded, IsLead, IsQuit, WellFormed, Feed, AllDecode, Decodes, Flatten;
    var tail := Encoded(num, c) + after;
    assert [] + Flatten(chunks) == [] + (Stream(num, cs) + tail);
    var ms, b, rest, l := ReachesTail(num, [], chunks, [], cs, tail);
    OneCommand(num, c, after);
    FlattenCons([], rest);
    assert [] + Flatten(rest) == Flatten(rest);
    var m := QuitEnds(num, b, [[]] + rest, l, c, after);
    DecodeNone(num);
    DecodeFirst(num, m, [], c, []);
    DecodeMore(num, ms, [m] + [], cs, [c] + []);
    assert [m] + [] == [m] && [c] + [] == [c];
  }

  lemma OneCommand(num: Reader, c: Command, after: bytes)
    requires WellFormed(num, c)
    ensures AllWellFormed(num, [c]) && Stream(num, [c]) + after == Encoded(num, c) + after
  {
    hide WellFormed, Encoded;
    assert Encoded(num, c) + [] == Encoded(num, c);
  }

  /** The connection's buffer; what was decoded has been handed to the command's execution. */
  class EvMemcached {
    const num: Reader
    var recv: bytes
    var off: nat
    var decoded: seq<Msg>

    constructor (num: Reader)
      ensures this.num == num && recv == [] && off == 0 && decoded == []
    {
      this.num, recv, off, decoded := num, [], 0, [];
    }

    /** Takes the complete commands of the buffer; true when the connection is to be closed. */
    method ProcessLoop() returns (shutdown: bool)
      requires off <= |recv|
      modifies this`off, this`decoded
      ensures off <= |recv|
      ensures var f := Drain(num, old(recv[off..]));
              decoded == old(decoded) + f.ms && recv[off..] == f.rest && shutdown == f.quit
    {
      hide Drain, Unpack;
      ghost var was, ms := recv[off..], [];
      assert Before([], Drain(num, was)) == Drain(num, was);
      while true
        invariant off <= |recv| && decoded == old(decoded) + ms
        invariant Drain(num, was) == Before(ms, Drain(num, recv[off..]))
        decreases |recv| - off
      {
        var buf := recv[off..];
        DrainStep(num, was, ms, buf);
        var u := UnpackText(num, buf);
        match u {
          case Partial => return false;
          case IsBinary => return false;
          case Failed(_) =>
            off := |recv|;
            return false;
          case Done(msg, n) =>
            assert buf[n..] == recv[off + n..];
            off := off + n;
            decoded, ms := decoded + [msg], ms + [msg];
            if msg.cmd.Quit? { return true; }
        }
      }
    }

    /** A read, and the loop over what is there. */
    method Receive(chunk: bytes) returns (shutdown: bool)
      requires off <= |recv|
      modifies this
      ensures off <= |recv|
      ensures var f := Drain(num, old(recv[off..]) + chunk);
              decoded == old(decoded) + f.ms && recv[off..] == f.rest && shutdown == f.quit
    {
      hide Drain;
      ghost var before := recv[off..];
      recv, off := recv[off..] + chunk, 0;
      assert recv[off..] == before + chunk;
      shutdown := ProcessLoop();
    }

    /** Reads as they arrive, until the connection is closed. */
    method Serve(chunks: seq<bytes>, ghost cs: seq<Command>, ghost after: bytes)
      requires recv == [] && off == 0 && decoded == []
      requires AllWellFormed(num, cs) && Flatten(chunks) == Stream(num, cs) + after
      requires after == [] || !NoQuit(num, cs)
      modifies this
      ensures AllDecode(num, decoded, UpToQuit(num, cs))
    {
      hide AllDecode, Stream, Drain, AllWellFormed, NoQuit, Flatten, Feed, UpToQuit;
      CutsDoNotMatter(num, cs, after, chunks);
      var i := 0;
      assert chunks[0..] == chunks;
      while i < |chunks|
        invariant i <= |chunks| && off <= |recv|
        invariant decoded + Feed(num, recv[off..], chunks[i..]) == Feed(num, [], chunks)
      {
        ghost var ms := decoded;
        FeedStep(num, recv[off..], chunks, i);
        ghost var f := Drain(num, recv[off..] + chunks[i]);
        var shutdown := Receive(chunks[i]);
        if shutdown { return; }
        i := i + 1;
        AddMore(ms, f.ms, Feed(num, f.rest, chunks[i..]));
      }
      FeedStep(num, recv[off..], chunks, i);
      assert decoded + [] == decoded;
    }
  }

  lemma AddMore(a: seq<Msg>, b: seq<Msg>, c: seq<Msg>)
    ensures a + (b + c) == a + b + c
  {
  }

  lemma FeedStep(num: Reader, buf: bytes, chunks: seq<bytes>, i: nat)
    requires i <= |chunks|
    ensures i == |chunks| ==> Feed(num, buf, chunks[i..]) == []
    ensures i < |chunks| ==>
      var f := Drain(num, buf + chunks[i]);
      Feed(num, buf, chunks[i..]) == if f.quit then f.ms else f.ms + Feed(num, f.rest, chunks[i + 1..])
  {
  }
}
