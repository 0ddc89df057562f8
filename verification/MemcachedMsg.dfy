/** Decoding one memcached text command from the front of a buffer (src/memcached_exec.cpp:303-489
    and 594-730). Commands of the binary protocol are only told apart. */
module MemcachedMsg {

  import opened Common
  import opened Bytes

  const LF: byte := 10
  const CR: byte := 13
  const SPACE: byte := 32
  const BINARY: byte := 0x80

  const EOL: bytes := [CR, LF]

  datatype Cmd =
    | Set | Add | Append | Replace | Prepend | Cas | Get | Gets | Gat | Gats | Delete | Touch | Decr | Incr
    | Slabs | Lru | LruCrawler | Watch | Stats | FlushAll | CacheMemlimit | Version | Quit | NoOp

  /** Parsing a number is not part of the repository: it may succeed or fail in any way. */
  datatype Number = Num(value: nat) | Overflow | Malformed

  type Reader = bytes -> Number

  /** A command; a field that it does not set is 0. */
  datatype Msg = Msg(cmd: Cmd, args: seq<bytes>, keycnt: nat, first: nat, quiet: bool,
                     flags: nat, ttl: nat, msglen: nat, cas: nat, inc: nat, block: bytes)

  datatype Error = Empty | BadCmd | BadArgs | IntOverflow | BadInt

  datatype Parsed = Ok(msg: Msg) | Err(error: Error)

  /** What unpacking yields: a command and its length, the wish for more bytes, or an error. */
  datatype Unpacked = Done(msg: Msg, n: nat) | Partial | Failed(error: Error) | IsBinary

  // ---------------------------------------------------------------- words

  function DropSpaces(s: bytes): (r: bytes)
    ensures |r| <= |s| && (r != [] ==> r[0] != SPACE)
  {
    if s != [] && s[0] == SPACE then DropSpaces(s[1..]) else s
  }

  /** The length of the word at the front. */
  function WordEnd(s: bytes): (w: nat)
    ensures w <= |s| && (w < |s| ==> s[w] == SPACE) && forall i :: 0 <= i < w ==> s[i] != SPACE
  {
    if s == [] || s[0] == SPACE then 0 else 1 + WordEnd(s[1..])
  }

  function Words(s: bytes): seq<bytes>
    decreases |s|
  {
    var t := DropSpaces(s);
    if t == [] then [] else [t[..WordEnd(t)]] + Words(t[WordEnd(t)..])
  }

  lemma WordEndIs(s: bytes, w: nat)
    requires w <= |s| && (w < |s| ==> s[w] == SPACE) && forall i :: 0 <= i < w ==> s[i] != SPACE
    ensures WordEnd(s) == w
  {
  }

  lemma {:induction false} DropSpacesIs(s: bytes, k: nat)
    requires k <= |s| && (k < |s| ==> s[k] != SPACE) && forall i :: 0 <= i < k ==> s[i] == SPACE
    ensures DropSpaces(s) == s[k..]
  {
    if k > 0 {
      assert forall i :: 0 <= i < k - 1 ==> s[1..][i] == s[i + 1];
      DropSpacesIs(s[1..], k - 1);
      assert s[1..][k - 1..] == s[k..];
    }
  }

  /** parse_mcargs: cuts a line into words. */
  method ParseMcargs(s: bytes) returns (args: seq<bytes>)
    ensures args == Words(s)
  {
    hide Words;
    args := [];
    var p := SkipSpaces(s, 0);
    WordsFrom(s, 0, p);
    assert s[0..] == s;
    while p < |s|
      invariant p <= |s| && (p < |s| ==> s[p] != SPACE)
      invariant args + Words(s[p..]) == Words(s)
      decreases |s| - p
    {
      var start := p;
      p := p + 1;
      while p < |s| && s[p] != SPACE
        invariant start < p <= |s| && forall i :: start <= i < p ==> s[i] != SPACE
      {
        p := p + 1;
      }
      args := args + [s[start..p]];
      var next := SkipSpaces(s, p);
      FirstWord(s, start, p, next);
      p := next;
    }
    WordsFrom(s, p, p);
  }

  method SkipSpaces(s: bytes, p: nat) returns (q: nat)
    requires p <= |s|
    ensures p <= q <= |s| && (q < |s| ==> s[q] != SPACE) && forall i :: p <= i < q ==> s[i] == SPACE
  {
    q := p;
    while q < |s| && s[q] == SPACE
      invariant p <= q <= |s| && forall i :: p <= i < q ==> s[i] == SPACE
    {
      q := q + 1;
    }
  }

  lemma WordsFrom(s: bytes, p: nat, q: nat)
    requires p <= q <= |s| && (q < |s| ==> s[q] != SPACE) && forall i :: p <= i < q ==> s[i] == SPACE
    ensures Words(s[p..]) == Words(s[q..])
    ensures q == |s| ==> Words(s[q..]) == []
  {
    DropSpacesIs(s[p..], q - p);
    DropSpacesIs(s[q..], 0);
    assert s[p..][q - p..] == s[q..] == s[q..][0..];
  }

  lemma FirstWord(s: bytes, start: nat, p: nat, q: nat)
    requires start < p <= q <= |s| && (forall i :: start <= i < p ==> s[i] != SPACE) && (p < |s| ==> s[p] == SPACE)
    requires (q < |s| ==> s[q] != SPACE) && forall i :: p <= i < q ==> s[i] == SPACE
    ensures Words(s[start..]) == [s[start..p]] + Words(s[q..])
  {
    DropSpacesIs(s[start..], 0);
    WordEndIs(s[start..], p - start);
    WordsFrom(s, p, q);
    assert s[start..][0..] == s[start..] && s[start..][..p - start] == s[start..p] && s[start..][p - start..] == s[p..];
  }

  // ---------------------------------------------------------------- keywords and arguments

  /** Clears the bit that tells lower case from upper case. */
  function Mask(b: int): int { if (b / 32) % 2 == 1 then b - 32 else b }

  predicate IsKeyword(s: bytes, w: string)
    requires |w| == 4
  {
    |s| >= 4 && forall i :: 0 <= i < 4 ==> Mask(s[i] as int) == Mask(w[i] as int)
  }

  /** Only the first four characters are looked at. What follows a shorter text in the buffer
      is the line's end, which no keyword contains. */
  function Keyword(s: bytes): (k: Option<Cmd>)
    ensures k.Some? ==> |s| >= 4
  {
    if IsKeyword(s, "SET ") then Some(Set) else if IsKeyword(s, "ADD ") then Some(Add)
    else if IsKeyword(s, "APPE") then Some(Append) else if IsKeyword(s, "REPL") then Some(Replace)
    else if IsKeyword(s, "PREP") then Some(Prepend) else if IsKeyword(s, "CAS ") then Some(Cas)
    else if IsKeyword(s, "GET ") then Some(Get) else if IsKeyword(s, "GETS") then Some(Gets)
    else if IsKeyword(s, "GAT ") then Some(Gat) else if IsKeyword(s, "GATS") then Some(Gats)
    else if IsKeyword(s, "DELE") then Some(Delete) else if IsKeyword(s, "DECR") then Some(Decr)
    else if IsKeyword(s, "INCR") then Some(Incr) else if IsKeyword(s, "TOUC") then Some(Touch)
    else if IsKeyword(s, "SLAB") then Some(Slabs) else if IsKeyword(s, "LRU ") then Some(Lru)
    else if IsKeyword(s, "LRU_") then Some(LruCrawler) else if IsKeyword(s, "WATC") then Some(Watch)
    else if IsKeyword(s, "STAT") then Some(Stats) else if IsKeyword(s, "FLUS") then Some(FlushAll)
    else if IsKeyword(s, "CACH") then Some(CacheMemlimit) else if IsKeyword(s, "VERS") then Some(Version)
    else if IsKeyword(s, "QUIT") then Some(Quit) else if IsKeyword(s, "NO_O") then Some(NoOp)
    else None
  }

  /** Commands that are followed by a block of data. */
  predicate Stores(c: Cmd) {
    c.Set? || c.Add? || c.Append? || c.Replace? || c.Prepend? || c.Cas?
  }

  function GetU64(num: Reader, s: bytes): Number {
    match num(s)
    case Num(v) => if v < 0x1_0000_0000_0000_0000 then Num(v) else Overflow
    case e => e
  }

  function GetU32(num: Reader, s: bytes): Number {
    match GetU64(num, s)
    case Num(v) => if v > 0xffff_ffff then Overflow else Num(v)
    case e => e
  }

  function Code(n: Number): Error
    requires !n.Num?
  {
    if n.Overflow? then IntOverflow else BadInt
  }

  /** parse_store and parse_cas. */
  function ParseStore(num: Reader, cmd: Cmd, args: seq<bytes>): Parsed {
    var cnt := if cmd.Cas? then 5 else 4;
    if |args| != cnt && |args| != cnt + 1 then Err(BadArgs)
    else
      var flags, ttl, len := GetU32(num, args[1]), GetU64(num, args[2]), GetU64(num, args[3]);
      var cas := if cmd.Cas? then GetU64(num, args[4]) else Num(0);
      if !flags.Num? then Err(Code(flags))
      else if !ttl.Num? then Err(Code(ttl))
      else if !len.Num? then Err(Code(len))
      else if !cas.Num? then Err(Code(cas))
      else Ok(Msg(cmd, args, 1, 0, |args| == cnt + 1, flags.value, ttl.value, len.value, cas.value, 0, []))
  }

  /** parse_incr and parse_touch: a key, a number and perhaps the wish for no reply. */
  function ParseNumber(num: Reader, cmd: Cmd, args: seq<bytes>): Parsed {
    if |args| != 2 && |args| != 3 then Err(BadArgs)
    else
      var v := GetU64(num, args[1]);
      if !v.Num? then Err(Code(v))
      else if cmd.Touch? then Ok(Msg(cmd, args, 1, 0, |args| == 3, 0, v.value, 0, 0, 0, []))
      else Ok(Msg(cmd, args, 1, 0, |args| == 3, 0, 0, 0, 0, v.value, []))
  }

  function ParseArgs(num: Reader, cmd: Cmd, args: seq<bytes>): (p: Parsed)
    ensures p.Ok? ==> p.msg.cmd == cmd && p.msg.args == args && p.msg.block == []
  {
    match cmd
    case Set | Add | Append | Replace | Prepend | Cas => ParseStore(num, cmd, args)
    case Get | Gets =>
      if args == [] then Err(BadArgs) else Ok(Msg(cmd, args, |args|, 0, false, 0, 0, 0, 0, 0, []))
    case Gat | Gats =>
      if |args| <= 1 then Err(BadArgs)
      else
        var ttl := GetU64(num, args[0]);
        if !ttl.Num? then Err(Code(ttl)) else Ok(Msg(cmd, args, |args| - 1, 1, false, 0, ttl.value, 0, 0, 0, []))
    case Delete =>
      if |args| != 1 && |args| != 2 then Err(BadArgs)
      else Ok(Msg(cmd, args, 1, 0, |args| == 2, 0, 0, 0, 0, 0, []))
    case Touch | Decr | Incr => ParseNumber(num, cmd, args)
    case _ => Ok(Msg(cmd, args, 0, 0, false, 0, 0, 0, 0, 0, []))
  }

  /** The text of a line without the spaces before it. */
  function ParseLine(num: Reader, text: bytes): (p: Parsed)
    ensures p.Ok? ==> |text| >= 4 && Keyword(text) == Some(p.msg.cmd) && p.msg.args == Words(text[WordEnd(text)..])
    ensures p.Ok? ==> p.msg.block == []
  {
    if WordEnd(text) == |text| < 4 then Err(Empty)
    else
      match Keyword(text)
      case None => Err(BadCmd)
      case Some(cmd) => ParseArgs(num, cmd, Words(text[WordEnd(text)..]))
  }

  // ---------------------------------------------------------------- one command

  /** The index of the first line feed, or the length. */
  function Eol(s: bytes): (e: nat)
    ensures e <= |s| && (e < |s| ==> s[e] == LF) && forall i :: 0 <= i < e ==> s[i] != LF
  {
    if s == [] || s[0] == LF then 0 else 1 + Eol(s[1..])
  }

  lemma EolIs(s: bytes, e: nat)
    requires e <= |s| && (e < |s| ==> s[e] == LF) && forall i :: 0 <= i < e ==> s[i] != LF
    ensures Eol(s) == e
  {
  }

  function TrimCr(s: bytes): (r: bytes)
    ensures |r| <= |s|
  {
    if s != [] && s[|s| - 1] == CR then s[..|s| - 1] else s
  }

  /** Below a space, as a signed character. */
  predicate Control(b: byte) { b < SPACE || b >= 128 }

  /** How many bytes after a block are taken for its line end. */
  function Eaten(r: bytes): (n: nat)
    ensures n <= |r| && n <= 2
  {
    if r != [] && Control(r[0]) then if |r| > 1 && Control(r[1]) then 2 else 1 else 0
  }

  /** The command of a line, with the bytes after the line, which begin at n. */
  function WithBlock(num: Reader, text: bytes, rest: bytes, n: nat): Unpacked {
    match ParseLine(num, text)
    case Err(e) => Failed(e)
    case Ok(msg) =>
      if !Stores(msg.cmd) then Done(msg, n)
      else if |rest| < msg.msglen then Partial
      else Done(msg.(block := rest[..msg.msglen]), n + msg.msglen + Eaten(rest[msg.msglen..]))
  }

  function Later(u: Unpacked, n: nat): Unpacked {
    if u.Done? then u.(n := u.n + n) else u
  }

  /** The first command of a buffer; empty lines before it are skipped. */
  function Unpack(num: Reader, buf: bytes): (u: Unpacked)
    ensures u.Done? ==> 0 < u.n <= |buf|
    decreases |buf|
  {
    if buf == [] then Partial
    else if buf[0] == BINARY then IsBinary
    else
      var e := Eol(buf);
      if e == |buf| then Partial
      else
        var text := DropSpaces(TrimCr(buf[..e]));
        if text == [] then Later(Unpack(num, buf[e + 1..]), e + 1)
        else WithBlock(num, text, buf[e + 1..], e + 1)
  }

  /** MemcachedMsg::unpack on the text protocol. */
  method UnpackText(num: Reader, buf: bytes) returns (u: Unpacked)
    ensures u == Unpack(num, buf)
  {
    hide Unpack, WithBlock, DropSpaces, TrimCr, Eol, Later;
    var j := 0;
    UnpackStart(num, buf);
    while true
      invariant j <= |buf| && (j > 0 ==> buf[j - 1] == LF)
      invariant Unpack(num, buf) == Later(Unpack(num, buf[j..]), j)
      decreases |buf| - j
    {
      UnpackStops(num, buf, j);
      if j == |buf| { return Partial; }
      if buf[j] == BINARY { return IsBinary; }
      var eol := FindEol(buf, j);
      if eol == |buf| { return Partial; }
      var i := if eol > 0 && buf[eol - 1] == CR then eol - 1 else eol;
      var k := j;
      while k != i && buf[k] == SPACE
        invariant j <= k <= i && forall x :: j <= x < k ==> buf[x] == SPACE
      {
        k := k + 1;
      }
      LineAt(buf, j, eol, i, k);
      UnpackAtLine(num, buf, j, eol, buf[k..i]);
      if k != i {
        u := UnpackLine(num, buf, k, i, eol + 1);
        return;
      }
      j := eol + 1;
    }
  }

  lemma UnpackUnfolds(num: Reader, s: bytes)
    ensures s == [] ==> Unpack(num, s) == Partial
    ensures s != [] && s[0] == BINARY ==> Unpack(num, s) == IsBinary
    ensures s != [] && s[0] != BINARY && Eol(s) == |s| ==> Unpack(num, s) == Partial
    ensures s != [] && s[0] != BINARY && Eol(s) < |s| ==>
      var e := Eol(s);
      var text := DropSpaces(TrimCr(s[..e]));
      && (text == [] ==> Unpack(num, s) == Later(Unpack(num, s[e + 1..]), e + 1))
      && (text != [] ==> Unpack(num, s) == WithBlock(num, text, s[e + 1..], e + 1))
  {
    hide Eol, DropSpaces, TrimCr, WithBlock, Later;
  }

  lemma UnpackStart(num: Reader, buf: bytes)
    ensures Unpack(num, buf) == Later(Unpack(num, buf[0..]), 0)
  {
    hide Unpack;
    assert buf[0..] == buf;
  }

  /** Where the walk over the buffer ends at j. */
  lemma UnpackStops(num: Reader, buf: bytes, j: nat)
    requires j <= |buf|
    ensures j == |buf| ==> Later(Unpack(num, buf[j..]), j) == Partial
    ensures j < |buf| && buf[j] == BINARY ==> Later(Unpack(num, buf[j..]), j) == IsBinary
    ensures j < |buf| && buf[j] != BINARY && j + Eol(buf[j..]) == |buf| ==> Later(Unpack(num, buf[j..]), j) == Partial
  {
    hide Unpack, Eol;
    UnpackUnfolds(num, buf[j..]);
  }

  /** And what a line at j yields. */
  lemma UnpackAtLine(num: Reader, buf: bytes, j: nat, e: nat, text: bytes)
    requires j < |buf| && buf[j] != BINARY && e < |buf| && e == j + Eol(buf[j..])
    requires text == DropSpaces(TrimCr(buf[j..][..e - j]))
    ensures Later(Unpack(num, buf[j..]), j) ==
      if text == [] then Later(Unpack(num, buf[e + 1..]), e + 1) else WithBlock(num, text, buf[e + 1..], e + 1)
  {
    hide Unpack, Eol, DropSpaces, TrimCr, WithBlock;
    UnpackUnfolds(num, buf[j..]);
    assert buf[j..][e - j + 1..] == buf[e + 1..];
    if text != [] { WithBlockLater(num, text, buf[e + 1..], e - j + 1, j); }
  }

  lemma WithBlockLater(num: Reader, text: bytes, rest: bytes, n: nat, j: nat)
    ensures WithBlock(num, text, rest, n + j) == Later(WithBlock(num, text, rest, n), j)
  {
  }

  method FindEol(buf: bytes, j: nat) returns (e: nat)
    requires j <= |buf|
    ensures j <= e <= |buf| && e == j + Eol(buf[j..])
  {
    e := j;
    while e < |buf| && buf[e] != LF
      invariant j <= e <= |buf| && forall x :: j <= x < e ==> buf[x] != LF
    {
      e := e + 1;
    }
    EolIs(buf[j..], e - j);
  }

  lemma LineAt(buf: bytes, j: nat, eol: nat, i: nat, k: nat)
    requires j <= k <= i <= eol < |buf| && buf[eol] == LF
    requires i == if eol > j && buf[eol - 1] == CR then eol - 1 else eol
    requires (k < i ==> buf[k] != SPACE) && forall x :: j <= x < k ==> buf[x] == SPACE
    ensures DropSpaces(TrimCr(buf[j..][..eol - j])) == buf[k..i]
  {
    hide DropSpaces;
    TrimmedLine(buf, j, eol, i);
    DropSpacesIs(buf[j..i], k - j);
    assert buf[j..i][k - j..] == buf[k..i];
  }

  lemma TrimmedLine(buf: bytes, j: nat, eol: nat, i: nat)
    requires j <= i <= eol < |buf| && i == if eol > j && buf[eol - 1] == CR then eol - 1 else eol
    ensures TrimCr(buf[j..][..eol - j]) == buf[j..i]
  {
    assert buf[j..][..eol - j] == buf[j..eol];
  }

  /** The part of unpack after the label not_an_empty_line. */
  method UnpackLine(num: Reader, buf: bytes, k: nat, i: nat, j: nat) returns (u: Unpacked)
    requires k < i < j <= |buf| && buf[k] != SPACE
    ensures u == WithBlock(num, buf[k..i], buf[j..], j)
  {
    hide Keyword, ParseArgs, Words;
    var text := buf[k..i];
    var p := 0;
    while p < |text| && text[p] != SPACE
      invariant p <= |text| && forall x :: 0 <= x < p ==> text[x] != SPACE
    {
      p := p + 1;
    }
    WordEndIs(text, p);
    if p == |text| && p < 4 { return Failed(Empty); }
    var kw := Keyword(text);
    var args := ParseMcargs(text[p..]);
    if kw.None? { return Failed(BadCmd); }
    var r := ParseArgs(num, kw.value, args);
    if r.Err? { return Failed(r.error); }
    if !Stores(kw.value) { return Done(r.msg, j); }
    var left, n := |buf| - j, r.msg.msglen;
    if left < n { return Partial; }
    var block := buf[j..j + n];
    left := left - n;
    if left > 0 && Control(buf[j + r.msg.msglen]) {
      n := n + 1;
      if left > 1 && Control(buf[j + r.msg.msglen + 1]) { n := n + 1; }
    }
    u := Done(r.msg.(block := block), j + n);
  }
}
