/** Writing memcached text commands, and what is decoded from them (src/memcached_exec.cpp:425-489 and
    594-729): every field of the message is the one that the client has written. */
module MemcachedRequests {

  import opened Common
  import opened Bytes
  import opened MemcachedMsg
  import opened MemcachedStream
  import V = MemcachedValues

  type Writer = V.Writer

  /** A command as a client means it. */
  datatype Request =
    | Storing(cmd: Cmd, key: bytes, flags: nat, ttl: nat, data: bytes, cas: nat, noreply: bool)
    | Reading(cmd: Cmd, keys: seq<bytes>)
    | TouchReading(cmd: Cmd, ttl: nat, keys: seq<bytes>)
    | Deleting(key: bytes, noreply: bool)
    | Counting(cmd: Cmd, key: bytes, amount: nat, noreply: bool)
    | Touching(key: bytes, ttl: nat, noreply: bool)
    | Other(cmd: Cmd, words: seq<bytes>)

  function CmdOf(r: Request): Cmd {
    match r
    case Deleting(_, _) => Delete
    case Touching(_, _, _) => Touch
    case _ => r.cmd
  }

  /** The name of a command in the protocol. */
  function Name(c: Cmd): string {
    match c
    case Set => "SET" case Add => "ADD" case Append => "APPEND" case Replace => "REPLACE" case Prepend => "PREPEND"
    case Cas => "CAS" case Get => "GET" case Gets => "GETS" case Gat => "GAT" case Gats => "GATS"
    case Delete => "DELETE" case Touch => "TOUCH" case Decr => "DECR" case Incr => "INCR" case Slabs => "SLABS"
    case Lru => "LRU" case LruCrawler => "LRU_CRAWLER" case Watch => "WATCH" case Stats => "STATS"
    case FlushAll => "FLUSH_ALL" case CacheMemlimit => "CACHE_MEMLIMIT" case Version => "VERSION"
    case Quit => "QUIT" case NoOp => "NO_OP"
  }

  /** The letter w, in upper or lower case. */
  predicate IsLetter(b: byte, w: char) {
    b as int == w as int || ('A' <= w <= 'Z' && b as int == w as int + 32)
  }

  predicate IsNamed(name: bytes, c: Cmd) {
    |name| == |Name(c)| && forall i :: 0 <= i < |name| ==> IsLetter(name[i], Name(c)[i])
  }

  // ---------------------------------------------------------------- keywords

  /** The first four characters, which is all that is looked at. */
  function Letters(c: Cmd): (s: string)
    ensures |s| == 4
  {
    (Name(c) + " ")[..4]
  }

  predicate Begins4(s: bytes, w: string)
    requires |w| == 4
  {
    && |s| >= 4 && Mask(s[0] as int) == Mask(w[0] as int) && Mask(s[1] as int) == Mask(w[1] as int)
    && Mask(s[2] as int) == Mask(w[2] as int) && Mask(s[3] as int) == Mask(w[3] as int)
  }

  lemma KeywordBegins(s: bytes, w: string)
    requires |w| == 4
    ensures IsKeyword(s, w) <==> Begins4(s, w)
  {
    hide Mask;
    if Begins4(s, w) {
      forall i | 0 <= i < 4 ensures Mask(s[i] as int) == Mask(w[i] as int) {
        if i == 0 {} else if i == 1 {} else if i == 2 {} else {}
      }
    }
  }

  lemma KeywordsBegin(s: bytes)
    ensures forall w: string {:trigger IsKeyword(s, w)} :: |w| == 4 ==> (IsKeyword(s, w) <==> Begins4(s, w))
  {
    hide *;
    forall w: string | |w| == 4 ensures IsKeyword(s, w) <==> Begins4(s, w) { KeywordBegins(s, w); }
  }

  /** The letters themselves are not changed by clearing the bit. */
  lemma MaskIs()
    ensures forall x {:trigger Mask(x)} :: 64 <= x < 96 ==> Mask(x) == x
    ensures Mask(32) == 0
  {
  }

  lemma KeywordOfData(s: bytes, c: Cmd)
    requires Begins4(s, Letters(c))
    requires Stores(c) || c.Get? || c.Gets? || c.Gat? || c.Gats? || c.Delete? || c.Touch?
    ensures Keyword(s) == Some(c)
  {
    KeywordsBegin(s);
    MaskIs();
    hide IsKeyword, Mask;
    match c
    case Set => case Add => case Append => case Replace => case Prepend => case Cas =>
    case Get => case Gets => case Gat => case Gats => case Delete => case Touch =>
  }

  lemma KeywordOfNumbers(s: bytes, c: Cmd)
    requires Begins4(s, Letters(c))
    requires c.Decr? || c.Incr? || c.Slabs? || c.Lru? || c.LruCrawler? || c.Watch?
    ensures Keyword(s) == Some(c)
  {
    KeywordsBegin(s);
    MaskIs();
    hide IsKeyword, Mask;
    match c
    case Decr => case Incr => case Slabs => case Lru => case LruCrawler => case Watch =>
  }

  lemma KeywordOfServer(s: bytes, c: Cmd)
    requires Begins4(s, Letters(c)) && (c.Stats? || c.FlushAll? || c.CacheMemlimit?)
    ensures Keyword(s) == Some(c)
  {
    KeywordsBegin(s);
    MaskIs();
    hide IsKeyword, Mask;
    match c
    case Stats => case FlushAll => case CacheMemlimit =>
  }

  lemma KeywordOfOthers(s: bytes, c: Cmd)
    requires Begins4(s, Letters(c)) && (c.Version? || c.Quit? || c.NoOp?)
    ensures Keyword(s) == Some(c)
  {
    KeywordsBegin(s);
    MaskIs();
    hide IsKeyword, Mask;
    match c
    case Version => case Quit => case NoOp =>
  }

  /** Each command is told from the others by its first four letters. */
  lemma KeywordOf(s: bytes, c: Cmd)
    requires Begins4(s, Letters(c))
    ensures Keyword(s) == Some(c)
  {
    hide Begins4, Letters, Keyword;
    match c
    case Decr | Incr | Slabs | Lru | LruCrawler | Watch => KeywordOfNumbers(s, c);
    case Stats | FlushAll | CacheMemlimit => KeywordOfServer(s, c);
    case Version | Quit | NoOp => KeywordOfOthers(s, c);
    case _ => KeywordOfData(s, c);
  }

  // ---------------------------------------------------------------- writing

  const NOREPLY: bytes := Ascii("noreply")

  function Optional(noreply: bool): seq<bytes> {
    if noreply then [NOREPLY] else []
  }

  /** The words after the name. */
  function Args(show: Writer, r: Request): seq<bytes> {
    match r
    case Storing(cmd, key, flags, ttl, data, cas, noreply) =>
      [key, show(flags), show(ttl), show(|data|)] + (if cmd.Cas? then [show(cas)] else []) + Optional(noreply)
    case Reading(_, keys) => keys
    case TouchReading(_, ttl, keys) => [show(ttl)] + keys
    case Deleting(key, noreply) => [key] + Optional(noreply)
    case Counting(_, key, amount, noreply) => [key, show(amount)] + Optional(noreply)
    case Touching(key, ttl, noreply) => [key, show(ttl)] + Optional(noreply)
    case Other(_, words) => words
  }

  /** The line, with the name in any letters, and the data. */
  function Written(show: Writer, name: bytes, r: Request): Command {
    Command(name + V.Joined(Args(show, r)), if r.Storing? then r.data else [])
  }

  predicate AllWords(ws: seq<bytes>) {
    forall i :: 0 <= i < |ws| ==> V.IsWord(ws[i])
  }

  const TWO32 := 0x1_0000_0000
  const TWO64 := 0x1_0000_0000_0000_0000

  /** What a client can ask for: the shape fits the command, keys are words, numbers fit their fields. */
  predicate Sensible(r: Request) {
    match r
    case Storing(cmd, key, flags, ttl, data, cas, _) =>
      Stores(cmd) && V.IsWord(key) && flags < TWO32 && ttl < TWO64 && |data| < TWO64 && cas < TWO64 && (!cmd.Cas? ==> cas == 0)
    case Reading(cmd, keys) => (cmd.Get? || cmd.Gets?) && keys != [] && AllWords(keys)
    case TouchReading(cmd, ttl, keys) => (cmd.Gat? || cmd.Gats?) && ttl < TWO64 && keys != [] && AllWords(keys)
    case Deleting(key, _) => V.IsWord(key)
    case Counting(cmd, key, amount, _) => (cmd.Incr? || cmd.Decr?) && V.IsWord(key) && amount < TWO64
    case Touching(key, ttl, _) => V.IsWord(key) && ttl < TWO64
    case Other(cmd, words) => IsOther(cmd) && AllWords(words) && (cmd.Lru? ==> words != [])
  }

  /** Commands whose words are not looked at. */
  predicate IsOther(c: Cmd) {
    || c.Slabs? || c.Lru? || c.LruCrawler? || c.Watch? || c.Stats? || c.FlushAll? || c.CacheMemlimit? || c.Version?
    || c.Quit? || c.NoOp?
  }

  // ---------------------------------------------------------------- what is meant

  predicate KeysAre(m: Msg, keys: seq<bytes>) {
    m.first + m.keycnt <= |m.args| && m.args[m.first..m.first + m.keycnt] == keys
  }

  /** The message says what the client means; a field that the command does not have is 0. */
  predicate Means(m: Msg, r: Request) {
    && m.cmd == CmdOf(r)
    && match r
       case Storing(_, key, flags, ttl, data, cas, noreply) =>
         && KeysAre(m, [key]) && m.flags == flags && m.ttl == ttl && m.msglen == |data| && m.block == data
         && m.cas == cas && m.inc == 0 && m.quiet == noreply
       case Reading(_, keys) => KeysAre(m, keys) && m.ttl == m.cas == m.msglen == m.inc == 0 && m.block == [] && !m.quiet
       case TouchReading(_, ttl, keys) =>
         KeysAre(m, keys) && m.ttl == ttl && m.cas == m.msglen == m.inc == 0 && m.block == [] && !m.quiet
       case Deleting(key, noreply) =>
         KeysAre(m, [key]) && m.ttl == m.cas == m.msglen == m.inc == 0 && m.block == [] && m.quiet == noreply
       case Counting(_, key, amount, noreply) =>
         KeysAre(m, [key]) && m.inc == amount && m.cas == m.ttl == m.msglen == 0 && m.block == [] && m.quiet == noreply
       case Touching(key, ttl, noreply) =>
         KeysAre(m, [key]) && m.ttl == ttl && m.cas == m.msglen == m.inc == 0 && m.block == [] && m.quiet == noreply
       case Other(_, words) => m.args == words && m.block == [] && !m.quiet
  }

  // ---------------------------------------------------------------- reading the words

  predicate Is64(num: Reader, w: bytes, v: nat) {
    num(w) == Num(v) && v < TWO64
  }

  /** The words args say r: numbers in any notation, and any word in the place of noreply. */
  predicate Say(num: Reader, args: seq<bytes>, r: Request) {
    match r
    case Storing(cmd, key, flags, ttl, data, cas, noreply) =>
      var n := if cmd.Cas? then 5 else 4;
      && Stores(cmd) && |args| == n + (if noreply then 1 else 0) && args[0] == key
      && Is64(num, args[1], flags) && flags < TWO32 && Is64(num, args[2], ttl) && Is64(num, args[3], |data|)
      && if cmd.Cas? then Is64(num, args[4], cas) else cas == 0
    case Reading(cmd, keys) => (cmd.Get? || cmd.Gets?) && args == keys && keys != []
    case TouchReading(cmd, ttl, keys) =>
      (cmd.Gat? || cmd.Gats?) && |args| > 1 && args[1..] == keys && Is64(num, args[0], ttl)
    case Deleting(key, noreply) => |args| == 1 + (if noreply then 1 else 0) && args[0] == key
    case Counting(cmd, key, amount, noreply) =>
      (cmd.Incr? || cmd.Decr?) && |args| == 2 + (if noreply then 1 else 0) && args[0] == key && Is64(num, args[1], amount)
    case Touching(key, ttl, noreply) =>
      |args| == 2 + (if noreply then 1 else 0) && args[0] == key && Is64(num, args[1], ttl)
    case Other(cmd, words) => IsOther(cmd) && args == words
  }

  function DataOf(r: Request): bytes {
    if r.Storing? then r.data else []
  }

  lemma StoringTaken(num: Reader, args: seq<bytes>, r: Request)
    requires r.Storing? && Say(num, args, r)
    ensures var p := ParseArgs(num, r.cmd, args); p.Ok? && Means(p.msg.(block := r.data), r)
  {
  }

  lemma ReadingTaken(num: Reader, args: seq<bytes>, r: Request)
    requires (r.Reading? || r.TouchReading?) && Say(num, args, r)
    ensures var p := ParseArgs(num, r.cmd, args); p.Ok? && Means(p.msg, r)
  {
  }

  lemma OneKeyTaken(num: Reader, args: seq<bytes>, r: Request)
    requires (r.Deleting? || r.Counting? || r.Touching? || r.Other?) && Say(num, args, r)
    ensures var p := ParseArgs(num, CmdOf(r), args); p.Ok? && Means(p.msg, r)
  {
  }

  /** Words that say something are taken for it. */
  lemma WordsTaken(num: Reader, args: seq<bytes>, r: Request)
    requires Say(num, args, r)
    ensures var p := ParseArgs(num, CmdOf(r), args); p.Ok? && Means(p.msg.(block := DataOf(r)), r)
    ensures Stores(CmdOf(r)) <==> r.Storing?
  {
    assert Stores(CmdOf(r)) <==> r.Storing?;
    hide Say, Means, ParseStore, ParseNumber, Stores;
    match r
    case Storing(_, _, _, _, _, _, _) => StoringTaken(num, args, r);
    case Reading(_, _) => ReadingTaken(num, args, r);
    case TouchReading(_, _, _) => ReadingTaken(num, args, r);
    case _ => OneKeyTaken(num, args, r);
  }

  /** A line is accepted if and only if its words say something that the command can mean. */
  lemma AcceptedIff(num: Reader, cmd: Cmd, args: seq<bytes>)
    ensures ParseArgs(num, cmd, args).Ok? <==> exists r :: CmdOf(r) == cmd && Say(num, args, r)
  {
    var p := ParseArgs(num, cmd, args);
    if p.Ok? {
      var m := p.msg;
      var r := Said(m);
      assert CmdOf(r) == cmd && Say(num, args, r);
    }
    forall r | CmdOf(r) == cmd && Say(num, args, r) ensures p.Ok? { WordsTaken(num, args, r); }
  }

  /** What an accepted message says, with some data of the announced length. */
  function Said(m: Msg): Request {
    var key := if m.args == [] then [] else m.args[0];
    var keys := if m.first <= |m.args| then m.args[m.first..] else [];
    match m.cmd
    case Set | Add | Append | Replace | Prepend | Cas =>
      Storing(m.cmd, key, m.flags, m.ttl, seq(m.msglen, _ => 0), m.cas, m.quiet)
    case Get | Gets => Reading(m.cmd, keys)
    case Gat | Gats => TouchReading(m.cmd, m.ttl, keys)
    case Delete => Deleting(key, m.quiet)
    case Incr | Decr => Counting(m.cmd, key, m.inc, m.quiet)
    case Touch => Touching(key, m.ttl, m.quiet)
    case _ => Other(m.cmd, m.args)
  }

  /** Why the words of a storing command are refused: there are too few or too many, or a number is
      malformed or does not fit its field. */
  lemma RefusedBecause(num: Reader, cmd: Cmd, args: seq<bytes>)
    requires Stores(cmd) && ParseArgs(num, cmd, args).Err?
    ensures var e, n := ParseArgs(num, cmd, args).error, if cmd.Cas? then 5 else 4;
            && (e == BadArgs <==> |args| != n && |args| != n + 1)
            && (e == BadInt ==> exists i :: 1 <= i < n && num(args[i]) == Malformed)
            && (e == IntOverflow ==> exists i :: 1 <= i < n && TooBig(num(args[i]), if i == 1 then TWO32 else TWO64))
            && (e == BadArgs || e == BadInt || e == IntOverflow)
  {
    if |args| >= (if cmd.Cas? then 5 else 4) {
      var x, y, z := args[1], args[2], args[3];
    }
  }

  predicate TooBig(n: Number, limit: nat) {
    n.Overflow? || (n.Num? && n.value >= limit)
  }

  // ---------------------------------------------------------------- what is written is decoded

  lemma ArgsSay(show: Writer, num: Reader, r: Request)
    requires V.Inverse(show, num) && Sensible(r)
    ensures Say(num, Args(show, r), r) && AllWords(Args(show, r))
  {
    assert V.IsWord(NOREPLY);
  }

  lemma MaskLetter(b: byte, w: char)
    requires IsLetter(b, w) && w < 128 as char
    ensures Mask(b as int) == Mask(w as int)
  {
  }

  lemma NameIsText(c: Cmd)
    ensures |Name(c)| >= 3 && (|Name(c)| == 3 <==> c.Set? || c.Add? || c.Cas? || c.Get? || c.Gat? || c.Lru?)
    ensures forall i :: 0 <= i < |Name(c)| ==> ' ' < Name(c)[i] < 128 as char
  {
    match c
    case Set => case Add => case Append => case Replace => case Prepend => case Cas => case Get => case Gets =>
    case Gat => case Gats => case Delete => case Touch => case Decr => case Incr => case Slabs => case Lru =>
    case LruCrawler => case Watch => case Stats => case FlushAll => case CacheMemlimit => case Version =>
    case Quit => case NoOp =>
  }

  /** A line that begins with the name of a command begins with its letters. */
  lemma NameBegins(name: bytes, c: Cmd, tail: bytes)
    requires IsNamed(name, c) && (|name| == 3 ==> tail != [] && tail[0] == SPACE)
    ensures Begins4(name + tail, Letters(c))
  {
    NameIsText(c);
    var line, w := name + tail, Letters(c);
    forall i | 0 <= i < 4 ensures i < |line| && Mask(line[i] as int) == Mask(w[i] as int) {
      if i < |name| { MaskLetter(name[i], Name(c)[i]); }
    }
    hide Letters, Name, Mask;
  }

  predicate NoLineEnd(s: bytes) {
    forall i :: 0 <= i < |s| ==> s[i] >= SPACE
  }

  lemma NameIsBytes(name: bytes, c: Cmd)
    requires IsNamed(name, c)
    ensures V.IsWord(name) && |name| >= 3 && name[0] < 128
  {
    NameIsText(c);
    forall i | 0 <= i < |name| ensures SPACE < name[i] < 128 { assert IsLetter(name[i], Name(c)[i]); }
    hide Name;
  }

  /** The line of a name and words: where the name ends, and what the words are. */
  lemma LineParts(name: bytes, words: seq<bytes>)
    requires V.IsWord(name) && AllWords(words)
    ensures var line := name + V.Joined(words);
            && WordEnd(line) == |name| && DropSpaces(line) == line && Words(line[|name|..]) == words && NoLineEnd(line)
    ensures words != [] ==> V.Joined(words) != [] && V.Joined(words)[0] == SPACE
  {
    var tail := V.Joined(words);
    var line := name + tail;
    V.JoinedIsText(words);
    V.WordsOfJoined(words);
    assert line[|name|..] == tail;
    assert line[0] == name[0];
    assert tail != [] ==> tail[0] == SPACE;
    hide Words;
    WordEndIs(line, |name|);
  }

  lemma NamedLine(num: Reader, name: bytes, c: Cmd, words: seq<bytes>)
    requires IsNamed(name, c) && AllWords(words) && (|name| == 3 ==> words != [])
    ensures var line := name + V.Joined(words);
            line != [] && line[0] < 128 && NoLineEnd(line) && ParseLine(num, DropSpaces(line)) == ParseArgs(num, c, words)
  {
    NameIsBytes(name, c);
    LineParts(name, words);
    var line := name + V.Joined(words);
    NameBegins(name, c, V.Joined(words));
    KeywordOf(line, c);
    assert line[0] == name[0];
    hide IsNamed, AllWords, Keyword, Words, WordEnd, DropSpaces, ParseArgs, Begins4, Letters;
  }

  lemma ShortNameHasWords(show: Writer, num: Reader, name: bytes, r: Request)
    requires V.Inverse(show, num) && Sensible(r) && IsNamed(name, CmdOf(r)) && |name| == 3
    ensures Args(show, r) != []
  {
    NameIsText(CmdOf(r));
  }

  /** The command that is written is well-formed, and its message says what was meant. */
  lemma WrittenIsWellFormed(show: Writer, num: Reader, name: bytes, r: Request)
    requires V.Inverse(show, num) && Sensible(r) && IsNamed(name, CmdOf(r))
    ensures var c := Written(show, name, r);
            && WellFormed(num, c) && Header(num, c).Ok? && Means(Header(num, c).msg.(block := c.block), r)
            && (Stores(Header(num, c).msg.cmd) <==> r.Storing?)
  {
    ArgsSay(show, num, r);
    WordsTaken(num, Args(show, r), r);
    if |name| == 3 { ShortNameHasWords(show, num, name, r); }
    NamedLine(num, name, CmdOf(r), Args(show, r));
    hide Say, Sensible, V.Inverse, ParseArgs, ParseLine, IsNamed, AllWords, DropSpaces, Args;
    var c := Written(show, name, r);
    assert Header(num, c) == ParseArgs(num, CmdOf(r), Args(show, r));
  }

  /** The bytes that a client sends. */
  function Text(show: Writer, name: bytes, r: Request): bytes {
    name + V.Joined(Args(show, r)) + Ascii("\r\n") + if r.Storing? then r.data + Ascii("\r\n") else []
  }

  lemma TextIsEncoded(show: Writer, num: Reader, name: bytes, r: Request)
    requires V.Inverse(show, num) && Sensible(r) && IsNamed(name, CmdOf(r))
    ensures Text(show, name, r) == Encoded(num, Written(show, name, r))
  {
    WrittenIsWellFormed(show, num, name, r);
    assert Ascii("\r\n") == EOL;
    hide WellFormed, Header, Args, V.Joined, Means, Sensible, V.Inverse, IsNamed, Ascii;
  }

  lemma HeaderHasNoData(num: Reader, c: Command)
    requires WellFormed(num, c)
    ensures Header(num, c).Ok? && Header(num, c).msg.block == [] && (!Stores(Header(num, c).msg.cmd) ==> c.block == [])
    ensures Encoded(num, c) == c.line + EOL + if Stores(Header(num, c).msg.cmd) then c.block + EOL else []
  {
    hide ParseLine, DropSpaces, Stores;
  }

  lemma LineEndEaten(data: bytes, rest: bytes)
    ensures var s := data + EOL + rest; s[..|data|] == data && s[|data|..] == EOL + rest && Eaten(s[|data|..]) == 2
  {
    assert (data + EOL + rest)[|data|..] == EOL + rest;
  }

  /** A complete command at the front of a buffer is decoded, and exactly its bytes are used up. */
  lemma CompleteCommand(num: Reader, c: Command, rest: bytes)
    requires WellFormed(num, c)
    ensures Header(num, c).Ok?
    ensures Unpack(num, Encoded(num, c) + rest) == Done(Header(num, c).msg.(block := c.block), |Encoded(num, c)|)
  {
    hide WellFormed, Header, Unpack, Encoded, Stores, Eaten;
    HeaderHasNoData(num, c);
    var m := Header(num, c).msg;
    if Stores(m.cmd) {
      AfterLine(num, c, c.block + EOL + rest);
      LineEndEaten(c.block, rest);
      assert Encoded(num, c) + rest == c.line + EOL + (c.block + EOL + rest);
    } else {
      AfterLine(num, c, rest);
      assert Encoded(num, c) + rest == c.line + EOL + rest;
    }
  }

  /** Main result on one command: whatever comes after it, it is decoded as what was meant, and exactly
      its bytes are used up. */
  lemma RequestReadBack(show: Writer, num: Reader, name: bytes, r: Request, rest: bytes)
    requires V.Inverse(show, num) && Sensible(r) && IsNamed(name, CmdOf(r))
    ensures var u := Unpack(num, Text(show, name, r) + rest);
            u.Done? && Means(u.msg, r) && u.n == |Text(show, name, r)|
  {
    hide Text, Written, Means, WellFormed, Header, Unpack, Sensible, V.Inverse, IsNamed, Encoded, Stores;
    WrittenIsWellFormed(show, num, name, r);
    TextIsEncoded(show, num, name, r);
    CompleteCommand(num, Written(show, name, r), rest);
  }

  /** A first byte of 0x80, and no other one, tells the binary protocol from text. */
  lemma BinaryIsTold(num: Reader, buf: bytes)
    requires buf != []
    ensures buf[0] == 0x80 ==> Unpack(num, buf) == IsBinary
    ensures buf[0] > 32 && buf[0] != 0x80 ==> Unpack(num, buf) != IsBinary
  {
    hide ParseLine, Words;
    UnpackUnfolds(num, buf);
    hide Unpack;
    if buf[0] > 32 && buf[0] != 0x80 && Eol(buf) < |buf| {
      var e := Eol(buf);
      assert e > 0;
      assert DropSpaces(TrimCr(buf[..e])) != [] by { assert TrimCr(buf[..e]) != [] && TrimCr(buf[..e])[0] == buf[0]; }
    }
  }

  method DecodeRequest(show: Writer, num: Reader, name: bytes, r: Request, rest: bytes) returns (u: Unpacked)
    requires V.Inverse(show, num) && Sensible(r) && IsNamed(name, CmdOf(r))
    ensures u.Done? && Means(u.msg, r) && u.n == |Text(show, name, r)|
  {
    RequestReadBack(show, num, name, r, rest);
    u := UnpackText(num, Text(show, name, r) + rest);
  }

  // ---------------------------------------------------------------- whole connections

  /** A request, and the name under which it is sent. */
  datatype Sent = Sent(name: bytes, request: Request)

  ghost predicate AllSensible(ss: seq<Sent>) {
    forall i :: 0 <= i < |ss| ==> Sensible(ss[i].request) && IsNamed(ss[i].name, CmdOf(ss[i].request))
  }

  function AllText(show: Writer, ss: seq<Sent>): bytes {
    if ss == [] then [] else Text(show, ss[0].name, ss[0].request) + AllText(show, ss[1..])
  }

  predicate IsLast(r: Request) {
    CmdOf(r).Quit?
  }

  /** The requests up to the first QUIT. */
  function Heard(ss: seq<Sent>): seq<Sent> {
    if ss == [] then [] else if IsLast(ss[0].request) then [ss[0]] else [ss[0]] + Heard(ss[1..])
  }

  function Commands(show: Writer, ss: seq<Sent>): (cs: seq<Command>)
    ensures |cs| == |ss|
  {
    seq(|ss|, i requires 0 <= i < |ss| => Written(show, ss[i].name, ss[i].request))
  }

  lemma CommandsCons(show: Writer, ss: seq<Sent>)
    requires ss != []
    ensures Commands(show, ss)[1..] == Commands(show, ss[1..])
    ensures Commands(show, ss)[0] == Written(show, ss[0].name, ss[0].request)
  {
    hide Written;
  }

  lemma {:induction false} TextsAreStream(show: Writer, num: Reader, ss: seq<Sent>)
    requires V.Inverse(show, num) && AllSensible(ss)
    ensures AllText(show, ss) == Stream(num, Commands(show, ss)) && AllWellFormed(num, Commands(show, ss))
    decreases |ss|
  {
    hide Text, Encoded, Sensible, IsNamed, V.Inverse, WellFormed, Written, Header, Means, Commands;
    if ss != [] {
      TextIsEncoded(show, num, ss[0].name, ss[0].request);
      WrittenIsWellFormed(show, num, ss[0].name, ss[0].request);
      TextsAreStream(show, num, ss[1..]);
      CommandsCons(show, ss);
      var cs := Commands(show, ss);
      forall i | 0 <= i < |cs| ensures WellFormed(num, cs[i]) { assert i > 0 ==> cs[i] == cs[1..][i - 1]; }
    }
  }

  lemma QuitIsLast(show: Writer, num: Reader, s: Sent)
    requires V.Inverse(show, num) && Sensible(s.request) && IsNamed(s.name, CmdOf(s.request))
    ensures IsQuit(num, Written(show, s.name, s.request)) <==> IsLast(s.request)
  {
    hide WellFormed, Header, Sensible, IsNamed, V.Inverse, Written;
    WrittenIsWellFormed(show, num, s.name, s.request);
  }

  lemma {:induction false} HeardIs(show: Writer, num: Reader, ss: seq<Sent>)
    requires V.Inverse(show, num) && AllSensible(ss)
    ensures UpToQuit(num, Commands(show, ss)) == Commands(show, Heard(ss))
    ensures AllSensible(Heard(ss))
    ensures (exists i :: 0 <= i < |ss| && IsLast(ss[i].request)) ==> !NoQuit(num, Commands(show, ss))
    decreases |ss|
  {
    hide Sensible, IsNamed, V.Inverse, IsQuit, IsLast, Written;
    if ss != [] {
      QuitIsLast(show, num, ss[0]);
      HeardIs(show, num, ss[1..]);
      CommandsCons(show, ss);
      CommandsCons(show, Heard(ss));
      var cs, hs := Commands(show, ss), Heard(ss);
      assert Commands(show, hs) == [Commands(show, hs)[0]] + Commands(show, hs[1..]);
      if exists i :: 0 <= i < |ss| && IsLast(ss[i].request) {
        var i :| 0 <= i < |ss| && IsLast(ss[i].request);
        if i > 0 {
          assert ss[1..][i - 1] == ss[i];
          var j :| 0 <= j < |cs[1..]| && IsQuit(num, cs[1..][j]);
          assert IsQuit(num, cs[j + 1]);
        } else {
          assert IsQuit(num, cs[0]);
        }
      }
    }
  }

  /** The messages say what was meant, one after the other. */
  ghost predicate AllMean(ms: seq<Msg>, ss: seq<Sent>) {
    |ms| == |ss| && forall i :: 0 <= i < |ss| ==> Means(ms[i], ss[i].request)
  }

  lemma DecodedMeans(show: Writer, num: Reader, ms: seq<Msg>, ss: seq<Sent>)
    requires V.Inverse(show, num) && AllSensible(ss) && AllDecode(num, ms, Commands(show, ss))
    ensures AllMean(ms, ss)
  {
    hide Sensible, IsNamed, V.Inverse, Means, Header, Written, WellFormed;
    forall i | 0 <= i < |ss| ensures Means(ms[i], ss[i].request) {
      WrittenIsWellFormed(show, num, ss[i].name, ss[i].request);
      assert Decodes(num, ms[i], Commands(show, ss)[i]);
    }
  }

  /** Main result: a connection that receives the text of any requests, cut into reads anywhere, decodes
      what was meant by each of them, in order, up to the first QUIT, which anything may follow. */
  method ServeRequests(show: Writer, num: Reader, ghost ss: seq<Sent>, ghost after: bytes, chunks: seq<bytes>)
    returns (ms: seq<Msg>)
    requires V.Inverse(show, num) && AllSensible(ss) && Flatten(chunks) == AllText(show, ss) + after
    requires after == [] || exists i :: 0 <= i < |ss| && IsLast(ss[i].request)
    ensures AllMean(ms, Heard(ss))
  {
    TextsAreStream(show, num, ss);
    HeardIs(show, num, ss);
    hide V.Inverse, AllSensible, AllText, AllWellFormed, NoQuit, Stream, Commands, Heard, UpToQuit, AllDecode, AllMean, Flatten;
    var connection := new EvMemcached(num);
    connection.Serve(chunks, Commands(show, ss), after);
    ms := connection.decoded;
    DecodedMeans(show, num, ms, Heard(ss));
  }
}
