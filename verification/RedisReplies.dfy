/** The text of replies (src/redis_exec.cpp:18-53, 110-160, 199-227 and 1056-1150), and what a client that
    knows nothing but the protocol reads from it. */
module RedisReplies {

  import opened Common
  import opened Bytes
  import opened Scheduler
  import opened KeyCommands
  import opened StringCommands

  const CR: byte := 13
  const LF: byte := 10
  const CRLF: bytes := [CR, LF]
  const MINUS: byte := 45
  const PLUS: byte := 43
  const COLON: byte := 58
  const DOLLAR: byte := 36
  const STAR: byte := 42

  /** The text of an error without the sign in front and the line end: its details are not modelled. */
  type Explain = Status -> bytes

  predicate IsText(s: bytes) {
    forall i :: 0 <= i < |s| ==> s[i] != CR && s[i] != LF
  }

  // ---------------------------------------------------------------- numbers

  predicate IsDigit(b: byte) { 48 <= b < 58 }

  function Digits(n: nat): (s: bytes)
    ensures s != [] && forall i :: 0 <= i < |s| ==> IsDigit(s[i])
  {
    if n < 10 then [(48 + n) as byte] else Digits(n / 10) + [(48 + n % 10) as byte]
  }

  function Decimal(n: int): bytes {
    if n < 0 then [MINUS] + Digits(-n) else Digits(n)
  }

  /** The number that digits stand for. */
  function NumberOf(s: bytes): nat
    requires forall i :: 0 <= i < |s| ==> IsDigit(s[i])
  {
    if s == [] then 0
    else
      assert IsDigit(s[|s| - 1]);
      NumberOf(s[..|s| - 1]) * 10 + (s[|s| - 1] as int - 48)
  }

  function ReadNumber(s: bytes): Option<int> {
    if s != [] && s[0] == MINUS then
      if |s| > 1 && forall i :: 1 <= i < |s| ==> IsDigit(s[i]) then Some(-(NumberOf(s[1..]) as int)) else None
    else if s != [] && forall i :: 0 <= i < |s| ==> IsDigit(s[i]) then Some(NumberOf(s))
    else None
  }

  lemma {:induction false} DigitsReadBack(n: nat)
    ensures NumberOf(Digits(n)) == n
    decreases n
  {
    if n >= 10 {
      DigitsReadBack(n / 10);
      assert Digits(n)[..|Digits(n)| - 1] == Digits(n / 10);
    }
  }

  lemma DecimalReadBack(n: int)
    ensures ReadNumber(Decimal(n)) == Some(n) && IsText(Decimal(n))
  {
    hide NumberOf, Digits;
    if n < 0 {
      DigitsReadBack(-n);
      assert Decimal(n)[1..] == Digits(-n);
    } else {
      DigitsReadBack(n);
    }
  }

  // ---------------------------------------------------------------- writing

  /** save_string_result, append_string and send_string. */
  function BulkText(data: bytes): bytes {
    Ascii("$") + Digits(|data|) + Ascii("\r\n") + data + Ascii("\r\n")
  }

  const NIL: bytes := Ascii("$-1\r\n")

  function ItemText(item: Option<bytes>): bytes {
    if item.Some? then BulkText(item.value) else NIL
  }

  function ItemTexts(items: seq<Option<bytes>>): bytes {
    if items == [] then [] else ItemText(items[0]) + ItemTexts(items[1..])
  }

  function Text(explain: Explain, r: Reply): bytes {
    match r
    case SimpleOk => Ascii("+OK\r\n")
    case QueuedReply => Ascii("+QUEUED\r\n")
    case NilReply => NIL
    case NullArray => Ascii("*-1\r\n")
    case EmptyArray => Ascii("*0\r\n")
    case EmptyString => Ascii("$0\r\n\r\n")
    case IntReply(n) => Ascii(":") + Decimal(n) + Ascii("\r\n")
    case ErrorReply(why) => Ascii("-") + explain(why) + Ascii("\r\n")
    case Bulk(data) => BulkText(data)
    case Items(items) => Ascii("*") + Digits(|items|) + Ascii("\r\n") + ItemTexts(items)
  }

  function Texts(explain: Explain, rs: seq<Reply>): bytes {
    if rs == [] then [] else Text(explain, rs[0]) + Texts(explain, rs[1..])
  }

  /** array_string_result: parts are the texts that the keys have saved. */
  method ArrayStringResult(items: seq<Option<bytes>>, parts: seq<Option<bytes>>) returns (strm: bytes)
    requires |items| == |parts|
    requires forall i :: 0 <= i < |items| ==>
      (items[i].Some? <==> parts[i].Some?) && (items[i].Some? ==> parts[i].value == BulkText(items[i].value))
    ensures forall explain :: strm == Text(explain, Items(items))
  {
    hide BulkText, NIL, Digits, Ascii;
    strm := Ascii("*") + Digits(|parts|) + Ascii("\r\n");
    ghost var head := strm;
    var i := 0;
    assert items[0..] == items;
    while i < |parts|
      invariant i <= |parts| && strm + ItemTexts(items[i..]) == head + ItemTexts(items)
    {
      assert items[i..][0] == items[i] && items[i..][1..] == items[i + 1..];
      strm := strm + if parts[i].Some? then parts[i].value else NIL;
      i := i + 1;
    }
    assert items[i..] == [];
  }

  // ---------------------------------------------------------------- reading

  /** What a client can receive. */
  datatype Resp =
    | Line(text: bytes) | Fault(text: bytes) | Number(n: int) | Str(data: bytes) | Nil | NullList | List(items: seq<Resp>)

  datatype Read<T> = Got(v: T, rest: bytes) | NotThere

  /** The length of the line at the front. */
  function LineLength(b: bytes): (e: nat)
    ensures e <= |b|
    ensures e < |b| ==> e + 1 < |b| && b[e] == CR && b[e + 1] == LF
    ensures forall i :: 0 <= i < e && i + 1 < |b| ==> !(b[i] == CR && b[i + 1] == LF)
  {
    if b == [] then 0
    else if |b| > 1 && b[0] == CR && b[1] == LF then 0
    else if |b| == 1 then 1
    else
      var e := LineLength(b[1..]);
      e + 1
  }

  /** The next value of a reply stream: a sign, a line, and what the line announces. */
  function ReadOne(b: bytes): (r: Read<Resp>)
    ensures r.Got? ==> |r.rest| < |b|
    decreases |b|, 0
  {
    var e := LineLength(b);
    if e == 0 || e == |b| then NotThere
    else
      var sign, line, rest := b[0], b[1..e], b[e + 2..];
      if sign == PLUS then Got(Line(line), rest)
      else if sign == MINUS then Got(Fault(line), rest)
      else
        var n := ReadNumber(line);
        if n.None? then NotThere
        else if sign == COLON then Got(Number(n.value), rest)
        else if sign == DOLLAR then
          if n.value == -1 then Got(Nil, rest)
          else if n.value < 0 || |rest| < n.value + 2 || rest[n.value..n.value + 2] != CRLF then NotThere
          else Got(Str(rest[..n.value]), rest[n.value + 2..])
        else if sign == STAR then
          if n.value == -1 then Got(NullList, rest)
          else if n.value < 0 then NotThere
          else
            var items := ReadMany(rest, n.value);
            if items.Got? then Got(List(items.v), items.rest) else NotThere
        else NotThere
  }

  function ReadMany(b: bytes, n: nat): (r: Read<seq<Resp>>)
    ensures r.Got? ==> |r.rest| <= |b|
    decreases |b|, 1
  {
    if n == 0 then Got([], b)
    else
      var first := ReadOne(b);
      if first.NotThere? then NotThere
      else
        var more := ReadMany(first.rest, n - 1);
        if more.Got? then Got([first.v] + more.v, more.rest) else NotThere
  }

  /** The values of a whole stream. */
  function ReadAll(b: bytes): Option<seq<Resp>>
    decreases |b|
  {
    if b == [] then Some([])
    else
      var first := ReadOne(b);
      if first.NotThere? then None
      else
        var more := ReadAll(first.rest);
        if more.Some? then Some([first.v] + more.value) else None
  }

  // ---------------------------------------------------------------- what is written is read

  lemma {:induction false} LineLengthIs(s: bytes, rest: bytes)
    requires IsText(s)
    ensures LineLength(s + CRLF + rest) == |s|
  {
    var b := s + CRLF + rest;
    assert b[|s|] == CR && b[|s| + 1] == LF;
    hide LineLength;
    var e := LineLength(b);
    assert forall i :: 0 <= i < |s| ==> b[i] == s[i];
  }

  /** The line of a reply, and what remains. */
  lemma LineReadBack(sign: byte, line: bytes, rest: bytes)
    requires IsText(line) && sign != CR && sign != LF
    ensures var b := [sign] + line + CRLF + rest;
            var e := LineLength(b); 0 < e < |b| && b[0] == sign && b[1..e] == line && b[e + 2..] == rest
  {
    LineLengthIs([sign] + line, rest);
    var b := [sign] + line + CRLF + rest;
    assert b == ([sign] + line) + CRLF + rest;
  }

  /** The bytes of the signs and of the line end. */
  lemma SignsAre()
    ensures Ascii("+") == [PLUS] && Ascii("-") == [MINUS] && Ascii(":") == [COLON] && Ascii("$") == [DOLLAR] && Ascii("*") == [STAR]
    ensures Ascii("\r\n") == CRLF
  {
  }

  lemma SimpleReadBack(line: bytes, rest: bytes)
    requires IsText(line)
    ensures ReadOne([PLUS] + line + CRLF + rest) == Got(Line(line), rest)
    ensures ReadOne([MINUS] + line + CRLF + rest) == Got(Fault(line), rest)
  {
    hide LineLength;
    LineReadBack(PLUS, line, rest);
    LineReadBack(MINUS, line, rest);
  }

  lemma NumberReadBack(n: int, rest: bytes)
    ensures ReadOne([COLON] + Decimal(n) + CRLF + rest) == Got(Number(n), rest)
  {
    hide LineLength, ReadNumber, Decimal;
    DecimalReadBack(n);
    LineReadBack(COLON, Decimal(n), rest);
  }

  lemma BulkReadBack(data: bytes, rest: bytes)
    ensures ReadOne(BulkText(data) + rest) == Got(Str(data), rest)
  {
    SignsAre();
    hide LineLength, ReadNumber, Digits, Ascii;
    DecimalReadBack(|data|);
    var tail := data + CRLF + rest;
    LineReadBack(DOLLAR, Digits(|data|), tail);
    assert BulkText(data) + rest == [DOLLAR] + Digits(|data|) + CRLF + tail;
    assert tail[..|data|] == data && tail[|data|..|data| + 2] == CRLF && tail[|data| + 2..] == rest;
  }

  lemma MinusOne()
    ensures Decimal(-1) == [MINUS, 49]
  {
  }

  lemma NilReadBack(rest: bytes)
    ensures ReadOne(NIL + rest) == Got(Nil, rest)
    ensures ReadOne(Ascii("*-1\r\n") + rest) == Got(NullList, rest)
  {
    assert NIL == [DOLLAR, MINUS, 49] + CRLF && Ascii("*-1\r\n") == [STAR, MINUS, 49] + CRLF;
    hide NIL, Ascii;
    hide LineLength, ReadNumber, Decimal;
    MinusOne();
    DecimalReadBack(-1);
    LineReadBack(DOLLAR, Decimal(-1), rest);
    LineReadBack(STAR, Decimal(-1), rest);
    assert NIL + rest == [DOLLAR] + Decimal(-1) + CRLF + rest;
    assert Ascii("*-1\r\n") + rest == [STAR] + Decimal(-1) + CRLF + rest;
  }

  function ItemMeans(item: Option<bytes>): Resp {
    if item.Some? then Str(item.value) else Nil
  }

  function ItemsMean(items: seq<Option<bytes>>): (rs: seq<Resp>)
    ensures |rs| == |items|
  {
    seq(|items|, i requires 0 <= i < |items| => ItemMeans(items[i]))
  }

  lemma ItemReadBack(item: Option<bytes>, rest: bytes)
    ensures ReadOne(ItemText(item) + rest) == Got(ItemMeans(item), rest)
  {
    hide ReadOne, BulkText, NIL;
    if item.Some? { BulkReadBack(item.value, rest); } else { NilReadBack(rest); }
  }

  lemma {:induction false} ItemsReadBack(items: seq<Option<bytes>>, rest: bytes)
    ensures ReadMany(ItemTexts(items) + rest, |items|) == Got(ItemsMean(items), rest)
  {
    hide ReadOne, ItemText, ItemMeans;
    if items == [] {
      assert ItemTexts(items) + rest == rest;
    } else {
      var tail := ItemTexts(items[1..]) + rest;
      ItemReadBack(items[0], tail);
      ItemsReadBack(items[1..], rest);
      assert ItemTexts(items) + rest == ItemText(items[0]) + tail;
      assert ItemsMean(items) == [ItemMeans(items[0])] + ItemsMean(items[1..]);
    }
  }

  lemma ListReadBack(items: seq<Option<bytes>>, rest: bytes)
    ensures ReadOne([STAR] + Digits(|items|) + CRLF + ItemTexts(items) + rest) == Got(List(ItemsMean(items)), rest)
  {
    hide LineLength, ReadNumber, Digits, ReadMany, ItemsMean;
    DecimalReadBack(|items|);
    var tail := ItemTexts(items) + rest;
    LineReadBack(STAR, Digits(|items|), tail);
    ItemsReadBack(items, rest);
    assert [STAR] + Digits(|items|) + CRLF + ItemTexts(items) + rest == [STAR] + Digits(|items|) + CRLF + tail;
  }

  // ---------------------------------------------------------------- replies and final states

  function Meaning(explain: Explain, r: Reply): Resp {
    match r
    case SimpleOk => Line(Ascii("OK"))
    case QueuedReply => Line(Ascii("QUEUED"))
    case NilReply => Nil
    case NullArray => NullList
    case EmptyArray => List([])
    case EmptyString => Str([])
    case IntReply(n) => Number(n)
    case ErrorReply(why) => Fault(explain(why))
    case Bulk(data) => Str(data)
    case Items(items) => List(ItemsMean(items))
  }

  predicate Explained(explain: Explain, r: Reply) {
    r.ErrorReply? ==> IsText(explain(r.why))
  }

  lemma EmptyTexts()
    ensures Digits(0) == [48] && ItemTexts([]) == [] && ItemsMean([]) == []
    ensures Ascii("*0\r\n") == [STAR, 48] + CRLF && Ascii("$0\r\n\r\n") == BulkText([])
    ensures Ascii("+OK\r\n") == [PLUS] + Ascii("OK") + CRLF && Ascii("+QUEUED\r\n") == [PLUS] + Ascii("QUEUED") + CRLF
    ensures IsText(Ascii("OK")) && IsText(Ascii("QUEUED"))
  {
  }

  lemma EmptyListReadBack(rest: bytes)
    ensures ReadOne(Ascii("*0\r\n") + rest) == Got(List([]), rest)
  {
    EmptyTexts();
    hide ReadOne, Digits, ItemTexts, ItemsMean, Ascii, BulkText;
    ListReadBack([], rest);
    assert [STAR, 48] + CRLF + rest == [STAR] + Digits(0) + CRLF + [] + rest;
  }

  /** Every reply is read as what it is, and its bytes are used up exactly. */
  lemma ReplyReadBack(explain: Explain, r: Reply, rest: bytes)
    requires Explained(explain, r)
    ensures ReadOne(Text(explain, r) + rest) == Got(Meaning(explain, r), rest)
  {
    SignsAre();
    EmptyTexts();
    hide ReadOne, Digits, Decimal, ItemTexts, ItemsMean, BulkText, Ascii, NIL, IsText;
    match r
    case SimpleOk => SimpleReadBack(Ascii("OK"), rest);
    case QueuedReply => SimpleReadBack(Ascii("QUEUED"), rest);
    case NilReply => NilReadBack(rest);
    case NullArray => NilReadBack(rest);
    case EmptyArray => EmptyListReadBack(rest);
    case EmptyString => BulkReadBack([], rest);
    case IntReply(n) => NumberReadBack(n, rest);
    case ErrorReply(why) => SimpleReadBack(explain(why), rest);
    case Bulk(data) => BulkReadBack(data, rest);
    case Items(items) => ListReadBack(items, rest);
  }

  function Meanings(explain: Explain, rs: seq<Reply>): (vs: seq<Resp>)
    ensures |vs| == |rs|
  {
    seq(|rs|, i requires 0 <= i < |rs| => Meaning(explain, rs[i]))
  }

  /** A stream of replies is read as those replies, in order, and nothing is left. */
  lemma {:induction false} RepliesReadBack(explain: Explain, rs: seq<Reply>)
    requires forall i :: 0 <= i < |rs| ==> Explained(explain, rs[i])
    ensures ReadAll(Texts(explain, rs)) == Some(Meanings(explain, rs))
  {
    hide ReadOne, Text, Meaning, Explained;
    if rs != [] {
      ReplyReadBack(explain, rs[0], Texts(explain, rs[1..]));
      RepliesReadBack(explain, rs[1..]);
      assert Meanings(explain, rs) == [Meaning(explain, rs[0])] + Meanings(explain, rs[1..]);
    }
  }

  lemma StateMeans(explain: Explain, s: Status, keys: seq<KeyCtx>)
    requires IsText(explain(s))
    ensures ReadAll(Texts(explain, ReplyOf(s, keys))) == Some(Meanings(explain, ReplyOf(s, keys)))
    ensures var rs := ReplyOf(s, keys); Meanings(explain, rs) == if rs == [] then [] else [Meaning(explain, rs[0])]
  {
    var rs := ReplyOf(s, keys);
    assert forall i :: 0 <= i < |rs| ==> Explained(explain, rs[i]) by { hide Sum, IsText; }
    hide ReplyOf, Explained, Meaning;
    RepliesReadBack(explain, rs);
    OneOrNone(explain, rs);
  }

  /** send_status: what a client reads when a command has ended in the state s. */
  lemma StateIsTold(explain: Explain, s: Status, keys: seq<KeyCtx>)
    requires IsText(explain(s))
    ensures var told := ReadAll(Texts(explain, ReplyOf(s, keys)));
            && (s.SendOk? || s.Quit? || s.Debug? ==> told == Some([Line(Ascii("OK"))]))
            && (s.SendNil? || s.AbortSendNil? ==> told == Some([Nil]))
            && (s.SendNull? ==> told == Some([NullList]))
            && (s.SendZero? ==> told == Some([Number(0)]))
            && (s.SendOne? ==> told == Some([Number(1)]))
            && (s.SendNegOne? ==> told == Some([Number(-1)]))
            && (s.SendZeroArr? || s.AbortSendZero? ==> told == Some([List([])]))
            && (s.SendZeroString? ==> told == Some([Str([])]))
            && (s.Queued? ==> told == Some([Line(Ascii("QUEUED"))]))
  {
    StateMeans(explain, s, keys);
    hide ReadAll, Texts, Meanings, Sum, ItemsMean, Ascii;
  }

  /** And in any other state, if it is an error or asks for no reply. */
  lemma RestIsTold(explain: Explain, s: Status, keys: seq<KeyCtx>)
    requires IsText(explain(s))
    ensures var told := ReadAll(Texts(explain, ReplyOf(s, keys)));
            && (s.KvStatus? || s.BadArgs? || s.BadType? || s.KeyDoesntExist? || s.OtherError? ==> told == Some([Fault(explain(s))]))
            && (s.Ok? || s.SetupOk? || s.SendData? || s.Success? || s.Blocked? || s.Skip? || Live(s) ==> told == Some([]))
  {
    StateMeans(explain, s, keys);
    hide ReadAll, Texts, Meanings, Sum, ItemsMean, Ascii;
  }

  lemma OneOrNone(explain: Explain, rs: seq<Reply>)
    ensures rs == [] ==> Meanings(explain, rs) == []
    ensures |rs| == 1 ==> Meanings(explain, rs) == [Meaning(explain, rs[0])]
  {
    hide Meaning;
  }

  /** The number that is sent is that of the key, or the sum over two keys; for more see AnswerDel. */
  lemma NumberIsTold(explain: Explain, keys: seq<KeyCtx>)
    requires 1 <= |keys| <= 2
    ensures ReadAll(Texts(explain, ReplyOf(SendInt, keys)))
      == Some([Number(if |keys| == 1 then keys[0].ival else keys[0].ival + keys[1].ival)])
  {
    var rs := ReplyOf(SendInt, keys);
    RepliesReadBack(explain, rs);
    OneOrNone(explain, rs);
    hide ReadAll, Texts, Meanings;
    if |keys| == 2 {
      assert keys == [keys[0], keys[1]];
      TwoKeys(keys[0], keys[1]);
    } else {
      assert keys[1..] == [] && Sum(keys) == keys[0].ival + Sum([]);
    }
  }

  /** A command that has ended has sent nothing, or one value that a client can read. */
  lemma EndIsTold(explain: Explain, cmd: Command, r: Run, ds: seq<nat>)
    requires Accounted(cmd, r, ds) && Halted(r) && forall i :: 0 <= i < |r.strm| ==> Explained(explain, r.strm[i])
    ensures var told := ReadAll(Texts(explain, r.strm)); told.Some? && |told.value| == |r.strm| <= 1
  {
    EndedMeans(cmd, r, ds);
    hide Accounted, ReadAll, Texts, Explained;
    RepliesReadBack(explain, r.strm);
  }

  // ---------------------------------------------------------------- whole commands

  /** What a client reads in answer to GET. */
  method AnswerGet(explain: Explain, store: Store, name: bytes) returns (text: bytes)
    requires IsText(explain(BadType))
    ensures name !in store ==> ReadAll(text) == Some([Nil])
    ensures name in store && store[name].typ == STRING ==> ReadAll(text) == Some([Str(store[name].data)])
    ensures name in store && store[name].typ != STRING ==> ReadAll(text) == Some([Fault(explain(BadType))])
  {
    var after, strm := GetKey(store, name);
    text := Texts(explain, strm);
    RepliesReadBack(explain, strm);
    OneOrNone(explain, strm);
    hide ReadAll, Texts, Meanings;
  }

  /** What a client reads in answer to MGET: for each name the string of that name, or nil. */
  method AnswerMGet(explain: Explain, store: Store, names: seq<bytes>) returns (text: bytes, ghost items: seq<Resp>)
    requires names != []
    ensures ReadAll(text) == Some([List(items)]) && |items| == |names|
    ensures forall i :: 0 <= i < |names| ==>
      items[i] == if names[i] in store && store[names[i]].typ == STRING then Str(store[names[i]].data) else Nil
  {
    var after, strm := MGetKeys(store, names);
    text := Texts(explain, strm);
    RepliesReadBack(explain, strm);
    OneOrNone(explain, strm);
    hide ReadAll, Texts, Meanings;
    items := ItemsMean(strm[0].items);
    MGetItems(store, names, strm, items);
  }

  lemma MGetItems(store: Store, names: seq<bytes>, strm: seq<Reply>, items: seq<Resp>)
    requires MGetAnswers(store, names, store, strm) && items == ItemsMean(strm[0].items)
    ensures |items| == |names| && forall i :: 0 <= i < |names| ==>
      items[i] == if names[i] in store && store[names[i]].typ == STRING then Str(store[names[i]].data) else Nil
  {
    forall i | 0 <= i < |names|
      ensures items[i] == if names[i] in store && store[names[i]].typ == STRING then Str(store[names[i]].data) else Nil
    {
      var v := strm[0].items[i];
      if v.Some? { assert names[i] in store && store[names[i]] == Val(v.value, STRING); }
      if names[i] in store && store[names[i]].typ == STRING { assert store[names[i]] == Val(store[names[i]].data, STRING); }
    }
  }

  /** What a client reads in answer to DEL: how many of the names were there. */
  method AnswerDel(explain: Explain, store: Store, names: seq<bytes>) returns (text: bytes, store': Store)
    requires names != []
    ensures ReadAll(text) == Some([Number(|set k | k in names && k in store|)])
    ensures store'.Keys == store.Keys - (set k | k in names) && forall k :: k in store' ==> store'[k] == store[k]
  {
    var strm;
    store', strm := DelKeys(store, names);
    text := Texts(explain, strm);
    RepliesReadBack(explain, strm);
    OneOrNone(explain, strm);
    hide ReadAll, Texts, Meanings;
  }
}
