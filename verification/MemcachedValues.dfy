/** Writing and reading the replies of GET and GETS (src/memcached_exec.cpp:262-301, 514-591, 1641-1683
    and 1734-1761): what is written for the keys that were found is read back item by item. */
module MemcachedValues {

  import opened Common
  import opened Bytes
  import opened MemcachedMsg

  /** Printing numbers is not part of the repository either. */
  type Writer = nat -> bytes

  /** A value as it is sent: its key and flags, and its serial number if that is asked for, or 0. */
  datatype Item = Item(key: bytes, flags: nat, data: bytes, cas: nat)

  /** What a reply line starts with; the results without arguments are told apart by it alone. */
  datatype Result =
    | IsInt | IsOk | IsEnd | NotFound | NotStored | Deleted | Stored | Value | Touched | Exists | ErrorResult
    | ClientError | ServerError | Busy | BadClass | NoSpare | NotFull | Unsafe | Same | Stat | VersionResult | NoResult

  /** What reading a reply yields. */
  datatype Reply = Got(item: Item, n: nat) | Simple(result: Result, n: nat) | Integer(v: nat, n: nat) | Bad(n: nat) | More

  // ---------------------------------------------------------------- writing

  /** The line before the data. */
  function ValueLine(show: Writer, item: Item): bytes {
    Ascii("VALUE") + [SPACE] + item.key + [SPACE] + show(item.flags) + [SPACE] + show(|item.data|)
    + if item.cas != 0 then [SPACE] + show(item.cas) else []
  }

  function Written(show: Writer, item: Item): bytes {
    ValueLine(show, item) + EOL + item.data + EOL
  }

  const END: bytes := Ascii("END") + EOL

  /** format_value. */
  method FormatValue(show: Writer, item: Item, isEnd: bool) returns (str: bytes)
    ensures str == Written(show, item) + if isEnd then END else []
  {
    str := Ascii("VALUE");
    str := str + [SPACE];
    str := str + item.key;
    str := str + [SPACE];
    str := str + show(item.flags);
    str := str + [SPACE];
    str := str + show(|item.data|);
    if item.cas != 0 {
      str := str + [SPACE];
      str := str + show(item.cas);
    }
    assert str == ValueLine(show, item);
    str := str + EOL;
    str := str + item.data;
    if isEnd {
      str := str + EOL;
      str := str + Ascii("END");
    }
    str := str + EOL;
  }

  /** What the keys that were found have saved, in the order of the keys, and the end. */
  function Sent(show: Writer, parts: seq<Option<Item>>): bytes {
    if parts == [] then END
    else (if parts[0].Some? then Written(show, parts[0].value) else []) + Sent(show, parts[1..])
  }

  /** multi_get_send. */
  method MultiGetSend(show: Writer, parts: seq<Option<Item>>) returns (strm: bytes)
    ensures strm == Sent(show, parts)
  {
    hide Written, END, Sent;
    strm := [];
    var i := 0;
    assert parts[0..] == parts;
    while i < |parts|
      invariant i <= |parts| && strm + Sent(show, parts[i..]) == Sent(show, parts)
    {
      SentStep(show, parts, i);
      if parts[i].Some? {
        var part := FormatValue(show, parts[i].value, false);
        strm := strm + part;
      }
      i := i + 1;
    }
    SentStep(show, parts, i);
    strm := strm + END;
  }

  lemma SentStep(show: Writer, parts: seq<Option<Item>>, i: nat)
    requires i <= |parts|
    ensures i == |parts| ==> Sent(show, parts[i..]) == END
    ensures i < |parts| ==>
      Sent(show, parts[i..]) == (if parts[i].Some? then Written(show, parts[i].value) else []) + Sent(show, parts[i + 1..])
  {
  }

  // ---------------------------------------------------------------- reading

  /** str_to_result: mostly the first four characters decide. */
  function StrToResult(s: bytes): Result {
    if |s| > 0 && 48 <= s[0] < 128 && (|s| == 1 || s[1] <= 57 || s[1] >= 128) then IsInt
    else if |s| < 4 then
      if |s| == 2 && IsShort(s, "OK") then IsOk else if |s| == 3 && IsShort(s, "END") then IsEnd else NoResult
    else if IsKeyword(s, "NOT_") then if |s| > 4 && (s[4] == 70 || s[4] == 102) then NotFound else NotStored
    else if IsKeyword(s, "DELE") then Deleted else if IsKeyword(s, "STOR") then Stored
    else if IsKeyword(s, "VALU") then Value else if IsKeyword(s, "TOUC") then Touched
    else if IsKeyword(s, "EXIS") then Exists else if IsKeyword(s, "ERRO") then ErrorResult
    else if IsKeyword(s, "CLIE") then ClientError else if IsKeyword(s, "SERV") then ServerError
    else if IsKeyword(s, "BUSY") then Busy else if IsKeyword(s, "BADC") then BadClass
    else if IsKeyword(s, "NOSP") then NoSpare else if IsKeyword(s, "NOTF") then NotFull
    else if IsKeyword(s, "UNSA") then Unsafe else if IsKeyword(s, "SAME") then Same
    else if IsKeyword(s, "STAT") then Stat else if IsKeyword(s, "VERS") then VersionResult
    else NoResult
  }

  predicate IsShort(s: bytes, w: string)
    requires |s| == |w|
  {
    forall i :: 0 <= i < |w| ==> Mask(s[i] as int) == Mask(w[i] as int)
  }

  /** The arguments of a reply: what comes after the first space, from the fifth character on. */
  function ReplyArgs(s: bytes): seq<bytes>
    requires |s| >= 4
  {
    var t := s[4..];
    Words(t[WordEnd(t)..])
  }

  /** parse_value_result; with four arguments the last one's error hides the others'. */
  function ParseValue(num: Reader, args: seq<bytes>): Option<(nat, nat, nat)> {
    if |args| != 3 && |args| != 4 then None
    else
      var flags := GetU32(num, args[1]);
      var len := if flags.Num? then GetU64(num, args[2]) else flags;
      var cas := if |args| == 4 then GetU64(num, args[3]) else Num(0);
      if (if |args| == 4 then cas.Num? else len.Num?) then
        Some((if flags.Num? then flags.value else 0, if len.Num? then len.value else 0, if cas.Num? then cas.value else 0))
      else None
  }

  /** The reply whose line s ends before j. The length of a key is kept in 16 bits. */
  function UnpackValue(num: Reader, s: bytes, buf: bytes, j: nat): (r: Reply)
    requires |s| >= 4 && 0 < j <= |buf|
    ensures r.Got? ==> 0 < r.n <= |buf|
  {
    var args := ReplyArgs(s);
    var v := ParseValue(num, args);
    if v.None? then Bad(j)
    else
      var len := v.value.1;
      if j + len + 2 > |buf| then More
      else Got(Item(args[0][..|args[0]| % 65536], v.value.0, buf[j..j + len], v.value.2), j + len + 2)
  }

  /** MemcachedRes::unpack: the first reply of a buffer. */
  function UnpackReply(num: Reader, buf: bytes): (r: Reply)
    ensures r.Got? ==> 0 < r.n <= |buf|
  {
    var e := Eol(buf);
    if e == |buf| then More
    else
      var s, j := TrimCr(buf[..e]), e + 1;
      var k := StrToResult(s);
      if k.NoResult? then Bad(j)
      else if k.Value? then UnpackValue(num, s, buf, j)
      else if k.IsInt? then var v := GetU64(num, s); if v.Num? then Integer(v.value, j) else Bad(j)
      else Simple(k, j)
  }

  // ---------------------------------------------------------------- the round trip

  /** Numbers are printed as text without spaces and line ends, and read back. */
  ghost predicate Inverse(show: Writer, num: Reader) {
    forall n: nat :: IsWord(show(n)) && num(show(n)) == Num(n)
  }

  predicate IsWord(w: bytes) {
    w != [] && forall i :: 0 <= i < |w| ==> w[i] > SPACE
  }

  predicate Sendable(item: Item) {
    && IsWord(item.key) && |item.key| < 65536
    && item.flags < 0x1_0000_0000 && |item.data| < 0x1_0000_0000_0000_0000 && item.cas < 0x1_0000_0000_0000_0000
  }

  function Fields(show: Writer, item: Item): seq<bytes> {
    [item.key, show(item.flags), show(|item.data|)] + if item.cas != 0 then [show(item.cas)] else []
  }

  /** Words joined by one space each are read as those words. */
  function Joined(ws: seq<bytes>): bytes {
    if ws == [] then [] else [SPACE] + ws[0] + Joined(ws[1..])
  }

  lemma {:induction false} WordsOfJoined(ws: seq<bytes>)
    requires forall i :: 0 <= i < |ws| ==> IsWord(ws[i])
    ensures Words(Joined(ws)) == ws
  {
    if ws != [] {
      var s, tail := Joined(ws), Joined(ws[1..]);
      assert s == [SPACE] + (ws[0] + tail);
      DropSpacesIs(s, 1);
      assert s[1..] == ws[0] + tail;
      WordEndIs(ws[0] + tail, |ws[0]|);
      assert (ws[0] + tail)[..|ws[0]|] == ws[0] && (ws[0] + tail)[|ws[0]|..] == tail;
      WordsOfJoined(ws[1..]);
    }
  }

  lemma LineIsJoined(show: Writer, item: Item)
    ensures ValueLine(show, item) == Ascii("VALUE") + Joined(Fields(show, item))
  {
    var a, b, c, d := item.key, show(item.flags), show(|item.data|), show(item.cas);
    if item.cas != 0 {
      JoinFour(a, b, c, d);
      assert Fields(show, item) == [a, b, c, d];
    } else {
      JoinThree(a, b, c);
      assert Fields(show, item) == [a, b, c];
    }
  }

  lemma JoinThree(a: bytes, b: bytes, c: bytes)
    ensures Joined([a, b, c]) == [SPACE] + a + [SPACE] + b + [SPACE] + c
  {
    assert [a, b, c][1..] == [b, c] && [b, c][1..] == [c] && [c][1..] == [];
    assert Joined([c]) == [SPACE] + c + Joined([]);
    assert Joined([b, c]) == [SPACE] + b + Joined([c]);
  }

  lemma JoinFour(a: bytes, b: bytes, c: bytes, d: bytes)
    ensures Joined([a, b, c, d]) == [SPACE] + a + [SPACE] + b + [SPACE] + c + [SPACE] + d
  {
    assert [a, b, c, d][1..] == [b, c, d];
    JoinThree(b, c, d);
    assert Joined([a, b, c, d]) == [SPACE] + a + Joined([b, c, d]);
  }

  lemma {:induction false} JoinedIsText(ws: seq<bytes>)
    requires forall i :: 0 <= i < |ws| ==> IsWord(ws[i])
    ensures forall i :: 0 <= i < |Joined(ws)| ==> Joined(ws)[i] >= SPACE
  {
    if ws != [] {
      JoinedIsText(ws[1..]);
    }
  }

  lemma FieldsAreWords(show: Writer, num: Reader, item: Item)
    requires Inverse(show, num) && Sendable(item)
    ensures forall i :: 0 <= i < |Fields(show, item)| ==> IsWord(Fields(show, item)[i])
  {
  }

  /** The line of a value: text which is taken for a value, and its arguments. */
  lemma ReadsLine(show: Writer, num: Reader, item: Item)
    requires Inverse(show, num) && Sendable(item)
    ensures var s := ValueLine(show, item);
            && |s| > 5 && (forall i :: 0 <= i < |s| ==> s[i] != LF)
            && StrToResult(s) == Value && ReplyArgs(s) == Fields(show, item)
  {
    FieldsAreWords(show, num, item);
    LineIsJoined(show, item);
    var ws := Fields(show, item);
    assert ws != [];
    hide ValueLine, Inverse, Sendable, IsWord, Fields, Words, ReplyArgs, StrToResult;
    JoinedIsText(ws);
    WordsOfJoined(ws);
    ReadsText(Joined(ws));
  }

  lemma ReadsText(js: bytes)
    requires js != [] && js[0] == SPACE && forall i :: 0 <= i < |js| ==> js[i] >= SPACE
    ensures var s := Ascii("VALUE") + js;
            && |s| > 5 && (forall i :: 0 <= i < |s| ==> s[i] != LF)
            && StrToResult(s) == Value && ReplyArgs(s) == Words(js)
  {
  }

  lemma ReadsFields(show: Writer, num: Reader, item: Item)
    requires Inverse(show, num) && Sendable(item)
    ensures ParseValue(num, Fields(show, item)) == Some((item.flags, |item.data|, item.cas))
    ensures Fields(show, item)[0] == item.key
  {
  }

  /** Whatever the data, an item is read back as it was, and no more than the item is consumed. */
  lemma ItemReadBack(show: Writer, num: Reader, item: Item, rest: bytes)
    requires Inverse(show, num) && Sendable(item)
    ensures UnpackReply(num, Written(show, item) + rest) == Got(item, |Written(show, item)|)
  {
    ReadsLine(show, num, item);
    ReadsFields(show, num, item);
    var s := ValueLine(show, item);
    hide ValueLine, ReplyArgs, StrToResult, ParseValue, Fields, Inverse, UnpackReply, UnpackValue;
    WrittenParts(s, item.data, rest);
    assert Written(show, item) == s + EOL + item.data + EOL;
    ValueAhead(num, s, item.data + EOL + rest);
    ValueIs(num, s, item, rest);
  }

  lemma WrittenParts(s: bytes, d: bytes, rest: bytes)
    ensures s + EOL + d + EOL + rest == s + EOL + (d + EOL + rest)
  {
  }

  lemma ValueIs(num: Reader, s: bytes, item: Item, rest: bytes)
    requires |s| >= 4 && ReplyArgs(s) != [] && ReplyArgs(s)[0] == item.key && |item.key| < 65536
    requires ParseValue(num, ReplyArgs(s)) == Some((item.flags, |item.data|, item.cas))
    ensures UnpackValue(num, s, s + EOL + (item.data + EOL + rest), |s| + 2) == Got(item, |s| + 2 + |item.data| + 2)
  {
  }

  lemma ValueAhead(num: Reader, s: bytes, rest: bytes)
    requires |s| >= 4 && (forall i :: 0 <= i < |s| ==> s[i] != LF) && StrToResult(s) == Value
    ensures UnpackReply(num, s + EOL + rest) == UnpackValue(num, s, s + EOL + rest, |s| + 2)
  {
    hide StrToResult, UnpackValue, Eol, TrimCr;
    LineAhead(s, rest);
  }

  lemma LineAhead(s: bytes, rest: bytes)
    requires forall i :: 0 <= i < |s| ==> s[i] != LF
    ensures var buf := s + EOL + rest; Eol(buf) == |s| + 1 && TrimCr(buf[..|s| + 1]) == s
  {
    var buf, e := s + EOL + rest, |s| + 1;
    assert buf[e] == LF && forall i :: 0 <= i < e ==> buf[i] != LF;
    EolIs(buf, e);
    assert buf[..e] == s + [CR];
  }

  /** An item of which not everything has arrived is not read. */
  lemma ItemNotComplete(show: Writer, num: Reader, item: Item, k: nat)
    requires Inverse(show, num) && Sendable(item) && k < |Written(show, item)|
    ensures UnpackReply(num, Written(show, item)[..k]) == More
  {
    ReadsLine(show, num, item);
    ReadsFields(show, num, item);
    var s := ValueLine(show, item);
    hide ValueLine, ReplyArgs, StrToResult, ParseValue, Fields, Inverse;
    ValueNotComplete(num, s, item, k);
  }

  lemma ValueNotComplete(num: Reader, s: bytes, item: Item, k: nat)
    requires |s| >= 4 && (forall i :: 0 <= i < |s| ==> s[i] != LF) && StrToResult(s) == Value && ReplyArgs(s) != []
    requires ParseValue(num, ReplyArgs(s)) == Some((item.flags, |item.data|, item.cas))
    requires k < |s| + 2 + |item.data| + 2
    ensures UnpackReply(num, (s + EOL + item.data + EOL)[..k]) == More
  {
    hide StrToResult, ReplyArgs, ParseValue;
    var buf, rest := (s + EOL + item.data + EOL)[..k], item.data + EOL;
    if k < |s| + 2 {
      forall i | 0 <= i < k ensures buf[i] != LF {
        assert i < |s| ==> buf[i] == s[i];
        assert i == |s| ==> buf[i] == CR;
      }
      EolIs(buf, k);
    } else {
      assert buf == s + EOL + rest[..k - |s| - 2];
      LineAhead(s, rest[..k - |s| - 2]);
    }
  }

  /** Reads values until something else comes. */
  function ReadValues(num: Reader, buf: bytes): (seq<Item>, bool, bytes)
    decreases |buf|
  {
    match UnpackReply(num, buf)
    case Got(item, n) => var t := ReadValues(num, buf[n..]); ([item] + t.0, t.1, t.2)
    case Simple(k, n) => if k.IsEnd? && n <= |buf| then ([], true, buf[n..]) else ([], false, buf)
    case _ => ([], false, buf)
  }

  function Found(parts: seq<Option<Item>>): seq<Item> {
    if parts == [] then [] else (if parts[0].Some? then [parts[0].value] else []) + Found(parts[1..])
  }

  lemma EndReadBack(num: Reader, rest: bytes)
    ensures UnpackReply(num, END + rest) == Simple(IsEnd, |END|)
  {
    var s := Ascii("END");
    assert s == [69, 78, 68];
    assert END + rest == s + EOL + rest;
    LineAhead(s, rest);
    assert IsShort(s, "END");
  }

  lemma ReadEnd(num: Reader, rest: bytes)
    ensures ReadValues(num, END + rest) == ([], true, rest)
  {
    EndReadBack(num, rest);
    hide UnpackReply;
    assert (END + rest)[|END|..] == rest;
  }

  lemma ReadOne(show: Writer, num: Reader, item: Item, rest: bytes)
    requires Inverse(show, num) && Sendable(item)
    ensures var t := ReadValues(num, rest); ReadValues(num, Written(show, item) + rest) == ([item] + t.0, t.1, t.2)
  {
    ItemReadBack(show, num, item, rest);
    hide Written, Inverse, Sendable, UnpackReply;
    assert (Written(show, item) + rest)[|Written(show, item)|..] == rest;
  }

  /** Main result: the reply to a read of several keys is read back as the keys that were found, in
      the order of the request, with their flags, data and serial numbers, and nothing is left. */
  lemma {:induction false} RepliesReadBack(show: Writer, num: Reader, parts: seq<Option<Item>>, rest: bytes)
    requires Inverse(show, num) && forall i :: 0 <= i < |parts| && parts[i].Some? ==> Sendable(parts[i].value)
    ensures ReadValues(num, Sent(show, parts) + rest) == (Found(parts), true, rest)
  {
    hide Written, Inverse, Sendable, UnpackReply;
    if parts == [] {
      ReadEnd(num, rest);
      assert Sent(show, parts) == END && Found(parts) == [];
    } else {
      RepliesReadBack(show, num, parts[1..], rest);
      var tail := Sent(show, parts[1..]);
      if parts[0].Some? {
        var w := Written(show, parts[0].value);
        ReadOne(show, num, parts[0].value, tail + rest);
        assert Sent(show, parts) + rest == w + (tail + rest);
      } else {
        assert Sent(show, parts) == tail && Found(parts) == Found(parts[1..]);
      }
    }
  }
}
