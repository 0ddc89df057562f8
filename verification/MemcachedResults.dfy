/** Reading the replies of memcached commands that are one line (src/memcached_exec.cpp:265-301 and
    514-572): every result is told from the others by the text that stands for it. */
module MemcachedResults {

  import opened Common
  import opened Bytes
  import opened MemcachedMsg
  import opened MemcachedValues
  import R = MemcachedRequests

  /** The results that are one line of text, perhaps with words after it. */
  predicate IsLine(k: Result) {
    !k.IsInt? && !k.Value? && !k.NoResult?
  }

  /** The text of a result in the protocol. */
  function Name(k: Result): string
    requires IsLine(k)
  {
    match k
    case IsOk => "OK" case IsEnd => "END" case NotFound => "NOT_FOUND" case NotStored => "NOT_STORED"
    case Deleted => "DELETED" case Stored => "STORED" case Touched => "TOUCHED" case Exists => "EXISTS"
    case ErrorResult => "ERROR" case ClientError => "CLIENT_ERROR" case ServerError => "SERVER_ERROR"
    case Busy => "BUSY" case BadClass => "BADCLASS" case NoSpare => "NOSPARE" case NotFull => "NOTFULL"
    case Unsafe => "UNSAFE" case Same => "SAME" case Stat => "STAT" case VersionResult => "VERSION"
  }

  lemma NameIsText(k: Result)
    requires IsLine(k)
    ensures |Name(k)| >= 2 && (|Name(k)| < 4 <==> k.IsOk? || k.IsEnd?)
    ensures forall i :: 0 <= i < |Name(k)| ==> 64 as char <= Name(k)[i] < 96 as char
  {
    match k
    case IsOk => case IsEnd => case NotFound => case NotStored => case Deleted => case Stored => case Touched =>
    case Exists => case ErrorResult => case ClientError => case ServerError => case Busy => case BadClass =>
    case NoSpare => case NotFull => case Unsafe => case Same => case Stat => case VersionResult =>
  }

  function Letters(k: Result): (w: string)
    requires IsLine(k)
    ensures |w| == 4
  {
    (Name(k) + "  ")[..4]
  }

  lemma StoreResult(s: bytes, k: Result)
    requires k.NotFound? || k.NotStored? || k.Deleted? || k.Stored? || k.Touched?
    requires R.Begins4(s, Letters(k)) && 57 < s[1] < 128
    requires k.NotFound? || k.NotStored? ==> |s| > 4 && s[4] == if k.NotFound? then 70 else 83
    ensures StrToResult(s) == k
  {
    R.KeywordsBegin(s);
    R.MaskIs();
    hide IsKeyword, Mask;
    match k
    case NotFound => case NotStored => case Deleted => case Stored => case Touched =>
  }

  lemma ErrorResults(s: bytes, k: Result)
    requires k.Exists? || k.ErrorResult? || k.ClientError? || k.ServerError?
    requires R.Begins4(s, Letters(k)) && 57 < s[1] < 128
    ensures StrToResult(s) == k
  {
    R.KeywordsBegin(s);
    R.MaskIs();
    hide IsKeyword, Mask;
    match k
    case Exists => case ErrorResult => case ClientError => case ServerError =>
  }

  lemma SlabResult(s: bytes, k: Result)
    requires k.Busy? || k.BadClass? || k.NoSpare? || k.NotFull?
    requires R.Begins4(s, Letters(k)) && 57 < s[1] < 128
    ensures StrToResult(s) == k
  {
    R.KeywordsBegin(s);
    R.MaskIs();
    hide IsKeyword, Mask;
    match k
    case Busy => case BadClass => case NoSpare => case NotFull =>
  }

  lemma OtherResult(s: bytes, k: Result)
    requires k.Unsafe? || k.Same? || k.Stat? || k.VersionResult?
    requires R.Begins4(s, Letters(k)) && 57 < s[1] < 128
    ensures StrToResult(s) == k
  {
    R.KeywordsBegin(s);
    R.MaskIs();
    hide IsKeyword, Mask;
    match k
    case Unsafe => case Same => case Stat => case VersionResult =>
  }

  lemma ShortResult(s: bytes, k: Result)
    requires (k.IsOk? && s == Ascii("OK")) || (k.IsEnd? && s == Ascii("END"))
    ensures StrToResult(s) == k
  {
    if k.IsOk? {
      assert s == [79, 75];
      assert IsShort(s, "OK");
    } else {
      assert s == [69, 78, 68];
      assert IsShort(s, "END");
    }
  }

  /** The line of a result, with words after the text. */
  function LineOf(k: Result, words: seq<bytes>): bytes
    requires IsLine(k)
  {
    NameIsText(k);
    Ascii(Name(k)) + Joined(words)
  }

  lemma LongLine(k: Result, tail: bytes)
    requires IsLine(k) && !k.IsOk? && !k.IsEnd? && forall i :: 0 <= i < |Name(k)| ==> Name(k)[i] < 128 as char
    ensures StrToResult(Ascii(Name(k)) + tail) == k
  {
    NameIsText(k);
    var s, w := Ascii(Name(k)) + tail, Name(k);
    assert forall i :: 0 <= i < |w| ==> s[i] as int == w[i] as int;
    assert R.Begins4(s, Letters(k)) && 57 < s[1] < 128 by { hide Name, Mask; }
    assert k.NotFound? || k.NotStored? ==> s[4] == if k.NotFound? then 70 else 83;
    hide R.Begins4, Letters, Name, StrToResult, Ascii;
    match k
    case NotFound | NotStored | Deleted | Stored | Touched => StoreResult(s, k);
    case Exists | ErrorResult | ClientError | ServerError => ErrorResults(s, k);
    case Busy | BadClass | NoSpare | NotFull => SlabResult(s, k);
    case _ => OtherResult(s, k);
  }

  lemma {:induction false} JoinedHasNoLineEnd(words: seq<bytes>)
    requires forall i :: 0 <= i < |words| ==> IsWord(words[i])
    ensures forall i :: 0 <= i < |Joined(words)| ==> Joined(words)[i] != LF
  {
    JoinedIsText(words);
  }

  lemma NameHasNoLineEnd(k: Result)
    requires IsLine(k) && forall i :: 0 <= i < |Name(k)| ==> Name(k)[i] < 128 as char
    ensures forall i :: 0 <= i < |Ascii(Name(k))| ==> Ascii(Name(k))[i] != LF
  {
    NameIsText(k);
    hide Name;
  }

  lemma LineIsRead(k: Result, words: seq<bytes>)
    requires IsLine(k) && (k.IsOk? || k.IsEnd? ==> words == []) && forall i :: 0 <= i < |words| ==> IsWord(words[i])
    ensures StrToResult(LineOf(k, words)) == k
    ensures forall i :: 0 <= i < |LineOf(k, words)| ==> LineOf(k, words)[i] != LF
  {
    NameIsText(k);
    NameHasNoLineEnd(k);
    JoinedHasNoLineEnd(words);
    hide StrToResult, Name, Ascii;
    if k.IsOk? || k.IsEnd? {
      assert LineOf(k, words) == Ascii(Name(k));
      ShortLine(k);
    } else {
      LongLine(k, Joined(words));
    }
  }

  lemma ShortLine(k: Result)
    requires k.IsOk? || k.IsEnd?
    ensures StrToResult(Ascii(Name(k))) == k
  {
    ShortResult(Ascii(Name(k)), k);
  }

  lemma SimpleAhead(num: Reader, s: bytes, k: Result, rest: bytes)
    requires (forall i :: 0 <= i < |s| ==> s[i] != LF) && StrToResult(s) == k && IsLine(k)
    ensures UnpackReply(num, s + EOL + rest) == Simple(k, |s| + 2)
  {
    hide StrToResult, Eol, TrimCr;
    LineAhead(s, rest);
  }

  /** Whatever comes after its line, a result is read as that result, and exactly its line is used up;
      OK and END have no words after them. */
  lemma ResultReadBack(num: Reader, k: Result, words: seq<bytes>, rest: bytes)
    requires IsLine(k) && (k.IsOk? || k.IsEnd? ==> words == []) && forall i :: 0 <= i < |words| ==> IsWord(words[i])
    ensures UnpackReply(num, LineOf(k, words) + EOL + rest) == Simple(k, |LineOf(k, words)| + 2)
  {
    hide StrToResult, LineOf, UnpackReply, IsWord;
    LineIsRead(k, words);
    SimpleAhead(num, LineOf(k, words), k, rest);
  }

  predicate Decimal(s: bytes) {
    s != [] && forall i :: 0 <= i < |s| ==> 48 <= s[i] <= 57
  }

  /** The number that answers INCR and DECR is read as that number. */
  lemma NumberReadBack(show: Writer, num: Reader, v: nat, rest: bytes)
    requires Inverse(show, num) && Decimal(show(v)) && v < 0x1_0000_0000_0000_0000
    ensures UnpackReply(num, show(v) + EOL + rest) == Integer(v, |show(v)| + 2)
  {
    var s := show(v);
    assert StrToResult(s) == IsInt;
    hide StrToResult, Eol, TrimCr;
    LineAhead(s, rest);
  }
}
