/** What the words, constants and byte orders of SHA-1 mean, apart from the definition and the program
    which share them, and the published digest of "abc" (section 7.3 of RFC 3174). */
module Sha1Meaning {

  import opened Sha1
  import opened Sha1Stream

  // ---------------------------------------------------------------- words and bytes

  /** S^n multiplies by 2^n and adds what has left the word at the top; in 64 bits nothing overflows. */
  lemma RotationMeans(x: word)
    ensures Rol1(x) as bv64 == (x as bv64 * 2) % 0x1_0000_0000 + x as bv64 / 0x8000_0000
    ensures Rol5(x) as bv64 == (x as bv64 * 0x20) % 0x1_0000_0000 + x as bv64 / 0x800_0000
    ensures Rol8(x) as bv64 == (x as bv64 * 0x100) % 0x1_0000_0000 + x as bv64 / 0x100_0000
    ensures Rol24(x) as bv64 == (x as bv64 * 0x100_0000) % 0x1_0000_0000 + x as bv64 / 0x100
    ensures Rol30(x) as bv64 == (x as bv64 * 0x4000_0000) % 0x1_0000_0000 + x as bv64 / 4
  {
    Rotates5(x);
    Rotates8(x);
    Rotates24(x);
    Rotates30(x);
    hide Rol5, Rol8, Rol24, Rol30;
  }

  lemma Rotates5(x: word)
    ensures Rol5(x) as bv64 == (x as bv64 * 0x20) % 0x1_0000_0000 + x as bv64 / 0x800_0000
  {
  }

  lemma Rotates8(x: word)
    ensures Rol8(x) as bv64 == (x as bv64 * 0x100) % 0x1_0000_0000 + x as bv64 / 0x100_0000
  {
  }

  lemma Rotates24(x: word)
    ensures Rol24(x) as bv64 == (x as bv64 * 0x100_0000) % 0x1_0000_0000 + x as bv64 / 0x100
  {
  }

  lemma Rotates30(x: word)
    ensures Rol30(x) as bv64 == (x as bv64 * 0x4000_0000) % 0x1_0000_0000 + x as bv64 / 4
  {
  }

  /** The constant of a round is the integer part of 2^30 times the square root of n. */
  predicate IsRoot(k: nat, n: nat) {
    k * k <= n * 0x1000_0000_0000_0000 < (k + 1) * (k + 1)
  }

  lemma ConstantsAreRoots(t: nat)
    requires t < 80
    ensures IsRoot(K(t) as nat, if t < 20 then 2 else if t < 40 then 3 else if t < 60 then 5 else 10)
  {
  }

  /** Four bytes read in base 256, the first one being the highest. */
  function Base256(b: seq<octet>): word
    requires |b| == 4
  {
    ((b[0] as word * 0x100 + b[1] as word) * 0x100 + b[2] as word) * 0x100 + b[3] as word
  }

  lemma BigEndianMeans(b: seq<octet>)
    requires |b| == 4
    ensures BigEndian(b[0], b[1], b[2], b[3]) == Base256(b)
  {
  }

  lemma RegBytesMeans(w: word)
    ensures Base256(RegBytes(w)) == w
  {
  }

  /** The digest is the five registers, read in base 256. */
  lemma DigestMeans(r: Regs)
    ensures var d := Digest(r);
            && |d| == 20
            && Base256(d[..4]) == r.a && Base256(d[4..8]) == r.b && Base256(d[8..12]) == r.c
            && Base256(d[12..16]) == r.d && Base256(d[16..]) == r.e
  {
    hide RegBytes, Base256;
    RegBytesMeans(r.a);
    RegBytesMeans(r.b);
    RegBytesMeans(r.c);
    RegBytesMeans(r.d);
    RegBytesMeans(r.e);
    var d := Digest(r);
    assert d[..4] == RegBytes(r.a) && d[4..8] == RegBytes(r.b) && d[8..12] == RegBytes(r.c);
    assert d[12..16] == RegBytes(r.d) && d[16..] == RegBytes(r.e);
  }

  /** n divided by 256 k times. */
  function Shifted(n: nat, k: nat): nat {
    if k == 0 then n else Shifted(n, k - 1) / 0x100
  }

  lemma ShiftedIs(n: nat)
    ensures Shifted(n, 0) == n && Shifted(n, 1) == n / 0x100 && Shifted(n, 2) == n / 0x1_0000 && Shifted(n, 3) == n / 0x100_0000
    ensures Shifted(n, 4) == n / TWO32
  {
    assert n / 0x100 / 0x100 == n / 0x1_0000 && n / 0x1_0000 / 0x100 == n / 0x100_0000 && n / 0x100_0000 / 0x100 == n / TWO32;
    assert Shifted(n, 1) == Shifted(n, 0) / 0x100;
    assert Shifted(n, 2) == Shifted(n, 1) / 0x100;
    assert Shifted(n, 3) == Shifted(n, 2) / 0x100;
  }

  lemma {:induction false} ShiftedTwice(n: nat, i: nat, j: nat)
    ensures Shifted(Shifted(n, i), j) == Shifted(n, i + j)
  {
    if j > 0 { ShiftedTwice(n, i, j - 1); }
  }

  function Octet(v: nat): octet
    requires v < 0x100
  {
    v as octet
  }

  /** The lowest byte of a number. */
  function Lowest(v: nat): octet {
    Octet(v % 0x100)
  }

  lemma BytesAre(x: nat)
    ensures ByteAt(x, 0) == Lowest(x / 0x100_0000) && ByteAt(x, 1) == Lowest(x / 0x1_0000)
    ensures ByteAt(x, 2) == Lowest(x / 0x100) && ByteAt(x, 3) == Lowest(x)
  {
  }

  lemma LowestSame(v: nat, w: nat, q: nat)
    requires w == q * 0x100 + v
    ensures Lowest(w) == Lowest(v)
  {
    hide Octet;
    assert w % 0x100 == v % 0x100;
  }

  /** Only the part below 2^32 matters to the four lowest bytes. */
  lemma LowBytes(n: nat)
    ensures var x := n % TWO32;
            && Lowest(x) == Lowest(n) && Lowest(x / 0x100) == Lowest(n / 0x100)
            && Lowest(x / 0x1_0000) == Lowest(n / 0x1_0000) && Lowest(x / 0x100_0000) == Lowest(n / 0x100_0000)
  {
    hide Lowest;
    var q, x := n / TWO32, n % TWO32;
    Parts(n, q, x);
    LowestSame(x, n, q * 0x100_0000);
    LowestSame(x / 0x100, n / 0x100, q * 0x1_0000);
    LowestSame(x / 0x1_0000, n / 0x1_0000, q * 0x100);
    LowestSame(x / 0x100_0000, n / 0x100_0000, q);
  }

  lemma Parts(n: nat, q: nat, x: nat)
    requires n == q * TWO32 + x
    ensures n / 0x100 == q * 0x100_0000 + x / 0x100
    ensures n / 0x1_0000 == q * 0x1_0000 + x / 0x1_0000
    ensures n / 0x100_0000 == q * 0x100 + x / 0x100_0000
  {
  }

  /** The bytes of the count of bits are its digits in base 256, the highest one first. */
  lemma LengthMeans(n: nat, k: nat)
    requires n < TWO32 * TWO32 && k < 8
    ensures LengthBytes(n)[7 - k] == Lowest(Shifted(n, k))
  {
    hide Lowest, ByteAt;
    BytesAre(n % TWO32);
    BytesAre(n / TWO32);
    LowBytes(n);
    ShiftedIs(n);
    ShiftedIs(n / TWO32);
    if k >= 4 { ShiftedTwice(n, 4, k - 4); }
    hide Shifted;
  }

  /** The initial registers: their bytes, the lowest one first, count up and down in hexadecimal digits. */
  lemma InitMeans()
    ensures forall i :: 0 <= i < 4 ==>
      && RegBytes(INIT.a)[3 - i] as nat == 0x01 + 0x22 * i && RegBytes(INIT.b)[3 - i] as nat == 0x89 + 0x22 * i
      && RegBytes(INIT.c)[3 - i] as nat == 0xFE - 0x22 * i && RegBytes(INIT.d)[3 - i] as nat == 0x76 - 0x22 * i
      && RegBytes(INIT.e)[3 - i] as nat == 0xF0 - 0x0F * i
  {
  }

  // ---------------------------------------------------------------- the published digest of "abc"

  /** The message schedule of the block of "abc". */
  function Word(t: nat): word
    requires t < 80
  {
    match t
    case 0 => 0x61626380 case 1 => 0x00000000 case 2 => 0x00000000 case 3 => 0x00000000 case 4 => 0x00000000
    case 5 => 0x00000000 case 6 => 0x00000000 case 7 => 0x00000000 case 8 => 0x00000000 case 9 => 0x00000000
    case 10 => 0x00000000 case 11 => 0x00000000 case 12 => 0x00000000 case 13 => 0x00000000 case 14 => 0x00000000
    case 15 => 0x00000018 case 16 => 0xC2C4C700 case 17 => 0x00000000 case 18 => 0x00000030 case 19 => 0x85898E01
    case 20 => 0x00000000 case 21 => 0x00000060 case 22 => 0x0B131C03 case 23 => 0x00000030 case 24 => 0x85898EC1
    case 25 => 0x16263806 case 26 => 0x00000000 case 27 => 0x00000180 case 28 => 0x2C4C700C case 29 => 0x000000F0
    case 30 => 0x93AFB507 case 31 => 0x5898E048 case 32 => 0x8E9A9202 case 33 => 0x00000600 case 34 => 0xB131C0F0
    case 35 => 0x16263BC6 case 36 => 0x4EBED41E case 37 => 0x626380A1 case 38 => 0x16263806 case 39 => 0x000018C0
    case 40 => 0xD2E138C4 case 41 => 0x00000F00 case 42 => 0x3AFB5079 case 43 => 0x898E04E5 case 44 => 0xE2BA3C2B
    case 45 => 0x000060C0 case 46 => 0x053A37CD case 47 => 0x74458547 case 48 => 0xDA9415ED case 49 => 0x26380A16
    case 50 => 0x626383A1 case 51 => 0x4EBF54DE case 52 => 0x3835B44B case 53 => 0x0000F600 case 54 => 0x1E84C7A3
    case 55 => 0x98E04D98 case 56 => 0x651D16A0 case 57 => 0x62658CA1 case 58 => 0x458544D6 case 59 => 0x44584CB7
    case 60 => 0x7BA06619 case 61 => 0x6380AEA2 case 62 => 0x0AE55269 case 63 => 0x627B49A1 case 64 => 0x7CD45C9D
    case 65 => 0x000F0000 case 66 => 0xFB50753A case 67 => 0xEC6765E8 case 68 => 0xBA3C2BE2 case 69 => 0x0060C000
    case 70 => 0x3A37CD05 case 71 => 0x458546F4 case 72 => 0xB8599DD6 case 73 => 0x380A1A26 case 74 => 0x01E02203
    case 75 => 0xE7CC3456 case 76 => 0xE6E60B69 case 77 => 0x00F60A00 case 78 => 0x5795EF4F case _ => 0x822E0879
  }

  /** The first registers of the 80 rounds, after the five initial ones, the last three of which are shifted. */
  function First(t: nat): word
    requires t < 85
  {
    match t
    case 0 => 0x0F4B87C3 case 1 => 0x40C951D8 case 2 => 0x62EB73FA case 3 => 0xEFCDAB89 case 4 => 0x67452301
    case 5 => 0x0116FC33 case 6 => 0x8990536D case 7 => 0xA1390F08 case 8 => 0xCDD8E11B case 9 => 0xCFD499DE
    case 10 => 0x3FC7CA40 case 11 => 0x993E30C1 case 12 => 0x9E8C07D4 case 13 => 0x4B6AE328 case 14 => 0x8351F929
    case 15 => 0xFBDA9E89 case 16 => 0x63188FE4 case 17 => 0x4607B664 case 18 => 0x9128F695 case 19 => 0x196BEE77
    case 20 => 0x20BDD62F case 21 => 0x4E925823 case 22 => 0x82AA6728 case 23 => 0xDC64901D case 24 => 0xFD9E1D7D
    case 25 => 0x1A37B0CA case 26 => 0x33A23BFC case 27 => 0x21283486 case 28 => 0xD541F12D case 29 => 0xC7567DC6
    case 30 => 0x48413BA4 case 31 => 0xBE35FBD5 case 32 => 0x4AA84D97 case 33 => 0x8370B52E case 34 => 0xC5FBAF5D
    case 35 => 0x1267B407 case 36 => 0x3B845D33 case 37 => 0x046FAA0A case 38 => 0x2C0EBC11 case 39 => 0x21796AD4
    case 40 => 0xDCBBB0CB case 41 => 0x0F511FD8 case 42 => 0xDC63973F case 43 => 0x4C986405 case 44 => 0x32DE1CBA
    case 45 => 0xFC87DEDF case 46 => 0x970A0D5C case 47 => 0x7F193DC5 case 48 => 0xEE1B1AAF case 49 => 0x40F28E09
    case 50 => 0x1C51E1F2 case 51 => 0xA01B846C case 52 => 0xBEAD02CA case 53 => 0xBAF39337 case 54 => 0x120731C5
    case 55 => 0x641DB2CE case 56 => 0x3847AD66 case 57 => 0xE490436D case 58 => 0x27E9F1D8 case 59 => 0x7B71F76D
    case 60 => 0x5E6456AF case 61 => 0xC846093F case 62 => 0xD262FF50 case 63 => 0x09D785FD case 64 => 0x3F52DE5A
    case 65 => 0xD756C147 case 66 => 0x548C9CB2 case 67 => 0xB66C020B case 68 => 0x6B61C9E1 case 69 => 0x19DFA7AC
    case 70 => 0x101655F9 case 71 => 0x0C3DF2B4 case 72 => 0x78DD4D2B case 73 => 0x497093C0 case 74 => 0x3F2588C2
    case 75 => 0xC199F8C7 case 76 => 0x39859DE7 case 77 => 0xEDB42DE4 case 78 => 0x11793F6F case 79 => 0x5EE76897
    case 80 => 0x63F7DAB7 case 81 => 0xA079B7D9 case 82 => 0x860D21CC case 83 => 0x5738D5E1 case _ => 0x42541B35
  }

  function At(t: nat): Regs
    requires t <= 80
  {
    Regs(First(t + 4), First(t + 3), Rol30(First(t + 2)), Rol30(First(t + 1)), Rol30(First(t)))
  }

  predicate IsNextWord(t: nat)
    requires 16 <= t < 80
  {
    Expand(Word(t - 3), Word(t - 8), Word(t - 14), Word(t - 16)) == Word(t)
  }

  predicate IsNextRound(t: nat)
    requires t < 80
  {
    First(t + 5) == Sum5(Rol5(First(t + 4)), F(t, First(t + 3), Rol30(First(t + 2)), Rol30(First(t + 1))),
                         Rol30(First(t)), Word(t), K(t))
  }

  lemma Words16(t: nat)
    requires 16 <= t < 48
    ensures IsNextWord(t)
  {
    match t {
      case 16 => case 17 => case 18 => case 19 => case 20 => case 21 => case 22 => case 23 => case 24 => case 25 =>
      case 26 => case 27 => case 28 => case 29 => case 30 => case 31 => case 32 => case 33 => case 34 => case 35 =>
      case 36 => case 37 => case 38 => case 39 => case 40 => case 41 => case 42 => case 43 => case 44 => case 45 =>
      case 46 => case 47 =>
    }
  }

  lemma Words48(t: nat)
    requires 48 <= t < 80
    ensures IsNextWord(t)
  {
    match t {
      case 48 => case 49 => case 50 => case 51 => case 52 => case 53 => case 54 => case 55 => case 56 => case 57 =>
      case 58 => case 59 => case 60 => case 61 => case 62 => case 63 => case 64 => case 65 => case 66 => case 67 =>
      case 68 => case 69 => case 70 => case 71 => case 72 => case 73 => case 74 => case 75 => case 76 => case 77 =>
      case 78 => case 79 =>
    }
  }

  lemma Rounds0(t: nat)
    requires 0 <= t < 20
    ensures IsNextRound(t)
  {
    match t {
      case 0 => case 1 => case 2 => case 3 => case 4 => case 5 => case 6 => case 7 => case 8 => case 9 =>
      case 10 => case 11 => case 12 => case 13 => case 14 => case 15 => case 16 => case 17 => case 18 => case 19 =>
    }
  }

  lemma Rounds20(t: nat)
    requires 20 <= t < 40
    ensures IsNextRound(t)
  {
    match t {
      case 20 => case 21 => case 22 => case 23 => case 24 => case 25 => case 26 => case 27 => case 28 => case 29 =>
      case 30 => case 31 => case 32 => case 33 => case 34 => case 35 => case 36 => case 37 => case 38 => case 39 =>
    }
  }

  lemma Rounds40(t: nat)
    requires 40 <= t < 60
    ensures IsNextRound(t)
  {
    match t {
      case 40 => case 41 => case 42 => case 43 => case 44 => case 45 => case 46 => case 47 => case 48 => case 49 =>
      case 50 => case 51 => case 52 => case 53 => case 54 => case 55 => case 56 => case 57 => case 58 => case 59 =>
    }
  }

  lemma Rounds60(t: nat)
    requires 60 <= t < 80
    ensures IsNextRound(t)
  {
    match t {
      case 60 => case 61 => case 62 => case 63 => case 64 => case 65 => case 66 => case 67 => case 68 => case 69 =>
      case 70 => case 71 => case 72 => case 73 => case 74 => case 75 => case 76 => case 77 => case 78 => case 79 =>
    }
  }

  lemma EachWord(t: nat)
    requires 16 <= t < 80
    ensures IsNextWord(t)
  {
    if t < 48 { Words16(t); } else { Words48(t); }
  }

  lemma EachRound(t: nat)
    requires 0 <= t < 80
    ensures IsNextRound(t)
  {
    if t < 20 { Rounds0(t); } else if t < 40 { Rounds20(t); } else
    if t < 60 { Rounds40(t); } else { Rounds60(t); }
  }

  const ABC: seq<octet> := [0x61, 0x62, 0x63]

  lemma LengthOfAbc()
    ensures LengthBytes(24) == [0, 0, 0, 0, 0, 0, 0, 0x18]
  {
    BytesAre(0);
    BytesAre(24);
    assert Lowest(0) == 0 && Lowest(24) == 0x18;
    hide ByteAt, Lowest;
    assert LengthBytes(24) == WordBytes(0) + WordBytes(24);
  }

  lemma AbcPadded()
    ensures Padded(ABC) == ABC + [0x80] + Zeros(59) + [0x18] && |Padded(ABC)| == 64
  {
    LengthOfAbc();
    hide LengthBytes;
    assert PadZeros(3) == 52;
    assert Zeros(52) + LengthBytes(24) == Zeros(59) + [0x18];
  }

  lemma FirstWords(t: nat)
    requires t < 16
    ensures |Padded(ABC)| == 64 && W(Padded(ABC), t) == Word(t)
  {
    AbcPadded();
    hide Padded;
    match t { case 0 => case 15 => case _ => }
  }

  lemma {:induction false} AbcWords(t: nat)
    requires t < 80 && |Padded(ABC)| == 64
    ensures W(Padded(ABC), t) == Word(t)
    decreases t
  {
    hide Padded, Expand, Word, BigEndian;
    if t < 16 {
      FirstWords(t);
    } else {
      AbcWords(t - 3);
      AbcWords(t - 8);
      AbcWords(t - 14);
      AbcWords(t - 16);
      EachWord(t);
    }
  }

  lemma {:induction false} AbcRounds(t: nat)
    requires t <= 80 && |Padded(ABC)| == 64
    ensures Rounds(INIT, Padded(ABC), t) == At(t)
    decreases t
  {
    hide Padded, W, Word;
    if t > 0 {
      hide First, Sum5, F, K, Rol5, Rol30;
      AbcRounds(t - 1);
      AbcWords(t - 1);
      EachRound(t - 1);
    }
  }

  lemma LastFirsts(t: nat)
    requires t == 80
    ensures First(t) == 0x63F7DAB7 && First(t + 1) == 0xA079B7D9 && First(t + 2) == 0x860D21CC
    ensures First(t + 3) == 0x5738D5E1 && First(t + 4) == 0x42541B35
  {
  }

  lemma LastShifts()
    ensures Rol30(0x63F7DAB7) == 0xD8FDF6AD && Rol30(0xA079B7D9) == 0x681E6DF6 && Rol30(0x860D21CC) == 0x21834873
  {
  }

  lemma LastFive(t: nat)
    requires t == 80
    ensures At(t) == Regs(0x42541B35, 0x5738D5E1, 0x21834873, 0x681E6DF6, 0xD8FDF6AD)
  {
    hide First, Rol30;
    LastFirsts(t);
    LastShifts();
  }

  lemma AbcEnd(r: Regs)
    requires r == Regs(0x42541B35, 0x5738D5E1, 0x21834873, 0x681E6DF6, 0xD8FDF6AD)
    ensures AddRegs(INIT, r) == Regs(0xA9993E36, 0x4706816A, 0xBA3E2571, 0x7850C26C, 0x9CD0D89D)
  {
  }

  /** The digest of "abc" is the published one. */
  lemma AbcDigest()
    ensures Digest(Fold(INIT, Padded(ABC))) == [
      0xA9, 0x99, 0x3E, 0x36, 0x47, 0x06, 0x81, 0x6A, 0xBA, 0x3E, 0x25, 0x71, 0x78, 0x50, 0xC2, 0x6C,
      0x9C, 0xD0, 0xD8, 0x9D]
  {
    AbcPadded();
    AbcRounds(80);
    LastFive(80);
    AbcEnd(At(80));
    hide Padded, Rounds, W, At;
    var b := Padded(ABC);
    assert b[..64] == b && b[64..] == [];
    assert Fold(INIT, b) == Compress(INIT, b);
  }

  /** So it is what the program returns. */
  method Sha1OfAbc() returns (digest: seq<octet>)
    ensures digest == [
      0xA9, 0x99, 0x3E, 0x36, 0x47, 0x06, 0x81, 0x6A, 0xBA, 0x3E, 0x25, 0x71, 0x78, 0x50, 0xC2, 0x6C,
      0x9C, 0xD0, 0xD8, 0x9D]
  {
    AbcDigest();
    digest := SHA1(ABC);
  }
}
