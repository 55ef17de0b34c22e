/** `updcrc` and its table (zip/misc.c:32-124) against the CRC-32 of section 8 of
    RFC 1952, computed one bit at a time. */
module Crc32 {

  const POLY: bv32 := 0xedb88320
  const ONES: bv32 := 0xffffffff

  // ----- the reference -----

  function Xor(a: bv32, b: bv32): (r: bv32)
  {
    a ^ b
  }

  function Shr1(c: bv32): (r: bv32)
  {
    c >> 1
  }

  predicate Odd(c: bv32)
  {
    c & 1 == 1
  }

  function FirstBit(b: bv8): (r: bv32)
  {
    (b & 1) as bv32
  }

  function Half(b: bv8): (r: bv8)
  {
    b >> 1
  }

  /** Feed one message bit into the shift register. */
  function FeedBit(c: bv32, bit: bv32): (r: bv32)
  {
    if Odd(Xor(c, bit)) then Xor(Shr1(c), POLY) else Shr1(c)
  }

  /** Feed the low `n` bits of `b`, the first one least significant. */
  function FeedBits(c: bv32, b: bv8, n: nat): (r: bv32)
    decreases n
  {
    if n == 0 then c else FeedBits(FeedBit(c, FirstBit(b)), Half(b), n - 1)
  }

  /** Feed a byte sequence. */
  function Feed(c: bv32, s: seq<bv8>): (r: bv32)
  {
    if |s| == 0 then c else FeedBits(Feed(c, s[..|s| - 1]), s[|s| - 1], 8)
  }

  function Invert(c: bv32): (r: bv32)
  {
    Xor(c, ONES)
  }

  /** The CRC-32 of a byte sequence. */
  function Crc(s: seq<bv8>): (r: bv32)
  {
    Invert(Feed(ONES, s))
  }

  /** The CRC-32 of the letter `a`. */
  lemma CrcOfA()
    ensures Crc([0x61]) == 0xe8b7be43
  {
    hide FeedBits, Feed;
    FeedLetter();
    assert Feed(ONES, [0x61]) == FeedBits(ONES, 0x61, 8) by {
      FeedOne(ONES, 0x61);
    }
  }

  lemma FeedOne(c: bv32, b: bv8)
    ensures Feed(c, [b]) == FeedBits(c, b, 8)
  {
    hide FeedBits;
    assert [b][..0] == [];
    assert Feed(c, []) == c;
  }

  lemma FeedLetter()
    ensures FeedBits(ONES, 0x61, 8) == 0x174841bc
  {
    hide FeedBits;
    BitsStep(0xffff_ffff, 0x61, 8);
    BitsStep(0x7fff_ffff, 0x30, 7);
    BitsStep(0xd247_7cdf, 0x18, 6);
    BitsStep(0x849b_3d4f, 0x0c, 5);
    BitsStep(0xaff5_1d87, 0x06, 4);
    BitsStep(0xba42_0de3, 0x03, 3);
    BitsStep(0x5d21_06f1, 0x01, 2);
    BitsStep(0x2e90_8378, 0x00, 1);
  }

  lemma BitsStep(c: bv32, b: bv8, n: nat)
    requires n > 0
    ensures FeedBits(c, b, n) == FeedBits(FeedBit(c, FirstBit(b)), Half(b), n - 1)
    ensures FeedBits(c, b, 0) == c && forall d, x :: FeedBits(d, x, 0) == d
  {
  }

  // ----- the table -----

  function Row0(j: bv8): (r: bv32)
  {
    if j < 4 then
      (if j == 0 then 0x00000000 else if j == 1 then 0x77073096 else if j == 2 then 0xee0e612c else 0x990951ba)
    else if j < 8 then
      (if j == 4 then 0x076dc419 else if j == 5 then 0x706af48f else if j == 6 then 0xe963a535 else 0x9e6495a3)
    else if j < 12 then
      (if j == 8 then 0x0edb8832 else if j == 9 then 0x79dcb8a4 else if j == 10 then 0xe0d5e91e else 0x97d2d988)
    else
      (if j == 12 then 0x09b64c2b else if j == 13 then 0x7eb17cbd else if j == 14 then 0xe7b82d07 else 0x90bf1d91)
  }

  function Row1(j: bv8): (r: bv32)
  {
    if j < 4 then
      (if j == 0 then 0x1db71064 else if j == 1 then 0x6ab020f2 else if j == 2 then 0xf3b97148 else 0x84be41de)
    else if j < 8 then
      (if j == 4 then 0x1adad47d else if j == 5 then 0x6ddde4eb else if j == 6 then 0xf4d4b551 else 0x83d385c7)
    else if j < 12 then
      (if j == 8 then 0x136c9856 else if j == 9 then 0x646ba8c0 else if j == 10 then 0xfd62f97a else 0x8a65c9ec)
    else
      (if j == 12 then 0x14015c4f else if j == 13 then 0x63066cd9 else if j == 14 then 0xfa0f3d63 else 0x8d080df5)
  }

  function Row2(j: bv8): (r: bv32)
  {
    if j < 4 then
      (if j == 0 then 0x3b6e20c8 else if j == 1 then 0x4c69105e else if j == 2 then 0xd56041e4 else 0xa2677172)
    else if j < 8 then
      (if j == 4 then 0x3c03e4d1 else if j == 5 then 0x4b04d447 else if j == 6 then 0xd20d85fd else 0xa50ab56b)
    else if j < 12 then
      (if j == 8 then 0x35b5a8fa else if j == 9 then 0x42b2986c else if j == 10 then 0xdbbbc9d6 else 0xacbcf940)
    else
      (if j == 12 then 0x32d86ce3 else if j == 13 then 0x45df5c75 else if j == 14 then 0xdcd60dcf else 0xabd13d59)
  }

  function Row3(j: bv8): (r: bv32)
  {
    if j < 4 then
      (if j == 0 then 0x26d930ac else if j == 1 then 0x51de003a else if j == 2 then 0xc8d75180 else 0xbfd06116)
    else if j < 8 then
      (if j == 4 then 0x21b4f4b5 else if j == 5 then 0x56b3c423 else if j == 6 then 0xcfba9599 else 0xb8bda50f)
    else if j < 12 then
      (if j == 8 then 0x2802b89e else if j == 9 then 0x5f058808 else if j == 10 then 0xc60cd9b2 else 0xb10be924)
    else
      (if j == 12 then 0x2f6f7c87 else if j == 13 then 0x58684c11 else if j == 14 then 0xc1611dab else 0xb6662d3d)
  }

  function Row4(j: bv8): (r: bv32)
  {
    if j < 4 then
      (if j == 0 then 0x76dc4190 else if j == 1 then 0x01db7106 else if j == 2 then 0x98d220bc else 0xefd5102a)
    else if j < 8 then
      (if j == 4 then 0x71b18589 else if j == 5 then 0x06b6b51f else if j == 6 then 0x9fbfe4a5 else 0xe8b8d433)
    else if j < 12 then
      (if j == 8 then 0x7807c9a2 else if j == 9 then 0x0f00f934 else if j == 10 then 0x9609a88e else 0xe10e9818)
    else
      (if j == 12 then 0x7f6a0dbb else if j == 13 then 0x086d3d2d else if j == 14 then 0x91646c97 else 0xe6635c01)
  }

  function Row5(j: bv8): (r: bv32)
  {
    if j < 4 then
      (if j == 0 then 0x6b6b51f4 else if j == 1 then 0x1c6c6162 else if j == 2 then 0x856530d8 else 0xf262004e)
    else if j < 8 then
      (if j == 4 then 0x6c0695ed else if j == 5 then 0x1b01a57b else if j == 6 then 0x8208f4c1 else 0xf50fc457)
    else if j < 12 then
      (if j == 8 then 0x65b0d9c6 else if j == 9 then 0x12b7e950 else if j == 10 then 0x8bbeb8ea else 0xfcb9887c)
    else
      (if j == 12 then 0x62dd1ddf else if j == 13 then 0x15da2d49 else if j == 14 then 0x8cd37cf3 else 0xfbd44c65)
  }

  function Row6(j: bv8): (r: bv32)
  {
    if j < 4 then
      (if j == 0 then 0x4db26158 else if j == 1 then 0x3ab551ce else if j == 2 then 0xa3bc0074 else 0xd4bb30e2)
    else if j < 8 then
      (if j == 4 then 0x4adfa541 else if j == 5 then 0x3dd895d7 else if j == 6 then 0xa4d1c46d else 0xd3d6f4fb)
    else if j < 12 then
      (if j == 8 then 0x4369e96a else if j == 9 then 0x346ed9fc else if j == 10 then 0xad678846 else 0xda60b8d0)
    else
      (if j == 12 then 0x44042d73 else if j == 13 then 0x33031de5 else if j == 14 then 0xaa0a4c5f else 0xdd0d7cc9)
  }

  function Row7(j: bv8): (r: bv32)
  {
    if j < 4 then
      (if j == 0 then 0x5005713c else if j == 1 then 0x270241aa else if j == 2 then 0xbe0b1010 else 0xc90c2086)
    else if j < 8 then
      (if j == 4 then 0x5768b525 else if j == 5 then 0x206f85b3 else if j == 6 then 0xb966d409 else 0xce61e49f)
    else if j < 12 then
      (if j == 8 then 0x5edef90e else if j == 9 then 0x29d9c998 else if j == 10 then 0xb0d09822 else 0xc7d7a8b4)
    else
      (if j == 12 then 0x59b33d17 else if j == 13 then 0x2eb40d81 else if j == 14 then 0xb7bd5c3b else 0xc0ba6cad)
  }

  function Row8(j: bv8): (r: bv32)
  {
    if j < 4 then
      (if j == 0 then 0xedb88320 else if j == 1 then 0x9abfb3b6 else if j == 2 then 0x03b6e20c else 0x74b1d29a)
    else if j < 8 then
      (if j == 4 then 0xead54739 else if j == 5 then 0x9dd277af else if j == 6 then 0x04db2615 else 0x73dc1683)
    else if j < 12 then
      (if j == 8 then 0xe3630b12 else if j == 9 then 0x94643b84 else if j == 10 then 0x0d6d6a3e else 0x7a6a5aa8)
    else
      (if j == 12 then 0xe40ecf0b else if j == 13 then 0x9309ff9d else if j == 14 then 0x0a00ae27 else 0x7d079eb1)
  }

  function Row9(j: bv8): (r: bv32)
  {
    if j < 4 then
      (if j == 0 then 0xf00f9344 else if j == 1 then 0x8708a3d2 else if j == 2 then 0x1e01f268 else 0x6906c2fe)
    else if j < 8 then
      (if j == 4 then 0xf762575d else if j == 5 then 0x806567cb else if j == 6 then 0x196c3671 else 0x6e6b06e7)
    else if j < 12 then
      (if j == 8 then 0xfed41b76 else if j == 9 then 0x89d32be0 else if j == 10 then 0x10da7a5a else 0x67dd4acc)
    else
      (if j == 12 then 0xf9b9df6f else if j == 13 then 0x8ebeeff9 else if j == 14 then 0x17b7be43 else 0x60b08ed5)
  }

  function RowA(j: bv8): (r: bv32)
  {
    if j < 4 then
      (if j == 0 then 0xd6d6a3e8 else if j == 1 then 0xa1d1937e else if j == 2 then 0x38d8c2c4 else 0x4fdff252)
    else if j < 8 then
      (if j == 4 then 0xd1bb67f1 else if j == 5 then 0xa6bc5767 else if j == 6 then 0x3fb506dd else 0x48b2364b)
    else if j < 12 then
      (if j == 8 then 0xd80d2bda else if j == 9 then 0xaf0a1b4c else if j == 10 then 0x36034af6 else 0x41047a60)
    else
      (if j == 12 then 0xdf60efc3 else if j == 13 then 0xa867df55 else if j == 14 then 0x316e8eef else 0x4669be79)
  }

  function RowB(j: bv8): (r: bv32)
  {
    if j < 4 then
      (if j == 0 then 0xcb61b38c else if j == 1 then 0xbc66831a else if j == 2 then 0x256fd2a0 else 0x5268e236)
    else if j < 8 then
      (if j == 4 then 0xcc0c7795 else if j == 5 then 0xbb0b4703 else if j == 6 then 0x220216b9 else 0x5505262f)
    else if j < 12 then
      (if j == 8 then 0xc5ba3bbe else if j == 9 then 0xb2bd0b28 else if j == 10 then 0x2bb45a92 else 0x5cb36a04)
    else
      (if j == 12 then 0xc2d7ffa7 else if j == 13 then 0xb5d0cf31 else if j == 14 then 0x2cd99e8b else 0x5bdeae1d)
  }

  function RowC(j: bv8): (r: bv32)
  {
    if j < 4 then
      (if j == 0 then 0x9b64c2b0 else if j == 1 then 0xec63f226 else if j == 2 then 0x756aa39c else 0x026d930a)
    else if j < 8 then
      (if j == 4 then 0x9c0906a9 else if j == 5 then 0xeb0e363f else if j == 6 then 0x72076785 else 0x05005713)
    else if j < 12 then
      (if j == 8 then 0x95bf4a82 else if j == 9 then 0xe2b87a14 else if j == 10 then 0x7bb12bae else 0x0cb61b38)
    else
      (if j == 12 then 0x92d28e9b else if j == 13 then 0xe5d5be0d else if j == 14 then 0x7cdcefb7 else 0x0bdbdf21)
  }

  function RowD(j: bv8): (r: bv32)
  {
    if j < 4 then
      (if j == 0 then 0x86d3d2d4 else if j == 1 then 0xf1d4e242 else if j == 2 then 0x68ddb3f8 else 0x1fda836e)
    else if j < 8 then
      (if j == 4 then 0x81be16cd else if j == 5 then 0xf6b9265b else if j == 6 then 0x6fb077e1 else 0x18b74777)
    else if j < 12 then
      (if j == 8 then 0x88085ae6 else if j == 9 then 0xff0f6a70 else if j == 10 then 0x66063bca else 0x11010b5c)
    else
      (if j == 12 then 0x8f659eff else if j == 13 then 0xf862ae69 else if j == 14 then 0x616bffd3 else 0x166ccf45)
  }

  function RowE(j: bv8): (r: bv32)
  {
    if j < 4 then
      (if j == 0 then 0xa00ae278 else if j == 1 then 0xd70dd2ee else if j == 2 then 0x4e048354 else 0x3903b3c2)
    else if j < 8 then
      (if j == 4 then 0xa7672661 else if j == 5 then 0xd06016f7 else if j == 6 then 0x4969474d else 0x3e6e77db)
    else if j < 12 then
      (if j == 8 then 0xaed16a4a else if j == 9 then 0xd9d65adc else if j == 10 then 0x40df0b66 else 0x37d83bf0)
    else
      (if j == 12 then 0xa9bcae53 else if j == 13 then 0xdebb9ec5 else if j == 14 then 0x47b2cf7f else 0x30b5ffe9)
  }

  function RowF(j: bv8): (r: bv32)
  {
    if j < 4 then
      (if j == 0 then 0xbdbdf21c else if j == 1 then 0xcabac28a else if j == 2 then 0x53b39330 else 0x24b4a3a6)
    else if j < 8 then
      (if j == 4 then 0xbad03605 else if j == 5 then 0xcdd70693 else if j == 6 then 0x54de5729 else 0x23d967bf)
    else if j < 12 then
      (if j == 8 then 0xb3667a2e else if j == 9 then 0xc4614ab8 else if j == 10 then 0x5d681b02 else 0x2a6f2b94)
    else
      (if j == 12 then 0xb40bbe37 else if j == 13 then 0xc30c8ea1 else if j == 14 then 0x5a05df1b else 0x2d02ef8d)
  }

  /** `crc_32_tab[x]`, the table in rows of sixteen. */
  function Table(x: bv8): (r: bv32)
  {
    var j := x & 15;
    match x >> 4
    case 0 => Row0(j)
    case 1 => Row1(j)
    case 2 => Row2(j)
    case 3 => Row3(j)
    case 4 => Row4(j)
    case 5 => Row5(j)
    case 6 => Row6(j)
    case 7 => Row7(j)
    case 8 => Row8(j)
    case 9 => Row9(j)
    case 10 => RowA(j)
    case 11 => RowB(j)
    case 12 => RowC(j)
    case 13 => RowD(j)
    case 14 => RowE(j)
    case _ => RowF(j)
  }

  /** The register after one more byte, as the loop body computes it. */
  function Advance(c: bv32, b: bv8): (r: bv32)
  {
    Xor(Table((Xor(c, b as bv32) & 0xff) as bv8), c >> 8)
  }

  // ----- stepping the register -----

  /** One step without input, and `n` of them. */
  function Step(c: bv32): (r: bv32)
  {
    if c & 1 == 1 then (c >> 1) ^ POLY else c >> 1
  }

  function Steps(c: bv32, n: nat): (r: bv32)
    decreases n
  {
    if n == 0 then c else Steps(Step(c), n - 1)
  }

  lemma StepsEight(c: bv32)
    ensures Steps(c, 8) == Step(Step(Step(Step(Step(Step(Step(Step(c))))))))
  {
    hide Step;
    assert Steps(c, 8) == Steps(Step(Step(c)), 6);
    assert Steps(Step(Step(c)), 6) == Steps(Step(Step(Step(Step(c)))), 4);
  }

  /** Every element of the table is eight steps of its index. */
  lemma TableIs(x: bv8)
    ensures Table(x) == Step(Step(Step(Step(Step(Step(Step(Step(x as bv32))))))))
  {
  }

  // ----- algebra of the operators -----

  lemma XorAssoc(a: bv32, b: bv32, c: bv32)
    ensures Xor(Xor(a, b), c) == Xor(a, Xor(b, c))
  {
  }

  lemma XorComm(a: bv32, b: bv32)
    ensures Xor(a, b) == Xor(b, a)
  {
  }

  lemma XorSelf(a: bv32)
    ensures Xor(a, a) == 0 && Xor(a, 0) == a
  {
  }

  lemma ShrXor(a: bv32, b: bv32)
    ensures Shr1(Xor(a, b)) == Xor(Shr1(a), Shr1(b))
  {
  }

  lemma OddXor(a: bv32, b: bv32)
    ensures Odd(Xor(a, b)) <==> Odd(a) != Odd(b)
  {
  }

  lemma ByteParts(b: bv8)
    ensures Half(b) as bv32 == Shr1(b as bv32) && FirstBit(b) <= 1 && (Odd(FirstBit(b)) <==> Odd(b as bv32))
  {
  }

  /** What a step mixes in. */
  function Mix(odd: bool): (r: bv32)
  {
    if odd then POLY else 0
  }

  lemma StepIsMix(c: bv32)
    ensures Step(c) == Xor(Shr1(c), Mix(Odd(c)))
  {
  }

  lemma XorSwap(a: bv32, b: bv32, c: bv32, d: bv32)
    ensures Xor(Xor(a, b), Xor(c, d)) == Xor(Xor(a, c), Xor(b, d))
  {
    hide Xor;
    XorAssoc(a, b, Xor(c, d));
    XorAssoc(b, c, d);
    XorComm(b, c);
    XorAssoc(c, b, d);
    XorAssoc(a, c, Xor(b, d));
  }

  lemma MixXor(p: bool, q: bool)
    ensures Mix(p != q) == Xor(Mix(p), Mix(q))
  {
    hide Xor;
    XorSelf(POLY);
    XorSelf(0);
    XorComm(0, POLY);
  }

  /** Stepping is linear. */
  lemma StepLinear(a: bv32, b: bv32)
    ensures Step(Xor(a, b)) == Xor(Step(a), Step(b))
  {
    hide Xor, Step, Shr1, Odd, Mix;
    StepIsMix(a);
    StepIsMix(b);
    StepIsMix(Xor(a, b));
    ShrXor(a, b);
    OddXor(a, b);
    MixXor(Odd(a), Odd(b));
    XorSwap(Shr1(a), Mix(Odd(a)), Shr1(b), Mix(Odd(b)));
  }

  lemma {:induction false} StepsLinear(a: bv32, b: bv32, n: nat)
    ensures Steps(Xor(a, b), n) == Xor(Steps(a, n), Steps(b, n))
    decreases n
  {
    hide Step, Xor;
    if n > 0 {
      StepLinear(a, b);
      StepsLinear(Step(a), Step(b), n - 1);
    }
  }

  lemma FeedIsStep(c: bv32, b: bv8)
    ensures Xor(FeedBit(c, FirstBit(b)), Half(b) as bv32) == Step(Xor(c, b as bv32))
  {
    hide Xor, Step, Shr1, Odd, Half, FirstBit;
    var w := b as bv32;
    ByteParts(b);
    OddXor(c, FirstBit(b));
    OddXor(c, w);
    StepIsMix(Xor(c, w));
    ShrXor(c, w);
    var m := Mix(Odd(Xor(c, w)));
    XorSelf(Shr1(c));
    XorAssoc(Shr1(c), Shr1(w), m);
    XorComm(Shr1(w), m);
    XorAssoc(Shr1(c), m, Shr1(w));
  }

  /** `b` has no bits from `n` on. */
  predicate Fits(b: bv8, n: nat)
  {
    if n == 0 then b == 0 else Fits(Half(b), n - 1)
  }

  lemma HalfStep(b: bv8, n: nat)
    requires Fits(Half(b), n)
    ensures Fits(b, n + 1)
  {
  }

  lemma EightFit(b: bv8)
    ensures Fits(b, 8)
  {
    hide Half;
    var b2 := Half(Half(b));
    var b4 := Half(Half(b2));
    var b6 := Half(Half(b4));
    EightHalves(b);
    assert Fits(Half(Half(b6)), 0);
    HalfStep(Half(b6), 0);
    HalfStep(b6, 1);
    HalfStep(Half(b4), 2);
    HalfStep(b4, 3);
    HalfStep(Half(b2), 4);
    HalfStep(b2, 5);
    HalfStep(Half(b), 6);
    HalfStep(b, 7);
  }

  lemma EightHalves(b: bv8)
    ensures Half(Half(Half(Half(Half(Half(Half(Half(b)))))))) == 0
  {
  }

  lemma XorNothing(c: bv32)
    ensures Xor(c, 0) == c
  {
  }

  /** Feeding bits is mixing them in and stepping. */
  lemma {:induction false} FeedIsSteps(c: bv32, b: bv8, n: nat)
    requires Fits(b, n)
    ensures FeedBits(c, b, n) == Steps(Xor(c, b as bv32), n)
    decreases n
  {
    hide FeedBit, Step, Xor, Half, FirstBit;
    if n == 0 {
      XorNothing(c);
    } else {
      FeedIsStep(c, b);
      FeedIsSteps(FeedBit(c, FirstBit(b)), Half(b), n - 1);
    }
  }

  /** The register without its low byte steps by shifting. */
  lemma HighSteps(c: bv32)
    ensures Steps(c & 0xffffff00, 8) == c >> 8
  {
    hide Step, Shr1, Odd;
    var h := c & 0xffffff00;
    var h2 := Shr1(Shr1(h));
    var h4 := Shr1(Shr1(h2));
    var h6 := Shr1(Shr1(h4));
    HighBits(c);
    StepEven(h);
    StepEven(Shr1(h));
    StepEven(h2);
    StepEven(Shr1(h2));
    StepEven(h4);
    StepEven(Shr1(h4));
    StepEven(h6);
    StepEven(Shr1(h6));
    StepsEight(h);
  }

  lemma StepEven(h: bv32)
    requires !Odd(h)
    ensures Step(h) == Shr1(h)
  {
  }

  lemma HighBits(c: bv32)
    ensures var h := c & 0xffffff00;
            var h2 := Shr1(Shr1(h));
            var h4 := Shr1(Shr1(h2));
            var h6 := Shr1(Shr1(h4));
            && !Odd(h) && !Odd(Shr1(h)) && !Odd(h2) && !Odd(Shr1(h2))
            && !Odd(h4) && !Odd(Shr1(h4)) && !Odd(h6) && !Odd(Shr1(h6))
            && Shr1(Shr1(h6)) == c >> 8
  {
  }

  lemma SplitByte(c: bv32)
    ensures c == Xor(c & 0xff, c & 0xffffff00) && ((c & 0xff) as bv8) as bv32 == c & 0xff
  {
  }

  /** The table turns eight steps into one lookup. */
  lemma LookupIsSteps(c: bv32)
    ensures Xor(Table((c & 0xff) as bv8), c >> 8) == Steps(c, 8)
  {
    hide Table, Steps, Xor, Step;
    TableIs((c & 0xff) as bv8);
    StepsEight(c & 0xff);
    SplitByte(c);
    StepsLinear(c & 0xff, c & 0xffffff00, 8);
    HighSteps(c);
  }

  lemma HighByte(c: bv32, b: bv8)
    ensures Xor(c, b as bv32) >> 8 == c >> 8
  {
  }

  /** The loop body feeds one byte. */
  lemma AdvanceFeeds(c: bv32, b: bv8)
    ensures Advance(c, b) == FeedBits(c, b, 8)
  {
    hide Table, Steps, FeedBits, Xor, Fits;
    EightFit(b);
    FeedIsSteps(c, b, 8);
    LookupIsSteps(Xor(c, b as bv32));
    HighByte(c, b);
  }

  /** Feeding in two goes. */
  lemma {:induction false} FeedConcat(c: bv32, a: seq<bv8>, b: seq<bv8>)
    ensures Feed(c, a + b) == Feed(Feed(c, a), b)
  {
    hide FeedBits;
    if |b| == 0 {
      assert a + b == a;
    } else {
      var n := |b| - 1;
      FeedConcat(c, a, b[..n]);
      assert (a + b)[..|a + b| - 1] == a + b[..n];
    }
  }

  // ----- updcrc -----

  class Register {
    /** The shift register, kept between calls. */
    var crc: bv32

    constructor ()
      ensures crc == ONES
    {
      crc := ONES;
    }

    /** `updcrc(NULL, 0)`. */
    method Reset()
      modifies this
      ensures crc == ONES
    {
      crc := ONES;
    }

    /** `updcrc(s, n)`: fold the bytes in; the result is the register inverted. */
    method Update(s: seq<bv8>) returns (r: bv32)
      modifies this
      ensures crc == Feed(old(crc), s) && r == Invert(crc)
    {
      hide FeedBits, Advance, Invert;
      var c := crc;
      var i := 0;
      while i < |s|
        invariant i <= |s| && c == Feed(old(crc), s[..i])
      {
        assert s[..i + 1][..i] == s[..i];
        AdvanceFeeds(c, s[i]);
        c := Advance(c, s[i]);
        i := i + 1;
      }
      assert s[..|s|] == s;
      crc := c;
      r := Invert(c);
    }
  }
}
