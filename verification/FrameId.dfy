/** Stack-frame identifiers.

    `create_frame_id` folds a thread id and a frame number into a 32-bit
    FNV-1a style hash, keeps 31 bits and remaps 0 to 1; `register_frames` then
    uses the result as a map key.  Words are integers below 2^32 with the
    wrap-around of the multiplication written out; a thread id is the 32-bit
    pattern that the source's cast to an unsigned word produces. */
module FrameId {

  // The literals: 16777619 is the FNV prime, 2166136261 its offset basis,
  // 0x1_0000_0000 the size of a word, and 0x8000_0000 one past the largest
  // `int`, so that `hash & INT_MAX` is reduction modulo 0x8000_0000.

  type Word = w: int | 0 <= w < 0x1_0000_0000
  type Octet = o: int | 0 <= o < 256

  /** Exclusive or, bit by bit. */
  function Xor(a: nat, b: nat): nat
    decreases a + b
  {
    if a == 0 && b == 0 then 0 else 2 * Xor(a / 2, b / 2) + (if a % 2 == b % 2 then 0 else 1)
  }

  /** `hash ^ octet`: only the low octet changes. */
  function XorOctet(hash: Word, octet: Octet): Word {
    XorOctetBound(hash % 256, octet);
    hash / 256 * 256 + Xor(hash % 256, octet)
  }

  /** One multiplication by the prime, wrapped to 32 bits. */
  function Times(hash: Word): Word {
    hash * 16777619 % 0x1_0000_0000
  }

  /** The octets of a word, least significant first. */
  function Octets(value: Word): (o: seq<Octet>)
    ensures |o| == 4
  {
    [value % 256, value / 0x100 % 256, value / 0x1_0000 % 256, value / 0x100_0000 % 256]
  }

  /** Folds octets into the hash, first to last. */
  function Fold(hash: Word, octets: seq<Octet>): Word {
    if octets == [] then hash
    else Times(XorOctet(Fold(hash, octets[..|octets| - 1]), octets[|octets| - 1]))
  }

  function Mix(hash: Word, value: Word): Word {
    Fold(hash, Octets(value))
  }

  /** Keeps a positive `int`: drop the top bit, then map 0 to 1. */
  function Finish(hash: Word): (id: nat)
    ensures 0 < id < 0x8000_0000
  {
    if hash % 0x8000_0000 == 0 then 1 else hash % 0x8000_0000
  }

  function Id(threadId: Word, frameNumber: Word): (id: nat)
    ensures 0 < id < 0x8000_0000
  {
    Finish(Mix(Mix(2166136261, threadId), frameNumber))
  }

  method CreateFrameId(threadId: Word, frameNumber: Word) returns (id: nat)
    ensures id == Id(threadId, frameNumber)
  {
    var hash := MixWord(2166136261, threadId);
    hash := MixWord(hash, frameNumber);
    id := hash % 0x8000_0000;
    if id == 0 {
      id := 1;
    }
  }

  method MixWord(seed: Word, value: Word) returns (hash: Word)
    ensures hash == Mix(seed, value)
  {
    var octets := Octets(value);
    hash := seed;
    for k := 0 to 4
      invariant hash == Fold(seed, octets[..k])
    {
      assert octets[..k + 1][..k] == octets[..k];
      hash := XorOctet(hash, octets[k]);
      hash := hash * 16777619 % 0x1_0000_0000;
    }
    assert octets[..4] == octets;
  }

  // ----- Exclusive or -----

  lemma {:induction false} XorBound(a: nat, b: nat, limit: nat)
    requires a < Pow2(limit) && b < Pow2(limit)
    ensures Xor(a, b) < Pow2(limit)
  {
    if limit > 0 {
      XorBound(a / 2, b / 2, limit - 1);
    }
  }

  function Pow2(n: nat): nat {
    if n == 0 then 1 else 2 * Pow2(n - 1)
  }

  lemma XorOctetBound(a: nat, b: nat)
    requires a < 256 && b < 256
    ensures Xor(a, b) < 256
  {
    assert Pow2(8) == 256;
    XorBound(a, b, 8);
  }

  lemma {:induction false} XorCancels(a: nat, b: nat, c: nat)
    requires Xor(a, b) == Xor(a, c)
    ensures b == c
    decreases a + b + c
  {
    if a + b + c > 0 {
      XorCancels(a / 2, b / 2, c / 2);
    }
  }

  lemma {:induction false} XorZero(a: nat)
    ensures Xor(a, 0) == a
  {
    if a > 0 {
      XorZero(a / 2);
    }
  }

  lemma {:induction false} XorCommutes(a: nat, b: nat)
    ensures Xor(a, b) == Xor(b, a)
    decreases a + b
  {
    if a + b > 0 {
      XorCommutes(a / 2, b / 2);
    }
  }

  /** q doubled k times. */
  function Doubled(q: nat, k: nat): nat {
    if k == 0 then q else 2 * Doubled(q, k - 1)
  }

  /** Exclusive or with a k-bit number leaves the bits above the k-th alone. */
  lemma {:induction false} XorSplits(q: nat, r: nat, o: nat, k: nat)
    requires r < Pow2(k) && o < Pow2(k)
    ensures Xor(Doubled(q, k) + r, o) == Doubled(q, k) + Xor(r, o)
    decreases k
  {
    hide Xor;
    if k == 0 {
      XorZero(q);
      XorZero(0);
    } else {
      XorSplits(q, r / 2, o / 2, k - 1);
      XorDoubled(Doubled(q, k - 1), r, o);
    }
  }

  lemma {:induction false} XorDoubled(m: nat, r: nat, o: nat)
    requires Xor(m + r / 2, o / 2) == m + Xor(r / 2, o / 2)
    ensures Xor(2 * m + r, o) == 2 * m + Xor(r, o)
  {
    assert (2 * m + r) / 2 == m + r / 2 && (2 * m + r) % 2 == r % 2;
    XorUnfold(2 * m + r, o);
    XorUnfold(r, o);
  }

  lemma {:induction false} XorUnfold(a: nat, b: nat)
    ensures Xor(a, b) == 2 * Xor(a / 2, b / 2) + (if a % 2 == b % 2 then 0 else 1)
  {
  }

  /** `XorOctet` is exclusive or of the whole word. */
  lemma {:induction false} XorOctetIsXor(hash: Word, octet: Octet)
    ensures XorOctet(hash, octet) == Xor(hash, octet)
  {
    var q := hash / 256;
    assert Pow2(8) == 256;
    assert Doubled(q, 1) == 2 * q;
    assert Doubled(q, 3) == 4 * Doubled(q, 1);
    assert Doubled(q, 5) == 4 * Doubled(q, 3);
    assert Doubled(q, 7) == 4 * Doubled(q, 5);
    XorSplits(q, hash % 256, octet, 8);
  }

  lemma OctetCancels(hash: Word, p: Octet, q: Octet)
    requires XorOctet(hash, p) == XorOctet(hash, q)
    ensures p == q
  {
    XorCancels(hash % 256, p, q);
  }

  /** A zero octet leaves the hash alone. */
  lemma OctetZero(hash: Word)
    ensures XorOctet(hash, 0) == hash
  {
    XorZero(hash % 256);
  }

  lemma OctetMovesNear(hash: Word, p: Octet)
    ensures XorOctet(hash, p) / 256 == hash / 256
    ensures -255 <= XorOctet(hash, p) - hash <= 255
  {
    XorOctetBound(hash % 256, p);
  }

  // ----- Multiplication modulo 2^31 -----

  predicate Congruent(a: int, b: int) {
    (a - b) % 0x8000_0000 == 0
  }

  /** The prime is odd, so a multiplication can be undone modulo 2^31. */
  lemma TimesIsInjective(a: Word, b: Word)
    requires Congruent(Times(a), Times(b))
    ensures Congruent(a, b)
  {
    var m := a * 16777619 / 0x1_0000_0000 - b * 16777619 / 0x1_0000_0000;
    var k := (Times(a) - Times(b)) / 0x8000_0000;
    InvertPrime(a - b, k + 2 * m);
  }

  /** 0x359c449b is the prime's inverse modulo 2^31. */
  lemma InvertPrime(d: int, t: int)
    requires d * 16777619 == 0x8000_0000 * t
    ensures d % 0x8000_0000 == 0
  {
    assert d == 0x8000_0000 * (t * 0x359c449b - 7026994 * d);
  }

  /** For a 16-bit frame number the two high octets are zero: three plain multiplications remain. */
  function Core(hash: Word, low: Octet, high: Octet): Word {
    XorOctet(Times(XorOctet(hash, low)), high)
  }

  function Cube(hash: Word): Word {
    Times(Times(Times(hash)))
  }

  lemma MixOfShortNumber(hash: Word, n: Word)
    requires n < 0x1_0000
    ensures Mix(hash, n) == Cube(Core(hash, n % 256, n / 256))
  {
    var o := Octets(n);
    assert o == [n % 256, n / 256, 0, 0];
    assert o[..3][..2] == o[..2] && o[..2][..1] == o[..1] && o[..1][..0] == [];
    assert Fold(hash, o[..1]) == Times(XorOctet(hash, n % 256));
    assert Fold(hash, o[..2]) == Times(Core(hash, n % 256, n / 256));
    OctetZero(Fold(hash, o[..2]));
    OctetZero(Fold(hash, o[..3]));
  }

  lemma CubeIsInjective(a: Word, b: Word)
    requires Congruent(Cube(a), Cube(b))
    ensures Congruent(a, b)
  {
    TimesIsInjective(Times(Times(a)), Times(Times(b)));
    TimesIsInjective(Times(a), Times(b));
    TimesIsInjective(a, b);
  }

  /** Three multiplications take 0 to 0, and only the residue 0x11c5be63 to 1. */
  lemma CubeLandmarks()
    ensures Cube(0) == 0 && Cube(0x11c5be63) == 0x8000_0001
  {
    assert Times(0x11c5be63) == 0x5d4ab5d9;
    assert Times(0x5d4ab5d9) == 0xb59c449b;
    assert Times(0xb59c449b) == 0x80000001;
  }

  /** The arithmetic core: no multiple of the prime by 1..255 comes within 510 of a multiple of 2^31,
      nor of a multiple of 2^31 plus the residue that ends at 1. */
  lemma NoSmallMultiple(k: int, e: int, w: int)
    requires -255 <= k <= 255 && -510 <= e <= 510
    ensures k * 16777619 + e == w * 0x8000_0000 ==> k == 0
    ensures k * 16777619 + e != w * 0x8000_0000 + 0x11c5be63
  {
    assert k * 16777619 + e == w * 0x8000_0000 ==> 403 * k + e == 0x100_0000 * (128 * w - k);
    assert k * 16777619 + e == w * 0x8000_0000 + 0x11c5be63 ==>
        403 * k + e == 0xc5be63 + 0x100_0000 * (128 * w + 0x11 - k);
  }

  /** How far apart two cores can be: `k` times the prime, give or take 510, modulo 2^31. */
  lemma CoreDistance(hash: Word, p: Octet, p': Octet, q: Octet, q': Octet) returns (k: int, e: int, w: int)
    ensures -255 <= k <= 255 && -510 <= e <= 510
    ensures Core(hash, p, p') - Core(hash, q, q') == k * 16777619 + e + w * 0x8000_0000
    ensures k == 0 ==> XorOctet(hash, p) == XorOctet(hash, q)
  {
    var x, y := XorOctet(hash, p), XorOctet(hash, q);
    k := NearEachOther(hash, p, q);
    e := 0;
    w := TimesDistance(x, y);
    OctetMovesNear(Times(x), p');
    OctetMovesNear(Times(y), q');
    e := (Core(hash, p, p') - Times(x)) - (Core(hash, q, q') - Times(y));
  }

  lemma NearEachOther(hash: Word, p: Octet, q: Octet) returns (k: int)
    ensures k == XorOctet(hash, p) - XorOctet(hash, q) && -255 <= k <= 255
  {
    k := XorOctet(hash, p) - XorOctet(hash, q);
    OctetMovesNear(hash, p);
    OctetMovesNear(hash, q);
  }

  lemma TimesDistance(x: Word, y: Word) returns (w: int)
    ensures Times(x) - Times(y) == (x - y) * 16777619 + w * 0x8000_0000
  {
    w := 2 * (y * 16777619 / 0x1_0000_0000 - x * 16777619 / 0x1_0000_0000);
  }

  lemma CongruentMultiple(a: int, b: int) returns (d: int)
    requires Congruent(a, b)
    ensures a - b == d * 0x8000_0000
  {
    d := (a - b) / 0x8000_0000;
  }

  lemma CoreIsInjective(hash: Word, p: Octet, p': Octet, q: Octet, q': Octet)
    requires Congruent(Core(hash, p, p'), Core(hash, q, q'))
    ensures p == q && p' == q'
  {
    var k, e, w := CoreDistance(hash, p, p', q, q');
    var d := CongruentMultiple(Core(hash, p, p'), Core(hash, q, q'));
    NoSmallMultiple(k, e, d - w);
    OctetCancels(hash, p, q);
    SameBase(Times(XorOctet(hash, p)), p', q');
  }

  lemma SameBase(hash: Word, p: Octet, q: Octet)
    requires Congruent(XorOctet(hash, p), XorOctet(hash, q))
    ensures p == q
  {
    OctetMovesNear(hash, p);
    OctetMovesNear(hash, q);
    OctetCancels(hash, p, q);
  }

  /** The remap of 0 to 1 adds no collision: no two cores of one thread reach 1 and 0. */
  lemma CoresMissRemap(hash: Word, p: Octet, p': Octet, q: Octet, q': Octet)
    ensures !(Congruent(Core(hash, p, p'), 0x11c5be63) && Congruent(Core(hash, q, q'), 0))
  {
    if Congruent(Core(hash, p, p'), 0x11c5be63) && Congruent(Core(hash, q, q'), 0) {
      var k, e, w := CoreDistance(hash, p, p', q, q');
      var c := CongruentMultiple(Core(hash, p, p'), 0x11c5be63);
      var d := CongruentMultiple(Core(hash, q, q'), 0);
      NoSmallMultiple(k, e, c - d - w);
    }
  }

  lemma CubesMissRemap(z: Word, w: Word)
    requires Cube(z) % 0x8000_0000 == 1 && Cube(w) % 0x8000_0000 == 0
    ensures Congruent(z, 0x11c5be63) && Congruent(w, 0)
  {
    CubeLandmarks();
    CubeIsInjective(z, 0x11c5be63);
    CubeIsInjective(w, 0);
  }

  lemma ShortNumbersMissRemap(hash: Word, m: Word, n: Word)
    requires m < 0x1_0000 && n < 0x1_0000
    ensures !(Mix(hash, m) % 0x8000_0000 == 1 && Mix(hash, n) % 0x8000_0000 == 0)
  {
    MixOfShortNumber(hash, m);
    MixOfShortNumber(hash, n);
    CoresMissRemap(hash, m % 256, m / 256, n % 256, n / 256);
    if Mix(hash, m) % 0x8000_0000 == 1 && Mix(hash, n) % 0x8000_0000 == 0 {
      CubesMissRemap(Core(hash, m % 256, m / 256), Core(hash, n % 256, n / 256));
    }
  }

  lemma MixIsInjective(hash: Word, m: Word, n: Word)
    requires m < 0x1_0000 && n < 0x1_0000
    requires Congruent(Mix(hash, m), Mix(hash, n))
    ensures m == n
  {
    MixOfShortNumber(hash, m);
    MixOfShortNumber(hash, n);
    CubeIsInjective(Core(hash, m % 256, m / 256), Core(hash, n % 256, n / 256));
    CoreIsInjective(hash, m % 256, m / 256, n % 256, n / 256);
  }

  /** For any fixed thread, ids of 16-bit frame numbers are pairwise distinct.  The
      stack walk hands out frame numbers below 1024, well inside that range. */
  lemma IdIsInjective(threadId: Word, m: Word, n: Word)
    requires m < 0x1_0000 && n < 0x1_0000
    requires Id(threadId, m) == Id(threadId, n)
    ensures m == n
  {
    SeededIdIsInjective(Mix(2166136261, threadId), m, n);
  }

  lemma SeededIdIsInjective(hash: Word, m: Word, n: Word)
    requires m < 0x1_0000 && n < 0x1_0000
    requires Finish(Mix(hash, m)) == Finish(Mix(hash, n))
    ensures m == n
  {
    ShortNumbersMissRemap(hash, m, n);
    ShortNumbersMissRemap(hash, n, m);
    FinishCollides(Mix(hash, m), Mix(hash, n));
    MixIsInjective(hash, m, n);
  }

  /** Two hashes end as one id only when they agree modulo 2^31, or through the remap. */
  lemma FinishCollides(a: Word, b: Word)
    requires Finish(a) == Finish(b)
    requires !(a % 0x8000_0000 == 1 && b % 0x8000_0000 == 0)
    requires !(b % 0x8000_0000 == 1 && a % 0x8000_0000 == 0)
    ensures Congruent(a, b)
  {
  }

  // ----- Frames of different threads -----

  /** Exclusive or with one octet can be undone modulo 2^31. */
  lemma {:induction false} XorOctetIsInjective(a: Word, b: Word, o: Octet)
    requires Congruent(XorOctet(a, o), XorOctet(b, o))
    ensures Congruent(a, b)
  {
    XorOctetBound(a % 256, o);
    XorOctetBound(b % 256, o);
    SameLowOctet(a / 256, b / 256, Xor(a % 256, o), Xor(b % 256, o));
    XorCommutes(a % 256, o);
    XorCommutes(b % 256, o);
    XorCancels(o, a % 256, b % 256);
  }

  lemma {:induction false} SameLowOctet(p: int, q: int, x: int, y: int)
    requires 0 <= x < 256 && 0 <= y < 256 && Congruent(p * 256 + x, q * 256 + y)
    ensures x == y
  {
    var d := CongruentMultiple(p * 256 + x, q * 256 + y);
    assert x - y == (d * 0x80_0000 - p + q) * 256;
  }

  lemma {:induction false} FoldIsInjective(a: Word, b: Word, octets: seq<Octet>)
    requires Congruent(Fold(a, octets), Fold(b, octets))
    ensures Congruent(a, b)
  {
    hide Congruent;
    if octets != [] {
      var n := |octets| - 1;
      var x, y := Fold(a, octets[..n]), Fold(b, octets[..n]);
      TimesIsInjective(XorOctet(x, octets[n]), XorOctet(y, octets[n]));
      XorOctetIsInjective(x, y, octets[n]);
      FoldIsInjective(a, b, octets[..n]);
    }
  }

  /** Two hashes end as one id exactly when they agree modulo 2^31, or one is 0 there and the other 1. */
  lemma {:induction false} SameFinish(a: Word, b: Word)
    ensures Finish(a) == Finish(b)
       <==> Congruent(a, b) || {a % 0x8000_0000, b % 0x8000_0000} == {0, 1}
  {
    var x, y := a % 0x8000_0000, b % 0x8000_0000;
    SameResidue(a, b);
    if {x, y} == {0, 1} {
      assert x in {x, y} && y in {x, y} && 0 in {x, y} && 1 in {x, y};
    }
    if x + y == 1 {
      assert {x, y} == {0, 1};
    }
  }

  lemma {:induction false} SameResidue(a: Word, b: Word)
    ensures Congruent(a, b) <==> a % 0x8000_0000 == b % 0x8000_0000
  {
    if Congruent(a, b) {
      var d := CongruentMultiple(a, b);
    }
  }

  /** The same frame number in two threads with 16-bit ids: the ids collide only if the two hashes are 0 and 1
      modulo 2^31, which the remap of 0 then makes equal. */
  lemma {:induction false} SameFrameOfTwoThreads(t: Word, u: Word, n: Word)
    requires t < 0x1_0000 && u < 0x1_0000 && t != u
    ensures Id(t, n) == Id(u, n)
       <==> {Mix(Mix(2166136261, t), n) % 0x8000_0000, Mix(Mix(2166136261, u), n) % 0x8000_0000} == {0, 1}
  {
    hide Mix, Congruent;
    var a, b := Mix(2166136261, t), Mix(2166136261, u);
    SameFinish(Mix(a, n), Mix(b, n));
    if Congruent(Mix(a, n), Mix(b, n)) {
      FoldOfMix(a, b, n);
      MixIsInjective(2166136261, t, u);
      assert false;
    }
  }

  lemma {:induction false} FoldOfMix(a: Word, b: Word, n: Word)
    requires Congruent(Mix(a, n), Mix(b, n))
    ensures Congruent(a, b)
  {
    FoldIsInjective(a, b, Octets(n));
  }

  /** Frames of two threads with 16-bit numbers collide exactly when their cores agree modulo 2^31, or the
      remap makes them equal. */
  lemma {:induction false} FramesOfTwoThreads(t: Word, m: Word, u: Word, n: Word)
    requires m < 0x1_0000 && n < 0x1_0000
    ensures var p, q := Core(Mix(2166136261, t), m % 256, m / 256), Core(Mix(2166136261, u), n % 256, n / 256);
            Id(t, m) == Id(u, n)
            <==> Congruent(p, q) || {Cube(p) % 0x8000_0000, Cube(q) % 0x8000_0000} == {0, 1}
  {
    hide Mix, Congruent, Core, Cube;
    var a, b := Mix(2166136261, t), Mix(2166136261, u);
    var p, q := Core(a, m % 256, m / 256), Core(b, n % 256, n / 256);
    MixOfShortNumber(a, m);
    MixOfShortNumber(b, n);
    SameFinish(Mix(a, m), Mix(b, n));
    if Congruent(Cube(p), Cube(q)) {
      CubeIsInjective(p, q);
    }
    if Congruent(p, q) {
      CubeIsCongruent(p, q);
    }
  }

  lemma {:induction false} CubeIsCongruent(a: Word, b: Word)
    requires Congruent(a, b)
    ensures Congruent(Cube(a), Cube(b))
  {
    hide Congruent, Times;
    TimesIsCongruent(a, b);
    TimesIsCongruent(Times(a), Times(b));
    TimesIsCongruent(Times(Times(a)), Times(Times(b)));
  }

  lemma {:induction false} TimesIsCongruent(a: Word, b: Word)
    requires Congruent(a, b)
    ensures Congruent(Times(a), Times(b))
  {
    var d := CongruentMultiple(a, b);
    var w := TimesDistance(a, b);
    assert Times(a) - Times(b) == (d * 16777619 + w) * 0x8000_0000;
  }

  lemma {:induction false} XorOctetOf(hash: Word, octet: Octet, high: nat, low: nat)
    requires hash == high * 256 + low && low < 256
    ensures XorOctet(hash, octet) == high * 256 + Xor(low, octet)
  {
    hide Xor;
  }

  lemma {:induction false} Xor197And203()
    ensures Xor(197, 203) == 14
  {
    assert Xor(0, 0) == 0;
    assert Xor(1, 1) == 0;
    assert Xor(3, 3) == 0;
    assert Xor(6, 6) == 0;
    assert Xor(12, 12) == 0;
    assert Xor(24, 25) == 1;
    assert Xor(49, 50) == 3;
    assert Xor(98, 101) == 7;
  }

  lemma {:induction false} Xor10And120()
    ensures Xor(10, 120) == 114
  {
    assert Xor(0, 0) == 0;
    assert Xor(0, 1) == 1;
    assert Xor(0, 3) == 3;
    assert Xor(0, 7) == 7;
    assert Xor(1, 15) == 14;
    assert Xor(2, 30) == 28;
    assert Xor(5, 60) == 57;
  }

  lemma {:induction false} Xor197And44()
    ensures Xor(197, 44) == 233
  {
    assert Xor(0, 0) == 0;
    assert Xor(1, 0) == 1;
    assert Xor(3, 0) == 3;
    assert Xor(6, 1) == 7;
    assert Xor(12, 2) == 14;
    assert Xor(24, 5) == 29;
    assert Xor(49, 11) == 58;
    assert Xor(98, 22) == 116;
  }

  lemma {:induction false} Xor203And128()
    ensures Xor(203, 128) == 75
  {
    assert Xor(0, 0) == 0;
    assert Xor(1, 1) == 0;
    assert Xor(3, 2) == 1;
    assert Xor(6, 4) == 2;
    assert Xor(12, 8) == 4;
    assert Xor(25, 16) == 9;
    assert Xor(50, 32) == 18;
    assert Xor(101, 64) == 37;
  }

  lemma {:induction false} Xor102And152()
    ensures Xor(102, 152) == 254
  {
    assert Xor(0, 0) == 0;
    assert Xor(0, 1) == 1;
    assert Xor(1, 2) == 3;
    assert Xor(3, 4) == 7;
    assert Xor(6, 9) == 15;
    assert Xor(12, 19) == 31;
    assert Xor(25, 38) == 63;
    assert Xor(51, 76) == 127;
  }

  lemma {:induction false} Xor218And2()
    ensures Xor(218, 2) == 216
  {
    assert Xor(0, 0) == 0;
    assert Xor(1, 0) == 1;
    assert Xor(3, 0) == 3;
    assert Xor(6, 0) == 6;
    assert Xor(13, 0) == 13;
    assert Xor(27, 0) == 27;
    assert Xor(54, 0) == 54;
    assert Xor(109, 1) == 108;
  }

  lemma {:induction false} Xor249And49()
    ensures Xor(249, 49) == 200
  {
    assert Xor(0, 0) == 0;
    assert Xor(1, 0) == 1;
    assert Xor(3, 0) == 3;
    assert Xor(7, 1) == 6;
    assert Xor(15, 3) == 12;
    assert Xor(31, 6) == 25;
    assert Xor(62, 12) == 50;
    assert Xor(124, 24) == 100;
  }

  /** Two frames that share an id: frame 664 of thread 30923 and frame 49 of thread 32812. */
  lemma {:induction false} FramesThatCollide()
    ensures Id(30923, 664) == Id(32812, 49) == 980173384
  {
    hide Mix, Core, Cube;
    MixOfShortNumber(2166136261, 30923);
    MixOfShortNumber(2166136261, 32812);
    FirstThread();
    SecondThread();
    MixOfShortNumber(2309863014, 664);
    MixOfShortNumber(510995961, 49);
    SharedCore();
  }

  lemma {:induction false} FirstThreadProducts()
    ensures Times(2166136078) == 1309359370
    ensures Times(1309359474) == 1303493238
    ensures Times(1303493238) == 3301476290
    ensures Times(3301476290) == 2309863014
  {
  }

  lemma {:induction false} FirstThread()
    ensures Cube(Core(2166136261, 203, 120)) == 2309863014
  {
    hide Xor, XorOctet, Times;
    FirstThreadProducts();
    Xor197And203();
    XorOctetOf(2166136261, 203, 8461469, 197);
    Xor10And120();
    XorOctetOf(1309359370, 120, 5114685, 10);
  }

  lemma {:induction false} SecondThreadProducts()
    ensures Times(2166136297) == 688690635
    ensures Times(688690507) == 3922658577
    ensures Times(3922658577) == 568654275
    ensures Times(568654275) == 510995961
  {
  }

  lemma {:induction false} SecondThread()
    ensures Cube(Core(2166136261, 44, 128)) == 510995961
  {
    hide Xor, XorOctet, Times;
    SecondThreadProducts();
    Xor197And44();
    XorOctetOf(2166136261, 44, 8461469, 197);
    Xor203And128();
    XorOctetOf(688690635, 128, 2690197, 203);
  }

  lemma {:induction false} SharedCoreProducts()
    ensures Times(2309863166) == 3128365530
    ensures Times(510995912) == 3128365528
    ensures Times(3128365528) == 1634801416
    ensures Times(1634801416) == 1829192088
    ensures Times(1829192088) == 980173384
  {
  }

  lemma {:induction false} SharedCore()
    ensures Core(2309863014, 152, 2) == Core(510995961, 49, 0) == 3128365528
    ensures Cube(3128365528) == 980173384
  {
    hide Xor, XorOctet, Times;
    SharedCoreProducts();
    Xor102And152();
    XorOctetOf(2309863014, 152, 9022902, 102);
    Xor218And2();
    XorOctetOf(3128365530, 2, 12220177, 218);
    Xor249And49();
    XorOctetOf(510995961, 49, 1996077, 249);
    OctetZero(3128365528);
  }

  // ----- A condition on the threads alone -----

  // 0x359c449b is the inverse of the prime modulo 2^31.

  /** Modulo 2^31, a lies e inverses of the prime and f away from b. */
  predicate Offset(a: int, b: int, e: int, f: int) {
    Congruent(a - b, e * 0x359c449b + f)
  }

  /** Hashes of two threads close enough for frames below 1024 to collide. */
  ghost predicate Near(a: Word, b: Word) {
    exists e, f :: -3 <= e <= 3 && -510 <= f <= 510 && Offset(a, b, e, f)
  }

  /** A hash of a thread from which a frame below 1024 can reach zero, where the remap acts. */
  ghost predicate NearZero(a: Word) {
    exists e, f :: 0 <= e <= 3 && -255 <= f <= 255 && Offset(a, 0, e, f)
  }

  ghost predicate Apart(t: Word, u: Word) {
    var a, b := Mix(2166136261, t), Mix(2166136261, u);
    !Near(a, b) && !NearZero(a) && !NearZero(b)
  }

  /** A high octet below 4 changes the two lowest bits only. */
  lemma {:induction false} SmallXor(w: Word, o: Octet) returns (q: int, low: int, r: int)
    requires o < 4
    ensures 0 <= low < 4 && 0 <= r < 4 && w == q * 4 + low && XorOctet(w, o) == q * 4 + r
  {
    q, low := w / 4, w % 4;
    assert Pow2(2) == 4;
    assert Doubled(q, 1) == 2 * q;
    assert Doubled(q, 2) == 2 * Doubled(q, 1);
    XorSplits(q, w % 4, o, 2);
    XorBound(w % 4, o, 2);
    XorOctetIsXor(w, o);
    r := Xor(w % 4, o);
  }

  /** Numbers that agree modulo 2^31 once their two lowest bits are replaced lie at most 3 apart there. */
  lemma {:induction false} LowBits(p: int, q: int, r: int, r': int, x: int, x': int) returns (d: int)
    requires 0 <= r < 4 && 0 <= r' < 4 && Congruent(p * 4 + r, q * 4 + r')
    ensures p * 4 + x - (q * 4 + x') == x - x' + d * 0x8000_0000
  {
    d := CongruentMultiple(p * 4 + r, q * 4 + r');
    assert r - r' == (d * 0x2000_0000 - p + q) * 4;
  }

  lemma {:induction false} DivideByPrime(d: int, e: int, v: int)
    requires d * 16777619 == e + v * 0x8000_0000
    ensures Congruent(d, e * 0x359c449b)
  {
    assert d == e * 0x359c449b + 0x8000_0000 * (v * 0x359c449b - 7026994 * d);
    MultipleIsCongruent(d, e * 0x359c449b, v * 0x359c449b - 7026994 * d);
  }

  lemma {:induction false} MultipleIsCongruent(a: int, b: int, k: int)
    requires a - b == 0x8000_0000 * k
    ensures Congruent(a, b)
  {
  }

  lemma {:induction false} CongruentShift(d: int, x: int, a: int, f: int)
    requires Congruent(d, x) && a == d + f
    ensures Congruent(a, x + f)
  {
  }

  /** Products that agree modulo 2^31 once their two lowest bits are replaced. */
  lemma {:induction false} ProductsNear(x: Word, y: Word, p: Octet, q: Octet) returns (e: int, v: int)
    requires p < 4 && q < 4 && Congruent(XorOctet(Times(x), p), XorOctet(Times(y), q))
    ensures -3 <= e <= 3 && DistanceTimesPrime(x, y) == e + v * 0x8000_0000
  {
    hide Congruent, Times, XorOctet, DistanceTimesPrime;
    var m, low, r := SmallXor(Times(x), p);
    var m', low', r' := SmallXor(Times(y), q);
    var d := LowBits(m, m', r, r', low, low');
    var k := ProductDistance(x, y);
    e, v := low - low', d - k;
  }

  function DistanceTimesPrime(x: int, y: int): int {
    (x - y) * 16777619
  }

  lemma {:induction false} ProductDistance(x: Word, y: Word) returns (k: int)
    ensures Times(x) - Times(y) == DistanceTimesPrime(x, y) + k * 0x8000_0000
  {
    hide Times;
    k := TimesDistance(x, y);
  }

  /** Cores of small frames that agree modulo 2^31 come from threads that are near. */
  lemma {:induction false} SameCoreIsNear(a: Word, b: Word, p: Octet, p': Octet, q: Octet, q': Octet)
    requires p' < 4 && q' < 4 && Congruent(Core(a, p, p'), Core(b, q, q'))
    ensures Near(a, b)
  {
    hide Congruent, Times, XorOctet, Offset;
    var x: int, y: int := XorOctet(a, p), XorOctet(b, q);
    OctetMovesNear(a, p);
    OctetMovesNear(b, q);
    var e, v := ProductsNear(x, y, p', q');
    var d: int := x - y;
    var f: int := a - x - b + y;
    DivideByPrime(d, e, v);
    CongruentShift(d, e * 0x359c449b, a - b, f);
    OffsetIs(a, b, e, f);
  }

  lemma {:induction false} OffsetIs(a: int, b: int, e: int, f: int)
    requires Congruent(a - b, e * 0x359c449b + f)
    ensures Offset(a, b, e, f)
  {
  }

  lemma {:induction false} ZeroCoreIsNear(a: Word, p: Octet, p': Octet)
    requires p' < 4 && Congruent(Core(a, p, p'), 0)
    ensures NearZero(a)
  {
    hide Congruent, Times, XorOctet, Offset;
    var x: int := XorOctet(a, p);
    OctetMovesNear(a, p);
    var m, low, r := SmallXor(Times(x), p');
    var d := LowBits(m, 0, r, 0, low, 0);
    TimesZero();
    var k := TimesDistance(x, 0);
    var f: int := a - x;
    DivideByPrime(x, low, d - k);
    CongruentShift(x, low * 0x359c449b, a, f);
    OffsetIs(a, 0, low, f);
  }

  lemma {:induction false} TimesZero()
    ensures Times(0) == 0
  {
  }

  /** Frames below 1024, all the stack walk hands out, of two threads that are apart never share an id. */
  lemma {:induction false} ThreadsApart(t: Word, m: Word, u: Word, n: Word)
    requires m < 1024 && n < 1024 && Apart(t, u)
    ensures Id(t, m) != Id(u, n)
  {
    hide Mix, Congruent, Core, Cube, Near, NearZero, Id;
    var a, b := Mix(2166136261, t), Mix(2166136261, u);
    var p, q := Core(a, m % 256, m / 256), Core(b, n % 256, n / 256);
    FramesOfTwoThreads(t, m, u, n);
    if Congruent(p, q) {
      SameCoreIsNear(a, b, m % 256, m / 256, n % 256, n / 256);
    }
    if {Cube(p) % 0x8000_0000, Cube(q) % 0x8000_0000} == {0, 1} {
      assert 0 in {Cube(p) % 0x8000_0000, Cube(q) % 0x8000_0000};
      if Cube(p) % 0x8000_0000 == 0 {
        ZeroCube(p);
        ZeroCoreIsNear(a, m % 256, m / 256);
      } else {
        ZeroCube(q);
        ZeroCoreIsNear(b, n % 256, n / 256);
      }
    }
  }

  lemma {:induction false} ZeroCube(p: Word)
    requires Cube(p) % 0x8000_0000 == 0
    ensures Congruent(p, 0)
  {
    CubeLandmarks();
    hide Cube;
    CubeIsInjective(p, 0);
  }

  /** Threads 4 and 8, for one pair, are apart. */
  lemma {:induction false} SmallThreadsApart()
    ensures Apart(4, 8)
  {
    hide Mix, Congruent;
    Thread4();
    Thread8();
    forall e, f | -3 <= e <= 3 && -510 <= f <= 510 ensures !Offset(182778065, 3438800285, e, f) {
      FarApart(e, f);
    }
    forall e, f | 0 <= e <= 3 && -255 <= f <= 255 ensures !Offset(182778065, 0, e, f) && !Offset(3438800285, 0, e, f) {
      FarFromZero(e, f);
    }
  }

  lemma {:induction false} FarApart(e: int, f: int)
    requires -3 <= e <= 3 && -510 <= f <= 510
    ensures !Congruent(182778065 - 3438800285, e * 0x359c449b + f)
  {
  }

  lemma {:induction false} FarFromZero(e: int, f: int)
    requires 0 <= e <= 3 && -255 <= f <= 255
    ensures !Congruent(182778065 - 0, e * 0x359c449b + f) && !Congruent(3438800285 - 0, e * 0x359c449b + f)
  {
  }

  lemma {:induction false} Xor197And4()
    ensures Xor(197, 4) == 193
  {
    assert Xor(0, 0) == 0;
    assert Xor(1, 0) == 1;
    assert Xor(3, 0) == 3;
    assert Xor(6, 0) == 6;
    assert Xor(12, 0) == 12;
    assert Xor(24, 0) == 24;
    assert Xor(49, 1) == 48;
    assert Xor(98, 2) == 96;
  }

  lemma {:induction false} Thread4()
    ensures Mix(2166136261, 4) == 182778065
  {
    hide Mix, Xor, XorOctet, Times;
    MixOfShortNumber(2166136261, 4);
    Xor197And4();
    XorOctetOf(2166136261, 4, 8461469, 197);
    Thread4Products();
    OctetZero(17585875);
  }

  lemma {:induction false} Thread4Products()
    ensures Times(2166136257) == 17585875 && Times(17585875) == 2037165609
    ensures Times(2037165609) == 1326852747 && Times(1326852747) == 182778065
  {
  }

  lemma {:induction false} Xor197And8()
    ensures Xor(197, 8) == 205
  {
    assert Xor(0, 0) == 0;
    assert Xor(1, 0) == 1;
    assert Xor(3, 0) == 3;
    assert Xor(6, 0) == 6;
    assert Xor(12, 0) == 12;
    assert Xor(24, 1) == 25;
    assert Xor(49, 2) == 51;
    assert Xor(98, 4) == 102;
  }

  lemma {:induction false} Thread8()
    ensures Mix(2166136261, 8) == 3438800285
  {
    hide Mix, Xor, XorOctet, Times;
    MixOfShortNumber(2166136261, 8);
    Xor197And8();
    XorOctetOf(2166136261, 8, 8461469, 197);
    Thread8Products();
    OctetZero(218917303);
  }

  lemma {:induction false} Thread8Products()
    ensures Times(2166136269) == 218917303 && Times(218917303) == 1099590421
    ensures Times(1099590421) == 1105629711 && Times(1105629711) == 3438800285
  {
  }

  // ----- The frame-context map -----

  datatype FrameContext = FrameContext(threadId: Word, frameNumber: Word)

  class FrameMap {
    var contexts: map<nat, FrameContext>

    constructor ()
      ensures contexts == map[]
    {
      contexts := map[];
    }

    /** Registering the frames of one thread loses none of them: looking any of
        their ids up yields exactly that frame's context.  (The stack walk stops
        at 1024 frames.) */
    method RegisterFrames(threadId: Word, frames: seq<Word>)
      requires forall i :: 0 <= i < |frames| ==> frames[i] < 0x1_0000
      modifies this
      ensures forall i :: 0 <= i < |frames| ==>
                && Id(threadId, frames[i]) in contexts
                && contexts[Id(threadId, frames[i])] == FrameContext(threadId, frames[i])
      ensures contexts.Keys == old(contexts).Keys + (set i | 0 <= i < |frames| :: Id(threadId, frames[i]))
      ensures forall id :: id in old(contexts) && (forall i :: 0 <= i < |frames| ==> Id(threadId, frames[i]) != id)
                ==> contexts[id] == old(contexts)[id]
    {
      for k := 0 to |frames|
        invariant forall i :: 0 <= i < k ==>
                    && Id(threadId, frames[i]) in contexts
                    && contexts[Id(threadId, frames[i])] == FrameContext(threadId, frames[i])
        invariant contexts.Keys == old(contexts).Keys + (set i | 0 <= i < k :: Id(threadId, frames[i]))
        invariant forall id :: id in old(contexts) && (forall i :: 0 <= i < k ==> Id(threadId, frames[i]) != id)
                    ==> contexts[id] == old(contexts)[id]
      {
        var id := CreateFrameId(threadId, frames[k]);
        contexts := contexts[id := FrameContext(threadId, frames[k])];
        forall i | 0 <= i < k && Id(threadId, frames[i]) == id
          ensures frames[i] == frames[k]
        {
          IdIsInjective(threadId, frames[i], frames[k]);
        }
      }
    }

    /** Registering the stacks of several threads in turn: a thread that is apart from every other thread
        registered keeps all its frames, in whatever order and however often they come. */
    method RegisterThreads(stacks: seq<Stack>)
      requires forall i, p :: 0 <= i < |stacks| && 0 <= p < |stacks[i].frames| ==> stacks[i].frames[p] < 1024
      modifies this
      ensures forall i, p :: 0 <= i < |stacks| && 0 <= p < |stacks[i].frames| && AloneIn(stacks, i) ==>
                Finds(contexts, stacks[i].threadId, stacks[i].frames[p])
    {
      for k := 0 to |stacks|
        invariant forall i, p :: 0 <= i < k && 0 <= p < |stacks[i].frames| && AloneIn(stacks, i) ==>
                    Finds(contexts, stacks[i].threadId, stacks[i].frames[p])
      {
        hide Id, Apart, AloneIn;
        ghost var before := contexts;
        RegisterFrames(stacks[k].threadId, stacks[k].frames);
        forall i, p | 0 <= i <= k && 0 <= p < |stacks[i].frames| && AloneIn(stacks, i)
          ensures Finds(contexts, stacks[i].threadId, stacks[i].frames[p])
        {
          if i < k {
            StillFound(before, contexts, stacks, i, p, k);
          }
        }
      }
    }
  }

  datatype Stack = Stack(threadId: Word, frames: seq<Word>)

  /** The frame is looked up as itself. */
  predicate Finds(contexts: map<nat, FrameContext>, threadId: Word, frame: Word) {
    Id(threadId, frame) in contexts && contexts[Id(threadId, frame)] == FrameContext(threadId, frame)
  }

  /** Every other thread among the stacks is apart from that of stack i. */
  ghost predicate AloneIn(stacks: seq<Stack>, i: nat)
    requires i < |stacks|
  {
    forall j :: 0 <= j < |stacks| && stacks[j].threadId != stacks[i].threadId ==>
      Apart(stacks[i].threadId, stacks[j].threadId)
  }

  lemma {:induction false} StillFound(before: map<nat, FrameContext>, after: map<nat, FrameContext>,
                                      stacks: seq<Stack>, i: nat, p: nat, k: nat)
    requires i < |stacks| && k < |stacks| && p < |stacks[i].frames| && AloneIn(stacks, i)
    requires forall j, q :: 0 <= j < |stacks| && 0 <= q < |stacks[j].frames| ==> stacks[j].frames[q] < 1024
    requires Finds(before, stacks[i].threadId, stacks[i].frames[p])
    requires forall q :: 0 <= q < |stacks[k].frames| ==> Finds(after, stacks[k].threadId, stacks[k].frames[q])
    requires before.Keys <= after.Keys
    requires forall id :: id in before
                && (forall q :: 0 <= q < |stacks[k].frames| ==> Id(stacks[k].threadId, stacks[k].frames[q]) != id)
                ==> after[id] == before[id]
    ensures Finds(after, stacks[i].threadId, stacks[i].frames[p])
  {
    hide Id, Apart;
    var t, m, u := stacks[i].threadId, stacks[i].frames[p], stacks[k].threadId;
    if q :| 0 <= q < |stacks[k].frames| && Id(u, stacks[k].frames[q]) == Id(t, m) {
      if u == t {
        IdIsInjective(t, m, stacks[k].frames[q]);
      } else {
        ThreadsApart(t, m, u, stacks[k].frames[q]);
      }
    }
  }
}
