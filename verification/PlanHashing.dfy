/** The plan hash: SHA-256 as the planner computes it, against the definition of FIPS 180-4.  The
algorithm is stated over words of any type with the operations of section 4.1.2; the program runs it
on 32-bit words. */
module PlanHashing {
  import opened Words32

  // ----- words (sections 4.1.2 and 4.2.2) -----

  datatype Words<!W> = Words(
    pack: (bv8, bv8, bv8, bv8) -> W, add: (W, W) -> W, ch: (W, W, W) -> W, maj: (W, W, W) -> W,
    bigSigma0: W -> W, bigSigma1: W -> W, smallSigma0: W -> W, smallSigma1: W -> W,
    constants: seq<W>)

  /** Eight words: a hash value, or the working variables of a round. */
  datatype State<W> = State(a: W, b: W, c: W, d: W, e: W, f: W, g: W, h: W)

  function StateOf<W>(s: seq<W>): State<W>
    requires |s| == 8
  {
    State(s[0], s[1], s[2], s[3], s[4], s[5], s[6], s[7])
  }

  function WordsOf<W>(s: State<W>): seq<W> {
    [s.a, s.b, s.c, s.d, s.e, s.f, s.g, s.h]
  }

  // ----- one block (section 6.2.2) -----

  /** The first `n` words of the message schedule. */
  function Schedule<W>(o: Words<W>, block: seq<bv8>, n: nat): (w: seq<W>)
    requires |block| == 64
    ensures |w| == n
  {
    if n == 0 then []
    else
      var w, t := Schedule(o, block, n - 1), n - 1;
      w + [if t < 16 then o.pack(block[4 * t], block[4 * t + 1], block[4 * t + 2], block[4 * t + 3])
           else NextWord(o, w[t - 2], w[t - 7], w[t - 15], w[t - 16])]
  }

  /** The standard writes the sum in the reverse order; see `NextWordIsTheStandards`. */
  function NextWord<W>(o: Words<W>, w2: W, w7: W, w15: W, w16: W): W {
    o.add(o.add(o.add(w16, o.smallSigma0(w15)), w7), o.smallSigma1(w2))
  }

  /** One round, with the round constant and the schedule word. */
  function Round<W>(o: Words<W>, s: State<W>, k: W, w: W): State<W> {
    var t1 := o.add(o.add(o.add(o.add(s.h, o.bigSigma1(s.e)), o.ch(s.e, s.f, s.g)), k), w);
    var t2 := o.add(o.bigSigma0(s.a), o.maj(s.a, s.b, s.c));
    State(o.add(t1, t2), s.a, s.b, s.c, o.add(s.d, t1), s.e, s.f, s.g)
  }

  /** One round for each schedule word. */
  function Rounds<W>(o: Words<W>, s: State<W>, w: seq<W>): State<W>
    requires |w| <= |o.constants|
    decreases |w|
  {
    if w == [] then s
    else
      var t := |w| - 1;
      Round(o, Rounds(o, s, w[..t]), o.constants[t], w[t])
  }

  function Plus<W>(o: Words<W>, s: State<W>, t: State<W>): State<W> {
    State(o.add(s.a, t.a), o.add(s.b, t.b), o.add(s.c, t.c), o.add(s.d, t.d),
          o.add(s.e, t.e), o.add(s.f, t.f), o.add(s.g, t.g), o.add(s.h, t.h))
  }

  /** The hash value after one more block. */
  function Compress<W>(o: Words<W>, s: State<W>, block: seq<bv8>): State<W>
    requires |block| == 64
  {
    Plus(o, s, Rounds(o, s, Schedule(o, block, |o.constants|)))
  }

  /** The hash value after all whole blocks of a message. */
  function CompressAll<W>(o: Words<W>, s: State<W>, message: seq<bv8>): State<W>
    decreases |message|
  {
    if |message| < 64 then s else CompressAll(o, Compress(o, s, message[..64]), message[64..])
  }

  // ----- padding (section 5.1.1) -----

  /** The number of zero bytes between the 1 bit and the length: the fewest that fill whole blocks. */
  function ZeroBytes(n: nat): (k: nat)
    ensures (n + 1 + k + 8) % 64 == 0
    ensures k < 64
  {
    (55 - n) % 64
  }

  function Zeros(n: nat): seq<bv8> {
    seq(n, _ => 0)
  }

  function Pow256(i: nat): (p: nat)
    ensures p > 0
  {
    if i == 0 then 1 else 256 * Pow256(i - 1)
  }

  const LENGTH_RANGE: nat := 0x1_0000_0000_0000_0000

  function LengthByte(bits: nat, i: nat): bv8 {
    (bits / Pow256(i) % 256) as bv8
  }

  /** The length in bits, in eight bytes, the first the most significant. */
  function LengthBytes(n: nat): seq<bv8> {
    seq(8, i requires 0 <= i < 8 => LengthByte(8 * n % LENGTH_RANGE, 7 - i))
  }

  function Pad(message: seq<bv8>): (p: seq<bv8>)
    ensures |p| % 64 == 0 && message <= p
  {
    message + [0x80] + Zeros(ZeroBytes(|message|)) + LengthBytes(|message|)
  }

  /** Behind the message: the 1 bit, then zeros up to the length. */
  lemma PadLayout(message: seq<bv8>)
    ensures |Pad(message)| == |message| + 1 + ZeroBytes(|message|) + 8
    ensures Pad(message)[..|message|] == message && Pad(message)[|message|] == 0x80
    ensures forall i :: |message| < i < |Pad(message)| - 8 ==> Pad(message)[i] == 0
  {
  }

  /** No two messages have the same padding, whatever their lengths. */
  lemma PadInjective(m1: seq<bv8>, m2: seq<bv8>)
    requires Pad(m1) == Pad(m2)
    ensures m1 == m2
  {
    PadLayout(m1);
    PadLayout(m2);
    assert Pad(m1)[|m1|] == Pad(m2)[|m2|] == 0x80;
    assert |m1| == |m2|;
  }

  /** The hash value of a message. */
  function Hash<W>(o: Words<W>, start: State<W>, message: seq<bv8>): State<W> {
    CompressAll(o, start, Pad(message))
  }

  // ----- compression by the program -----

  lemma ScheduleNext<W>(o: Words<W>, block: seq<bv8>, s: seq<W>, x: W)
    requires |block| == 64 && s == Schedule(o, block, |s|)
    requires x == if |s| < 16 then o.pack(block[4 * |s|], block[4 * |s| + 1], block[4 * |s| + 2], block[4 * |s| + 3])
                  else NextWord(o, s[|s| - 2], s[|s| - 7], s[|s| - 15], s[|s| - 16])
    ensures s + [x] == Schedule(o, block, |s| + 1)
  {
  }

  /** Fills the 64 schedule words. */
  method ExpandBlock<W(0)>(o: Words<W>, block: seq<bv8>) returns (w: array<W>)
    requires |block| == 64 && |o.constants| == 64
    ensures fresh(w) && w[..] == Schedule(o, block, |o.constants|)
  {
    w := new W[64];
    var i := 0;
    while i < 16
      invariant 0 <= i <= 16
      invariant w[..i] == Schedule(o, block, i)
    {
      ghost var s := w[..i];
      w[i] := o.pack(block[i * 4], block[i * 4 + 1], block[i * 4 + 2], block[i * 4 + 3]);
      ScheduleNext(o, block, s, w[i]);
      assert w[..i + 1] == s + [w[i]];
      i := i + 1;
    }
    while i < 64
      invariant 16 <= i <= 64
      invariant w[..i] == Schedule(o, block, i)
    {
      ghost var s := w[..i];
      var s0 := o.smallSigma0(w[i - 15]);
      var s1 := o.smallSigma1(w[i - 2]);
      w[i] := o.add(o.add(o.add(w[i - 16], s0), w[i - 7]), s1);
      ScheduleNext(o, block, s, w[i]);
      assert w[..i + 1] == s + [w[i]];
      i := i + 1;
    }
    assert w[..i] == w[..];
  }

  /** The rounds on the eight working variables. */
  method RunRounds<W>(o: Words<W>, s: State<W>, w: seq<W>) returns (r: State<W>)
    requires |o.constants| == 64 && |w| == 64
    ensures r == Rounds(o, s, w)
  {
    var a, b, c, d, e, f, g, h := s.a, s.b, s.c, s.d, s.e, s.f, s.g, s.h;
    var i := 0;
    while i < 64
      invariant 0 <= i <= 64
      invariant State(a, b, c, d, e, f, g, h) == Rounds(o, s, w[..i])
    {
      assert w[..i + 1][..i] == w[..i];
      var t1 := o.add(o.add(o.add(o.add(h, o.bigSigma1(e)), o.ch(e, f, g)), o.constants[i]), w[i]);
      var t2 := o.add(o.bigSigma0(a), o.maj(a, b, c));
      h := g;
      g := f;
      f := e;
      e := o.add(d, t1);
      d := c;
      c := b;
      b := a;
      a := o.add(t1, t2);
      i := i + 1;
    }
    assert w[..i] == w;
    return State(a, b, c, d, e, f, g, h);
  }

  /** Folds one block into the hash value. */
  method HashBlock<W(0)>(o: Words<W>, state: array<W>, block: seq<bv8>)
    requires |o.constants| == 64 && state.Length == 8 && |block| == 64
    modifies state
    ensures StateOf(state[..]) == Compress(o, StateOf(old(state[..])), block)
  {
    var w := ExpandBlock(o, block);
    var r := RunRounds(o, StateOf(state[..]), w[..]);
    state[0] := o.add(state[0], r.a);
    state[1] := o.add(state[1], r.b);
    state[2] := o.add(state[2], r.c);
    state[3] := o.add(state[3], r.d);
    state[4] := o.add(state[4], r.e);
    state[5] := o.add(state[5], r.f);
    state[6] := o.add(state[6], r.g);
    state[7] := o.add(state[7], r.h);
  }

  // ----- the message, block by block -----

  predicate WholeBlocks(n: int) {
    n % 64 == 0
  }

  lemma {:induction false} CompressAllConcat<W>(o: Words<W>, s: State<W>, a: seq<bv8>, b: seq<bv8>)
    requires WholeBlocks(|a|)
    ensures CompressAll(o, s, a + b) == CompressAll(o, CompressAll(o, s, a), b)
    decreases |a|
  {
    if a == [] {
      assert a + b == b;
    } else {
      assert |a| >= 64 && WholeBlocks(|a[64..]|);
      assert (a + b)[..64] == a[..64] && (a + b)[64..] == a[64..] + b;
      CompressAllConcat(o, Compress(o, s, a[..64]), a[64..], b);
    }
  }

  lemma CompressAllOne<W>(o: Words<W>, s: State<W>, block: seq<bv8>)
    requires |block| == 64
    ensures CompressAll(o, s, block) == Compress(o, s, block)
  {
    assert block[..64] == block && block[64..] == [];
  }

  /** How much of a text of length `n` is in full blocks. */
  function FullLength(n: nat): (m: nat)
    ensures m <= n < m + 64 && WholeBlocks(m)
  {
    n / 64 * 64
  }

  /** The last block or two: what is left after the full blocks, the 1 bit, zeros and the length. */
  function Tail(rest: seq<bv8>, n: nat): seq<bv8>
    requires |rest| < 64
  {
    if |rest| < 56 then (rest + [0x80] + Zeros(55 - |rest|)) + LengthBytes(n)
    else (rest + [0x80] + Zeros(63 - |rest|)) + (Zeros(56) + LengthBytes(n))
  }

  lemma ZeroCount(m: nat, r: nat)
    requires WholeBlocks(m) && r < 64
    ensures ZeroBytes(m + r) == if r < 56 then 55 - r else (63 - r) + 56
  {
  }

  lemma ZerosConcat(m: nat, n: nat)
    ensures Zeros(m + n) == Zeros(m) + Zeros(n)
  {
  }

  /** The padded message is its full blocks followed by one tail block, or by two when the 1 bit and
      the length do not fit in one. */
  lemma PadSplit(text: seq<bv8>)
    ensures Pad(text) == text[..FullLength(|text|)] + Tail(text[FullLength(|text|)..], |text|)
  {
    var m := FullLength(|text|);
    var rest, n := text[m..], |text|;
    ZeroCount(m, |rest|);
    assert text == text[..m] + rest;
    Regrouped(text[..m], rest, [0x80], Zeros(ZeroBytes(n)), LengthBytes(n));
    if |rest| >= 56 {
      ZerosConcat(63 - |rest|, 56);
      RegroupedTwice(rest, [0x80], Zeros(63 - |rest|), Zeros(56), LengthBytes(n));
    }
  }

  lemma Regrouped<T>(a: seq<T>, b: seq<T>, c: seq<T>, d: seq<T>, e: seq<T>)
    ensures (a + b) + c + d + e == a + ((b + c + d) + e)
  {
  }

  lemma RegroupedTwice<T>(b: seq<T>, c: seq<T>, d1: seq<T>, d2: seq<T>, e: seq<T>)
    ensures (b + c + (d1 + d2)) + e == (b + c + d1) + (d2 + e)
  {
  }

  lemma NextBlock(a: nat, b: nat)
    requires WholeBlocks(a) && WholeBlocks(b)
    ensures WholeBlocks(a + 64)
    ensures a < b ==> a + 64 <= b
  {
  }

  /** Hashes one more block of a message. */
  method HashNext<W(0)>(o: Words<W>, state: array<W>, block: seq<bv8>, ghost start: State<W>, ghost message: seq<bv8>)
    requires |o.constants| == 64 && state.Length == 8 && |block| == 64 && WholeBlocks(|message|)
    requires StateOf(state[..]) == CompressAll(o, start, message)
    modifies state
    ensures StateOf(state[..]) == CompressAll(o, start, message + block)
  {
    CompressAllConcat(o, start, message, block);
    CompressAllOne(o, StateOf(state[..]), block);
    HashBlock(o, state, block);
  }

  method HashFullBlocks<W(0)>(o: Words<W>, state: array<W>, text: seq<bv8>, ghost start: State<W>)
    requires |o.constants| == 64 && state.Length == 8 && StateOf(state[..]) == start
    modifies state
    ensures StateOf(state[..]) == CompressAll(o, start, text[..FullLength(|text|)])
  {
    var full, at := FullLength(|text|), 0;
    while at < full
      invariant 0 <= at <= full && WholeBlocks(at)
      invariant StateOf(state[..]) == CompressAll(o, start, text[..at])
    {
      NextBlock(at, full);
      NextSlice(text, at);
      HashNext(o, state, text[at..at + 64], start, text[..at]);
      at := at + 64;
    }
  }

  lemma NextSlice(text: seq<bv8>, at: nat)
    requires at + 64 <= |text|
    ensures |text[at..at + 64]| == 64 && text[..at] + text[at..at + 64] == text[..at + 64]
  {
  }

  /** Writes the length in bits at the end of the block, the last byte the least significant. */
  method PutLength(block: array<bv8>, n: nat)
    requires block.Length == 64
    modifies block
    ensures block[..] == old(block[..56]) + LengthBytes(n)
  {
    var bits := 8 * n % LENGTH_RANGE;
    var i := 0;
    while i < 8
      invariant 0 <= i <= 8
      invariant block[..56] == old(block[..56])
      invariant forall j :: 0 <= j < i ==> block[63 - j] == LengthByte(bits, j)
    {
      block[63 - i] := LengthByte(bits, i);
      i := i + 1;
    }
    assert forall j :: 56 <= j < 64 ==> block[j] == block[63 - (63 - j)];
  }

  /** The start of the first tail block: what is left of the text, and the 1 bit. */
  method TailStart(rest: seq<bv8>) returns (block: array<bv8>)
    requires |rest| < 64
    ensures fresh(block) && block.Length == 64 && block[..] == rest + [0x80] + Zeros(63 - |rest|)
  {
    block := new bv8[64](i => if 0 <= i < |rest| then rest[i] else 0);
    block[|rest|] := 0x80;
  }

  /** Pads and hashes what is left after the full blocks. */
  method HashTail<W(0)>(o: Words<W>, state: array<W>, rest: seq<bv8>, n: nat, ghost start: State<W>, ghost message: seq<bv8>)
    requires |o.constants| == 64 && state.Length == 8 && WholeBlocks(|message|) && |rest| < 64
    requires StateOf(state[..]) == CompressAll(o, start, message)
    modifies state
    ensures StateOf(state[..]) == CompressAll(o, start, message + Tail(rest, n))
  {
    var block := TailStart(rest);
    ghost var hashed := message;
    if |rest| >= 56 {
      HashNext(o, state, block[..], start, message);
      NextBlock(|message|, 0);
      hashed := message + block[..];
      block := new bv8[64](_ => 0);
      assert block[..56] == Zeros(56);
    } else {
      assert block[..56] == rest + [0x80] + Zeros(55 - |rest|);
    }
    ghost var front := block[..56];
    PutLength(block, n);
    assert block[..] == front + LengthBytes(n);
    TailSplit(message, rest, n, hashed, front);
    HashNext(o, state, block[..], start, hashed);
  }

  lemma TailSplit(message: seq<bv8>, rest: seq<bv8>, n: nat, hashed: seq<bv8>, front: seq<bv8>)
    requires |rest| < 64 && |front| == 56
    requires if |rest| >= 56 then hashed == message + (rest + [0x80] + Zeros(63 - |rest|)) && front == Zeros(56)
             else hashed == message && front == rest + [0x80] + Zeros(55 - |rest|)
    ensures hashed + (front + LengthBytes(n)) == message + Tail(rest, n)
  {
  }

  lemma HashSplit<W>(o: Words<W>, start: State<W>, text: seq<bv8>)
    ensures Hash(o, start, text)
         == CompressAll(o, start, text[..FullLength(|text|)] + Tail(text[FullLength(|text|)..], |text|))
  {
    PadSplit(text);
  }

  /** The hash value of a text: the full blocks where they stand, then the padded tail. */
  method HashText<W(0)>(o: Words<W>, state: array<W>, text: seq<bv8>)
    requires |o.constants| == 64 && state.Length == 8
    modifies state
    ensures StateOf(state[..]) == Hash(o, StateOf(old(state[..])), text)
  {
    ghost var start := StateOf(state[..]);
    HashFullBlocks(o, state, text, start);
    var full := FullLength(|text|);
    HashTail(o, state, text[full..], |text|, start, text[..full]);
    HashSplit(o, start, text);
  }

  // ----- 32-bit words (sections 4.1.2, 4.2.2 and 5.3.3) -----

  /** Rotates right. */
  function Rotr(x: bv32, n: bv6): bv32
    requires 0 < n < 32
  {
    (x >> n) | (x << (32 - n))
  }

  function Pack(b0: bv8, b1: bv8, b2: bv8, b3: bv8): bv32 {
    ((b0 as bv32) << 24) | ((b1 as bv32) << 16) | ((b2 as bv32) << 8) | (b3 as bv32)
  }

  function Ch(x: bv32, y: bv32, z: bv32): bv32 {
    (x & y) ^ (!x & z)
  }

  function Maj(x: bv32, y: bv32, z: bv32): bv32 {
    (x & y) ^ (x & z) ^ (y & z)
  }

  function BigSigma0(x: bv32): bv32 {
    Rotr(x, 2) ^ Rotr(x, 13) ^ Rotr(x, 22)
  }

  function BigSigma1(x: bv32): bv32 {
    Rotr(x, 6) ^ Rotr(x, 11) ^ Rotr(x, 25)
  }

  function SmallSigma0(x: bv32): bv32 {
    Rotr(x, 7) ^ Rotr(x, 18) ^ (x >> 3)
  }

  function SmallSigma1(x: bv32): bv32 {
    Rotr(x, 17) ^ Rotr(x, 19) ^ (x >> 10)
  }

  const CONSTANTS_0: seq<bv32> := [
    0x428a2f98, 0x71374491, 0xb5c0fbcf, 0xe9b5dba5, 0x3956c25b, 0x59f111f1, 0x923f82a4, 0xab1c5ed5,
    0xd807aa98, 0x12835b01, 0x243185be, 0x550c7dc3, 0x72be5d74, 0x80deb1fe, 0x9bdc06a7, 0xc19bf174]
  const CONSTANTS_16: seq<bv32> := [
    0xe49b69c1, 0xefbe4786, 0x0fc19dc6, 0x240ca1cc, 0x2de92c6f, 0x4a7484aa, 0x5cb0a9dc, 0x76f988da,
    0x983e5152, 0xa831c66d, 0xb00327c8, 0xbf597fc7, 0xc6e00bf3, 0xd5a79147, 0x06ca6351, 0x14292967]
  const CONSTANTS_32: seq<bv32> := [
    0x27b70a85, 0x2e1b2138, 0x4d2c6dfc, 0x53380d13, 0x650a7354, 0x766a0abb, 0x81c2c92e, 0x92722c85,
    0xa2bfe8a1, 0xa81a664b, 0xc24b8b70, 0xc76c51a3, 0xd192e819, 0xd6990624, 0xf40e3585, 0x106aa070]
  const CONSTANTS_48: seq<bv32> := [
    0x19a4c116, 0x1e376c08, 0x2748774c, 0x34b0bcb5, 0x391c0cb3, 0x4ed8aa4a, 0x5b9cca4f, 0x682e6ff3,
    0x748f82ee, 0x78a5636f, 0x84c87814, 0x8cc70208, 0x90befffa, 0xa4506ceb, 0xbef9a3f7, 0xc67178f2]
  const ROUND_CONSTANTS: seq<bv32> := (CONSTANTS_0 + CONSTANTS_16) + (CONSTANTS_32 + CONSTANTS_48)

  const INITIAL_HASH: seq<bv32> :=
    [0x6a09e667, 0xbb67ae85, 0x3c6ef372, 0xa54ff53a, 0x510e527f, 0x9b05688c, 0x1f83d9ab, 0x5be0cd19]

  const WORDS: Words<bv32> :=
    Words(Pack, Add, Ch, Maj, BigSigma0, BigSigma1, SmallSigma0, SmallSigma1, ROUND_CONSTANTS)

  /** Every rotation of the program is the rotation of the machine word. */
  lemma RotrIsRotation(x: bv32)
    ensures Rotr(x, 2) == x.RotateRight(2) && Rotr(x, 13) == x.RotateRight(13) && Rotr(x, 22) == x.RotateRight(22)
    ensures Rotr(x, 6) == x.RotateRight(6) && Rotr(x, 11) == x.RotateRight(11) && Rotr(x, 25) == x.RotateRight(25)
    ensures Rotr(x, 7) == x.RotateRight(7) && Rotr(x, 18) == x.RotateRight(18)
    ensures Rotr(x, 17) == x.RotateRight(17) && Rotr(x, 19) == x.RotateRight(19)
  {
  }

  /** Choose takes each bit from `y` or `z` as `x` says; majority takes the bit two of three agree on. */
  lemma BitwiseMeaning(x: bv32, y: bv32, z: bv32)
    ensures Ch(x, y, z) == (x & y) | (!x & z)
    ensures Maj(x, y, z) == (x & y) | (x & z) | (y & z)
  {
  }

  // ----- the digest -----

  /** Where words can be summed in any order, the next word of the schedule is the sum of section 6.2.2. */
  lemma NextWordReordered<W(!new)>(o: Words<W>, w2: W, w7: W, w15: W, w16: W)
    requires Summation(o.add)
    ensures NextWord(o, w2, w7, w15, w16) == o.add(o.add(o.add(o.smallSigma1(w2), w7), o.smallSigma0(w15)), w16)
  {
    var (s0, s1) := (o.smallSigma0(w15), o.smallSigma1(w2));
    calc {
      NextWord(o, w2, w7, w15, w16);
      o.add(s1, o.add(o.add(w16, s0), w7));
      o.add(s1, o.add(w7, o.add(s0, w16)));
      o.add(o.add(s1, w7), o.add(s0, w16));
    }
  }

  /** On 32-bit words, with addition modulo 2^32. */
  lemma NextWordIsTheStandards(w2: bv32, w7: bv32, w15: bv32, w16: bv32)
    ensures NextWord(WORDS, w2, w7, w15, w16) == Add(Add(Add(SmallSigma1(w2), w7), SmallSigma0(w15)), w16)
  {
    AddIsSummation();
    NextWordReordered(WORDS, w2, w7, w15, w16);
  }

  function HexDigit(x: bv32): char
    requires x < 16
  {
    "0123456789abcdef"[x as int]
  }

  /** Eight hexadecimal digits. */
  function Hex(x: bv32): string {
    [HexDigit((x >> 28) & 0xf), HexDigit((x >> 24) & 0xf), HexDigit((x >> 20) & 0xf), HexDigit((x >> 16) & 0xf),
     HexDigit((x >> 12) & 0xf), HexDigit((x >> 8) & 0xf), HexDigit((x >> 4) & 0xf), HexDigit(x & 0xf)]
  }

  function Digest(words: seq<bv32>): string {
    if words == [] then "" else Digest(words[..|words| - 1]) + Hex(words[|words| - 1])
  }

  function Sha256(message: seq<bv8>): string {
    Digest(WordsOf(Hash(WORDS, StateOf(INITIAL_HASH), message)))
  }

  method DigestOf(words: seq<bv32>) returns (out: string)
    ensures out == Digest(words)
  {
    out := "";
    var i := 0;
    while i < |words|
      invariant 0 <= i <= |words| && out == Digest(words[..i])
    {
      assert words[..i + 1][..i] == words[..i];
      out := out + Hex(words[i]);
      i := i + 1;
    }
    assert words[..i] == words;
  }

  lemma WordsOfState<W>(s: seq<W>)
    requires |s| == 8
    ensures WordsOf(StateOf(s)) == s
  {
  }

  /** `ccw_plan_hash`: the digest of a plan text is its SHA-256. */
  method PlanHash(text: seq<bv8>) returns (out: string)
    ensures out == Sha256(text)
  {
    var state := new bv32[8](i requires 0 <= i < 8 => INITIAL_HASH[i]);
    assert state[..] == INITIAL_HASH;
    HashText(WORDS, state, text);
    WordsOfState(state[..]);
    out := DigestOf(state[..]);
  }
}
