/** Following SHA-256 step by step over given words, as published examples do. */
module DigestSteps {
  import opened Words32
  import opened PlanHashing

  /** Word `n` of the message schedule. */
  ghost function Word<W>(o: Words<W>, block: seq<bv8>, n: nat): W
    requires |block| == 64
  {
    Schedule(o, block, n + 1)[n]
  }

  lemma {:induction false} ScheduleWords<W>(o: Words<W>, block: seq<bv8>, n: nat, i: nat)
    requires |block| == 64 && i < n
    ensures Schedule(o, block, n)[i] == Word(o, block, i)
  {
    if i < n - 1 {
      ScheduleWords(o, block, n - 1, i);
    }
  }

  /** One of the first sixteen words. */
  lemma FirstWord<W>(o: Words<W>, block: seq<bv8>, n: nat, b0: bv8, b1: bv8, b2: bv8, b3: bv8, x: W)
    requires |block| == 64 && n < 16 && o.pack(b0, b1, b2, b3) == x
    requires block[4 * n] == b0 && block[4 * n + 1] == b1 && block[4 * n + 2] == b2 && block[4 * n + 3] == b3
    ensures Word(o, block, n) == x
  {
  }

  lemma LaterWord<W>(o: Words<W>, block: seq<bv8>, n: nat, w2: W, w7: W, w15: W, w16: W)
    requires |block| == 64 && n >= 16 && Word(o, block, n - 2) == w2 && Word(o, block, n - 7) == w7
    requires Word(o, block, n - 15) == w15 && Word(o, block, n - 16) == w16
    ensures Word(o, block, n) == NextWord(o, w2, w7, w15, w16)
  {
    ScheduleWords(o, block, n, n - 2);
    ScheduleWords(o, block, n, n - 7);
    ScheduleWords(o, block, n, n - 15);
    ScheduleWords(o, block, n, n - 16);
  }

  /** Eight words of the schedule. */
  ghost predicate WordsAt<W>(o: Words<W>, block: seq<bv8>, n: nat, w0: W, w1: W, w2: W, w3: W, w4: W, w5: W, w6: W, w7: W)
    requires |block| == 64
  {
    && Word(o, block, n) == w0 && Word(o, block, n + 1) == w1 && Word(o, block, n + 2) == w2 && Word(o, block, n + 3) == w3
    && Word(o, block, n + 4) == w4 && Word(o, block, n + 5) == w5 && Word(o, block, n + 6) == w6 && Word(o, block, n + 7) == w7
  }

  /** The next eight, from the sixteen before. */
  lemma EightWords<W>(o: Words<W>, block: seq<bv8>, n: nat,
                      p0: W, p1: W, p2: W, p3: W, p4: W, p5: W, p6: W, p7: W,
                      q0: W, q1: W, q2: W, q3: W, q4: W, q5: W, q6: W, q7: W,
                      r0: W, r1: W, r2: W, r3: W, r4: W, r5: W, r6: W, r7: W)
    requires |block| == 64
    requires WordsAt(o, block, n, p0, p1, p2, p3, p4, p5, p6, p7) && WordsAt(o, block, n + 8, q0, q1, q2, q3, q4, q5, q6, q7)
    requires NextWord(o, q6, q1, p1, p0) == r0 && NextWord(o, q7, q2, p2, p1) == r1
    requires NextWord(o, r0, q3, p3, p2) == r2 && NextWord(o, r1, q4, p4, p3) == r3
    requires NextWord(o, r2, q5, p5, p4) == r4 && NextWord(o, r3, q6, p6, p5) == r5
    requires NextWord(o, r4, q7, p7, p6) == r6 && NextWord(o, r5, r0, q0, p7) == r7
    ensures WordsAt(o, block, n + 16, r0, r1, r2, r3, r4, r5, r6, r7)
  {
    LaterWord(o, block, n + 16, q6, q1, p1, p0);
    LaterWord(o, block, n + 17, q7, q2, p2, p1);
    LaterWord(o, block, n + 18, r0, q3, p3, p2);
    LaterWord(o, block, n + 19, r1, q4, p4, p3);
    LaterWord(o, block, n + 20, r2, q5, p5, p4);
    LaterWord(o, block, n + 21, r3, q6, p6, p5);
    LaterWord(o, block, n + 22, r4, q7, p7, p6);
    LaterWord(o, block, n + 23, r5, r0, q0, p7);
  }

  /** The working variables after `t` rounds. */
  ghost function After<W>(o: Words<W>, start: State<W>, block: seq<bv8>, t: nat): State<W>
    requires |block| == 64 && t <= |o.constants|
  {
    Rounds(o, start, Schedule(o, block, t))
  }

  lemma RoundAfter<W>(o: Words<W>, start: State<W>, block: seq<bv8>, t: nat)
    requires |block| == 64 && t < |o.constants|
    ensures After(o, start, block, t + 1) == Round(o, After(o, start, block, t), o.constants[t], Word(o, block, t))
  {
    assert Schedule(o, block, t + 1)[..t] == Schedule(o, block, t);
  }

  ghost predicate ConstantsAt<W>(o: Words<W>, t: nat, k0: W, k1: W, k2: W, k3: W, k4: W, k5: W, k6: W, k7: W) {
    && t + 8 <= |o.constants|
    && o.constants[t] == k0 && o.constants[t + 1] == k1 && o.constants[t + 2] == k2 && o.constants[t + 3] == k3
    && o.constants[t + 4] == k4 && o.constants[t + 5] == k5 && o.constants[t + 6] == k6 && o.constants[t + 7] == k7
  }

  /** Eight rounds. */
  lemma EightRounds<W>(o: Words<W>, start: State<W>, block: seq<bv8>, t: nat, s: State<W>,
                       k0: W, k1: W, k2: W, k3: W, k4: W, k5: W, k6: W, k7: W,
                       w0: W, w1: W, w2: W, w3: W, w4: W, w5: W, w6: W, w7: W,
                       a1: W, a2: W, a3: W, a4: W, a5: W, a6: W, a7: W, a8: W,
                       e1: W, e2: W, e3: W, e4: W, e5: W, e6: W, e7: W, e8: W)
    requires |block| == 64 && ConstantsAt(o, t, k0, k1, k2, k3, k4, k5, k6, k7) && WordsAt(o, block, t, w0, w1, w2, w3, w4, w5, w6, w7)
    requires After(o, start, block, t) == s
    requires Round(o, s, k0, w0) == State(a1, s.a, s.b, s.c, e1, s.e, s.f, s.g)
    requires Round(o, State(a1, s.a, s.b, s.c, e1, s.e, s.f, s.g), k1, w1) == State(a2, a1, s.a, s.b, e2, e1, s.e, s.f)
    requires Round(o, State(a2, a1, s.a, s.b, e2, e1, s.e, s.f), k2, w2) == State(a3, a2, a1, s.a, e3, e2, e1, s.e)
    requires Round(o, State(a3, a2, a1, s.a, e3, e2, e1, s.e), k3, w3) == State(a4, a3, a2, a1, e4, e3, e2, e1)
    requires Round(o, State(a4, a3, a2, a1, e4, e3, e2, e1), k4, w4) == State(a5, a4, a3, a2, e5, e4, e3, e2)
    requires Round(o, State(a5, a4, a3, a2, e5, e4, e3, e2), k5, w5) == State(a6, a5, a4, a3, e6, e5, e4, e3)
    requires Round(o, State(a6, a5, a4, a3, e6, e5, e4, e3), k6, w6) == State(a7, a6, a5, a4, e7, e6, e5, e4)
    requires Round(o, State(a7, a6, a5, a4, e7, e6, e5, e4), k7, w7) == State(a8, a7, a6, a5, e8, e7, e6, e5)
    ensures After(o, start, block, t + 8) == State(a8, a7, a6, a5, e8, e7, e6, e5)
  {
    RoundAfter(o, start, block, t);
    RoundAfter(o, start, block, t + 1);
    RoundAfter(o, start, block, t + 2);
    RoundAfter(o, start, block, t + 3);
    RoundAfter(o, start, block, t + 4);
    RoundAfter(o, start, block, t + 5);
    RoundAfter(o, start, block, t + 6);
    RoundAfter(o, start, block, t + 7);
  }

  lemma ConstantsFrom0()
    ensures ConstantsAt(WORDS, 0, 0x428a2f98, 0x71374491, 0xb5c0fbcf, 0xe9b5dba5, 0x3956c25b, 0x59f111f1, 0x923f82a4, 0xab1c5ed5)
  {
  }

  lemma ConstantsFrom8()
    ensures ConstantsAt(WORDS, 8, 0xd807aa98, 0x12835b01, 0x243185be, 0x550c7dc3, 0x72be5d74, 0x80deb1fe, 0x9bdc06a7, 0xc19bf174)
  {
  }

  lemma ConstantsFrom16()
    ensures ConstantsAt(WORDS, 16, 0xe49b69c1, 0xefbe4786, 0x0fc19dc6, 0x240ca1cc, 0x2de92c6f, 0x4a7484aa, 0x5cb0a9dc, 0x76f988da)
  {
  }

  lemma ConstantsFrom24()
    ensures ConstantsAt(WORDS, 24, 0x983e5152, 0xa831c66d, 0xb00327c8, 0xbf597fc7, 0xc6e00bf3, 0xd5a79147, 0x06ca6351, 0x14292967)
  {
  }

  lemma ConstantsFrom32()
    ensures ConstantsAt(WORDS, 32, 0x27b70a85, 0x2e1b2138, 0x4d2c6dfc, 0x53380d13, 0x650a7354, 0x766a0abb, 0x81c2c92e, 0x92722c85)
  {
  }

  lemma ConstantsFrom40()
    ensures ConstantsAt(WORDS, 40, 0xa2bfe8a1, 0xa81a664b, 0xc24b8b70, 0xc76c51a3, 0xd192e819, 0xd6990624, 0xf40e3585, 0x106aa070)
  {
  }

  lemma ConstantsFrom48()
    ensures ConstantsAt(WORDS, 48, 0x19a4c116, 0x1e376c08, 0x2748774c, 0x34b0bcb5, 0x391c0cb3, 0x4ed8aa4a, 0x5b9cca4f, 0x682e6ff3)
  {
  }

  lemma ConstantsFrom56()
    ensures ConstantsAt(WORDS, 56, 0x748f82ee, 0x78a5636f, 0x84c87814, 0x8cc70208, 0x90befffa, 0xa4506ceb, 0xbef9a3f7, 0xc67178f2)
  {
  }

  // ----- a text that fills less than one block -----

  lemma SmallQuotient(a: nat, b: nat)
    requires a < b
    ensures a / b == 0
  {
  }

  lemma LowPower(i: nat)
    ensures i > 0 ==> Pow256(i) >= 256
  {
  }

  /** A length below 256 bits is in the last byte. */
  lemma ShortLength(bits: nat, i: nat)
    requires bits < 256 && i < 8
    ensures bits / Pow256(i) % 256 == if i == 0 then bits else 0
  {
    if i > 0 {
      LowPower(i);
      SmallQuotient(bits, Pow256(i));
    }
  }

  lemma ShortLengthByte(bits: nat, i: nat)
    requires bits < 256 && i < 8
    ensures LengthByte(bits, i) == (if i == 0 then bits else 0) as bv8
  {
    ShortLength(bits, i);
  }

  /** The padded block of a short text, byte by byte behind the 1 bit. */
  lemma ShortPad(text: seq<bv8>, i: nat)
    requires |text| < 32 && |text| < i < 64
    ensures |Pad(text)| == 64
    ensures Pad(text)[i] == if i < 56 then 0 else LengthByte(8 * |text|, 63 - i)
  {
    PadLayout(text);
    if i >= 56 {
      assert Pad(text)[i] == LengthBytes(|text|)[i - 56];
    }
  }

  /** The first words of a block that holds three bytes and the 1 bit, or less, and a length. */
  lemma ShortBlock<W>(o: Words<W>, block: seq<bv8>, b0: bv8, b1: bv8, b2: bv8, b3: bv8, last: bv8, x: W, zero: W, y: W)
    requires |block| == 64 && block[0] == b0 && block[1] == b1 && block[2] == b2 && block[3] == b3 && block[63] == last
    requires forall i :: 4 <= i < 63 ==> block[i] == 0
    requires o.pack(b0, b1, b2, b3) == x && o.pack(0, 0, 0, 0) == zero && o.pack(0, 0, 0, last) == y
    ensures WordsAt(o, block, 0, x, zero, zero, zero, zero, zero, zero, zero)
    ensures WordsAt(o, block, 8, zero, zero, zero, zero, zero, zero, zero, y)
  {
    FirstWord(o, block, 0, b0, b1, b2, b3, x);
    forall n: nat | 1 <= n < 15 ensures Word(o, block, n) == zero {
      FirstWord(o, block, n, 0, 0, 0, 0, zero);
    }
    FirstWord(o, block, 15, 0, 0, 0, last, y);
  }

  lemma NoneAfter<W>(o: Words<W>, start: State<W>, block: seq<bv8>)
    requires |block| == 64
    ensures After(o, start, block, 0) == start
  {
  }

  lemma ShortHash<W>(o: Words<W>, start: State<W>, text: seq<bv8>)
    requires |Pad(text)| == 64 && |o.constants| == 64
    ensures Hash(o, start, text) == Plus(o, start, After(o, start, Pad(text), 64))
  {
    CompressAllOne(o, start, Pad(text));
  }

  /** The digits of a hash value. */
  lemma DigestMore(words: seq<bv32>, x: bv32, digits: string)
    requires Hex(x) == digits
    ensures Digest(words + [x]) == Digest(words) + digits
  {
    assert (words + [x])[..|words|] == words;
  }

  /** The digits of a hash value, word by word. */
  lemma DigestWords(s: State<bv32>, a: string, b: string, c: string, d: string, e: string, f: string, g: string, h: string)
    requires Hex(s.a) == a && Hex(s.b) == b && Hex(s.c) == c && Hex(s.d) == d
    requires Hex(s.e) == e && Hex(s.f) == f && Hex(s.g) == g && Hex(s.h) == h
    ensures Digest(WordsOf(s)) == a + b + c + d + e + f + g + h
  {
    DigestMore([], s.a, a);
    DigestMore([s.a], s.b, b);
    DigestMore([s.a, s.b], s.c, c);
    DigestMore([s.a, s.b, s.c], s.d, d);
    DigestMore([s.a, s.b, s.c, s.d], s.e, e);
    DigestMore([s.a, s.b, s.c, s.d, s.e], s.f, f);
    DigestMore([s.a, s.b, s.c, s.d, s.e, s.f], s.g, g);
    DigestMore([s.a, s.b, s.c, s.d, s.e, s.f, s.g], s.h, h);
    Appended(s);
    assert "" + a == a;
  }

  lemma Appended(s: State<bv32>)
    ensures [] + [s.a] == [s.a] && [s.a] + [s.b] == [s.a, s.b] && [s.a, s.b] + [s.c] == [s.a, s.b, s.c]
    ensures [s.a, s.b, s.c] + [s.d] == [s.a, s.b, s.c, s.d] && [s.a, s.b, s.c, s.d] + [s.e] == [s.a, s.b, s.c, s.d, s.e]
    ensures [s.a, s.b, s.c, s.d, s.e] + [s.f] == [s.a, s.b, s.c, s.d, s.e, s.f]
    ensures [s.a, s.b, s.c, s.d, s.e, s.f] + [s.g] == [s.a, s.b, s.c, s.d, s.e, s.f, s.g]
    ensures [s.a, s.b, s.c, s.d, s.e, s.f, s.g] + [s.h] == WordsOf(s)
  {
  }
}
