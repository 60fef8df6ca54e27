/** The digest of the text "abc", followed through its one block. */
module DigestOfAbc {
  import opened PlanHashing
  import opened DigestSteps

  const TEXT: seq<bv8> := [0x61, 0x62, 0x63]

  // ----- the message schedule -----

  lemma BlockBytes()
    ensures var block := Pad(TEXT);
            && |block| == 64 && block[0] == 0x61 && block[1] == 0x62 && block[2] == 0x63 && block[3] == 0x80 && block[63] == 0x18
            && forall i :: 4 <= i < 63 ==> block[i] == 0
  {
    PadLayout(TEXT);
    forall i: nat | 3 < i < 64 ensures Pad(TEXT)[i] == if i == 63 then 0x18 else 0 {
      ShortPad(TEXT, i);
      if i >= 56 {
        ShortLengthByte(24, 63 - i);
      }
    }
  }

  lemma FirstWords(block: seq<bv8>)
    requires block == Pad(TEXT)
    ensures |block| == 64
    ensures WordsAt(WORDS, block, 0, 0x61626380, 0x00000000, 0x00000000, 0x00000000, 0x00000000, 0x00000000, 0x00000000, 0x00000000)
    ensures WordsAt(WORDS, block, 8, 0x00000000, 0x00000000, 0x00000000, 0x00000000, 0x00000000, 0x00000000, 0x00000000, 0x00000018)
  {
    BlockBytes();
    ShortBlock(WORDS, block, 0x61, 0x62, 0x63, 0x80, 0x18, 0x61626380, 0, 0x00000018);
  }

  lemma ScheduleFrom16(block: seq<bv8>)
    requires |block| == 64
    requires WordsAt(WORDS, block, 0, 0x61626380, 0x00000000, 0x00000000, 0x00000000, 0x00000000, 0x00000000, 0x00000000, 0x00000000)
    requires WordsAt(WORDS, block, 8, 0x00000000, 0x00000000, 0x00000000, 0x00000000, 0x00000000, 0x00000000, 0x00000000, 0x00000018)
    ensures WordsAt(WORDS, block, 16, 0x61626380, 0x000f0000, 0x7da86405, 0x600003c6, 0x3e9d7b78, 0x0183fc00, 0x12dcbfdb, 0xe2e2c38e)
  {
    EightWords(WORDS, block, 0, 0x61626380, 0x00000000, 0x00000000, 0x00000000, 0x00000000, 0x00000000, 0x00000000, 0x00000000,
               0x00000000, 0x00000000, 0x00000000, 0x00000000, 0x00000000, 0x00000000, 0x00000000, 0x00000018,
               0x61626380, 0x000f0000, 0x7da86405, 0x600003c6, 0x3e9d7b78, 0x0183fc00, 0x12dcbfdb, 0xe2e2c38e);
  }

  lemma ScheduleFrom24(block: seq<bv8>)
    requires |block| == 64
    requires WordsAt(WORDS, block, 8, 0x00000000, 0x00000000, 0x00000000, 0x00000000, 0x00000000, 0x00000000, 0x00000000, 0x00000018)
    requires WordsAt(WORDS, block, 16, 0x61626380, 0x000f0000, 0x7da86405, 0x600003c6, 0x3e9d7b78, 0x0183fc00, 0x12dcbfdb, 0xe2e2c38e)
    ensures WordsAt(WORDS, block, 24, 0xc8215c1a, 0xb73679a2, 0xe5bc3909, 0x32663c5b, 0x9d209d67, 0xec8726cb, 0x702138a4, 0xd3b7973b)
  {
    EightWords(WORDS, block, 8, 0x00000000, 0x00000000, 0x00000000, 0x00000000, 0x00000000, 0x00000000, 0x00000000, 0x00000018,
               0x61626380, 0x000f0000, 0x7da86405, 0x600003c6, 0x3e9d7b78, 0x0183fc00, 0x12dcbfdb, 0xe2e2c38e,
               0xc8215c1a, 0xb73679a2, 0xe5bc3909, 0x32663c5b, 0x9d209d67, 0xec8726cb, 0x702138a4, 0xd3b7973b);
  }

  lemma ScheduleFrom32(block: seq<bv8>)
    requires |block| == 64
    requires WordsAt(WORDS, block, 16, 0x61626380, 0x000f0000, 0x7da86405, 0x600003c6, 0x3e9d7b78, 0x0183fc00, 0x12dcbfdb, 0xe2e2c38e)
    requires WordsAt(WORDS, block, 24, 0xc8215c1a, 0xb73679a2, 0xe5bc3909, 0x32663c5b, 0x9d209d67, 0xec8726cb, 0x702138a4, 0xd3b7973b)
    ensures WordsAt(WORDS, block, 32, 0x93f5997f, 0x3b68ba73, 0xaff4ffc1, 0xf10a5c62, 0x0a8b3996, 0x72af830a, 0x9409e33e, 0x24641522)
  {
    EightWords(WORDS, block, 16, 0x61626380, 0x000f0000, 0x7da86405, 0x600003c6, 0x3e9d7b78, 0x0183fc00, 0x12dcbfdb, 0xe2e2c38e,
               0xc8215c1a, 0xb73679a2, 0xe5bc3909, 0x32663c5b, 0x9d209d67, 0xec8726cb, 0x702138a4, 0xd3b7973b,
               0x93f5997f, 0x3b68ba73, 0xaff4ffc1, 0xf10a5c62, 0x0a8b3996, 0x72af830a, 0x9409e33e, 0x24641522);
  }

  lemma ScheduleFrom40(block: seq<bv8>)
    requires |block| == 64
    requires WordsAt(WORDS, block, 24, 0xc8215c1a, 0xb73679a2, 0xe5bc3909, 0x32663c5b, 0x9d209d67, 0xec8726cb, 0x702138a4, 0xd3b7973b)
    requires WordsAt(WORDS, block, 32, 0x93f5997f, 0x3b68ba73, 0xaff4ffc1, 0xf10a5c62, 0x0a8b3996, 0x72af830a, 0x9409e33e, 0x24641522)
    ensures WordsAt(WORDS, block, 40, 0x9f47bf94, 0xf0a64f5a, 0x3e246a79, 0x27333ba3, 0x0c4763f2, 0x840abf27, 0x7a290d5d, 0x065c43da)
  {
    EightWords(WORDS, block, 24, 0xc8215c1a, 0xb73679a2, 0xe5bc3909, 0x32663c5b, 0x9d209d67, 0xec8726cb, 0x702138a4, 0xd3b7973b,
               0x93f5997f, 0x3b68ba73, 0xaff4ffc1, 0xf10a5c62, 0x0a8b3996, 0x72af830a, 0x9409e33e, 0x24641522,
               0x9f47bf94, 0xf0a64f5a, 0x3e246a79, 0x27333ba3, 0x0c4763f2, 0x840abf27, 0x7a290d5d, 0x065c43da);
  }

  lemma ScheduleFrom48(block: seq<bv8>)
    requires |block| == 64
    requires WordsAt(WORDS, block, 32, 0x93f5997f, 0x3b68ba73, 0xaff4ffc1, 0xf10a5c62, 0x0a8b3996, 0x72af830a, 0x9409e33e, 0x24641522)
    requires WordsAt(WORDS, block, 40, 0x9f47bf94, 0xf0a64f5a, 0x3e246a79, 0x27333ba3, 0x0c4763f2, 0x840abf27, 0x7a290d5d, 0x065c43da)
    ensures WordsAt(WORDS, block, 48, 0xfb3e89cb, 0xcc7617db, 0xb9e66c34, 0xa9993667, 0x84badedd, 0xc21462bc, 0x1487472c, 0xb20f7a99)
  {
    EightWords(WORDS, block, 32, 0x93f5997f, 0x3b68ba73, 0xaff4ffc1, 0xf10a5c62, 0x0a8b3996, 0x72af830a, 0x9409e33e, 0x24641522,
               0x9f47bf94, 0xf0a64f5a, 0x3e246a79, 0x27333ba3, 0x0c4763f2, 0x840abf27, 0x7a290d5d, 0x065c43da,
               0xfb3e89cb, 0xcc7617db, 0xb9e66c34, 0xa9993667, 0x84badedd, 0xc21462bc, 0x1487472c, 0xb20f7a99);
  }

  lemma ScheduleFrom56(block: seq<bv8>)
    requires |block| == 64
    requires WordsAt(WORDS, block, 40, 0x9f47bf94, 0xf0a64f5a, 0x3e246a79, 0x27333ba3, 0x0c4763f2, 0x840abf27, 0x7a290d5d, 0x065c43da)
    requires WordsAt(WORDS, block, 48, 0xfb3e89cb, 0xcc7617db, 0xb9e66c34, 0xa9993667, 0x84badedd, 0xc21462bc, 0x1487472c, 0xb20f7a99)
    ensures WordsAt(WORDS, block, 56, 0xef57b9cd, 0xebe6b238, 0x9fe3095e, 0x78bc8d4b, 0xa43fcf15, 0x668b2ff8, 0xeeaba2cc, 0x12b1edeb)
  {
    EightWords(WORDS, block, 40, 0x9f47bf94, 0xf0a64f5a, 0x3e246a79, 0x27333ba3, 0x0c4763f2, 0x840abf27, 0x7a290d5d, 0x065c43da,
               0xfb3e89cb, 0xcc7617db, 0xb9e66c34, 0xa9993667, 0x84badedd, 0xc21462bc, 0x1487472c, 0xb20f7a99,
               0xef57b9cd, 0xebe6b238, 0x9fe3095e, 0x78bc8d4b, 0xa43fcf15, 0x668b2ff8, 0xeeaba2cc, 0x12b1edeb);
  }

  // ----- the rounds -----

  lemma RoundsFrom0(block: seq<bv8>, start: State<bv32>)
    requires |block| == 64 && WordsAt(WORDS, block, 0, 0x61626380, 0x00000000, 0x00000000, 0x00000000, 0x00000000, 0x00000000, 0x00000000, 0x00000000)
    requires After(WORDS, start, block, 0) == State(0x6a09e667, 0xbb67ae85, 0x3c6ef372, 0xa54ff53a, 0x510e527f, 0x9b05688c, 0x1f83d9ab, 0x5be0cd19)
    ensures After(WORDS, start, block, 8)
         == State(0x85a07b5f, 0xe5030380, 0x2b4209f5, 0x04409a6a, 0x0c657a79, 0x9b27a401, 0x714260ad, 0x43ada245)
  {
    ConstantsFrom0();
    EightRounds(WORDS, start, block, 0, State(0x6a09e667, 0xbb67ae85, 0x3c6ef372, 0xa54ff53a, 0x510e527f, 0x9b05688c, 0x1f83d9ab, 0x5be0cd19),
                0x428a2f98, 0x71374491, 0xb5c0fbcf, 0xe9b5dba5, 0x3956c25b, 0x59f111f1, 0x923f82a4, 0xab1c5ed5,
                0x61626380, 0x00000000, 0x00000000, 0x00000000, 0x00000000, 0x00000000, 0x00000000, 0x00000000,
                0x5d6aebcd, 0x5a6ad9ad, 0xc8c347a7, 0xd550f666, 0x04409a6a, 0x2b4209f5, 0xe5030380, 0x85a07b5f,
                0xfa2a4622, 0x78ce7989, 0xf92939eb, 0x24e00850, 0x43ada245, 0x714260ad, 0x9b27a401, 0x0c657a79);
  }

  lemma RoundsFrom8(block: seq<bv8>, start: State<bv32>)
    requires |block| == 64 && WordsAt(WORDS, block, 8, 0x00000000, 0x00000000, 0x00000000, 0x00000000, 0x00000000, 0x00000000, 0x00000000, 0x00000018)
    requires After(WORDS, start, block, 8) == State(0x85a07b5f, 0xe5030380, 0x2b4209f5, 0x04409a6a, 0x0c657a79, 0x9b27a401, 0x714260ad, 0x43ada245)
    ensures After(WORDS, start, block, 16)
         == State(0xb0fa238e, 0xc0645fde, 0xd932eb16, 0x87912990, 0x07590dcd, 0x0b92f20c, 0x745a48de, 0x1e578218)
  {
    ConstantsFrom8();
    EightRounds(WORDS, start, block, 8, State(0x85a07b5f, 0xe5030380, 0x2b4209f5, 0x04409a6a, 0x0c657a79, 0x9b27a401, 0x714260ad, 0x43ada245),
                0xd807aa98, 0x12835b01, 0x243185be, 0x550c7dc3, 0x72be5d74, 0x80deb1fe, 0x9bdc06a7, 0xc19bf174,
                0x00000000, 0x00000000, 0x00000000, 0x00000000, 0x00000000, 0x00000000, 0x00000000, 0x00000018,
                0x8e04ecb9, 0x8c87346b, 0x4798a3f4, 0xf71fc5a9, 0x87912990, 0xd932eb16, 0xc0645fde, 0xb0fa238e,
                0x32ca2d8c, 0x1cc92596, 0x436b23e8, 0x816fd6e9, 0x1e578218, 0x745a48de, 0x0b92f20c, 0x07590dcd);
  }

  lemma RoundsFrom16(block: seq<bv8>, start: State<bv32>)
    requires |block| == 64 && WordsAt(WORDS, block, 16, 0x61626380, 0x000f0000, 0x7da86405, 0x600003c6, 0x3e9d7b78, 0x0183fc00, 0x12dcbfdb, 0xe2e2c38e)
    requires After(WORDS, start, block, 16) == State(0xb0fa238e, 0xc0645fde, 0xd932eb16, 0x87912990, 0x07590dcd, 0x0b92f20c, 0x745a48de, 0x1e578218)
    ensures After(WORDS, start, block, 24)
         == State(0xc5d53d8d, 0xa7a3623f, 0xc2606d6d, 0x9dc68b63, 0xaa47c347, 0x49f5114a, 0xe1257970, 0x8ada8930)
  {
    ConstantsFrom16();
    EightRounds(WORDS, start, block, 16, State(0xb0fa238e, 0xc0645fde, 0xd932eb16, 0x87912990, 0x07590dcd, 0x0b92f20c, 0x745a48de, 0x1e578218),
                0xe49b69c1, 0xefbe4786, 0x0fc19dc6, 0x240ca1cc, 0x2de92c6f, 0x4a7484aa, 0x5cb0a9dc, 0x76f988da,
                0x61626380, 0x000f0000, 0x7da86405, 0x600003c6, 0x3e9d7b78, 0x0183fc00, 0x12dcbfdb, 0xe2e2c38e,
                0x21da9a9b, 0xc2fbd9d1, 0xfe777bbf, 0xe1f20c33, 0x9dc68b63, 0xc2606d6d, 0xa7a3623f, 0xc5d53d8d,
                0x8034229c, 0x846ee454, 0xcc899961, 0xb0638179, 0x8ada8930, 0xe1257970, 0x49f5114a, 0xaa47c347);
  }

  lemma RoundsFrom24(block: seq<bv8>, start: State<bv32>)
    requires |block| == 64 && WordsAt(WORDS, block, 24, 0xc8215c1a, 0xb73679a2, 0xe5bc3909, 0x32663c5b, 0x9d209d67, 0xec8726cb, 0x702138a4, 0xd3b7973b)
    requires After(WORDS, start, block, 24) == State(0xc5d53d8d, 0xa7a3623f, 0xc2606d6d, 0x9dc68b63, 0xaa47c347, 0x49f5114a, 0xe1257970, 0x8ada8930)
    ensures After(WORDS, start, block, 32)
         == State(0x73b33bf5, 0xea992a22, 0xa0060b30, 0x363482c9, 0xba591112, 0x0109ab3a, 0xade79437, 0x6112a3b7)
  {
    ConstantsFrom24();
    EightRounds(WORDS, start, block, 24, State(0xc5d53d8d, 0xa7a3623f, 0xc2606d6d, 0x9dc68b63, 0xaa47c347, 0x49f5114a, 0xe1257970, 0x8ada8930),
                0x983e5152, 0xa831c66d, 0xb00327c8, 0xbf597fc7, 0xc6e00bf3, 0xd5a79147, 0x06ca6351, 0x14292967,
                0xc8215c1a, 0xb73679a2, 0xe5bc3909, 0x32663c5b, 0x9d209d67, 0xec8726cb, 0x702138a4, 0xd3b7973b,
                0x1c2c2838, 0xcde8037d, 0xb62ec4bc, 0x77d37528, 0x363482c9, 0xa0060b30, 0xea992a22, 0x73b33bf5,
                0x2823ef91, 0x14383d8e, 0xc74c6516, 0xedffbff8, 0x6112a3b7, 0xade79437, 0x0109ab3a, 0xba591112);
  }

  lemma RoundsFrom32(block: seq<bv8>, start: State<bv32>)
    requires |block| == 64 && WordsAt(WORDS, block, 32, 0x93f5997f, 0x3b68ba73, 0xaff4ffc1, 0xf10a5c62, 0x0a8b3996, 0x72af830a, 0x9409e33e, 0x24641522)
    requires After(WORDS, start, block, 32) == State(0x73b33bf5, 0xea992a22, 0xa0060b30, 0x363482c9, 0xba591112, 0x0109ab3a, 0xade79437, 0x6112a3b7)
    ensures After(WORDS, start, block, 40)
         == State(0x79ea687a, 0x6dc57a8a, 0x34df1604, 0x41a65cb1, 0x1efbc0a0, 0xf0781bc8, 0xa507a53d, 0x0772a26b)
  {
    ConstantsFrom32();
    EightRounds(WORDS, start, block, 32, State(0x73b33bf5, 0xea992a22, 0xa0060b30, 0x363482c9, 0xba591112, 0x0109ab3a, 0xade79437, 0x6112a3b7),
                0x27b70a85, 0x2e1b2138, 0x4d2c6dfc, 0x53380d13, 0x650a7354, 0x766a0abb, 0x81c2c92e, 0x92722c85,
                0x93f5997f, 0x3b68ba73, 0xaff4ffc1, 0xf10a5c62, 0x0a8b3996, 0x72af830a, 0x9409e33e, 0x24641522,
                0x98e12507, 0xfe604df5, 0xa9a7738c, 0x65a0cfe4, 0x41a65cb1, 0x34df1604, 0x6dc57a8a, 0x79ea687a,
                0x9cd9f5f6, 0x59249dd3, 0x085f3833, 0xf4b002d6, 0x0772a26b, 0xa507a53d, 0xf0781bc8, 0x1efbc0a0);
  }

  lemma RoundsFrom40(block: seq<bv8>, start: State<bv32>)
    requires |block| == 64 && WordsAt(WORDS, block, 40, 0x9f47bf94, 0xf0a64f5a, 0x3e246a79, 0x27333ba3, 0x0c4763f2, 0x840abf27, 0x7a290d5d, 0x065c43da)
    requires After(WORDS, start, block, 40) == State(0x79ea687a, 0x6dc57a8a, 0x34df1604, 0x41a65cb1, 0x1efbc0a0, 0xf0781bc8, 0xa507a53d, 0x0772a26b)
    ensures After(WORDS, start, block, 48)
         == State(0x4172328d, 0xa14c14b0, 0x72ab4b91, 0x26628815, 0xfecf0bc6, 0xd57b94a9, 0xb7755da1, 0xa80f11f0)
  {
    ConstantsFrom40();
    EightRounds(WORDS, start, block, 40, State(0x79ea687a, 0x6dc57a8a, 0x34df1604, 0x41a65cb1, 0x1efbc0a0, 0xf0781bc8, 0xa507a53d, 0x0772a26b),
                0xa2bfe8a1, 0xa81a664b, 0xc24b8b70, 0xc76c51a3, 0xd192e819, 0xd6990624, 0xf40e3585, 0x106aa070,
                0x9f47bf94, 0xf0a64f5a, 0x3e246a79, 0x27333ba3, 0x0c4763f2, 0x840abf27, 0x7a290d5d, 0x065c43da,
                0xd6670766, 0xdf46652f, 0x17aa0dfe, 0x9d4baf93, 0x26628815, 0x72ab4b91, 0xa14c14b0, 0x4172328d,
                0x26352d63, 0x838b2711, 0xdecd4715, 0xfda24c2e, 0xa80f11f0, 0xb7755da1, 0xd57b94a9, 0xfecf0bc6);
  }

  lemma RoundsFrom48(block: seq<bv8>, start: State<bv32>)
    requires |block| == 64 && WordsAt(WORDS, block, 48, 0xfb3e89cb, 0xcc7617db, 0xb9e66c34, 0xa9993667, 0x84badedd, 0xc21462bc, 0x1487472c, 0xb20f7a99)
    requires After(WORDS, start, block, 48) == State(0x4172328d, 0xa14c14b0, 0x72ab4b91, 0x26628815, 0xfecf0bc6, 0xd57b94a9, 0xb7755da1, 0xa80f11f0)
    ensures After(WORDS, start, block, 56)
         == State(0x38cc9913, 0x3ec45cdb, 0xf5702fdb, 0x101fd28f, 0x54cb266b, 0xe50e1b4f, 0x9f4787c3, 0x529e7d00)
  {
    ConstantsFrom48();
    EightRounds(WORDS, start, block, 48, State(0x4172328d, 0xa14c14b0, 0x72ab4b91, 0x26628815, 0xfecf0bc6, 0xd57b94a9, 0xb7755da1, 0xa80f11f0),
                0x19a4c116, 0x1e376c08, 0x2748774c, 0x34b0bcb5, 0x391c0cb3, 0x4ed8aa4a, 0x5b9cca4f, 0x682e6ff3,
                0xfb3e89cb, 0xcc7617db, 0xb9e66c34, 0xa9993667, 0x84badedd, 0xc21462bc, 0x1487472c, 0xb20f7a99,
                0x05757ceb, 0xf11bfaa8, 0x7a0508a1, 0x886e7a22, 0x101fd28f, 0xf5702fdb, 0x3ec45cdb, 0x38cc9913,
                0xbd714038, 0x6e5c390c, 0x52f1ccf7, 0x49231c1e, 0x529e7d00, 0x9f4787c3, 0xe50e1b4f, 0x54cb266b);
  }

  lemma RoundsFrom56(block: seq<bv8>, start: State<bv32>)
    requires |block| == 64 && WordsAt(WORDS, block, 56, 0xef57b9cd, 0xebe6b238, 0x9fe3095e, 0x78bc8d4b, 0xa43fcf15, 0x668b2ff8, 0xeeaba2cc, 0x12b1edeb)
    requires After(WORDS, start, block, 56) == State(0x38cc9913, 0x3ec45cdb, 0xf5702fdb, 0x101fd28f, 0x54cb266b, 0xe50e1b4f, 0x9f4787c3, 0x529e7d00)
    ensures After(WORDS, start, block, 64)
         == State(0x506e3058, 0xd39a2165, 0x04d24d6c, 0xb85e2ce9, 0x5ef50f24, 0xfb121210, 0x948d25b6, 0x961f4894)
  {
    ConstantsFrom56();
    EightRounds(WORDS, start, block, 56, State(0x38cc9913, 0x3ec45cdb, 0xf5702fdb, 0x101fd28f, 0x54cb266b, 0xe50e1b4f, 0x9f4787c3, 0x529e7d00),
                0x748f82ee, 0x78a5636f, 0x84c87814, 0x8cc70208, 0x90befffa, 0xa4506ceb, 0xbef9a3f7, 0xc67178f2,
                0xef57b9cd, 0xebe6b238, 0x9fe3095e, 0x78bc8d4b, 0xa43fcf15, 0x668b2ff8, 0xeeaba2cc, 0x12b1edeb,
                0xfcd1887b, 0xc062d46f, 0xffb70472, 0xb6ae8fff, 0xb85e2ce9, 0x04d24d6c, 0xd39a2165, 0x506e3058,
                0x9b5e906c, 0x7e44008e, 0x6d83bfc6, 0xb21bad3d, 0x961f4894, 0x948d25b6, 0xfb121210, 0x5ef50f24);
  }

  // ----- the digest -----

  lemma AllRounds(block: seq<bv8>, start: State<bv32>)
    requires block == Pad(TEXT) && start == State(0x6a09e667, 0xbb67ae85, 0x3c6ef372, 0xa54ff53a, 0x510e527f, 0x9b05688c, 0x1f83d9ab, 0x5be0cd19)
    ensures |block| == 64
    ensures After(WORDS, start, block, 64)
         == State(0x506e3058, 0xd39a2165, 0x04d24d6c, 0xb85e2ce9, 0x5ef50f24, 0xfb121210, 0x948d25b6, 0x961f4894)
  {
    FirstWords(block);
    NoneAfter(WORDS, start, block);
    RoundsFrom0(block, start);
    RoundsFrom8(block, start);
    ScheduleFrom16(block);
    RoundsFrom16(block, start);
    ScheduleFrom24(block);
    RoundsFrom24(block, start);
    ScheduleFrom32(block);
    RoundsFrom32(block, start);
    ScheduleFrom40(block);
    RoundsFrom40(block, start);
    ScheduleFrom48(block);
    RoundsFrom48(block, start);
    ScheduleFrom56(block);
    RoundsFrom56(block, start);
  }

  lemma LastSum()
    ensures Plus(WORDS, State(0x6a09e667, 0xbb67ae85, 0x3c6ef372, 0xa54ff53a, 0x510e527f, 0x9b05688c, 0x1f83d9ab, 0x5be0cd19),
                 State(0x506e3058, 0xd39a2165, 0x04d24d6c, 0xb85e2ce9, 0x5ef50f24, 0xfb121210, 0x948d25b6, 0x961f4894))
         == State(0xba7816bf, 0x8f01cfea, 0x414140de, 0x5dae2223, 0xb00361a3, 0x96177a9c, 0xb410ff61, 0xf20015ad)
  {
  }

  lemma Digits()
    ensures Digest(WordsOf(State(0xba7816bf, 0x8f01cfea, 0x414140de, 0x5dae2223, 0xb00361a3, 0x96177a9c, 0xb410ff61, 0xf20015ad)))
         == "ba7816bf" + "8f01cfea" + "414140de" + "5dae2223" + "b00361a3" + "96177a9c" + "b410ff61" + "f20015ad"
  {
    DigestWords(State(0xba7816bf, 0x8f01cfea, 0x414140de, 0x5dae2223, 0xb00361a3, 0x96177a9c, 0xb410ff61, 0xf20015ad),
                "ba7816bf", "8f01cfea", "414140de", "5dae2223", "b00361a3", "96177a9c", "b410ff61", "f20015ad");
  }

  /** The published value. */
  lemma PublishedDigest()
    ensures Sha256(TEXT)
         == "ba7816bf" + "8f01cfea" + "414140de" + "5dae2223" + "b00361a3" + "96177a9c" + "b410ff61" + "f20015ad"
  {
    var start := StateOf(INITIAL_HASH);
    assert start == State(0x6a09e667, 0xbb67ae85, 0x3c6ef372, 0xa54ff53a, 0x510e527f, 0x9b05688c, 0x1f83d9ab, 0x5be0cd19);
    AllRounds(Pad(TEXT), start);
    ShortHash(WORDS, start, TEXT);
    LastSum();
    Digits();
  }
}
