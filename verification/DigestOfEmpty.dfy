/** The digest of the empty text, followed through its one block. */
module DigestOfEmpty {
  import opened PlanHashing
  import opened DigestSteps

  const TEXT: seq<bv8> := []

  // ----- the message schedule -----

  lemma BlockBytes()
    ensures var block := Pad(TEXT);
            && |block| == 64 && block[0] == 0x80 && block[1] == 0x00 && block[2] == 0x00 && block[3] == 0x00 && block[63] == 0x00
            && forall i :: 4 <= i < 63 ==> block[i] == 0
  {
    PadLayout(TEXT);
    forall i: nat | 0 < i < 64 ensures Pad(TEXT)[i] == if i == 63 then 0x00 else 0 {
      ShortPad(TEXT, i);
      if i >= 56 {
        ShortLengthByte(0, 63 - i);
      }
    }
  }

  lemma FirstWords(block: seq<bv8>)
    requires block == Pad(TEXT)
    ensures |block| == 64
    ensures WordsAt(WORDS, block, 0, 0x80000000, 0x00000000, 0x00000000, 0x00000000, 0x00000000, 0x00000000, 0x00000000, 0x00000000)
    ensures WordsAt(WORDS, block, 8, 0x00000000, 0x00000000, 0x00000000, 0x00000000, 0x00000000, 0x00000000, 0x00000000, 0x00000000)
  {
    BlockBytes();
    ShortBlock(WORDS, block, 0x80, 0x00, 0x00, 0x00, 0x00, 0x80000000, 0, 0x00000000);
  }

  lemma ScheduleFrom16(block: seq<bv8>)
    requires |block| == 64
    requires WordsAt(WORDS, block, 0, 0x80000000, 0x00000000, 0x00000000, 0x00000000, 0x00000000, 0x00000000, 0x00000000, 0x00000000)
    requires WordsAt(WORDS, block, 8, 0x00000000, 0x00000000, 0x00000000, 0x00000000, 0x00000000, 0x00000000, 0x00000000, 0x00000000)
    ensures WordsAt(WORDS, block, 16, 0x80000000, 0x00000000, 0x00205000, 0x00000000, 0x22000800, 0x00000000, 0x05089542, 0x80000000)
  {
    EightWords(WORDS, block, 0, 0x80000000, 0x00000000, 0x00000000, 0x00000000, 0x00000000, 0x00000000, 0x00000000, 0x00000000,
               0x00000000, 0x00000000, 0x00000000, 0x00000000, 0x00000000, 0x00000000, 0x00000000, 0x00000000,
               0x80000000, 0x00000000, 0x00205000, 0x00000000, 0x22000800, 0x00000000, 0x05089542, 0x80000000);
  }

  lemma ScheduleFrom24(block: seq<bv8>)
    requires |block| == 64
    requires WordsAt(WORDS, block, 8, 0x00000000, 0x00000000, 0x00000000, 0x00000000, 0x00000000, 0x00000000, 0x00000000, 0x00000000)
    requires WordsAt(WORDS, block, 16, 0x80000000, 0x00000000, 0x00205000, 0x00000000, 0x22000800, 0x00000000, 0x05089542, 0x80000000)
    ensures WordsAt(WORDS, block, 24, 0x58080000, 0x0040a000, 0x00162505, 0x66001800, 0xd6222580, 0x14225508, 0xd645f95c, 0xc9282000)
  {
    EightWords(WORDS, block, 8, 0x00000000, 0x00000000, 0x00000000, 0x00000000, 0x00000000, 0x00000000, 0x00000000, 0x00000000,
               0x80000000, 0x00000000, 0x00205000, 0x00000000, 0x22000800, 0x00000000, 0x05089542, 0x80000000,
               0x58080000, 0x0040a000, 0x00162505, 0x66001800, 0xd6222580, 0x14225508, 0xd645f95c, 0xc9282000);
  }

  lemma ScheduleFrom32(block: seq<bv8>)
    requires |block| == 64
    requires WordsAt(WORDS, block, 16, 0x80000000, 0x00000000, 0x00205000, 0x00000000, 0x22000800, 0x00000000, 0x05089542, 0x80000000)
    requires WordsAt(WORDS, block, 24, 0x58080000, 0x0040a000, 0x00162505, 0x66001800, 0xd6222580, 0x14225508, 0xd645f95c, 0xc9282000)
    ensures WordsAt(WORDS, block, 32, 0xc3f10094, 0x284ca766, 0x06886dc6, 0xa37bf116, 0x717cbe96, 0xfec2d74a, 0xa7b67f00, 0x811596a2)
  {
    EightWords(WORDS, block, 16, 0x80000000, 0x00000000, 0x00205000, 0x00000000, 0x22000800, 0x00000000, 0x05089542, 0x80000000,
               0x58080000, 0x0040a000, 0x00162505, 0x66001800, 0xd6222580, 0x14225508, 0xd645f95c, 0xc9282000,
               0xc3f10094, 0x284ca766, 0x06886dc6, 0xa37bf116, 0x717cbe96, 0xfec2d74a, 0xa7b67f00, 0x811596a2);
  }

  lemma ScheduleFrom40(block: seq<bv8>)
    requires |block| == 64
    requires WordsAt(WORDS, block, 24, 0x58080000, 0x0040a000, 0x00162505, 0x66001800, 0xd6222580, 0x14225508, 0xd645f95c, 0xc9282000)
    requires WordsAt(WORDS, block, 32, 0xc3f10094, 0x284ca766, 0x06886dc6, 0xa37bf116, 0x717cbe96, 0xfec2d74a, 0xa7b67f00, 0x811596a2)
    ensures WordsAt(WORDS, block, 40, 0x98a6e768, 0x03b20c82, 0x5d1da7c9, 0xb156b935, 0xc3ddca11, 0x249c107f, 0xc48d24ef, 0x5de54c30)
  {
    EightWords(WORDS, block, 24, 0x58080000, 0x0040a000, 0x00162505, 0x66001800, 0xd6222580, 0x14225508, 0xd645f95c, 0xc9282000,
               0xc3f10094, 0x284ca766, 0x06886dc6, 0xa37bf116, 0x717cbe96, 0xfec2d74a, 0xa7b67f00, 0x811596a2,
               0x98a6e768, 0x03b20c82, 0x5d1da7c9, 0xb156b935, 0xc3ddca11, 0x249c107f, 0xc48d24ef, 0x5de54c30);
  }

  lemma ScheduleFrom48(block: seq<bv8>)
    requires |block| == 64
    requires WordsAt(WORDS, block, 32, 0xc3f10094, 0x284ca766, 0x06886dc6, 0xa37bf116, 0x717cbe96, 0xfec2d74a, 0xa7b67f00, 0x811596a2)
    requires WordsAt(WORDS, block, 40, 0x98a6e768, 0x03b20c82, 0x5d1da7c9, 0xb156b935, 0xc3ddca11, 0x249c107f, 0xc48d24ef, 0x5de54c30)
    ensures WordsAt(WORDS, block, 48, 0xdefece65, 0x2ca1480d, 0x3c15332c, 0x01cec9ad, 0x160cccd0, 0x0bacda98, 0x361b8fe0, 0xd2320ba6)
  {
    EightWords(WORDS, block, 32, 0xc3f10094, 0x284ca766, 0x06886dc6, 0xa37bf116, 0x717cbe96, 0xfec2d74a, 0xa7b67f00, 0x811596a2,
               0x98a6e768, 0x03b20c82, 0x5d1da7c9, 0xb156b935, 0xc3ddca11, 0x249c107f, 0xc48d24ef, 0x5de54c30,
               0xdefece65, 0x2ca1480d, 0x3c15332c, 0x01cec9ad, 0x160cccd0, 0x0bacda98, 0x361b8fe0, 0xd2320ba6);
  }

  lemma ScheduleFrom56(block: seq<bv8>)
    requires |block| == 64
    requires WordsAt(WORDS, block, 40, 0x98a6e768, 0x03b20c82, 0x5d1da7c9, 0xb156b935, 0xc3ddca11, 0x249c107f, 0xc48d24ef, 0x5de54c30)
    requires WordsAt(WORDS, block, 48, 0xdefece65, 0x2ca1480d, 0x3c15332c, 0x01cec9ad, 0x160cccd0, 0x0bacda98, 0x361b8fe0, 0xd2320ba6)
    ensures WordsAt(WORDS, block, 56, 0x029b7007, 0x7546587c, 0x07f54f39, 0xf808ddc3, 0xdcca7608, 0x5e427188, 0x44bcec5d, 0x3b5ec49b)
  {
    EightWords(WORDS, block, 40, 0x98a6e768, 0x03b20c82, 0x5d1da7c9, 0xb156b935, 0xc3ddca11, 0x249c107f, 0xc48d24ef, 0x5de54c30,
               0xdefece65, 0x2ca1480d, 0x3c15332c, 0x01cec9ad, 0x160cccd0, 0x0bacda98, 0x361b8fe0, 0xd2320ba6,
               0x029b7007, 0x7546587c, 0x07f54f39, 0xf808ddc3, 0xdcca7608, 0x5e427188, 0x44bcec5d, 0x3b5ec49b);
  }

  // ----- the rounds -----

  lemma RoundsFrom0(block: seq<bv8>, start: State<bv32>)
    requires |block| == 64 && WordsAt(WORDS, block, 0, 0x80000000, 0x00000000, 0x00000000, 0x00000000, 0x00000000, 0x00000000, 0x00000000, 0x00000000)
    requires After(WORDS, start, block, 0) == State(0x6a09e667, 0xbb67ae85, 0x3c6ef372, 0xa54ff53a, 0x510e527f, 0x9b05688c, 0x1f83d9ab, 0x5be0cd19)
    ensures After(WORDS, start, block, 8)
         == State(0x7ad5b1b6, 0xf0205590, 0x292e3b42, 0x4366f730, 0x53f94dcb, 0x82ede06f, 0x4f6540fa, 0xe7d0641e)
  {
    ConstantsFrom0();
    EightRounds(WORDS, start, block, 0, State(0x6a09e667, 0xbb67ae85, 0x3c6ef372, 0xa54ff53a, 0x510e527f, 0x9b05688c, 0x1f83d9ab, 0x5be0cd19),
                0x428a2f98, 0x71374491, 0xb5c0fbcf, 0xe9b5dba5, 0x3956c25b, 0x59f111f1, 0x923f82a4, 0xab1c5ed5,
                0x80000000, 0x00000000, 0x00000000, 0x00000000, 0x00000000, 0x00000000, 0x00000000, 0x00000000,
                0x7c08884d, 0x9ce564d0, 0xc4ac5526, 0x4c23eacb, 0x4366f730, 0x292e3b42, 0xf0205590, 0x7ad5b1b6,
                0x18c7e2a2, 0x2001b256, 0x6fdb22fa, 0x3037e1b5, 0xe7d0641e, 0x4f6540fa, 0x82ede06f, 0x53f94dcb);
  }

  lemma RoundsFrom8(block: seq<bv8>, start: State<bv32>)
    requires |block| == 64 && WordsAt(WORDS, block, 8, 0x00000000, 0x00000000, 0x00000000, 0x00000000, 0x00000000, 0x00000000, 0x00000000, 0x00000000)
    requires After(WORDS, start, block, 8) == State(0x7ad5b1b6, 0xf0205590, 0x292e3b42, 0x4366f730, 0x53f94dcb, 0x82ede06f, 0x4f6540fa, 0xe7d0641e)
    ensures After(WORDS, start, block, 16)
         == State(0xb40085b5, 0xb88afddb, 0x45c013a7, 0x2102d2cd, 0x5cb8e863, 0x1ccfac39, 0x2b427296, 0xcdfdfe52)
  {
    ConstantsFrom8();
    EightRounds(WORDS, start, block, 8, State(0x7ad5b1b6, 0xf0205590, 0x292e3b42, 0x4366f730, 0x53f94dcb, 0x82ede06f, 0x4f6540fa, 0xe7d0641e),
                0xd807aa98, 0x12835b01, 0x243185be, 0x550c7dc3, 0x72be5d74, 0x80deb1fe, 0x9bdc06a7, 0xc19bf174,
                0x00000000, 0x00000000, 0x00000000, 0x00000000, 0x00000000, 0x00000000, 0x00000000, 0x00000000,
                0xf52d63a5, 0xefe8bf51, 0x158bb921, 0xf5434c40, 0x2102d2cd, 0x45c013a7, 0xb88afddb, 0xb40085b5,
                0x7aafc618, 0x53072289, 0xe23643ce, 0xd7e07c92, 0xcdfdfe52, 0x2b427296, 0x1ccfac39, 0x5cb8e863);
  }

  lemma RoundsFrom16(block: seq<bv8>, start: State<bv32>)
    requires |block| == 64 && WordsAt(WORDS, block, 16, 0x80000000, 0x00000000, 0x00205000, 0x00000000, 0x22000800, 0x00000000, 0x05089542, 0x80000000)
    requires After(WORDS, start, block, 16) == State(0xb40085b5, 0xb88afddb, 0x45c013a7, 0x2102d2cd, 0x5cb8e863, 0x1ccfac39, 0x2b427296, 0xcdfdfe52)
    ensures After(WORDS, start, block, 24)
         == State(0x985bed55, 0x404d8054, 0x99a6cb19, 0x75c7f0d8, 0x2c2c028d, 0xb1653710, 0xc287981e, 0x39953ccd)
  {
    ConstantsFrom16();
    EightRounds(WORDS, start, block, 16, State(0xb40085b5, 0xb88afddb, 0x45c013a7, 0x2102d2cd, 0x5cb8e863, 0x1ccfac39, 0x2b427296, 0xcdfdfe52),
                0xe49b69c1, 0xefbe4786, 0x0fc19dc6, 0x240ca1cc, 0x2de92c6f, 0x4a7484aa, 0x5cb0a9dc, 0x76f988da,
                0x80000000, 0x00000000, 0x00205000, 0x00000000, 0x22000800, 0x00000000, 0x05089542, 0x80000000,
                0x470d554a, 0xdd999a2b, 0x3067996a, 0x0a480908, 0x75c7f0d8, 0x99a6cb19, 0x404d8054, 0x985bed55,
                0x70d43aa7, 0x608c93d3, 0xd398dcea, 0x900d27ac, 0x39953ccd, 0xc287981e, 0xb1653710, 0x2c2c028d);
  }

  lemma RoundsFrom24(block: seq<bv8>, start: State<bv32>)
    requires |block| == 64 && WordsAt(WORDS, block, 24, 0x58080000, 0x0040a000, 0x00162505, 0x66001800, 0xd6222580, 0x14225508, 0xd645f95c, 0xc9282000)
    requires After(WORDS, start, block, 24) == State(0x985bed55, 0x404d8054, 0x99a6cb19, 0x75c7f0d8, 0x2c2c028d, 0xb1653710, 0xc287981e, 0x39953ccd)
    ensures After(WORDS, start, block, 32)
         == State(0x11e7025f, 0xa0bb0cdf, 0x72d3a00d, 0x64bc9e1c, 0xbbd7846c, 0x564a6626, 0xb04ab22d, 0x95696b75)
  {
    ConstantsFrom24();
    EightRounds(WORDS, start, block, 24, State(0x985bed55, 0x404d8054, 0x99a6cb19, 0x75c7f0d8, 0x2c2c028d, 0xb1653710, 0xc287981e, 0x39953ccd),
                0x983e5152, 0xa831c66d, 0xb00327c8, 0xbf597fc7, 0xc6e00bf3, 0xd5a79147, 0x06ca6351, 0x14292967,
                0x58080000, 0x0040a000, 0x00162505, 0x66001800, 0xd6222580, 0x14225508, 0xd645f95c, 0xc9282000,
                0x7af6d48d, 0xc5b814ae, 0x2c8b2ab9, 0x6d8cc697, 0x64bc9e1c, 0x72d3a00d, 0xa0bb0cdf, 0x11e7025f,
                0xf55f8c25, 0xe57ac3f4, 0x9f934283, 0x66ed54fa, 0x95696b75, 0xb04ab22d, 0x564a6626, 0xbbd7846c);
  }

  lemma RoundsFrom32(block: seq<bv8>, start: State<bv32>)
    requires |block| == 64 && WordsAt(WORDS, block, 32, 0xc3f10094, 0x284ca766, 0x06886dc6, 0xa37bf116, 0x717cbe96, 0xfec2d74a, 0xa7b67f00, 0x811596a2)
    requires After(WORDS, start, block, 32) == State(0x11e7025f, 0xa0bb0cdf, 0x72d3a00d, 0x64bc9e1c, 0xbbd7846c, 0x564a6626, 0xb04ab22d, 0x95696b75)
    ensures After(WORDS, start, block, 40)
         == State(0x499911b1, 0x9e58e42f, 0x56e3dc4e, 0xa096535d, 0x716bb025, 0x85a71424, 0xe807ea7f, 0xfac06aed)
  {
    ConstantsFrom32();
    EightRounds(WORDS, start, block, 32, State(0x11e7025f, 0xa0bb0cdf, 0x72d3a00d, 0x64bc9e1c, 0xbbd7846c, 0x564a6626, 0xb04ab22d, 0x95696b75),
                0x27b70a85, 0x2e1b2138, 0x4d2c6dfc, 0x53380d13, 0x650a7354, 0x766a0abb, 0x81c2c92e, 0x92722c85,
                0xc3f10094, 0x284ca766, 0x06886dc6, 0xa37bf116, 0x717cbe96, 0xfec2d74a, 0xa7b67f00, 0x811596a2,
                0xe390f3b6, 0xa141b695, 0x44a181a7, 0x641fe878, 0xa096535d, 0x56e3dc4e, 0x9e58e42f, 0x499911b1,
                0xccd25d8b, 0x0bc457df, 0x6973aac2, 0x3a705ea9, 0xfac06aed, 0xe807ea7f, 0x85a71424, 0x716bb025);
  }

  lemma RoundsFrom40(block: seq<bv8>, start: State<bv32>)
    requires |block| == 64 && WordsAt(WORDS, block, 40, 0x98a6e768, 0x03b20c82, 0x5d1da7c9, 0xb156b935, 0xc3ddca11, 0x249c107f, 0xc48d24ef, 0x5de54c30)
    requires After(WORDS, start, block, 40) == State(0x499911b1, 0x9e58e42f, 0x56e3dc4e, 0xa096535d, 0x716bb025, 0x85a71424, 0xe807ea7f, 0xfac06aed)
    ensures After(WORDS, start, block, 48)
         == State(0x365a34cd, 0x54982d6c, 0x32fa442b, 0xa40972d4, 0xcbb3f8eb, 0x8a6a82b2, 0xd285c679, 0xaa2c1810)
  {
    ConstantsFrom40();
    EightRounds(WORDS, start, block, 40, State(0x499911b1, 0x9e58e42f, 0x56e3dc4e, 0xa096535d, 0x716bb025, 0x85a71424, 0xe807ea7f, 0xfac06aed),
                0xa2bfe8a1, 0xa81a664b, 0xc24b8b70, 0xc76c51a3, 0xd192e819, 0xd6990624, 0xf40e3585, 0x106aa070,
                0x98a6e768, 0x03b20c82, 0x5d1da7c9, 0xb156b935, 0xc3ddca11, 0x249c107f, 0xc48d24ef, 0x5de54c30,
                0xfe86c833, 0x2298f88e, 0xdbb545ab, 0xe8e34752, 0xa40972d4, 0x32fa442b, 0x54982d6c, 0x365a34cd,
                0x849879df, 0xf5c58ae9, 0xe0403eb9, 0x29426caa, 0xaa2c1810, 0xd285c679, 0x8a6a82b2, 0xcbb3f8eb);
  }

  lemma RoundsFrom48(block: seq<bv8>, start: State<bv32>)
    requires |block| == 64 && WordsAt(WORDS, block, 48, 0xdefece65, 0x2ca1480d, 0x3c15332c, 0x01cec9ad, 0x160cccd0, 0x0bacda98, 0x361b8fe0, 0xd2320ba6)
    requires After(WORDS, start, block, 48) == State(0x365a34cd, 0x54982d6c, 0x32fa442b, 0xa40972d4, 0xcbb3f8eb, 0x8a6a82b2, 0xd285c679, 0xaa2c1810)
    ensures After(WORDS, start, block, 56)
         == State(0x01638014, 0x2caf58ca, 0x3a0e9477, 0xb1b29c90, 0xadf94e0a, 0xe588e598, 0xfd99936e, 0x43a5def8)
  {
    ConstantsFrom48();
    EightRounds(WORDS, start, block, 48, State(0x365a34cd, 0x54982d6c, 0x32fa442b, 0xa40972d4, 0xcbb3f8eb, 0x8a6a82b2, 0xd285c679, 0xaa2c1810),
                0x19a4c116, 0x1e376c08, 0x2748774c, 0x34b0bcb5, 0x391c0cb3, 0x4ed8aa4a, 0x5b9cca4f, 0x682e6ff3,
                0xdefece65, 0x2ca1480d, 0x3c15332c, 0x01cec9ad, 0x160cccd0, 0x0bacda98, 0x361b8fe0, 0xd2320ba6,
                0x62a82a5e, 0x9798f5ed, 0xc163cb21, 0xd55e06c2, 0xb1b29c90, 0x3a0e9477, 0x2caf58ca, 0x01638014,
                0x4cab6d8a, 0xe90aa770, 0x36068bde, 0xa194d14f, 0x43a5def8, 0xfd99936e, 0xe588e598, 0xadf94e0a);
  }

  lemma RoundsFrom56(block: seq<bv8>, start: State<bv32>)
    requires |block| == 64 && WordsAt(WORDS, block, 56, 0x029b7007, 0x7546587c, 0x07f54f39, 0xf808ddc3, 0xdcca7608, 0x5e427188, 0x44bcec5d, 0x3b5ec49b)
    requires After(WORDS, start, block, 56) == State(0x01638014, 0x2caf58ca, 0x3a0e9477, 0xb1b29c90, 0xadf94e0a, 0xe588e598, 0xfd99936e, 0x43a5def8)
    ensures After(WORDS, start, block, 64)
         == State(0x79a6dddb, 0xdd946d8f, 0x5e8d0156, 0xf41fc3ea, 0xd69fef65, 0xc9962ac0, 0x8511bf70, 0x1c71eb3c)
  {
    ConstantsFrom56();
    EightRounds(WORDS, start, block, 56, State(0x01638014, 0x2caf58ca, 0x3a0e9477, 0xb1b29c90, 0xadf94e0a, 0xe588e598, 0xfd99936e, 0x43a5def8),
                0x748f82ee, 0x78a5636f, 0x84c87814, 0x8cc70208, 0x90befffa, 0xa4506ceb, 0xbef9a3f7, 0xc67178f2,
                0x029b7007, 0x7546587c, 0x07f54f39, 0xf808ddc3, 0xdcca7608, 0x5e427188, 0x44bcec5d, 0x3b5ec49b,
                0x7ec75212, 0xe7ec45bc, 0xe923abc6, 0x04441c0e, 0xf41fc3ea, 0x5e8d0156, 0xdd946d8f, 0x79a6dddb,
                0x7951a330, 0xe2a91edc, 0x08e0e6ea, 0xaaefa044, 0x1c71eb3c, 0x8511bf70, 0xc9962ac0, 0xd69fef65);
  }

  // ----- the digest -----

  lemma AllRounds(block: seq<bv8>, start: State<bv32>)
    requires block == Pad(TEXT) && start == State(0x6a09e667, 0xbb67ae85, 0x3c6ef372, 0xa54ff53a, 0x510e527f, 0x9b05688c, 0x1f83d9ab, 0x5be0cd19)
    ensures |block| == 64
    ensures After(WORDS, start, block, 64)
         == State(0x79a6dddb, 0xdd946d8f, 0x5e8d0156, 0xf41fc3ea, 0xd69fef65, 0xc9962ac0, 0x8511bf70, 0x1c71eb3c)
  {
    FirstWords(block);
    NoneAfter(WORDS, start, block);
    RoundsFrom0(block, start);
    RoundsFrom8(block, start);
    ScheduleFrom16(block);
    RoundsFrom16(block, start);
    ScheduleFrom24(block);
    RoundsFrom24(block, start);
    ScheduleFrom32(block);
    RoundsFrom32(block, start);
    ScheduleFrom40(block);
    RoundsFrom40(block, start);
    ScheduleFrom48(block);
    RoundsFrom48(block, start);
    ScheduleFrom56(block);
    RoundsFrom56(block, start);
  }

  lemma LastSum()
    ensures Plus(WORDS, State(0x6a09e667, 0xbb67ae85, 0x3c6ef372, 0xa54ff53a, 0x510e527f, 0x9b05688c, 0x1f83d9ab, 0x5be0cd19),
                 State(0x79a6dddb, 0xdd946d8f, 0x5e8d0156, 0xf41fc3ea, 0xd69fef65, 0xc9962ac0, 0x8511bf70, 0x1c71eb3c))
         == State(0xe3b0c442, 0x98fc1c14, 0x9afbf4c8, 0x996fb924, 0x27ae41e4, 0x649b934c, 0xa495991b, 0x7852b855)
  {
  }

  lemma Digits()
    ensures Digest(WordsOf(State(0xe3b0c442, 0x98fc1c14, 0x9afbf4c8, 0x996fb924, 0x27ae41e4, 0x649b934c, 0xa495991b, 0x7852b855)))
         == "e3b0c442" + "98fc1c14" + "9afbf4c8" + "996fb924" + "27ae41e4" + "649b934c" + "a495991b" + "7852b855"
  {
    DigestWords(State(0xe3b0c442, 0x98fc1c14, 0x9afbf4c8, 0x996fb924, 0x27ae41e4, 0x649b934c, 0xa495991b, 0x7852b855),
                "e3b0c442", "98fc1c14", "9afbf4c8", "996fb924", "27ae41e4", "649b934c", "a495991b", "7852b855");
  }

  /** The published value. */
  lemma PublishedDigest()
    ensures Sha256(TEXT)
         == "e3b0c442" + "98fc1c14" + "9afbf4c8" + "996fb924" + "27ae41e4" + "649b934c" + "a495991b" + "7852b855"
  {
    var start := StateOf(INITIAL_HASH);
    assert start == State(0x6a09e667, 0xbb67ae85, 0x3c6ef372, 0xa54ff53a, 0x510e527f, 0x9b05688c, 0x1f83d9ab, 0x5be0cd19);
    AllRounds(Pad(TEXT), start);
    ShortHash(WORDS, start, TEXT);
    LastSum();
    Digits();
  }
}
