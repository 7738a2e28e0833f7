/** The one-block example of FIPS 180-4: the digest of "abc", worked out from the definitions. */
module Sha512Example {
  import opened Words
  import opened BitForms
  import opened Sha512Spec
  import opened Sha512Constants

  /** "abc" */
  const ABC: seq<u8> := [0x61, 0x62, 0x63]

  // ---- the schedule ---------------------------------------------------------------------------------

  ghost predicate WordsA(block: Block) {
    Schedule(block, 0) == Word(0x6162638000000000) && Schedule(block, 1) == Word(0x0000000000000000) &&
    Schedule(block, 2) == Word(0x0000000000000000) && Schedule(block, 3) == Word(0x0000000000000000) &&
    Schedule(block, 4) == Word(0x0000000000000000) && Schedule(block, 5) == Word(0x0000000000000000) &&
    Schedule(block, 6) == Word(0x0000000000000000) && Schedule(block, 7) == Word(0x0000000000000000) &&
    Schedule(block, 8) == Word(0x0000000000000000) && Schedule(block, 9) == Word(0x0000000000000000) &&
    Schedule(block, 10) == Word(0x0000000000000000) && Schedule(block, 11) == Word(0x0000000000000000) &&
    Schedule(block, 12) == Word(0x0000000000000000) && Schedule(block, 13) == Word(0x0000000000000000) &&
    Schedule(block, 14) == Word(0x0000000000000000) && Schedule(block, 15) == Word(0x0000000000000018)
  }

  ghost predicate WordsB(block: Block) {
    Schedule(block, 16) == Word(0x6162638000000000) && Schedule(block, 17) == Word(0x00030000000000c0) &&
    Schedule(block, 18) == Word(0x0a9699a24c700003) && Schedule(block, 19) == Word(0x00000c0060000603) &&
    Schedule(block, 20) == Word(0x549ef62639858996) && Schedule(block, 21) == Word(0x00c0003300003c00) &&
    Schedule(block, 22) == Word(0x1497007a8a0e9dbc) && Schedule(block, 23) == Word(0x62e56500cc0780f0) &&
    Schedule(block, 24) == Word(0x7760dd475a538797) && Schedule(block, 25) == Word(0xf1554b711c1c0003) &&
    Schedule(block, 26) == Word(0xca2993a4345d9ff2) && Schedule(block, 27) == Word(0x5e0e66b5c783dd32) &&
    Schedule(block, 28) == Word(0xe25a625d00494b62) && Schedule(block, 29) == Word(0x9f44486fb1e4fbd2) &&
    Schedule(block, 30) == Word(0xb31b8c2b06085f2f) && Schedule(block, 31) == Word(0x0e987660934142f6)
  }

  ghost predicate WordsC(block: Block) {
    Schedule(block, 32) == Word(0xa4af2cfd09fbb924) && Schedule(block, 33) == Word(0xad289e2e0bd53186) &&
    Schedule(block, 34) == Word(0x3c74563aa2f9673e) && Schedule(block, 35) == Word(0x6ccdcd14cc14b53f) &&
    Schedule(block, 36) == Word(0xc3f925b337f22bde) && Schedule(block, 37) == Word(0x5bcc77a75ad95b54) &&
    Schedule(block, 38) == Word(0x3ec2257adca09a52) && Schedule(block, 39) == Word(0x28246960001fc5eb) &&
    Schedule(block, 40) == Word(0x04e33a75ce2be88a) && Schedule(block, 41) == Word(0x7d5314b3c359e0e7) &&
    Schedule(block, 42) == Word(0xaef7a285ff251266) && Schedule(block, 43) == Word(0x0b8472581deea04f) &&
    Schedule(block, 44) == Word(0xb174e26eddc7b033) && Schedule(block, 45) == Word(0x5d63bae58ddd88de) &&
    Schedule(block, 46) == Word(0x4c044007b744ccbb) && Schedule(block, 47) == Word(0xe6a9aa4d74dc7d43)
  }

  ghost predicate WordsD(block: Block) {
    Schedule(block, 48) == Word(0xebeaf1237248019c) && Schedule(block, 49) == Word(0x361e80b2d00f3193) &&
    Schedule(block, 50) == Word(0x2e9839125df3b175) && Schedule(block, 51) == Word(0x3319629293ad5363) &&
    Schedule(block, 52) == Word(0x9cbc5d89ac1b89d5) && Schedule(block, 53) == Word(0x275e23ffeeca50b7) &&
    Schedule(block, 54) == Word(0x3b80d680bf69ef58) && Schedule(block, 55) == Word(0x0d0696933945a125) &&
    Schedule(block, 56) == Word(0x7533eabcb786ff00) && Schedule(block, 57) == Word(0xb89826cee6fbf0e5) &&
    Schedule(block, 58) == Word(0x249b4fbcad623e9f) && Schedule(block, 59) == Word(0x4aea9df2b02d6f1e) &&
    Schedule(block, 60) == Word(0x2cc57475a55e8d8f) && Schedule(block, 61) == Word(0xb2574ae938d8be89) &&
    Schedule(block, 62) == Word(0xc1b35a57b16d6aea) && Schedule(block, 63) == Word(0xcc4918b5949206bb)
  }

  ghost predicate WordsE(block: Block) {
    Schedule(block, 64) == Word(0x5099c3add79f90ec) && Schedule(block, 65) == Word(0x5ea81d78e7660bf1) &&
    Schedule(block, 66) == Word(0xebee6267405ac2a9) && Schedule(block, 67) == Word(0xb01f21926108a4ab) &&
    Schedule(block, 68) == Word(0x786433dd2fe65556) && Schedule(block, 69) == Word(0xc54a6eaa24a0552c) &&
    Schedule(block, 70) == Word(0xb3c8f1530bdbaa9e) && Schedule(block, 71) == Word(0xbb8abfe56f469338) &&
    Schedule(block, 72) == Word(0xf63d4265cc1c5a78) && Schedule(block, 73) == Word(0xbe8355ea73129afb) &&
    Schedule(block, 74) == Word(0x49e2db8ebdcfbeb5) && Schedule(block, 75) == Word(0x82269d4a883a3d99) &&
    Schedule(block, 76) == Word(0xfdf53df3011f362b) && Schedule(block, 77) == Word(0x464af5671d71c12e) &&
    Schedule(block, 78) == Word(0xe449b68198ec611c) && Schedule(block, 79) == Word(0x92aeeed1a7bcf7d2)
  }

  /** The padded message: a one bit after the text, zeros, and the length 24. */
  lemma PaddedBytes()
    ensures |Pad(ABC)| == 128
    ensures Pad(ABC)[0] == 0x61 && Pad(ABC)[1] == 0x62 && Pad(ABC)[2] == 0x63 && Pad(ABC)[3] == 0x80
    ensures forall i :: 4 <= i < 127 ==> Pad(ABC)[i] == 0
    ensures Pad(ABC)[127] == 24
  {
    assert Be64(0) == [0, 0, 0, 0, 0, 0, 0, 0] && Be64(24) == [0, 0, 0, 0, 0, 0, 0, 24];
    assert LengthField(24) == Be64(0) + Be64(24);
  }

  /** The padded message. */
  ghost predicate IsAbc(block: Block) {
    block == Pad(ABC)
  }

  lemma LoadZeros(b: seq<u8>, at: nat)
    requires at + 8 <= |b| && forall i :: at <= i < at + 8 ==> b[i] == 0
    ensures Load64(b, at) == Word(0)
  {
  }

  lemma LoadText(b: seq<u8>)
    requires |b| >= 8 && b[0] == 0x61 && b[1] == 0x62 && b[2] == 0x63 && b[3] == 0x80
    requires forall i :: 4 <= i < 8 ==> b[i] == 0
    ensures Load64(b, 0) == Word(0x6162638000000000)
  {
  }

  lemma LoadLength(b: seq<u8>, at: nat)
    requires at + 8 <= |b| && b[at + 7] == 24 && forall i :: at <= i < at + 7 ==> b[i] == 0
    ensures Load64(b, at) == Word(0x18)
  {
  }

  lemma ScheduleStart(block: Block, t: nat)
    requires t < 16
    ensures Schedule(block, t) == Load64(block, 8 * t)
  {
  }

  lemma FirstWords(block: Block)
    requires IsAbc(block)
    ensures WordsA(block)
  {
    hide Pad, Load64, Schedule;
    PaddedBytes();
    forall t | 0 < t < 15
      ensures Schedule(block, t) == Word(0)
    {
      ScheduleStart(block, t);
      LoadZeros(block, 8 * t);
    }
    ScheduleStart(block, 0);
    LoadText(block);
    ScheduleStart(block, 15);
    LoadLength(block, 120);
  }

  lemma ScheduleStep(block: Block, t: nat)
    requires t >= 16
    ensures Schedule(block, t)
         == NextWord(Schedule(block, t - 2), Schedule(block, t - 7), Schedule(block, t - 15), Schedule(block, t - 16))
  {
  }

  lemma ScheduleB(block: Block)
    requires IsAbc(block)
    ensures WordsB(block)
  {
    hide Schedule, IsAbc;
    FirstWords(block);
    ScheduleStep(block, 16); ScheduleStep(block, 17); ScheduleStep(block, 18); ScheduleStep(block, 19);
    ScheduleStep(block, 20); ScheduleStep(block, 21); ScheduleStep(block, 22); ScheduleStep(block, 23);
    ScheduleStep(block, 24); ScheduleStep(block, 25); ScheduleStep(block, 26); ScheduleStep(block, 27);
    ScheduleStep(block, 28); ScheduleStep(block, 29); ScheduleStep(block, 30); ScheduleStep(block, 31);
  }

  lemma ScheduleC(block: Block)
    requires IsAbc(block)
    ensures WordsC(block)
  {
    hide Schedule, IsAbc;
    ScheduleB(block);
    ScheduleStep(block, 32); ScheduleStep(block, 33); ScheduleStep(block, 34); ScheduleStep(block, 35);
    ScheduleStep(block, 36); ScheduleStep(block, 37); ScheduleStep(block, 38); ScheduleStep(block, 39);
    ScheduleStep(block, 40); ScheduleStep(block, 41); ScheduleStep(block, 42); ScheduleStep(block, 43);
    ScheduleStep(block, 44); ScheduleStep(block, 45); ScheduleStep(block, 46); ScheduleStep(block, 47);
  }

  lemma ScheduleD(block: Block)
    requires IsAbc(block)
    ensures WordsD(block)
  {
    hide Schedule, IsAbc;
    ScheduleC(block);
    ScheduleStep(block, 48); ScheduleStep(block, 49); ScheduleStep(block, 50); ScheduleStep(block, 51);
    ScheduleStep(block, 52); ScheduleStep(block, 53); ScheduleStep(block, 54); ScheduleStep(block, 55);
    ScheduleStep(block, 56); ScheduleStep(block, 57); ScheduleStep(block, 58); ScheduleStep(block, 59);
    ScheduleStep(block, 60); ScheduleStep(block, 61); ScheduleStep(block, 62); ScheduleStep(block, 63);
  }

  lemma ScheduleE(block: Block)
    requires IsAbc(block)
    ensures WordsE(block)
  {
    hide Schedule, IsAbc;
    ScheduleD(block);
    ScheduleStep(block, 64); ScheduleStep(block, 65); ScheduleStep(block, 66); ScheduleStep(block, 67);
    ScheduleStep(block, 68); ScheduleStep(block, 69); ScheduleStep(block, 70); ScheduleStep(block, 71);
    ScheduleStep(block, 72); ScheduleStep(block, 73); ScheduleStep(block, 74); ScheduleStep(block, 75);
    ScheduleStep(block, 76); ScheduleStep(block, 77); ScheduleStep(block, 78); ScheduleStep(block, 79);
  }

  // ---- the rounds -----------------------------------------------------------------------------------

  lemma RoundStep(block: Block, t: nat)
    requires t < |K|
    ensures Rounds(INITIAL, block, t + 1) == Round(Rounds(INITIAL, block, t), K[t], Schedule(block, t))
  {
  }

  lemma ConstantsA()
    ensures |K| == 80
    ensures K[0] == Word(0x428a2f98d728ae22) && K[1] == Word(0x7137449123ef65cd) &&
            K[2] == Word(0xb5c0fbcfec4d3b2f) && K[3] == Word(0xe9b5dba58189dbbc)
    ensures K[4] == Word(0x3956c25bf348b538) && K[5] == Word(0x59f111f1b605d019) &&
            K[6] == Word(0x923f82a4af194f9b) && K[7] == Word(0xab1c5ed5da6d8118)
    ensures K[8] == Word(0xd807aa98a3030242) && K[9] == Word(0x12835b0145706fbe) &&
            K[10] == Word(0x243185be4ee4b28c) && K[11] == Word(0x550c7dc3d5ffb4e2)
    ensures K[12] == Word(0x72be5d74f27b896f) && K[13] == Word(0x80deb1fe3b1696b1) &&
            K[14] == Word(0x9bdc06a725c71235) && K[15] == Word(0xc19bf174cf692694)
  {
    hide K;
    ConstantRows();
  }

  lemma ConstantsB()
    ensures |K| == 80
    ensures K[16] == Word(0xe49b69c19ef14ad2) && K[17] == Word(0xefbe4786384f25e3) &&
            K[18] == Word(0x0fc19dc68b8cd5b5) && K[19] == Word(0x240ca1cc77ac9c65)
    ensures K[20] == Word(0x2de92c6f592b0275) && K[21] == Word(0x4a7484aa6ea6e483) &&
            K[22] == Word(0x5cb0a9dcbd41fbd4) && K[23] == Word(0x76f988da831153b5)
    ensures K[24] == Word(0x983e5152ee66dfab) && K[25] == Word(0xa831c66d2db43210) &&
            K[26] == Word(0xb00327c898fb213f) && K[27] == Word(0xbf597fc7beef0ee4)
    ensures K[28] == Word(0xc6e00bf33da88fc2) && K[29] == Word(0xd5a79147930aa725) &&
            K[30] == Word(0x06ca6351e003826f) && K[31] == Word(0x142929670a0e6e70)
  {
    hide K;
    ConstantRows();
  }

  lemma ConstantsC()
    ensures |K| == 80
    ensures K[32] == Word(0x27b70a8546d22ffc) && K[33] == Word(0x2e1b21385c26c926) &&
            K[34] == Word(0x4d2c6dfc5ac42aed) && K[35] == Word(0x53380d139d95b3df)
    ensures K[36] == Word(0x650a73548baf63de) && K[37] == Word(0x766a0abb3c77b2a8) &&
            K[38] == Word(0x81c2c92e47edaee6) && K[39] == Word(0x92722c851482353b)
    ensures K[40] == Word(0xa2bfe8a14cf10364) && K[41] == Word(0xa81a664bbc423001) &&
            K[42] == Word(0xc24b8b70d0f89791) && K[43] == Word(0xc76c51a30654be30)
    ensures K[44] == Word(0xd192e819d6ef5218) && K[45] == Word(0xd69906245565a910) &&
            K[46] == Word(0xf40e35855771202a) && K[47] == Word(0x106aa07032bbd1b8)
  {
    hide K;
    ConstantRows();
  }

  lemma ConstantsD()
    ensures |K| == 80
    ensures K[48] == Word(0x19a4c116b8d2d0c8) && K[49] == Word(0x1e376c085141ab53) &&
            K[50] == Word(0x2748774cdf8eeb99) && K[51] == Word(0x34b0bcb5e19b48a8)
    ensures K[52] == Word(0x391c0cb3c5c95a63) && K[53] == Word(0x4ed8aa4ae3418acb) &&
            K[54] == Word(0x5b9cca4f7763e373) && K[55] == Word(0x682e6ff3d6b2b8a3)
    ensures K[56] == Word(0x748f82ee5defb2fc) && K[57] == Word(0x78a5636f43172f60) &&
            K[58] == Word(0x84c87814a1f0ab72) && K[59] == Word(0x8cc702081a6439ec)
    ensures K[60] == Word(0x90befffa23631e28) && K[61] == Word(0xa4506cebde82bde9) &&
            K[62] == Word(0xbef9a3f7b2c67915) && K[63] == Word(0xc67178f2e372532b)
  {
    hide K;
    ConstantRows();
  }

  lemma ConstantsE()
    ensures |K| == 80
    ensures K[64] == Word(0xca273eceea26619c) && K[65] == Word(0xd186b8c721c0c207) &&
            K[66] == Word(0xeada7dd6cde0eb1e) && K[67] == Word(0xf57d4f7fee6ed178)
    ensures K[68] == Word(0x06f067aa72176fba) && K[69] == Word(0x0a637dc5a2c898a6) &&
            K[70] == Word(0x113f9804bef90dae) && K[71] == Word(0x1b710b35131c471b)
    ensures K[72] == Word(0x28db77f523047d84) && K[73] == Word(0x32caab7b40c72493) &&
            K[74] == Word(0x3c9ebe0a15c9bebc) && K[75] == Word(0x431d67c49c100d4c)
    ensures K[76] == Word(0x4cc5d4becb3e42b6) && K[77] == Word(0x597f299cfc657e2a) &&
            K[78] == Word(0x5fcb6fab3ad6faec) && K[79] == Word(0x6c44198c4a475817)
  {
    hide K;
    ConstantRows();
  }

  const V_0: Hash :=
    [Word(0x6a09e667f3bcc908), Word(0xbb67ae8584caa73b), Word(0x3c6ef372fe94f82b), Word(0xa54ff53a5f1d36f1),
     Word(0x510e527fade682d1), Word(0x9b05688c2b3e6c1f), Word(0x1f83d9abfb41bd6b), Word(0x5be0cd19137e2179)]

  const V_1: Hash :=
    [Word(0xf6afceb8bcfcddf5), Word(0x6a09e667f3bcc908), Word(0xbb67ae8584caa73b), Word(0x3c6ef372fe94f82b),
     Word(0x58cb02347ab51f91), Word(0x510e527fade682d1), Word(0x9b05688c2b3e6c1f), Word(0x1f83d9abfb41bd6b)]

  lemma Rounds1(block: Block)
    requires IsAbc(block)
    ensures Rounds(INITIAL, block, 1) == V_1
  {
    hide Rounds, Schedule, K, INITIAL, IsAbc;
    NoRounds(block);
    FirstWords(block);
    ConstantsA();
    RoundStep(block, 0);
  }

  const V_8: Hash :=
    [Word(0x8093d195e0054fa3), Word(0xc4875b0c7abc076b), Word(0xaf573b02403e89cd), Word(0xb680953951604860),
     Word(0x86f67263a0f0ec0a), Word(0x5a6c781f54dcc00c), Word(0x96f60209b6dc35ba), Word(0x745aca4a342ed2e2)]

  lemma Rounds8(block: Block)
    requires IsAbc(block)
    ensures Rounds(INITIAL, block, 8) == V_8
  {
    hide Rounds, Schedule, K, INITIAL, IsAbc;
    Rounds1(block);
    FirstWords(block);
    ConstantsA();
    RoundStep(block, 1); RoundStep(block, 2); RoundStep(block, 3); RoundStep(block, 4);
    RoundStep(block, 5); RoundStep(block, 6); RoundStep(block, 7);
  }

  const V_16: Hash :=
    [Word(0x0ae07c86b1181c75), Word(0xfa967eed85a08028), Word(0x44249631255d2ca0), Word(0x5e41214388186c14),
     Word(0xa77b7c035dd4c161), Word(0x874bfe5f6aae9f2f), Word(0x860acf9effba6f61), Word(0xcdf3bff2883fc9d9)]

  lemma Rounds16(block: Block)
    requires IsAbc(block)
    ensures Rounds(INITIAL, block, 16) == V_16
  {
    hide Rounds, Schedule, K, INITIAL, IsAbc;
    Rounds8(block);
    FirstWords(block);
    ConstantsA();
    RoundStep(block, 8); RoundStep(block, 9); RoundStep(block, 10); RoundStep(block, 11);
    RoundStep(block, 12); RoundStep(block, 13); RoundStep(block, 14); RoundStep(block, 15);
  }

  const V_24: Hash :=
    [Word(0x4f6877b58fe55484), Word(0x3e2644567b709a78), Word(0xda34d6673d452dcf), Word(0x8dc5ae65569d3855),
     Word(0xc66005f87db55233), Word(0x0ac2b11da8f571c6), Word(0x8e30ff09ad488753), Word(0x4bb9e66d1145bfdc)]

  lemma Rounds24(block: Block)
    requires IsAbc(block)
    ensures Rounds(INITIAL, block, 24) == V_24
  {
    hide Rounds, Schedule, K, INITIAL, IsAbc;
    Rounds16(block);
    ScheduleB(block);
    ConstantsB();
    RoundStep(block, 16); RoundStep(block, 17); RoundStep(block, 18); RoundStep(block, 19);
    RoundStep(block, 20); RoundStep(block, 21); RoundStep(block, 22); RoundStep(block, 23);
  }

  const V_32: Hash :=
    [Word(0xff4d3f1f0d46a736), Word(0x4c4fbbb75f1873a6), Word(0x74bf40f869094c63), Word(0xe62349090f47d30a),
     Word(0x3cd388e119e8162e), Word(0x73e025d91b9efea3), Word(0xf0aec2fe1437f085), Word(0x0fcdf99710f21584)]

  lemma Rounds32(block: Block)
    requires IsAbc(block)
    ensures Rounds(INITIAL, block, 32) == V_32
  {
    hide Rounds, Schedule, K, INITIAL, IsAbc;
    Rounds24(block);
    ScheduleB(block);
    ConstantsB();
    RoundStep(block, 24); RoundStep(block, 25); RoundStep(block, 26); RoundStep(block, 27);
    RoundStep(block, 28); RoundStep(block, 29); RoundStep(block, 30); RoundStep(block, 31);
  }

  const V_40: Hash :=
    [Word(0x8e01e125b855d225), Word(0xb3bb8542b3376de5), Word(0x002bb8e4cd989567), Word(0x88df85b0bbe77514),
     Word(0x0c710a47ba6a567b), Word(0xb49596c20feba7de), Word(0x66adcfa249ac7bbd), Word(0x8fbfd0162bbf4675)]

  lemma Rounds40(block: Block)
    requires IsAbc(block)
    ensures Rounds(INITIAL, block, 40) == V_40
  {
    hide Rounds, Schedule, K, INITIAL, IsAbc;
    Rounds32(block);
    ScheduleC(block);
    ConstantsC();
    RoundStep(block, 32); RoundStep(block, 33); RoundStep(block, 34); RoundStep(block, 35);
    RoundStep(block, 36); RoundStep(block, 37); RoundStep(block, 38); RoundStep(block, 39);
  }

  const V_48: Hash :=
    [Word(0x6b69fc1bb482feac), Word(0xf61e672694de2d67), Word(0x021fbadbabab5ac6), Word(0xc47c9d5c7ea8a234),
     Word(0x35264334c03ac8ad), Word(0xc6bc35740d8daa9a), Word(0xe95c2a57572d64d9), Word(0x858d832ae0e8911c)]

  lemma Rounds48(block: Block)
    requires IsAbc(block)
    ensures Rounds(INITIAL, block, 48) == V_48
  {
    hide Rounds, Schedule, K, INITIAL, IsAbc;
    Rounds40(block);
    ScheduleC(block);
    ConstantsC();
    RoundStep(block, 40); RoundStep(block, 41); RoundStep(block, 42); RoundStep(block, 43);
    RoundStep(block, 44); RoundStep(block, 45); RoundStep(block, 46); RoundStep(block, 47);
  }

  const V_56: Hash :=
    [Word(0x63b460e42748817e), Word(0xf650857b5babda4d), Word(0xd63f68037ddf06aa), Word(0x03df11b32d42e203),
     Word(0xc6b4dd2a9931c509), Word(0x9ccfb31a86df0f86), Word(0xa6781efe1aa1ce02), Word(0x504f94e40591cffa)]

  lemma Rounds56(block: Block)
    requires IsAbc(block)
    ensures Rounds(INITIAL, block, 56) == V_56
  {
    hide Rounds, Schedule, K, INITIAL, IsAbc;
    Rounds48(block);
    ScheduleD(block);
    ConstantsD();
    RoundStep(block, 48); RoundStep(block, 49); RoundStep(block, 50); RoundStep(block, 51);
    RoundStep(block, 52); RoundStep(block, 53); RoundStep(block, 54); RoundStep(block, 55);
  }

  const V_64: Hash :=
    [Word(0xab44e86276478d85), Word(0xa81dedbb9f19e643), Word(0xcfcd928c5424e2b6), Word(0x3857dfd2fc37d3ba),
     Word(0xcd881ee59ca6bc53), Word(0x84058865d60a05fa), Word(0x09aee5bda1644de5), Word(0xa6af4e9c9f807e51)]

  lemma Rounds64(block: Block)
    requires IsAbc(block)
    ensures Rounds(INITIAL, block, 64) == V_64
  {
    hide Rounds, Schedule, K, INITIAL, IsAbc;
    Rounds56(block);
    ScheduleD(block);
    ConstantsD();
    RoundStep(block, 56); RoundStep(block, 57); RoundStep(block, 58); RoundStep(block, 59);
    RoundStep(block, 60); RoundStep(block, 61); RoundStep(block, 62); RoundStep(block, 63);
  }

  const V_72: Hash :=
    [Word(0xf15e9664b2803575), Word(0x7652c579cb60f19c), Word(0xfb6aaae5d0b6a447), Word(0x181839d609c79748),
     Word(0x947c3dfafee570ef), Word(0xaff62c9665ff80fa), Word(0xe3711cb6564d112d), Word(0x0ada78ba2d446140)]

  lemma Rounds72(block: Block)
    requires IsAbc(block)
    ensures Rounds(INITIAL, block, 72) == V_72
  {
    hide Rounds, Schedule, K, INITIAL, IsAbc;
    Rounds64(block);
    ScheduleE(block);
    ConstantsE();
    RoundStep(block, 64); RoundStep(block, 65); RoundStep(block, 66); RoundStep(block, 67);
    RoundStep(block, 68); RoundStep(block, 69); RoundStep(block, 70); RoundStep(block, 71);
  }

  const V_80: Hash :=
    [Word(0x73a54f399fa4b1b2), Word(0x10d9c4c4295599f6), Word(0xd67806db8b148677), Word(0x654ef9abec389ca9),
     Word(0xd08446aa79693ed7), Word(0x9bb4d39778c07f9e), Word(0x25c96a7768fb2aa3), Word(0xceb9fc3691ce8326)]

  lemma Rounds80(block: Block)
    requires IsAbc(block)
    ensures Rounds(INITIAL, block, 80) == V_80
  {
    hide Rounds, Schedule, K, INITIAL, IsAbc;
    Rounds72(block);
    ScheduleE(block);
    ConstantsE();
    RoundStep(block, 72); RoundStep(block, 73); RoundStep(block, 74); RoundStep(block, 75);
    RoundStep(block, 76); RoundStep(block, 77); RoundStep(block, 78); RoundStep(block, 79);
  }

  const DIGEST_WORDS: Hash :=
    [Word(0xddaf35a193617aba), Word(0xcc417349ae204131), Word(0x12e6fa4e89a97ea2), Word(0x0a9eeee64b55d39a),
     Word(0x2192992a274fc1a8), Word(0x36ba3c23a3feebbd), Word(0x454d4423643ce80e), Word(0x2a9ac94fa54ca49f)]

  lemma Compressed(block: Block)
    requires IsAbc(block)
    ensures Compress(INITIAL, block) == DIGEST_WORDS
  {
    hide Rounds, K, IsAbc;
    ConstantRows();
    Rounds80(block);
    Added();
  }

  lemma NoRounds(block: Block)
    ensures Rounds(INITIAL, block, 0) == V_0
  {
  }

  lemma Added()
    ensures AddWords(V_80, INITIAL) == DIGEST_WORDS
  {
  }

  // ---- the digest -----------------------------------------------------------------------------------

  lemma DigestBytes()
    ensures Digest(DIGEST_WORDS) ==
            [0xdd, 0xaf, 0x35, 0xa1, 0x93, 0x61, 0x7a, 0xba] +
            [0xcc, 0x41, 0x73, 0x49, 0xae, 0x20, 0x41, 0x31] +
            [0x12, 0xe6, 0xfa, 0x4e, 0x89, 0xa9, 0x7e, 0xa2] +
            [0x0a, 0x9e, 0xee, 0xe6, 0x4b, 0x55, 0xd3, 0x9a] +
            [0x21, 0x92, 0x99, 0x2a, 0x27, 0x4f, 0xc1, 0xa8] +
            [0x36, 0xba, 0x3c, 0x23, 0xa3, 0xfe, 0xeb, 0xbd] +
            [0x45, 0x4d, 0x44, 0x23, 0x64, 0x3c, 0xe8, 0x0e] +
            [0x2a, 0x9a, 0xc9, 0x4f, 0xa5, 0x4c, 0xa4, 0x9f]
  {
    assert Store64(Word(0xddaf35a193617aba)) == [0xdd, 0xaf, 0x35, 0xa1, 0x93, 0x61, 0x7a, 0xba];
    assert Store64(Word(0xcc417349ae204131)) == [0xcc, 0x41, 0x73, 0x49, 0xae, 0x20, 0x41, 0x31];
    assert Store64(Word(0x12e6fa4e89a97ea2)) == [0x12, 0xe6, 0xfa, 0x4e, 0x89, 0xa9, 0x7e, 0xa2];
    assert Store64(Word(0x0a9eeee64b55d39a)) == [0x0a, 0x9e, 0xee, 0xe6, 0x4b, 0x55, 0xd3, 0x9a];
    assert Store64(Word(0x2192992a274fc1a8)) == [0x21, 0x92, 0x99, 0x2a, 0x27, 0x4f, 0xc1, 0xa8];
    assert Store64(Word(0x36ba3c23a3feebbd)) == [0x36, 0xba, 0x3c, 0x23, 0xa3, 0xfe, 0xeb, 0xbd];
    assert Store64(Word(0x454d4423643ce80e)) == [0x45, 0x4d, 0x44, 0x23, 0x64, 0x3c, 0xe8, 0x0e];
    assert Store64(Word(0x2a9ac94fa54ca49f)) == [0x2a, 0x9a, 0xc9, 0x4f, 0xa5, 0x4c, 0xa4, 0x9f];
  }

  /** SHA-512("abc"), as published. */
  lemma DigestOfAbc()
    ensures Sha512(ABC) ==
            [0xdd, 0xaf, 0x35, 0xa1, 0x93, 0x61, 0x7a, 0xba] +
            [0xcc, 0x41, 0x73, 0x49, 0xae, 0x20, 0x41, 0x31] +
            [0x12, 0xe6, 0xfa, 0x4e, 0x89, 0xa9, 0x7e, 0xa2] +
            [0x0a, 0x9e, 0xee, 0xe6, 0x4b, 0x55, 0xd3, 0x9a] +
            [0x21, 0x92, 0x99, 0x2a, 0x27, 0x4f, 0xc1, 0xa8] +
            [0x36, 0xba, 0x3c, 0x23, 0xa3, 0xfe, 0xeb, 0xbd] +
            [0x45, 0x4d, 0x44, 0x23, 0x64, 0x3c, 0xe8, 0x0e] +
            [0x2a, 0x9a, 0xc9, 0x4f, 0xa5, 0x4c, 0xa4, 0x9f]
  {
    hide Pad, Compress, Digest;
    PaddedBytes();
    Compressed(Pad(ABC));
    FoldOne(Compress, INITIAL, Pad(ABC));
    DigestBytes();
  }
}
