/**
 * A test vector of RFC 1321 (appendix A.5), evaluated through the definitions of the model:
 * the digest of "message digest" is f96b697d7cb7938d525a2f31aaf161d0.
 *
 * The vector passes through the padding, the words, all 64 operations with their indices, sines
 * and shifts, the final sum and the hex form, so every constant and table has to be right.
 *
 * Each operation is evaluated by a lemma of its own; the rows, the block and the digest follow
 * from them.  The operations are those of an arbitrary function that agrees with the list, which
 * keeps the evaluation of one of them apart from that of the others.
 */
module Md5Sample {
  import opened Md5
  import opened LittleEndian

  /** The bytes of "message digest". */
  const MESSAGE: Octets := [109, 101, 115, 115, 97, 103, 101, 32, 100, 105, 103, 101, 115, 116]

  /** The sixteen words of the padded message. */
  const SAMPLE: seq<Word> := [0x7373656d, 0x20656761, 0x65676964, 0x00807473, 0, 0, 0, 0, 0, 0, 0, 0, 0, 0, 0x00000070, 0]

  /** The registers after `n` rows over those words. */
  function Trace(n: nat): Registers<Word> {
    match n
    case 0 => Registers(0x67452301, 0xefcdab89, 0x98badcfe, 0x10325476)
    case 1 => Registers(0x5ed29dae, 0xb9940c11, 0x9073e056, 0xe2a2fc32)
    case 2 => Registers(0xfa62d3a4, 0xc63616cd, 0xa089a530, 0xb88dc1c7)
    case 3 => Registers(0xfcced5db, 0x5ff4a4e8, 0x4731c077, 0x9bb4c658)
    case 4 => Registers(0x27c95b7f, 0xb760921a, 0x872d34d8, 0x034e9992)
    case 5 => Registers(0x6d3425b2, 0xf615fbe5, 0x62cdb24b, 0x551aefa3)
    case 6 => Registers(0x3d3c3afc, 0xe7f48f59, 0x99351d3c, 0x343bff12)
    case 7 => Registers(0x7247931a, 0x2460ff57, 0x709f1676, 0xe37cf5f6)
    case 8 => Registers(0xc64f6e00, 0x29209d1f, 0x99ccfca3, 0x4e341514)
    case 9 => Registers(0x7b425bcb, 0x77401eff, 0x8139174f, 0x1d72c0d5)
    case 10 => Registers(0x2e678c51, 0x1eaad7f9, 0x26bbf48d, 0xaf1a865c)
    case 11 => Registers(0xff95dbf7, 0x49bd582a, 0x580f8d8e, 0x9ff8129c)
    case 12 => Registers(0xc5148eb0, 0x8f920a7f, 0x8ee8cb35, 0x9551398b)
    case 13 => Registers(0x1158f562, 0xed9ac5d4, 0x3250a790, 0x3a3bd4bf)
    case 14 => Registers(0x7e40a029, 0xc004fc5d, 0x555e3d90, 0x778e9f99)
    case 15 => Registers(0x853d163f, 0x671dc236, 0x61367f65, 0x57ff85d4)
    case _ => Registers(0x162448f8, 0x9dc60bf3, 0x98747d54, 0xc02f9d34)
  }

  ghost predicate IsListed(op: Operation<Word>) {
    forall i: nat, a, b, c, d {:trigger Listed(SAMPLE, i, a, b, c, d)} :: op(i, a, b, c, d) == Listed(SAMPLE, i, a, b, c, d)
  }

  /** Operation `i` of the list, from its operands. */
  lemma OpIs(op: Operation<Word>, i: nat, a: Word, b: Word, c: Word, d: Word, f: Word, w: Word, t: Word, s: Shift, r: Word)
    requires IsListed(op) && SAMPLE[IndexList(i / 16)[i % 16]] == w && Sine(i) == t && ShiftList(i / 16)[i % 4] == s
    requires Mix(i / 16, b, c, d) == f && Turned(a, b, f, w, t, s) == r
    ensures op(i, a, b, c, d) == r
  {
    ListedTurns(SAMPLE, i, a, b, c, d, f, w, s);
  }

  lemma Op0(op: Operation<Word>)
    requires IsListed(op)
    ensures op(0, 0x67452301, 0xefcdab89, 0x98badcfe, 0x10325476) == 0x5ed29dae
  { OpIs(op, 0, 0x67452301, 0xefcdab89, 0x98badcfe, 0x10325476, 0x98badcfe, 0x7373656d, 0xd76aa478, 7, 0x5ed29dae); }

  lemma Op1(op: Operation<Word>)
    requires IsListed(op)
    ensures op(1, 0x10325476, 0x5ed29dae, 0xefcdab89, 0x98badcfe) == 0xe2a2fc32
  { OpIs(op, 1, 0x10325476, 0x5ed29dae, 0xefcdab89, 0x98badcfe, 0xcee8c9d8, 0x20656761, 0xe8c7b756, 12, 0xe2a2fc32); }

  lemma Op2(op: Operation<Word>)
    requires IsListed(op)
    ensures op(2, 0x98badcfe, 0xe2a2fc32, 0x5ed29dae, 0xefcdab89) == 0x9073e056
  { OpIs(op, 2, 0x98badcfe, 0xe2a2fc32, 0x5ed29dae, 0xefcdab89, 0x4fcf9fab, 0x65676964, 0x242070db, 17, 0x9073e056); }

  lemma Op3(op: Operation<Word>)
    requires IsListed(op)
    ensures op(3, 0xefcdab89, 0x9073e056, 0xe2a2fc32, 0x5ed29dae) == 0xb9940c11
  { OpIs(op, 3, 0xefcdab89, 0x9073e056, 0xe2a2fc32, 0x5ed29dae, 0xcea2fdba, 0x00807473, 0xc1bdceee, 22, 0xb9940c11); }

  lemma Op4(op: Operation<Word>)
    requires IsListed(op)
    ensures op(4, 0x5ed29dae, 0xb9940c11, 0x9073e056, 0xe2a2fc32) == 0xfa62d3a4
  { OpIs(op, 4, 0x5ed29dae, 0xb9940c11, 0x9073e056, 0xe2a2fc32, 0xd232f032, 0, 0xf57c0faf, 7, 0xfa62d3a4); }

  lemma Op5(op: Operation<Word>)
    requires IsListed(op)
    ensures op(5, 0xe2a2fc32, 0xfa62d3a4, 0xb9940c11, 0x9073e056) == 0xb88dc1c7
  { OpIs(op, 5, 0xe2a2fc32, 0xfa62d3a4, 0xb9940c11, 0x9073e056, 0xb8112052, 0, 0x4787c62a, 12, 0xb88dc1c7); }

  lemma Op6(op: Operation<Word>)
    requires IsListed(op)
    ensures op(6, 0x9073e056, 0xb88dc1c7, 0xfa62d3a4, 0xb9940c11) == 0xa089a530
  { OpIs(op, 6, 0x9073e056, 0xb88dc1c7, 0xfa62d3a4, 0xb9940c11, 0xb910cd94, 0, 0xa8304613, 17, 0xa089a530); }

  lemma Op7(op: Operation<Word>)
    requires IsListed(op)
    ensures op(7, 0xb9940c11, 0xa089a530, 0xb88dc1c7, 0xfa62d3a4) == 0xc63616cd
  { OpIs(op, 7, 0xb9940c11, 0xa089a530, 0xb88dc1c7, 0xfa62d3a4, 0xfaebd384, 0, 0xfd469501, 22, 0xc63616cd); }

  lemma Op8(op: Operation<Word>)
    requires IsListed(op)
    ensures op(8, 0xfa62d3a4, 0xc63616cd, 0xa089a530, 0xb88dc1c7) == 0xfcced5db
  { OpIs(op, 8, 0xfa62d3a4, 0xc63616cd, 0xa089a530, 0xb88dc1c7, 0xb889c502, 0, 0x698098d8, 7, 0xfcced5db); }

  lemma Op9(op: Operation<Word>)
    requires IsListed(op)
    ensures op(9, 0xb88dc1c7, 0xfcced5db, 0xc63616cd, 0xa089a530) == 0x9bb4c658
  { OpIs(op, 9, 0xb88dc1c7, 0xfcced5db, 0xc63616cd, 0xa089a530, 0xc40734e9, 0, 0x8b44f7af, 12, 0x9bb4c658); }

  lemma Op10(op: Operation<Word>)
    requires IsListed(op)
    ensures op(10, 0xa089a530, 0x9bb4c658, 0xfcced5db, 0xc63616cd) == 0x4731c077
  { OpIs(op, 10, 0xa089a530, 0x9bb4c658, 0xfcced5db, 0xc63616cd, 0xdc86d4dd, 0, 0xffff5bb1, 17, 0x4731c077); }

  lemma Op11(op: Operation<Word>)
    requires IsListed(op)
    ensures op(11, 0xc63616cd, 0x4731c077, 0x9bb4c658, 0xfcced5db) == 0x5ff4a4e8
  { OpIs(op, 11, 0xc63616cd, 0x4731c077, 0x9bb4c658, 0xfcced5db, 0xbbfed5d8, 0, 0x895cd7be, 22, 0x5ff4a4e8); }

  lemma Op12(op: Operation<Word>)
    requires IsListed(op)
    ensures op(12, 0xfcced5db, 0x5ff4a4e8, 0x4731c077, 0x9bb4c658) == 0x27c95b7f
  { OpIs(op, 12, 0xfcced5db, 0x5ff4a4e8, 0x4731c077, 0x9bb4c658, 0xc730c270, 0, 0x6b901122, 7, 0x27c95b7f); }

  lemma Op13(op: Operation<Word>)
    requires IsListed(op)
    ensures op(13, 0x9bb4c658, 0x27c95b7f, 0x5ff4a4e8, 0x4731c077) == 0x034e9992
  { OpIs(op, 13, 0x9bb4c658, 0x27c95b7f, 0x5ff4a4e8, 0x4731c077, 0x47f08068, 0, 0xfd987193, 12, 0x034e9992); }

  lemma Op14(op: Operation<Word>)
    requires IsListed(op)
    ensures op(14, 0x4731c077, 0x034e9992, 0x27c95b7f, 0x5ff4a4e8) == 0x872d34d8
  { OpIs(op, 14, 0x4731c077, 0x034e9992, 0x27c95b7f, 0x5ff4a4e8, 0x5ff83d7a, 0x00000070, 0xa679438e, 17, 0x872d34d8); }

  lemma Op15(op: Operation<Word>)
    requires IsListed(op)
    ensures op(15, 0x5ff4a4e8, 0x872d34d8, 0x034e9992, 0x27c95b7f) == 0xb760921a
  { OpIs(op, 15, 0x5ff4a4e8, 0x872d34d8, 0x034e9992, 0x27c95b7f, 0x23cc5bb7, 0, 0x49b40821, 22, 0xb760921a); }

  lemma Op16(op: Operation<Word>)
    requires IsListed(op)
    ensures op(16, 0x27c95b7f, 0xb760921a, 0x872d34d8, 0x034e9992) == 0x6d3425b2
  { OpIs(op, 16, 0x27c95b7f, 0xb760921a, 0x872d34d8, 0x034e9992, 0x8761b45a, 0x20656761, 0xf61e2562, 5, 0x6d3425b2); }

  lemma Op17(op: Operation<Word>)
    requires IsListed(op)
    ensures op(17, 0x034e9992, 0x6d3425b2, 0xb760921a, 0x872d34d8) == 0x551aefa3
  { OpIs(op, 17, 0x034e9992, 0x6d3425b2, 0xb760921a, 0x872d34d8, 0x3564a692, 0, 0xc040b340, 9, 0x551aefa3); }

  lemma Op18(op: Operation<Word>)
    requires IsListed(op)
    ensures op(18, 0x872d34d8, 0x551aefa3, 0x6d3425b2, 0xb760921a) == 0x62cdb24b
  { OpIs(op, 18, 0x872d34d8, 0x551aefa3, 0x6d3425b2, 0xb760921a, 0x5d14a7a2, 0, 0x265e5a51, 14, 0x62cdb24b); }

  lemma Op19(op: Operation<Word>)
    requires IsListed(op)
    ensures op(19, 0xb760921a, 0x62cdb24b, 0x551aefa3, 0x6d3425b2) == 0xf615fbe5
  { OpIs(op, 19, 0xb760921a, 0x62cdb24b, 0x551aefa3, 0x6d3425b2, 0x700eea03, 0x7373656d, 0xe9b6c7aa, 20, 0xf615fbe5); }

  lemma Op20(op: Operation<Word>)
    requires IsListed(op)
    ensures op(20, 0x6d3425b2, 0xf615fbe5, 0x62cdb24b, 0x551aefa3) == 0x3d3c3afc
  { OpIs(op, 20, 0x6d3425b2, 0xf615fbe5, 0x62cdb24b, 0x551aefa3, 0x76d5fbe9, 0, 0xd62f105d, 5, 0x3d3c3afc); }

  lemma Op21(op: Operation<Word>)
    requires IsListed(op)
    ensures op(21, 0x551aefa3, 0x3d3c3afc, 0xf615fbe5, 0x62cdb24b) == 0x343bff12
  { OpIs(op, 21, 0x551aefa3, 0x3d3c3afc, 0xf615fbe5, 0x62cdb24b, 0xb41c7bec, 0, 0x02441453, 9, 0x343bff12); }

  lemma Op22(op: Operation<Word>)
    requires IsListed(op)
    ensures op(22, 0x62cdb24b, 0x343bff12, 0x3d3c3afc, 0xf615fbe5) == 0x99351d3c
  { OpIs(op, 22, 0x62cdb24b, 0x343bff12, 0x3d3c3afc, 0xf615fbe5, 0x3d39fb18, 0, 0xd8a1e681, 14, 0x99351d3c); }

  lemma Op23(op: Operation<Word>)
    requires IsListed(op)
    ensures op(23, 0xf615fbe5, 0x99351d3c, 0x343bff12, 0x3d3c3afc) == 0xe7f48f59
  { OpIs(op, 23, 0xf615fbe5, 0x99351d3c, 0x343bff12, 0x3d3c3afc, 0x1937dd3e, 0, 0xe7d3fbc8, 20, 0xe7f48f59); }

  lemma Op24(op: Operation<Word>)
    requires IsListed(op)
    ensures op(24, 0x3d3c3afc, 0xe7f48f59, 0x99351d3c, 0x343bff12) == 0x7247931a
  { OpIs(op, 24, 0x3d3c3afc, 0xe7f48f59, 0x99351d3c, 0x343bff12, 0xad348f3c, 0, 0x21e1cde6, 5, 0x7247931a); }

  lemma Op25(op: Operation<Word>)
    requires IsListed(op)
    ensures op(25, 0x343bff12, 0x7247931a, 0xe7f48f59, 0x99351d3c) == 0xe37cf5f6
  { OpIs(op, 25, 0x343bff12, 0x7247931a, 0xe7f48f59, 0x99351d3c, 0x76c59359, 0x00000070, 0xc33707d6, 9, 0xe37cf5f6); }

  lemma Op26(op: Operation<Word>)
    requires IsListed(op)
    ensures op(26, 0x99351d3c, 0xe37cf5f6, 0x7247931a, 0xe7f48f59) == 0x709f1676
  { OpIs(op, 26, 0x99351d3c, 0xe37cf5f6, 0x7247931a, 0xe7f48f59, 0xf3779552, 0x00807473, 0xf4d50d87, 14, 0x709f1676); }

  lemma Op27(op: Operation<Word>)
    requires IsListed(op)
    ensures op(27, 0xe7f48f59, 0x709f1676, 0xe37cf5f6, 0x7247931a) == 0x2460ff57
  { OpIs(op, 27, 0xe7f48f59, 0x709f1676, 0xe37cf5f6, 0x7247931a, 0xf13f76f6, 0, 0x455a14ed, 20, 0x2460ff57); }

  lemma Op28(op: Operation<Word>)
    requires IsListed(op)
    ensures op(28, 0x7247931a, 0x2460ff57, 0x709f1676, 0xe37cf5f6) == 0xc64f6e00
  { OpIs(op, 28, 0x7247931a, 0x2460ff57, 0x709f1676, 0xe37cf5f6, 0x30e3f756, 0, 0xa9e3e905, 5, 0xc64f6e00); }

  lemma Op29(op: Operation<Word>)
    requires IsListed(op)
    ensures op(29, 0xe37cf5f6, 0xc64f6e00, 0x2460ff57, 0x709f1676) == 0x4e341514
  { OpIs(op, 29, 0xe37cf5f6, 0xc64f6e00, 0x2460ff57, 0x709f1676, 0x446fef01, 0x65676964, 0xfcefa3f8, 9, 0x4e341514); }

  lemma Op30(op: Operation<Word>)
    requires IsListed(op)
    ensures op(30, 0x709f1676, 0x4e341514, 0xc64f6e00, 0x2460ff57) == 0x99ccfca3
  { OpIs(op, 30, 0x709f1676, 0x4e341514, 0xc64f6e00, 0x2460ff57, 0xc62f1514, 0, 0x676f02d9, 14, 0x99ccfca3); }

  lemma Op31(op: Operation<Word>)
    requires IsListed(op)
    ensures op(31, 0x2460ff57, 0x99ccfca3, 0x4e341514, 0xc64f6e00) == 0x29209d1f
  { OpIs(op, 31, 0x2460ff57, 0x99ccfca3, 0x4e341514, 0xc64f6e00, 0x887c7d14, 0, 0x8d2a4c8a, 20, 0x29209d1f); }

  lemma Op32(op: Operation<Word>)
    requires IsListed(op)
    ensures op(32, 0xc64f6e00, 0x29209d1f, 0x99ccfca3, 0x4e341514) == 0x7b425bcb
  { OpIs(op, 32, 0xc64f6e00, 0x29209d1f, 0x99ccfca3, 0x4e341514, 0xfed874a8, 0, 0xfffa3942, 4, 0x7b425bcb); }

  lemma Op33(op: Operation<Word>)
    requires IsListed(op)
    ensures op(33, 0x4e341514, 0x7b425bcb, 0x29209d1f, 0x99ccfca3) == 0x1d72c0d5
  { OpIs(op, 33, 0x4e341514, 0x7b425bcb, 0x29209d1f, 0x99ccfca3, 0xcbae3a77, 0, 0x8771f681, 11, 0x1d72c0d5); }

  lemma Op34(op: Operation<Word>)
    requires IsListed(op)
    ensures op(34, 0x99ccfca3, 0x1d72c0d5, 0x7b425bcb, 0x29209d1f) == 0x8139174f
  { OpIs(op, 34, 0x99ccfca3, 0x1d72c0d5, 0x7b425bcb, 0x29209d1f, 0x4f100601, 0, 0x6d9d6122, 16, 0x8139174f); }

  lemma Op35(op: Operation<Word>)
    requires IsListed(op)
    ensures op(35, 0x29209d1f, 0x8139174f, 0x1d72c0d5, 0x7b425bcb) == 0x77401eff
  { OpIs(op, 35, 0x29209d1f, 0x8139174f, 0x1d72c0d5, 0x7b425bcb, 0xe7098c51, 0x00000070, 0xfde5380c, 23, 0x77401eff); }

  lemma Op36(op: Operation<Word>)
    requires IsListed(op)
    ensures op(36, 0x7b425bcb, 0x77401eff, 0x8139174f, 0x1d72c0d5) == 0x2e678c51
  { OpIs(op, 36, 0x7b425bcb, 0x77401eff, 0x8139174f, 0x1d72c0d5, 0xeb0bc965, 0x20656761, 0xa4beea44, 4, 0x2e678c51); }

  lemma Op37(op: Operation<Word>)
    requires IsListed(op)
    ensures op(37, 0x1d72c0d5, 0x2e678c51, 0x77401eff, 0x8139174f) == 0xaf1a865c
  { OpIs(op, 37, 0x1d72c0d5, 0x2e678c51, 0x77401eff, 0x8139174f, 0xd81e85e1, 0, 0x4bdecfa9, 11, 0xaf1a865c); }

  lemma Op38(op: Operation<Word>)
    requires IsListed(op)
    ensures op(38, 0x8139174f, 0xaf1a865c, 0x2e678c51, 0x77401eff) == 0x26bbf48d
  { OpIs(op, 38, 0x8139174f, 0xaf1a865c, 0x2e678c51, 0x77401eff, 0xf63d14f2, 0, 0xf6bb4b60, 16, 0x26bbf48d); }

  lemma Op39(op: Operation<Word>)
    requires IsListed(op)
    ensures op(39, 0x77401eff, 0x26bbf48d, 0xaf1a865c, 0x2e678c51) == 0x1eaad7f9
  { OpIs(op, 39, 0x77401eff, 0x26bbf48d, 0xaf1a865c, 0x2e678c51, 0xa7c6fe80, 0, 0xbebfbc70, 23, 0x1eaad7f9); }

  lemma Op40(op: Operation<Word>)
    requires IsListed(op)
    ensures op(40, 0x2e678c51, 0x1eaad7f9, 0x26bbf48d, 0xaf1a865c) == 0xff95dbf7
  { OpIs(op, 40, 0x2e678c51, 0x1eaad7f9, 0x26bbf48d, 0xaf1a865c, 0x970ba528, 0, 0x289b7ec6, 4, 0xff95dbf7); }

  lemma Op41(op: Operation<Word>)
    requires IsListed(op)
    ensures op(41, 0xaf1a865c, 0xff95dbf7, 0x1eaad7f9, 0x26bbf48d) == 0x9ff8129c
  { OpIs(op, 41, 0xaf1a865c, 0xff95dbf7, 0x1eaad7f9, 0x26bbf48d, 0xc784f883, 0x7373656d, 0xeaa127fa, 11, 0x9ff8129c); }

  lemma Op42(op: Operation<Word>)
    requires IsListed(op)
    ensures op(42, 0x26bbf48d, 0x9ff8129c, 0xff95dbf7, 0x1eaad7f9) == 0x580f8d8e
  { OpIs(op, 42, 0x26bbf48d, 0x9ff8129c, 0xff95dbf7, 0x1eaad7f9, 0x7ec71e92, 0x00807473, 0xd4ef3085, 16, 0x580f8d8e); }

  lemma Op43(op: Operation<Word>)
    requires IsListed(op)
    ensures op(43, 0x1eaad7f9, 0x580f8d8e, 0x9ff8129c, 0xff95dbf7) == 0x49bd582a
  { OpIs(op, 43, 0x1eaad7f9, 0x580f8d8e, 0x9ff8129c, 0xff95dbf7, 0x386244e5, 0, 0x04881d05, 23, 0x49bd582a); }

  lemma Op44(op: Operation<Word>)
    requires IsListed(op)
    ensures op(44, 0xff95dbf7, 0x49bd582a, 0x580f8d8e, 0x9ff8129c) == 0xc5148eb0
  { OpIs(op, 44, 0xff95dbf7, 0x49bd582a, 0x580f8d8e, 0x9ff8129c, 0x8e4ac738, 0, 0xd9d4d039, 4, 0xc5148eb0); }

  lemma Op45(op: Operation<Word>)
    requires IsListed(op)
    ensures op(45, 0x9ff8129c, 0xc5148eb0, 0x49bd582a, 0x580f8d8e) == 0x9551398b
  { OpIs(op, 45, 0x9ff8129c, 0xc5148eb0, 0x49bd582a, 0x580f8d8e, 0xd4a65b14, 0, 0xe6db99e5, 11, 0x9551398b); }

  lemma Op46(op: Operation<Word>)
    requires IsListed(op)
    ensures op(46, 0x580f8d8e, 0x9551398b, 0xc5148eb0, 0x49bd582a) == 0x8ee8cb35
  { OpIs(op, 46, 0x580f8d8e, 0x9551398b, 0xc5148eb0, 0x49bd582a, 0x19f8ef11, 0, 0x1fa27cf8, 16, 0x8ee8cb35); }

  lemma Op47(op: Operation<Word>)
    requires IsListed(op)
    ensures op(47, 0x49bd582a, 0x8ee8cb35, 0x9551398b, 0xc5148eb0) == 0x8f920a7f
  { OpIs(op, 47, 0x49bd582a, 0x8ee8cb35, 0x9551398b, 0xc5148eb0, 0xdead7c0e, 0x65676964, 0xc4ac5665, 23, 0x8f920a7f); }

  lemma Op48(op: Operation<Word>)
    requires IsListed(op)
    ensures op(48, 0xc5148eb0, 0x8f920a7f, 0x8ee8cb35, 0x9551398b) == 0x1158f562
  { OpIs(op, 48, 0xc5148eb0, 0x8f920a7f, 0x8ee8cb35, 0x9551398b, 0x6156054a, 0x7373656d, 0xf4292244, 6, 0x1158f562); }

  lemma Op49(op: Operation<Word>)
    requires IsListed(op)
    ensures op(49, 0x9551398b, 0x1158f562, 0x8f920a7f, 0x8ee8cb35) == 0x3a3bd4bf
  { OpIs(op, 49, 0x9551398b, 0x1158f562, 0x8f920a7f, 0x8ee8cb35, 0xfecdff95, 0, 0x432aff97, 10, 0x3a3bd4bf); }

  lemma Op50(op: Operation<Word>)
    requires IsListed(op)
    ensures op(50, 0x8ee8cb35, 0x3a3bd4bf, 0x1158f562, 0x8f920a7f) == 0x3250a790
  { OpIs(op, 50, 0x8ee8cb35, 0x3a3bd4bf, 0x1158f562, 0x8f920a7f, 0x6b2700dd, 0x00000070, 0xab9423a7, 15, 0x3250a790); }

  lemma Op51(op: Operation<Word>)
    requires IsListed(op)
    ensures op(51, 0x8f920a7f, 0x3250a790, 0x3a3bd4bf, 0x1158f562) == 0xed9ac5d4
  { OpIs(op, 51, 0x8f920a7f, 0x3250a790, 0x3a3bd4bf, 0x1158f562, 0xc4cc7b22, 0, 0xfc93a039, 21, 0xed9ac5d4); }

  lemma Op52(op: Operation<Word>)
    requires IsListed(op)
    ensures op(52, 0x1158f562, 0xed9ac5d4, 0x3250a790, 0x3a3bd4bf) == 0x7e40a029
  { OpIs(op, 52, 0x1158f562, 0xed9ac5d4, 0x3250a790, 0x3a3bd4bf, 0xdf8e4844, 0, 0x655b59c3, 6, 0x7e40a029); }

  lemma Op53(op: Operation<Word>)
    requires IsListed(op)
    ensures op(53, 0x3a3bd4bf, 0x7e40a029, 0xed9ac5d4, 0x3250a790) == 0x778e9f99
  { OpIs(op, 53, 0x3a3bd4bf, 0x7e40a029, 0xed9ac5d4, 0x3250a790, 0x12753dbb, 0x00807473, 0x8f0ccc92, 10, 0x778e9f99); }

  lemma Op54(op: Operation<Word>)
    requires IsListed(op)
    ensures op(54, 0x3250a790, 0x778e9f99, 0x7e40a029, 0xed9ac5d4) == 0x555e3d90
  { OpIs(op, 54, 0x3250a790, 0x778e9f99, 0x7e40a029, 0xed9ac5d4, 0x09af1f92, 0, 0xffeff47d, 15, 0x555e3d90); }

  lemma Op55(op: Operation<Word>)
    requires IsListed(op)
    ensures op(55, 0xed9ac5d4, 0x555e3d90, 0x778e9f99, 0x7e40a029) == 0xc004fc5d
  { OpIs(op, 55, 0xed9ac5d4, 0x555e3d90, 0x778e9f99, 0x7e40a029, 0xa271e04f, 0x20656761, 0x85845dd1, 21, 0xc004fc5d); }

  lemma Op56(op: Operation<Word>)
    requires IsListed(op)
    ensures op(56, 0x7e40a029, 0xc004fc5d, 0x555e3d90, 0x778e9f99) == 0x853d163f
  { OpIs(op, 56, 0x7e40a029, 0xc004fc5d, 0x555e3d90, 0x778e9f99, 0x9d2bc1ef, 0, 0x6fa87e4f, 6, 0x853d163f); }

  lemma Op57(op: Operation<Word>)
    requires IsListed(op)
    ensures op(57, 0x778e9f99, 0x853d163f, 0xc004fc5d, 0x555e3d90) == 0x57ff85d4
  { OpIs(op, 57, 0x778e9f99, 0x853d163f, 0xc004fc5d, 0x555e3d90, 0x6fb92a22, 0, 0xfe2ce6e0, 10, 0x57ff85d4); }

  lemma Op58(op: Operation<Word>)
    requires IsListed(op)
    ensures op(58, 0x555e3d90, 0x57ff85d4, 0x853d163f, 0xc004fc5d) == 0x61367f65
  { OpIs(op, 58, 0x555e3d90, 0x57ff85d4, 0x853d163f, 0xc004fc5d, 0xfac291c9, 0, 0xa3014314, 15, 0x61367f65); }

  lemma Op59(op: Operation<Word>)
    requires IsListed(op)
    ensures op(59, 0xc004fc5d, 0x61367f65, 0x57ff85d4, 0x853d163f) == 0x671dc236
  { OpIs(op, 59, 0xc004fc5d, 0x61367f65, 0x57ff85d4, 0x853d163f, 0x2c097a31, 0, 0x4e0811a1, 21, 0x671dc236); }

  lemma Op60(op: Operation<Word>)
    requires IsListed(op)
    ensures op(60, 0x853d163f, 0x671dc236, 0x61367f65, 0x57ff85d4) == 0x162448f8
  { OpIs(op, 60, 0x853d163f, 0x671dc236, 0x61367f65, 0x57ff85d4, 0x8e2b855a, 0, 0xf7537e82, 6, 0x162448f8); }

  lemma Op61(op: Operation<Word>)
    requires IsListed(op)
    ensures op(61, 0x57ff85d4, 0x162448f8, 0x671dc236, 0x61367f65) == 0xc02f9d34
  { OpIs(op, 61, 0x57ff85d4, 0x162448f8, 0x671dc236, 0x61367f65, 0xf9f00acc, 0, 0xbd3af235, 10, 0xc02f9d34); }

  lemma Op62(op: Operation<Word>)
    requires IsListed(op)
    ensures op(62, 0x61367f65, 0xc02f9d34, 0x162448f8, 0x671dc236) == 0x98747d54
  { OpIs(op, 62, 0x61367f65, 0xc02f9d34, 0x162448f8, 0x671dc236, 0xcecbf505, 0x65676964, 0x2ad7d2bb, 15, 0x98747d54); }

  lemma Op63(op: Operation<Word>)
    requires IsListed(op)
    ensures op(63, 0x671dc236, 0x98747d54, 0xc02f9d34, 0x162448f8) == 0x9dc60bf3
  { OpIs(op, 63, 0x671dc236, 0x98747d54, 0xc02f9d34, 0x162448f8, 0x39d06263, 0, 0xeb86d391, 21, 0x9dc60bf3); }

  lemma TraceRound1(op: Operation<Word>, n: nat)
    requires IsListed(op) && 0 <= n < 4
    ensures Row(op, Trace(n), n) == Trace(n + 1)
  {
    match n
    case 0 => Op0(op); Op1(op); Op2(op); Op3(op);
    case 1 => Op4(op); Op5(op); Op6(op); Op7(op);
    case 2 => Op8(op); Op9(op); Op10(op); Op11(op);
    case _ => Op12(op); Op13(op); Op14(op); Op15(op);
  }

  lemma TraceRound2(op: Operation<Word>, n: nat)
    requires IsListed(op) && 4 <= n < 8
    ensures Row(op, Trace(n), n) == Trace(n + 1)
  {
    match n
    case 4 => Op16(op); Op17(op); Op18(op); Op19(op);
    case 5 => Op20(op); Op21(op); Op22(op); Op23(op);
    case 6 => Op24(op); Op25(op); Op26(op); Op27(op);
    case _ => Op28(op); Op29(op); Op30(op); Op31(op);
  }

  lemma TraceRound3(op: Operation<Word>, n: nat)
    requires IsListed(op) && 8 <= n < 12
    ensures Row(op, Trace(n), n) == Trace(n + 1)
  {
    match n
    case 8 => Op32(op); Op33(op); Op34(op); Op35(op);
    case 9 => Op36(op); Op37(op); Op38(op); Op39(op);
    case 10 => Op40(op); Op41(op); Op42(op); Op43(op);
    case _ => Op44(op); Op45(op); Op46(op); Op47(op);
  }

  lemma TraceRound4(op: Operation<Word>, n: nat)
    requires IsListed(op) && 12 <= n < 16
    ensures Row(op, Trace(n), n) == Trace(n + 1)
  {
    match n
    case 12 => Op48(op); Op49(op); Op50(op); Op51(op);
    case 13 => Op52(op); Op53(op); Op54(op); Op55(op);
    case 14 => Op56(op); Op57(op); Op58(op); Op59(op);
    case _ => Op60(op); Op61(op); Op62(op); Op63(op);
  }

  lemma {:induction false} TraceRows(op: Operation<Word>, n: nat)
    requires IsListed(op) && n <= 16
    ensures Rows(op, INIT, n) == Trace(n)
  {
    if n > 0 {
      TraceRows(op, n - 1);
      if n <= 4 { TraceRound1(op, n - 1); }
      else if n <= 8 { TraceRound2(op, n - 1); }
      else if n <= 12 { TraceRound3(op, n - 1); }
      else { TraceRound4(op, n - 1); }
    }
  }

  lemma SampleRows(op: Operation<Word>, r: Registers<Word>, n: nat)
    requires IsListed(op) && r == INIT && n == 16
    ensures Rows(op, r, n) == Trace(n)
  {
    TraceRows(op, n);
  }

  lemma BlockEnds(x: seq<Word>, r: Registers<Word>, n: nat, end: Registers<Word>)
    requires |x| == 16 && Rows(ListedBy(x), r, n) == end && n == 16
    ensures Block(r, x) == Sum(r, end)
  {
  }

  lemma SampleIsListed(x: seq<Word>)
    requires x == SAMPLE
    ensures IsListed(ListedBy(x))
  {
  }

  /** The registers of the digest. */
  const FINAL: Registers<Word> := Registers(0x7d696bf9, 0x8d93b77c, 0x312f5a52, 0xd061f1aa)

  lemma SampleSum(r: Registers<Word>, n: nat)
    requires r == INIT && n == 16
    ensures Sum(r, Trace(n)) == FINAL
  {
  }

  lemma SampleBlock(x: seq<Word>, r: Registers<Word>, n: nat)
    requires x == SAMPLE && r == INIT && n == 16
    ensures Block(r, x) == FINAL
  {
    SampleIsListed(x);
    SampleRows(ListedBy(x), r, n);
    BlockEnds(x, r, n, Trace(n));
    SampleSum(r, n);
  }

  // ---------- From the message to the words ----------

  /** The length field of 112 bits. */
  lemma SampleLength()
    ensures LittleEndian64(112) == [112, 0, 0, 0, 0, 0, 0, 0]
  {
    NoMoreBytes(7);
    var low := LowBytes(112, 8);
    assert low == [112] + LowBytes(0, 7);
    assert Octet(112) == 112 && Octet(0) == 0;
    forall i | 0 <= i < 8 ensures LittleEndian64(112)[i] == (if i == 0 then 112 else 0) {
      assert low[i] == if i == 0 then 112 else 0;
    }
  }

  lemma {:induction false} NoMoreBytes(k: nat)
    ensures forall i | 0 <= i < k :: LowBytes(0, k)[i] == 0
  {
    if k > 0 { NoMoreBytes(k - 1); }
  }

  lemma SampleWords(p: Octets)
    requires p == Padded(MESSAGE)
    ensures |p| == 64 && Words(ChunkAt(p, 0)) == SAMPLE
  {
    SampleLength();
    assert |MESSAGE| == 14 && Gap(14) == 41 && p == MESSAGE + [0x80] + Zeros(41) + LittleEndian64(112);
    assert ChunkAt(p, 0) == p;
    forall i | 0 <= i < 16 ensures WordAt(p, i) == SAMPLE[i] {
      if i < 4 { TextWord(p, i); } else { TailWord(p, i); }
    }
  }

  lemma TextWord(p: Octets, i: nat)
    requires i < 4 && |p| == 64 && p[..16] == MESSAGE + [0x80, 0]
    ensures WordAt(p, i) == SAMPLE[i]
  {
    assert p[..16][4 * i..4 * i + 4] == p[4 * i..4 * i + 4];
  }

  lemma TailWord(p: Octets, i: nat)
    requires 4 <= i < 16 && |p| == 64 && p[15..56] == Zeros(41) && p[56..] == [112, 0, 0, 0, 0, 0, 0, 0]
    ensures WordAt(p, i) == SAMPLE[i]
  {
    if i < 14 {
      forall k | 4 * i <= k < 4 * i + 4 ensures p[k] == 0 { assert p[k] == p[15..56][k - 15]; }
    } else {
      forall k | 56 <= k < 64 ensures p[k] == [112, 0, 0, 0, 0, 0, 0, 0][k - 56] { assert p[k] == p[56..][k - 56]; }
    }
  }

  // ---------- From the registers to the text ----------

  lemma {:induction false} HexConcat(a: Octets, b: Octets)
    ensures Hex(a + b) == Hex(a) + Hex(b)
    decreases |b|
  {
    if b == [] {
      assert a + b == a;
    } else {
      HexConcat(a, b[..|b| - 1]);
      assert (a + b)[..|a + b| - 1] == a + b[..|b| - 1];
    }
  }

  lemma HexFour(w: Word, a: bv8, b: bv8, c: bv8, d: bv8)
    requires w == Join(a, b, c, d)
    ensures Hex(WordBytes(w)) == HexByte(a) + HexByte(b) + HexByte(c) + HexByte(d)
  {
    JoinSplits(a, b, c, d);
    assert [a, b, c, d] == [a] + [b] + [c] + [d];
    HexConcat([a] + [b] + [c], [d]);
    HexConcat([a] + [b], [c]);
    HexConcat([a], [b]);
    OneHex(a);
    OneHex(b);
    OneHex(c);
    OneHex(d);
  }

  lemma OneHex(b: bv8)
    ensures Hex([b]) == HexByte(b)
  {
    assert [b][..0] == [];
  }

  lemma HexWords(r: Registers<Word>)
    ensures Hex(WordBytes(r.a) + WordBytes(r.b) + WordBytes(r.c) + WordBytes(r.d))
      == Hex(WordBytes(r.a)) + Hex(WordBytes(r.b)) + Hex(WordBytes(r.c)) + Hex(WordBytes(r.d))
  {
    var a, b, c, d := WordBytes(r.a), WordBytes(r.b), WordBytes(r.c), WordBytes(r.d);
    HexConcat(a + b + c, d);
    HexConcat(a + b, c);
    HexConcat(a, b);
  }

  lemma WordHex(w: Word, a: bv8, b: bv8, c: bv8, d: bv8, s: string)
    requires w == Join(a, b, c, d) && s == HexByte(a) + HexByte(b) + HexByte(c) + HexByte(d)
    ensures Hex(WordBytes(w)) == s
  {
    HexFour(w, a, b, c, d);
  }

  lemma SampleHex(r: Registers<Word>)
    requires r == FINAL
    ensures Hex(WordBytes(r.a) + WordBytes(r.b) + WordBytes(r.c) + WordBytes(r.d)) == "f96b697d7cb7938d525a2f31aaf161d0"
  {
    HexWords(r);
    WordHex(r.a, 0xf9, 0x6b, 0x69, 0x7d, "f96b697d");
    WordHex(r.b, 0x7c, 0xb7, 0x93, 0x8d, "7cb7938d");
    WordHex(r.c, 0x52, 0x5a, 0x2f, 0x31, "525a2f31");
    WordHex(r.d, 0xaa, 0xf1, 0x61, 0xd0, "aaf161d0");
    assert "f96b697d" + "7cb7938d" + "525a2f31" + "aaf161d0" == "f96b697d7cb7938d525a2f31aaf161d0";
  }

  lemma SampleRegisters(p: Octets, n: nat)
    requires p == Padded(MESSAGE) && n == 1
    ensures 64 * n <= |p| && Blocks(p, n) == FINAL
  {
    SampleWords(p);
    SampleBlock(Words(ChunkAt(p, 0)), INIT, 16);
    assert Blocks(p, 0) == INIT;
  }

  /** The digest of "message digest", as the RFC gives it. */
  lemma SampleDigest(data: Octets)
    requires data == MESSAGE
    ensures Hex(Rfc1321(data)) == "f96b697d7cb7938d525a2f31aaf161d0"
  {
    var p := Padded(data);
    SampleWords(p);
    SampleRegisters(p, |p| / 64);
    SampleHex(FINAL);
  }
}
