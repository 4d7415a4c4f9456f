/** One message whose digests are known: "abc", as FIPS 180 works it out. Every word of its schedules
    and every state between two rounds is written out, and each is checked against the one before; so
    the digests at the end are those of no other round, schedule, constant or padding. */
module ShaVectors {
  import opened BlockFold
  import opened Bytes
  import opened ShaSpec

  const ABC: seq<byte> := [0x61, 0x62, 0x63]

  // ---- SHA-256 ---------------------------------------------------------------------------

  /** The schedule of some block. */
  predicate Extended256(w: seq<bv32>) {
    |w| >= 16 && w == Grow(Next256, w[..16], |w| - 16)
  }

  lemma Word256(w: seq<bv32>, t: nat, w16: bv32, w15: bv32, w7: bv32, w2: bv32, next: bv32)
    requires Extended256(w) && 16 <= t < |w| && w[t - 16] == w16 && w[t - 15] == w15 && w[t - 7] == w7 && w[t - 2] == w2
    requires Mixed256(w16, w15, w7, w2) == next
    ensures w[t] == next
  {
    GrowExtends(Next256, w[..16], |w| - 16, t);
    assert w[..t][t - 16] == w16 && w[..t][t - 15] == w15 && w[..t][t - 7] == w7 && w[..t][t - 2] == w2;
  }

  lemma Step256(w: seq<bv32>, t: nat)
    requires |w| == 64 && t < 64
    ensures Rounds256(w, INITIAL_256, t + 1) == Round256(Rounds256(w, INITIAL_256, t), K256[t], w[t])
  {
  }

  lemma Mixes256From16()
    ensures Mixed256(0x61626380, 0x00000000, 0x00000000, 0x00000000) == 0x61626380
    ensures Mixed256(0x00000000, 0x00000000, 0x00000000, 0x00000018) == 0x000f0000
    ensures Mixed256(0x00000000, 0x00000000, 0x00000000, 0x61626380) == 0x7da86405
    ensures Mixed256(0x00000000, 0x00000000, 0x00000000, 0x000f0000) == 0x600003c6
    ensures Mixed256(0x00000000, 0x00000000, 0x00000000, 0x7da86405) == 0x3e9d7b78
    ensures Mixed256(0x00000000, 0x00000000, 0x00000000, 0x600003c6) == 0x0183fc00
    ensures Mixed256(0x00000000, 0x00000000, 0x00000018, 0x3e9d7b78) == 0x12dcbfdb
    ensures Mixed256(0x00000000, 0x00000000, 0x61626380, 0x0183fc00) == 0xe2e2c38e
    ensures Mixed256(0x00000000, 0x00000000, 0x000f0000, 0x12dcbfdb) == 0xc8215c1a
    ensures Mixed256(0x00000000, 0x00000000, 0x7da86405, 0xe2e2c38e) == 0xb73679a2
    ensures Mixed256(0x00000000, 0x00000000, 0x600003c6, 0xc8215c1a) == 0xe5bc3909
    ensures Mixed256(0x00000000, 0x00000000, 0x3e9d7b78, 0xb73679a2) == 0x32663c5b
    ensures Mixed256(0x00000000, 0x00000000, 0x0183fc00, 0xe5bc3909) == 0x9d209d67
    ensures Mixed256(0x00000000, 0x00000000, 0x12dcbfdb, 0x32663c5b) == 0xec8726cb
    ensures Mixed256(0x00000000, 0x00000018, 0xe2e2c38e, 0x9d209d67) == 0x702138a4
    ensures Mixed256(0x00000018, 0x61626380, 0xc8215c1a, 0xec8726cb) == 0xd3b7973b
  {
  }

  lemma Words256From16(w: seq<bv32>)
    requires |w| == 64 && Extended256(w)
    requires w[0] == 0x61626380 && w[1] == 0x00000000 && w[2] == 0x00000000 && w[3] == 0x00000000
    requires w[4] == 0x00000000 && w[5] == 0x00000000 && w[6] == 0x00000000 && w[7] == 0x00000000
    requires w[8] == 0x00000000 && w[9] == 0x00000000 && w[10] == 0x00000000 && w[11] == 0x00000000
    requires w[12] == 0x00000000 && w[13] == 0x00000000 && w[14] == 0x00000000 && w[15] == 0x00000018
    ensures w[16] == 0x61626380 && w[17] == 0x000f0000 && w[18] == 0x7da86405 && w[19] == 0x600003c6
    ensures w[20] == 0x3e9d7b78 && w[21] == 0x0183fc00 && w[22] == 0x12dcbfdb && w[23] == 0xe2e2c38e
    ensures w[24] == 0xc8215c1a && w[25] == 0xb73679a2 && w[26] == 0xe5bc3909 && w[27] == 0x32663c5b
    ensures w[28] == 0x9d209d67 && w[29] == 0xec8726cb && w[30] == 0x702138a4 && w[31] == 0xd3b7973b
  {
    Mixes256From16();
    Word256(w, 16, 0x61626380, 0x00000000, 0x00000000, 0x00000000, 0x61626380);
    Word256(w, 17, 0x00000000, 0x00000000, 0x00000000, 0x00000018, 0x000f0000);
    Word256(w, 18, 0x00000000, 0x00000000, 0x00000000, 0x61626380, 0x7da86405);
    Word256(w, 19, 0x00000000, 0x00000000, 0x00000000, 0x000f0000, 0x600003c6);
    Word256(w, 20, 0x00000000, 0x00000000, 0x00000000, 0x7da86405, 0x3e9d7b78);
    Word256(w, 21, 0x00000000, 0x00000000, 0x00000000, 0x600003c6, 0x0183fc00);
    Word256(w, 22, 0x00000000, 0x00000000, 0x00000018, 0x3e9d7b78, 0x12dcbfdb);
    Word256(w, 23, 0x00000000, 0x00000000, 0x61626380, 0x0183fc00, 0xe2e2c38e);
    Word256(w, 24, 0x00000000, 0x00000000, 0x000f0000, 0x12dcbfdb, 0xc8215c1a);
    Word256(w, 25, 0x00000000, 0x00000000, 0x7da86405, 0xe2e2c38e, 0xb73679a2);
    Word256(w, 26, 0x00000000, 0x00000000, 0x600003c6, 0xc8215c1a, 0xe5bc3909);
    Word256(w, 27, 0x00000000, 0x00000000, 0x3e9d7b78, 0xb73679a2, 0x32663c5b);
    Word256(w, 28, 0x00000000, 0x00000000, 0x0183fc00, 0xe5bc3909, 0x9d209d67);
    Word256(w, 29, 0x00000000, 0x00000000, 0x12dcbfdb, 0x32663c5b, 0xec8726cb);
    Word256(w, 30, 0x00000000, 0x00000018, 0xe2e2c38e, 0x9d209d67, 0x702138a4);
    Word256(w, 31, 0x00000018, 0x61626380, 0xc8215c1a, 0xec8726cb, 0xd3b7973b);
  }

  lemma Mixes256From32()
    ensures Mixed256(0x61626380, 0x000f0000, 0xb73679a2, 0x702138a4) == 0x93f5997f
    ensures Mixed256(0x000f0000, 0x7da86405, 0xe5bc3909, 0xd3b7973b) == 0x3b68ba73
    ensures Mixed256(0x7da86405, 0x600003c6, 0x32663c5b, 0x93f5997f) == 0xaff4ffc1
    ensures Mixed256(0x600003c6, 0x3e9d7b78, 0x9d209d67, 0x3b68ba73) == 0xf10a5c62
    ensures Mixed256(0x3e9d7b78, 0x0183fc00, 0xec8726cb, 0xaff4ffc1) == 0x0a8b3996
    ensures Mixed256(0x0183fc00, 0x12dcbfdb, 0x702138a4, 0xf10a5c62) == 0x72af830a
    ensures Mixed256(0x12dcbfdb, 0xe2e2c38e, 0xd3b7973b, 0x0a8b3996) == 0x9409e33e
    ensures Mixed256(0xe2e2c38e, 0xc8215c1a, 0x93f5997f, 0x72af830a) == 0x24641522
    ensures Mixed256(0xc8215c1a, 0xb73679a2, 0x3b68ba73, 0x9409e33e) == 0x9f47bf94
    ensures Mixed256(0xb73679a2, 0xe5bc3909, 0xaff4ffc1, 0x24641522) == 0xf0a64f5a
    ensures Mixed256(0xe5bc3909, 0x32663c5b, 0xf10a5c62, 0x9f47bf94) == 0x3e246a79
    ensures Mixed256(0x32663c5b, 0x9d209d67, 0x0a8b3996, 0xf0a64f5a) == 0x27333ba3
    ensures Mixed256(0x9d209d67, 0xec8726cb, 0x72af830a, 0x3e246a79) == 0x0c4763f2
    ensures Mixed256(0xec8726cb, 0x702138a4, 0x9409e33e, 0x27333ba3) == 0x840abf27
    ensures Mixed256(0x702138a4, 0xd3b7973b, 0x24641522, 0x0c4763f2) == 0x7a290d5d
    ensures Mixed256(0xd3b7973b, 0x93f5997f, 0x9f47bf94, 0x840abf27) == 0x065c43da
  {
  }

  lemma Words256From32(w: seq<bv32>)
    requires |w| == 64 && Extended256(w)
    requires w[16] == 0x61626380 && w[17] == 0x000f0000 && w[18] == 0x7da86405 && w[19] == 0x600003c6
    requires w[20] == 0x3e9d7b78 && w[21] == 0x0183fc00 && w[22] == 0x12dcbfdb && w[23] == 0xe2e2c38e
    requires w[24] == 0xc8215c1a && w[25] == 0xb73679a2 && w[26] == 0xe5bc3909 && w[27] == 0x32663c5b
    requires w[28] == 0x9d209d67 && w[29] == 0xec8726cb && w[30] == 0x702138a4 && w[31] == 0xd3b7973b
    ensures w[32] == 0x93f5997f && w[33] == 0x3b68ba73 && w[34] == 0xaff4ffc1 && w[35] == 0xf10a5c62
    ensures w[36] == 0x0a8b3996 && w[37] == 0x72af830a && w[38] == 0x9409e33e && w[39] == 0x24641522
    ensures w[40] == 0x9f47bf94 && w[41] == 0xf0a64f5a && w[42] == 0x3e246a79 && w[43] == 0x27333ba3
    ensures w[44] == 0x0c4763f2 && w[45] == 0x840abf27 && w[46] == 0x7a290d5d && w[47] == 0x065c43da
  {
    Mixes256From32();
    Word256(w, 32, 0x61626380, 0x000f0000, 0xb73679a2, 0x702138a4, 0x93f5997f);
    Word256(w, 33, 0x000f0000, 0x7da86405, 0xe5bc3909, 0xd3b7973b, 0x3b68ba73);
    Word256(w, 34, 0x7da86405, 0x600003c6, 0x32663c5b, 0x93f5997f, 0xaff4ffc1);
    Word256(w, 35, 0x600003c6, 0x3e9d7b78, 0x9d209d67, 0x3b68ba73, 0xf10a5c62);
    Word256(w, 36, 0x3e9d7b78, 0x0183fc00, 0xec8726cb, 0xaff4ffc1, 0x0a8b3996);
    Word256(w, 37, 0x0183fc00, 0x12dcbfdb, 0x702138a4, 0xf10a5c62, 0x72af830a);
    Word256(w, 38, 0x12dcbfdb, 0xe2e2c38e, 0xd3b7973b, 0x0a8b3996, 0x9409e33e);
    Word256(w, 39, 0xe2e2c38e, 0xc8215c1a, 0x93f5997f, 0x72af830a, 0x24641522);
    Word256(w, 40, 0xc8215c1a, 0xb73679a2, 0x3b68ba73, 0x9409e33e, 0x9f47bf94);
    Word256(w, 41, 0xb73679a2, 0xe5bc3909, 0xaff4ffc1, 0x24641522, 0xf0a64f5a);
    Word256(w, 42, 0xe5bc3909, 0x32663c5b, 0xf10a5c62, 0x9f47bf94, 0x3e246a79);
    Word256(w, 43, 0x32663c5b, 0x9d209d67, 0x0a8b3996, 0xf0a64f5a, 0x27333ba3);
    Word256(w, 44, 0x9d209d67, 0xec8726cb, 0x72af830a, 0x3e246a79, 0x0c4763f2);
    Word256(w, 45, 0xec8726cb, 0x702138a4, 0x9409e33e, 0x27333ba3, 0x840abf27);
    Word256(w, 46, 0x702138a4, 0xd3b7973b, 0x24641522, 0x0c4763f2, 0x7a290d5d);
    Word256(w, 47, 0xd3b7973b, 0x93f5997f, 0x9f47bf94, 0x840abf27, 0x065c43da);
  }

  lemma Mixes256From48()
    ensures Mixed256(0x93f5997f, 0x3b68ba73, 0xf0a64f5a, 0x7a290d5d) == 0xfb3e89cb
    ensures Mixed256(0x3b68ba73, 0xaff4ffc1, 0x3e246a79, 0x065c43da) == 0xcc7617db
    ensures Mixed256(0xaff4ffc1, 0xf10a5c62, 0x27333ba3, 0xfb3e89cb) == 0xb9e66c34
    ensures Mixed256(0xf10a5c62, 0x0a8b3996, 0x0c4763f2, 0xcc7617db) == 0xa9993667
    ensures Mixed256(0x0a8b3996, 0x72af830a, 0x840abf27, 0xb9e66c34) == 0x84badedd
    ensures Mixed256(0x72af830a, 0x9409e33e, 0x7a290d5d, 0xa9993667) == 0xc21462bc
    ensures Mixed256(0x9409e33e, 0x24641522, 0x065c43da, 0x84badedd) == 0x1487472c
    ensures Mixed256(0x24641522, 0x9f47bf94, 0xfb3e89cb, 0xc21462bc) == 0xb20f7a99
    ensures Mixed256(0x9f47bf94, 0xf0a64f5a, 0xcc7617db, 0x1487472c) == 0xef57b9cd
    ensures Mixed256(0xf0a64f5a, 0x3e246a79, 0xb9e66c34, 0xb20f7a99) == 0xebe6b238
    ensures Mixed256(0x3e246a79, 0x27333ba3, 0xa9993667, 0xef57b9cd) == 0x9fe3095e
    ensures Mixed256(0x27333ba3, 0x0c4763f2, 0x84badedd, 0xebe6b238) == 0x78bc8d4b
    ensures Mixed256(0x0c4763f2, 0x840abf27, 0xc21462bc, 0x9fe3095e) == 0xa43fcf15
    ensures Mixed256(0x840abf27, 0x7a290d5d, 0x1487472c, 0x78bc8d4b) == 0x668b2ff8
    ensures Mixed256(0x7a290d5d, 0x065c43da, 0xb20f7a99, 0xa43fcf15) == 0xeeaba2cc
    ensures Mixed256(0x065c43da, 0xfb3e89cb, 0xef57b9cd, 0x668b2ff8) == 0x12b1edeb
  {
  }

  lemma Words256From48(w: seq<bv32>)
    requires |w| == 64 && Extended256(w)
    requires w[32] == 0x93f5997f && w[33] == 0x3b68ba73 && w[34] == 0xaff4ffc1 && w[35] == 0xf10a5c62
    requires w[36] == 0x0a8b3996 && w[37] == 0x72af830a && w[38] == 0x9409e33e && w[39] == 0x24641522
    requires w[40] == 0x9f47bf94 && w[41] == 0xf0a64f5a && w[42] == 0x3e246a79 && w[43] == 0x27333ba3
    requires w[44] == 0x0c4763f2 && w[45] == 0x840abf27 && w[46] == 0x7a290d5d && w[47] == 0x065c43da
    ensures w[48] == 0xfb3e89cb && w[49] == 0xcc7617db && w[50] == 0xb9e66c34 && w[51] == 0xa9993667
    ensures w[52] == 0x84badedd && w[53] == 0xc21462bc && w[54] == 0x1487472c && w[55] == 0xb20f7a99
    ensures w[56] == 0xef57b9cd && w[57] == 0xebe6b238 && w[58] == 0x9fe3095e && w[59] == 0x78bc8d4b
    ensures w[60] == 0xa43fcf15 && w[61] == 0x668b2ff8 && w[62] == 0xeeaba2cc && w[63] == 0x12b1edeb
  {
    Mixes256From48();
    Word256(w, 48, 0x93f5997f, 0x3b68ba73, 0xf0a64f5a, 0x7a290d5d, 0xfb3e89cb);
    Word256(w, 49, 0x3b68ba73, 0xaff4ffc1, 0x3e246a79, 0x065c43da, 0xcc7617db);
    Word256(w, 50, 0xaff4ffc1, 0xf10a5c62, 0x27333ba3, 0xfb3e89cb, 0xb9e66c34);
    Word256(w, 51, 0xf10a5c62, 0x0a8b3996, 0x0c4763f2, 0xcc7617db, 0xa9993667);
    Word256(w, 52, 0x0a8b3996, 0x72af830a, 0x840abf27, 0xb9e66c34, 0x84badedd);
    Word256(w, 53, 0x72af830a, 0x9409e33e, 0x7a290d5d, 0xa9993667, 0xc21462bc);
    Word256(w, 54, 0x9409e33e, 0x24641522, 0x065c43da, 0x84badedd, 0x1487472c);
    Word256(w, 55, 0x24641522, 0x9f47bf94, 0xfb3e89cb, 0xc21462bc, 0xb20f7a99);
    Word256(w, 56, 0x9f47bf94, 0xf0a64f5a, 0xcc7617db, 0x1487472c, 0xef57b9cd);
    Word256(w, 57, 0xf0a64f5a, 0x3e246a79, 0xb9e66c34, 0xb20f7a99, 0xebe6b238);
    Word256(w, 58, 0x3e246a79, 0x27333ba3, 0xa9993667, 0xef57b9cd, 0x9fe3095e);
    Word256(w, 59, 0x27333ba3, 0x0c4763f2, 0x84badedd, 0xebe6b238, 0x78bc8d4b);
    Word256(w, 60, 0x0c4763f2, 0x840abf27, 0xc21462bc, 0x9fe3095e, 0xa43fcf15);
    Word256(w, 61, 0x840abf27, 0x7a290d5d, 0x1487472c, 0x78bc8d4b, 0x668b2ff8);
    Word256(w, 62, 0x7a290d5d, 0x065c43da, 0xb20f7a99, 0xa43fcf15, 0xeeaba2cc);
    Word256(w, 63, 0x065c43da, 0xfb3e89cb, 0xef57b9cd, 0x668b2ff8, 0x12b1edeb);
  }

  lemma States256From0()
    ensures Round256(Sha256(0x6a09e667, 0xbb67ae85, 0x3c6ef372, 0xa54ff53a, 0x510e527f, 0x9b05688c, 0x1f83d9ab, 0x5be0cd19),
                     0x428a2f98, 0x61626380)
      == Sha256(0x5d6aebcd, 0x6a09e667, 0xbb67ae85, 0x3c6ef372, 0xfa2a4622, 0x510e527f, 0x9b05688c, 0x1f83d9ab)
    ensures Round256(Sha256(0x5d6aebcd, 0x6a09e667, 0xbb67ae85, 0x3c6ef372, 0xfa2a4622, 0x510e527f, 0x9b05688c, 0x1f83d9ab),
                     0x71374491, 0x00000000)
      == Sha256(0x5a6ad9ad, 0x5d6aebcd, 0x6a09e667, 0xbb67ae85, 0x78ce7989, 0xfa2a4622, 0x510e527f, 0x9b05688c)
    ensures Round256(Sha256(0x5a6ad9ad, 0x5d6aebcd, 0x6a09e667, 0xbb67ae85, 0x78ce7989, 0xfa2a4622, 0x510e527f, 0x9b05688c),
                     0xb5c0fbcf, 0x00000000)
      == Sha256(0xc8c347a7, 0x5a6ad9ad, 0x5d6aebcd, 0x6a09e667, 0xf92939eb, 0x78ce7989, 0xfa2a4622, 0x510e527f)
    ensures Round256(Sha256(0xc8c347a7, 0x5a6ad9ad, 0x5d6aebcd, 0x6a09e667, 0xf92939eb, 0x78ce7989, 0xfa2a4622, 0x510e527f),
                     0xe9b5dba5, 0x00000000)
      == Sha256(0xd550f666, 0xc8c347a7, 0x5a6ad9ad, 0x5d6aebcd, 0x24e00850, 0xf92939eb, 0x78ce7989, 0xfa2a4622)
    ensures Round256(Sha256(0xd550f666, 0xc8c347a7, 0x5a6ad9ad, 0x5d6aebcd, 0x24e00850, 0xf92939eb, 0x78ce7989, 0xfa2a4622),
                     0x3956c25b, 0x00000000)
      == Sha256(0x04409a6a, 0xd550f666, 0xc8c347a7, 0x5a6ad9ad, 0x43ada245, 0x24e00850, 0xf92939eb, 0x78ce7989)
    ensures Round256(Sha256(0x04409a6a, 0xd550f666, 0xc8c347a7, 0x5a6ad9ad, 0x43ada245, 0x24e00850, 0xf92939eb, 0x78ce7989),
                     0x59f111f1, 0x00000000)
      == Sha256(0x2b4209f5, 0x04409a6a, 0xd550f666, 0xc8c347a7, 0x714260ad, 0x43ada245, 0x24e00850, 0xf92939eb)
    ensures Round256(Sha256(0x2b4209f5, 0x04409a6a, 0xd550f666, 0xc8c347a7, 0x714260ad, 0x43ada245, 0x24e00850, 0xf92939eb),
                     0x923f82a4, 0x00000000)
      == Sha256(0xe5030380, 0x2b4209f5, 0x04409a6a, 0xd550f666, 0x9b27a401, 0x714260ad, 0x43ada245, 0x24e00850)
    ensures Round256(Sha256(0xe5030380, 0x2b4209f5, 0x04409a6a, 0xd550f666, 0x9b27a401, 0x714260ad, 0x43ada245, 0x24e00850),
                     0xab1c5ed5, 0x00000000)
      == Sha256(0x85a07b5f, 0xe5030380, 0x2b4209f5, 0x04409a6a, 0x0c657a79, 0x9b27a401, 0x714260ad, 0x43ada245)
  {
  }

  lemma Constants256From0()
    ensures K256[0] == 0x428a2f98 && K256[1] == 0x71374491 && K256[2] == 0xb5c0fbcf && K256[3] == 0xe9b5dba5
    ensures K256[4] == 0x3956c25b && K256[5] == 0x59f111f1 && K256[6] == 0x923f82a4 && K256[7] == 0xab1c5ed5
  {
  }

  lemma Rounds256From0(w: seq<bv32>)
    requires |w| == 64 && Rounds256(w, INITIAL_256, 0)
      == Sha256(0x6a09e667, 0xbb67ae85, 0x3c6ef372, 0xa54ff53a, 0x510e527f, 0x9b05688c, 0x1f83d9ab, 0x5be0cd19)
    requires w[0] == 0x61626380 && w[1] == 0x00000000 && w[2] == 0x00000000 && w[3] == 0x00000000
    requires w[4] == 0x00000000 && w[5] == 0x00000000 && w[6] == 0x00000000 && w[7] == 0x00000000
    ensures Rounds256(w, INITIAL_256, 8)
      == Sha256(0x85a07b5f, 0xe5030380, 0x2b4209f5, 0x04409a6a, 0x0c657a79, 0x9b27a401, 0x714260ad, 0x43ada245)
  {
    States256From0();
    Constants256From0();
    Step256(w, 0);
    Step256(w, 1);
    Step256(w, 2);
    Step256(w, 3);
    Step256(w, 4);
    Step256(w, 5);
    Step256(w, 6);
    Step256(w, 7);
  }

  lemma States256From8()
    ensures Round256(Sha256(0x85a07b5f, 0xe5030380, 0x2b4209f5, 0x04409a6a, 0x0c657a79, 0x9b27a401, 0x714260ad, 0x43ada245),
                     0xd807aa98, 0x00000000)
      == Sha256(0x8e04ecb9, 0x85a07b5f, 0xe5030380, 0x2b4209f5, 0x32ca2d8c, 0x0c657a79, 0x9b27a401, 0x714260ad)
    ensures Round256(Sha256(0x8e04ecb9, 0x85a07b5f, 0xe5030380, 0x2b4209f5, 0x32ca2d8c, 0x0c657a79, 0x9b27a401, 0x714260ad),
                     0x12835b01, 0x00000000)
      == Sha256(0x8c87346b, 0x8e04ecb9, 0x85a07b5f, 0xe5030380, 0x1cc92596, 0x32ca2d8c, 0x0c657a79, 0x9b27a401)
    ensures Round256(Sha256(0x8c87346b, 0x8e04ecb9, 0x85a07b5f, 0xe5030380, 0x1cc92596, 0x32ca2d8c, 0x0c657a79, 0x9b27a401),
                     0x243185be, 0x00000000)
      == Sha256(0x4798a3f4, 0x8c87346b, 0x8e04ecb9, 0x85a07b5f, 0x436b23e8, 0x1cc92596, 0x32ca2d8c, 0x0c657a79)
    ensures Round256(Sha256(0x4798a3f4, 0x8c87346b, 0x8e04ecb9, 0x85a07b5f, 0x436b23e8, 0x1cc92596, 0x32ca2d8c, 0x0c657a79),
                     0x550c7dc3, 0x00000000)
      == Sha256(0xf71fc5a9, 0x4798a3f4, 0x8c87346b, 0x8e04ecb9, 0x816fd6e9, 0x436b23e8, 0x1cc92596, 0x32ca2d8c)
    ensures Round256(Sha256(0xf71fc5a9, 0x4798a3f4, 0x8c87346b, 0x8e04ecb9, 0x816fd6e9, 0x436b23e8, 0x1cc92596, 0x32ca2d8c),
                     0x72be5d74, 0x00000000)
      == Sha256(0x87912990, 0xf71fc5a9, 0x4798a3f4, 0x8c87346b, 0x1e578218, 0x816fd6e9, 0x436b23e8, 0x1cc92596)
    ensures Round256(Sha256(0x87912990, 0xf71fc5a9, 0x4798a3f4, 0x8c87346b, 0x1e578218, 0x816fd6e9, 0x436b23e8, 0x1cc92596),
                     0x80deb1fe, 0x00000000)
      == Sha256(0xd932eb16, 0x87912990, 0xf71fc5a9, 0x4798a3f4, 0x745a48de, 0x1e578218, 0x816fd6e9, 0x436b23e8)
    ensures Round256(Sha256(0xd932eb16, 0x87912990, 0xf71fc5a9, 0x4798a3f4, 0x745a48de, 0x1e578218, 0x816fd6e9, 0x436b23e8),
                     0x9bdc06a7, 0x00000000)
      == Sha256(0xc0645fde, 0xd932eb16, 0x87912990, 0xf71fc5a9, 0x0b92f20c, 0x745a48de, 0x1e578218, 0x816fd6e9)
    ensures Round256(Sha256(0xc0645fde, 0xd932eb16, 0x87912990, 0xf71fc5a9, 0x0b92f20c, 0x745a48de, 0x1e578218, 0x816fd6e9),
                     0xc19bf174, 0x00000018)
      == Sha256(0xb0fa238e, 0xc0645fde, 0xd932eb16, 0x87912990, 0x07590dcd, 0x0b92f20c, 0x745a48de, 0x1e578218)
  {
  }

  lemma Constants256From8()
    ensures K256[8] == 0xd807aa98 && K256[9] == 0x12835b01 && K256[10] == 0x243185be && K256[11] == 0x550c7dc3
    ensures K256[12] == 0x72be5d74 && K256[13] == 0x80deb1fe && K256[14] == 0x9bdc06a7 && K256[15] == 0xc19bf174
  {
  }

  lemma Rounds256From8(w: seq<bv32>)
    requires |w| == 64 && Rounds256(w, INITIAL_256, 8)
      == Sha256(0x85a07b5f, 0xe5030380, 0x2b4209f5, 0x04409a6a, 0x0c657a79, 0x9b27a401, 0x714260ad, 0x43ada245)
    requires w[8] == 0x00000000 && w[9] == 0x00000000 && w[10] == 0x00000000 && w[11] == 0x00000000
    requires w[12] == 0x00000000 && w[13] == 0x00000000 && w[14] == 0x00000000 && w[15] == 0x00000018
    ensures Rounds256(w, INITIAL_256, 16)
      == Sha256(0xb0fa238e, 0xc0645fde, 0xd932eb16, 0x87912990, 0x07590dcd, 0x0b92f20c, 0x745a48de, 0x1e578218)
  {
    States256From8();
    Constants256From8();
    Step256(w, 8);
    Step256(w, 9);
    Step256(w, 10);
    Step256(w, 11);
    Step256(w, 12);
    Step256(w, 13);
    Step256(w, 14);
    Step256(w, 15);
  }

  lemma States256From16()
    ensures Round256(Sha256(0xb0fa238e, 0xc0645fde, 0xd932eb16, 0x87912990, 0x07590dcd, 0x0b92f20c, 0x745a48de, 0x1e578218),
                     0xe49b69c1, 0x61626380)
      == Sha256(0x21da9a9b, 0xb0fa238e, 0xc0645fde, 0xd932eb16, 0x8034229c, 0x07590dcd, 0x0b92f20c, 0x745a48de)
    ensures Round256(Sha256(0x21da9a9b, 0xb0fa238e, 0xc0645fde, 0xd932eb16, 0x8034229c, 0x07590dcd, 0x0b92f20c, 0x745a48de),
                     0xefbe4786, 0x000f0000)
      == Sha256(0xc2fbd9d1, 0x21da9a9b, 0xb0fa238e, 0xc0645fde, 0x846ee454, 0x8034229c, 0x07590dcd, 0x0b92f20c)
    ensures Round256(Sha256(0xc2fbd9d1, 0x21da9a9b, 0xb0fa238e, 0xc0645fde, 0x846ee454, 0x8034229c, 0x07590dcd, 0x0b92f20c),
                     0x0fc19dc6, 0x7da86405)
      == Sha256(0xfe777bbf, 0xc2fbd9d1, 0x21da9a9b, 0xb0fa238e, 0xcc899961, 0x846ee454, 0x8034229c, 0x07590dcd)
    ensures Round256(Sha256(0xfe777bbf, 0xc2fbd9d1, 0x21da9a9b, 0xb0fa238e, 0xcc899961, 0x846ee454, 0x8034229c, 0x07590dcd),
                     0x240ca1cc, 0x600003c6)
      == Sha256(0xe1f20c33, 0xfe777bbf, 0xc2fbd9d1, 0x21da9a9b, 0xb0638179, 0xcc899961, 0x846ee454, 0x8034229c)
    ensures Round256(Sha256(0xe1f20c33, 0xfe777bbf, 0xc2fbd9d1, 0x21da9a9b, 0xb0638179, 0xcc899961, 0x846ee454, 0x8034229c),
                     0x2de92c6f, 0x3e9d7b78)
      == Sha256(0x9dc68b63, 0xe1f20c33, 0xfe777bbf, 0xc2fbd9d1, 0x8ada8930, 0xb0638179, 0xcc899961, 0x846ee454)
    ensures Round256(Sha256(0x9dc68b63, 0xe1f20c33, 0xfe777bbf, 0xc2fbd9d1, 0x8ada8930, 0xb0638179, 0xcc899961, 0x846ee454),
                     0x4a7484aa, 0x0183fc00)
      == Sha256(0xc2606d6d, 0x9dc68b63, 0xe1f20c33, 0xfe777bbf, 0xe1257970, 0x8ada8930, 0xb0638179, 0xcc899961)
    ensures Round256(Sha256(0xc2606d6d, 0x9dc68b63, 0xe1f20c33, 0xfe777bbf, 0xe1257970, 0x8ada8930, 0xb0638179, 0xcc899961),
                     0x5cb0a9dc, 0x12dcbfdb)
      == Sha256(0xa7a3623f, 0xc2606d6d, 0x9dc68b63, 0xe1f20c33, 0x49f5114a, 0xe1257970, 0x8ada8930, 0xb0638179)
    ensures Round256(Sha256(0xa7a3623f, 0xc2606d6d, 0x9dc68b63, 0xe1f20c33, 0x49f5114a, 0xe1257970, 0x8ada8930, 0xb0638179),
                     0x76f988da, 0xe2e2c38e)
      == Sha256(0xc5d53d8d, 0xa7a3623f, 0xc2606d6d, 0x9dc68b63, 0xaa47c347, 0x49f5114a, 0xe1257970, 0x8ada8930)
  {
  }

  lemma Constants256From16()
    ensures K256[16] == 0xe49b69c1 && K256[17] == 0xefbe4786 && K256[18] == 0x0fc19dc6 && K256[19] == 0x240ca1cc
    ensures K256[20] == 0x2de92c6f && K256[21] == 0x4a7484aa && K256[22] == 0x5cb0a9dc && K256[23] == 0x76f988da
  {
  }

  lemma Rounds256From16(w: seq<bv32>)
    requires |w| == 64 && Rounds256(w, INITIAL_256, 16)
      == Sha256(0xb0fa238e, 0xc0645fde, 0xd932eb16, 0x87912990, 0x07590dcd, 0x0b92f20c, 0x745a48de, 0x1e578218)
    requires w[16] == 0x61626380 && w[17] == 0x000f0000 && w[18] == 0x7da86405 && w[19] == 0x600003c6
    requires w[20] == 0x3e9d7b78 && w[21] == 0x0183fc00 && w[22] == 0x12dcbfdb && w[23] == 0xe2e2c38e
    ensures Rounds256(w, INITIAL_256, 24)
      == Sha256(0xc5d53d8d, 0xa7a3623f, 0xc2606d6d, 0x9dc68b63, 0xaa47c347, 0x49f5114a, 0xe1257970, 0x8ada8930)
  {
    States256From16();
    Constants256From16();
    Step256(w, 16);
    Step256(w, 17);
    Step256(w, 18);
    Step256(w, 19);
    Step256(w, 20);
    Step256(w, 21);
    Step256(w, 22);
    Step256(w, 23);
  }

  lemma States256From24()
    ensures Round256(Sha256(0xc5d53d8d, 0xa7a3623f, 0xc2606d6d, 0x9dc68b63, 0xaa47c347, 0x49f5114a, 0xe1257970, 0x8ada8930),
                     0x983e5152, 0xc8215c1a)
      == Sha256(0x1c2c2838, 0xc5d53d8d, 0xa7a3623f, 0xc2606d6d, 0x2823ef91, 0xaa47c347, 0x49f5114a, 0xe1257970)
    ensures Round256(Sha256(0x1c2c2838, 0xc5d53d8d, 0xa7a3623f, 0xc2606d6d, 0x2823ef91, 0xaa47c347, 0x49f5114a, 0xe1257970),
                     0xa831c66d, 0xb73679a2)
      == Sha256(0xcde8037d, 0x1c2c2838, 0xc5d53d8d, 0xa7a3623f, 0x14383d8e, 0x2823ef91, 0xaa47c347, 0x49f5114a)
    ensures Round256(Sha256(0xcde8037d, 0x1c2c2838, 0xc5d53d8d, 0xa7a3623f, 0x14383d8e, 0x2823ef91, 0xaa47c347, 0x49f5114a),
                     0xb00327c8, 0xe5bc3909)
      == Sha256(0xb62ec4bc, 0xcde8037d, 0x1c2c2838, 0xc5d53d8d, 0xc74c6516, 0x14383d8e, 0x2823ef91, 0xaa47c347)
    ensures Round256(Sha256(0xb62ec4bc, 0xcde8037d, 0x1c2c2838, 0xc5d53d8d, 0xc74c6516, 0x14383d8e, 0x2823ef91, 0xaa47c347),
                     0xbf597fc7, 0x32663c5b)
      == Sha256(0x77d37528, 0xb62ec4bc, 0xcde8037d, 0x1c2c2838, 0xedffbff8, 0xc74c6516, 0x14383d8e, 0x2823ef91)
    ensures Round256(Sha256(0x77d37528, 0xb62ec4bc, 0xcde8037d, 0x1c2c2838, 0xedffbff8, 0xc74c6516, 0x14383d8e, 0x2823ef91),
                     0xc6e00bf3, 0x9d209d67)
      == Sha256(0x363482c9, 0x77d37528, 0xb62ec4bc, 0xcde8037d, 0x6112a3b7, 0xedffbff8, 0xc74c6516, 0x14383d8e)
    ensures Round256(Sha256(0x363482c9, 0x77d37528, 0xb62ec4bc, 0xcde8037d, 0x6112a3b7, 0xedffbff8, 0xc74c6516, 0x14383d8e),
                     0xd5a79147, 0xec8726cb)
      == Sha256(0xa0060b30, 0x363482c9, 0x77d37528, 0xb62ec4bc, 0xade79437, 0x6112a3b7, 0xedffbff8, 0xc74c6516)
    ensures Round256(Sha256(0xa0060b30, 0x363482c9, 0x77d37528, 0xb62ec4bc, 0xade79437, 0x6112a3b7, 0xedffbff8, 0xc74c6516),
                     0x06ca6351, 0x702138a4)
      == Sha256(0xea992a22, 0xa0060b30, 0x363482c9, 0x77d37528, 0x0109ab3a, 0xade79437, 0x6112a3b7, 0xedffbff8)
    ensures Round256(Sha256(0xea992a22, 0xa0060b30, 0x363482c9, 0x77d37528, 0x0109ab3a, 0xade79437, 0x6112a3b7, 0xedffbff8),
                     0x14292967, 0xd3b7973b)
      == Sha256(0x73b33bf5, 0xea992a22, 0xa0060b30, 0x363482c9, 0xba591112, 0x0109ab3a, 0xade79437, 0x6112a3b7)
  {
  }

  lemma Constants256From24()
    ensures K256[24] == 0x983e5152 && K256[25] == 0xa831c66d && K256[26] == 0xb00327c8 && K256[27] == 0xbf597fc7
    ensures K256[28] == 0xc6e00bf3 && K256[29] == 0xd5a79147 && K256[30] == 0x06ca6351 && K256[31] == 0x14292967
  {
  }

  lemma Rounds256From24(w: seq<bv32>)
    requires |w| == 64 && Rounds256(w, INITIAL_256, 24)
      == Sha256(0xc5d53d8d, 0xa7a3623f, 0xc2606d6d, 0x9dc68b63, 0xaa47c347, 0x49f5114a, 0xe1257970, 0x8ada8930)
    requires w[24] == 0xc8215c1a && w[25] == 0xb73679a2 && w[26] == 0xe5bc3909 && w[27] == 0x32663c5b
    requires w[28] == 0x9d209d67 && w[29] == 0xec8726cb && w[30] == 0x702138a4 && w[31] == 0xd3b7973b
    ensures Rounds256(w, INITIAL_256, 32)
      == Sha256(0x73b33bf5, 0xea992a22, 0xa0060b30, 0x363482c9, 0xba591112, 0x0109ab3a, 0xade79437, 0x6112a3b7)
  {
    States256From24();
    Constants256From24();
    Step256(w, 24);
    Step256(w, 25);
    Step256(w, 26);
    Step256(w, 27);
    Step256(w, 28);
    Step256(w, 29);
    Step256(w, 30);
    Step256(w, 31);
  }

  lemma States256From32()
    ensures Round256(Sha256(0x73b33bf5, 0xea992a22, 0xa0060b30, 0x363482c9, 0xba591112, 0x0109ab3a, 0xade79437, 0x6112a3b7),
                     0x27b70a85, 0x93f5997f)
      == Sha256(0x98e12507, 0x73b33bf5, 0xea992a22, 0xa0060b30, 0x9cd9f5f6, 0xba591112, 0x0109ab3a, 0xade79437)
    ensures Round256(Sha256(0x98e12507, 0x73b33bf5, 0xea992a22, 0xa0060b30, 0x9cd9f5f6, 0xba591112, 0x0109ab3a, 0xade79437),
                     0x2e1b2138, 0x3b68ba73)
      == Sha256(0xfe604df5, 0x98e12507, 0x73b33bf5, 0xea992a22, 0x59249dd3, 0x9cd9f5f6, 0xba591112, 0x0109ab3a)
    ensures Round256(Sha256(0xfe604df5, 0x98e12507, 0x73b33bf5, 0xea992a22, 0x59249dd3, 0x9cd9f5f6, 0xba591112, 0x0109ab3a),
                     0x4d2c6dfc, 0xaff4ffc1)
      == Sha256(0xa9a7738c, 0xfe604df5, 0x98e12507, 0x73b33bf5, 0x085f3833, 0x59249dd3, 0x9cd9f5f6, 0xba591112)
    ensures Round256(Sha256(0xa9a7738c, 0xfe604df5, 0x98e12507, 0x73b33bf5, 0x085f3833, 0x59249dd3, 0x9cd9f5f6, 0xba591112),
                     0x53380d13, 0xf10a5c62)
      == Sha256(0x65a0cfe4, 0xa9a7738c, 0xfe604df5, 0x98e12507, 0xf4b002d6, 0x085f3833, 0x59249dd3, 0x9cd9f5f6)
    ensures Round256(Sha256(0x65a0cfe4, 0xa9a7738c, 0xfe604df5, 0x98e12507, 0xf4b002d6, 0x085f3833, 0x59249dd3, 0x9cd9f5f6),
                     0x650a7354, 0x0a8b3996)
      == Sha256(0x41a65cb1, 0x65a0cfe4, 0xa9a7738c, 0xfe604df5, 0x0772a26b, 0xf4b002d6, 0x085f3833, 0x59249dd3)
    ensures Round256(Sha256(0x41a65cb1, 0x65a0cfe4, 0xa9a7738c, 0xfe604df5, 0x0772a26b, 0xf4b002d6, 0x085f3833, 0x59249dd3),
                     0x766a0abb, 0x72af830a)
      == Sha256(0x34df1604, 0x41a65cb1, 0x65a0cfe4, 0xa9a7738c, 0xa507a53d, 0x0772a26b, 0xf4b002d6, 0x085f3833)
    ensures Round256(Sha256(0x34df1604, 0x41a65cb1, 0x65a0cfe4, 0xa9a7738c, 0xa507a53d, 0x0772a26b, 0xf4b002d6, 0x085f3833),
                     0x81c2c92e, 0x9409e33e)
      == Sha256(0x6dc57a8a, 0x34df1604, 0x41a65cb1, 0x65a0cfe4, 0xf0781bc8, 0xa507a53d, 0x0772a26b, 0xf4b002d6)
    ensures Round256(Sha256(0x6dc57a8a, 0x34df1604, 0x41a65cb1, 0x65a0cfe4, 0xf0781bc8, 0xa507a53d, 0x0772a26b, 0xf4b002d6),
                     0x92722c85, 0x24641522)
      == Sha256(0x79ea687a, 0x6dc57a8a, 0x34df1604, 0x41a65cb1, 0x1efbc0a0, 0xf0781bc8, 0xa507a53d, 0x0772a26b)
  {
  }

  lemma Constants256From32()
    ensures K256[32] == 0x27b70a85 && K256[33] == 0x2e1b2138 && K256[34] == 0x4d2c6dfc && K256[35] == 0x53380d13
    ensures K256[36] == 0x650a7354 && K256[37] == 0x766a0abb && K256[38] == 0x81c2c92e && K256[39] == 0x92722c85
  {
  }

  lemma Rounds256From32(w: seq<bv32>)
    requires |w| == 64 && Rounds256(w, INITIAL_256, 32)
      == Sha256(0x73b33bf5, 0xea992a22, 0xa0060b30, 0x363482c9, 0xba591112, 0x0109ab3a, 0xade79437, 0x6112a3b7)
    requires w[32] == 0x93f5997f && w[33] == 0x3b68ba73 && w[34] == 0xaff4ffc1 && w[35] == 0xf10a5c62
    requires w[36] == 0x0a8b3996 && w[37] == 0x72af830a && w[38] == 0x9409e33e && w[39] == 0x24641522
    ensures Rounds256(w, INITIAL_256, 40)
      == Sha256(0x79ea687a, 0x6dc57a8a, 0x34df1604, 0x41a65cb1, 0x1efbc0a0, 0xf0781bc8, 0xa507a53d, 0x0772a26b)
  {
    States256From32();
    Constants256From32();
    Step256(w, 32);
    Step256(w, 33);
    Step256(w, 34);
    Step256(w, 35);
    Step256(w, 36);
    Step256(w, 37);
    Step256(w, 38);
    Step256(w, 39);
  }

  lemma States256From40()
    ensures Round256(Sha256(0x79ea687a, 0x6dc57a8a, 0x34df1604, 0x41a65cb1, 0x1efbc0a0, 0xf0781bc8, 0xa507a53d, 0x0772a26b),
                     0xa2bfe8a1, 0x9f47bf94)
      == Sha256(0xd6670766, 0x79ea687a, 0x6dc57a8a, 0x34df1604, 0x26352d63, 0x1efbc0a0, 0xf0781bc8, 0xa507a53d)
    ensures Round256(Sha256(0xd6670766, 0x79ea687a, 0x6dc57a8a, 0x34df1604, 0x26352d63, 0x1efbc0a0, 0xf0781bc8, 0xa507a53d),
                     0xa81a664b, 0xf0a64f5a)
      == Sha256(0xdf46652f, 0xd6670766, 0x79ea687a, 0x6dc57a8a, 0x838b2711, 0x26352d63, 0x1efbc0a0, 0xf0781bc8)
    ensures Round256(Sha256(0xdf46652f, 0xd6670766, 0x79ea687a, 0x6dc57a8a, 0x838b2711, 0x26352d63, 0x1efbc0a0, 0xf0781bc8),
                     0xc24b8b70, 0x3e246a79)
      == Sha256(0x17aa0dfe, 0xdf46652f, 0xd6670766, 0x79ea687a, 0xdecd4715, 0x838b2711, 0x26352d63, 0x1efbc0a0)
    ensures Round256(Sha256(0x17aa0dfe, 0xdf46652f, 0xd6670766, 0x79ea687a, 0xdecd4715, 0x838b2711, 0x26352d63, 0x1efbc0a0),
                     0xc76c51a3, 0x27333ba3)
      == Sha256(0x9d4baf93, 0x17aa0dfe, 0xdf46652f, 0xd6670766, 0xfda24c2e, 0xdecd4715, 0x838b2711, 0x26352d63)
    ensures Round256(Sha256(0x9d4baf93, 0x17aa0dfe, 0xdf46652f, 0xd6670766, 0xfda24c2e, 0xdecd4715, 0x838b2711, 0x26352d63),
                     0xd192e819, 0x0c4763f2)
      == Sha256(0x26628815, 0x9d4baf93, 0x17aa0dfe, 0xdf46652f, 0xa80f11f0, 0xfda24c2e, 0xdecd4715, 0x838b2711)
    ensures Round256(Sha256(0x26628815, 0x9d4baf93, 0x17aa0dfe, 0xdf46652f, 0xa80f11f0, 0xfda24c2e, 0xdecd4715, 0x838b2711),
                     0xd6990624, 0x840abf27)
      == Sha256(0x72ab4b91, 0x26628815, 0x9d4baf93, 0x17aa0dfe, 0xb7755da1, 0xa80f11f0, 0xfda24c2e, 0xdecd4715)
    ensures Round256(Sha256(0x72ab4b91, 0x26628815, 0x9d4baf93, 0x17aa0dfe, 0xb7755da1, 0xa80f11f0, 0xfda24c2e, 0xdecd4715),
                     0xf40e3585, 0x7a290d5d)
      == Sha256(0xa14c14b0, 0x72ab4b91, 0x26628815, 0x9d4baf93, 0xd57b94a9, 0xb7755da1, 0xa80f11f0, 0xfda24c2e)
    ensures Round256(Sha256(0xa14c14b0, 0x72ab4b91, 0x26628815, 0x9d4baf93, 0xd57b94a9, 0xb7755da1, 0xa80f11f0, 0xfda24c2e),
                     0x106aa070, 0x065c43da)
      == Sha256(0x4172328d, 0xa14c14b0, 0x72ab4b91, 0x26628815, 0xfecf0bc6, 0xd57b94a9, 0xb7755da1, 0xa80f11f0)
  {
  }

  lemma Constants256From40()
    ensures K256[40] == 0xa2bfe8a1 && K256[41] == 0xa81a664b && K256[42] == 0xc24b8b70 && K256[43] == 0xc76c51a3
    ensures K256[44] == 0xd192e819 && K256[45] == 0xd6990624 && K256[46] == 0xf40e3585 && K256[47] == 0x106aa070
  {
  }

  lemma Rounds256From40(w: seq<bv32>)
    requires |w| == 64 && Rounds256(w, INITIAL_256, 40)
      == Sha256(0x79ea687a, 0x6dc57a8a, 0x34df1604, 0x41a65cb1, 0x1efbc0a0, 0xf0781bc8, 0xa507a53d, 0x0772a26b)
    requires w[40] == 0x9f47bf94 && w[41] == 0xf0a64f5a && w[42] == 0x3e246a79 && w[43] == 0x27333ba3
    requires w[44] == 0x0c4763f2 && w[45] == 0x840abf27 && w[46] == 0x7a290d5d && w[47] == 0x065c43da
    ensures Rounds256(w, INITIAL_256, 48)
      == Sha256(0x4172328d, 0xa14c14b0, 0x72ab4b91, 0x26628815, 0xfecf0bc6, 0xd57b94a9, 0xb7755da1, 0xa80f11f0)
  {
    States256From40();
    Constants256From40();
    Step256(w, 40);
    Step256(w, 41);
    Step256(w, 42);
    Step256(w, 43);
    Step256(w, 44);
    Step256(w, 45);
    Step256(w, 46);
    Step256(w, 47);
  }

  lemma States256From48()
    ensures Round256(Sha256(0x4172328d, 0xa14c14b0, 0x72ab4b91, 0x26628815, 0xfecf0bc6, 0xd57b94a9, 0xb7755da1, 0xa80f11f0),
                     0x19a4c116, 0xfb3e89cb)
      == Sha256(0x05757ceb, 0x4172328d, 0xa14c14b0, 0x72ab4b91, 0xbd714038, 0xfecf0bc6, 0xd57b94a9, 0xb7755da1)
    ensures Round256(Sha256(0x05757ceb, 0x4172328d, 0xa14c14b0, 0x72ab4b91, 0xbd714038, 0xfecf0bc6, 0xd57b94a9, 0xb7755da1),
                     0x1e376c08, 0xcc7617db)
      == Sha256(0xf11bfaa8, 0x05757ceb, 0x4172328d, 0xa14c14b0, 0x6e5c390c, 0xbd714038, 0xfecf0bc6, 0xd57b94a9)
    ensures Round256(Sha256(0xf11bfaa8, 0x05757ceb, 0x4172328d, 0xa14c14b0, 0x6e5c390c, 0xbd714038, 0xfecf0bc6, 0xd57b94a9),
                     0x2748774c, 0xb9e66c34)
      == Sha256(0x7a0508a1, 0xf11bfaa8, 0x05757ceb, 0x4172328d, 0x52f1ccf7, 0x6e5c390c, 0xbd714038, 0xfecf0bc6)
    ensures Round256(Sha256(0x7a0508a1, 0xf11bfaa8, 0x05757ceb, 0x4172328d, 0x52f1ccf7, 0x6e5c390c, 0xbd714038, 0xfecf0bc6),
                     0x34b0bcb5, 0xa9993667)
      == Sha256(0x886e7a22, 0x7a0508a1, 0xf11bfaa8, 0x05757ceb, 0x49231c1e, 0x52f1ccf7, 0x6e5c390c, 0xbd714038)
    ensures Round256(Sha256(0x886e7a22, 0x7a0508a1, 0xf11bfaa8, 0x05757ceb, 0x49231c1e, 0x52f1ccf7, 0x6e5c390c, 0xbd714038),
                     0x391c0cb3, 0x84badedd)
      == Sha256(0x101fd28f, 0x886e7a22, 0x7a0508a1, 0xf11bfaa8, 0x529e7d00, 0x49231c1e, 0x52f1ccf7, 0x6e5c390c)
    ensures Round256(Sha256(0x101fd28f, 0x886e7a22, 0x7a0508a1, 0xf11bfaa8, 0x529e7d00, 0x49231c1e, 0x52f1ccf7, 0x6e5c390c),
                     0x4ed8aa4a, 0xc21462bc)
      == Sha256(0xf5702fdb, 0x101fd28f, 0x886e7a22, 0x7a0508a1, 0x9f4787c3, 0x529e7d00, 0x49231c1e, 0x52f1ccf7)
    ensures Round256(Sha256(0xf5702fdb, 0x101fd28f, 0x886e7a22, 0x7a0508a1, 0x9f4787c3, 0x529e7d00, 0x49231c1e, 0x52f1ccf7),
                     0x5b9cca4f, 0x1487472c)
      == Sha256(0x3ec45cdb, 0xf5702fdb, 0x101fd28f, 0x886e7a22, 0xe50e1b4f, 0x9f4787c3, 0x529e7d00, 0x49231c1e)
    ensures Round256(Sha256(0x3ec45cdb, 0xf5702fdb, 0x101fd28f, 0x886e7a22, 0xe50e1b4f, 0x9f4787c3, 0x529e7d00, 0x49231c1e),
                     0x682e6ff3, 0xb20f7a99)
      == Sha256(0x38cc9913, 0x3ec45cdb, 0xf5702fdb, 0x101fd28f, 0x54cb266b, 0xe50e1b4f, 0x9f4787c3, 0x529e7d00)
  {
  }

  lemma Constants256From48()
    ensures K256[48] == 0x19a4c116 && K256[49] == 0x1e376c08 && K256[50] == 0x2748774c && K256[51] == 0x34b0bcb5
    ensures K256[52] == 0x391c0cb3 && K256[53] == 0x4ed8aa4a && K256[54] == 0x5b9cca4f && K256[55] == 0x682e6ff3
  {
  }

  lemma Rounds256From48(w: seq<bv32>)
    requires |w| == 64 && Rounds256(w, INITIAL_256, 48)
      == Sha256(0x4172328d, 0xa14c14b0, 0x72ab4b91, 0x26628815, 0xfecf0bc6, 0xd57b94a9, 0xb7755da1, 0xa80f11f0)
    requires w[48] == 0xfb3e89cb && w[49] == 0xcc7617db && w[50] == 0xb9e66c34 && w[51] == 0xa9993667
    requires w[52] == 0x84badedd && w[53] == 0xc21462bc && w[54] == 0x1487472c && w[55] == 0xb20f7a99
    ensures Rounds256(w, INITIAL_256, 56)
      == Sha256(0x38cc9913, 0x3ec45cdb, 0xf5702fdb, 0x101fd28f, 0x54cb266b, 0xe50e1b4f, 0x9f4787c3, 0x529e7d00)
  {
    States256From48();
    Constants256From48();
    Step256(w, 48);
    Step256(w, 49);
    Step256(w, 50);
    Step256(w, 51);
    Step256(w, 52);
    Step256(w, 53);
    Step256(w, 54);
    Step256(w, 55);
  }

  lemma States256From56()
    ensures Round256(Sha256(0x38cc9913, 0x3ec45cdb, 0xf5702fdb, 0x101fd28f, 0x54cb266b, 0xe50e1b4f, 0x9f4787c3, 0x529e7d00),
                     0x748f82ee, 0xef57b9cd)
      == Sha256(0xfcd1887b, 0x38cc9913, 0x3ec45cdb, 0xf5702fdb, 0x9b5e906c, 0x54cb266b, 0xe50e1b4f, 0x9f4787c3)
    ensures Round256(Sha256(0xfcd1887b, 0x38cc9913, 0x3ec45cdb, 0xf5702fdb, 0x9b5e906c, 0x54cb266b, 0xe50e1b4f, 0x9f4787c3),
                     0x78a5636f, 0xebe6b238)
      == Sha256(0xc062d46f, 0xfcd1887b, 0x38cc9913, 0x3ec45cdb, 0x7e44008e, 0x9b5e906c, 0x54cb266b, 0xe50e1b4f)
    ensures Round256(Sha256(0xc062d46f, 0xfcd1887b, 0x38cc9913, 0x3ec45cdb, 0x7e44008e, 0x9b5e906c, 0x54cb266b, 0xe50e1b4f),
                     0x84c87814, 0x9fe3095e)
      == Sha256(0xffb70472, 0xc062d46f, 0xfcd1887b, 0x38cc9913, 0x6d83bfc6, 0x7e44008e, 0x9b5e906c, 0x54cb266b)
    ensures Round256(Sha256(0xffb70472, 0xc062d46f, 0xfcd1887b, 0x38cc9913, 0x6d83bfc6, 0x7e44008e, 0x9b5e906c, 0x54cb266b),
                     0x8cc70208, 0x78bc8d4b)
      == Sha256(0xb6ae8fff, 0xffb70472, 0xc062d46f, 0xfcd1887b, 0xb21bad3d, 0x6d83bfc6, 0x7e44008e, 0x9b5e906c)
    ensures Round256(Sha256(0xb6ae8fff, 0xffb70472, 0xc062d46f, 0xfcd1887b, 0xb21bad3d, 0x6d83bfc6, 0x7e44008e, 0x9b5e906c),
                     0x90befffa, 0xa43fcf15)
      == Sha256(0xb85e2ce9, 0xb6ae8fff, 0xffb70472, 0xc062d46f, 0x961f4894, 0xb21bad3d, 0x6d83bfc6, 0x7e44008e)
    ensures Round256(Sha256(0xb85e2ce9, 0xb6ae8fff, 0xffb70472, 0xc062d46f, 0x961f4894, 0xb21bad3d, 0x6d83bfc6, 0x7e44008e),
                     0xa4506ceb, 0x668b2ff8)
      == Sha256(0x04d24d6c, 0xb85e2ce9, 0xb6ae8fff, 0xffb70472, 0x948d25b6, 0x961f4894, 0xb21bad3d, 0x6d83bfc6)
    ensures Round256(Sha256(0x04d24d6c, 0xb85e2ce9, 0xb6ae8fff, 0xffb70472, 0x948d25b6, 0x961f4894, 0xb21bad3d, 0x6d83bfc6),
                     0xbef9a3f7, 0xeeaba2cc)
      == Sha256(0xd39a2165, 0x04d24d6c, 0xb85e2ce9, 0xb6ae8fff, 0xfb121210, 0x948d25b6, 0x961f4894, 0xb21bad3d)
    ensures Round256(Sha256(0xd39a2165, 0x04d24d6c, 0xb85e2ce9, 0xb6ae8fff, 0xfb121210, 0x948d25b6, 0x961f4894, 0xb21bad3d),
                     0xc67178f2, 0x12b1edeb)
      == Sha256(0x506e3058, 0xd39a2165, 0x04d24d6c, 0xb85e2ce9, 0x5ef50f24, 0xfb121210, 0x948d25b6, 0x961f4894)
  {
  }

  lemma Constants256From56()
    ensures K256[56] == 0x748f82ee && K256[57] == 0x78a5636f && K256[58] == 0x84c87814 && K256[59] == 0x8cc70208
    ensures K256[60] == 0x90befffa && K256[61] == 0xa4506ceb && K256[62] == 0xbef9a3f7 && K256[63] == 0xc67178f2
  {
  }

  lemma Rounds256From56(w: seq<bv32>)
    requires |w| == 64 && Rounds256(w, INITIAL_256, 56)
      == Sha256(0x38cc9913, 0x3ec45cdb, 0xf5702fdb, 0x101fd28f, 0x54cb266b, 0xe50e1b4f, 0x9f4787c3, 0x529e7d00)
    requires w[56] == 0xef57b9cd && w[57] == 0xebe6b238 && w[58] == 0x9fe3095e && w[59] == 0x78bc8d4b
    requires w[60] == 0xa43fcf15 && w[61] == 0x668b2ff8 && w[62] == 0xeeaba2cc && w[63] == 0x12b1edeb
    ensures Rounds256(w, INITIAL_256, 64)
      == Sha256(0x506e3058, 0xd39a2165, 0x04d24d6c, 0xb85e2ce9, 0x5ef50f24, 0xfb121210, 0x948d25b6, 0x961f4894)
  {
    States256From56();
    Constants256From56();
    Step256(w, 56);
    Step256(w, 57);
    Step256(w, 58);
    Step256(w, 59);
    Step256(w, 60);
    Step256(w, 61);
    Step256(w, 62);
    Step256(w, 63);
  }

  // ---- SHA-1 -----------------------------------------------------------------------------

  /** The schedule of some block. */
  predicate Extended1(w: seq<bv32>) {
    |w| >= 16 && w == Grow(Next1, w[..16], |w| - 16)
  }

  lemma Word1(w: seq<bv32>, t: nat, w16: bv32, w14: bv32, w8: bv32, w3: bv32, next: bv32)
    requires Extended1(w) && 16 <= t < |w| && w[t - 16] == w16 && w[t - 14] == w14 && w[t - 8] == w8 && w[t - 3] == w3
    requires Mixed1(w16, w14, w8, w3) == next
    ensures w[t] == next
  {
    GrowExtends(Next1, w[..16], |w| - 16, t);
    assert w[..t][t - 16] == w16 && w[..t][t - 14] == w14 && w[..t][t - 8] == w8 && w[..t][t - 3] == w3;
  }

  lemma Step1(w: seq<bv32>, t: nat)
    requires |w| == 80 && t < 80
    ensures Rounds1(w, INITIAL_1, t + 1) == Round1(Rounds1(w, INITIAL_1, t), t, w[t])
  {
  }

  lemma Mixes1From16()
    ensures Mixed1(0x61626380, 0x00000000, 0x00000000, 0x00000000) == 0xc2c4c700
    ensures Mixed1(0x00000000, 0x00000000, 0x00000000, 0x00000000) == 0x00000000
    ensures Mixed1(0x00000000, 0x00000000, 0x00000000, 0x00000018) == 0x00000030
    ensures Mixed1(0x00000000, 0x00000000, 0x00000000, 0xc2c4c700) == 0x85898e01
    ensures Mixed1(0x00000000, 0x00000000, 0x00000000, 0x00000000) == 0x00000000
    ensures Mixed1(0x00000000, 0x00000000, 0x00000000, 0x00000030) == 0x00000060
    ensures Mixed1(0x00000000, 0x00000000, 0x00000000, 0x85898e01) == 0x0b131c03
    ensures Mixed1(0x00000000, 0x00000000, 0x00000018, 0x00000000) == 0x00000030
    ensures Mixed1(0x00000000, 0x00000000, 0xc2c4c700, 0x00000060) == 0x85898ec1
    ensures Mixed1(0x00000000, 0x00000000, 0x00000000, 0x0b131c03) == 0x16263806
    ensures Mixed1(0x00000000, 0x00000000, 0x00000030, 0x00000030) == 0x00000000
    ensures Mixed1(0x00000000, 0x00000000, 0x85898e01, 0x85898ec1) == 0x00000180
    ensures Mixed1(0x00000000, 0x00000000, 0x00000000, 0x16263806) == 0x2c4c700c
    ensures Mixed1(0x00000000, 0x00000018, 0x00000060, 0x00000000) == 0x000000f0
    ensures Mixed1(0x00000000, 0xc2c4c700, 0x0b131c03, 0x00000180) == 0x93afb507
    ensures Mixed1(0x00000018, 0x00000000, 0x00000030, 0x2c4c700c) == 0x5898e048
  {
  }

  lemma Words1From16(w: seq<bv32>)
    requires |w| == 80 && Extended1(w)
    requires w[0] == 0x61626380 && w[1] == 0x00000000 && w[2] == 0x00000000 && w[3] == 0x00000000
    requires w[4] == 0x00000000 && w[5] == 0x00000000 && w[6] == 0x00000000 && w[7] == 0x00000000
    requires w[8] == 0x00000000 && w[9] == 0x00000000 && w[10] == 0x00000000 && w[11] == 0x00000000
    requires w[12] == 0x00000000 && w[13] == 0x00000000 && w[14] == 0x00000000 && w[15] == 0x00000018
    ensures w[16] == 0xc2c4c700 && w[17] == 0x00000000 && w[18] == 0x00000030 && w[19] == 0x85898e01
    ensures w[20] == 0x00000000 && w[21] == 0x00000060 && w[22] == 0x0b131c03 && w[23] == 0x00000030
    ensures w[24] == 0x85898ec1 && w[25] == 0x16263806 && w[26] == 0x00000000 && w[27] == 0x00000180
    ensures w[28] == 0x2c4c700c && w[29] == 0x000000f0 && w[30] == 0x93afb507 && w[31] == 0x5898e048
  {
    Mixes1From16();
    Word1(w, 16, 0x61626380, 0x00000000, 0x00000000, 0x00000000, 0xc2c4c700);
    Word1(w, 17, 0x00000000, 0x00000000, 0x00000000, 0x00000000, 0x00000000);
    Word1(w, 18, 0x00000000, 0x00000000, 0x00000000, 0x00000018, 0x00000030);
    Word1(w, 19, 0x00000000, 0x00000000, 0x00000000, 0xc2c4c700, 0x85898e01);
    Word1(w, 20, 0x00000000, 0x00000000, 0x00000000, 0x00000000, 0x00000000);
    Word1(w, 21, 0x00000000, 0x00000000, 0x00000000, 0x00000030, 0x00000060);
    Word1(w, 22, 0x00000000, 0x00000000, 0x00000000, 0x85898e01, 0x0b131c03);
    Word1(w, 23, 0x00000000, 0x00000000, 0x00000018, 0x00000000, 0x00000030);
    Word1(w, 24, 0x00000000, 0x00000000, 0xc2c4c700, 0x00000060, 0x85898ec1);
    Word1(w, 25, 0x00000000, 0x00000000, 0x00000000, 0x0b131c03, 0x16263806);
    Word1(w, 26, 0x00000000, 0x00000000, 0x00000030, 0x00000030, 0x00000000);
    Word1(w, 27, 0x00000000, 0x00000000, 0x85898e01, 0x85898ec1, 0x00000180);
    Word1(w, 28, 0x00000000, 0x00000000, 0x00000000, 0x16263806, 0x2c4c700c);
    Word1(w, 29, 0x00000000, 0x00000018, 0x00000060, 0x00000000, 0x000000f0);
    Word1(w, 30, 0x00000000, 0xc2c4c700, 0x0b131c03, 0x00000180, 0x93afb507);
    Word1(w, 31, 0x00000018, 0x00000000, 0x00000030, 0x2c4c700c, 0x5898e048);
  }

  lemma Mixes1From32()
    ensures Mixed1(0xc2c4c700, 0x00000030, 0x85898ec1, 0x000000f0) == 0x8e9a9202
    ensures Mixed1(0x00000000, 0x85898e01, 0x16263806, 0x93afb507) == 0x00000600
    ensures Mixed1(0x00000030, 0x00000000, 0x00000000, 0x5898e048) == 0xb131c0f0
    ensures Mixed1(0x85898e01, 0x00000060, 0x00000180, 0x8e9a9202) == 0x16263bc6
    ensures Mixed1(0x00000000, 0x0b131c03, 0x2c4c700c, 0x00000600) == 0x4ebed41e
    ensures Mixed1(0x00000060, 0x00000030, 0x000000f0, 0xb131c0f0) == 0x626380a1
    ensures Mixed1(0x0b131c03, 0x85898ec1, 0x93afb507, 0x16263bc6) == 0x16263806
    ensures Mixed1(0x00000030, 0x16263806, 0x5898e048, 0x4ebed41e) == 0x000018c0
    ensures Mixed1(0x85898ec1, 0x00000000, 0x8e9a9202, 0x626380a1) == 0xd2e138c4
    ensures Mixed1(0x16263806, 0x00000180, 0x00000600, 0x16263806) == 0x00000f00
    ensures Mixed1(0x00000000, 0x2c4c700c, 0xb131c0f0, 0x000018c0) == 0x3afb5079
    ensures Mixed1(0x00000180, 0x000000f0, 0x16263bc6, 0xd2e138c4) == 0x898e04e5
    ensures Mixed1(0x2c4c700c, 0x93afb507, 0x4ebed41e, 0x00000f00) == 0xe2ba3c2b
    ensures Mixed1(0x000000f0, 0x5898e048, 0x626380a1, 0x3afb5079) == 0x000060c0
    ensures Mixed1(0x93afb507, 0x8e9a9202, 0x16263806, 0x898e04e5) == 0x053a37cd
    ensures Mixed1(0x5898e048, 0x00000600, 0x000018c0, 0xe2ba3c2b) == 0x74458547
  {
  }

  lemma Words1From32(w: seq<bv32>)
    requires |w| == 80 && Extended1(w)
    requires w[16] == 0xc2c4c700 && w[17] == 0x00000000 && w[18] == 0x00000030 && w[19] == 0x85898e01
    requires w[20] == 0x00000000 && w[21] == 0x00000060 && w[22] == 0x0b131c03 && w[23] == 0x00000030
    requires w[24] == 0x85898ec1 && w[25] == 0x16263806 && w[26] == 0x00000000 && w[27] == 0x00000180
    requires w[28] == 0x2c4c700c && w[29] == 0x000000f0 && w[30] == 0x93afb507 && w[31] == 0x5898e048
    ensures w[32] == 0x8e9a9202 && w[33] == 0x00000600 && w[34] == 0xb131c0f0 && w[35] == 0x16263bc6
    ensures w[36] == 0x4ebed41e && w[37] == 0x626380a1 && w[38] == 0x16263806 && w[39] == 0x000018c0
    ensures w[40] == 0xd2e138c4 && w[41] == 0x00000f00 && w[42] == 0x3afb5079 && w[43] == 0x898e04e5
    ensures w[44] == 0xe2ba3c2b && w[45] == 0x000060c0 && w[46] == 0x053a37cd && w[47] == 0x74458547
  {
    Mixes1From32();
    Word1(w, 32, 0xc2c4c700, 0x00000030, 0x85898ec1, 0x000000f0, 0x8e9a9202);
    Word1(w, 33, 0x00000000, 0x85898e01, 0x16263806, 0x93afb507, 0x00000600);
    Word1(w, 34, 0x00000030, 0x00000000, 0x00000000, 0x5898e048, 0xb131c0f0);
    Word1(w, 35, 0x85898e01, 0x00000060, 0x00000180, 0x8e9a9202, 0x16263bc6);
    Word1(w, 36, 0x00000000, 0x0b131c03, 0x2c4c700c, 0x00000600, 0x4ebed41e);
    Word1(w, 37, 0x00000060, 0x00000030, 0x000000f0, 0xb131c0f0, 0x626380a1);
    Word1(w, 38, 0x0b131c03, 0x85898ec1, 0x93afb507, 0x16263bc6, 0x16263806);
    Word1(w, 39, 0x00000030, 0x16263806, 0x5898e048, 0x4ebed41e, 0x000018c0);
    Word1(w, 40, 0x85898ec1, 0x00000000, 0x8e9a9202, 0x626380a1, 0xd2e138c4);
    Word1(w, 41, 0x16263806, 0x00000180, 0x00000600, 0x16263806, 0x00000f00);
    Word1(w, 42, 0x00000000, 0x2c4c700c, 0xb131c0f0, 0x000018c0, 0x3afb5079);
    Word1(w, 43, 0x00000180, 0x000000f0, 0x16263bc6, 0xd2e138c4, 0x898e04e5);
    Word1(w, 44, 0x2c4c700c, 0x93afb507, 0x4ebed41e, 0x00000f00, 0xe2ba3c2b);
    Word1(w, 45, 0x000000f0, 0x5898e048, 0x626380a1, 0x3afb5079, 0x000060c0);
    Word1(w, 46, 0x93afb507, 0x8e9a9202, 0x16263806, 0x898e04e5, 0x053a37cd);
    Word1(w, 47, 0x5898e048, 0x00000600, 0x000018c0, 0xe2ba3c2b, 0x74458547);
  }

  lemma Mixes1From48()
    ensures Mixed1(0x8e9a9202, 0xb131c0f0, 0xd2e138c4, 0x000060c0) == 0xda9415ed
    ensures Mixed1(0x00000600, 0x16263bc6, 0x00000f00, 0x053a37cd) == 0x26380a16
    ensures Mixed1(0xb131c0f0, 0x4ebed41e, 0x3afb5079, 0x74458547) == 0x626383a1
    ensures Mixed1(0x16263bc6, 0x626380a1, 0x898e04e5, 0xda9415ed) == 0x4ebf54de
    ensures Mixed1(0x4ebed41e, 0x16263806, 0xe2ba3c2b, 0x26380a16) == 0x3835b44b
    ensures Mixed1(0x626380a1, 0x000018c0, 0x000060c0, 0x626383a1) == 0x0000f600
    ensures Mixed1(0x16263806, 0xd2e138c4, 0x053a37cd, 0x4ebf54de) == 0x1e84c7a3
    ensures Mixed1(0x000018c0, 0x00000f00, 0x74458547, 0x3835b44b) == 0x98e04d98
    ensures Mixed1(0xd2e138c4, 0x3afb5079, 0xda9415ed, 0x0000f600) == 0x651d16a0
    ensures Mixed1(0x00000f00, 0x898e04e5, 0x26380a16, 0x1e84c7a3) == 0x62658ca1
    ensures Mixed1(0x3afb5079, 0xe2ba3c2b, 0x626383a1, 0x98e04d98) == 0x458544d6
    ensures Mixed1(0x898e04e5, 0x000060c0, 0x4ebf54de, 0x651d16a0) == 0x44584cb7
    ensures Mixed1(0xe2ba3c2b, 0x053a37cd, 0x3835b44b, 0x62658ca1) == 0x7ba06619
    ensures Mixed1(0x000060c0, 0x74458547, 0x0000f600, 0x458544d6) == 0x6380aea2
    ensures Mixed1(0x053a37cd, 0xda9415ed, 0x1e84c7a3, 0x44584cb7) == 0x0ae55269
    ensures Mixed1(0x74458547, 0x26380a16, 0x98e04d98, 0x7ba06619) == 0x627b49a1
  {
  }

  lemma Words1From48(w: seq<bv32>)
    requires |w| == 80 && Extended1(w)
    requires w[32] == 0x8e9a9202 && w[33] == 0x00000600 && w[34] == 0xb131c0f0 && w[35] == 0x16263bc6
    requires w[36] == 0x4ebed41e && w[37] == 0x626380a1 && w[38] == 0x16263806 && w[39] == 0x000018c0
    requires w[40] == 0xd2e138c4 && w[41] == 0x00000f00 && w[42] == 0x3afb5079 && w[43] == 0x898e04e5
    requires w[44] == 0xe2ba3c2b && w[45] == 0x000060c0 && w[46] == 0x053a37cd && w[47] == 0x74458547
    ensures w[48] == 0xda9415ed && w[49] == 0x26380a16 && w[50] == 0x626383a1 && w[51] == 0x4ebf54de
    ensures w[52] == 0x3835b44b && w[53] == 0x0000f600 && w[54] == 0x1e84c7a3 && w[55] == 0x98e04d98
    ensures w[56] == 0x651d16a0 && w[57] == 0x62658ca1 && w[58] == 0x458544d6 && w[59] == 0x44584cb7
    ensures w[60] == 0x7ba06619 && w[61] == 0x6380aea2 && w[62] == 0x0ae55269 && w[63] == 0x627b49a1
  {
    Mixes1From48();
    Word1(w, 48, 0x8e9a9202, 0xb131c0f0, 0xd2e138c4, 0x000060c0, 0xda9415ed);
    Word1(w, 49, 0x00000600, 0x16263bc6, 0x00000f00, 0x053a37cd, 0x26380a16);
    Word1(w, 50, 0xb131c0f0, 0x4ebed41e, 0x3afb5079, 0x74458547, 0x626383a1);
    Word1(w, 51, 0x16263bc6, 0x626380a1, 0x898e04e5, 0xda9415ed, 0x4ebf54de);
    Word1(w, 52, 0x4ebed41e, 0x16263806, 0xe2ba3c2b, 0x26380a16, 0x3835b44b);
    Word1(w, 53, 0x626380a1, 0x000018c0, 0x000060c0, 0x626383a1, 0x0000f600);
    Word1(w, 54, 0x16263806, 0xd2e138c4, 0x053a37cd, 0x4ebf54de, 0x1e84c7a3);
    Word1(w, 55, 0x000018c0, 0x00000f00, 0x74458547, 0x3835b44b, 0x98e04d98);
    Word1(w, 56, 0xd2e138c4, 0x3afb5079, 0xda9415ed, 0x0000f600, 0x651d16a0);
    Word1(w, 57, 0x00000f00, 0x898e04e5, 0x26380a16, 0x1e84c7a3, 0x62658ca1);
    Word1(w, 58, 0x3afb5079, 0xe2ba3c2b, 0x626383a1, 0x98e04d98, 0x458544d6);
    Word1(w, 59, 0x898e04e5, 0x000060c0, 0x4ebf54de, 0x651d16a0, 0x44584cb7);
    Word1(w, 60, 0xe2ba3c2b, 0x053a37cd, 0x3835b44b, 0x62658ca1, 0x7ba06619);
    Word1(w, 61, 0x000060c0, 0x74458547, 0x0000f600, 0x458544d6, 0x6380aea2);
    Word1(w, 62, 0x053a37cd, 0xda9415ed, 0x1e84c7a3, 0x44584cb7, 0x0ae55269);
    Word1(w, 63, 0x74458547, 0x26380a16, 0x98e04d98, 0x7ba06619, 0x627b49a1);
  }

  lemma Mixes1From64()
    ensures Mixed1(0xda9415ed, 0x626383a1, 0x651d16a0, 0x6380aea2) == 0x7cd45c9d
    ensures Mixed1(0x26380a16, 0x4ebf54de, 0x62658ca1, 0x0ae55269) == 0x000f0000
    ensures Mixed1(0x626383a1, 0x3835b44b, 0x458544d6, 0x627b49a1) == 0xfb50753a
    ensures Mixed1(0x4ebf54de, 0x0000f600, 0x44584cb7, 0x7cd45c9d) == 0xec6765e8
    ensures Mixed1(0x3835b44b, 0x1e84c7a3, 0x7ba06619, 0x000f0000) == 0xba3c2be2
    ensures Mixed1(0x0000f600, 0x98e04d98, 0x6380aea2, 0xfb50753a) == 0x0060c000
    ensures Mixed1(0x1e84c7a3, 0x651d16a0, 0x0ae55269, 0xec6765e8) == 0x3a37cd05
    ensures Mixed1(0x98e04d98, 0x62658ca1, 0x627b49a1, 0xba3c2be2) == 0x458546f4
    ensures Mixed1(0x651d16a0, 0x458544d6, 0x7cd45c9d, 0x0060c000) == 0xb8599dd6
    ensures Mixed1(0x62658ca1, 0x44584cb7, 0x000f0000, 0x3a37cd05) == 0x380a1a26
    ensures Mixed1(0x458544d6, 0x7ba06619, 0xfb50753a, 0x458546f4) == 0x01e02203
    ensures Mixed1(0x44584cb7, 0x6380aea2, 0xec6765e8, 0xb8599dd6) == 0xe7cc3456
    ensures Mixed1(0x7ba06619, 0x0ae55269, 0xba3c2be2, 0x380a1a26) == 0xe6e60b69
    ensures Mixed1(0x6380aea2, 0x627b49a1, 0x0060c000, 0x01e02203) == 0x00f60a00
    ensures Mixed1(0x0ae55269, 0x7cd45c9d, 0x3a37cd05, 0xe7cc3456) == 0x5795ef4f
    ensures Mixed1(0x627b49a1, 0x000f0000, 0x458546f4, 0xe6e60b69) == 0x822e0879
  {
  }

  lemma Words1From64(w: seq<bv32>)
    requires |w| == 80 && Extended1(w)
    requires w[48] == 0xda9415ed && w[49] == 0x26380a16 && w[50] == 0x626383a1 && w[51] == 0x4ebf54de
    requires w[52] == 0x3835b44b && w[53] == 0x0000f600 && w[54] == 0x1e84c7a3 && w[55] == 0x98e04d98
    requires w[56] == 0x651d16a0 && w[57] == 0x62658ca1 && w[58] == 0x458544d6 && w[59] == 0x44584cb7
    requires w[60] == 0x7ba06619 && w[61] == 0x6380aea2 && w[62] == 0x0ae55269 && w[63] == 0x627b49a1
    ensures w[64] == 0x7cd45c9d && w[65] == 0x000f0000 && w[66] == 0xfb50753a && w[67] == 0xec6765e8
    ensures w[68] == 0xba3c2be2 && w[69] == 0x0060c000 && w[70] == 0x3a37cd05 && w[71] == 0x458546f4
    ensures w[72] == 0xb8599dd6 && w[73] == 0x380a1a26 && w[74] == 0x01e02203 && w[75] == 0xe7cc3456
    ensures w[76] == 0xe6e60b69 && w[77] == 0x00f60a00 && w[78] == 0x5795ef4f && w[79] == 0x822e0879
  {
    Mixes1From64();
    Word1(w, 64, 0xda9415ed, 0x626383a1, 0x651d16a0, 0x6380aea2, 0x7cd45c9d);
    Word1(w, 65, 0x26380a16, 0x4ebf54de, 0x62658ca1, 0x0ae55269, 0x000f0000);
    Word1(w, 66, 0x626383a1, 0x3835b44b, 0x458544d6, 0x627b49a1, 0xfb50753a);
    Word1(w, 67, 0x4ebf54de, 0x0000f600, 0x44584cb7, 0x7cd45c9d, 0xec6765e8);
    Word1(w, 68, 0x3835b44b, 0x1e84c7a3, 0x7ba06619, 0x000f0000, 0xba3c2be2);
    Word1(w, 69, 0x0000f600, 0x98e04d98, 0x6380aea2, 0xfb50753a, 0x0060c000);
    Word1(w, 70, 0x1e84c7a3, 0x651d16a0, 0x0ae55269, 0xec6765e8, 0x3a37cd05);
    Word1(w, 71, 0x98e04d98, 0x62658ca1, 0x627b49a1, 0xba3c2be2, 0x458546f4);
    Word1(w, 72, 0x651d16a0, 0x458544d6, 0x7cd45c9d, 0x0060c000, 0xb8599dd6);
    Word1(w, 73, 0x62658ca1, 0x44584cb7, 0x000f0000, 0x3a37cd05, 0x380a1a26);
    Word1(w, 74, 0x458544d6, 0x7ba06619, 0xfb50753a, 0x458546f4, 0x01e02203);
    Word1(w, 75, 0x44584cb7, 0x6380aea2, 0xec6765e8, 0xb8599dd6, 0xe7cc3456);
    Word1(w, 76, 0x7ba06619, 0x0ae55269, 0xba3c2be2, 0x380a1a26, 0xe6e60b69);
    Word1(w, 77, 0x6380aea2, 0x627b49a1, 0x0060c000, 0x01e02203, 0x00f60a00);
    Word1(w, 78, 0x0ae55269, 0x7cd45c9d, 0x3a37cd05, 0xe7cc3456, 0x5795ef4f);
    Word1(w, 79, 0x627b49a1, 0x000f0000, 0x458546f4, 0xe6e60b69, 0x822e0879);
  }

  lemma States1From0()
    ensures Round1(Sha1(0x67452301, 0xefcdab89, 0x98badcfe, 0x10325476, 0xc3d2e1f0),
                     0, 0x61626380)
      == Sha1(0x0116fc33, 0x67452301, 0x7bf36ae2, 0x98badcfe, 0x10325476)
    ensures Round1(Sha1(0x0116fc33, 0x67452301, 0x7bf36ae2, 0x98badcfe, 0x10325476),
                     1, 0x00000000)
      == Sha1(0x8990536d, 0x0116fc33, 0x59d148c0, 0x7bf36ae2, 0x98badcfe)
    ensures Round1(Sha1(0x8990536d, 0x0116fc33, 0x59d148c0, 0x7bf36ae2, 0x98badcfe),
                     2, 0x00000000)
      == Sha1(0xa1390f08, 0x8990536d, 0xc045bf0c, 0x59d148c0, 0x7bf36ae2)
    ensures Round1(Sha1(0xa1390f08, 0x8990536d, 0xc045bf0c, 0x59d148c0, 0x7bf36ae2),
                     3, 0x00000000)
      == Sha1(0xcdd8e11b, 0xa1390f08, 0x626414db, 0xc045bf0c, 0x59d148c0)
    ensures Round1(Sha1(0xcdd8e11b, 0xa1390f08, 0x626414db, 0xc045bf0c, 0x59d148c0),
                     4, 0x00000000)
      == Sha1(0xcfd499de, 0xcdd8e11b, 0x284e43c2, 0x626414db, 0xc045bf0c)
    ensures Round1(Sha1(0xcfd499de, 0xcdd8e11b, 0x284e43c2, 0x626414db, 0xc045bf0c),
                     5, 0x00000000)
      == Sha1(0x3fc7ca40, 0xcfd499de, 0xf3763846, 0x284e43c2, 0x626414db)
    ensures Round1(Sha1(0x3fc7ca40, 0xcfd499de, 0xf3763846, 0x284e43c2, 0x626414db),
                     6, 0x00000000)
      == Sha1(0x993e30c1, 0x3fc7ca40, 0xb3f52677, 0xf3763846, 0x284e43c2)
    ensures Round1(Sha1(0x993e30c1, 0x3fc7ca40, 0xb3f52677, 0xf3763846, 0x284e43c2),
                     7, 0x00000000)
      == Sha1(0x9e8c07d4, 0x993e30c1, 0x0ff1f290, 0xb3f52677, 0xf3763846)
  {
  }

  lemma Rounds1From0(w: seq<bv32>)
    requires |w| == 80 && Rounds1(w, INITIAL_1, 0)
      == Sha1(0x67452301, 0xefcdab89, 0x98badcfe, 0x10325476, 0xc3d2e1f0)
    requires w[0] == 0x61626380 && w[1] == 0x00000000 && w[2] == 0x00000000 && w[3] == 0x00000000
    requires w[4] == 0x00000000 && w[5] == 0x00000000 && w[6] == 0x00000000 && w[7] == 0x00000000
    ensures Rounds1(w, INITIAL_1, 8)
      == Sha1(0x9e8c07d4, 0x993e30c1, 0x0ff1f290, 0xb3f52677, 0xf3763846)
  {
    States1From0();
    Step1(w, 0);
    Step1(w, 1);
    Step1(w, 2);
    Step1(w, 3);
    Step1(w, 4);
    Step1(w, 5);
    Step1(w, 6);
    Step1(w, 7);
  }

  lemma States1From8()
    ensures Round1(Sha1(0x9e8c07d4, 0x993e30c1, 0x0ff1f290, 0xb3f52677, 0xf3763846),
                     8, 0x00000000)
      == Sha1(0x4b6ae328, 0x9e8c07d4, 0x664f8c30, 0x0ff1f290, 0xb3f52677)
    ensures Round1(Sha1(0x4b6ae328, 0x9e8c07d4, 0x664f8c30, 0x0ff1f290, 0xb3f52677),
                     9, 0x00000000)
      == Sha1(0x8351f929, 0x4b6ae328, 0x27a301f5, 0x664f8c30, 0x0ff1f290)
    ensures Round1(Sha1(0x8351f929, 0x4b6ae328, 0x27a301f5, 0x664f8c30, 0x0ff1f290),
                     10, 0x00000000)
      == Sha1(0xfbda9e89, 0x8351f929, 0x12dab8ca, 0x27a301f5, 0x664f8c30)
    ensures Round1(Sha1(0xfbda9e89, 0x8351f929, 0x12dab8ca, 0x27a301f5, 0x664f8c30),
                     11, 0x00000000)
      == Sha1(0x63188fe4, 0xfbda9e89, 0x60d47e4a, 0x12dab8ca, 0x27a301f5)
    ensures Round1(Sha1(0x63188fe4, 0xfbda9e89, 0x60d47e4a, 0x12dab8ca, 0x27a301f5),
                     12, 0x00000000)
      == Sha1(0x4607b664, 0x63188fe4, 0x7ef6a7a2, 0x60d47e4a, 0x12dab8ca)
    ensures Round1(Sha1(0x4607b664, 0x63188fe4, 0x7ef6a7a2, 0x60d47e4a, 0x12dab8ca),
                     13, 0x00000000)
      == Sha1(0x9128f695, 0x4607b664, 0x18c623f9, 0x7ef6a7a2, 0x60d47e4a)
    ensures Round1(Sha1(0x9128f695, 0x4607b664, 0x18c623f9, 0x7ef6a7a2, 0x60d47e4a),
                     14, 0x00000000)
      == Sha1(0x196bee77, 0x9128f695, 0x1181ed99, 0x18c623f9, 0x7ef6a7a2)
    ensures Round1(Sha1(0x196bee77, 0x9128f695, 0x1181ed99, 0x18c623f9, 0x7ef6a7a2),
                     15, 0x00000018)
      == Sha1(0x20bdd62f, 0x196bee77, 0x644a3da5, 0x1181ed99, 0x18c623f9)
  {
  }

  lemma Rounds1From8(w: seq<bv32>)
    requires |w| == 80 && Rounds1(w, INITIAL_1, 8)
      == Sha1(0x9e8c07d4, 0x993e30c1, 0x0ff1f290, 0xb3f52677, 0xf3763846)
    requires w[8] == 0x00000000 && w[9] == 0x00000000 && w[10] == 0x00000000 && w[11] == 0x00000000
    requires w[12] == 0x00000000 && w[13] == 0x00000000 && w[14] == 0x00000000 && w[15] == 0x00000018
    ensures Rounds1(w, INITIAL_1, 16)
      == Sha1(0x20bdd62f, 0x196bee77, 0x644a3da5, 0x1181ed99, 0x18c623f9)
  {
    States1From8();
    Step1(w, 8);
    Step1(w, 9);
    Step1(w, 10);
    Step1(w, 11);
    Step1(w, 12);
    Step1(w, 13);
    Step1(w, 14);
    Step1(w, 15);
  }

  lemma States1From16()
    ensures Round1(Sha1(0x20bdd62f, 0x196bee77, 0x644a3da5, 0x1181ed99, 0x18c623f9),
                     16, 0xc2c4c700)
      == Sha1(0x4e925823, 0x20bdd62f, 0xc65afb9d, 0x644a3da5, 0x1181ed99)
    ensures Round1(Sha1(0x4e925823, 0x20bdd62f, 0xc65afb9d, 0x644a3da5, 0x1181ed99),
                     17, 0x00000000)
      == Sha1(0x82aa6728, 0x4e925823, 0xc82f758b, 0xc65afb9d, 0x644a3da5)
    ensures Round1(Sha1(0x82aa6728, 0x4e925823, 0xc82f758b, 0xc65afb9d, 0x644a3da5),
                     18, 0x00000030)
      == Sha1(0xdc64901d, 0x82aa6728, 0xd3a49608, 0xc82f758b, 0xc65afb9d)
    ensures Round1(Sha1(0xdc64901d, 0x82aa6728, 0xd3a49608, 0xc82f758b, 0xc65afb9d),
                     19, 0x85898e01)
      == Sha1(0xfd9e1d7d, 0xdc64901d, 0x20aa99ca, 0xd3a49608, 0xc82f758b)
    ensures Round1(Sha1(0xfd9e1d7d, 0xdc64901d, 0x20aa99ca, 0xd3a49608, 0xc82f758b),
                     20, 0x00000000)
      == Sha1(0x1a37b0ca, 0xfd9e1d7d, 0x77192407, 0x20aa99ca, 0xd3a49608)
    ensures Round1(Sha1(0x1a37b0ca, 0xfd9e1d7d, 0x77192407, 0x20aa99ca, 0xd3a49608),
                     21, 0x00000060)
      == Sha1(0x33a23bfc, 0x1a37b0ca, 0x7f67875f, 0x77192407, 0x20aa99ca)
    ensures Round1(Sha1(0x33a23bfc, 0x1a37b0ca, 0x7f67875f, 0x77192407, 0x20aa99ca),
                     22, 0x0b131c03)
      == Sha1(0x21283486, 0x33a23bfc, 0x868dec32, 0x7f67875f, 0x77192407)
    ensures Round1(Sha1(0x21283486, 0x33a23bfc, 0x868dec32, 0x7f67875f, 0x77192407),
                     23, 0x00000030)
      == Sha1(0xd541f12d, 0x21283486, 0x0ce88eff, 0x868dec32, 0x7f67875f)
  {
  }

  lemma Rounds1From16(w: seq<bv32>)
    requires |w| == 80 && Rounds1(w, INITIAL_1, 16)
      == Sha1(0x20bdd62f, 0x196bee77, 0x644a3da5, 0x1181ed99, 0x18c623f9)
    requires w[16] == 0xc2c4c700 && w[17] == 0x00000000 && w[18] == 0x00000030 && w[19] == 0x85898e01
    requires w[20] == 0x00000000 && w[21] == 0x00000060 && w[22] == 0x0b131c03 && w[23] == 0x00000030
    ensures Rounds1(w, INITIAL_1, 24)
      == Sha1(0xd541f12d, 0x21283486, 0x0ce88eff, 0x868dec32, 0x7f67875f)
  {
    States1From16();
    Step1(w, 16);
    Step1(w, 17);
    Step1(w, 18);
    Step1(w, 19);
    Step1(w, 20);
    Step1(w, 21);
    Step1(w, 22);
    Step1(w, 23);
  }

  lemma States1From24()
    ensures Round1(Sha1(0xd541f12d, 0x21283486, 0x0ce88eff, 0x868dec32, 0x7f67875f),
                     24, 0x85898ec1)
      == Sha1(0xc7567dc6, 0xd541f12d, 0x884a0d21, 0x0ce88eff, 0x868dec32)
    ensures Round1(Sha1(0xc7567dc6, 0xd541f12d, 0x884a0d21, 0x0ce88eff, 0x868dec32),
                     25, 0x16263806)
      == Sha1(0x48413ba4, 0xc7567dc6, 0x75507c4b, 0x884a0d21, 0x0ce88eff)
    ensures Round1(Sha1(0x48413ba4, 0xc7567dc6, 0x75507c4b, 0x884a0d21, 0x0ce88eff),
                     26, 0x00000000)
      == Sha1(0xbe35fbd5, 0x48413ba4, 0xb1d59f71, 0x75507c4b, 0x884a0d21)
    ensures Round1(Sha1(0xbe35fbd5, 0x48413ba4, 0xb1d59f71, 0x75507c4b, 0x884a0d21),
                     27, 0x00000180)
      == Sha1(0x4aa84d97, 0xbe35fbd5, 0x12104ee9, 0xb1d59f71, 0x75507c4b)
    ensures Round1(Sha1(0x4aa84d97, 0xbe35fbd5, 0x12104ee9, 0xb1d59f71, 0x75507c4b),
                     28, 0x2c4c700c)
      == Sha1(0x8370b52e, 0x4aa84d97, 0x6f8d7ef5, 0x12104ee9, 0xb1d59f71)
    ensures Round1(Sha1(0x8370b52e, 0x4aa84d97, 0x6f8d7ef5, 0x12104ee9, 0xb1d59f71),
                     29, 0x000000f0)
      == Sha1(0xc5fbaf5d, 0x8370b52e, 0xd2aa1365, 0x6f8d7ef5, 0x12104ee9)
    ensures Round1(Sha1(0xc5fbaf5d, 0x8370b52e, 0xd2aa1365, 0x6f8d7ef5, 0x12104ee9),
                     30, 0x93afb507)
      == Sha1(0x1267b407, 0xc5fbaf5d, 0xa0dc2d4b, 0xd2aa1365, 0x6f8d7ef5)
    ensures Round1(Sha1(0x1267b407, 0xc5fbaf5d, 0xa0dc2d4b, 0xd2aa1365, 0x6f8d7ef5),
                     31, 0x5898e048)
      == Sha1(0x3b845d33, 0x1267b407, 0x717eebd7, 0xa0dc2d4b, 0xd2aa1365)
  {
  }

  lemma Rounds1From24(w: seq<bv32>)
    requires |w| == 80 && Rounds1(w, INITIAL_1, 24)
      == Sha1(0xd541f12d, 0x21283486, 0x0ce88eff, 0x868dec32, 0x7f67875f)
    requires w[24] == 0x85898ec1 && w[25] == 0x16263806 && w[26] == 0x00000000 && w[27] == 0x00000180
    requires w[28] == 0x2c4c700c && w[29] == 0x000000f0 && w[30] == 0x93afb507 && w[31] == 0x5898e048
    ensures Rounds1(w, INITIAL_1, 32)
      == Sha1(0x3b845d33, 0x1267b407, 0x717eebd7, 0xa0dc2d4b, 0xd2aa1365)
  {
    States1From24();
    Step1(w, 24);
    Step1(w, 25);
    Step1(w, 26);
    Step1(w, 27);
    Step1(w, 28);
    Step1(w, 29);
    Step1(w, 30);
    Step1(w, 31);
  }

  lemma States1From32()
    ensures Round1(Sha1(0x3b845d33, 0x1267b407, 0x717eebd7, 0xa0dc2d4b, 0xd2aa1365),
                     32, 0x8e9a9202)
      == Sha1(0x046faa0a, 0x3b845d33, 0xc499ed01, 0x717eebd7, 0xa0dc2d4b)
    ensures Round1(Sha1(0x046faa0a, 0x3b845d33, 0xc499ed01, 0x717eebd7, 0xa0dc2d4b),
                     33, 0x00000600)
      == Sha1(0x2c0ebc11, 0x046faa0a, 0xcee1174c, 0xc499ed01, 0x717eebd7)
    ensures Round1(Sha1(0x2c0ebc11, 0x046faa0a, 0xcee1174c, 0xc499ed01, 0x717eebd7),
                     34, 0xb131c0f0)
      == Sha1(0x21796ad4, 0x2c0ebc11, 0x811bea82, 0xcee1174c, 0xc499ed01)
    ensures Round1(Sha1(0x21796ad4, 0x2c0ebc11, 0x811bea82, 0xcee1174c, 0xc499ed01),
                     35, 0x16263bc6)
      == Sha1(0xdcbbb0cb, 0x21796ad4, 0x4b03af04, 0x811bea82, 0xcee1174c)
    ensures Round1(Sha1(0xdcbbb0cb, 0x21796ad4, 0x4b03af04, 0x811bea82, 0xcee1174c),
                     36, 0x4ebed41e)
      == Sha1(0x0f511fd8, 0xdcbbb0cb, 0x085e5ab5, 0x4b03af04, 0x811bea82)
    ensures Round1(Sha1(0x0f511fd8, 0xdcbbb0cb, 0x085e5ab5, 0x4b03af04, 0x811bea82),
                     37, 0x626380a1)
      == Sha1(0xdc63973f, 0x0f511fd8, 0xf72eec32, 0x085e5ab5, 0x4b03af04)
    ensures Round1(Sha1(0xdc63973f, 0x0f511fd8, 0xf72eec32, 0x085e5ab5, 0x4b03af04),
                     38, 0x16263806)
      == Sha1(0x4c986405, 0xdc63973f, 0x03d447f6, 0xf72eec32, 0x085e5ab5)
    ensures Round1(Sha1(0x4c986405, 0xdc63973f, 0x03d447f6, 0xf72eec32, 0x085e5ab5),
                     39, 0x000018c0)
      == Sha1(0x32de1cba, 0x4c986405, 0xf718e5cf, 0x03d447f6, 0xf72eec32)
  {
  }

  lemma Rounds1From32(w: seq<bv32>)
    requires |w| == 80 && Rounds1(w, INITIAL_1, 32)
      == Sha1(0x3b845d33, 0x1267b407, 0x717eebd7, 0xa0dc2d4b, 0xd2aa1365)
    requires w[32] == 0x8e9a9202 && w[33] == 0x00000600 && w[34] == 0xb131c0f0 && w[35] == 0x16263bc6
    requires w[36] == 0x4ebed41e && w[37] == 0x626380a1 && w[38] == 0x16263806 && w[39] == 0x000018c0
    ensures Rounds1(w, INITIAL_1, 40)
      == Sha1(0x32de1cba, 0x4c986405, 0xf718e5cf, 0x03d447f6, 0xf72eec32)
  {
    States1From32();
    Step1(w, 32);
    Step1(w, 33);
    Step1(w, 34);
    Step1(w, 35);
    Step1(w, 36);
    Step1(w, 37);
    Step1(w, 38);
    Step1(w, 39);
  }

  lemma States1From40()
    ensures Round1(Sha1(0x32de1cba, 0x4c986405, 0xf718e5cf, 0x03d447f6, 0xf72eec32),
                     40, 0xd2e138c4)
      == Sha1(0xfc87dedf, 0x32de1cba, 0x53261901, 0xf718e5cf, 0x03d447f6)
    ensures Round1(Sha1(0xfc87dedf, 0x32de1cba, 0x53261901, 0xf718e5cf, 0x03d447f6),
                     41, 0x00000f00)
      == Sha1(0x970a0d5c, 0xfc87dedf, 0x8cb7872e, 0x53261901, 0xf718e5cf)
    ensures Round1(Sha1(0x970a0d5c, 0xfc87dedf, 0x8cb7872e, 0x53261901, 0xf718e5cf),
                     42, 0x3afb5079)
      == Sha1(0x7f193dc5, 0x970a0d5c, 0xff21f7b7, 0x8cb7872e, 0x53261901)
    ensures Round1(Sha1(0x7f193dc5, 0x970a0d5c, 0xff21f7b7, 0x8cb7872e, 0x53261901),
                     43, 0x898e04e5)
      == Sha1(0xee1b1aaf, 0x7f193dc5, 0x25c28357, 0xff21f7b7, 0x8cb7872e)
    ensures Round1(Sha1(0xee1b1aaf, 0x7f193dc5, 0x25c28357, 0xff21f7b7, 0x8cb7872e),
                     44, 0xe2ba3c2b)
      == Sha1(0x40f28e09, 0xee1b1aaf, 0x5fc64f71, 0x25c28357, 0xff21f7b7)
    ensures Round1(Sha1(0x40f28e09, 0xee1b1aaf, 0x5fc64f71, 0x25c28357, 0xff21f7b7),
                     45, 0x000060c0)
      == Sha1(0x1c51e1f2, 0x40f28e09, 0xfb86c6ab, 0x5fc64f71, 0x25c28357)
    ensures Round1(Sha1(0x1c51e1f2, 0x40f28e09, 0xfb86c6ab, 0x5fc64f71, 0x25c28357),
                     46, 0x053a37cd)
      == Sha1(0xa01b846c, 0x1c51e1f2, 0x503ca382, 0xfb86c6ab, 0x5fc64f71)
    ensures Round1(Sha1(0xa01b846c, 0x1c51e1f2, 0x503ca382, 0xfb86c6ab, 0x5fc64f71),
                     47, 0x74458547)
      == Sha1(0xbead02ca, 0xa01b846c, 0x8714787c, 0x503ca382, 0xfb86c6ab)
  {
  }

  lemma Rounds1From40(w: seq<bv32>)
    requires |w| == 80 && Rounds1(w, INITIAL_1, 40)
      == Sha1(0x32de1cba, 0x4c986405, 0xf718e5cf, 0x03d447f6, 0xf72eec32)
    requires w[40] == 0xd2e138c4 && w[41] == 0x00000f00 && w[42] == 0x3afb5079 && w[43] == 0x898e04e5
    requires w[44] == 0xe2ba3c2b && w[45] == 0x000060c0 && w[46] == 0x053a37cd && w[47] == 0x74458547
    ensures Rounds1(w, INITIAL_1, 48)
      == Sha1(0xbead02ca, 0xa01b846c, 0x8714787c, 0x503ca382, 0xfb86c6ab)
  {
    States1From40();
    Step1(w, 40);
    Step1(w, 41);
    Step1(w, 42);
    Step1(w, 43);
    Step1(w, 44);
    Step1(w, 45);
    Step1(w, 46);
    Step1(w, 47);
  }

  lemma States1From48()
    ensures Round1(Sha1(0xbead02ca, 0xa01b846c, 0x8714787c, 0x503ca382, 0xfb86c6ab),
                     48, 0xda9415ed)
      == Sha1(0xbaf39337, 0xbead02ca, 0x2806e11b, 0x8714787c, 0x503ca382)
    ensures Round1(Sha1(0xbaf39337, 0xbead02ca, 0x2806e11b, 0x8714787c, 0x503ca382),
                     49, 0x26380a16)
      == Sha1(0x120731c5, 0xbaf39337, 0xafab40b2, 0x2806e11b, 0x8714787c)
    ensures Round1(Sha1(0x120731c5, 0xbaf39337, 0xafab40b2, 0x2806e11b, 0x8714787c),
                     50, 0x626383a1)
      == Sha1(0x641db2ce, 0x120731c5, 0xeebce4cd, 0xafab40b2, 0x2806e11b)
    ensures Round1(Sha1(0x641db2ce, 0x120731c5, 0xeebce4cd, 0xafab40b2, 0x2806e11b),
                     51, 0x4ebf54de)
      == Sha1(0x3847ad66, 0x641db2ce, 0x4481cc71, 0xeebce4cd, 0xafab40b2)
    ensures Round1(Sha1(0x3847ad66, 0x641db2ce, 0x4481cc71, 0xeebce4cd, 0xafab40b2),
                     52, 0x3835b44b)
      == Sha1(0xe490436d, 0x3847ad66, 0x99076cb3, 0x4481cc71, 0xeebce4cd)
    ensures Round1(Sha1(0xe490436d, 0x3847ad66, 0x99076cb3, 0x4481cc71, 0xeebce4cd),
                     53, 0x0000f600)
      == Sha1(0x27e9f1d8, 0xe490436d, 0x8e11eb59, 0x99076cb3, 0x4481cc71)
    ensures Round1(Sha1(0x27e9f1d8, 0xe490436d, 0x8e11eb59, 0x99076cb3, 0x4481cc71),
                     54, 0x1e84c7a3)
      == Sha1(0x7b71f76d, 0x27e9f1d8, 0x792410db, 0x8e11eb59, 0x99076cb3)
    ensures Round1(Sha1(0x7b71f76d, 0x27e9f1d8, 0x792410db, 0x8e11eb59, 0x99076cb3),
                     55, 0x98e04d98)
      == Sha1(0x5e6456af, 0x7b71f76d, 0x09fa7c76, 0x792410db, 0x8e11eb59)
  {
  }

  lemma Rounds1From48(w: seq<bv32>)
    requires |w| == 80 && Rounds1(w, INITIAL_1, 48)
      == Sha1(0xbead02ca, 0xa01b846c, 0x8714787c, 0x503ca382, 0xfb86c6ab)
    requires w[48] == 0xda9415ed && w[49] == 0x26380a16 && w[50] == 0x626383a1 && w[51] == 0x4ebf54de
    requires w[52] == 0x3835b44b && w[53] == 0x0000f600 && w[54] == 0x1e84c7a3 && w[55] == 0x98e04d98
    ensures Rounds1(w, INITIAL_1, 56)
      == Sha1(0x5e6456af, 0x7b71f76d, 0x09fa7c76, 0x792410db, 0x8e11eb59)
  {
    States1From48();
    Step1(w, 48);
    Step1(w, 49);
    Step1(w, 50);
    Step1(w, 51);
    Step1(w, 52);
    Step1(w, 53);
    Step1(w, 54);
    Step1(w, 55);
  }

  lemma States1From56()
    ensures Round1(Sha1(0x5e6456af, 0x7b71f76d, 0x09fa7c76, 0x792410db, 0x8e11eb59),
                     56, 0x651d16a0)
      == Sha1(0xc846093f, 0x5e6456af, 0x5edc7ddb, 0x09fa7c76, 0x792410db)
    ensures Round1(Sha1(0xc846093f, 0x5e6456af, 0x5edc7ddb, 0x09fa7c76, 0x792410db),
                     57, 0x62658ca1)
      == Sha1(0xd262ff50, 0xc846093f, 0xd79915ab, 0x5edc7ddb, 0x09fa7c76)
    ensures Round1(Sha1(0xd262ff50, 0xc846093f, 0xd79915ab, 0x5edc7ddb, 0x09fa7c76),
                     58, 0x458544d6)
      == Sha1(0x09d785fd, 0xd262ff50, 0xf211824f, 0xd79915ab, 0x5edc7ddb)
    ensures Round1(Sha1(0x09d785fd, 0xd262ff50, 0xf211824f, 0xd79915ab, 0x5edc7ddb),
                     59, 0x44584cb7)
      == Sha1(0x3f52de5a, 0x09d785fd, 0x3498bfd4, 0xf211824f, 0xd79915ab)
    ensures Round1(Sha1(0x3f52de5a, 0x09d785fd, 0x3498bfd4, 0xf211824f, 0xd79915ab),
                     60, 0x7ba06619)
      == Sha1(0xd756c147, 0x3f52de5a, 0x4275e17f, 0x3498bfd4, 0xf211824f)
    ensures Round1(Sha1(0xd756c147, 0x3f52de5a, 0x4275e17f, 0x3498bfd4, 0xf211824f),
                     61, 0x6380aea2)
      == Sha1(0x548c9cb2, 0xd756c147, 0x8fd4b796, 0x4275e17f, 0x3498bfd4)
    ensures Round1(Sha1(0x548c9cb2, 0xd756c147, 0x8fd4b796, 0x4275e17f, 0x3498bfd4),
                     62, 0x0ae55269)
      == Sha1(0xb66c020b, 0x548c9cb2, 0xf5d5b051, 0x8fd4b796, 0x4275e17f)
    ensures Round1(Sha1(0xb66c020b, 0x548c9cb2, 0xf5d5b051, 0x8fd4b796, 0x4275e17f),
                     63, 0x627b49a1)
      == Sha1(0x6b61c9e1, 0xb66c020b, 0x9523272c, 0xf5d5b051, 0x8fd4b796)
  {
  }

  lemma Rounds1From56(w: seq<bv32>)
    requires |w| == 80 && Rounds1(w, INITIAL_1, 56)
      == Sha1(0x5e6456af, 0x7b71f76d, 0x09fa7c76, 0x792410db, 0x8e11eb59)
    requires w[56] == 0x651d16a0 && w[57] == 0x62658ca1 && w[58] == 0x458544d6 && w[59] == 0x44584cb7
    requires w[60] == 0x7ba06619 && w[61] == 0x6380aea2 && w[62] == 0x0ae55269 && w[63] == 0x627b49a1
    ensures Rounds1(w, INITIAL_1, 64)
      == Sha1(0x6b61c9e1, 0xb66c020b, 0x9523272c, 0xf5d5b051, 0x8fd4b796)
  {
    States1From56();
    Step1(w, 56);
    Step1(w, 57);
    Step1(w, 58);
    Step1(w, 59);
    Step1(w, 60);
    Step1(w, 61);
    Step1(w, 62);
    Step1(w, 63);
  }

  lemma States1From64()
    ensures Round1(Sha1(0x6b61c9e1, 0xb66c020b, 0x9523272c, 0xf5d5b051, 0x8fd4b796),
                     64, 0x7cd45c9d)
      == Sha1(0x19dfa7ac, 0x6b61c9e1, 0xed9b0082, 0x9523272c, 0xf5d5b051)
    ensures Round1(Sha1(0x19dfa7ac, 0x6b61c9e1, 0xed9b0082, 0x9523272c, 0xf5d5b051),
                     65, 0x000f0000)
      == Sha1(0x101655f9, 0x19dfa7ac, 0x5ad87278, 0xed9b0082, 0x9523272c)
    ensures Round1(Sha1(0x101655f9, 0x19dfa7ac, 0x5ad87278, 0xed9b0082, 0x9523272c),
                     66, 0xfb50753a)
      == Sha1(0x0c3df2b4, 0x101655f9, 0x0677e9eb, 0x5ad87278, 0xed9b0082)
    ensures Round1(Sha1(0x0c3df2b4, 0x101655f9, 0x0677e9eb, 0x5ad87278, 0xed9b0082),
                     67, 0xec6765e8)
      == Sha1(0x78dd4d2b, 0x0c3df2b4, 0x4405957e, 0x0677e9eb, 0x5ad87278)
    ensures Round1(Sha1(0x78dd4d2b, 0x0c3df2b4, 0x4405957e, 0x0677e9eb, 0x5ad87278),
                     68, 0xba3c2be2)
      == Sha1(0x497093c0, 0x78dd4d2b, 0x030f7cad, 0x4405957e, 0x0677e9eb)
    ensures Round1(Sha1(0x497093c0, 0x78dd4d2b, 0x030f7cad, 0x4405957e, 0x0677e9eb),
                     69, 0x0060c000)
      == Sha1(0x3f2588c2, 0x497093c0, 0xde37534a, 0x030f7cad, 0x4405957e)
    ensures Round1(Sha1(0x3f2588c2, 0x497093c0, 0xde37534a, 0x030f7cad, 0x4405957e),
                     70, 0x3a37cd05)
      == Sha1(0xc199f8c7, 0x3f2588c2, 0x125c24f0, 0xde37534a, 0x030f7cad)
    ensures Round1(Sha1(0xc199f8c7, 0x3f2588c2, 0x125c24f0, 0xde37534a, 0x030f7cad),
                     71, 0x458546f4)
      == Sha1(0x39859de7, 0xc199f8c7, 0x8fc96230, 0x125c24f0, 0xde37534a)
  {
  }

  lemma Rounds1From64(w: seq<bv32>)
    requires |w| == 80 && Rounds1(w, INITIAL_1, 64)
      == Sha1(0x6b61c9e1, 0xb66c020b, 0x9523272c, 0xf5d5b051, 0x8fd4b796)
    requires w[64] == 0x7cd45c9d && w[65] == 0x000f0000 && w[66] == 0xfb50753a && w[67] == 0xec6765e8
    requires w[68] == 0xba3c2be2 && w[69] == 0x0060c000 && w[70] == 0x3a37cd05 && w[71] == 0x458546f4
    ensures Rounds1(w, INITIAL_1, 72)
      == Sha1(0x39859de7, 0xc199f8c7, 0x8fc96230, 0x125c24f0, 0xde37534a)
  {
    States1From64();
    Step1(w, 64);
    Step1(w, 65);
    Step1(w, 66);
    Step1(w, 67);
    Step1(w, 68);
    Step1(w, 69);
    Step1(w, 70);
    Step1(w, 71);
  }

  lemma States1From72()
    ensures Round1(Sha1(0x39859de7, 0xc199f8c7, 0x8fc96230, 0x125c24f0, 0xde37534a),
                     72, 0xb8599dd6)
      == Sha1(0xedb42de4, 0x39859de7, 0xf0667e31, 0x8fc96230, 0x125c24f0)
    ensures Round1(Sha1(0xedb42de4, 0x39859de7, 0xf0667e31, 0x8fc96230, 0x125c24f0),
                     73, 0x380a1a26)
      == Sha1(0x11793f6f, 0xedb42de4, 0xce616779, 0xf0667e31, 0x8fc96230)
    ensures Round1(Sha1(0x11793f6f, 0xedb42de4, 0xce616779, 0xf0667e31, 0x8fc96230),
                     74, 0x01e02203)
      == Sha1(0x5ee76897, 0x11793f6f, 0x3b6d0b79, 0xce616779, 0xf0667e31)
    ensures Round1(Sha1(0x5ee76897, 0x11793f6f, 0x3b6d0b79, 0xce616779, 0xf0667e31),
                     75, 0xe7cc3456)
      == Sha1(0x63f7dab7, 0x5ee76897, 0xc45e4fdb, 0x3b6d0b79, 0xce616779)
    ensures Round1(Sha1(0x63f7dab7, 0x5ee76897, 0xc45e4fdb, 0x3b6d0b79, 0xce616779),
                     76, 0xe6e60b69)
      == Sha1(0xa079b7d9, 0x63f7dab7, 0xd7b9da25, 0xc45e4fdb, 0x3b6d0b79)
    ensures Round1(Sha1(0xa079b7d9, 0x63f7dab7, 0xd7b9da25, 0xc45e4fdb, 0x3b6d0b79),
                     77, 0x00f60a00)
      == Sha1(0x860d21cc, 0xa079b7d9, 0xd8fdf6ad, 0xd7b9da25, 0xc45e4fdb)
    ensures Round1(Sha1(0x860d21cc, 0xa079b7d9, 0xd8fdf6ad, 0xd7b9da25, 0xc45e4fdb),
                     78, 0x5795ef4f)
      == Sha1(0x5738d5e1, 0x860d21cc, 0x681e6df6, 0xd8fdf6ad, 0xd7b9da25)
    ensures Round1(Sha1(0x5738d5e1, 0x860d21cc, 0x681e6df6, 0xd8fdf6ad, 0xd7b9da25),
                     79, 0x822e0879)
      == Sha1(0x42541b35, 0x5738d5e1, 0x21834873, 0x681e6df6, 0xd8fdf6ad)
  {
  }

  lemma Rounds1From72(w: seq<bv32>)
    requires |w| == 80 && Rounds1(w, INITIAL_1, 72)
      == Sha1(0x39859de7, 0xc199f8c7, 0x8fc96230, 0x125c24f0, 0xde37534a)
    requires w[72] == 0xb8599dd6 && w[73] == 0x380a1a26 && w[74] == 0x01e02203 && w[75] == 0xe7cc3456
    requires w[76] == 0xe6e60b69 && w[77] == 0x00f60a00 && w[78] == 0x5795ef4f && w[79] == 0x822e0879
    ensures Rounds1(w, INITIAL_1, 80)
      == Sha1(0x42541b35, 0x5738d5e1, 0x21834873, 0x681e6df6, 0xd8fdf6ad)
  {
    States1From72();
    Step1(w, 72);
    Step1(w, 73);
    Step1(w, 74);
    Step1(w, 75);
    Step1(w, 76);
    Step1(w, 77);
    Step1(w, 78);
    Step1(w, 79);
  }

  lemma {:induction false} GrowStays(next: Schedule -> bv32, start: Schedule, n: nat, m: nat)
    requires m <= n
    ensures Grow(next, start, n)[..|start| + m] == Grow(next, start, m)
  {
    if m < n {
      GrowStays(next, start, n - 1, m);
      var before := Grow(next, start, n - 1);
      assert Grow(next, start, n)[..|before|] == before;
    }
  }

  /** Each word of a schedule is the next one of those before it. */
  lemma GrowExtends(next: Schedule -> bv32, start: Schedule, n: nat, t: nat)
    requires |start| <= t < |start| + n
    ensures Grow(next, start, n)[t] == next(Grow(next, start, n)[..t])
  {
    var m := t - |start|;
    GrowStays(next, start, n, m);
    GrowStays(next, start, n, m + 1);
    assert Grow(next, start, m + 1)[t] == Grow(next, start, n)[..t + 1][t];
  }

  // ---- The digests -----------------------------------------------------------------------

  lemma {:induction false} LowBytes(i: nat)
    requires i >= 1
    ensures ShiftBytes(24, i) == 0
  {
    if i > 1 {
      ZeroShifts(i - 1);
    }
  }

  lemma {:induction false} ZeroShifts(i: nat)
    ensures ShiftBytes(0, i) == 0
  {
    if i > 0 {
      ZeroShifts(i - 1);
    }
  }

  /** The message, the byte 0x80, zeros, and its 24 bits counted in the last byte. */
  lemma AbcPadded()
    ensures Padded(ABC) == ABC + [0x80] + Zeros(59) + [24]
  {
    var length := BigEndian(24, 8);
    forall i | 0 <= i < 7 ensures length[i] == 0 {
      LowBytes(7 - i);
    }
    assert length[7] == ShiftBytes(24, 0) % 256;
    assert length == Zeros(7) + [24];
    assert Zeros(52) + Zeros(7) == Zeros(59);
  }

  lemma AbcWords()
    ensures |Padded(ABC)| == 64
    ensures var w := BlockWords(Padded(ABC)); w[0] == 0x61626380 && w[15] == 24 && forall i | 1 <= i < 15 :: w[i] == 0
  {
    var block := Padded(ABC);
    AbcPadded();
    WordsOfBytes();
    assert ReadBe32(block, 0) == Word(0x61, 0x62, 0x63, 0x80);
    assert ReadBe32(block, 15) == Word(0, 0, 0, 24);
    forall i | 1 <= i < 15 ensures ReadBe32(block, i) == Word(0, 0, 0, 0) {
    }
  }

  lemma WordsOfBytes()
    ensures Word(0x61, 0x62, 0x63, 0x80) == 0x61626380 && Word(0, 0, 0, 24) == 24 && Word(0, 0, 0, 0) == 0
  {
    TextWord();
    LengthWord();
  }

  lemma TextWord()
    ensures Word(0x61, 0x62, 0x63, 0x80) == 0x61626380
  {
  }

  lemma LengthWord()
    ensures Word(0, 0, 0, 24) == 24 && Word(0, 0, 0, 0) == 0
  {
  }

  lemma OneBlock(v: Words, block: Block)
    ensures Fold(Compress, v, block) == Compress(v, block)
  {
    assert block[..64] == block && block[64..] == [];
  }

  lemma Rounds256OfAbc(w: seq<bv32>)
    requires w == Grow(Next256, BlockWords(Padded(ABC)), 48)
    ensures |w| == 64 && Rounds256(w, INITIAL_256, 64)
      == Sha256(0x506e3058, 0xd39a2165, 0x04d24d6c, 0xb85e2ce9, 0x5ef50f24, 0xfb121210, 0x948d25b6, 0x961f4894)
  {
    AbcWords();
    GrowStays(Next256, BlockWords(Padded(ABC)), 48, 0);
    assert w[..16] == BlockWords(Padded(ABC));
    forall i | 0 <= i < 16 ensures w[i] == BlockWords(Padded(ABC))[i] {
      assert w[i] == w[..16][i];
    }
    Words256From16(w);
    Words256From32(w);
    Words256From48(w);
    Rounds256From0(w);
    Rounds256From8(w);
    Rounds256From16(w);
    Rounds256From24(w);
    Rounds256From32(w);
    Rounds256From40(w);
    Rounds256From48(w);
    Rounds256From56(w);
  }

  lemma Rounds1OfAbc(w: seq<bv32>)
    requires w == Grow(Next1, BlockWords(Padded(ABC)), 64)
    ensures |w| == 80 && Rounds1(w, INITIAL_1, 80)
      == Sha1(0x42541b35, 0x5738d5e1, 0x21834873, 0x681e6df6, 0xd8fdf6ad)
  {
    AbcWords();
    GrowStays(Next1, BlockWords(Padded(ABC)), 64, 0);
    assert w[..16] == BlockWords(Padded(ABC));
    forall i | 0 <= i < 16 ensures w[i] == BlockWords(Padded(ABC))[i] {
      assert w[i] == w[..16][i];
    }
    Words1From16(w);
    Words1From32(w);
    Words1From48(w);
    Words1From64(w);
    Rounds1From0(w);
    Rounds1From8(w);
    Rounds1From16(w);
    Rounds1From24(w);
    Rounds1From32(w);
    Rounds1From40(w);
    Rounds1From48(w);
    Rounds1From56(w);
    Rounds1From64(w);
    Rounds1From72(w);
  }

  lemma Sum256()
    ensures Plus(INITIAL_256,
      Sha256(0x506e3058, 0xd39a2165, 0x04d24d6c, 0xb85e2ce9, 0x5ef50f24, 0xfb121210, 0x948d25b6, 0x961f4894))
      == Sha256(0xba7816bf, 0x8f01cfea, 0x414140de, 0x5dae2223, 0xb00361a3, 0x96177a9c, 0xb410ff61, 0xf20015ad)
  {
  }

  lemma WordBytes256()
    ensures WordBytes(0xba7816bf) == [0xba, 0x78, 0x16, 0xbf]
    ensures WordBytes(0x8f01cfea) == [0x8f, 0x01, 0xcf, 0xea]
    ensures WordBytes(0x414140de) == [0x41, 0x41, 0x40, 0xde]
    ensures WordBytes(0x5dae2223) == [0x5d, 0xae, 0x22, 0x23]
    ensures WordBytes(0xb00361a3) == [0xb0, 0x03, 0x61, 0xa3]
    ensures WordBytes(0x96177a9c) == [0x96, 0x17, 0x7a, 0x9c]
    ensures WordBytes(0xb410ff61) == [0xb4, 0x10, 0xff, 0x61]
    ensures WordBytes(0xf20015ad) == [0xf2, 0x00, 0x15, 0xad]
  {
    FirstBytes256();
    MiddleBytes256();
    MoreBytes256();
    LastBytes256();
  }

  lemma FirstBytes256()
    ensures WordBytes(0xba7816bf) == [0xba, 0x78, 0x16, 0xbf]
    ensures WordBytes(0x8f01cfea) == [0x8f, 0x01, 0xcf, 0xea]
  {
  }

  lemma MiddleBytes256()
    ensures WordBytes(0x414140de) == [0x41, 0x41, 0x40, 0xde]
    ensures WordBytes(0x5dae2223) == [0x5d, 0xae, 0x22, 0x23]
  {
  }

  lemma MoreBytes256()
    ensures WordBytes(0xb00361a3) == [0xb0, 0x03, 0x61, 0xa3]
    ensures WordBytes(0x96177a9c) == [0x96, 0x17, 0x7a, 0x9c]
  {
  }

  lemma LastBytes256()
    ensures WordBytes(0xb410ff61) == [0xb4, 0x10, 0xff, 0x61]
    ensures WordBytes(0xf20015ad) == [0xf2, 0x00, 0x15, 0xad]
  {
  }

  lemma Bytes256()
    ensures DigestBytes(Sha256(0xba7816bf, 0x8f01cfea, 0x414140de, 0x5dae2223, 0xb00361a3, 0x96177a9c, 0xb410ff61, 0xf20015ad))
      == [0xba, 0x78, 0x16, 0xbf, 0x8f, 0x01, 0xcf, 0xea, 0x41, 0x41, 0x40, 0xde, 0x5d, 0xae, 0x22, 0x23, 0xb0, 0x03, 0x61, 0xa3, 0x96, 0x17, 0x7a, 0x9c, 0xb4, 0x10, 0xff, 0x61, 0xf2, 0x00, 0x15, 0xad]
  {
    WordBytes256();
  }

  lemma Sum1()
    ensures Plus(INITIAL_1,
      Sha1(0x42541b35, 0x5738d5e1, 0x21834873, 0x681e6df6, 0xd8fdf6ad))
      == Sha1(0xa9993e36, 0x4706816a, 0xba3e2571, 0x7850c26c, 0x9cd0d89d)
  {
  }

  lemma WordBytes1()
    ensures WordBytes(0xa9993e36) == [0xa9, 0x99, 0x3e, 0x36]
    ensures WordBytes(0x4706816a) == [0x47, 0x06, 0x81, 0x6a]
    ensures WordBytes(0xba3e2571) == [0xba, 0x3e, 0x25, 0x71]
    ensures WordBytes(0x7850c26c) == [0x78, 0x50, 0xc2, 0x6c]
    ensures WordBytes(0x9cd0d89d) == [0x9c, 0xd0, 0xd8, 0x9d]
  {
    FirstBytes1();
    MiddleBytes1();
    LastBytes1();
  }

  lemma FirstBytes1()
    ensures WordBytes(0xa9993e36) == [0xa9, 0x99, 0x3e, 0x36]
    ensures WordBytes(0x4706816a) == [0x47, 0x06, 0x81, 0x6a]
  {
  }

  lemma MiddleBytes1()
    ensures WordBytes(0xba3e2571) == [0xba, 0x3e, 0x25, 0x71]
    ensures WordBytes(0x7850c26c) == [0x78, 0x50, 0xc2, 0x6c]
  {
  }

  lemma LastBytes1()
    ensures WordBytes(0x9cd0d89d) == [0x9c, 0xd0, 0xd8, 0x9d]
  {
  }

  lemma Bytes1()
    ensures DigestBytes(Sha1(0xa9993e36, 0x4706816a, 0xba3e2571, 0x7850c26c, 0x9cd0d89d))
      == [0xa9, 0x99, 0x3e, 0x36, 0x47, 0x06, 0x81, 0x6a, 0xba, 0x3e, 0x25, 0x71, 0x78, 0x50, 0xc2, 0x6c, 0x9c, 0xd0, 0xd8, 0x9d]
  {
    WordBytes1();
  }

  /** SHA-256 of "abc". */
  lemma Sha256OfAbc()
    ensures HashSha256([0x61, 0x62, 0x63])
      == [0xba, 0x78, 0x16, 0xbf, 0x8f, 0x01, 0xcf, 0xea, 0x41, 0x41, 0x40, 0xde, 0x5d, 0xae, 0x22, 0x23, 0xb0, 0x03, 0x61, 0xa3, 0x96, 0x17, 0x7a, 0x9c, 0xb4, 0x10, 0xff, 0x61, 0xf2, 0x00, 0x15, 0xad]
  {
    AbcWords();
    OneBlock(INITIAL_256, Padded(ABC));
    Rounds256OfAbc(Grow(Next256, BlockWords(Padded(ABC)), 48));
    Sum256();
    Bytes256();
  }

  /** SHA-1 of "abc". */
  lemma Sha1OfAbc()
    ensures HashSha1([0x61, 0x62, 0x63])
      == [0xa9, 0x99, 0x3e, 0x36, 0x47, 0x06, 0x81, 0x6a, 0xba, 0x3e, 0x25, 0x71, 0x78, 0x50, 0xc2, 0x6c, 0x9c, 0xd0, 0xd8, 0x9d]
  {
    AbcWords();
    OneBlock(INITIAL_1, Padded(ABC));
    Rounds1OfAbc(Grow(Next1, BlockWords(Padded(ABC)), 64));
    Sum1();
    Bytes1();
  }
}
