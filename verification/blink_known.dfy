/** The hashes the repository's own test pins, worked out word by word: for each way a length takes
    through the hash, one name at least. */
module BlinkKnown {
  import opened Basics
  import opened BlinkHash
  import opened BlinkProbing
  import opened BlinkMap

  // ---- Steps on given words ----

  lemma SmallRest(n: nat)
    requires n < TWO_64
    ensures n % TWO_64 == n
  {}

  lemma WordFits(x: bv64)
    ensures x as nat < TWO_64
  {}

  lemma RestOf(x: bv64, n: nat)
    requires n == x as nat
    ensures n % TWO_64 == x as nat
  {
    WordFits(x);
    SmallRest(n);
  }

  lemma BitsOf(x: bv64, n: nat)
    requires n == x as nat
    ensures n as bv64 == x
  {}

  lemma BitsBack(x: bv64)
    ensures Bits(x as nat) == x
  {
    RestOf(x, x as nat);
    BitsOf(x, x as nat % TWO_64);
  }

  lemma XorIs(x: bv64, y: bv64)
    ensures Xor(x as nat, y as nat) == XorBits(x, y)
  {
    BitsBack(x);
    BitsBack(y);
  }

  /** The same words as numbers and as bits. */
  lemma XorAre(a: nat, b: nat, x: bv64, y: bv64, c: nat)
    requires x as nat == a && y as nat == b && XorBits(x, y) == c
    ensures Xor(a, b) == c
  {
    XorIs(x, y);
  }

  lemma Halves(n: nat, low: nat, high: nat)
    requires n == high * TWO_64 + low && low < TWO_64
    ensures n % TWO_64 == low && n / TWO_64 == high
  {}

  lemma LowHigh(a: nat, b: nat, low: nat, high: nat)
    requires a * b == high * TWO_64 + low && low < TWO_64
    ensures Low(a, b) == low && High(a, b) == high
  {
    Halves(a * b, low, high);
  }

  lemma MixIs(a: nat, b: nat, low: bv64, high: bv64, c: nat)
    requires a * b == high as nat * TWO_64 + low as nat && XorBits(low, high) == c
    ensures Mix(GO, a, b) == c
  {
    WordFits(low);
    LowHigh(a, b, low as nat, high as nat);
    XorIs(low, high);
  }

  lemma FinishIs(a: nat, b: nat, seed: nat, n: nat, x: nat, y: nat, l: nat, h: nat, m: nat)
    requires n < TWO_64 && Xor(a, S1) == x && Xor(b, seed) == y
    requires Xor(Xor(Low(x, y), S0), n) == l && Xor(High(x, y), S1) == h
    requires Mix(GO, l, h) == m && m % TOP8 != 0
    ensures Finish(GO, a, b, seed, n) == m % TOP8
  {
    SmallRest(n);
  }

  lemma StartSeed()
    ensures Xor(SEED, Mix(GO, Xor(SEED, S0), S1)) == 0x763305bbe7bea536
  {
    XorAre(SEED, S0, 0xbdd89aa982704029, 0x2d358dccaa6c78a5, 0x90ed1765281c388c);
    MixIs(0x90ed1765281c388c, S1, 0x84f28ff7a54e75ec, 0x4f1910e5c08090f3, 0xcbeb9f1265cee51f);
    XorAre(SEED, 0xcbeb9f1265cee51f, 0xbdd89aa982704029, 0xcbeb9f1265cee51f, 0x763305bbe7bea536);
  }

  // ---- The names ----

  lemma AcceptStart()
    ensures Start(GO, 12) == 0x763305bbe7bea53a
  {
    StartSeed();
    XorAre(0x763305bbe7bea536, 12, 0x763305bbe7bea536, 12, 0x763305bbe7bea53a);
  }

  lemma AcceptWords(u: string)
    requires u == "accept"
    ensures ShortA(u) == 0x0063006100740070 && ShortB(u) == 0x0065006300650063
  {}

  lemma AcceptEnds()
    ensures Xor(Xor(0xc36a8cc3681c4951, S0), 12) == 0xee5f010fc27031f8
    ensures Xor(0x40a613df1cfb0028, S1) == 0xcb1e584c8ad5ace1
    ensures Mix(GO, 0xee5f010fc27031f8, 0xcb1e584c8ad5ace1) == 0x398e4a5705592219
  {
    XorAre(0xc36a8cc3681c4951, S0, 0xc36a8cc3681c4951, 0x2d358dccaa6c78a5, 0xee5f010fc27031f4);
    XorAre(0xee5f010fc27031f4, 12, 0xee5f010fc27031f4, 12, 0xee5f010fc27031f8);
    XorAre(0x40a613df1cfb0028, S1, 0x40a613df1cfb0028, 0x8bb84b93962eacc9, 0xcb1e584c8ad5ace1);
    MixIs(0xee5f010fc27031f8, 0xcb1e584c8ad5ace1, 0x84afdd6689868af8, 0xbd2197318cdfa8e1, 0x398e4a5705592219);
  }

  lemma AcceptFinish()
    ensures Finish(GO, 0x0063006100740070, 0x0065006300650063, 0x763305bbe7bea53a, 12) == 0x592219
  {
    XorAre(0x0063006100740070, S1, 0x0063006100740070, 0x8bb84b93962eacc9, 0x8bdb4bf2965aacb9);
    XorAre(0x0065006300650063, 0x763305bbe7bea53a, 0x0065006300650063, 0x763305bbe7bea53a, 0x765605d8e7dba559);
    LowHigh(0x8bdb4bf2965aacb9, 0x765605d8e7dba559, 0xc36a8cc3681c4951, 0x40a613df1cfb0028);
    AcceptEnds();
    FinishIs(0x0063006100740070, 0x0065006300650063, 0x763305bbe7bea53a, 12, 0x8bdb4bf2965aacb9, 0x765605d8e7dba559,
             0xee5f010fc27031f8, 0xcb1e584c8ad5ace1, 0x398e4a5705592219);
  }

  lemma AcceptHash(name: Name)
    requires Fold(name) == "accept"
    ensures Hash(name) == 0x592219
  {
    var u := Fold(name);
    AcceptWords(u);
    AcceptStart();
    AcceptFinish();
  }

  lemma UserAgentStart()
    ensures Start(GO, 20) == 0x763305bbe7bea522
  {
    StartSeed();
    XorAre(0x763305bbe7bea536, 20, 0x763305bbe7bea536, 20, 0x763305bbe7bea522);
  }

  lemma UserAgentMixed()
    ensures Mix(GO, Xor(0x0072006500730075, S2), Xor(0x006500670061002d, Xor(0x763305bbe7bea522, S1)))
            == 0x6d247547a3b98b40
  {
    XorAre(0x763305bbe7bea522, S1, 0x763305bbe7bea522, 0x8bb84b93962eacc9, 0xfd8b4e28719009eb);
    XorAre(0x0072006500730075, S2, 0x0072006500730075, 0x4b33a62ed433d4a3, 0x4b41a64bd440d4d6);
    XorAre(0x006500670061002d, 0xfd8b4e28719009eb, 0x006500670061002d, 0xfd8b4e28719009eb, 0xfdee4e4f71f109c6);
    MixIs(0x4b41a64bd440d4d6, 0xfdee4e4f71f109c6, 0x27819a2145162384, 0x4aa5ef66e6afa8c4, 0x6d247547a3b98b40);
  }

  lemma UserAgentWords(u: string)
    requires u == "user-agent"
    ensures Read64(u, 0) == 0x0072006500730075
    ensures Read64(u, 2) == 0x0061002d00720065
    ensures Read64(u, 4) == 0x006500670061002d
    ensures Read64(u, 6) == 0x0074006e00650067
  {}

  lemma UserAgentEnds()
    ensures Xor(Xor(0x5d4382cf21afb234, S0), 20) == 0x70760f038bc3ca85
    ensures Xor(0x3bb77928e08384b5, S1) == 0xb00f32bb76ad287c
    ensures Mix(GO, 0x70760f038bc3ca85, 0xb00f32bb76ad287c) == 0x1be0b8d8cec21178
  {
    XorAre(0x5d4382cf21afb234, S0, 0x5d4382cf21afb234, 0x2d358dccaa6c78a5, 0x70760f038bc3ca91);
    XorAre(0x70760f038bc3ca91, 20, 0x70760f038bc3ca91, 20, 0x70760f038bc3ca85);
    XorAre(0x3bb77928e08384b5, S1, 0x3bb77928e08384b5, 0x8bb84b93962eacc9, 0xb00f32bb76ad287c);
    MixIs(0x70760f038bc3ca85, 0xb00f32bb76ad287c, 0x56b76f5e745be06c, 0x4d57d786ba99f114, 0x1be0b8d8cec21178);
  }

  lemma UserAgentFinish()
    ensures Finish(GO, 0x0061002d00720065, 0x0074006e00650067, 0x6d247547a3b98b40, 20) == 0xc21178
  {
    XorAre(0x0061002d00720065, S1, 0x0061002d00720065, 0x8bb84b93962eacc9, 0x8bd94bbe965cacac);
    XorAre(0x0074006e00650067, 0x6d247547a3b98b40, 0x0074006e00650067, 0x6d247547a3b98b40, 0x6d507529a3dc8b27);
    LowHigh(0x8bd94bbe965cacac, 0x6d507529a3dc8b27, 0x5d4382cf21afb234, 0x3bb77928e08384b5);
    UserAgentEnds();
    FinishIs(0x0061002d00720065, 0x0074006e00650067, 0x6d247547a3b98b40, 20, 0x8bd94bbe965cacac, 0x6d507529a3dc8b27,
             0x70760f038bc3ca85, 0xb00f32bb76ad287c, 0x1be0b8d8cec21178);
  }

  lemma UserAgentHash(name: Name)
    requires Fold(name) == "user-agent"
    ensures Hash(name) == 0xc21178
  {
    var u := Fold(name);
    UserAgentWords(u);
    UserAgentStart();
    UserAgentMixed();
    assert Seeded(GO, u, 0, 0x763305bbe7bea522) == 0x6d247547a3b98b40;
    UserAgentFinish();
  }

  lemma PlatformStart()
    ensures Start(GO, 36) == 0x763305bbe7bea512
  {
    StartSeed();
    XorAre(0x763305bbe7bea536, 36, 0x763305bbe7bea536, 36, 0x763305bbe7bea512);
  }

  lemma PlatformMixed()
    ensures Mix(GO, Xor(0x002d006300650073, S2), Xor(0x0075002d00680063, Xor(0x763305bbe7bea512, S1)))
            == 0x926e3d2d7eac8123
  {
    XorAre(0x763305bbe7bea512, S1, 0x763305bbe7bea512, 0x8bb84b93962eacc9, 0xfd8b4e28719009db);
    XorAre(0x002d006300650073, S2, 0x002d006300650073, 0x4b33a62ed433d4a3, 0x4b1ea64dd456d4d0);
    XorAre(0x0075002d00680063, 0xfd8b4e28719009db, 0x0075002d00680063, 0xfd8b4e28719009db, 0xfdfe4e0571f809b8);
    MixIs(0x4b1ea64dd456d4d0, 0xfdfe4e0571f809b8, 0xd8e9d485a5644580, 0x4a87e9a8dbc8c4a3, 0x926e3d2d7eac8123);
  }

  lemma PlatformMixedAgain()
    ensures Mix(GO, Xor(0x006c0070002d0061, S2), Xor(0x006f006600740061, 0x926e3d2d7eac8123))
            == 0x8e9988aaf8830e6a
  {
    XorAre(0x006c0070002d0061, S2, 0x006c0070002d0061, 0x4b33a62ed433d4a3, 0x4b5fa65ed41ed4c2);
    XorAre(0x006f006600740061, 0x926e3d2d7eac8123, 0x006f006600740061, 0x926e3d2d7eac8123, 0x92013d4b7ed88142);
    MixIs(0x4b5fa65ed41ed4c2, 0x92013d4b7ed88142, 0xa46562e738d89c04, 0x2afcea4dc05b926e, 0x8e9988aaf8830e6a);
  }

  lemma PlatformWords2(u: string)
    requires u == "sec-ch-ua-platform"
    ensures Read64(u, 8) == 0x006c0070002d0061
    ensures Read64(u, 10) == 0x00740061006c0070
  {}

  lemma PlatformWords4(u: string)
    requires u == "sec-ch-ua-platform"
    ensures Read64(u, 12) == 0x006f006600740061
    ensures Read64(u, 14) == 0x006d0072006f0066
  {}

  lemma PlatformWords(u: string)
    requires u == "sec-ch-ua-platform"
    ensures Read64(u, 0) == 0x002d006300650073
    ensures Read64(u, 4) == 0x0075002d00680063
  {}

  lemma PlatformEnds()
    ensures Xor(Xor(0x3145f479231e36ac, S0), 36) == 0x1c7079b589724e2d
    ensures Xor(0x4e10db93f737f972, S1) == 0xc5a89000611955bb
    ensures Mix(GO, 0x1c7079b589724e2d, 0xc5a89000611955bb) == 0x11177d70e8ffbec3
  {
    XorAre(0x3145f479231e36ac, S0, 0x3145f479231e36ac, 0x2d358dccaa6c78a5, 0x1c7079b589724e09);
    XorAre(0x1c7079b589724e09, 36, 0x1c7079b589724e09, 36, 0x1c7079b589724e2d);
    XorAre(0x4e10db93f737f972, S1, 0x4e10db93f737f972, 0x8bb84b93962eacc9, 0xc5a89000611955bb);
    MixIs(0x1c7079b589724e2d, 0xc5a89000611955bb, 0x04e23a0709d90bdf, 0x15f54777e126b51c, 0x11177d70e8ffbec3);
  }

  lemma PlatformFinish()
    ensures Finish(GO, 0x00740061006c0070, 0x006d0072006f0066, 0x8e9988aaf8830e6a, 36) == 0xffbec3
  {
    XorAre(0x00740061006c0070, S1, 0x00740061006c0070, 0x8bb84b93962eacc9, 0x8bcc4bf29642acb9);
    XorAre(0x006d0072006f0066, 0x8e9988aaf8830e6a, 0x006d0072006f0066, 0x8e9988aaf8830e6a, 0x8ef488d8f8ec0e0c);
    LowHigh(0x8bcc4bf29642acb9, 0x8ef488d8f8ec0e0c, 0x3145f479231e36ac, 0x4e10db93f737f972);
    PlatformEnds();
    FinishIs(0x00740061006c0070, 0x006d0072006f0066, 0x8e9988aaf8830e6a, 36, 0x8bcc4bf29642acb9, 0x8ef488d8f8ec0e0c,
             0x1c7079b589724e2d, 0xc5a89000611955bb, 0x11177d70e8ffbec3);
  }

  lemma PlatformHash(name: Name)
    requires Fold(name) == "sec-ch-ua-platform"
    ensures Hash(name) == 0xffbec3
  {
    var u := Fold(name);
    PlatformWords(u);
    PlatformStart();
    PlatformWords4(u);
    PlatformWords2(u);
    PlatformMixed();
    PlatformMixedAgain();
    assert Seeded(GO, u, 0, 0x763305bbe7bea512) == 0x8e9988aaf8830e6a;
    PlatformFinish();
  }

  lemma FullVersionListStart()
    ensures Start(GO, 54) == 0x763305bbe7bea500
  {
    StartSeed();
    XorAre(0x763305bbe7bea536, 54, 0x763305bbe7bea536, 54, 0x763305bbe7bea500);
  }

  lemma FullVersionListLane0()
    ensures Mix(GO, Xor(0x002d006300650073, S0), Xor(0x0075002d00680063, 0x763305bbe7bea500))
            == 0xa25109df3f08efc9
  {
    XorAre(0x002d006300650073, S0, 0x002d006300650073, 0x2d358dccaa6c78a5, 0x2d188dafaa0978d6);
    XorAre(0x0075002d00680063, 0x763305bbe7bea500, 0x0075002d00680063, 0x763305bbe7bea500, 0x76460596e7d6a563);
    MixIs(0x2d188dafaa0978d6, 0x76460596e7d6a563, 0xb684aedef96fa8c2, 0x14d5a701c667470b, 0xa25109df3f08efc9);
  }

  lemma FullVersionListLane1()
    ensures Mix(GO, Xor(0x00750066002d0061, S1), Xor(0x0076002d006c006c, 0x763305bbe7bea500))
            == 0x68a475ecf613a850
  {
    XorAre(0x00750066002d0061, S1, 0x00750066002d0061, 0x8bb84b93962eacc9, 0x8bcd4bf59603aca8);
    XorAre(0x0076002d006c006c, 0x763305bbe7bea500, 0x0076002d006c006c, 0x763305bbe7bea500, 0x76450596e7d2a56c);
    MixIs(0x8bcd4bf59603aca8, 0x76450596e7d2a56c, 0x2832278ae1a51ee0, 0x4096526617b6b6b0, 0x68a475ecf613a850);
  }

  lemma FullVersionListLane2()
    ensures Mix(GO, Xor(0x0069007300720065, S2), Xor(0x006c002d006e006f, 0x763305bbe7bea500))
            == 0xf356c2052ccf7cc2
  {
    XorAre(0x0069007300720065, S2, 0x0069007300720065, 0x4b33a62ed433d4a3, 0x4b5aa65dd441d4c6);
    XorAre(0x006c002d006e006f, 0x763305bbe7bea500, 0x006c002d006e006f, 0x763305bbe7bea500, 0x765f0596e7d0a56f);
    MixIs(0x4b5aa65dd441d4c6, 0x765f0596e7d0a56f, 0xd18102fd018edfda, 0x22d7c0f82d41a318, 0xf356c2052ccf7cc2);
  }

  lemma FullVersionListCombined()
    ensures Xor(0xa25109df3f08efc9, Xor(0x68a475ecf613a850, 0xf356c2052ccf7cc2))
            == 0x39a3be36e5d43b5b
  {
    XorAre(0x68a475ecf613a850, 0xf356c2052ccf7cc2, 0x68a475ecf613a850, 0xf356c2052ccf7cc2, 0x9bf2b7e9dadcd492);
    XorAre(0xa25109df3f08efc9, 0x9bf2b7e9dadcd492, 0xa25109df3f08efc9, 0x9bf2b7e9dadcd492, 0x39a3be36e5d43b5b);
  }

  lemma FullVersionListWords2(u: string)
    requires u == "sec-ch-ua-full-version-list"
    ensures Read64(u, 8) == 0x00750066002d0061
    ensures Read64(u, 12) == 0x0076002d006c006c
  {}

  lemma FullVersionListWords4(u: string)
    requires u == "sec-ch-ua-full-version-list"
    ensures Read64(u, 16) == 0x0069007300720065
    ensures Read64(u, 19) == 0x002d006e006f0069
  {}

  lemma FullVersionListWords6(u: string)
    requires u == "sec-ch-ua-full-version-list"
    ensures Read64(u, 20) == 0x006c002d006e006f
    ensures Read64(u, 23) == 0x007400730069006c
  {}

  lemma FullVersionListWords(u: string)
    requires u == "sec-ch-ua-full-version-list"
    ensures Read64(u, 0) == 0x002d006300650073
    ensures Read64(u, 4) == 0x0075002d00680063
  {}

  lemma FullVersionListEnds()
    ensures Xor(Xor(0x2f69ba23fd04f660, S0), 54) == 0x025c37ef57688ef3
    ensures Xor(0x1f89e00d33553bf2, S1) == 0x9431ab9ea57b973b
    ensures Mix(GO, 0x025c37ef57688ef3, 0x9431ab9ea57b973b) == 0xb7463a833c0d6182
  {
    XorAre(0x2f69ba23fd04f660, S0, 0x2f69ba23fd04f660, 0x2d358dccaa6c78a5, 0x025c37ef57688ec5);
    XorAre(0x025c37ef57688ec5, 54, 0x025c37ef57688ec5, 54, 0x025c37ef57688ef3);
    XorAre(0x1f89e00d33553bf2, S1, 0x1f89e00d33553bf2, 0x8bb84b93962eacc9, 0x9431ab9ea57b973b);
    MixIs(0x025c37ef57688ef3, 0x9431ab9ea57b973b, 0xb61bff111f2b4701, 0x015dc59223262683, 0xb7463a833c0d6182);
  }

  lemma FullVersionListFinish()
    ensures Finish(GO, 0x002d006e006f0069, 0x007400730069006c, 0x39a3be36e5d43b5b, 54) == 0x0d6182
  {
    XorAre(0x002d006e006f0069, S1, 0x002d006e006f0069, 0x8bb84b93962eacc9, 0x8b954bfd9641aca0);
    XorAre(0x007400730069006c, 0x39a3be36e5d43b5b, 0x007400730069006c, 0x39a3be36e5d43b5b, 0x39d7be45e5bd3b37);
    LowHigh(0x8b954bfd9641aca0, 0x39d7be45e5bd3b37, 0x2f69ba23fd04f660, 0x1f89e00d33553bf2);
    FullVersionListEnds();
    FinishIs(0x002d006e006f0069, 0x007400730069006c, 0x39a3be36e5d43b5b, 54, 0x8b954bfd9641aca0, 0x39d7be45e5bd3b37,
             0x025c37ef57688ef3, 0x9431ab9ea57b973b, 0xb7463a833c0d6182);
  }

  lemma FullVersionListHash(name: Name)
    requires Fold(name) == "sec-ch-ua-full-version-list"
    ensures Hash(name) == 0x0d6182
  {
    var u := Fold(name);
    FullVersionListWords(u);
    FullVersionListStart();
    FullVersionListWords6(u);
    FullVersionListWords4(u);
    FullVersionListWords2(u);
    FullVersionListLane0();
    FullVersionListLane1();
    FullVersionListLane2();
    FullVersionListCombined();
    assert Blocks(GO, u, 0, 0x763305bbe7bea500) == Lanes(0x763305bbe7bea500, 0x763305bbe7bea500, 0x763305bbe7bea500);
    assert Blocks(GO, u, 24, 0x763305bbe7bea500)
           == Lanes(0xa25109df3f08efc9, 0x68a475ecf613a850, 0xf356c2052ccf7cc2);
    assert WholeBlocks(27) == 24;
    assert Seeded(GO, u, 24, 0x763305bbe7bea500) == 0x39a3be36e5d43b5b;
    FullVersionListFinish();
  }

  // ---- A layout ----

  lemma RestIs(q: nat, r: nat, d: nat)
    requires r < d
    ensures Rest(q * d + r, d) == r
  {
    if q > 0 {
      RestIs(q - 1, r, d);
      assert q * d + r - d == (q - 1) * d + r;
    }
  }

  lemma FirstBuckets()
    ensures Bucket(0x592219, 0, 8) == 1 && Bucket(0xc21178, 0, 8) == 0
  {
    RestIs(0xb2443, 1, 8);
    RestIs(0x18422f, 0, 8);
  }

  lemma KeptOne(slots: Slots, n: nat)
    requires n < |slots|
    ensures Kept(slots, n + 1) == if slots[n] == "" then Kept(slots, n) else Kept(slots, n) + [slots[n]]
  {
    assert Kept(slots, n) + [] == Kept(slots, n);
  }

  /** A table with nothing but in its first two buckets. */
  lemma KeptTwo(slots: Slots, a: Name, b: Name)
    requires |slots| == 8 && slots[0] == a && slots[1] == b && forall i :: 2 <= i < 8 ==> slots[i] == ""
    ensures Kept(slots, 8) == (if a == "" then [] else [a]) + (if b == "" then [] else [b])
  {
    KeptOne(slots, 0);
    KeptOne(slots, 1);
    KeptOne(slots, 2);
    KeptOne(slots, 3);
    KeptOne(slots, 4);
    KeptOne(slots, 5);
    KeptOne(slots, 6);
    KeptOne(slots, 7);
  }

  lemma InsertsAt(slots: Slots, name: Name, b: nat, hash: HashFunction)
    requires |slots| == 8 && name != "" && b < 8 && slots[b] == "" && Bucket(hash(name), 0, 8) == b
    requires 2 * Count(slots[b := name]) < 8
    ensures Insert(slots, name, hash) == slots[b := name]
  {}

  lemma TwoNames(a: Name, b: Name, hash: HashFunction)
    requires a != "" && b != "" && Bucket(hash(a), 0, 8) == 1 && Bucket(hash(b), 0, 8) == 0
    ensures Layout([a, b], hash) == [b, a]
  {
    var names := [a, b];
    var one := Empty(8)[1 := a];
    var two := one[0 := b];
    KeptTwo(one, "", a);
    KeptTwo(two, b, a);
    InsertsAt(Empty(8), a, 1, hash);
    InsertsAt(one, b, 0, hash);
    assert Fill(names, 0, hash) == [];
    assert Fill(names, 1, hash) == one;
    assert Fill(names, 2, hash) == two;
  }

  /** In any spelling: of these two, the one the map gets last comes first. */
  lemma UserAgentBeforeAccept(accept: Name, agent: Name)
    requires Fold(accept) == "accept" && Fold(agent) == "user-agent"
    ensures Layout([accept, agent], Hash) == [agent, accept]
  {
    AcceptHash(accept);
    UserAgentHash(agent);
    FirstBuckets();
    assert |accept| == 6 && |agent| == 10;
    TwoNames(accept, agent, Hash);
  }

}
