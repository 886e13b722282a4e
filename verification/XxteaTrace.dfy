/** The encryption in the known answer of bridges/mqtt-go/wire_test.go, round by round. */
module XxteaTrace {
  import opened Octets
  import opened Xxtea

  /** The key words as the mixing uses them in a round: 0 to 3 in an order that the round's phase decides. */
  lemma KeyWords(sum: u32)
    ensures sum / 4 % 4 == 0 ==>
              KeyIndex(0, Phase(sum)) == 0 && KeyIndex(1, Phase(sum)) == 1 && KeyIndex(2, Phase(sum)) == 2
    ensures sum / 4 % 4 == 1 ==>
              KeyIndex(0, Phase(sum)) == 1 && KeyIndex(1, Phase(sum)) == 0 && KeyIndex(2, Phase(sum)) == 3
    ensures sum / 4 % 4 == 2 ==>
              KeyIndex(0, Phase(sum)) == 2 && KeyIndex(1, Phase(sum)) == 3 && KeyIndex(2, Phase(sum)) == 0
    ensures sum / 4 % 4 == 3 ==>
              KeyIndex(0, Phase(sum)) == 3 && KeyIndex(1, Phase(sum)) == 2 && KeyIndex(2, Phase(sum)) == 1
  {}

  /** One round on three words. */
  lemma Turn(w: seq<u32>, key: seq<u32>, r: nat, sum: u32, k0: u32, k1: u32, k2: u32,
             a: u32, b: u32, c: u32, a': u32, b': u32, c': u32, x: u32, y: u32, z: u32)
    requires |w| == 3 && |key| == 8 && Rounds(w, r, key) == [a, b, c] && Sum(r + 1) == sum
    requires key[KeyIndex(0, Phase(sum))] == k0 && key[KeyIndex(1, Phase(sum))] == k1
    requires key[KeyIndex(2, Phase(sum))] == k2
    requires Mixed(c, b, sum, k0) == x && Mixed(a', c, sum, k1) == y && Mixed(b', a', sum, k2) == z
    requires Plus(a, x) == a' && Plus(b, y) == b' && Plus(c, z) == c'
    ensures Rounds(w, r + 1, key) == [a', b', c']
  {
    hide Mixed, Plus, Sum, KeyIndex, Phase;
    var v := [a, b, c];
    assert Forward(v, 0, sum, key) == [a, b, c];
    assert Forward(v, 1, sum, key) == [a', b, c];
    assert Forward(v, 2, sum, key) == [a', b', c];
    assert Forward(v, 3, sum, key) == [a', b', c'];
  }

  const KEY: seq<u32> := [0x32BD2FF5, 0x6FB8B3B2, 0xC4F68EF8, 0x85826290,
                         0x15AF82F4, 0x5429CBDD, 0xF5BC941F, 0xC7F6A326]

  const PLAIN: seq<u32> := [0x85952B7E, 0x6C6C6568, 0x0000006F]

  const CIPHER: seq<u32> := [0x73D1766F, 0x7A2A6550, 0x5CD07DA6]

  lemma Mixes4()
    ensures Mixed(0x0000006F, 0x6C6C6568, 0x9E3779B9, 0xC4F68EF8) == 0x086E8B68
    ensures Mixed(0x8E03B6E6, 0x0000006F, 0x9E3779B9, 0x85826290) == 0x4D12C434
    ensures Mixed(0xB97F299C, 0x8E03B6E6, 0x9E3779B9, 0x32BD2FF5) == 0x580EC438
    ensures Mixed(0x580EC4A7, 0xB97F299C, 0x3C6EF372, 0x32BD2FF5) == 0x90C5B9D8
    ensures Mixed(0x1EC970BE, 0x580EC4A7, 0x3C6EF372, 0x6FB8B3B2) == 0x9DB5D66C
    ensures Mixed(0x57350008, 0x1EC970BE, 0x3C6EF372, 0xC4F68EF8) == 0x5C4E8B33
    ensures Mixed(0xB45D4FDA, 0x57350008, 0xDAA66D2B, 0xC4F68EF8) == 0x569669BA
    ensures Mixed(0x755FDA78, 0xB45D4FDA, 0xDAA66D2B, 0x85826290) == 0x498D0BEF
    ensures Mixed(0xA0C20BF7, 0x755FDA78, 0xDAA66D2B, 0x32BD2FF5) == 0x917C66AB
    ensures Mixed(0x45D9B685, 0xA0C20BF7, 0x78DDE6E4, 0x6FB8B3B2) == 0xC82AF9DC
    ensures Mixed(0x3D8AD454, 0x45D9B685, 0x78DDE6E4, 0x32BD2FF5) == 0xAA9D4C44
    ensures Mixed(0x4B5F583B, 0x3D8AD454, 0x78DDE6E4, 0x85826290) == 0xB282E990
  {}

  lemma To4()
    ensures Rounds(PLAIN, 4, KEY) == [0x3D8AD454, 0x4B5F583B, 0xF85CA015]
  {
    hide Rounds, KeyIndex, Phase, Mixed;
    Mixes4();
    assert Rounds(PLAIN, 0, KEY) == PLAIN by { NoRounds(); }
    KeyWords(0x9E3779B9);
    Turn(PLAIN, KEY, 0, 0x9E3779B9, 0xC4F68EF8, 0x85826290, 0x32BD2FF5,
         0x85952B7E, 0x6C6C6568, 0x0000006F,
         0x8E03B6E6, 0xB97F299C, 0x580EC4A7, 0x086E8B68, 0x4D12C434, 0x580EC438);
    KeyWords(0x3C6EF372);
    Turn(PLAIN, KEY, 1, 0x3C6EF372, 0x32BD2FF5, 0x6FB8B3B2, 0xC4F68EF8,
         0x8E03B6E6, 0xB97F299C, 0x580EC4A7,
         0x1EC970BE, 0x57350008, 0xB45D4FDA, 0x90C5B9D8, 0x9DB5D66C, 0x5C4E8B33);
    KeyWords(0xDAA66D2B);
    Turn(PLAIN, KEY, 2, 0xDAA66D2B, 0xC4F68EF8, 0x85826290, 0x32BD2FF5,
         0x1EC970BE, 0x57350008, 0xB45D4FDA,
         0x755FDA78, 0xA0C20BF7, 0x45D9B685, 0x569669BA, 0x498D0BEF, 0x917C66AB);
    KeyWords(0x78DDE6E4);
    Turn(PLAIN, KEY, 3, 0x78DDE6E4, 0x6FB8B3B2, 0x32BD2FF5, 0x85826290,
         0x755FDA78, 0xA0C20BF7, 0x45D9B685,
         0x3D8AD454, 0x4B5F583B, 0xF85CA015, 0xC82AF9DC, 0xAA9D4C44, 0xB282E990);
  }

  lemma Mixes8()
    ensures Mixed(0xF85CA015, 0x4B5F583B, 0x1715609D, 0x85826290) == 0x6D498B68
    ensures Mixed(0xAAD45FBC, 0xF85CA015, 0x1715609D, 0xC4F68EF8) == 0xCB1E03A7
    ensures Mixed(0x167D5BE2, 0xAAD45FBC, 0x1715609D, 0x6FB8B3B2) == 0x29F6ED77
    ensures Mixed(0x22538D8C, 0x167D5BE2, 0xB54CDA56, 0x6FB8B3B2) == 0x71C3D852
    ensures Mixed(0x1C98380E, 0x22538D8C, 0xB54CDA56, 0x32BD2FF5) == 0x92308694
    ensures Mixed(0xA8ADE276, 0x1C98380E, 0xB54CDA56, 0x85826290) == 0xD776CCB2
    ensures Mixed(0xF9CA5A3E, 0xA8ADE276, 0x5384540F, 0x85826290) == 0x58581590
    ensures Mixed(0x74F04D9E, 0xF9CA5A3E, 0x5384540F, 0xC4F68EF8) == 0x6E98ACAC
    ensures Mixed(0x17468F22, 0x74F04D9E, 0x5384540F, 0x6FB8B3B2) == 0xEE03ABB5
    ensures Mixed(0xE7CE05F3, 0x17468F22, 0xF1BBCDC8, 0xC4F68EF8) == 0xD219168E
    ensures Mixed(0x4709642C, 0xE7CE05F3, 0xF1BBCDC8, 0x85826290) == 0xD06F119C
    ensures Mixed(0xE7B5A0BE, 0x4709642C, 0xF1BBCDC8, 0x32BD2FF5) == 0x05685C35
  {}

  lemma To8()
    requires Rounds(PLAIN, 4, KEY) == [0x3D8AD454, 0x4B5F583B, 0xF85CA015]
    ensures Rounds(PLAIN, 8, KEY) == [0x4709642C, 0xE7B5A0BE, 0xED366228]
  {
    hide Rounds, KeyIndex, Phase, Mixed;
    Mixes8();
    KeyWords(0x1715609D);
    Turn(PLAIN, KEY, 4, 0x1715609D, 0x85826290, 0xC4F68EF8, 0x6FB8B3B2,
         0x3D8AD454, 0x4B5F583B, 0xF85CA015,
         0xAAD45FBC, 0x167D5BE2, 0x22538D8C, 0x6D498B68, 0xCB1E03A7, 0x29F6ED77);
    KeyWords(0xB54CDA56);
    Turn(PLAIN, KEY, 5, 0xB54CDA56, 0x6FB8B3B2, 0x32BD2FF5, 0x85826290,
         0xAAD45FBC, 0x167D5BE2, 0x22538D8C,
         0x1C98380E, 0xA8ADE276, 0xF9CA5A3E, 0x71C3D852, 0x92308694, 0xD776CCB2);
    KeyWords(0x5384540F);
    Turn(PLAIN, KEY, 6, 0x5384540F, 0x85826290, 0xC4F68EF8, 0x6FB8B3B2,
         0x1C98380E, 0xA8ADE276, 0xF9CA5A3E,
         0x74F04D9E, 0x17468F22, 0xE7CE05F3, 0x58581590, 0x6E98ACAC, 0xEE03ABB5);
    KeyWords(0xF1BBCDC8);
    Turn(PLAIN, KEY, 7, 0xF1BBCDC8, 0xC4F68EF8, 0x85826290, 0x32BD2FF5,
         0x74F04D9E, 0x17468F22, 0xE7CE05F3,
         0x4709642C, 0xE7B5A0BE, 0xED366228, 0xD219168E, 0xD06F119C, 0x05685C35);
  }

  lemma Mixes12()
    ensures Mixed(0xED366228, 0xE7B5A0BE, 0x8FF34781, 0x32BD2FF5) == 0x2E9DFD9C
    ensures Mixed(0x75A761C8, 0xED366228, 0x8FF34781, 0x6FB8B3B2) == 0x83A17C50
    ensures Mixed(0x6B571D0E, 0x75A761C8, 0x8FF34781, 0xC4F68EF8) == 0x3879C69E
    ensures Mixed(0x25B028C6, 0x6B571D0E, 0x2E2AC13A, 0xC4F68EF8) == 0x241EE74D
    ensures Mixed(0x99C64915, 0x25B028C6, 0x2E2AC13A, 0x85826290) == 0x0D3E3019
    ensures Mixed(0x78954D27, 0x99C64915, 0x2E2AC13A, 0x32BD2FF5) == 0xFD5D428E
    ensures Mixed(0x230D6B54, 0x78954D27, 0xCC623AF3, 0x32BD2FF5) == 0xE5B6C0DF
    ensures Mixed(0x7F7D09F4, 0x230D6B54, 0xCC623AF3, 0x6FB8B3B2) == 0x834A7CA4
    ensures Mixed(0xFBDFC9CB, 0x7F7D09F4, 0xCC623AF3, 0xC4F68EF8) == 0x5E766D16
    ensures Mixed(0x8183D86A, 0xFBDFC9CB, 0x6A99B4AC, 0x85826290) == 0x67F181E9
    ensures Mixed(0xE76E8BDD, 0x8183D86A, 0x6A99B4AC, 0xC4F68EF8) == 0x66BEAD38
    ensures Mixed(0x629E7703, 0xE76E8BDD, 0x6A99B4AC, 0x6FB8B3B2) == 0x48A77A35
  {}

  lemma To12()
    requires Rounds(PLAIN, 8, KEY) == [0x4709642C, 0xE7B5A0BE, 0xED366228]
    ensures Rounds(PLAIN, 12, KEY) == [0xE76E8BDD, 0x629E7703, 0xCA2B529F]
  {
    hide Rounds, KeyIndex, Phase, Mixed;
    Mixes12();
    KeyWords(0x8FF34781);
    Turn(PLAIN, KEY, 8, 0x8FF34781, 0x32BD2FF5, 0x6FB8B3B2, 0xC4F68EF8,
         0x4709642C, 0xE7B5A0BE, 0xED366228,
         0x75A761C8, 0x6B571D0E, 0x25B028C6, 0x2E9DFD9C, 0x83A17C50, 0x3879C69E);
    KeyWords(0x2E2AC13A);
    Turn(PLAIN, KEY, 9, 0x2E2AC13A, 0xC4F68EF8, 0x85826290, 0x32BD2FF5,
         0x75A761C8, 0x6B571D0E, 0x25B028C6,
         0x99C64915, 0x78954D27, 0x230D6B54, 0x241EE74D, 0x0D3E3019, 0xFD5D428E);
    KeyWords(0xCC623AF3);
    Turn(PLAIN, KEY, 10, 0xCC623AF3, 0x32BD2FF5, 0x6FB8B3B2, 0xC4F68EF8,
         0x99C64915, 0x78954D27, 0x230D6B54,
         0x7F7D09F4, 0xFBDFC9CB, 0x8183D86A, 0xE5B6C0DF, 0x834A7CA4, 0x5E766D16);
    KeyWords(0x6A99B4AC);
    Turn(PLAIN, KEY, 11, 0x6A99B4AC, 0x85826290, 0xC4F68EF8, 0x6FB8B3B2,
         0x7F7D09F4, 0xFBDFC9CB, 0x8183D86A,
         0xE76E8BDD, 0x629E7703, 0xCA2B529F, 0x67F181E9, 0x66BEAD38, 0x48A77A35);
  }

  lemma Mixes16()
    ensures Mixed(0xCA2B529F, 0x629E7703, 0x08D12E65, 0x6FB8B3B2) == 0x34EC573B
    ensures Mixed(0x1C5AE318, 0xCA2B529F, 0x08D12E65, 0x32BD2FF5) == 0xF4D8B0D0
    ensures Mixed(0x577727D3, 0x1C5AE318, 0x08D12E65, 0x85826290) == 0x0F484471
    ensures Mixed(0xD9739710, 0x577727D3, 0xA708A81E, 0x85826290) == 0xB59F1CA3
    ensures Mixed(0xD1F9FFBB, 0xD9739710, 0xA708A81E, 0xC4F68EF8) == 0xF479AD5E
    ensures Mixed(0x4BF0D531, 0xD1F9FFBB, 0xA708A81E, 0x6FB8B3B2) == 0x71D35B04
    ensures Mixed(0x4B46F214, 0x4BF0D531, 0x454021D7, 0x6FB8B3B2) == 0xD905A9B6
    ensures Mixed(0xAAFFA971, 0x4B46F214, 0x454021D7, 0x32BD2FF5) == 0x6897242A
    ensures Mixed(0xB487F95B, 0xAAFFA971, 0x454021D7, 0x85826290) == 0x2BBFDEDD
    ensures Mixed(0x7706D0F1, 0xB487F95B, 0xE3779B90, 0x32BD2FF5) == 0xA509A5E9
    ensures Mixed(0x50094F5A, 0x7706D0F1, 0xE3779B90, 0x6FB8B3B2) == 0x392C7135
    ensures Mixed(0xEDB46A90, 0x50094F5A, 0xE3779B90, 0xC4F68EF8) == 0xC451A615
  {}

  lemma To16()
    requires Rounds(PLAIN, 12, KEY) == [0xE76E8BDD, 0x629E7703, 0xCA2B529F]
    ensures Rounds(PLAIN, 16, KEY) == [0x50094F5A, 0xEDB46A90, 0x3B587706]
  {
    hide Rounds, KeyIndex, Phase, Mixed;
    Mixes16();
    KeyWords(0x08D12E65);
    Turn(PLAIN, KEY, 12, 0x08D12E65, 0x6FB8B3B2, 0x32BD2FF5, 0x85826290,
         0xE76E8BDD, 0x629E7703, 0xCA2B529F,
         0x1C5AE318, 0x577727D3, 0xD9739710, 0x34EC573B, 0xF4D8B0D0, 0x0F484471);
    KeyWords(0xA708A81E);
    Turn(PLAIN, KEY, 13, 0xA708A81E, 0x85826290, 0xC4F68EF8, 0x6FB8B3B2,
         0x1C5AE318, 0x577727D3, 0xD9739710,
         0xD1F9FFBB, 0x4BF0D531, 0x4B46F214, 0xB59F1CA3, 0xF479AD5E, 0x71D35B04);
    KeyWords(0x454021D7);
    Turn(PLAIN, KEY, 14, 0x454021D7, 0x6FB8B3B2, 0x32BD2FF5, 0x85826290,
         0xD1F9FFBB, 0x4BF0D531, 0x4B46F214,
         0xAAFFA971, 0xB487F95B, 0x7706D0F1, 0xD905A9B6, 0x6897242A, 0x2BBFDEDD);
    KeyWords(0xE3779B90);
    Turn(PLAIN, KEY, 15, 0xE3779B90, 0x32BD2FF5, 0x6FB8B3B2, 0xC4F68EF8,
         0xAAFFA971, 0xB487F95B, 0x7706D0F1,
         0x50094F5A, 0xEDB46A90, 0x3B587706, 0xA509A5E9, 0x392C7135, 0xC451A615);
  }

  lemma Mixes20()
    ensures Mixed(0x3B587706, 0xEDB46A90, 0x81AF1549, 0xC4F68EF8) == 0x34F71EFD
    ensures Mixed(0x85006E57, 0x3B587706, 0x81AF1549, 0x85826290) == 0xFBCEA5EC
    ensures Mixed(0xE983107C, 0x85006E57, 0x81AF1549, 0x32BD2FF5) == 0x4433114E
    ensures Mixed(0x7F8B8854, 0xE983107C, 0x1FE68F02, 0x32BD2FF5) == 0xC8E5421E
    ensures Mixed(0x4DE5B075, 0x7F8B8854, 0x1FE68F02, 0x6FB8B3B2) == 0x4F218830
    ensures Mixed(0x38A498AC, 0x4DE5B075, 0x1FE68F02, 0xC4F68EF8) == 0xF41C7414
    ensures Mixed(0x73A7FC68, 0x38A498AC, 0xBE1E08BB, 0xC4F68EF8) == 0x2076B04F
    ensures Mixed(0x6E5C60C4, 0x73A7FC68, 0xBE1E08BB, 0x85826290) == 0x0037F154
    ensures Mixed(0x38DC8A00, 0x6E5C60C4, 0xBE1E08BB, 0x32BD2FF5) == 0xE21E9D2C
    ensures Mixed(0x55C69994, 0x38DC8A00, 0x5C558274, 0x6FB8B3B2) == 0xA2491656
    ensures Mixed(0x10A5771A, 0x55C69994, 0x5C558274, 0x32BD2FF5) == 0x732584B5
    ensures Mixed(0xAC020EB5, 0x10A5771A, 0x5C558274, 0x85826290) == 0x7C5B7043
  {}

  lemma To20()
    requires Rounds(PLAIN, 16, KEY) == [0x50094F5A, 0xEDB46A90, 0x3B587706]
    ensures Rounds(PLAIN, 20, KEY) == [0x10A5771A, 0xAC020EB5, 0xD22209D7]
  {
    hide Rounds, KeyIndex, Phase, Mixed;
    Mixes20();
    KeyWords(0x81AF1549);
    Turn(PLAIN, KEY, 16, 0x81AF1549, 0xC4F68EF8, 0x85826290, 0x32BD2FF5,
         0x50094F5A, 0xEDB46A90, 0x3B587706,
         0x85006E57, 0xE983107C, 0x7F8B8854, 0x34F71EFD, 0xFBCEA5EC, 0x4433114E);
    KeyWords(0x1FE68F02);
    Turn(PLAIN, KEY, 17, 0x1FE68F02, 0x32BD2FF5, 0x6FB8B3B2, 0xC4F68EF8,
         0x85006E57, 0xE983107C, 0x7F8B8854,
         0x4DE5B075, 0x38A498AC, 0x73A7FC68, 0xC8E5421E, 0x4F218830, 0xF41C7414);
    KeyWords(0xBE1E08BB);
    Turn(PLAIN, KEY, 18, 0xBE1E08BB, 0xC4F68EF8, 0x85826290, 0x32BD2FF5,
         0x4DE5B075, 0x38A498AC, 0x73A7FC68,
         0x6E5C60C4, 0x38DC8A00, 0x55C69994, 0x2076B04F, 0x0037F154, 0xE21E9D2C);
    KeyWords(0x5C558274);
    Turn(PLAIN, KEY, 19, 0x5C558274, 0x6FB8B3B2, 0x32BD2FF5, 0x85826290,
         0x6E5C60C4, 0x38DC8A00, 0x55C69994,
         0x10A5771A, 0xAC020EB5, 0xD22209D7, 0xA2491656, 0x732584B5, 0x7C5B7043);
  }

  lemma Mixes23()
    ensures Mixed(0xD22209D7, 0xAC020EB5, 0xFA8CFC2D, 0x85826290) == 0x40155A9F
    ensures Mixed(0x50BAD1B9, 0xD22209D7, 0xFA8CFC2D, 0xC4F68EF8) == 0xE70C1940
    ensures Mixed(0x930E27F5, 0x50BAD1B9, 0xFA8CFC2D, 0x6FB8B3B2) == 0x27849C99
    ensures Mixed(0xF9A6A670, 0x930E27F5, 0x98C475E6, 0x6FB8B3B2) == 0x75E92930
    ensures Mixed(0xC6A3FAE9, 0xF9A6A670, 0x98C475E6, 0x32BD2FF5) == 0x003AA8C7
    ensures Mixed(0x9348D0BC, 0xC6A3FAE9, 0x98C475E6, 0x85826290) == 0x3F5D6085
    ensures Mixed(0x390406F5, 0x9348D0BC, 0x36FBEF9F, 0x85826290) == 0xAD2D7B86
    ensures Mixed(0x73D1766F, 0x390406F5, 0x36FBEF9F, 0xC4F68EF8) == 0xE6E19494
    ensures Mixed(0x7A2A6550, 0x73D1766F, 0x36FBEF9F, 0x6FB8B3B2) == 0x23CC76B1
  {}

  lemma To23()
    requires Rounds(PLAIN, 20, KEY) == [0x10A5771A, 0xAC020EB5, 0xD22209D7]
    ensures Rounds(PLAIN, 23, KEY) == [0x73D1766F, 0x7A2A6550, 0x5CD07DA6]
  {
    hide Rounds, KeyIndex, Phase, Mixed;
    Mixes23();
    KeyWords(0xFA8CFC2D);
    Turn(PLAIN, KEY, 20, 0xFA8CFC2D, 0x85826290, 0xC4F68EF8, 0x6FB8B3B2,
         0x10A5771A, 0xAC020EB5, 0xD22209D7,
         0x50BAD1B9, 0x930E27F5, 0xF9A6A670, 0x40155A9F, 0xE70C1940, 0x27849C99);
    KeyWords(0x98C475E6);
    Turn(PLAIN, KEY, 21, 0x98C475E6, 0x6FB8B3B2, 0x32BD2FF5, 0x85826290,
         0x50BAD1B9, 0x930E27F5, 0xF9A6A670,
         0xC6A3FAE9, 0x9348D0BC, 0x390406F5, 0x75E92930, 0x003AA8C7, 0x3F5D6085);
    KeyWords(0x36FBEF9F);
    Turn(PLAIN, KEY, 22, 0x36FBEF9F, 0x85826290, 0xC4F68EF8, 0x6FB8B3B2,
         0xC6A3FAE9, 0x9348D0BC, 0x390406F5,
         0x73D1766F, 0x7A2A6550, 0x5CD07DA6, 0xAD2D7B86, 0xE6E19494, 0x23CC76B1);
  }

  lemma NoRounds()
    ensures Rounds(PLAIN, 0, KEY) == PLAIN
  {}

  /** Three words take 23 rounds. */
  lemma KnownCipher()
    ensures Encrypted(PLAIN, KEY) == CIPHER
  {
    hide Rounds;
    To4();
    To8();
    To12();
    To16();
    To20();
    To23();
  }
}
