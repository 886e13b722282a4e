/** The schema whose SCHEMA_ID bridges/mqtt-go/schema_test.go (lines 37-57) locks to the Python emitter's value. */
module SchemaExample {
  import opened Octets
  import opened Schemas
  import opened CanonicalSchema
  import opened Crc32
  import opened CrcExamples
  import SchemaOrder

  const FIELDS: seq<SchemaField> := [
    SchemaField("room", StringType, 1, false),
    SchemaField("temperature", FloatType, 2, false),
    SchemaField("blob", BytesType, 3, false),
    SchemaField("tags", StringType, 4, true)
  ]

  const LINE1: Text := "1:string:room"
  const LINE2: Text := "2:float:temperature"
  const LINE3: Text := "3:bytes:blob"
  const LINE4: Text := "4:repeated string:tags"

  lemma TheLines()
    ensures Lines(FIELDS) == [LINE1, LINE2, LINE3, LINE4]
  {
    hide Line;
    Line1();
    Line2();
    Line3();
    Line4();
  }

  lemma Line1()
    ensures Line(SchemaField("room", StringType, 1, false)) == LINE1
  {}

  lemma Line2()
    ensures Line(SchemaField("temperature", FloatType, 2, false)) == LINE2
  {}

  lemma Line3()
    ensures Line(SchemaField("blob", BytesType, 3, false)) == LINE3
  {}

  lemma Line4()
    ensures Line(SchemaField("tags", StringType, 4, true)) == LINE4
  {}

  lemma Joined()
    ensures Join([LINE1, LINE2, LINE3, LINE4]) == LINE1 + "\n" + (LINE2 + "\n" + (LINE3 + "\n" + LINE4))
  {
    assert [LINE1, LINE2, LINE3, LINE4][1..] == [LINE2, LINE3, LINE4];
    assert [LINE2, LINE3, LINE4][1..] == [LINE3, LINE4] && [LINE3, LINE4][1..] == [LINE4];
    assert Join([LINE4]) == LINE4;
    assert Join([LINE3, LINE4]) == LINE3 + "\n" + LINE4;
    assert Join([LINE2, LINE3, LINE4]) == LINE2 + "\n" + (LINE3 + "\n" + LINE4);
  }

  /** Its canonical string. */
  lemma KnownCanonical()
    ensures Canonical(FIELDS) == LINE1 + "\n" + (LINE2 + "\n" + (LINE3 + "\n" + LINE4))
  {
    hide Line, Lines, Sort, Join;
    SchemaOrder.SmallTagsInOrder(FIELDS);
    SchemaOrder.TagOrderIsLineOrderIff(FIELDS);
    TheLines();
    Joined();
  }

  lemma BytesOf(a: Text, b: Text)
    ensures TextBytes(a + b) == TextBytes(a) + TextBytes(b)
  {}

  lemma Feed1_0()
    ensures Register(0xFFFFFFFF, [49, 58, 115, 116, 114, 105]) == 0x699F2705
  {
    hide Register;
    Fed(0xFFFFFFFF, [49, 58, 115, 116, 114, 105], [58, 115, 116, 114, 105], 0x7C231048);
    Fed(0x7C231048, [58, 115, 116, 114, 105], [115, 116, 114, 105], 0xBE773300);
    Fed(0xBE773300, [115, 116, 114, 105], [116, 114, 105], 0xC9B257B5);
    Fed(0xC9B257B5, [116, 114, 105], [114, 105], 0xECAA4071);
    Fed(0xECAA4071, [114, 105], [105], 0x99E5FBFA);
    Fed(0x99E5FBFA, [105], [], 0x699F2705);
    NothingFed(0x699F2705);
  }

  lemma Feed1_1()
    ensures Register(0x699F2705, [110, 103, 58, 114, 111, 111]) == 0x6F6E09D7
  {
    hide Register;
    Fed(0x699F2705, [110, 103, 58, 114, 111, 111], [103, 58, 114, 111, 111], 0xDA0927F7);
    Fed(0xDA0927F7, [103, 58, 114, 111, 111], [58, 114, 111, 111], 0xF0D59A63);
    Fed(0xF0D59A63, [58, 114, 111, 111], [114, 111, 111], 0x12473CCA);
    Fed(0x12473CCA, [114, 111, 111], [111, 111], 0xC5A87C82);
    Fed(0xC5A87C82, [111, 111], [111], 0xDE7E36B9);
    Fed(0xDE7E36B9, [111], [], 0x6F6E09D7);
    NothingFed(0x6F6E09D7);
  }

  lemma Feed1_2()
    ensures Register(0x6F6E09D7, [109, 10]) == 0x872378E6
  {
    hide Register;
    Fed(0x6F6E09D7, [109, 10], [10], 0x2BDB349B);
    Fed(0x2BDB349B, [10], [], 0x872378E6);
    NothingFed(0x872378E6);
  }

  lemma Feed1()
    ensures Register(0xFFFFFFFF, TextBytes(LINE1 + "\n")) == 0x872378E6
  {
    hide Register;
    assert TextBytes(LINE1 + "\n") == [49, 58, 115, 116, 114, 105]
                           + [110, 103, 58, 114, 111, 111]
                           + [109, 10];
    Feed1_0();
    Feed1_1();
    RegisterConcat(0xFFFFFFFF,
                   [49, 58, 115, 116, 114, 105],
                   [110, 103, 58, 114, 111, 111]);
    Feed1_2();
    RegisterConcat(0xFFFFFFFF,
                   [49, 58, 115, 116, 114, 105] + [110, 103, 58, 114, 111, 111],
                   [109, 10]);
  }

  lemma Feed2_0()
    ensures Register(0x872378E6, [50, 58, 102, 108, 111, 97]) == 0x7A31E4F8
  {
    hide Register;
    Fed(0x872378E6, [50, 58, 102, 108, 111, 97], [58, 102, 108, 111, 97], 0x813935B5);
    Fed(0x813935B5, [58, 102, 108, 111, 97], [102, 108, 111, 97], 0x7D86A784);
    Fed(0x7D86A784, [102, 108, 111, 97], [108, 111, 97], 0x4E7905F3);
    Fed(0x4E7905F3, [108, 111, 97], [111, 97], 0x60FEF7D0);
    Fed(0x60FEF7D0, [111, 97], [97], 0x5BBE50EA);
    Fed(0x5BBE50EA, [97], [], 0x7A31E4F8);
    NothingFed(0x7A31E4F8);
  }

  lemma Feed2_1()
    ensures Register(0x7A31E4F8, [116, 58, 116, 101, 109, 112]) == 0x64513D0F
  {
    hide Register;
    Fed(0x7A31E4F8, [116, 58, 116, 101, 109, 112], [58, 116, 101, 109, 112], 0xE474FEEF);
    Fed(0xE474FEEF, [58, 116, 101, 109, 112], [116, 101, 109, 112], 0xF65D52A5);
    Fed(0xF65D52A5, [116, 101, 109, 112], [101, 109, 112], 0xF122BF10);
    Fed(0xF122BF10, [101, 109, 112], [109, 112], 0x209EA70C);
    Fed(0x209EA70C, [109, 112], [112], 0x3A95CF69);
    Fed(0x3A95CF69, [112], [], 0x64513D0F);
    NothingFed(0x64513D0F);
  }

  lemma Feed2_2()
    ensures Register(0x64513D0F, [101, 114, 97, 116, 117, 114]) == 0x738225D6
  {
    hide Register;
    Fed(0x64513D0F, [101, 114, 97, 116, 117, 114], [114, 97, 116, 117, 114], 0xAD03D97B);
    Fed(0xAD03D97B, [114, 97, 116, 117, 114], [97, 116, 117, 114], 0x7971BB7D);
    Fed(0x7971BB7D, [97, 116, 117, 114], [116, 117, 114], 0x14782DF4);
    Fed(0x14782DF4, [116, 117, 114], [117, 114], 0xEDACFB0D);
    Fed(0xEDACFB0D, [117, 114], [114], 0x5E3355F5);
    Fed(0x5E3355F5, [114], [], 0x738225D6);
    NothingFed(0x738225D6);
  }

  lemma Feed2_3()
    ensures Register(0x738225D6, [101, 10]) == 0x6439B3A0
  {
    hide Register;
    Fed(0x738225D6, [101, 10], [10], 0x521B6013);
    Fed(0x521B6013, [10], [], 0x6439B3A0);
    NothingFed(0x6439B3A0);
  }

  lemma Feed2()
    ensures Register(0x872378E6, TextBytes(LINE2 + "\n")) == 0x6439B3A0
  {
    hide Register;
    assert TextBytes(LINE2 + "\n") == [50, 58, 102, 108, 111, 97]
                           + [116, 58, 116, 101, 109, 112]
                           + [101, 114, 97, 116, 117, 114]
                           + [101, 10];
    Feed2_0();
    Feed2_1();
    RegisterConcat(0x872378E6,
                   [50, 58, 102, 108, 111, 97],
                   [116, 58, 116, 101, 109, 112]);
    Feed2_2();
    RegisterConcat(0x872378E6,
                   [50, 58, 102, 108, 111, 97] + [116, 58, 116, 101, 109, 112],
                   [101, 114, 97, 116, 117, 114]);
    Feed2_3();
    RegisterConcat(0x872378E6,
                   [50, 58, 102, 108, 111, 97] + [116, 58, 116, 101, 109, 112] + [101, 114, 97, 116, 117, 114],
                   [101, 10]);
  }

  lemma Feed3_0()
    ensures Register(0x6439B3A0, [51, 58, 98, 121, 116, 101]) == 0x597D27AB
  {
    hide Register;
    Fed(0x6439B3A0, [51, 58, 98, 121, 116, 101], [58, 98, 121, 116, 101], 0x6962FB4D);
    Fed(0x6962FB4D, [58, 98, 121, 116, 101], [98, 121, 116, 101], 0xCE088664);
    Fed(0xCE088664, [98, 121, 116, 101], [121, 116, 101], 0xE9ADADB3);
    Fed(0xE9ADADB3, [121, 116, 101], [116, 101], 0x7B588603);
    Fed(0x7B588603, [116, 101], [101], 0xCE1ABC19);
    Fed(0xCE1ABC19, [101], [], 0x597D27AB);
    NothingFed(0x597D27AB);
  }

  lemma Feed3_1()
    ensures Register(0x597D27AB, [115, 58, 98, 108, 111, 98]) == 0x0D1EDADF
  {
    hide Register;
    Fed(0x597D27AB, [115, 58, 98, 108, 111, 98], [58, 98, 108, 111, 98], 0x885127C1);
    Fed(0x885127C1, [58, 98, 108, 111, 98], [98, 108, 111, 98], 0x2AE77AB3);
    Fed(0x2AE77AB3, [98, 108, 111, 98], [108, 111, 98], 0xF1FE0538);
    Fed(0xF1FE0538, [108, 111, 98], [111, 98], 0x6CF76BE8);
    Fed(0x6CF76BE8, [111, 98], [98], 0x73B0E1E8);
    Fed(0x73B0E1E8, [98], [], 0x0D1EDADF);
    NothingFed(0x0D1EDADF);
  }

  lemma Feed3_2()
    ensures Register(0x0D1EDADF, [10]) == 0xF6B43881
  {
    hide Register;
    Fed(0x0D1EDADF, [10], [], 0xF6B43881);
    NothingFed(0xF6B43881);
  }

  lemma Feed3()
    ensures Register(0x6439B3A0, TextBytes(LINE3 + "\n")) == 0xF6B43881
  {
    hide Register;
    assert TextBytes(LINE3 + "\n") == [51, 58, 98, 121, 116, 101]
                           + [115, 58, 98, 108, 111, 98]
                           + [10];
    Feed3_0();
    Feed3_1();
    RegisterConcat(0x6439B3A0,
                   [51, 58, 98, 121, 116, 101],
                   [115, 58, 98, 108, 111, 98]);
    Feed3_2();
    RegisterConcat(0x6439B3A0,
                   [51, 58, 98, 121, 116, 101] + [115, 58, 98, 108, 111, 98],
                   [10]);
  }

  lemma Feed4_0()
    ensures Register(0xF6B43881, [52, 58, 114, 101, 112, 101]) == 0x8E538AF4
  {
    hide Register;
    Fed(0xF6B43881, [52, 58, 114, 101, 112, 101], [58, 114, 101, 112, 101], 0xBBFDF33B);
    Fed(0xBBFDF33B, [58, 114, 101, 112, 101], [114, 101, 112, 101], 0x77BCCD65);
    Fed(0x77BCCD65, [114, 101, 112, 101], [101, 112, 101], 0x83A4390A);
    Fed(0x83A4390A, [101, 112, 101], [112, 101], 0xDD8ED8F0);
    Fed(0xDD8ED8F0, [112, 101], [101], 0xED650DF8);
    Fed(0xED650DF8, [101], [], 0x8E538AF4);
    NothingFed(0x8E538AF4);
  }

  lemma Feed4_1()
    ensures Register(0x8E538AF4, [97, 116, 101, 100, 32, 115]) == 0x97129FE3
  {
    hide Register;
    Fed(0x8E538AF4, [97, 116, 101, 100, 32, 115], [116, 101, 100, 32, 115], 0x80EB3441);
    Fed(0x80EB3441, [116, 101, 100, 32, 115], [101, 100, 32, 115], 0x56332F17);
    Fed(0x56332F17, [101, 100, 32, 115], [100, 32, 115], 0xBE5D233F);
    Fed(0xBE5D233F, [100, 32, 115], [32, 115], 0xFC07D55F);
    Fed(0xFC07D55F, [32, 115], [115], 0xC0466B78);
    Fed(0xC0466B78, [115], [], 0x97129FE3);
    NothingFed(0x97129FE3);
  }

  lemma Feed4_2()
    ensures Register(0x97129FE3, [116, 114, 105, 110, 103, 58]) == 0x3ABC6E85
  {
    hide Register;
    Fed(0x97129FE3, [116, 114, 105, 110, 103, 58], [114, 105, 110, 103, 58], 0x6EFC1478);
    Fed(0x6EFC1478, [114, 105, 110, 103, 58], [105, 110, 103, 58], 0xE0BB150A);
    Fed(0xE0BB150A, [105, 110, 103, 58], [110, 103, 58], 0xD45B8BF7);
    Fed(0xD45B8BF7, [110, 103, 58], [103, 58], 0x8907706B);
    Fed(0x8907706B, [103, 58], [58], 0x093F4B5B);
    Fed(0x093F4B5B, [58], [], 0x3ABC6E85);
    NothingFed(0x3ABC6E85);
  }

  lemma Feed4_3()
    ensures Register(0x3ABC6E85, [116, 97, 103, 115]) == 0x584AD31F
  {
    hide Register;
    Fed(0x3ABC6E85, [116, 97, 103, 115], [97, 103, 115], 0xCA807EE4);
    Fed(0xCA807EE4, [97, 103, 115], [103, 115], 0x9D18F7D1);
    Fed(0x9D18F7D1, [103, 115], [115], 0x229F0E4E);
    Fed(0x229F0E4E, [115], [], 0x584AD31F);
    NothingFed(0x584AD31F);
  }

  lemma Feed4()
    ensures Register(0xF6B43881, TextBytes(LINE4)) == 0x584AD31F
  {
    hide Register;
    assert TextBytes(LINE4) == [52, 58, 114, 101, 112, 101]
                           + [97, 116, 101, 100, 32, 115]
                           + [116, 114, 105, 110, 103, 58]
                           + [116, 97, 103, 115];
    Feed4_0();
    Feed4_1();
    RegisterConcat(0xF6B43881,
                   [52, 58, 114, 101, 112, 101],
                   [97, 116, 101, 100, 32, 115]);
    Feed4_2();
    RegisterConcat(0xF6B43881,
                   [52, 58, 114, 101, 112, 101] + [97, 116, 101, 100, 32, 115],
                   [116, 114, 105, 110, 103, 58]);
    Feed4_3();
    RegisterConcat(0xF6B43881,
                   [52, 58, 114, 101, 112, 101] + [97, 116, 101, 100, 32, 115] + [116, 114, 105, 110, 103, 58],
                   [116, 97, 103, 115]);
  }

  /** The locked value. */
  lemma KnownSchemaId()
    ensures SchemaId(FIELDS) == 0x2ce0
  {
    hide Register, Canonical, TextBytes;
    KnownCanonical();
    Feed1(); Feed2(); Feed3(); Feed4();
    var a, b, c := LINE1 + "\n", LINE2 + "\n", LINE3 + "\n";
    assert Canonical(FIELDS) == a + (b + (c + LINE4));
    BytesOf(a, b + (c + LINE4));
    BytesOf(b, c + LINE4);
    BytesOf(c, LINE4);
    RegisterConcat(ALL_ONES, TextBytes(a), TextBytes(b + (c + LINE4)));
    RegisterConcat(0x872378E6, TextBytes(b), TextBytes(c + LINE4));
    RegisterConcat(0x6439B3A0, TextBytes(c), TextBytes(LINE4));
    assert Register(ALL_ONES, TextBytes(Canonical(FIELDS))) == 0x584AD31F;
  }

  /** The spellings of the ten types in the lines, as the schema vocabulary has them. */
  lemma Spellings(tag: u32, name: Text)
    ensures Line(SchemaField(name, BoolType, tag, false)) == Decimal(tag) + ":" + "bool" + ":" + name
    ensures Line(SchemaField(name, Int32Type, tag, false)) == Decimal(tag) + ":" + "int32" + ":" + name
    ensures Line(SchemaField(name, Int64Type, tag, false)) == Decimal(tag) + ":" + "int64" + ":" + name
    ensures Line(SchemaField(name, Uint32Type, tag, false)) == Decimal(tag) + ":" + "uint32" + ":" + name
    ensures Line(SchemaField(name, Uint64Type, tag, false)) == Decimal(tag) + ":" + "uint64" + ":" + name
    ensures Line(SchemaField(name, Sint32Type, tag, false)) == Decimal(tag) + ":" + "sint32" + ":" + name
    ensures Line(SchemaField(name, Sint64Type, tag, false)) == Decimal(tag) + ":" + "sint64" + ":" + name
    ensures Line(SchemaField(name, FloatType, tag, false)) == Decimal(tag) + ":" + "float" + ":" + name
    ensures Line(SchemaField(name, StringType, tag, false)) == Decimal(tag) + ":" + "string" + ":" + name
    ensures Line(SchemaField(name, BytesType, tag, false)) == Decimal(tag) + ":" + "bytes" + ":" + name
  {
    hide Decimal;
  }
}
