/** The test vectors of RFC 3174, section 7.3, for the definition in Sha1Spec: the registers are followed through every
    turn of every block. */
module Sha1Vectors {
  import opened Bytes
  import opened Sha1Spec

  /** "abc" */
  const TEST1: seq<byte> := [0x61, 0x62, 0x63]

  /** "abcdbcdecdefdefgefghfghighijhijkijkljklmklmnlmnomnopnopq", sixteen octets at a time */
  const TEST2: seq<byte> := T0 + T16 + T32 + T48

  const T0: seq<byte> :=
    [0x61, 0x62, 0x63, 0x64, 0x62, 0x63, 0x64, 0x65, 0x63, 0x64, 0x65, 0x66, 0x64, 0x65, 0x66, 0x67]
  const T16: seq<byte> :=
    [0x65, 0x66, 0x67, 0x68, 0x66, 0x67, 0x68, 0x69, 0x67, 0x68, 0x69, 0x6A, 0x68, 0x69, 0x6A, 0x6B]
  const T32: seq<byte> :=
    [0x69, 0x6A, 0x6B, 0x6C, 0x6A, 0x6B, 0x6C, 0x6D, 0x6B, 0x6C, 0x6D, 0x6E, 0x6C, 0x6D, 0x6E, 0x6F]
  const T48: seq<byte> :=
    [0x6D, 0x6E, 0x6F, 0x70, 0x6E, 0x6F, 0x70, 0x71]

  ghost function A(h: Regs, b: seq<byte>, t: nat): word
    requires |b| == 64
  {
    Turns(h, b, t).a
  }

  // --- "abc" --------------------------------------------------------------------------------------------------

  ghost predicate AbcBlock(b: seq<byte>) {
    && |b| == 64
    && W(b, 0) == 0x61626380 && W(b, 1) == 0x00000000 && W(b, 2) == 0x00000000 && W(b, 3) == 0x00000000
    && W(b, 4) == 0x00000000 && W(b, 5) == 0x00000000 && W(b, 6) == 0x00000000 && W(b, 7) == 0x00000000
    && W(b, 8) == 0x00000000 && W(b, 9) == 0x00000000 && W(b, 10) == 0x00000000 && W(b, 11) == 0x00000000
    && W(b, 12) == 0x00000000 && W(b, 13) == 0x00000000 && W(b, 14) == 0x00000000 && W(b, 15) == 0x00000018
  }

  ghost predicate AbcWords0(b: seq<byte>) {
    && |b| == 64
    && W(b, 0) == 0x61626380 && W(b, 1) == 0x00000000 && W(b, 2) == 0x00000000 && W(b, 3) == 0x00000000
    && W(b, 4) == 0x00000000 && W(b, 5) == 0x00000000 && W(b, 6) == 0x00000000 && W(b, 7) == 0x00000000
    && W(b, 8) == 0x00000000 && W(b, 9) == 0x00000000 && W(b, 10) == 0x00000000 && W(b, 11) == 0x00000000
    && W(b, 12) == 0x00000000 && W(b, 13) == 0x00000000 && W(b, 14) == 0x00000000 && W(b, 15) == 0x00000018
    && W(b, 16) == 0xC2C4C700 && W(b, 17) == 0x00000000 && W(b, 18) == 0x00000030 && W(b, 19) == 0x85898E01
  }

  ghost predicate AbcWords20(b: seq<byte>) {
    && |b| == 64
    && W(b, 20) == 0x00000000 && W(b, 21) == 0x00000060 && W(b, 22) == 0x0B131C03 && W(b, 23) == 0x00000030
    && W(b, 24) == 0x85898EC1 && W(b, 25) == 0x16263806 && W(b, 26) == 0x00000000 && W(b, 27) == 0x00000180
    && W(b, 28) == 0x2C4C700C && W(b, 29) == 0x000000F0 && W(b, 30) == 0x93AFB507 && W(b, 31) == 0x5898E048
    && W(b, 32) == 0x8E9A9202 && W(b, 33) == 0x00000600 && W(b, 34) == 0xB131C0F0 && W(b, 35) == 0x16263BC6
    && W(b, 36) == 0x4EBED41E && W(b, 37) == 0x626380A1 && W(b, 38) == 0x16263806 && W(b, 39) == 0x000018C0
  }

  ghost predicate AbcWords40(b: seq<byte>) {
    && |b| == 64
    && W(b, 40) == 0xD2E138C4 && W(b, 41) == 0x00000F00 && W(b, 42) == 0x3AFB5079 && W(b, 43) == 0x898E04E5
    && W(b, 44) == 0xE2BA3C2B && W(b, 45) == 0x000060C0 && W(b, 46) == 0x053A37CD && W(b, 47) == 0x74458547
    && W(b, 48) == 0xDA9415ED && W(b, 49) == 0x26380A16 && W(b, 50) == 0x626383A1 && W(b, 51) == 0x4EBF54DE
    && W(b, 52) == 0x3835B44B && W(b, 53) == 0x0000F600 && W(b, 54) == 0x1E84C7A3 && W(b, 55) == 0x98E04D98
    && W(b, 56) == 0x651D16A0 && W(b, 57) == 0x62658CA1 && W(b, 58) == 0x458544D6 && W(b, 59) == 0x44584CB7
  }

  ghost predicate AbcWords60(b: seq<byte>) {
    && |b| == 64
    && W(b, 60) == 0x7BA06619 && W(b, 61) == 0x6380AEA2 && W(b, 62) == 0x0AE55269 && W(b, 63) == 0x627B49A1
    && W(b, 64) == 0x7CD45C9D && W(b, 65) == 0x000F0000 && W(b, 66) == 0xFB50753A && W(b, 67) == 0xEC6765E8
    && W(b, 68) == 0xBA3C2BE2 && W(b, 69) == 0x0060C000 && W(b, 70) == 0x3A37CD05 && W(b, 71) == 0x458546F4
    && W(b, 72) == 0xB8599DD6 && W(b, 73) == 0x380A1A26 && W(b, 74) == 0x01E02203 && W(b, 75) == 0xE7CC3456
    && W(b, 76) == 0xE6E60B69 && W(b, 77) == 0x00F60A00 && W(b, 78) == 0x5795EF4F && W(b, 79) == 0x822E0879
  }

  lemma AbcSchedule(b: seq<byte>)
    requires AbcBlock(b)
    ensures AbcWords0(b) && AbcWords20(b) && AbcWords40(b) && AbcWords60(b)
  {
    assert AbcWords0(b);
    hide AbcBlock;
    AbcSchedule20(b);
    AbcSchedule40(b);
    AbcSchedule60(b);
  }

  lemma AbcSchedule20(b: seq<byte>)
    requires AbcWords0(b)
    ensures AbcWords20(b)
  {
  }

  lemma AbcSchedule40(b: seq<byte>)
    requires AbcWords20(b)
    ensures AbcWords40(b)
  {
  }

  lemma AbcSchedule60(b: seq<byte>)
    requires AbcWords40(b)
    ensures AbcWords60(b)
  {
  }

  lemma AbcTurns20(b: seq<byte>)
    requires AbcWords0(b)
    ensures Turns(H0, b, 20) == Regs(0xFD9E1D7D, 0xDC64901D, 0x20AA99CA, 0xD3A49608, 0xC82F758B)
  {
    hide W;
    assert Turns(H0, b, 0) == H0;
    assert A(H0, b, 1) == 0x0116FC33 && A(H0, b, 2) == 0x8990536D
        && A(H0, b, 3) == 0xA1390F08 && A(H0, b, 4) == 0xCDD8E11B;
    assert A(H0, b, 5) == 0xCFD499DE && A(H0, b, 6) == 0x3FC7CA40
        && A(H0, b, 7) == 0x993E30C1 && A(H0, b, 8) == 0x9E8C07D4;
    assert A(H0, b, 9) == 0x4B6AE328 && A(H0, b, 10) == 0x8351F929
        && A(H0, b, 11) == 0xFBDA9E89 && A(H0, b, 12) == 0x63188FE4;
    assert A(H0, b, 13) == 0x4607B664 && A(H0, b, 14) == 0x9128F695
        && A(H0, b, 15) == 0x196BEE77 && A(H0, b, 16) == 0x20BDD62F;
    assert A(H0, b, 17) == 0x4E925823 && A(H0, b, 18) == 0x82AA6728
        && A(H0, b, 19) == 0xDC64901D && A(H0, b, 20) == 0xFD9E1D7D;
  }

  lemma AbcTurns40(b: seq<byte>)
    requires AbcWords20(b)
    requires Turns(H0, b, 20) == Regs(0xFD9E1D7D, 0xDC64901D, 0x20AA99CA, 0xD3A49608, 0xC82F758B)
    ensures Turns(H0, b, 40) == Regs(0x32DE1CBA, 0x4C986405, 0xF718E5CF, 0x03D447F6, 0xF72EEC32)
  {
    hide W;
    assert A(H0, b, 21) == 0x1A37B0CA && A(H0, b, 22) == 0x33A23BFC
        && A(H0, b, 23) == 0x21283486 && A(H0, b, 24) == 0xD541F12D;
    assert A(H0, b, 25) == 0xC7567DC6 && A(H0, b, 26) == 0x48413BA4
        && A(H0, b, 27) == 0xBE35FBD5 && A(H0, b, 28) == 0x4AA84D97;
    assert A(H0, b, 29) == 0x8370B52E && A(H0, b, 30) == 0xC5FBAF5D
        && A(H0, b, 31) == 0x1267B407 && A(H0, b, 32) == 0x3B845D33;
    assert A(H0, b, 33) == 0x046FAA0A && A(H0, b, 34) == 0x2C0EBC11
        && A(H0, b, 35) == 0x21796AD4 && A(H0, b, 36) == 0xDCBBB0CB;
    assert A(H0, b, 37) == 0x0F511FD8 && A(H0, b, 38) == 0xDC63973F
        && A(H0, b, 39) == 0x4C986405 && A(H0, b, 40) == 0x32DE1CBA;
  }

  lemma AbcTurns60(b: seq<byte>)
    requires AbcWords40(b)
    requires Turns(H0, b, 40) == Regs(0x32DE1CBA, 0x4C986405, 0xF718E5CF, 0x03D447F6, 0xF72EEC32)
    ensures Turns(H0, b, 60) == Regs(0x3F52DE5A, 0x09D785FD, 0x3498BFD4, 0xF211824F, 0xD79915AB)
  {
    hide W;
    assert A(H0, b, 41) == 0xFC87DEDF && A(H0, b, 42) == 0x970A0D5C
        && A(H0, b, 43) == 0x7F193DC5 && A(H0, b, 44) == 0xEE1B1AAF;
    assert A(H0, b, 45) == 0x40F28E09 && A(H0, b, 46) == 0x1C51E1F2
        && A(H0, b, 47) == 0xA01B846C && A(H0, b, 48) == 0xBEAD02CA;
    assert A(H0, b, 49) == 0xBAF39337 && A(H0, b, 50) == 0x120731C5
        && A(H0, b, 51) == 0x641DB2CE && A(H0, b, 52) == 0x3847AD66;
    assert A(H0, b, 53) == 0xE490436D && A(H0, b, 54) == 0x27E9F1D8
        && A(H0, b, 55) == 0x7B71F76D && A(H0, b, 56) == 0x5E6456AF;
    assert A(H0, b, 57) == 0xC846093F && A(H0, b, 58) == 0xD262FF50
        && A(H0, b, 59) == 0x09D785FD && A(H0, b, 60) == 0x3F52DE5A;
  }

  lemma AbcTurns80(b: seq<byte>)
    requires AbcWords60(b)
    requires Turns(H0, b, 60) == Regs(0x3F52DE5A, 0x09D785FD, 0x3498BFD4, 0xF211824F, 0xD79915AB)
    ensures Turns(H0, b, 80) == Regs(0x42541B35, 0x5738D5E1, 0x21834873, 0x681E6DF6, 0xD8FDF6AD)
  {
    hide W;
    assert A(H0, b, 61) == 0xD756C147 && A(H0, b, 62) == 0x548C9CB2
        && A(H0, b, 63) == 0xB66C020B && A(H0, b, 64) == 0x6B61C9E1;
    assert A(H0, b, 65) == 0x19DFA7AC && A(H0, b, 66) == 0x101655F9
        && A(H0, b, 67) == 0x0C3DF2B4 && A(H0, b, 68) == 0x78DD4D2B;
    assert A(H0, b, 69) == 0x497093C0 && A(H0, b, 70) == 0x3F2588C2
        && A(H0, b, 71) == 0xC199F8C7 && A(H0, b, 72) == 0x39859DE7;
    assert A(H0, b, 73) == 0xEDB42DE4 && A(H0, b, 74) == 0x11793F6F
        && A(H0, b, 75) == 0x5EE76897 && A(H0, b, 76) == 0x63F7DAB7;
    assert A(H0, b, 77) == 0xA079B7D9 && A(H0, b, 78) == 0x860D21CC
        && A(H0, b, 79) == 0x5738D5E1 && A(H0, b, 80) == 0x42541B35;
  }

  lemma AbcCompress(b: seq<byte>)
    requires AbcBlock(b)
    ensures Compress(H0, b) == Regs(0xA9993E36, 0x4706816A, 0xBA3E2571, 0x7850C26C, 0x9CD0D89D)
  {
    AbcSchedule(b);
    hide AbcWords0;
    hide AbcWords20;
    hide AbcWords40;
    hide AbcWords60;
    hide Turns;
    hide AbcBlock;
    AbcTurns20(b);
    AbcTurns40(b);
    AbcTurns60(b);
    AbcTurns80(b);
  }

  // --- the first block of TEST2 -------------------------------------------------------------------------------

  ghost predicate FirstBlock(b: seq<byte>) {
    && |b| == 64
    && W(b, 0) == 0x61626364 && W(b, 1) == 0x62636465 && W(b, 2) == 0x63646566 && W(b, 3) == 0x64656667
    && W(b, 4) == 0x65666768 && W(b, 5) == 0x66676869 && W(b, 6) == 0x6768696A && W(b, 7) == 0x68696A6B
    && W(b, 8) == 0x696A6B6C && W(b, 9) == 0x6A6B6C6D && W(b, 10) == 0x6B6C6D6E && W(b, 11) == 0x6C6D6E6F
    && W(b, 12) == 0x6D6E6F70 && W(b, 13) == 0x6E6F7071 && W(b, 14) == 0x80000000 && W(b, 15) == 0x00000000
  }

  ghost predicate FirstWords0(b: seq<byte>) {
    && |b| == 64
    && W(b, 0) == 0x61626364 && W(b, 1) == 0x62636465 && W(b, 2) == 0x63646566 && W(b, 3) == 0x64656667
    && W(b, 4) == 0x65666768 && W(b, 5) == 0x66676869 && W(b, 6) == 0x6768696A && W(b, 7) == 0x68696A6B
    && W(b, 8) == 0x696A6B6C && W(b, 9) == 0x6A6B6C6D && W(b, 10) == 0x6B6C6D6E && W(b, 11) == 0x6C6D6E6F
    && W(b, 12) == 0x6D6E6F70 && W(b, 13) == 0x6E6F7071 && W(b, 14) == 0x80000000 && W(b, 15) == 0x00000000
    && W(b, 16) == 0x0A063A3E && W(b, 17) == 0xD8DADCDF && W(b, 18) == 0xDADCDEC0 && W(b, 19) == 0xC8D2B4BE
  }

  ghost predicate FirstWords20(b: seq<byte>) {
    && |b| == 64
    && W(b, 20) == 0x6F757B5B && W(b, 21) == 0x757B5967 && W(b, 22) == 0x8DA16D70 && W(b, 23) == 0xDAEEFABA
    && W(b, 24) == 0xFAF6CAB6 && W(b, 25) == 0xA6FB675A && W(b, 26) == 0x0C604CC8 && W(b, 27) == 0x604CC02C
    && W(b, 28) == 0x49C0E6E2 && W(b, 29) == 0x2EE8CBBC && W(b, 30) == 0xCFD72EC4 && W(b, 31) == 0x97E9810E
    && W(b, 32) == 0x0989CBE8 && W(b, 33) == 0xF24843FE && W(b, 34) == 0x5C40D0BA && W(b, 35) == 0xA8D9CC3B
    && W(b, 36) == 0xB2B9666E && W(b, 37) == 0xBA7B71B7 && W(b, 38) == 0x20B28A72 && W(b, 39) == 0xB28AF500
  }

  ghost predicate FirstWords40(b: seq<byte>) {
    && |b| == 64
    && W(b, 40) == 0x8AC87842 && W(b, 41) == 0x289ADDF4 && W(b, 42) == 0x56D51F21 && W(b, 43) == 0xD96B7FD2
    && W(b, 44) == 0x3868E778 && W(b, 45) == 0xAB5E4848 && W(b, 46) == 0x7F0E2118 && W(b, 47) == 0xDE87A111
    && W(b, 48) == 0xE8BE56B0 && W(b, 49) == 0x1A0AE652 && W(b, 50) == 0xCD5611C8 && W(b, 51) == 0x46EF29DC
    && W(b, 52) == 0x60D3DA6D && W(b, 53) == 0xDDF3BA6E && W(b, 54) == 0x2737F5E9 && W(b, 55) == 0x4888A710
    && W(b, 56) == 0xD2A1177B && W(b, 57) == 0x9999633B && W(b, 58) == 0xD6C69D03 && W(b, 59) == 0xCCF6127B
  }

  ghost predicate FirstWords60(b: seq<byte>) {
    && |b| == 64
    && W(b, 60) == 0x7C58FE6D && W(b, 61) == 0xFDD99C68 && W(b, 62) == 0xF8E32074 && W(b, 63) == 0xE0BA3C7D
    && W(b, 64) == 0x152198D6 && W(b, 65) == 0x7B3F1982 && W(b, 66) == 0x37F2D5B7 && W(b, 67) == 0x8596323E
    && W(b, 68) == 0x810790D6 && W(b, 69) == 0xBEA0A942 && W(b, 70) == 0x11C7E1B1 && W(b, 71) == 0x6158D101
    && W(b, 72) == 0x5FCD77D9 && W(b, 73) == 0x7F2F12E6 && W(b, 74) == 0xF868CFB1 && W(b, 75) == 0xD6E997E9
    && W(b, 76) == 0xF526B852 && W(b, 77) == 0xB7578DCC && W(b, 78) == 0x55D99DF4 && W(b, 79) == 0x1FF69958
  }

  lemma FirstSchedule(b: seq<byte>)
    requires FirstBlock(b)
    ensures FirstWords0(b) && FirstWords20(b) && FirstWords40(b) && FirstWords60(b)
  {
    assert FirstWords0(b);
    hide FirstBlock;
    FirstSchedule20(b);
    FirstSchedule40(b);
    FirstSchedule60(b);
  }

  lemma FirstSchedule20(b: seq<byte>)
    requires FirstWords0(b)
    ensures FirstWords20(b)
  {
  }

  lemma FirstSchedule40(b: seq<byte>)
    requires FirstWords20(b)
    ensures FirstWords40(b)
  {
  }

  lemma FirstSchedule60(b: seq<byte>)
    requires FirstWords40(b)
    ensures FirstWords60(b)
  {
  }

  lemma FirstTurns20(b: seq<byte>)
    requires FirstWords0(b)
    ensures Turns(H0, b, 20) == Regs(0x6C445652, 0x944B1BD1, 0x509AE70D, 0x1AC1A012, 0x5098DF8E)
  {
    hide W;
    assert Turns(H0, b, 0) == H0;
    assert A(H0, b, 1) == 0x0116FC17 && A(H0, b, 2) == 0xEBF3B452
        && A(H0, b, 3) == 0x5109913A && A(H0, b, 4) == 0x2C4F6EAC;
    assert A(H0, b, 5) == 0x33F4AE5B && A(H0, b, 6) == 0x96B85189
        && A(H0, b, 7) == 0xDB04CB58 && A(H0, b, 8) == 0x45833F0F;
    assert A(H0, b, 9) == 0xC565C35E && A(H0, b, 10) == 0x6350AFDA
        && A(H0, b, 11) == 0x8993EA77 && A(H0, b, 12) == 0xE19ECAA2;
    assert A(H0, b, 13) == 0x8603481E && A(H0, b, 14) == 0x32F94A85
        && A(H0, b, 15) == 0xB2E7A8BE && A(H0, b, 16) == 0x42637E39;
    assert A(H0, b, 17) == 0x6B068048 && A(H0, b, 18) == 0x426B9C35
        && A(H0, b, 19) == 0x944B1BD1 && A(H0, b, 20) == 0x6C445652;
  }

  lemma FirstTurns40(b: seq<byte>)
    requires FirstWords20(b)
    requires Turns(H0, b, 20) == Regs(0x6C445652, 0x944B1BD1, 0x509AE70D, 0x1AC1A012, 0x5098DF8E)
    ensures Turns(H0, b, 40) == Regs(0xADEB7478, 0x24957F22, 0x50FE1EBA, 0x564CFF26, 0xAADF0CBB)
  {
    hide W;
    assert A(H0, b, 21) == 0x95836DA5 && A(H0, b, 22) == 0x09511177
        && A(H0, b, 23) == 0xE2B92DC4 && A(H0, b, 24) == 0xFD224575;
    assert A(H0, b, 25) == 0xEEB82D9A && A(H0, b, 26) == 0x5A142C1A
        && A(H0, b, 27) == 0x2972F7C7 && A(H0, b, 28) == 0xD526A644;
    assert A(H0, b, 29) == 0xE1122421 && A(H0, b, 30) == 0x05B457B2
        && A(H0, b, 31) == 0xA9C84BEC && A(H0, b, 32) == 0x52E31F60;
    assert A(H0, b, 33) == 0x5AF3242C && A(H0, b, 34) == 0x31C756A9
        && A(H0, b, 35) == 0xE9AC987C && A(H0, b, 36) == 0xAB7C32EE;
    assert A(H0, b, 37) == 0x5933FC99 && A(H0, b, 38) == 0x43F87AE9
        && A(H0, b, 39) == 0x24957F22 && A(H0, b, 40) == 0xADEB7478;
  }

  lemma FirstTurns60(b: seq<byte>)
    requires FirstWords40(b)
    requires Turns(H0, b, 40) == Regs(0xADEB7478, 0x24957F22, 0x50FE1EBA, 0x564CFF26, 0xAADF0CBB)
    ensures Turns(H0, b, 60) == Regs(0x9EF775C3, 0xF03D3782, 0xEB029E53, 0xE9A06DC8, 0x1DDB0E44)
  {
    hide W;
    assert A(H0, b, 41) == 0xD70E5010 && A(H0, b, 42) == 0x79BCFB08
        && A(H0, b, 43) == 0xF9BCB8DE && A(H0, b, 44) == 0x633E9561;
    assert A(H0, b, 45) == 0x98C1EA64 && A(H0, b, 46) == 0xC6EA241E
        && A(H0, b, 47) == 0xA2AD4F02 && A(H0, b, 48) == 0xC8A69090;
    assert A(H0, b, 49) == 0x88341600 && A(H0, b, 50) == 0x7E846F58
        && A(H0, b, 51) == 0x86E358BA && A(H0, b, 52) == 0x8D2E76C8;
    assert A(H0, b, 53) == 0xCE892E10 && A(H0, b, 54) == 0xEDEA95B1
        && A(H0, b, 55) == 0x36D1230A && A(H0, b, 56) == 0x776C3910;
    assert A(H0, b, 57) == 0xA681B723 && A(H0, b, 58) == 0xAC0A794F
        && A(H0, b, 59) == 0xF03D3782 && A(H0, b, 60) == 0x9EF775C3;
  }

  lemma FirstTurns80(b: seq<byte>)
    requires FirstWords60(b)
    requires Turns(H0, b, 60) == Regs(0x9EF775C3, 0xF03D3782, 0xEB029E53, 0xE9A06DC8, 0x1DDB0E44)
    ensures Turns(H0, b, 80) == Regs(0x8CE34517, 0xD3AD7C25, 0x6B4E1883, 0x74351CD2, 0x86838382)
  {
    hide W;
    assert A(H0, b, 61) == 0x36254B13 && A(H0, b, 62) == 0x4080D4DC
        && A(H0, b, 63) == 0x2BFAF7A8 && A(H0, b, 64) == 0x513F9CA0;
    assert A(H0, b, 65) == 0xE5895C81 && A(H0, b, 66) == 0x1037D2D5
        && A(H0, b, 67) == 0x14A82DA9 && A(H0, b, 68) == 0x6D17C9FD;
    assert A(H0, b, 69) == 0x2C7B07BD && A(H0, b, 70) == 0xFDF6EFFF
        && A(H0, b, 71) == 0x112B96E3 && A(H0, b, 72) == 0x84065712;
    assert A(H0, b, 73) == 0xAB89FB71 && A(H0, b, 74) == 0xC5210E35
        && A(H0, b, 75) == 0x352D9F4B && A(H0, b, 76) == 0x1A0E0E0A;
    assert A(H0, b, 77) == 0xD0D47349 && A(H0, b, 78) == 0xAD38620D
        && A(H0, b, 79) == 0xD3AD7C25 && A(H0, b, 80) == 0x8CE34517;
  }

  lemma FirstCompress(b: seq<byte>)
    requires FirstBlock(b)
    ensures Compress(H0, b) == Regs(0xF4286818, 0xC37B27AE, 0x0408F581, 0x84677148, 0x4A566572)
  {
    FirstSchedule(b);
    hide FirstWords0;
    hide FirstWords20;
    hide FirstWords40;
    hide FirstWords60;
    hide Turns;
    hide FirstBlock;
    FirstTurns20(b);
    FirstTurns40(b);
    FirstTurns60(b);
    FirstTurns80(b);
  }

  const MIDDLE := Regs(0xF4286818, 0xC37B27AE, 0x0408F581, 0x84677148, 0x4A566572)

  // --- the second block of TEST2 ------------------------------------------------------------------------------

  ghost predicate SecondBlock(b: seq<byte>) {
    && |b| == 64
    && W(b, 0) == 0x00000000 && W(b, 1) == 0x00000000 && W(b, 2) == 0x00000000 && W(b, 3) == 0x00000000
    && W(b, 4) == 0x00000000 && W(b, 5) == 0x00000000 && W(b, 6) == 0x00000000 && W(b, 7) == 0x00000000
    && W(b, 8) == 0x00000000 && W(b, 9) == 0x00000000 && W(b, 10) == 0x00000000 && W(b, 11) == 0x00000000
    && W(b, 12) == 0x00000000 && W(b, 13) == 0x00000000 && W(b, 14) == 0x00000000 && W(b, 15) == 0x000001C0
  }

  ghost predicate SecondWords0(b: seq<byte>) {
    && |b| == 64
    && W(b, 0) == 0x00000000 && W(b, 1) == 0x00000000 && W(b, 2) == 0x00000000 && W(b, 3) == 0x00000000
    && W(b, 4) == 0x00000000 && W(b, 5) == 0x00000000 && W(b, 6) == 0x00000000 && W(b, 7) == 0x00000000
    && W(b, 8) == 0x00000000 && W(b, 9) == 0x00000000 && W(b, 10) == 0x00000000 && W(b, 11) == 0x00000000
    && W(b, 12) == 0x00000000 && W(b, 13) == 0x00000000 && W(b, 14) == 0x00000000 && W(b, 15) == 0x000001C0
    && W(b, 16) == 0x00000000 && W(b, 17) == 0x00000000 && W(b, 18) == 0x00000380 && W(b, 19) == 0x00000000
  }

  ghost predicate SecondWords20(b: seq<byte>) {
    && |b| == 64
    && W(b, 20) == 0x00000000 && W(b, 21) == 0x00000700 && W(b, 22) == 0x00000000 && W(b, 23) == 0x00000380
    && W(b, 24) == 0x00000E00 && W(b, 25) == 0x00000000 && W(b, 26) == 0x00000000 && W(b, 27) == 0x00001C00
    && W(b, 28) == 0x00000000 && W(b, 29) == 0x00000D80 && W(b, 30) == 0x00003800 && W(b, 31) == 0x00000480
    && W(b, 32) == 0x00000000 && W(b, 33) == 0x00007000 && W(b, 34) == 0x00000E00 && W(b, 35) == 0x00003600
    && W(b, 36) == 0x0000E000 && W(b, 37) == 0x00000E00 && W(b, 38) == 0x00000000 && W(b, 39) == 0x0001CE00
  }

  ghost predicate SecondWords40(b: seq<byte>) {
    && |b| == 64
    && W(b, 40) == 0x00000000 && W(b, 41) == 0x0000D800 && W(b, 42) == 0x00038000 && W(b, 43) == 0x00004F00
    && W(b, 44) == 0x00000000 && W(b, 45) == 0x00070E00 && W(b, 46) == 0x0000EE00 && W(b, 47) == 0x00037500
    && W(b, 48) == 0x000E0000 && W(b, 49) == 0x0000E000 && W(b, 50) == 0x00003600 && W(b, 51) == 0x001CEE00
    && W(b, 52) == 0x00000000 && W(b, 53) == 0x000DF000 && W(b, 54) == 0x00380000 && W(b, 55) == 0x0004C600
    && W(b, 56) == 0x0000E000 && W(b, 57) == 0x0070EE00 && W(b, 58) == 0x000EE000 && W(b, 59) == 0x00369E00
  }

  ghost predicate SecondWords60(b: seq<byte>) {
    && |b| == 64
    && W(b, 60) == 0x00E00000 && W(b, 61) == 0x000ED600 && W(b, 62) == 0x0000E000 && W(b, 63) == 0x01CEA600
    && W(b, 64) == 0x00000000 && W(b, 65) == 0x00D80000 && W(b, 66) == 0x0380E000 && W(b, 67) == 0x004F0000
    && W(b, 68) == 0x00000000 && W(b, 69) == 0x070E0000 && W(b, 70) == 0x00EE0000 && W(b, 71) == 0x03751C00
    && W(b, 72) == 0x0E000000 && W(b, 73) == 0x00E0E000 && W(b, 74) == 0x00363800 && W(b, 75) == 0x1CEE9000
    && W(b, 76) == 0x00000000 && W(b, 77) == 0x0DF09000 && W(b, 78) == 0x3800E000 && W(b, 79) == 0x04C77400
  }

  lemma SecondSchedule(b: seq<byte>)
    requires SecondBlock(b)
    ensures SecondWords0(b) && SecondWords20(b) && SecondWords40(b) && SecondWords60(b)
  {
    assert SecondWords0(b);
    hide SecondBlock;
    SecondSchedule20(b);
    SecondSchedule40(b);
    SecondSchedule60(b);
  }

  lemma SecondSchedule20(b: seq<byte>)
    requires SecondWords0(b)
    ensures SecondWords20(b)
  {
  }

  lemma SecondSchedule40(b: seq<byte>)
    requires SecondWords20(b)
    ensures SecondWords40(b)
  {
  }

  lemma SecondSchedule60(b: seq<byte>)
    requires SecondWords40(b)
    ensures SecondWords60(b)
  {
  }

  lemma SecondTurns20(b: seq<byte>)
    requires SecondWords0(b)
    ensures Turns(MIDDLE, b, 20) == Regs(0xD8992153, 0xC2EB709F, 0x2946D62F, 0x9541F6DB, 0x365DC8D8)
  {
    hide W;
    assert Turns(MIDDLE, b, 0) == MIDDLE;
    assert A(MIDDLE, b, 1) == 0x2DF257E9 && A(MIDDLE, b, 2) == 0x4D3DC58F
        && A(MIDDLE, b, 3) == 0xC352BB05 && A(MIDDLE, b, 4) == 0xEEF743C6;
    assert A(MIDDLE, b, 5) == 0x41E34277 && A(MIDDLE, b, 6) == 0x5443915C
        && A(MIDDLE, b, 7) == 0xE7FA0377 && A(MIDDLE, b, 8) == 0xC6946813;
    assert A(MIDDLE, b, 9) == 0xFDDE1DE1 && A(MIDDLE, b, 10) == 0xB8538ACA
        && A(MIDDLE, b, 11) == 0x6BA94F63 && A(MIDDLE, b, 12) == 0x43A2792F;
    assert A(MIDDLE, b, 13) == 0xFECD7BBF && A(MIDDLE, b, 14) == 0xA2604CA8
        && A(MIDDLE, b, 15) == 0x258B0BAA && A(MIDDLE, b, 16) == 0xD9772360;
    assert A(MIDDLE, b, 17) == 0x5507DB6E && A(MIDDLE, b, 18) == 0xA51B58BC
        && A(MIDDLE, b, 19) == 0xC2EB709F && A(MIDDLE, b, 20) == 0xD8992153;
  }

  lemma SecondTurns40(b: seq<byte>)
    requires SecondWords20(b)
    requires Turns(MIDDLE, b, 20) == Regs(0xD8992153, 0xC2EB709F, 0x2946D62F, 0x9541F6DB, 0x365DC8D8)
    ensures Turns(MIDDLE, b, 40) == Regs(0x03BB6310, 0x84E2A5F2, 0x21F56E03, 0xB3BD6B84, 0x1A5B6901)
  {
    hide W;
    assert A(MIDDLE, b, 21) == 0x37482F5F && A(MIDDLE, b, 22) == 0xEE8700BD
        && A(MIDDLE, b, 23) == 0x9AD594B9 && A(MIDDLE, b, 24) == 0x8FBAA5B9;
    assert A(MIDDLE, b, 25) == 0x88FB5867 && A(MIDDLE, b, 26) == 0xEEC50521
        && A(MIDDLE, b, 27) == 0x50BCE434 && A(MIDDLE, b, 28) == 0x5C416DAF;
    assert A(MIDDLE, b, 29) == 0x2429BE5F && A(MIDDLE, b, 30) == 0x0A2FB108
        && A(MIDDLE, b, 31) == 0x17986223 && A(MIDDLE, b, 32) == 0x8A4AF384;
    assert A(MIDDLE, b, 33) == 0x6B629993 && A(MIDDLE, b, 34) == 0xF15F04F3
        && A(MIDDLE, b, 35) == 0x295CC25B && A(MIDDLE, b, 36) == 0x696DA404;
    assert A(MIDDLE, b, 37) == 0xCEF5AE12 && A(MIDDLE, b, 38) == 0x87D5B80C
        && A(MIDDLE, b, 39) == 0x84E2A5F2 && A(MIDDLE, b, 40) == 0x03BB6310;
  }

  lemma SecondTurns60(b: seq<byte>)
    requires SecondWords40(b)
    requires Turns(MIDDLE, b, 40) == Regs(0x03BB6310, 0x84E2A5F2, 0x21F56E03, 0xB3BD6B84, 0x1A5B6901)
    ensures Turns(MIDDLE, b, 60) == Regs(0xA65818F7, 0x5B086C42, 0xB9E15956, 0xEA1256A6, 0xDB69CB9F)
  {
    hide W;
    assert A(MIDDLE, b, 41) == 0xC2D8F75F && A(MIDDLE, b, 42) == 0xBFB25768
        && A(MIDDLE, b, 43) == 0x28589152 && A(MIDDLE, b, 44) == 0xEC1D3D61;
    assert A(MIDDLE, b, 45) == 0x3CAED7AF && A(MIDDLE, b, 46) == 0xC3D033EA
        && A(MIDDLE, b, 47) == 0x7316056A && A(MIDDLE, b, 48) == 0x46F93B68;
    assert A(MIDDLE, b, 49) == 0xDC8E7F26 && A(MIDDLE, b, 50) == 0x850D411C
        && A(MIDDLE, b, 51) == 0x7E4672C0 && A(MIDDLE, b, 52) == 0x89FBD41D;
    assert A(MIDDLE, b, 53) == 0x1797E228 && A(MIDDLE, b, 54) == 0x431D65BC
        && A(MIDDLE, b, 55) == 0x2BDBB8CB && A(MIDDLE, b, 56) == 0x6DA72E7F;
    assert A(MIDDLE, b, 57) == 0xA8495A9B && A(MIDDLE, b, 58) == 0xE785655A
        && A(MIDDLE, b, 59) == 0x5B086C42 && A(MIDDLE, b, 60) == 0xA65818F7;
  }

  lemma SecondTurns80(b: seq<byte>)
    requires SecondWords60(b)
    requires Turns(MIDDLE, b, 60) == Regs(0xA65818F7, 0x5B086C42, 0xB9E15956, 0xEA1256A6, 0xDB69CB9F)
    ensures Turns(MIDDLE, b, 80) == Regs(0x906FD62C, 0x58C0AAC0, 0xB6A55520, 0x74E9B89D, 0x9AF00B7F)
  {
    hide W;
    assert A(MIDDLE, b, 61) == 0x7AAB101B && A(MIDDLE, b, 62) == 0x93614C9C
        && A(MIDDLE, b, 63) == 0xF66D9BF4 && A(MIDDLE, b, 64) == 0xD504902B;
    assert A(MIDDLE, b, 65) == 0x60A9DA62 && A(MIDDLE, b, 66) == 0x8B687819
        && A(MIDDLE, b, 67) == 0x083E90C3 && A(MIDDLE, b, 68) == 0xF6226BBF;
    assert A(MIDDLE, b, 69) == 0x76C0563B && A(MIDDLE, b, 70) == 0x989DD165
        && A(MIDDLE, b, 71) == 0x8B2C7573 && A(MIDDLE, b, 72) == 0xAE1B8E7B;
    assert A(MIDDLE, b, 73) == 0xCA1840DE && A(MIDDLE, b, 74) == 0x16F3BABB
        && A(MIDDLE, b, 75) == 0xD28D83AD && A(MIDDLE, b, 76) == 0x6BC02DFE;
    assert A(MIDDLE, b, 77) == 0xD3A6E275 && A(MIDDLE, b, 78) == 0xDA955482
        && A(MIDDLE, b, 79) == 0x58C0AAC0 && A(MIDDLE, b, 80) == 0x906FD62C;
  }

  lemma SecondCompress(b: seq<byte>)
    requires SecondBlock(b)
    ensures Compress(MIDDLE, b) == Regs(0x84983E44, 0x1C3BD26E, 0xBAAE4AA1, 0xF95129E5, 0xE54670F1)
  {
    SecondSchedule(b);
    hide SecondWords0;
    hide SecondWords20;
    hide SecondWords40;
    hide SecondWords60;
    hide Turns;
    hide SecondBlock;
    SecondTurns20(b);
    SecondTurns40(b);
    SecondTurns60(b);
    SecondTurns80(b);
  }

  // --- the digests ----------------------------------------------------------------------------------------

  /** The octets of a padded message: its own, the one bit, zeros, and the octets of its length in bits. */
  lemma PadAt(message: seq<byte>, k: nat)
    requires k < |Pad(message)|
    ensures Pad(message)[k] ==
            if k < |message| then message[k]
            else if k == |message| then 0x80
            else if k <= |message| + Zeros(|message|) then 0
            else LengthField(|message|)[k - |message| - 1 - Zeros(|message|)]
  {
    hide LengthField;
  }

  lemma ShortLength(n: nat, high: nat, low: nat)
    requires 8 * n == 0x100 * high + low && high < 256 && low < 256
    ensures LengthField(n) == [0, 0, 0, 0, 0, 0, ByteOf(high), ByteOf(low)]
  {
    SmallWord(0, 0, 0);
    SmallWord(8 * n, high, low);
    assert ByteOf(0) == 0;
    hide ByteOf;
    hide ToBE32;
    assert 8 * n / TWO_32 == 0 && 8 * n % TWO_32 == 8 * n;
  }

  /** Four octets of a message that are zero once it is padded. */
  lemma ZeroWord(b: seq<byte>, message: seq<byte>, at: nat, t: nat)
    requires |b| == 64 && at + 64 <= |Pad(message)| && b == Pad(message)[at..at + 64] && t < 16
    requires |message| < at + 4 * t && at + 4 * t + 3 <= |message| + Zeros(|message|)
    ensures W(b, t) == 0
  {
    PadAt(message, at + 4 * t);
    PadAt(message, at + 4 * t + 1);
    PadAt(message, at + 4 * t + 2);
    PadAt(message, at + 4 * t + 3);
    hide Pad;
    hide Zeros;
  }

  lemma ZeroWords(b: seq<byte>, message: seq<byte>, at: nat, from: nat, to: nat)
    requires |b| == 64 && at + 64 <= |Pad(message)| && b == Pad(message)[at..at + 64] && to <= 16
    requires from < to ==> |message| < at + 4 * from && at + 4 * to - 1 <= |message| + Zeros(|message|)
    ensures forall t :: from <= t < to ==> W(b, t) == 0
  {
    forall t | from <= t < to
      ensures W(b, t) == 0
    {
      ZeroWord(b, message, at, t);
    }
  }

  lemma LengthOctet(b: seq<byte>, message: seq<byte>, at: nat, k: nat)
    requires |b| == 64 && at + 64 == |Pad(message)| && b == Pad(message)[at..] && k < 8
    ensures b[56 + k] == LengthField(|message|)[k]
  {
    PadSize(message);
    PadAt(message, at + 56 + k);
    hide Pad;
    hide Zeros;
    hide LengthField;
  }

  /** The words that hold the length. */
  lemma LengthWords(b: seq<byte>, message: seq<byte>, at: nat, high: nat, low: nat)
    requires |b| == 64 && at + 64 == |Pad(message)| && b == Pad(message)[at..]
    requires 8 * |message| == 0x100 * high + low && high < 256 && low < 256
    ensures W(b, 14) == 0 && W(b, 15) == WordBE(0, 0, ByteOf(high), ByteOf(low))
  {
    hide Pad;
    hide Zeros;
    hide LengthField;
    PadSize(message);
    ShortLength(|message|, high, low);
    LengthOctet(b, message, at, 0);
    LengthOctet(b, message, at, 1);
    LengthOctet(b, message, at, 2);
    LengthOctet(b, message, at, 3);
    LengthOctet(b, message, at, 4);
    LengthOctet(b, message, at, 5);
    LengthOctet(b, message, at, 6);
    LengthOctet(b, message, at, 7);
    assert b[56] == 0 && b[57] == 0 && b[58] == 0 && b[59] == 0 && b[60] == 0 && b[61] == 0;
    assert b[62] == ByteOf(high) && b[63] == ByteOf(low);
    hide ByteOf;
    WordOf(b, 14, 0, 0, 0, 0);
    WordOf(b, 15, 0, 0, ByteOf(high), ByteOf(low));
    hide W;
  }

  lemma PadSize(message: seq<byte>)
    ensures |Pad(message)| == |message| + 9 + Zeros(|message|)
  {
  }

  lemma WordOf(b: seq<byte>, t: nat, c0: byte, c1: byte, c2: byte, c3: byte)
    requires |b| == 64 && t < 16
    requires b[4 * t] == c0 && b[4 * t + 1] == c1 && b[4 * t + 2] == c2 && b[4 * t + 3] == c3
    ensures W(b, t) == WordBE(c0, c1, c2, c3)
  {
  }

  lemma Test1Words(b: seq<byte>)
    requires b == Pad(TEST1)
    ensures AbcBlock(b)
  {
    hide W;
    PadSize(TEST1);
    Fillers();
    hide Zeros;
    PadAt(TEST1, 0);
    PadAt(TEST1, 1);
    PadAt(TEST1, 2);
    PadAt(TEST1, 3);
    hide Pad;
    hide LengthField;
    WordOf(b, 0, 0x61, 0x62, 0x63, 0x80);
    assert b[0..64] == b && b[0..] == b;
    ZeroWords(b, TEST1, 0, 1, 14);
    LengthWords(b, TEST1, 0, 0, 24);
    SmallOctets();
    hide ByteOf;
  }

  lemma Fillers()
    ensures Zeros(|TEST1|) == 52 && Zeros(|TEST2|) == 63
  {
  }

  lemma SmallOctets()
    ensures ByteOf(0) == 0 && ByteOf(1) == 1 && ByteOf(24) == 0x18 && ByteOf(192) == 0xC0
  {
  }

  /** The digest of "abc". */
  lemma Test1Digest()
    ensures Digest(TEST1)
         == [0xA9, 0x99, 0x3E, 0x36, 0x47, 0x06, 0x81, 0x6A, 0xBA, 0x3E,
             0x25, 0x71, 0x78, 0x50, 0xC2, 0x6C, 0x9C, 0xD0, 0xD8, 0x9D]
  {
    hide Compress;
    hide Pad;
    hide AbcBlock;
    var p := Pad(TEST1);
    PadSize(TEST1);
    Fillers();
    hide Zeros;
    Test1Words(p);
    AbcCompress(p);
    assert p[0..64] == p;
    assert Fold(H0, p, 0) == H0 && Fold(H0, p, 1) == Compress(H0, p);
    hide Fold;
    AbcOctets();
  }

  lemma AbcOctets()
    ensures RegBytes(Regs(0xA9993E36, 0x4706816A, 0xBA3E2571, 0x7850C26C, 0x9CD0D89D))
         == [0xA9, 0x99, 0x3E, 0x36, 0x47, 0x06, 0x81, 0x6A, 0xBA, 0x3E,
             0x25, 0x71, 0x78, 0x50, 0xC2, 0x6C, 0x9C, 0xD0, 0xD8, 0x9D]
  {
  }

  lemma PartOctet(b: seq<byte>, message: seq<byte>, part: seq<byte>, at: nat, i: nat)
    requires |b| == 64 && 64 <= |Pad(message)| && b == Pad(message)[..64] && i < |part| && 4 * at + i < 64
    requires 4 * at + |part| <= |message| && message[4 * at..4 * at + |part|] == part
    ensures b[4 * at + i] == part[i]
  {
    PadAt(message, 4 * at + i);
    hide Pad;
    assert message[4 * at..4 * at + |part|][i] == message[4 * at + i];
  }

  /** A word of a part of the message. */
  lemma PartWord(b: seq<byte>, message: seq<byte>, part: seq<byte>, at: nat, j: nat)
    requires |b| == 64 && 64 <= |Pad(message)| && b == Pad(message)[..64]
    requires 4 * at + |part| <= |message| && message[4 * at..4 * at + |part|] == part
    requires 4 * j + 4 <= |part| && at + j < 16
    ensures W(b, at + j) == WordBE(part[4 * j], part[4 * j + 1], part[4 * j + 2], part[4 * j + 3])
  {
    hide Pad;
    hide W;
    hide WordBE;
    PartOctet(b, message, part, at, 4 * j);
    PartOctet(b, message, part, at, 4 * j + 1);
    PartOctet(b, message, part, at, 4 * j + 2);
    PartOctet(b, message, part, at, 4 * j + 3);
    WordOf(b, at + j, part[4 * j], part[4 * j + 1], part[4 * j + 2], part[4 * j + 3]);
  }

  lemma Test2Parts()
    ensures TEST2[0..16] == T0 && TEST2[16..32] == T16 && TEST2[32..48] == T32 && TEST2[48..56] == T48
  {
  }

  lemma Test2Words0(b: seq<byte>)
    requires |Pad(TEST2)| == 128 && b == Pad(TEST2)[..64]
    ensures W(b, 0) == 0x61626364 && W(b, 1) == 0x62636465 && W(b, 2) == 0x63646566 && W(b, 3) == 0x64656667
  {
    hide W;
    hide Pad;
    Test2Parts();
    PartWord(b, TEST2, T0, 0, 0);
    PartWord(b, TEST2, T0, 0, 1);
    PartWord(b, TEST2, T0, 0, 2);
    PartWord(b, TEST2, T0, 0, 3);
  }

  lemma Test2Words4(b: seq<byte>)
    requires |Pad(TEST2)| == 128 && b == Pad(TEST2)[..64]
    ensures W(b, 4) == 0x65666768 && W(b, 5) == 0x66676869 && W(b, 6) == 0x6768696A && W(b, 7) == 0x68696A6B
  {
    hide W;
    hide Pad;
    Test2Parts();
    PartWord(b, TEST2, T16, 4, 0);
    PartWord(b, TEST2, T16, 4, 1);
    PartWord(b, TEST2, T16, 4, 2);
    PartWord(b, TEST2, T16, 4, 3);
  }

  lemma Test2Words8(b: seq<byte>)
    requires |Pad(TEST2)| == 128 && b == Pad(TEST2)[..64]
    ensures W(b, 8) == 0x696A6B6C && W(b, 9) == 0x6A6B6C6D && W(b, 10) == 0x6B6C6D6E && W(b, 11) == 0x6C6D6E6F
  {
    hide W;
    hide Pad;
    Test2Parts();
    PartWord(b, TEST2, T32, 8, 0);
    PartWord(b, TEST2, T32, 8, 1);
    PartWord(b, TEST2, T32, 8, 2);
    PartWord(b, TEST2, T32, 8, 3);
  }

  lemma Test2Words12(b: seq<byte>)
    requires |Pad(TEST2)| == 128 && b == Pad(TEST2)[..64]
    ensures W(b, 12) == 0x6D6E6F70 && W(b, 13) == 0x6E6F7071
  {
    hide W;
    hide Pad;
    Test2Parts();
    PartWord(b, TEST2, T48, 12, 0);
    PartWord(b, TEST2, T48, 12, 1);
  }

  lemma Test2First(b: seq<byte>)
    requires |Pad(TEST2)| == 128 && b == Pad(TEST2)[..64]
    ensures FirstBlock(b)
  {
    hide W;
    hide Pad;
    Test2Words0(b);
    Test2Words4(b);
    Test2Words8(b);
    Test2Words12(b);
    BitWord(b);
    Fillers();
    hide Zeros;
    assert b == Pad(TEST2)[0..0 + 64];
    ZeroWords(b, TEST2, 0, 15, 16);
  }

  lemma Test2Second(c: seq<byte>)
    requires |Pad(TEST2)| == 128 && c == Pad(TEST2)[64..]
    ensures SecondBlock(c)
  {
    hide W;
    hide Pad;
    Fillers();
    hide Zeros;
    assert c == Pad(TEST2)[64..64 + 64];
    ZeroWords(c, TEST2, 64, 0, 14);
    LengthWords(c, TEST2, 64, 1, 192);
    SmallOctets();
    hide ByteOf;
  }

  lemma BitWord(b: seq<byte>)
    requires |Pad(TEST2)| == 128 && b == Pad(TEST2)[..64]
    ensures W(b, 14) == 0x80000000
  {
    Fillers();
    hide Zeros;
    PadAt(TEST2, 56);
    PadAt(TEST2, 57);
    PadAt(TEST2, 58);
    PadAt(TEST2, 59);
    hide Pad;
  }

  /** The digest of TEST2, which fills two blocks. */
  lemma Test2Digest()
    ensures Digest(TEST2)
         == [0x84, 0x98, 0x3E, 0x44, 0x1C, 0x3B, 0xD2, 0x6E, 0xBA, 0xAE,
             0x4A, 0xA1, 0xF9, 0x51, 0x29, 0xE5, 0xE5, 0x46, 0x70, 0xF1]
  {
    hide Compress;
    hide Pad;
    hide FirstBlock;
    hide SecondBlock;
    var p := Pad(TEST2);
    PadSize(TEST2);
    Fillers();
    hide Zeros;
    Test2First(p[..64]);
    Test2Second(p[64..]);
    FirstCompress(p[..64]);
    SecondCompress(p[64..]);
    assert p[0..64] == p[..64] && p[64..128] == p[64..];
    assert Fold(H0, p, 0) == H0;
    assert Fold(H0, p, 1) == MIDDLE;
    assert Fold(H0, p, 2) == Compress(MIDDLE, p[64..]);
    hide Fold;
    Test2Octets();
  }

  lemma Test2Octets()
    ensures RegBytes(Regs(0x84983E44, 0x1C3BD26E, 0xBAAE4AA1, 0xF95129E5, 0xE54670F1))
         == [0x84, 0x98, 0x3E, 0x44, 0x1C, 0x3B, 0xD2, 0x6E, 0xBA, 0xAE,
             0x4A, 0xA1, 0xF9, 0x51, 0x29, 0xE5, 0xE5, 0x46, 0x70, 0xF1]
  {
  }
}
