/**
  The OS-9 module checksum: the table-driven step of the assembler, the shifting step of the
  module checker, and the trailer that the assembler appends.
 */
module Crc {
  type Byte = bv8

  /** The operators of C on unsigned characters. */
  function Xor(a: Byte, b: Byte): Byte { a ^ b }

  function Shl(a: Byte, k: Byte): Byte
    requires k <= 8
  {
    a << k
  }

  function Shr(a: Byte, k: Byte): Byte
    requires k <= 8
  {
    a >> k
  }

  predicate TopBit(a: Byte) { a & 0x80 != 0 }

  /** crctable, sixteen entries to a row. */
  function Crctable(i: Byte): bv32 {
    if i < 0x10 then Row0(i)
    else if i < 0x20 then Row1(i)
    else if i < 0x30 then Row2(i)
    else if i < 0x40 then Row3(i)
    else if i < 0x50 then Row4(i)
    else if i < 0x60 then Row5(i)
    else if i < 0x70 then Row6(i)
    else if i < 0x80 then Row7(i)
    else if i < 0x90 then Row8(i)
    else if i < 0xa0 then Row9(i)
    else if i < 0xb0 then RowA(i)
    else if i < 0xc0 then RowB(i)
    else if i < 0xd0 then RowC(i)
    else if i < 0xe0 then RowD(i)
    else if i < 0xf0 then RowE(i)
    else RowF(i)
  }

  function Row0(i: Byte): bv32 {
    match i
    case 0x00 => 0x000000
    case 0x01 => 0x800063
    case 0x02 => 0x8000a5
    case 0x03 => 0x0000c6
    case 0x04 => 0x800129
    case 0x05 => 0x00014a
    case 0x06 => 0x00018c
    case 0x07 => 0x8001ef
    case 0x08 => 0x800231
    case 0x09 => 0x000252
    case 0x0a => 0x000294
    case 0x0b => 0x8002f7
    case 0x0c => 0x000318
    case 0x0d => 0x80037b
    case 0x0e => 0x8003bd
    case _ => 0x0003de
  }

  function Row1(i: Byte): bv32 {
    match i
    case 0x10 => 0x800401
    case 0x11 => 0x000462
    case 0x12 => 0x0004a4
    case 0x13 => 0x8004c7
    case 0x14 => 0x000528
    case 0x15 => 0x80054b
    case 0x16 => 0x80058d
    case 0x17 => 0x0005ee
    case 0x18 => 0x000630
    case 0x19 => 0x800653
    case 0x1a => 0x800695
    case 0x1b => 0x0006f6
    case 0x1c => 0x800719
    case 0x1d => 0x00077a
    case 0x1e => 0x0007bc
    case _ => 0x8007df
  }

  function Row2(i: Byte): bv32 {
    match i
    case 0x20 => 0x800861
    case 0x21 => 0x000802
    case 0x22 => 0x0008c4
    case 0x23 => 0x8008a7
    case 0x24 => 0x000948
    case 0x25 => 0x80092b
    case 0x26 => 0x8009ed
    case 0x27 => 0x00098e
    case 0x28 => 0x000a50
    case 0x29 => 0x800a33
    case 0x2a => 0x800af5
    case 0x2b => 0x000a96
    case 0x2c => 0x800b79
    case 0x2d => 0x000b1a
    case 0x2e => 0x000bdc
    case _ => 0x800bbf
  }

  function Row3(i: Byte): bv32 {
    match i
    case 0x30 => 0x000c60
    case 0x31 => 0x800c03
    case 0x32 => 0x800cc5
    case 0x33 => 0x000ca6
    case 0x34 => 0x800d49
    case 0x35 => 0x000d2a
    case 0x36 => 0x000dec
    case 0x37 => 0x800d8f
    case 0x38 => 0x800e51
    case 0x39 => 0x000e32
    case 0x3a => 0x000ef4
    case 0x3b => 0x800e97
    case 0x3c => 0x000f78
    case 0x3d => 0x800f1b
    case 0x3e => 0x800fdd
    case _ => 0x000fbe
  }

  function Row4(i: Byte): bv32 {
    match i
    case 0x40 => 0x8010a1
    case 0x41 => 0x0010c2
    case 0x42 => 0x001004
    case 0x43 => 0x801067
    case 0x44 => 0x001188
    case 0x45 => 0x8011eb
    case 0x46 => 0x80112d
    case 0x47 => 0x00114e
    case 0x48 => 0x001290
    case 0x49 => 0x8012f3
    case 0x4a => 0x801235
    case 0x4b => 0x001256
    case 0x4c => 0x8013b9
    case 0x4d => 0x0013da
    case 0x4e => 0x00131c
    case _ => 0x80137f
  }

  function Row5(i: Byte): bv32 {
    match i
    case 0x50 => 0x0014a0
    case 0x51 => 0x8014c3
    case 0x52 => 0x801405
    case 0x53 => 0x001466
    case 0x54 => 0x801589
    case 0x55 => 0x0015ea
    case 0x56 => 0x00152c
    case 0x57 => 0x80154f
    case 0x58 => 0x801691
    case 0x59 => 0x0016f2
    case 0x5a => 0x001634
    case 0x5b => 0x801657
    case 0x5c => 0x0017b8
    case 0x5d => 0x8017db
    case 0x5e => 0x80171d
    case _ => 0x00177e
  }

  function Row6(i: Byte): bv32 {
    match i
    case 0x60 => 0x0018c0
    case 0x61 => 0x8018a3
    case 0x62 => 0x801865
    case 0x63 => 0x001806
    case 0x64 => 0x8019e9
    case 0x65 => 0x00198a
    case 0x66 => 0x00194c
    case 0x67 => 0x80192f
    case 0x68 => 0x801af1
    case 0x69 => 0x001a92
    case 0x6a => 0x001a54
    case 0x6b => 0x801a37
    case 0x6c => 0x001bd8
    case 0x6d => 0x801bbb
    case 0x6e => 0x801b7d
    case _ => 0x001b1e
  }

  function Row7(i: Byte): bv32 {
    match i
    case 0x70 => 0x801cc1
    case 0x71 => 0x001ca2
    case 0x72 => 0x001c64
    case 0x73 => 0x801c07
    case 0x74 => 0x001de8
    case 0x75 => 0x801d8b
    case 0x76 => 0x801d4d
    case 0x77 => 0x001d2e
    case 0x78 => 0x001ef0
    case 0x79 => 0x801e93
    case 0x7a => 0x801e55
    case 0x7b => 0x001e36
    case 0x7c => 0x801fd9
    case 0x7d => 0x001fba
    case 0x7e => 0x001f7c
    case _ => 0x801f1f
  }

  function Row8(i: Byte): bv32 {
    match i
    case 0x80 => 0x802121
    case 0x81 => 0x002142
    case 0x82 => 0x002184
    case 0x83 => 0x8021e7
    case 0x84 => 0x002008
    case 0x85 => 0x80206b
    case 0x86 => 0x8020ad
    case 0x87 => 0x0020ce
    case 0x88 => 0x002310
    case 0x89 => 0x802373
    case 0x8a => 0x8023b5
    case 0x8b => 0x0023d6
    case 0x8c => 0x802239
    case 0x8d => 0x00225a
    case 0x8e => 0x00229c
    case _ => 0x8022ff
  }

  function Row9(i: Byte): bv32 {
    match i
    case 0x90 => 0x002520
    case 0x91 => 0x802543
    case 0x92 => 0x802585
    case 0x93 => 0x0025e6
    case 0x94 => 0x802409
    case 0x95 => 0x00246a
    case 0x96 => 0x0024ac
    case 0x97 => 0x8024cf
    case 0x98 => 0x802711
    case 0x99 => 0x002772
    case 0x9a => 0x0027b4
    case 0x9b => 0x8027d7
    case 0x9c => 0x002638
    case 0x9d => 0x80265b
    case 0x9e => 0x80269d
    case _ => 0x0026fe
  }

  function RowA(i: Byte): bv32 {
    match i
    case 0xa0 => 0x002940
    case 0xa1 => 0x802923
    case 0xa2 => 0x8029e5
    case 0xa3 => 0x002986
    case 0xa4 => 0x802869
    case 0xa5 => 0x00280a
    case 0xa6 => 0x0028cc
    case 0xa7 => 0x8028af
    case 0xa8 => 0x802b71
    case 0xa9 => 0x002b12
    case 0xaa => 0x002bd4
    case 0xab => 0x802bb7
    case 0xac => 0x002a58
    case 0xad => 0x802a3b
    case 0xae => 0x802afd
    case _ => 0x002a9e
  }

  function RowB(i: Byte): bv32 {
    match i
    case 0xb0 => 0x802d41
    case 0xb1 => 0x002d22
    case 0xb2 => 0x002de4
    case 0xb3 => 0x802d87
    case 0xb4 => 0x002c68
    case 0xb5 => 0x802c0b
    case 0xb6 => 0x802ccd
    case 0xb7 => 0x002cae
    case 0xb8 => 0x002f70
    case 0xb9 => 0x802f13
    case 0xba => 0x802fd5
    case 0xbb => 0x002fb6
    case 0xbc => 0x802e59
    case 0xbd => 0x002e3a
    case 0xbe => 0x002efc
    case _ => 0x802e9f
  }

  function RowC(i: Byte): bv32 {
    match i
    case 0xc0 => 0x003180
    case 0xc1 => 0x8031e3
    case 0xc2 => 0x803125
    case 0xc3 => 0x003146
    case 0xc4 => 0x8030a9
    case 0xc5 => 0x0030ca
    case 0xc6 => 0x00300c
    case 0xc7 => 0x80306f
    case 0xc8 => 0x8033b1
    case 0xc9 => 0x0033d2
    case 0xca => 0x003314
    case 0xcb => 0x803377
    case 0xcc => 0x003298
    case 0xcd => 0x8032fb
    case 0xce => 0x80323d
    case _ => 0x00325e
  }

  function RowD(i: Byte): bv32 {
    match i
    case 0xd0 => 0x803581
    case 0xd1 => 0x0035e2
    case 0xd2 => 0x003524
    case 0xd3 => 0x803547
    case 0xd4 => 0x0034a8
    case 0xd5 => 0x8034cb
    case 0xd6 => 0x80340d
    case 0xd7 => 0x00346e
    case 0xd8 => 0x0037b0
    case 0xd9 => 0x8037d3
    case 0xda => 0x803715
    case 0xdb => 0x003776
    case 0xdc => 0x803699
    case 0xdd => 0x0036fa
    case 0xde => 0x00363c
    case _ => 0x80365f
  }

  function RowE(i: Byte): bv32 {
    match i
    case 0xe0 => 0x8039e1
    case 0xe1 => 0x003982
    case 0xe2 => 0x003944
    case 0xe3 => 0x803927
    case 0xe4 => 0x0038c8
    case 0xe5 => 0x8038ab
    case 0xe6 => 0x80386d
    case 0xe7 => 0x00380e
    case 0xe8 => 0x003bd0
    case 0xe9 => 0x803bb3
    case 0xea => 0x803b75
    case 0xeb => 0x003b16
    case 0xec => 0x803af9
    case 0xed => 0x003a9a
    case 0xee => 0x003a5c
    case _ => 0x803a3f
  }

  function RowF(i: Byte): bv32 {
    match i
    case 0xf0 => 0x003de0
    case 0xf1 => 0x803d83
    case 0xf2 => 0x803d45
    case 0xf3 => 0x003d26
    case 0xf4 => 0x803cc9
    case 0xf5 => 0x003caa
    case 0xf6 => 0x003c6c
    case 0xf7 => 0x803c0f
    case 0xf8 => 0x803fd1
    case 0xf9 => 0x003fb2
    case 0xfa => 0x003f74
    case 0xfb => 0x803f17
    case 0xfc => 0x003ef8
    case 0xfd => 0x803e9b
    case 0xfe => 0x803e5d
    case _ => 0x003e3e
  }

  /** UPDCRC; the C type int has 32 bits. */
  function TableStep(c: Byte, crc: bv32): bv32 {
    Crctable(Xor(TopByte(crc), c)) ^ (crc << 8)
  }

  /** The bytes of the checksum as the checker keeps them. */
  datatype Three = Three(c0: Byte, c1: Byte, c2: Byte)

  /** Bit 7 is the parity of a. */
  function Spread(a: Byte): Byte {
    var b := Xor(a, Shl(a, 1));
    var d := Xor(b, Shl(b, 2));
    Xor(d, Shl(d, 4))
  }

  /** What one byte a, combined with the top byte, adds to the shifted checksum. */
  function Terms(a: Byte): Three {
    var middle, low := Xor(Shr(a, 7), Shr(a, 2)), Xor(Shl(a, 1), Shl(a, 6));
    if TopBit(Spread(a)) then Three(0x80, middle, Xor(low, 0x21)) else Three(0, middle, low)
  }

  /** One round of os9_crc's loop. */
  function ShiftStep(x: Byte, crc: Three): Three {
    var w := Terms(Xor(x, crc.c0));
    Three(Xor(crc.c1, w.c0), Xor(crc.c2, w.c1), w.c2)
  }

  function Pack(c: Three): bv32 { ((c.c0 as bv32) << 16) | ((c.c1 as bv32) << 8) | (c.c2 as bv32) }

  function Unpack(crc: bv32): Three {
    Three(((crc >> 16) & 0xff) as Byte, ((crc >> 8) & 0xff) as Byte, (crc & 0xff) as Byte)
  }

  lemma Entries0(a: Byte)
    requires a <= 0x0f
    ensures Crctable(a) == Pack(Terms(a))
  {}

  lemma Entries1(a: Byte)
    requires 0x10 <= a <= 0x1f
    ensures Crctable(a) == Pack(Terms(a))
  {}

  lemma Entries2(a: Byte)
    requires 0x20 <= a <= 0x2f
    ensures Crctable(a) == Pack(Terms(a))
  {}

  lemma Entries3(a: Byte)
    requires 0x30 <= a <= 0x3f
    ensures Crctable(a) == Pack(Terms(a))
  {}

  lemma Entries4(a: Byte)
    requires 0x40 <= a <= 0x4f
    ensures Crctable(a) == Pack(Terms(a))
  {}

  lemma Entries5(a: Byte)
    requires 0x50 <= a <= 0x5f
    ensures Crctable(a) == Pack(Terms(a))
  {}

  lemma Entries6(a: Byte)
    requires 0x60 <= a <= 0x6f
    ensures Crctable(a) == Pack(Terms(a))
  {}

  lemma Entries7(a: Byte)
    requires 0x70 <= a <= 0x7f
    ensures Crctable(a) == Pack(Terms(a))
  {}

  lemma Entries8(a: Byte)
    requires 0x80 <= a <= 0x8f
    ensures Crctable(a) == Pack(Terms(a))
  {}

  lemma Entries9(a: Byte)
    requires 0x90 <= a <= 0x9f
    ensures Crctable(a) == Pack(Terms(a))
  {}

  lemma EntriesA(a: Byte)
    requires 0xa0 <= a <= 0xaf
    ensures Crctable(a) == Pack(Terms(a))
  {}

  lemma EntriesB(a: Byte)
    requires 0xb0 <= a <= 0xbf
    ensures Crctable(a) == Pack(Terms(a))
  {}

  lemma EntriesC(a: Byte)
    requires 0xc0 <= a <= 0xcf
    ensures Crctable(a) == Pack(Terms(a))
  {}

  lemma EntriesD(a: Byte)
    requires 0xd0 <= a <= 0xdf
    ensures Crctable(a) == Pack(Terms(a))
  {}

  lemma EntriesE(a: Byte)
    requires 0xe0 <= a <= 0xef
    ensures Crctable(a) == Pack(Terms(a))
  {}

  lemma EntriesF(a: Byte)
    requires a >= 0xf0
    ensures Crctable(a) == Pack(Terms(a))
  {}

  /** Every entry of the table is what the shifts make of its index. */
  lemma TableEntry(a: Byte)
    ensures Crctable(a) == Pack(Terms(a))
  {
    hide Crctable; hide Terms;
    if a <= 0x0f { Entries0(a); }
    else if a <= 0x1f { Entries1(a); }
    else if a <= 0x2f { Entries2(a); }
    else if a <= 0x3f { Entries3(a); }
    else if a <= 0x4f { Entries4(a); }
    else if a <= 0x5f { Entries5(a); }
    else if a <= 0x6f { Entries6(a); }
    else if a <= 0x7f { Entries7(a); }
    else if a <= 0x8f { Entries8(a); }
    else if a <= 0x9f { Entries9(a); }
    else if a <= 0xaf { EntriesA(a); }
    else if a <= 0xbf { EntriesB(a); }
    else if a <= 0xcf { EntriesC(a); }
    else if a <= 0xdf { EntriesD(a); }
    else if a <= 0xef { EntriesE(a); }
    else { EntriesF(a); }
  }

  lemma UnpackPack(c: Three)
    ensures Unpack(Pack(c)) == c
  {}

  lemma UnpackXor(t: bv32, crc: bv32)
    ensures var u, v := Unpack(t), Unpack(crc); Unpack(t ^ (crc << 8)) == Three(Xor(v.c1, u.c0), Xor(v.c2, u.c1), u.c2)
  {}

  /** The two steps agree on the low 24 bits. */
  lemma StepsAgree(c: Byte, crc: bv32)
    ensures Unpack(TableStep(c, crc)) == ShiftStep(c, Unpack(crc))
  {
    hide Crctable; hide Terms; hide Unpack; hide Pack; hide Xor; hide TopByte;
    var a := Xor(TopByte(crc), c);
    TableEntry(a);
    UnpackPack(Terms(a));
    UnpackXor(Crctable(a), crc);
    TopIs(crc, c);
  }

  function TopByte(crc: bv32): Byte { ((crc >> 16) & 0xff) as Byte }

  lemma TopIs(crc: bv32, c: Byte)
    ensures Xor(TopByte(crc), c) == Xor(c, Unpack(crc).c0)
  {}

  // ---------- messages ----------

  function TableCrc(m: seq<Byte>, crc: bv32): bv32 {
    if m == [] then crc else TableStep(m[|m| - 1], TableCrc(m[..|m| - 1], crc))
  }

  function ShiftCrc(m: seq<Byte>, crc: Three): Three {
    if m == [] then crc else ShiftStep(m[|m| - 1], ShiftCrc(m[..|m| - 1], crc))
  }

  /** Both programs compute the same checksum of every message. */
  lemma {:induction false} MessagesAgree(m: seq<Byte>, crc: bv32)
    ensures Unpack(TableCrc(m, crc)) == ShiftCrc(m, Unpack(crc))
  {
    hide TableStep; hide ShiftStep; hide Unpack;
    if m != [] {
      MessagesAgree(m[..|m| - 1], crc);
      StepsAgree(m[|m| - 1], TableCrc(m[..|m| - 1], crc));
    }
  }

  lemma {:induction false} ShiftAppend(m: seq<Byte>, t: seq<Byte>, crc: Three)
    ensures ShiftCrc(m + t, crc) == ShiftCrc(t, ShiftCrc(m, crc))
  {
    hide ShiftStep;
    if t == [] {
      assert m + t == m;
    } else {
      assert (m + t)[..|m + t| - 1] == m + t[..|t| - 1];
      ShiftAppend(m, t[..|t| - 1], crc);
    }
  }

  const START := Three(0xff, 0xff, 0xff)
  const RESET: bv32 := 0xffff_ffff
  const RESIDUE := Three(0x80, 0x0f, 0xe3)

  lemma ResetIsStart()
    ensures Unpack(RESET) == START
  {}

  function Complement(a: Byte): Byte { Xor(a, 0xff) }

  function TrailerOf(c: Three): seq<Byte> { [Complement(c.c0), Complement(c.c1), Complement(c.c2)] }

  /** os9end: the bytes of the complemented checksum, highest first. */
  function Trailer(crc: bv32): seq<Byte> {
    var x := crc ^ 0xff_ffff;
    [((x >> 16) & 0xff) as Byte, ((x >> 8) & 0xff) as Byte, (x & 0xff) as Byte]
  }

  lemma TrailerBytes(crc: bv32)
    ensures Trailer(crc) == TrailerOf(Unpack(crc))
  {}

  lemma Cancel(v: Byte, w: Byte)
    ensures Xor(Complement(v), Xor(v, w)) == Complement(w)
  {}

  lemma CancelSelf(v: Byte)
    ensures Xor(Complement(v), v) == 0xff
  {}

  lemma Three3(a: Byte, b: Byte, c: Byte, v: Three)
    ensures ShiftCrc([a, b, c], v) == ShiftStep(c, ShiftStep(b, ShiftStep(a, v)))
  {
    hide ShiftStep;
    assert [a, b, c] == [a, b] + [c] && [a, b] == [a] + [b];
    ShiftAppend([a, b], [c], v);
    ShiftAppend([a], [b], v);
    ShiftOne(a, v);
    ShiftOne(b, ShiftCrc([a], v));
    ShiftOne(c, ShiftCrc([a, b], v));
  }

  lemma ShiftOne(a: Byte, v: Three)
    ensures ShiftCrc([a], v) == ShiftStep(a, v)
  {
    hide ShiftStep;
    assert [a][..0] == [];
  }

  lemma FirstTerms()
    ensures Terms(0xff) == Three(0, 0x3e, 0x3e) && Terms(Complement(0)) == Three(0, 0x3e, 0x3e)
  {}

  /** The rest of the trailer's terms: they do not depend on the message. */
  lemma LaterTerms()
    ensures Terms(Complement(0x3e)) == Three(0x80, 0x31, 0xe3)
    ensures Xor(0x3e, 0x31) == 0x0f
  {}

  /** Whatever the checksum was, its complement drives it to the residue. */
  lemma TrailerResidue(v: Three)
    ensures ShiftCrc(TrailerOf(v), v) == RESIDUE
  {
    hide Terms; hide Xor; hide Complement;
    Three3(Complement(v.c0), Complement(v.c1), Complement(v.c2), v);
    FirstTerms();
    LaterTerms();
    var v1 := ShiftStep(Complement(v.c0), v);
    CancelSelf(v.c0);
    assert v1 == Three(Xor(v.c1, 0), Xor(v.c2, 0x3e), 0x3e);
    var v2 := ShiftStep(Complement(v.c1), v1);
    Cancel(v.c1, 0);
    XorZero(Xor(v.c2, 0x3e));
    assert v2 == Three(Xor(v.c2, 0x3e), Xor(0x3e, 0x3e), 0x3e);
    Cancel(v.c2, 0x3e);
    SelfXor();
  }

  lemma XorZero(a: Byte)
    ensures Xor(a, 0) == a
  {}

  lemma SelfXor()
    ensures Xor(0x3e, 0x3e) == 0 && Xor(0, 0x80) == 0x80
  {}

  // ---------- what the checksum detects ----------

  lemma TermsInjective(a: Byte, b: Byte)
    requires Terms(a).c2 == Terms(b).c2
    ensures a == b
  {}

  lemma XorInjective(a: Byte, b: Byte, c: Byte)
    ensures Xor(a, c) == Xor(b, c) ==> a == b
    ensures Xor(c, a) == Xor(c, b) ==> a == b
  {}

  /** From equal checksums back: the byte combined with the top byte was the same, and so
      were the other two. */
  lemma StepBack(x: Byte, u: Three, y: Byte, v: Three)
    requires ShiftStep(x, u) == ShiftStep(y, v)
    ensures Xor(x, u.c0) == Xor(y, v.c0) && u.c1 == v.c1 && u.c2 == v.c2
  {
    hide Terms; hide Xor;
    TermsInjective(Xor(x, u.c0), Xor(y, v.c0));
    var w := Terms(Xor(x, u.c0));
    XorInjective(u.c1, v.c1, w.c0);
    XorInjective(u.c2, v.c2, w.c1);
  }

  /** Different checksums stay different over the same bytes. */
  lemma {:induction false} StaysDifferent(t: seq<Byte>, u: Three, v: Three)
    requires ShiftCrc(t, u) == ShiftCrc(t, v)
    ensures u == v
  {
    hide ShiftStep; hide Xor;
    if t != [] {
      var x := t[|t| - 1];
      var u', v' := ShiftCrc(t[..|t| - 1], u), ShiftCrc(t[..|t| - 1], v);
      StepBack(x, u', x, v');
      XorInjective(u'.c0, v'.c0, x);
      StaysDifferent(t[..|t| - 1], u, v);
    }
  }

  /** Three bytes are determined by the checksums before and after them. */
  lemma ThreeBytes(a: Byte, b: Byte, c: Byte, a': Byte, b': Byte, c': Byte, v: Three)
    requires ShiftCrc([a, b, c], v) == ShiftCrc([a', b', c'], v)
    ensures a == a' && b == b' && c == c'
  {
    hide Terms; hide Xor;
    Three3(a, b, c, v);
    Three3(a', b', c', v);
    var v1, w1 := ShiftStep(a, v), ShiftStep(a', v);
    var v2, w2 := ShiftStep(b, v1), ShiftStep(b', w1);
    StepBack(c, v2, c', w2);
    TermsInjective(Xor(b, v1.c0), Xor(b', w1.c0));
    XorInjective(v1.c2, w1.c2, Terms(Xor(b, v1.c0)).c1);
    TermsInjective(Xor(a, v.c0), Xor(a', v.c0));
    XorInjective(a, a', v.c0);
    XorInjective(b, b', v1.c0);
    XorInjective(c, c', v2.c0);
  }

  lemma BurstEqual(pre: seq<Byte>, x: seq<Byte>, y: seq<Byte>, post: seq<Byte>, crc: Three)
    requires |x| == |y| == 3 && ShiftCrc(pre + x + post, crc) == ShiftCrc(pre + y + post, crc)
    ensures x == y
  {
    hide ShiftCrc; hide ShiftStep;
    ShiftAppend(pre + x, post, crc);
    ShiftAppend(pre + y, post, crc);
    ShiftAppend(pre, x, crc);
    ShiftAppend(pre, y, crc);
    var v := ShiftCrc(pre, crc);
    StaysDifferent(post, ShiftCrc(x, v), ShiftCrc(y, v));
    assert x == [x[0], x[1], x[2]] && y == [y[0], y[1], y[2]];
    ThreeBytes(x[0], x[1], x[2], y[0], y[1], y[2], v);
  }

  /** A change within three bytes in a row changes the checksum. */
  lemma BurstDetected(pre: seq<Byte>, x: seq<Byte>, y: seq<Byte>, post: seq<Byte>, crc: Three)
    requires |x| == |y| == 3 && x != y
    ensures ShiftCrc(pre + x + post, crc) != ShiftCrc(pre + y + post, crc)
  {
    hide ShiftCrc;
    if ShiftCrc(pre + x + post, crc) == ShiftCrc(pre + y + post, crc) { BurstEqual(pre, x, y, post, crc); }
  }

  // ---------- the programs ----------

  /** One round of the checker on its three bytes in place. */
  method Shift(crc: array<Byte>, x: Byte)
    requires crc.Length == 3
    modifies crc
    ensures Three(crc[0], crc[1], crc[2]) == ShiftStep(x, old(Three(crc[0], crc[1], crc[2])))
  {
    hide Xor; hide Shl; hide Shr; hide TopBit; hide ShiftStep; hide Terms;
    ghost var v := Three(crc[0], crc[1], crc[2]);
    StepIs(x, v);
    var a := x;
    a := Xor(a, crc[0]);
    crc[0] := crc[1];
    crc[1] := crc[2];
    crc[1] := Xor(crc[1], Shr(a, 7));
    crc[2] := Shl(a, 1);
    crc[1] := Xor(crc[1], Shr(a, 2));
    crc[2] := Xor(crc[2], Shl(a, 6));
    ghost var a0 := a;
    a := Xor(a, Shl(a, 1));
    a := Xor(a, Shl(a, 2));
    a := Xor(a, Shl(a, 4));
    assert a == Spread(a0);
    hide Spread;
    if TopBit(a) {
      crc[0] := Xor(crc[0], 0x80);
      crc[2] := Xor(crc[2], 0x21);
    }
  }

  /** The step with the two exclusive ors that the loop makes one by one. */
  lemma StepIs(x: Byte, v: Three)
    ensures var a := Xor(x, v.c0);
            var middle, low := Xor(Xor(v.c2, Shr(a, 7)), Shr(a, 2)), Xor(Shl(a, 1), Shl(a, 6));
            ShiftStep(x, v) == if TopBit(Spread(a)) then Three(Xor(v.c1, 0x80), middle, Xor(low, 0x21)) else Three(v.c1, middle, low)
  {
    hide Xor; hide Shl; hide Shr; hide TopBit; hide Spread;
    var a := Xor(x, v.c0);
    XorAssoc(v.c2, Shr(a, 7), Shr(a, 2));
    XorZero(v.c1);
  }

  lemma XorAssoc(a: Byte, b: Byte, c: Byte)
    ensures Xor(Xor(a, b), c) == Xor(a, Xor(b, c))
  {}

  /** The size that the header holds in bytes 2 and 3. */
  function Size(m: seq<Byte>): nat
    requires |m| >= 4
  {
    m[2] as nat * 256 + m[3] as nat
  }

  /** The bytes that the header counts have the residue as their checksum. */
  predicate Checks(m: seq<Byte>) {
    |m| >= 4 && Size(m) <= |m| && ShiftCrc(m[..Size(m)], START) == RESIDUE
  }

  /** os9_crc: whether the module checks. */
  method Os9Crc(m: seq<Byte>) returns (good: bool)
    requires |m| >= 4 && Size(m) <= |m|
    ensures good <==> Checks(m)
  {
    hide ShiftStep; hide Size;
    var crc := new Byte[3](_ => 0xff);
    var i := 0;
    assert m[..0] == [];
    while i < Size(m)
      invariant 0 <= i <= Size(m) && Three(crc[0], crc[1], crc[2]) == ShiftCrc(m[..i], START)
    {
      assert m[..i + 1][..i] == m[..i];
      Shift(crc, m[i]);
      i := i + 1;
    }
    good := crc[0] == 0x80 && crc[1] == 0x0f && crc[2] == 0xe3;
  }

  /** os9_header: the parity of nine bytes. */
  method Os9Header(m: seq<Byte>) returns (tmp: Byte)
    requires |m| >= 9
    ensures tmp == Parity(m[..9])
  {
    tmp := 0;
    var i := 0;
    assert m[..0] == [];
    while i < 9
      invariant 0 <= i <= 9 && tmp == Parity(m[..i])
    {
      assert m[..i + 1][..i] == m[..i];
      tmp := Xor(tmp, m[i]);
      i := i + 1;
    }
  }

  function Parity(m: seq<Byte>): Byte {
    if m == [] then 0 else Xor(Parity(m[..|m| - 1]), m[|m| - 1])
  }

  /** Bit k of a byte. */
  predicate On(b: Byte, k: Byte)
    requires k < 8
  {
    b & (1 << k) != 0
  }

  /** How many bytes have bit k. */
  function Ones(m: seq<Byte>, k: Byte): nat
    requires k < 8
  {
    if m == [] then 0 else (if On(m[0], k) then 1 else 0) + Ones(m[1..], k)
  }

  lemma {:induction false} OnesAppend(m: seq<Byte>, x: Byte, k: Byte)
    requires k < 8
    ensures Ones(m + [x], k) == Ones(m, k) + if On(x, k) then 1 else 0
  {
    hide On;
    if m == [] {
      assert m + [x] == [x] && [x][1..] == m;
    } else {
      assert (m + [x])[1..] == m[1..] + [x];
      OnesAppend(m[1..], x, k);
    }
  }

  lemma XorOn(a: Byte, b: Byte, k: Byte)
    requires k < 8
    ensures On(Xor(a, b), k) <==> On(a, k) != On(b, k)
  {}

  lemma NoneOn(k: Byte)
    requires k < 8
    ensures !On(0, k) && On(0xff, k)
  {}

  /** Bit k of the parity tells whether an odd number of bytes have it. */
  lemma {:induction false} ParityBits(m: seq<Byte>, k: Byte)
    requires k < 8
    ensures On(Parity(m), k) <==> Ones(m, k) % 2 == 1
  {
    hide On; hide Xor;
    if m == [] {
      NoneOn(k);
    } else {
      var q, x := m[..|m| - 1], m[|m| - 1];
      assert m == q + [x];
      ParityBits(q, k);
      XorOn(Parity(q), x, k);
      OnesAppend(q, x, k);
    }
  }

  /** The assembler's ninth byte makes the parity $ff: every bit is in an odd number of bytes. */
  lemma HeaderParity(m: seq<Byte>)
    requires |m| == 8
    ensures var h := m + [Xor(Parity(m), 0xff)]; Parity(h) == 0xff && forall k: Byte :: k < 8 ==> Ones(h, k) % 2 == 1
  {
    hide On; hide Ones;
    var h := m + [Xor(Parity(m), 0xff)];
    assert h[..8] == m;
    SelfCancel(Parity(m));
    forall k: Byte | k < 8 ensures Ones(h, k) % 2 == 1 {
      ParityBits(h, k);
      NoneOn(k);
    }
  }

  lemma SelfCancel(p: Byte)
    ensures Xor(p, Xor(p, 0xff)) == 0xff
  {}

  /** The assembler's side: outbuffer updates crc with every byte of the code, os9end appends
      the trailer. */
  method OutBuffer(code: seq<Byte>, crc0: bv32) returns (crc: bv32)
    ensures crc == TableCrc(code, crc0)
  {
    crc := crc0;
    var i := 0;
    assert code[..0] == [];
    while i < |code|
      invariant 0 <= i <= |code| && crc == TableCrc(code[..i], crc0)
    {
      assert code[..i + 1][..i] == code[..i];
      crc := TableStep(code[i], crc);
      i := i + 1;
    }
    assert code[..i] == code;
  }

  lemma {:induction false} TableAppend(m: seq<Byte>, t: seq<Byte>, crc: bv32)
    ensures TableCrc(m + t, crc) == TableCrc(t, TableCrc(m, crc))
  {
    hide TableStep;
    if t == [] {
      assert m + t == m;
    } else {
      assert (m + t)[..|m + t| - 1] == m + t[..|t| - 1];
      TableAppend(m, t[..|t| - 1], crc);
    }
  }

  /** A module whose size field counts its trailer checks, whatever its content. */
  lemma ModuleIsGood(code: seq<Byte>)
    requires |code| >= 4 && 256 * (code[2] as nat) + code[3] as nat == |code| + 3
    ensures var m := code + Trailer(TableCrc(code, RESET));
            Checks(m) && Size(m) == |m|
  {
    hide ShiftCrc; hide TableCrc; hide Trailer; hide Unpack; hide Size; hide TrailerOf;
    var crc := TableCrc(code, RESET);
    ResetIsStart();
    MessagesAgree(code, RESET);
    TrailerBytes(crc);
    ShiftAppend(code, TrailerOf(Unpack(crc)), START);
    TrailerResidue(Unpack(crc));
    var m := code + Trailer(crc);
    TrailerLength(crc);
    SizeIs(m);
    assert m[..|m|] == m;
  }

  lemma TrailerLength(crc: bv32)
    ensures |Trailer(crc)| == 3
  {}

  /** The high byte first. */
  lemma SizeIs(m: seq<Byte>)
    requires |m| >= 4
    ensures Size(m) == 256 * (m[2] as nat) + m[3] as nat
  {}

  /** The same at the end of the checked bytes, where fewer than three may be left. */
  lemma LastBytes(pre: seq<Byte>, x: seq<Byte>, y: seq<Byte>, crc: Three)
    requires |x| == |y| <= 3 && ShiftCrc(pre + x, crc) == ShiftCrc(pre + y, crc)
    ensures x == y
  {
    hide ShiftCrc;
    var z: seq<Byte> := seq(3 - |x|, _ => 0);
    ShiftAppend(pre + x, z, crc);
    ShiftAppend(pre + y, z, crc);
    assert pre + x + z == pre + (x + z) + [] && pre + y + z == pre + (y + z) + [];
    BurstEqual(pre, x + z, y + z, [], crc);
    assert x == (x + z)[..|x|] && y == (y + z)[..|x|];
  }

  /** A change within three bytes in a row that leaves the size alone makes a good module bad
      if and only if it changes a counted byte. */
  lemma DamageIsFound(pre: seq<Byte>, x: seq<Byte>, y: seq<Byte>, post: seq<Byte>)
    requires |x| == |y| == 3 && Checks(pre + x + post)
    requires |pre + y + post| >= 4 && Size(pre + y + post) == Size(pre + x + post)
    ensures var n := Size(pre + x + post);
            !Checks(pre + y + post) <==> (pre + y + post)[..n] != (pre + x + post)[..n]
  {
    hide ShiftCrc; hide Size;
    var n := Size(pre + x + post);
    if n <= |pre| {
      assert (pre + x + post)[..n] == pre[..n] == (pre + y + post)[..n];
    } else if n <= |pre| + 3 {
      var k := n - |pre|;
      assert (pre + x + post)[..n] == pre + x[..k] && (pre + y + post)[..n] == pre + y[..k];
      if Checks(pre + y + post) { LastBytes(pre, x[..k], y[..k], START); }
    } else {
      var rest := post[..n - |pre| - 3];
      assert (pre + x + post)[..n] == pre + x + rest && (pre + y + post)[..n] == pre + y + rest;
      if Checks(pre + y + post) { BurstEqual(pre, x, y, rest, START); }
    }
  }
}
