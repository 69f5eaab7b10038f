/**
  S1 records: the assembler that writes them and the ROM builder that reads them.  The image
  is the 32K from $8000 on, $FF where nothing was written.
 */
module SRecords {
  import opened Machine
  import opened Sequences

  const ROM := 0x8000

  type Image = m: seq<Byte> | |m| == ROM witness seq(ROM, _ => 0)

  function Blank(): Image { seq(ROM, _ => 0xff) }

  /** The bytes d in the image from address a on. */
  function Store(m: Image, a: nat, d: seq<Byte>): Image
    requires ROM <= a && a + |d| <= 0x1_0000
  {
    m[..a - ROM] + d + m[a - ROM + |d|..]
  }

  // ---------- hexadecimal ----------

  function HexChar(d: nat): char
    requires d < 16
  {
    if d < 10 then '0' + d as char else 'A' + (d - 10) as char
  }

  /** `%02X`. */
  function Hex2(b: Byte): string { [HexChar(b / 16), HexChar(b % 16)] }

  function HexBytes(d: seq<Byte>): string { if d == [] then [] else Hex2(d[0]) + HexBytes(d[1..]) }

  datatype Option<T> = None | Some(value: T)

  /** gethex: letters after F pass, with values above 15; what follows the line does not. */
  function Gethex(line: string, i: nat): Option<int> {
    if i >= |line| then None
    else if line[i] < '0' || line[i] as int >= 0x80 then None
    else if line[i] <= '9' then Some(line[i] as int - '0' as int)
    else if line[i] < 'A' then None
    else Some(line[i] as int - 7 - '0' as int)
  }

  function Getbyte(line: string, i: nat): Option<int> {
    match (Gethex(line, i), Gethex(line, i + 1))
    case (Some(h), Some(l)) => Some(h * 16 + l)
    case _ => None
  }

  lemma GetHexChar(line: string, i: nat, d: nat)
    requires d < 16 && i < |line| && line[i] == HexChar(d)
    ensures Gethex(line, i) == Some(d)
  {}

  lemma GetHex2(line: string, i: nat, b: Byte)
    requires i + 2 <= |line| && line[i..i + 2] == Hex2(b)
    ensures Getbyte(line, i) == Some(b as int)
  {
    hide Gethex; hide HexChar;
    assert line[i] == line[i..i + 2][0] && line[i + 1] == line[i..i + 2][1];
    GetHexChar(line, i, b / 16);
    GetHexChar(line, i + 1, b % 16);
  }

  // ---------- reading ----------

  datatype Result = Ok(mem: Image) | HexError | LengthError | RangeError | ChecksumError

  /** The values of n bytes from character i on. */
  function Getbytes(line: string, i: nat, n: nat): Option<seq<int>>
    decreases n
  {
    if n == 0 then Some([]) else
    match (Getbyte(line, i), Getbytes(line, i + 2, n - 1))
    case (Some(b), Some(r)) => Some([b] + r)
    case _ => None
  }

  function Total(v: seq<int>): int { if v == [] then 0 else v[0] + Total(v[1..]) }

  function Truncated(v: seq<int>): (d: seq<Byte>)
    ensures |d| == |v|
  {
    if v == [] then [] else [Wrap8(v[0])] + Truncated(v[1..])
  }

  predicate IsS1(line: string) { |line| >= 2 && line[0] == 'S' && line[1] == '1' }

  /** One line: lines of other kinds are passed over. */
  function LoadLine(m: Image, line: string): Result {
    if !IsS1(line) then Ok(m) else
    match Getbyte(line, 2)
    case None => HexError
    case Some(length) =>
      if length < 3 then LengthError else
      match Getbytes(line, 4, 2)
      case None => HexError
      case Some(a) =>
        var addr := a[0] * 0x100 + a[1];
        if addr + length - 3 > 0x1_0000 || addr < ROM then RangeError else
        match Getbytes(line, 8, length - 2)
        case None => HexError
        case Some(v) =>
          GetbytesLength(line, 8, length - 2);
          if Wrap8(length + Total(a) + Total(v)) != 0xff then ChecksumError
          else Ok(Store(m, addr, Truncated(v[..length - 3])))
  }

  lemma {:induction false} GetbytesLength(line: string, i: nat, n: nat)
    ensures Getbytes(line, i, n).Some? ==> |Getbytes(line, i, n).value| == n
    decreases n
  {
    if n != 0 { GetbytesLength(line, i + 2, n - 1); }
  }

  function Load(m: Image, lines: seq<string>): Result
    decreases |lines|
  {
    if lines == [] then Ok(m) else
    match LoadLine(m, lines[0])
    case Ok(m1) => Load(m1, lines[1..])
    case e => e
  }

  // ---------- a record that was written ----------

  /** Count and address of a record with n bytes of data. */
  function Head(addr: Word, n: nat): (h: seq<Byte>)
    requires n <= 16
    ensures |h| == 3 && h[0] == n + 3 && h[1] == addr / 0x100 && h[2] == addr % 0x100
  {
    [n + 3, addr / 0x100, addr % 0x100]
  }

  /** The bytes of a record after `S1`: count, address, data, complemented sum. */
  function RecordBytes(addr: Word, d: seq<Byte>): seq<Byte>
    requires |d| <= 16
  {
    Head(addr, |d|) + d + [0xff - Wrap8(Total(Head(addr, |d|) + d))]
  }

  function Record(addr: Word, d: seq<Byte>): string
    requires |d| <= 16
  {
    Text(RecordBytes(addr, d))
  }

  /** The line of a record, as far as it is written. */
  function Text(b: seq<Byte>): string { "S1" + HexBytes(b) }

  /** `%02X` at the end of a line. */
  lemma TextMore(b: seq<Byte>, x: Byte)
    ensures Text(b) + Hex2(x) == Text(b + [x])
  {
    hide Hex2; hide HexBytes;
    HexAppend(b, [x]);
    OneHex(x);
    Assoc("S1", HexBytes(b), Hex2(x));
  }

  lemma {:induction false} HexLength(d: seq<Byte>)
    ensures |HexBytes(d)| == 2 * |d|
  {
    if d != [] { HexLength(d[1..]); }
  }

  lemma {:induction false} HexAppend(d: seq<Byte>, e: seq<Byte>)
    ensures HexBytes(d + e) == HexBytes(d) + HexBytes(e)
  {
    hide Hex2;
    if d == [] {
      assert d + e == e;
    } else {
      assert (d + e)[1..] == d[1..] + e;
      HexAppend(d[1..], e);
    }
  }

  lemma {:induction false} TotalAppend(v: seq<int>, w: seq<int>)
    ensures Total(v + w) == Total(v) + Total(w)
  {
    if v == [] {
      assert v + w == w;
    } else {
      assert (v + w)[1..] == v[1..] + w;
      TotalAppend(v[1..], w);
    }
  }

  lemma {:induction false} TruncatedBytes(d: seq<Byte>)
    ensures Truncated(d) == d
  {
    if d != [] {
      TruncatedBytes(d[1..]);
      assert d == [d[0]] + d[1..];
    }
  }

  /** Bytes that stand in a line are read back. */
  lemma {:induction false} GetbytesHex(line: string, i: nat, d: seq<Byte>)
    requires i + 2 * |d| <= |line| && line[i..i + 2 * |d|] == HexBytes(d)
    ensures Getbytes(line, i, |d|) == Some(d)
    decreases |d|
  {
    hide Getbyte; hide Hex2;
    if d != [] {
      var part := line[i..i + 2 * |d|];
      Hex2Length(d[0]);
      assert line[i..i + 2] == part[..2] == Hex2(d[0]);
      assert line[i + 2..i + 2 + 2 * (|d| - 1)] == part[2..] == HexBytes(d[1..]);
      GetHex2(line, i, d[0]);
      GetbytesHex(line, i + 2, d[1..]);
      assert d == [d[0]] + d[1..];
    }
  }

  lemma Hex2Length(b: Byte)
    ensures |Hex2(b)| == 2
  {}

  /** Bytes k.. of the record stand from character 2 + 2k on. */
  lemma RecordPart(addr: Word, d: seq<Byte>, k: nat, n: nat)
    requires |d| <= 16 && k + n <= |RecordBytes(addr, d)|
    ensures var line := Record(addr, d);
            2 + 2 * k + 2 * n <= |line| && line[2 + 2 * k..2 + 2 * k + 2 * n] == HexBytes(RecordBytes(addr, d)[k..k + n])
  {
    hide HexBytes; hide RecordBytes;
    var b := RecordBytes(addr, d);
    assert b == b[..k] + (b[k..k + n] + b[k + n..]);
    HexAppend(b[..k], b[k..k + n] + b[k + n..]);
    HexAppend(b[k..k + n], b[k + n..]);
    HexLength(b[..k]);
    HexLength(b[k..k + n]);
    var x, y, z := HexBytes(b[..k]), HexBytes(b[k..k + n]), HexBytes(b[k + n..]);
    assert Record(addr, d) == "S1" + (x + (y + z));
    Middle("S1", x, y, z);
  }

  lemma Middle(a: string, x: string, y: string, z: string)
    ensures (a + (x + (y + z)))[|a| + |x|..|a| + |x| + |y|] == y
  {}

  /** A written record passes the reader's tests and stores its data at its address. */
  lemma RecordLoads(m: Image, addr: Word, d: seq<Byte>)
    requires |d| <= 16 && ROM <= addr && addr + |d| <= 0x1_0000
    ensures LoadLine(m, Record(addr, d)) == Ok(Store(m, addr, d))
  {
    hide Getbyte; hide Getbytes; hide HexBytes; hide Truncated; hide Store; hide Wrap8;
    var line, b := Record(addr, d), RecordBytes(addr, d);
    var n := |d| + 3;
    RecordFields(addr, d);
    var tail := b[3..];
    TotalAppend(b[..3], tail);
    TruncatedBytes(d);
    ChecksumFits(addr, d);
    assert tail[..n - 3] == d;
    GetbytesLength(line, 8, n - 2);
    assert Total(b[1..3]) == b[1] as int + b[2] by { Total2(b[1], b[2]); assert b[1..3] == [b[1], b[2]]; }
  }

  lemma Total2(x: int, y: int)
    ensures Total([x, y]) == x + y
  {
    assert [x, y][1..] == [y] && [y][1..] == [];
    assert Total([y]) == y;
  }

  lemma RecordFields(addr: Word, d: seq<Byte>)
    requires |d| <= 16
    ensures var line, b := Record(addr, d), RecordBytes(addr, d);
            && IsS1(line) && Getbyte(line, 2) == Some(|d| + 3)
            && Getbytes(line, 4, 2) == Some(b[1..3]) && Getbytes(line, 8, |d| + 1) == Some(b[3..])
  {
    hide Getbyte; hide Getbytes; hide HexBytes; hide RecordBytes; hide Record;
    var b := RecordBytes(addr, d);
    RecordShape(addr, d);
    StartsS1(addr, d);
    FirstField(addr, d);
    Field(addr, d, 1, 2);
    Field(addr, d, 3, |d| + 1);
    assert b[3..3 + |d| + 1] == b[3..];
  }

  lemma StartsS1(addr: Word, d: seq<Byte>)
    requires |d| <= 16
    ensures IsS1(Record(addr, d))
  {
    hide HexBytes; hide RecordBytes;
  }

  lemma FirstField(addr: Word, d: seq<Byte>)
    requires |d| <= 16
    ensures |RecordBytes(addr, d)| > 0 && Getbyte(Record(addr, d), 2) == Some(RecordBytes(addr, d)[0])
  {
    hide Getbyte; hide HexBytes; hide RecordBytes; hide Record;
    var b := RecordBytes(addr, d);
    RecordShape(addr, d);
    RecordPart(addr, d, 0, 1);
    OneHex(b[0]);
    assert b[0..1] == [b[0]];
    GetHex2(Record(addr, d), 2, b[0]);
  }

  lemma Field(addr: Word, d: seq<Byte>, k: nat, n: nat)
    requires |d| <= 16 && k + n <= |RecordBytes(addr, d)|
    ensures Getbytes(Record(addr, d), 2 + 2 * k, n) == Some(RecordBytes(addr, d)[k..k + n])
  {
    hide Getbytes; hide HexBytes; hide RecordBytes; hide Record;
    RecordPart(addr, d, k, n);
    GetbytesHex(Record(addr, d), 2 + 2 * k, RecordBytes(addr, d)[k..k + n]);
  }

  lemma RecordShape(addr: Word, d: seq<Byte>)
    requires |d| <= 16
    ensures var b := RecordBytes(addr, d); |b| == |d| + 4 && b[0] == |d| + 3 && b[1] == addr / 0x100 && b[2] == addr % 0x100
  {}

  lemma OneHex(b: Byte)
    ensures HexBytes([b]) == Hex2(b)
  {
    assert [b][1..] == [];
  }

  /** All bytes of a record add up to $FF. */
  lemma ChecksumFits(addr: Word, d: seq<Byte>)
    requires |d| <= 16
    ensures var b := RecordBytes(addr, d);
            Wrap8(|d| + 3 + Total(b[1..3]) + Total(b[3..])) == 0xff
  {
    var b := RecordBytes(addr, d);
    var head := Head(addr, |d|);
    var t := Total(head + d);
    assert b == (head + d) + [0xff - Wrap8(t)];
    TotalAppend(head + d, [0xff - Wrap8(t)]);
    assert Total([0xff - Wrap8(t)]) == 0xff - Wrap8(t) by { assert [0xff - Wrap8(t)][1..] == []; }
    assert b == [b[0]] + (b[1..3] + b[3..]);
    TotalAppend([b[0]], b[1..3] + b[3..]);
    TotalAppend(b[1..3], b[3..]);
    assert Total([b[0]]) == b[0] by { assert [b[0] as int][1..] == []; }
    SumTo(t);
  }

  lemma SumTo(t: int)
    ensures Wrap8(t + 0xff - Wrap8(t)) == 0xff
  {
    assert t - Wrap8(t) == 0x100 * (t / 0x100);
  }

  lemma {:induction false} LoadAppend(m: Image, lines: seq<string>, line: string)
    requires Load(m, lines).Ok?
    ensures Load(m, lines + [line]) == LoadLine(Load(m, lines).mem, line)
    decreases |lines|
  {
    hide LoadLine;
    if lines == [] {
      assert lines + [line] == [line] && [line][1..] == [];
      LoadOne(m, line);
    } else {
      assert (lines + [line])[1..] == lines[1..] + [line] && (lines + [line])[0] == lines[0];
      LoadAppend(LoadLine(m, lines[0]).mem, lines[1..], line);
    }
  }

  lemma LoadOne(m: Image, line: string)
    ensures Load(m, [line]) == LoadLine(m, line)
  {
    hide LoadLine;
    assert [line][1..] == [];
    assert LoadLine(m, line).Ok? ==> Load(LoadLine(m, line).mem, []) == LoadLine(m, line);
  }

  /** Storing one byte more after d. */
  lemma StoreMore(m: Image, a: nat, d: seq<Byte>, x: Byte)
    requires ROM <= a && a + |d| < 0x1_0000
    ensures Store(m, a, d + [x]) == Store(m, a, d)[a + |d| - ROM := x]
  {}

  lemma StoreNone(m: Image, a: nat)
    requires ROM <= a <= 0x1_0000
    ensures Store(m, a, []) == m
  {}

  // ---------- the writer ----------

  class Writer {
    var hexaddr: Word          // an unsigned short
    var hexcount: nat
    var hexbuffer: array<Byte>
    var chksum: nat
    var lines: seq<string>
    ghost var next: nat        // where the next byte goes; 0 before the first ORG
    ghost var image: Image     // what has been written so far

    ghost predicate Valid()
      reads this, hexbuffer
    {
      && hexbuffer.Length == 16 && hexcount <= 16 && chksum == Total(hexbuffer[..hexcount])
      && hexcount <= next <= 0x1_0000 && hexaddr == Wrap(next - hexcount) && (hexcount > 0 ==> ROM + hexcount <= next)
      && Load(Blank(), lines).Ok?
      && image == if hexcount == 0 then Load(Blank(), lines).mem
                  else Store(Load(Blank(), lines).mem, next - hexcount, hexbuffer[..hexcount])
    }

    constructor ()
      ensures Valid() && fresh(hexbuffer) && image == Blank() && next == 0
    {
      hexaddr, hexcount, chksum, lines := 0, 0, 0, [];
      hexbuffer := new Byte[16](_ => 0);
      next, image := 0, Blank();
      new;
      assert hexbuffer[..0] == [];
    }

    /** The loop of flushhex: the buffered bytes after what the line has already. */
    method AddData(start: string, ghost b: seq<Byte>) returns (line: string)
      requires hexcount <= hexbuffer.Length && start == Text(b)
      ensures line == Text(b + hexbuffer[..hexcount])
    {
      hide Hex2; hide Text;
      line := start;
      var i := 0;
      assert b + hexbuffer[..0] == b;
      while i < hexcount
        invariant 0 <= i <= hexcount && line == Text(b + hexbuffer[..i])
      {
        TextMore(b + hexbuffer[..i], hexbuffer[i]);
        assert b + hexbuffer[..i] + [hexbuffer[i]] == b + hexbuffer[..i + 1];
        line := line + Hex2(hexbuffer[i]);
        i := i + 1;
      }
    }

    /** The line that flushhex prints. */
    method Line() returns (line: string)
      requires hexcount <= 16 == hexbuffer.Length && chksum == Total(hexbuffer[..hexcount])
      ensures line == Record(hexaddr, hexbuffer[..hexcount])
    {
      hide Hex2; hide Text; hide Total; hide Wrap8; hide Head;
      ghost var d := hexbuffer[..hexcount];
      ghost var none: seq<Byte> := [];
      assert none + [hexcount + 3] == [hexcount + 3];
      var hi, lo := hexaddr / 0x100, hexaddr % 0x100;
      TextNone();
      TextMore(none, hexcount + 3);
      TextMore([hexcount + 3], hi);
      TextMore([hexcount + 3, hi], lo);
      assert [hexcount + 3] + [hi] == [hexcount + 3, hi] && [hexcount + 3, hi] + [lo] == Head(hexaddr, hexcount);
      line := "S1" + Hex2(hexcount + 3);
      line := line + Hex2(hi);
      line := line + Hex2(lo);
      line := AddData(line, Head(hexaddr, hexcount));
      var sum := chksum + lo + hi + hexcount + 3;
      SumOfRecord(hexaddr, d);
      TextMore(Head(hexaddr, hexcount) + d, 0xff - Wrap8(sum));
      line := line + Hex2(0xff - Wrap8(sum));
    }

    method FlushHex()
      requires Valid()
      modifies this`lines, this`chksum, this`hexaddr, this`hexcount
      ensures Valid() && hexcount == 0 && Load(Blank(), lines) == Ok(image)
    {
      hide Load; hide Record; hide Store; hide Total; hide LoadLine;
      ghost var m := Load(Blank(), lines).mem;
      if hexcount > 0 {
        ghost var d := hexbuffer[..hexcount];
        var line := Line();
        LoadAppend(Blank(), lines, line);
        RecordLoads(m, hexaddr, d);
        lines := lines + [line];
        hexaddr := Wrap(hexaddr as int + hexcount);
        hexcount, chksum := 0, 0;
      }
      assert hexbuffer[..0] == [];
      TotalNone();
    }

    method OutHex(x: Byte)
      requires Valid() && ROM <= next < 0x1_0000
      modifies this, hexbuffer
      ensures Valid() && hexbuffer == old(hexbuffer)
      ensures next == old(next) + 1 && image == old(image)[old(next) - ROM := x]
    {
      hide Load; hide Store; hide Total;
      if hexcount == 16 { FlushHex(); }
      ghost var d := hexbuffer[..hexcount];
      if d == [] { StoreNone(image, next); }
      hexbuffer[hexcount] := x;
      assert hexbuffer[..hexcount] == d;
      hexcount := hexcount + 1;
      assert hexbuffer[..hexcount] == d + [x];
      chksum := chksum + x;
      TotalAppend(d, [x]);
      TotalOne(x);
      StoreMore(Load(Blank(), lines).mem, next - |d|, d, x);
      next, image := next + 1, image[next - ROM := x];
    }

    /** ORG and RMB: flush, then set the address. */
    method SetAddress(a: Word)
      requires Valid()
      modifies this`lines, this`chksum, this`hexaddr, this`hexcount, this`next
      ensures Valid() && next == a
    {
      hide Load; hide Store;
      FlushHex();
      hexaddr := a;
      next := a;
    }
  }

  lemma TextNone()
    ensures Text([]) == "S1"
  {
    assert HexBytes([]) == [];
  }

  lemma TotalNone()
    ensures Total([]) == 0
  {}

  lemma TotalOne(x: int)
    ensures Total([x]) == x
  {
    assert [x][1..] == [];
  }

  /** The checksum that flushhex accumulates is that of the record. */
  lemma SumOfRecord(addr: Word, d: seq<Byte>)
    requires |d| <= 16
    ensures Total(Head(addr, |d|) + d) == Total(d) + addr % 0x100 + (addr / 0x100) % 0x100 + |d| + 3
  {
    hide Total; hide Head;
    var h := Head(addr, |d|);
    TotalAppend(h, d);
    assert h == [h[0], h[1], h[2]];
    Total3(h[0], h[1], h[2]);
  }

  lemma Total3(x: int, y: int, z: int)
    ensures Total([x, y, z]) == x + y + z
  {
    assert [x, y, z][1..] == [y, z];
    Total2(y, z);
  }

  // ---------- whole programs ----------

  datatype Op = Address(a: Word) | Bytes(d: seq<Byte>)

  /** The image and the next address after some steps. */
  function Written(m: Image, at: nat, ops: seq<Op>): (Image, nat)
    requires Fits(at, ops)
    decreases |ops|
  {
    if ops == [] then (m, at)
    else if ops[0].Address? then Written(m, ops[0].a, ops[1..])
    else if ops[0].d == [] then Written(m, at, ops[1..])
    else Written(Store(m, at, ops[0].d), at + |ops[0].d|, ops[1..])
  }

  /** Bytes are for the ROM, which takes an ORG before the first, and do not run past its end. */
  predicate Fits(at: nat, ops: seq<Op>)
    decreases |ops|
  {
    if ops == [] then true
    else if ops[0].Address? then Fits(ops[0].a, ops[1..])
    else (ops[0].d == [] || ROM <= at) && at + |ops[0].d| <= 0x1_0000 && Fits(at + |ops[0].d|, ops[1..])
  }

  /** Any such program, written as records, is rebuilt by the ROM builder. */
  method WriteAll(ops: seq<Op>) returns (lines: seq<string>)
    requires Fits(0, ops)
    ensures Load(Blank(), lines) == Ok(Written(Blank(), 0, ops).0)
  {
    hide Load; hide Store;
    var w := new Writer();
    var i := 0;
    assert ops[0..] == ops;
    while i < |ops|
      invariant 0 <= i <= |ops| && w.Valid() && fresh(w) && fresh(w.hexbuffer)
      invariant Fits(w.next, ops[i..]) && Written(w.image, w.next, ops[i..]) == Written(Blank(), 0, ops)
    {
      assert ops[i..][0] == ops[i] && ops[i..][1..] == ops[i + 1..];
      if ops[i].Address? {
        w.SetAddress(ops[i].a);
      } else if ops[i].d != [] {
        WriteBytes(w, ops[i].d);
      }
      i := i + 1;
    }
    w.FlushHex();
    lines := w.lines;
  }

  method WriteBytes(w: Writer, d: seq<Byte>)
    requires w.Valid() && ROM <= w.next && w.next + |d| <= 0x1_0000
    modifies w, w.hexbuffer
    ensures w.Valid() && w.hexbuffer == old(w.hexbuffer)
    ensures w.next == old(w.next) + |d| && w.image == Store(old(w.image), old(w.next), d)
  {
    var j := 0;
    ghost var m, at := w.image, w.next;
    StoreNone(m, at);
    assert d[..0] == [];
    while j < |d|
      invariant 0 <= j <= |d| && w.Valid() && w.hexbuffer == old(w.hexbuffer)
      invariant w.next == at + j && w.image == Store(m, at, d[..j])
    {
      StoreMore(m, at, d[..j], d[j]);
      assert d[..j] + [d[j]] == d[..j + 1];
      w.OutHex(d[j]);
      j := j + 1;
    }
    assert d[..j] == d;
  }

  // ---------- the reader ----------

  /** The last of n + 1 bytes. */
  lemma {:induction false} GetbytesLast(line: string, i: nat, n: nat)
    ensures var v, b := Getbytes(line, i, n), Getbyte(line, i + 2 * n);
            Getbytes(line, i, n + 1) == if v.Some? && b.Some? then Some(v.value + [b.value]) else None
    decreases n
  {
    hide Getbyte;
    if n == 0 {
      assert Getbytes(line, i + 2, 0) == Some([]);
      if Getbyte(line, i).Some? { assert [Getbyte(line, i).value] + [] == [] + [Getbyte(line, i).value]; }
    } else {
      GetbytesLast(line, i + 2, n - 1);
      if Getbyte(line, i).Some? && Getbytes(line, i + 2, n - 1).Some? && Getbyte(line, i + 2 * n).Some? {
        var x, v, b := Getbyte(line, i).value, Getbytes(line, i + 2, n - 1).value, Getbyte(line, i + 2 * n).value;
        assert [x] + (v + [b]) == ([x] + v) + [b];
      }
    }
  }

  /** When some bytes cannot be read, more cannot either. */
  lemma {:induction false} GetbytesStop(line: string, i: nat, n: nat, k: nat)
    requires Getbytes(line, i, n) == None && n <= k
    ensures Getbytes(line, i, k) == None
    decreases k - n
  {
    hide Getbytes; hide Getbyte;
    if n < k {
      GetbytesLast(line, i, n);
      GetbytesStop(line, i, n + 1, k);
    }
  }

  lemma {:induction false} TruncatedAppend(v: seq<int>, w: seq<int>)
    ensures Truncated(v + w) == Truncated(v) + Truncated(w)
  {
    if v == [] {
      assert v + w == w;
    } else {
      assert (v + w)[1..] == v[1..] + w;
      TruncatedAppend(v[1..], w);
    }
  }

  // ---------- what the reader accepts, in terms of the bytes of the line ----------

  /** The bytes from the count to the checksum. */
  function Fields(line: string): Option<seq<int>> {
    match Getbyte(line, 2)
    case Some(c) => if c >= 0 then Getbytes(line, 2, c + 1) else None
    case None => None
  }

  /** The address of a record. */
  function AddressIn(line: string): Option<int> {
    match (Getbyte(line, 4), Getbyte(line, 6))
    case (Some(hi), Some(lo)) => Some(0x100 * hi + lo)
    case _ => None
  }

  predicate InRom(addr: int, length: int) { 0x8000 <= addr && addr + length - 3 <= 0x1_0000 }

  /** A record with a count, an address in the ROM, and bytes that add up to $FF. */
  predicate Accepted(line: string) {
    IsS1(line) && Fields(line).Some? &&
    var v := Fields(line).value;
    |v| >= 4 && InRom(0x100 * v[1] + v[2], v[0]) && Total(v) % 0x100 == 0xff
  }

  /** What the record puts into byte k of the image. */
  function Put(line: string, k: nat): Option<Byte> {
    if !Accepted(line) then None else
    var v := Fields(line).value;
    var j := k + 0x8000 - (0x100 * v[1] + v[2]);
    if 0 <= j < |v| - 4 then Some(v[3 + j] % 0x100) else None
  }

  /** The outcome of a line, whichever kind it is. */
  ghost predicate Outcome(m: Image, line: string, r: Result) {
    var c, a := Getbyte(line, 2), AddressIn(line);
    && (r.Ok? <==> !IsS1(line) || Accepted(line))
    && (r.Ok? ==> forall k :: 0 <= k < ROM ==> r.mem[k] == if Put(line, k).Some? then Put(line, k).value else m[k])
    && (r.LengthError? <==> IsS1(line) && c.Some? && c.value < 3)
    && (r.RangeError? <==> IsS1(line) && c.Some? && c.value >= 3 && a.Some? && !InRom(a.value, c.value))
    && (r.HexError? <==> IsS1(line) && (c.None? || (c.value >= 3 && (a.None? || (InRom(a.value, c.value) && Fields(line).None?)))))
    && (r.ChecksumError? <==> IsS1(line) && c.Some? && c.value >= 3 && a.Some? && InRom(a.value, c.value)
                              && Fields(line).Some? && Total(Fields(line).value) % 0x100 != 0xff)
  }

  lemma {:induction false} GetbytesAppend(line: string, i: nat, n: nat, k: nat)
    ensures var v, w := Getbytes(line, i, n), Getbytes(line, i + 2 * n, k);
            Getbytes(line, i, n + k) == if v.Some? && w.Some? then Some(v.value + w.value) else None
    decreases k
  {
    hide Getbyte; hide Getbytes;
    GetbytesNone(line, i + 2 * n);
    if k == 0 {
      if Getbytes(line, i, n).Some? { assert Getbytes(line, i, n).value + [] == Getbytes(line, i, n).value; }
    } else {
      GetbytesAppend(line, i, n, k - 1);
      GetbytesLast(line, i, n + k - 1);
      GetbytesLast(line, i + 2 * n, k - 1);
      var v, w, b := Getbytes(line, i, n), Getbytes(line, i + 2 * n, k - 1), Getbyte(line, i + 2 * (n + k - 1));
      if v.Some? && w.Some? && b.Some? { Assoc(v.value, w.value, [b.value]); }
    }
  }

  lemma GetbytesNone(line: string, i: nat)
    ensures Getbytes(line, i, 0) == Some([])
  {}

  lemma GetbytesOne(line: string, i: nat)
    ensures Getbytes(line, i, 1) == if Getbyte(line, i).Some? then Some([Getbyte(line, i).value]) else None
  {
    hide Getbyte;
    GetbytesNone(line, i + 2);
    if Getbyte(line, i).Some? { assert [Getbyte(line, i).value] + [] == [Getbyte(line, i).value]; }
  }

  /** The fields are the count, the address, and the rest. */
  lemma FieldsAre(line: string)
    requires Getbyte(line, 2).Some? && Getbyte(line, 2).value >= 3
    ensures var c := Getbyte(line, 2).value;
            var a, v := Getbytes(line, 4, 2), Getbytes(line, 8, c - 2);
            && Fields(line) == (if a.Some? && v.Some? then Some([c] + (a.value + v.value)) else None)
            && (a.Some? <==> AddressIn(line).Some?)
            && (a.Some? ==> |a.value| == 2 && AddressIn(line).value == 0x100 * a.value[0] + a.value[1])
            && (v.Some? ==> |v.value| == c - 2)
  {
    hide Getbyte; hide Getbytes;
    var c := Getbyte(line, 2).value;
    GetbytesOne(line, 2);
    TwoBytes(line, 4);
    GetbytesAppend(line, 4, 2, c - 2);
    GetbytesAppend(line, 2, 1, c);
    GetbytesLength(line, 8, c - 2);
  }

  lemma {:induction false} TruncatedAt(v: seq<int>, j: nat)
    requires j < |v|
    ensures Truncated(v)[j] == v[j] % 0x100
  {
    if j > 0 { TruncatedAt(v[1..], j - 1); }
  }

  /** LoadLine is the outcome that the bytes decide. */
  lemma LineOutcome(m: Image, line: string)
    ensures Outcome(m, line, LoadLine(m, line))
  {
    hide Getbyte; hide Getbytes; hide Total; hide Store; hide Truncated;
    var c := Getbyte(line, 2);
    if IsS1(line) && c.Some? && c.value >= 3 {
      FieldsAre(line);
      if Fields(line).Some? { RecordOutcome(m, line); }
    } else if IsS1(line) && c.Some? {
      ShortFields(line);
    }
  }

  lemma RecordOutcome(m: Image, line: string)
    requires IsS1(line) && Getbyte(line, 2).Some? && Getbyte(line, 2).value >= 3 && Fields(line).Some?
    ensures Outcome(m, line, LoadLine(m, line))
  {
    hide Getbyte; hide Getbytes; hide Total; hide Store; hide Truncated; hide Fields;
    FieldsAre(line);
    var c := Getbyte(line, 2).value;
    var a, v := Getbytes(line, 4, 2).value, Getbytes(line, 8, c - 2).value;
    var addr := 0x100 * a[0] + a[1];
    var w := Fields(line).value;
    assert w == [c] + (a + v) && |w| == c + 1 && w[0] == c && w[1] == a[0] && w[2] == a[1];
    TotalAppend([c], a + v);
    TotalAppend(a, v);
    TotalOne(c);
    if InRom(addr, c) && Total(w) % 0x100 == 0xff {
      forall k | 0 <= k < ROM ensures Store(m, addr, Truncated(v[..c - 3]))[k] == if Put(line, k).Some? then Put(line, k).value else m[k] {
        StoredAt(m, addr, v[..c - 3], k);
        assert 0 <= k + ROM - addr < c - 3 ==> w[3 + (k + ROM - addr)] == v[k + ROM - addr];
      }
    }
  }

  lemma StoredAt(m: Image, addr: nat, v: seq<int>, k: nat)
    requires ROM <= addr && addr + |v| <= 0x1_0000 && k < ROM
    ensures Store(m, addr, Truncated(v))[k] == if 0 <= k + ROM - addr < |v| then v[k + ROM - addr] % 0x100 else m[k]
  {
    hide Truncated; hide Store;
    StoreAt(m, addr, Truncated(v), k);
    if 0 <= k + ROM - addr < |v| { TruncatedAt(v, k + ROM - addr); }
  }

  lemma StoreAt(m: Image, addr: nat, d: seq<Byte>, k: nat)
    requires ROM <= addr && addr + |d| <= 0x1_0000 && k < ROM
    ensures Store(m, addr, d)[k] == if 0 <= k + ROM - addr < |d| then d[k + ROM - addr] else m[k]
  {}

  /** A count below 3 leaves no room for an address and a checksum. */
  lemma ShortFields(line: string)
    requires Getbyte(line, 2).Some? && Getbyte(line, 2).value < 3
    ensures !Accepted(line)
  {
    hide Getbyte; hide Getbytes;
    if Getbyte(line, 2).value >= 0 { GetbytesLength(line, 2, Getbyte(line, 2).value + 1); }
  }

  // ---------- one wrong digit ----------

  /** A byte with one of its digits replaced. */
  function Digit(b: Byte, high: bool, h: nat): Byte
    requires h < 16
  {
    if high then 16 * h + b % 16 else b / 16 * 16 + h
  }

  lemma {:induction false} HexChanged(b: seq<Byte>, q: nat, h: nat)
    requires q < 2 * |b| && h < 16
    ensures |HexBytes(b)| == 2 * |b| && HexBytes(b)[q := HexChar(h)] == HexBytes(b[q / 2 := Digit(b[q / 2], q % 2 == 0, h)])
  {
    hide HexChar;
    HexLength(b);
    var b' := b[q / 2 := Digit(b[q / 2], q % 2 == 0, h)];
    if q < 2 {
      assert b'[1..] == b[1..];
      DigitText(b[0], q == 0, h);
      assert (Hex2(b[0]) + HexBytes(b[1..]))[q := HexChar(h)] == Hex2(b[0])[q := HexChar(h)] + HexBytes(b[1..]);
    } else {
      HexLength(b[1..]);
      HexChanged(b[1..], q - 2, h);
      assert (q - 2) / 2 == q / 2 - 1 && (q - 2) % 2 == q % 2;
      assert b'[1..] == b[1..][(q - 2) / 2 := Digit(b[q / 2], q % 2 == 0, h)];
      assert (Hex2(b[0]) + HexBytes(b[1..]))[q := HexChar(h)] == Hex2(b[0]) + HexBytes(b[1..])[q - 2 := HexChar(h)];
    }
  }

  lemma DigitText(b: Byte, high: bool, h: nat)
    requires h < 16
    ensures Hex2(b)[if high then 0 else 1 := HexChar(h)] == Hex2(Digit(b, high, h))
  {
    hide HexChar;
    assert (16 * h + b % 16) / 16 == h && (16 * h + b % 16) % 16 == b % 16;
    assert (b / 16 * 16 + h) / 16 == b / 16 && (b / 16 * 16 + h) % 16 == h;
  }

  /** A line of bytes reads as these bytes. */
  lemma TextFields(b: seq<Byte>)
    requires |b| >= 3
    ensures var line := Text(b);
            && IsS1(line) && Getbytes(line, 2, |b|) == Some(b) && Getbyte(line, 2) == Some(b[0] as int)
            && AddressIn(line) == Some(0x100 * (b[1] as int) + b[2])
  {
    hide Getbyte; hide Getbytes; hide HexBytes;
    var line := Text(b);
    HexLength(b);
    assert line[2..2 + 2 * |b|] == HexBytes(b);
    GetbytesHex(line, 2, b);
    FirstFields(line, b);
  }

  lemma FirstFields(line: string, b: seq<Byte>)
    requires |b| >= 3 && Getbytes(line, 2, |b|) == Some(b)
    ensures Getbyte(line, 2) == Some(b[0] as int) && AddressIn(line) == Some(0x100 * (b[1] as int) + b[2])
  {
    hide Getbyte; hide Getbytes;
    GetbytesAppend(line, 2, 1, |b| - 1);
    GetbytesAppend(line, 4, 2, |b| - 3);
    GetbytesOne(line, 2);
    TwoBytes(line, 4);
    var c, a, v := Getbyte(line, 2), Getbytes(line, 4, 2), Getbytes(line, 8, |b| - 3);
    assert c.Some? && a.Some? && v.Some? && [c.value] + (a.value + v.value) == b;
    assert b[0] == c.value && b[1] == a.value[0] && b[2] == a.value[1];
  }

  lemma {:induction false} TotalChanged(v: seq<int>, j: nat, x: int)
    requires j < |v|
    ensures Total(v[j := x]) == Total(v) - v[j] + x
  {
    if j > 0 {
      TotalChanged(v[1..], j - 1, x);
      assert v[j := x][1..] == v[1..][j - 1 := x];
    } else {
      assert v[j := x][1..] == v[1..];
    }
  }

  /** One wrong digit among the data or the checksum of a written record is found. */
  lemma WrongDigit(m: Image, addr: Word, d: seq<Byte>, i: nat, h: nat)
    requires |d| <= 16 && ROM <= addr && addr + |d| <= 0x1_0000 && h < 16
    requires 8 <= i < |Record(addr, d)| && Record(addr, d)[i] != HexChar(h)
    ensures LoadLine(m, Record(addr, d)[i := HexChar(h)]) == ChecksumError
  {
    hide Getbyte; hide Getbytes; hide HexBytes; hide HexChar; hide LoadLine; hide Total; hide RecordBytes;
    var b := RecordBytes(addr, d);
    var j := (i - 2) / 2;
    HexLength(b);
    var x := Digit(b[j], i % 2 == 0, h);
    HexChanged(b, i - 2, h);
    var b' := b[j := x];
    assert Record(addr, d)[i := HexChar(h)] == Text(b');
    assert x == b[j] ==> b' == b;
    RecordShape(addr, d);
    TextFields(b');
    TotalChanged(b, j, x);
    RecordTotal(addr, d);
    Nearby(Total(b), x as int - b[j]);
    LineOutcome(m, Text(b'));
  }

  lemma Nearby(t: int, e: int)
    requires t % 0x100 == 0xff && -0x100 < e < 0x100 && e != 0
    ensures (t + e) % 0x100 != 0xff
  {}

  lemma RecordTotal(addr: Word, d: seq<Byte>)
    requires |d| <= 16
    ensures Total(RecordBytes(addr, d)) % 0x100 == 0xff
  {
    hide Total; hide RecordBytes; hide Wrap8;
    var b := RecordBytes(addr, d);
    RecordShape(addr, d);
    ChecksumFits(addr, d);
    assert b == [b[0]] + (b[1..3] + b[3..]);
    TotalAppend([b[0]], b[1..3] + b[3..]);
    TotalAppend(b[1..3], b[3..]);
    TotalOne(b[0]);
    assert Wrap8(Total(b)) == Total(b) % 0x100 by { WrapIs(Total(b)); }
  }

  lemma WrapIs(x: int)
    ensures Wrap8(x) == x % 0x100
  {}

  // ---------- a whole file ----------

  /** Byte k of the image after the first n lines: the last one that puts a byte there counts. */
  function Latest(lines: seq<string>, n: nat, k: nat): Byte
    requires n <= |lines|
  {
    if n == 0 then 0xff
    else if Put(lines[n - 1], k).Some? then Put(lines[n - 1], k).value
    else Latest(lines, n - 1, k)
  }

  class Builder {
    var sum: int
    var charindex: nat
    var linebuf: string
    var mem: array<Byte>

    constructor ()
      ensures mem.Length == ROM && fresh(mem) && mem[..] == Blank()
    {
      sum, charindex, linebuf := 0, 0, [];
      mem := new Byte[ROM](_ => 0xff);
    }

    method ReadHex() returns (c: Option<int>)
      modifies this`charindex
      ensures c == Gethex(linebuf, old(charindex)) && charindex == old(charindex) + 1
    {
      if charindex >= |linebuf| { charindex := charindex + 1; return None; }
      var ch := linebuf[charindex];
      charindex := charindex + 1;
      if ch < '0' || ch as int >= 0x80 { return None; }
      var v := ch as int;
      if ch > '9' {
        if ch < 'A' { return None; }
        v := v - 7;
      }
      return Some(v - '0' as int);
    }

    method ReadByte() returns (b: Option<int>)
      modifies this`charindex, this`sum
      ensures b == Getbyte(linebuf, old(charindex))
      ensures b.Some? ==> charindex == old(charindex) + 2 && sum == Wrap8(old(sum) + b.value)
    {
      hide Gethex; hide Wrap8;
      var h := ReadHex();
      if h.None? { return None; }
      var l := ReadHex();
      if l.None? { return None; }
      b := Some(h.value * 16 + l.value);
      sum := Wrap8(sum + b.value);
    }

    /** The data bytes and the checksum of a record. */
    method ReadData(addr: nat, length: int) returns (ok: bool)
      requires mem.Length == ROM && length >= 3 && ROM <= addr && addr + length - 3 <= 0x1_0000 && sum == Wrap8(sum)
      modifies this`charindex, this`sum, mem
      ensures var v := Getbytes(linebuf, old(charindex), length - 2);
              && (ok <==> v.Some?)
              && (ok ==> |v.value| == length - 2 && sum == Wrap8(old(sum) + Total(v.value)))
              && (ok ==> mem[..] == Store(old(mem[..]), addr, Truncated(v.value[..length - 3])))
    {
      hide Getbyte; hide Wrap8; hide Total; hide Truncated; hide Store;
      ghost var from, was, sum0 := charindex, mem[..], sum;
      var i := 0;
      ghost var v: seq<int> := [];
      DataStart(was, addr, linebuf, from);
      while i != length - 3
        invariant 0 <= i <= length - 3 && charindex == from + 2 * i && Getbytes(linebuf, from, i) == Some(v)
        invariant |v| == i && sum == Wrap8(sum0 + Total(v)) && mem[..] == Store(was, addr, Truncated(v))
      {
        GetbytesLast(linebuf, from, i);
        var b := ReadByte();
        if b.None? { GetbytesStop(linebuf, from, i + 1, length - 2); return false; }
        DataMore(was, addr, v, b.value, sum0);
        ghost var before := mem[..];
        mem[addr - ROM + i] := Wrap8(b.value);
        assert mem[..] == before[addr - ROM + i := Wrap8(b.value)];
        v := v + [b.value];
        i := i + 1;
      }
      GetbytesLast(linebuf, from, i);
      var b := ReadByte();
      if b.None? { return false; }
      DataMore(was, addr, v, b.value, sum0);
      assert (v + [b.value])[..length - 3] == v;
      return true;
    }

    /** One line; everything but the result Ok makes the program exit. */
    method ReadLine(line: string) returns (r: Result)
      requires mem.Length == ROM
      modifies this, mem
      ensures mem == old(mem) && r == LoadLine(old(mem[..]), line) && (r.Ok? ==> r.mem == mem[..])
      ensures Outcome(old(mem[..]), line, r)
    {
      hide Outcome; hide Getbyte; hide Getbytes; hide Wrap8; hide Total; hide Store; hide Truncated;
      LineOutcome(mem[..], line);
      linebuf := line;
      if !(|line| >= 2 && line[0] == 'S' && line[1] == '1') { return Ok(mem[..]); }
      sum, charindex := 0, 2;
      WrapZero();
      var length := ReadByte();
      if length.None? { return HexError; }
      if length.value < 3 { return LengthError; }
      TwoBytes(line, 4);
      var hi := ReadByte();
      if hi.None? { return HexError; }
      var lo := ReadByte();
      if lo.None? { return HexError; }
      var addr := hi.value * 0x100 + lo.value;
      if addr + length.value - 3 > 0x1_0000 || addr < ROM { return RangeError; }
      HeadSum(length.value, hi.value, lo.value);
      var ok := ReadData(addr, length.value);
      if !ok { return HexError; }
      ghost var v := Getbytes(line, 8, length.value - 2).value;
      WrapSum(length.value + hi.value + lo.value, Total(v));
      if sum != 0xff { return ChecksumError; }
      return Ok(mem[..]);
    }

    method Build(lines: seq<string>) returns (r: Result)
      requires mem.Length == ROM && mem[..] == Blank()
      modifies this, mem
      ensures r == Load(Blank(), lines)
      ensures r.Ok? <==> forall i :: 0 <= i < |lines| ==> !IsS1(lines[i]) || Accepted(lines[i])
      ensures r.Ok? ==> forall k :: 0 <= k < ROM ==> r.mem[k] == Latest(lines, |lines|, k)
    {
      hide LoadLine; hide Accepted; hide Put; hide IsS1;
      var i := 0;
      assert lines[0..] == lines;
      while i < |lines|
        invariant 0 <= i <= |lines| && mem == old(mem) && Load(mem[..], lines[i..]) == Load(Blank(), lines)
        invariant forall j :: 0 <= j < i ==> !IsS1(lines[j]) || Accepted(lines[j])
        invariant forall k :: 0 <= k < ROM ==> mem[k] == Latest(lines, i, k)
      {
        assert lines[i..][0] == lines[i] && lines[i..][1..] == lines[i + 1..];
        r := ReadLine(lines[i]);
        if !r.Ok? { return; }
        i := i + 1;
      }
      r := Ok(mem[..]);
    }
  }

  lemma WrapZero()
    ensures Wrap8(0) == 0
  {}

  lemma TwoBytes(line: string, i: nat)
    ensures var a, b := Getbyte(line, i), Getbyte(line, i + 2);
            Getbytes(line, i, 2) == if a.Some? && b.Some? then Some([a.value, b.value]) else None
  {
    hide Getbyte;
    GetbytesLast(line, i, 1);
    GetbytesLast(line, i, 0);
    var none: seq<int> := [];
    assert Getbytes(line, i, 0) == Some(none);
    if Getbyte(line, i).Some? && Getbyte(line, i + 2).Some? {
      var a, b := Getbyte(line, i).value, Getbyte(line, i + 2).value;
      assert none + [a] == [a] && [a] + [b] == [a, b];
    }
  }

  lemma HeadSum(n: int, hi: int, lo: int)
    ensures Wrap8(Wrap8(Wrap8(0 + n) + hi) + lo) == Wrap8(n + hi + lo)
    ensures Total([hi, lo]) == hi + lo && Wrap8(Wrap8(n + hi + lo)) == Wrap8(n + hi + lo)
  {
    WrapSum(n, hi);
    WrapSum(n + hi, lo);
    WrapSum(n + hi + lo, 0);
    Total2(hi, lo);
  }

  lemma DataStart(m: Image, addr: nat, line: string, i: nat)
    requires ROM <= addr <= 0x1_0000
    ensures Getbytes(line, i, 0) == Some([]) && Store(m, addr, Truncated([])) == m && Total([]) == 0
  {
    StoreNone(m, addr);
  }

  lemma DataMore(m: Image, addr: nat, v: seq<int>, b: int, sum: int)
    requires ROM <= addr && addr + |v| <= 0x1_0000
    ensures Wrap8(Wrap8(sum + Total(v)) + b) == Wrap8(sum + Total(v + [b]))
    ensures addr + |v| < 0x1_0000 ==>
              Store(m, addr, Truncated(v + [b])) == Store(m, addr, Truncated(v))[addr + |v| - ROM := Wrap8(b)]
  {
    hide Wrap8; hide Total; hide Truncated; hide Store;
    TotalAppend(v, [b]);
    TotalOne(b);
    WrapSum(sum + Total(v), b);
    TruncatedAppend(v, [b]);
    TruncatedOne(b);
    if addr + |v| < 0x1_0000 {
      StoreMore(m, addr, Truncated(v), Wrap8(b));
      assert Truncated(v + [b]) == Truncated(v) + [Wrap8(b)];
    }
  }

  lemma TruncatedOne(b: int)
    ensures Truncated([b]) == [Wrap8(b)]
  {
    assert [b][1..] == [];
    assert Truncated([]) == [];
  }

  lemma WrapSum(x: int, b: int)
    ensures Wrap8(Wrap8(x) + b) == Wrap8(x + b)
  {}
}
