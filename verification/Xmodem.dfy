/**
  The two XMODEM halves of the emulator's terminal port: the sender, which the running
  program reads from and answers, and the receiver, which it writes to and polls.
 */
module Xmodem {
  import opened Machine

  const EOF := -1
  const EOT := 4
  const ACK := 6
  const NAK := 21
  const CAN := 24

  type Buffer = b: seq<Byte> | |b| == 132 witness seq(132, _ => 0)

  /** Sum of the data bytes, modulo 256. */
  function Sum(b: seq<Byte>): Byte {
    if b == [] then 0 else Wrap8(Sum(b[..|b| - 1]) + b[|b| - 1])
  }

  datatype Sender = Sender(active: bool, xidx: nat, acknak: int, rcvdnak: int, blocknum: Byte, xmbuf: Buffer, file: seq<Byte>, pos: nat)

  datatype Receiver = Receiver(active: bool, xidx: nat, acknak: int, blocknum: Byte, xmbuf: Buffer, out: seq<Byte>)

  // ---------- one call each ----------

  function Zeros(n: nat): seq<Byte> { seq(n, _ => 0) }

  /** What fread puts into the zeroed data area: up to 128 bytes. */
  function Filled(file: seq<Byte>, pos: nat): (d: seq<Byte>)
    requires pos <= |file|
    ensures |d| == 128
  {
    if |file| - pos >= 128 then file[pos..pos + 128] else file[pos..] + Zeros(128 - (|file| - pos))
  }

  /** A block with its number and checksum. */
  function Packet(number: Byte, d: seq<Byte>): (b: Buffer)
    requires |d| == 128
  {
    [1, number, 255 - number] + d + [Sum(d)]
  }

  function MinInt(a: int, b: int): int { if a <= b then a else b }

  /** char_input while sending. */
  function SenderInput(s: Sender): (int, Sender)
    requires s.xidx < 132 && s.pos <= |s.file|
  {
    if s.xidx > 0 then
      (s.xmbuf[s.xidx] as int,
       if s.xidx + 1 == 132 then s.(xidx := 0, rcvdnak := EOF, acknak := ACK) else s.(xidx := s.xidx + 1))
    else if (s.acknak == NAK && s.rcvdnak == NAK) || (s.acknak == ACK && s.rcvdnak == ACK) then
      if s.pos < |s.file| then
        (1, s.(rcvdnak := 0, xmbuf := Packet(s.blocknum, Filled(s.file, s.pos)), blocknum := Wrap8(s.blocknum as int + 1),
               acknak := ACK, xidx := 1, pos := MinInt(s.pos + 128, |s.file|)))
      else (EOT, s.(rcvdnak := 0, xmbuf := Zeros(132), acknak := EOT))
    else if s.rcvdnak == NAK then (s.xmbuf[0] as int, s.(rcvdnak := 0, xidx := 1))
    else (EOF, s)
  }

  /** do_output while sending: a reply from the other side. */
  function SenderOutput(s: Sender, c: int): Sender {
    s.(rcvdnak := c, active := s.active && !(c == ACK && s.acknak == EOT) && c != CAN)
  }

  /** char_input while receiving: the reply to send. */
  function ReceiverInput(r: Receiver): (int, Receiver) {
    if r.acknak == EOT then (ACK, r.(acknak := 0, active := false))
    else if r.acknak != 0 then (r.acknak, r.(acknak := 0))
    else (EOF, r)
  }

  predicate Good(b: Buffer) { b[0] == 1 && b[1] == 255 - b[2] && Sum(b[3..131]) == b[131] }

  /** do_output while receiving: a byte from the other side. */
  function ReceiverOutput(r: Receiver, c: Byte): Receiver
    requires r.xidx < 132
  {
    var r1 := r.(acknak := if r.xidx == 0 && c == EOT then EOT else r.acknak, xmbuf := r.xmbuf[r.xidx := c], xidx := r.xidx + 1);
    if r1.xidx < 132 then r1 else
    var mine := r1.blocknum == r1.xmbuf[1];
    r1.(acknak := if Good(r1.xmbuf) then ACK else NAK, xidx := 0,
        blocknum := if mine then Wrap8(r1.blocknum as int + 1) else r1.blocknum,
        out := if mine then r1.out + r1.xmbuf[3..131] else r1.out)
  }

  // ---------- the two halves wired together ----------

  /** Bytes under way in both directions. */
  datatype Net = Net(s: Sender, r: Receiver, data: seq<Byte>, replies: seq<int>)

  /** A half that is polled, or the arrival of the first byte under way.  An ACK may be
      turned into a NAK on its way. */
  datatype Action = PollSender | DeliverData | PollReceiver(spoil: bool) | DeliverReply

  function Initial(file: seq<Byte>): (n: Net)
    ensures Inv(n)
  {
    var n := Net(Sender(true, 0, NAK, EOF, 1, Zeros(132), file, 0), Receiver(true, 0, NAK, 1, Zeros(132), []), [], []);
    assert Starting(n) by { assert Prefix(file, 0) == []; }
    n
  }

  predicate Ready(n: Net) { n.s.xidx < 132 && n.s.pos <= |n.s.file| && n.r.xidx < 132 }

  /** A half that is no longer transferring neither sends nor takes anything. */
  function Step(n: Net, a: Action): Net
    requires Ready(n)
  {
    match a
    case PollSender =>
      if !n.s.active then n else
      var (c, s) := SenderInput(n.s);
      n.(s := s, data := if 0 <= c < 0x100 then n.data + [c] else n.data)
    case DeliverData =>
      if n.data == [] then n
      else n.(r := if n.r.active then ReceiverOutput(n.r, n.data[0]) else n.r, data := n.data[1..])
    case PollReceiver(spoil) =>
      if !n.r.active then n else
      var (c, r) := ReceiverInput(n.r);
      n.(r := r, replies := if c == EOF then n.replies else n.replies + [if spoil && c == ACK then NAK else c])
    case DeliverReply =>
      if n.replies == [] then n
      else n.(s := if n.s.active then SenderOutput(n.s, n.replies[0]) else n.s, replies := n.replies[1..])
  }

  // ---------- what is kept ----------

  /** The file with zeros up to a whole number of blocks. */
  function Padded(file: seq<Byte>): seq<Byte> { file + Zeros((128 - |file| % 128) % 128) }

  function Blocks(file: seq<Byte>): nat { (|file| + 127) / 128 }

  /** The first k blocks. */
  function Prefix(file: seq<Byte>, k: nat): (p: seq<Byte>)
    requires k <= Blocks(file)
  {
    PaddedLength(file);
    Padded(file)[..128 * k]
  }

  lemma PaddedLength(file: seq<Byte>)
    ensures |Padded(file)| == 128 * Blocks(file)
  {}

  /** Block i as the sender packs it. */
  function PacketOf(file: seq<Byte>, i: nat): Buffer
    requires 128 * i <= |file|
  {
    Packet(Wrap8(i + 1), Filled(file, 128 * i))
  }

  /** The sender has read k blocks; the receiver has written w of them. */
  predicate Counts(n: Net, k: nat, w: nat) {
    && k <= Blocks(n.s.file) && n.s.pos == MinInt(128 * k, |n.s.file|) && n.s.blocknum == Wrap8(k + 1)
    && w <= k && n.r.out == Prefix(n.s.file, w) && n.r.blocknum == Wrap8(w + 1)
    && n.s.active && n.r.active
  }

  /** One reply is on its way: still at the receiver, in between, or at the sender. */
  predicate OneReply(n: Net, first: int) {
    || (n.r.acknak == first && n.replies == [] && n.s.rcvdnak == EOF)
    || (n.r.acknak == 0 && |n.replies| == 1 && Reply(first, n.replies[0]) && n.s.rcvdnak == EOF)
    || (n.r.acknak == 0 && n.replies == [] && Reply(first, n.s.rcvdnak))
  }

  predicate Reply(first: int, c: int) { c == first || (first == ACK && c == NAK) }

  /** The receiver's first NAK has not been answered yet. */
  predicate Starting(n: Net) {
    Counts(n, 0, 0) && n.s.xidx == 0 && n.s.acknak == NAK && n.r.xidx == 0 && n.data == [] && OneReply(n, NAK)
  }

  /** Block k - 1 is under way; the receiver lacks it or has it already. */
  predicate Sending(n: Net, k: nat, w: nat) {
    && Counts(n, k, w) && k > 0 && w + 1 >= k
    && 128 * (k - 1) < |n.s.file| && n.s.xmbuf == PacketOf(n.s.file, k - 1)
    && n.s.xidx < 132 && n.r.xidx < 132 && n.s.acknak == ACK && n.r.acknak == 0 && n.replies == []
    && n.s.rcvdnak == (if n.s.xidx == 0 then EOF else 0)
    && n.r.xmbuf[..n.r.xidx] + n.data == n.s.xmbuf[..if n.s.xidx == 0 then 132 else n.s.xidx]
  }

  /** The receiver has all k blocks that were read and its reply is under way. */
  predicate Replying(n: Net, k: nat) {
    && Counts(n, k, k) && k > 0 && 128 * (k - 1) < |n.s.file| && n.s.xmbuf == PacketOf(n.s.file, k - 1)
    && n.s.xidx == 0 && n.r.xidx == 0 && n.s.acknak == ACK && n.data == [] && OneReply(n, ACK)
  }

  /** All blocks are written and the end mark is under way. */
  predicate Ending(n: Net) {
    var k := Blocks(n.s.file);
    && Counts(n, k, k) && n.s.xidx == 0 && n.s.acknak == EOT && n.s.rcvdnak == 0 && n.replies == []
    && ((n.data == [EOT] && n.r.xidx == 0 && n.r.acknak == 0) || (n.data == [] && n.r.xidx == 1 && n.r.acknak == EOT))
  }

  /** The receiver has closed its file; its last ACK is on its way or no ACK will come. */
  predicate Closed(n: Net) {
    Ready(n) && !n.r.active && n.r.out == Padded(n.s.file) && (LastReply(n) || forall c :: c in n.replies ==> c == NAK)
  }

  predicate LastReply(n: Net) {
    n.replies == [ACK] && n.s.active && n.s.xidx == 0 && n.s.acknak == EOT && n.s.rcvdnak == 0
  }

  ghost predicate Inv(n: Net) {
    || Starting(n) || Ending(n) || Closed(n)
    || (exists k: nat, w: nat :: Sending(n, k, w)) || (exists k: nat :: Replying(n, k))
  }

  // ---------- one step ----------

  lemma PacketParts(number: Byte, d: seq<Byte>)
    requires |d| == 128
    ensures var b := Packet(number, d); b[3..131] == d && Good(b) && b[0] == 1 && b[1] == number
  {
    assert Packet(number, d)[3..131] == d;
  }

  /** The sum of the bytes, not wrapped. */
  function Added(b: seq<Byte>): nat { if b == [] then 0 else b[0] + Added(b[1..]) }

  lemma {:induction false} AddedLast(b: seq<Byte>)
    requires b != []
    ensures Added(b) == Added(b[..|b| - 1]) + b[|b| - 1]
  {
    if |b| > 1 {
      AddedLast(b[1..]);
      assert b[1..][..|b| - 2] == b[..|b| - 1][1..];
    } else {
      assert b[1..] == [] == b[..0];
    }
  }

  lemma {:induction false} SumIs(b: seq<Byte>)
    ensures Sum(b) == Added(b) % 0x100
  {
    hide Added; hide Wrap8;
    if b != [] {
      SumIs(b[..|b| - 1]);
      AddedLast(b);
      SumOnce(Added(b[..|b| - 1]), b[|b| - 1]);
    } else {
      SumNone();
    }
  }

  lemma SumNone()
    ensures Added([]) == 0
  {}

  lemma SumOnce(t: nat, x: Byte)
    ensures Wrap8(t % 0x100 + x) == (t + x) % 0x100
  {
  }

  /** SOH, the block's number and its complement, 128 bytes, and their sum modulo 256. */
  lemma PacketLayout(number: Byte, d: seq<Byte>)
    requires |d| == 128
    ensures var b := Packet(number, d);
            b[0] == 0x01 && b[1] == number && b[1] as int + b[2] == 0xff && b[3..131] == d && b[131] == Added(d) % 0x100
  {
    PacketParts(number, d);
    SumIs(d);
  }

  /** The reply to a whole block is ACK if it is laid out like that, and NAK if not; it is written
      if it has the expected number. */
  lemma BlockReply(r: Receiver, c: Byte)
    requires r.xidx == 131
    ensures var b, r' := r.xmbuf[131 := c], ReceiverOutput(r, c);
            && r'.xidx == 0
            && r'.acknak == (if b[0] == 0x01 && b[1] as int + b[2] == 0xff && c == Added(b[3..131]) % 0x100 then 0x06 else 0x15)
            && (if b[1] == r.blocknum then r'.out == r.out + b[3..131] && r'.blocknum == (r.blocknum as int + 1) % 0x100
                else r'.out == r.out && r'.blocknum == r.blocknum)
  {
    SumIs(r.xmbuf[131 := c][3..131]);
  }

  /** After an ACK, or the first NAK, the sender goes on with the next block, or EOT at the end. */
  lemma NextBlock(s: Sender)
    requires s.xidx == 0 && s.pos <= |s.file| && s.acknak == s.rcvdnak && s.acknak in {0x06, 0x15}
    ensures var (c, s') := SenderInput(s);
            if s.pos == |s.file| then c == 0x04 && s'.acknak == 0x04 && s'.pos == s.pos
            else
              && c == 0x01 && s'.xidx == 1 && s'.xmbuf[1] == s.blocknum && s'.blocknum == (s.blocknum as int + 1) % 0x100
              && (forall i :: 3 <= i < 131 ==> s'.xmbuf[i] == if s.pos + i - 3 < |s.file| then s.file[s.pos + i - 3] else 0)
              && s'.pos == if s.pos + 128 <= |s.file| then s.pos + 128 else |s.file|
  {
    if s.pos < |s.file| {
      var d := Filled(s.file, s.pos);
      PacketParts(s.blocknum, d);
      forall i | 3 <= i < 131 ensures Packet(s.blocknum, d)[i] == d[i - 3] { assert Packet(s.blocknum, d)[3..131][i - 3] == d[i - 3]; }
    }
  }

  /** The sender closes on CAN, and on an ACK of its EOT, and on nothing else. */
  lemma SenderStops(s: Sender, c: int)
    requires s.active
    ensures !SenderOutput(s, c).active <==> c == 0x18 || (c == 0x06 && s.acknak == 0x04)
    ensures SenderOutput(s, c).rcvdnak == c && SenderOutput(s, c).file == s.file && SenderOutput(s, c).pos == s.pos
  {}

  /** The padded file is the file and fewer than 128 zeros. */
  lemma PaddedIs(file: seq<Byte>)
    ensures var p := Padded(file);
            && |p| % 128 == 0 && |file| <= |p| < |file| + 128 && p[..|file|] == file
            && forall i :: |file| <= i < |p| ==> p[i] == 0
  {
    PaddedLength(file);
  }

  /** The next 128 bytes of the padded file. */
  lemma PrefixMore(file: seq<Byte>, k: nat)
    requires 128 * k < |file|
    ensures k + 1 <= Blocks(file) && Prefix(file, k) + Filled(file, 128 * k) == Prefix(file, k + 1)
  {
    PaddedLength(file);
    var p := Padded(file);
    assert Filled(file, 128 * k) == p[128 * k..128 * k + 128];
    assert p[..128 * k] + p[128 * k..128 * k + 128] == p[..128 * k + 128];
  }

  lemma AllSent(file: seq<Byte>, k: nat)
    requires k <= Blocks(file) && |file| <= 128 * k
    ensures k == Blocks(file) && Prefix(file, k) == Padded(file)
  {
    PaddedLength(file);
  }

  lemma StartingStep(n: Net, a: Action)
    requires Starting(n)
    ensures Inv(Step(n, a))
  {
    hide Packet; hide Filled; hide Prefix; hide Padded;
    if a.PollSender? && n.s.rcvdnak == NAK {
      SendNext(n, 0);
    } else {
      assert Starting(Step(n, a));
    }
  }

  /** The sender is ready for block k: it packs and sends it, or sends the end mark. */
  lemma SendNext(n: Net, k: nat)
    requires Counts(n, k, k) && n.s.xidx == 0 && n.r.xidx == 0 && n.data == [] && n.replies == [] && n.r.acknak == 0
    requires (n.s.acknak == NAK && n.s.rcvdnak == NAK) || (n.s.acknak == ACK && n.s.rcvdnak == ACK)
    ensures var n' := Step(n, PollSender); if n.s.pos < |n.s.file| then Sending(n', k + 1, k) else Ending(n')
  {
    hide Filled; hide Prefix; hide Padded;
    var n' := Step(n, PollSender);
    if n.s.pos < |n.s.file| {
      PrefixMore(n.s.file, k);
      PacketParts(n.s.blocknum, Filled(n.s.file, n.s.pos));
      hide Packet;
      assert n'.r.xmbuf[..0] == [];
      assert n'.s.xmbuf[..1] == [1];
    } else {
      AllSent(n.s.file, k);
    }
  }

  lemma ReplyingStep(n: Net, k: nat, a: Action)
    requires Replying(n, k)
    ensures Inv(Step(n, a))
  {
    hide Packet; hide Filled; hide Prefix; hide Padded; hide Sum;
    var n' := Step(n, a);
    if a.PollSender? && n.s.rcvdnak == ACK {
      SendNext(n, k);
    } else if a.PollSender? && n.s.rcvdnak == NAK {
      assert n'.r.xmbuf[..0] == [];
      assert n'.s.xmbuf[..1] == [n.s.xmbuf[0]];
      assert Sending(n', k, k);
    } else {
      assert Replying(n', k);
    }
  }

  lemma EndingStep(n: Net, a: Action)
    requires Ending(n)
    ensures Inv(Step(n, a))
  {
    hide Prefix; hide Padded; hide Sum;
    var n' := Step(n, a);
    if a.PollReceiver? && n.r.acknak == EOT {
      AllSent(n.s.file, Blocks(n.s.file));
      assert Closed(n');
    } else {
      assert Ending(n');
    }
  }

  lemma ClosedStep(n: Net, a: Action)
    requires Closed(n)
    ensures Closed(Step(n, a))
    ensures (forall c :: c in n.replies ==> c == NAK) && n.s.active ==>
              Step(n, a).s.active && forall c :: c in Step(n, a).replies ==> c == NAK
  {
    hide Padded; hide Filled; hide Packet;
    var n' := Step(n, a);
    if a.DeliverReply? && n.replies != [] {
      assert n.replies[0] in n.replies;
      assert forall c :: c in n'.replies ==> c in n.replies;
      if LastReply(n) { assert n'.replies == []; }
    } else {
      assert n'.replies == n.replies;
      assert LastReply(n) ==> n'.s == n.s;
    }
  }

  lemma SendingStep(n: Net, k: nat, w: nat, a: Action)
    requires Sending(n, k, w)
    ensures Inv(Step(n, a))
  {
    hide Prefix; hide Padded; hide Sum; hide PacketOf; hide Counts;
    CountsReady(n, k, w);
    var n' := Step(n, a);
    if a.PollSender? && n.s.xidx > 0 {
      assert n.s.xmbuf[..n.s.xidx] + [n.s.xmbuf[n.s.xidx]] == n.s.xmbuf[..n.s.xidx + 1];
      assert Counts(n', k, w) by { CountsSame(n, n', k, w); }
      assert Sending(n', k, w);
    } else if a.DeliverData? && n.data != [] {
      DeliverOne(n, k, w);
    } else {
      assert Counts(n', k, w) by { CountsSame(n, n', k, w); }
      assert Sending(n', k, w);
    }
  }

  lemma CountsReady(n: Net, k: nat, w: nat)
    requires Counts(n, k, w)
    ensures n.s.pos <= |n.s.file| && n.s.active && n.r.active
  {}

  lemma CountsSame(n: Net, n': Net, k: nat, w: nat)
    requires Counts(n, k, w) && n'.s.file == n.s.file && n'.s.pos == n.s.pos && n'.s.blocknum == n.s.blocknum && n'.s.active == n.s.active
    requires n'.r.out == n.r.out && n'.r.blocknum == n.r.blocknum && n'.r.active == n.r.active
    ensures Counts(n', k, w)
  {
    hide Prefix;
  }

  lemma DeliverOne(n: Net, k: nat, w: nat)
    requires Sending(n, k, w) && n.data != []
    ensures Ready(n)
    ensures var n' := Step(n, DeliverData);
            if n.r.xidx + 1 < 132 then Sending(n', k, w) && n'.r.xidx == n.r.xidx + 1 && n'.s == n.s
            else Replying(n', k) && n'.r.acknak == ACK && n'.s == n.s
  {
    hide Prefix; hide Padded; hide Sum; hide PacketOf; hide Good; hide Wrap8;
    var n' := Step(n, DeliverData);
    var t := if n.s.xidx == 0 then 132 else n.s.xidx;
    var c := n.data[0];
    var i := n.r.xidx;
    var was, now := n.r.xmbuf, n.r.xmbuf[i := c];
    assert n.s.xmbuf[..t][i] == (was[..i] + n.data)[i] == c;
    assert now[..i + 1] == was[..i] + [c];
    assert now[..i + 1] + n.data[1..] == was[..i] + n.data;
    if i + 1 < 132 {
      FirstByte(n.s.file, k - 1);
      assert i == 0 ==> c == 1;
    } else {
      assert t == 132 && n.data[1..] == [];
      assert now == now[..132] && n.s.xmbuf == n.s.xmbuf[..132];
      Accept(n, k, w, now);
    }
  }

  lemma FirstByte(file: seq<Byte>, i: nat)
    requires 128 * i <= |file|
    ensures PacketOf(file, i)[0] == 1
  {}

  /** The last byte of block k - 1 arrives: it is written when it is the one expected. */
  lemma Accept(n: Net, k: nat, w: nat, now: Buffer)
    requires Sending(n, k, w) && n.s.xidx == 0 && n.r.xidx == 131 && |n.data| == 1 && now == n.r.xmbuf[131 := n.data[0]] == n.s.xmbuf
    ensures Ready(n)
    ensures var n' := Step(n, DeliverData); Replying(n', k) && n'.r.acknak == ACK && n'.s == n.s
  {
    hide Padded; hide Sum; hide Prefix; hide Filled; hide Packet; hide Good;
    PacketParts(Wrap8(k), Filled(n.s.file, 128 * (k - 1)));
    PrefixMore(n.s.file, k - 1);
    NumbersDiffer(k);
    var n' := Step(n, DeliverData);
    assert n.s.xmbuf[1] == Wrap8(k);
    assert n'.data == [];
    if w + 1 == k {
      assert n'.r.out == n.r.out + now[3..131];
    }
  }

  /** Neighbouring blocks have different numbers, although numbers wrap around. */
  lemma NumbersDiffer(k: nat)
    ensures Wrap8(k + 1) != Wrap8(k) && Wrap8(Wrap8(k) as int + 1) == Wrap8(k + 1)
  {}

  lemma InvStep(n: Net, a: Action)
    requires Inv(n)
    ensures Ready(n) && Inv(Step(n, a))
  {
    hide Step; hide Inv;
    InvReady(n);
    if Starting(n) { StartingStep(n, a); }
    else if Ending(n) { EndingStep(n, a); }
    else if Closed(n) { ClosedStep(n, a); ClosedInv(Step(n, a)); }
    else if exists k: nat, w: nat :: Sending(n, k, w) {
      var k: nat, w: nat :| Sending(n, k, w);
      SendingStep(n, k, w, a);
    } else {
      InvLast(n);
      var k: nat :| Replying(n, k);
      ReplyingStep(n, k, a);
    }
  }

  lemma ClosedInv(n: Net)
    requires Closed(n)
    ensures Inv(n)
  {}

  lemma InvLast(n: Net)
    requires Inv(n) && !Starting(n) && !Ending(n) && !Closed(n) && !exists k: nat, w: nat :: Sending(n, k, w)
    ensures exists k: nat :: Replying(n, k)
  {}

  lemma InvReady(n: Net)
    requires Inv(n)
    ensures Ready(n)
  {
    hide Prefix; hide PacketOf; hide Padded;
  }

  // ---------- whole runs ----------

  function Run(n: Net, run: seq<Action>): Net
    requires Inv(n)
    decreases |run|
  {
    if run == [] then n else
    InvStep(n, run[0]);
    Run(Step(n, run[0]), run[1..])
  }

  lemma {:induction false} RunKeeps(n: Net, run: seq<Action>)
    requires Inv(n)
    ensures Inv(Run(n, run))
    ensures Run(n, run).s.file == n.s.file
    decreases |run|
  {
    hide Inv; hide Step;
    if run != [] {
      InvStep(n, run[0]);
      FileSame(n, run[0]);
      RunKeeps(Step(n, run[0]), run[1..]);
    }
  }

  lemma FileSame(n: Net, a: Action)
    requires Ready(n)
    ensures Step(n, a).s.file == n.s.file
  {
    hide Packet; hide Filled; hide Sum; hide Good;
  }

  /** Whatever the order in which the halves are polled and bytes arrive, and whichever ACKs
      are spoiled, the received file is a block-aligned prefix of the padded file, and all of
      it once the receiver has closed. */
  lemma Transfer(file: seq<Byte>, run: seq<Action>)
    ensures var n := Run(Initial(file), run);
            && (exists k: nat :: k <= Blocks(file) && n.r.out == Prefix(file, k))
            && (!n.r.active ==> n.r.out == Padded(file))
  {
    hide Step; hide Inv; hide Padded; hide Prefix;
    RunKeeps(Initial(file), run);
    Written(Run(Initial(file), run));
  }

  lemma Written(n: Net)
    requires Inv(n)
    ensures exists k: nat :: k <= Blocks(n.s.file) && n.r.out == Prefix(n.s.file, k)
    ensures !n.r.active ==> n.r.out == Padded(n.s.file)
  {
    hide PacketOf; hide Padded;
    if Closed(n) {
      PaddedLength(n.s.file);
      assert n.r.out == Prefix(n.s.file, Blocks(n.s.file));
    }
  }

  // ---------- a transfer can always be completed ----------

  /** Some run from n ends with both halves through. */
  ghost predicate CanClose(n: Net)
    requires Inv(n)
  {
    exists run :: Through(Run(n, run))
  }

  predicate Through(n: Net) { !n.r.active && !n.s.active }

  lemma CloseAfter(n: Net, a: Action)
    requires Inv(n) && Inv(Step(n, a)) && CanClose(Step(n, a))
    ensures CanClose(n)
  {
    hide Inv; hide Step;
    InvReady(n);
    var run :| Through(Run(Step(n, a), run));
    assert ([a] + run)[1..] == run;
    assert Run(n, [a] + run) == Run(Step(n, a), run);
  }

  lemma CloseLast(n: Net)
    requires Inv(n) && Closed(n) && LastReply(n)
    ensures CanClose(n)
  {
    hide Inv; hide Padded; hide CanClose;
    ClosedStep(n, DeliverReply);
    var n' := Step(n, DeliverReply);
    ClosedInv(n');
    assert CanClose(n') by { CloseNow(n'); }
    CloseAfter(n, DeliverReply);
  }

  lemma CloseNow(n: Net)
    requires Inv(n) && Through(n)
    ensures CanClose(n)
  {
    hide Inv;
    assert Run(n, []) == n;
  }

  lemma CloseEnding(n: Net)
    requires Ending(n)
    ensures CanClose(n)
    decreases if n.data == [] then 0 else 1
  {
    hide Prefix; hide Padded; hide Sum;
    if n.data == [] {
      var n1 := Step(n, PollReceiver(false));
      EndingStep(n, PollReceiver(false));
      CloseLast(n1);
      CloseAfter(n, PollReceiver(false));
    } else {
      EndingStep(n, DeliverData);
      CloseEnding(Step(n, DeliverData));
      CloseAfter(n, DeliverData);
    }
  }

  /** How far the one reply is from being acted on. */
  function Stage(n: Net): nat { if n.r.acknak != 0 then 3 else if n.replies != [] then 2 else 1 }

  /** What moves the reply on. */
  function NextMove(n: Net): Action {
    if n.r.acknak != 0 then PollReceiver(false) else if n.replies != [] then DeliverReply else PollSender
  }

  lemma CloseStarting(n: Net)
    requires Starting(n)
    ensures CanClose(n)
    decreases Blocks(n.s.file) + 1, Stage(n)
  {
    hide Prefix; hide Padded; hide Packet; hide Filled; hide CanClose;
    var a := NextMove(n);
    var n' := Step(n, a);
    StartingStep(n, a);
    FileSame(n, a);
    if Stage(n) > 1 {
      assert Starting(n') && Stage(n') < Stage(n);
      CloseStarting(n');
    } else {
      SendNext(n, 0);
      if n.s.pos < |n.s.file| { CloseSending(n', 1, 0); } else { CloseEnding(n'); }
    }
    CloseAfter(n, a);
  }

  lemma CloseSending(n: Net, k: nat, w: nat)
    requires Sending(n, k, w)
    ensures CanClose(n)
    decreases Blocks(n.s.file) + 1 - k, 1000 - n.r.xidx, |n.data| + 1, if n.data == [] then 1 else 0
  {
    hide Prefix; hide Padded; hide Sum; hide PacketOf; hide CanClose; hide Counts;
    CountsReady(n, k, w);
    CountsBound(n, k, w);
    if n.data != [] {
      DeliverOne(n, k, w);
      var n' := Step(n, DeliverData);
      SendingStep(n, k, w, DeliverData);
      if n.r.xidx + 1 < 132 { CloseSending(n', k, w); } else { CloseReplying(n', k); }
      CloseAfter(n, DeliverData);
    } else {
      PollMore(n, k, w);
      var n' := Step(n, PollSender);
      SendingStep(n, k, w, PollSender);
      DeliverOne(n', k, w);
      SendingStep(n', k, w, DeliverData);
      var n2 := Step(n', DeliverData);
      if n.r.xidx + 1 < 132 { CloseSending(n2, k, w); } else { CloseReplying(n2, k); }
      CloseAfter(n', DeliverData);
      CloseAfter(n, PollSender);
    }
  }

  lemma CountsBound(n: Net, k: nat, w: nat)
    requires Counts(n, k, w)
    ensures k <= Blocks(n.s.file)
  {}

  /** With nothing under way the sender has a byte to send. */
  lemma PollMore(n: Net, k: nat, w: nat)
    requires Sending(n, k, w) && n.data == []
    ensures Ready(n)
    ensures var n' := Step(n, PollSender); Sending(n', k, w) && n'.data != [] && n'.r == n.r && n'.s.file == n.s.file
  {
    hide Prefix; hide Padded; hide Sum; hide PacketOf; hide Counts;
    CountsReady(n, k, w);
    var t := if n.s.xidx == 0 then 132 else n.s.xidx;
    assert |n.r.xmbuf[..n.r.xidx] + n.data| == |n.s.xmbuf[..t]|;
    var n' := Step(n, PollSender);
    assert n.s.xmbuf[..n.s.xidx] + [n.s.xmbuf[n.s.xidx]] == n.s.xmbuf[..n.s.xidx + 1];
    CountsSame(n, n', k, w);
  }

  /** After a spoiled reply the block is sent again, otherwise the next one. */
  lemma CloseReplying(n: Net, k: nat)
    requires Replying(n, k)
    ensures CanClose(n)
    decreases Blocks(n.s.file) + 1 - k, if NAK in n.replies || n.s.rcvdnak == NAK then 2000 else 0, Stage(n), 0
  {
    hide Prefix; hide Padded; hide Sum; hide PacketOf; hide CanClose; hide Filled; hide Packet;
    var a := NextMove(n);
    var n' := Step(n, a);
    ReplyingStep(n, k, a);
    FileSame(n, a);
    if Stage(n) > 1 {
      assert Replying(n', k) && Stage(n') < Stage(n);
      CloseReplying(n', k);
    } else if n.s.rcvdnak == ACK {
      SendNext(n, k);
      if n.s.pos < |n.s.file| { CloseSending(n', k + 1, k); } else { CloseEnding(n'); }
    } else {
      Resend(n, k);
      CloseSending(n', k, k);
    }
    CloseAfter(n, a);
  }

  lemma Resend(n: Net, k: nat)
    requires Replying(n, k) && n.r.acknak == 0 && n.replies == [] && n.s.rcvdnak == NAK
    ensures var n' := Step(n, PollSender); Sending(n', k, k) && n'.s.file == n.s.file
  {
    hide Prefix; hide Padded; hide Sum; hide PacketOf; hide Filled; hide Packet;
    var n' := Step(n, PollSender);
    assert n'.r.xmbuf[..0] == [];
    assert n'.s.xmbuf[..1] == [n.s.xmbuf[0]];
  }

  /** As long as the receiver has not closed, the transfer can be completed on both sides. */
  lemma NeverStuck(n: Net)
    requires Inv(n) && n.r.active
    ensures CanClose(n)
  {
    hide CanClose; hide Inv;
    ActiveInv(n);
    if Starting(n) { CloseStarting(n); }
    else if Ending(n) { CloseEnding(n); }
    else if exists k: nat, w: nat :: Sending(n, k, w) {
      var k: nat, w: nat :| Sending(n, k, w);
      CloseSending(n, k, w);
    } else {
      InvLast(n);
      var k: nat :| Replying(n, k);
      CloseReplying(n, k);
    }
  }

  lemma ActiveInv(n: Net)
    requires Inv(n)
    ensures n.r.active == !Closed(n)
  {
    hide PacketOf; hide Prefix; hide Padded;
  }

  /** After that the sender closes too exactly when the last ACK was not spoiled: otherwise it
      waits for a reply that no run brings. */
  lemma SenderCloses(n: Net)
    requires Inv(n) && !n.r.active
    ensures (exists run :: !Run(n, run).s.active) <==> !n.s.active || ACK in n.replies
  {
    hide Inv; hide Closed; hide Step;
    ActiveInv(n);
    if !n.s.active {
      assert Run(n, []) == n;
    } else if ACK in n.replies {
      InvReady(n);
      AckIsLast(n);
      LastStep(n);
      OneAction(n, DeliverReply);
      assert !Run(n, [DeliverReply]).s.active;
    } else {
      NoAck(n);
      forall run ensures Run(n, run).s.active { StaysActive(n, run); }
    }
  }

  lemma OneAction(n: Net, a: Action)
    requires Inv(n)
    ensures Ready(n) && Run(n, [a]) == Step(n, a)
  {
    hide Inv; hide Step;
    InvStep(n, a);
    assert [a][1..] == [];
  }

  lemma AckIsLast(n: Net)
    requires Closed(n) && ACK in n.replies
    ensures LastReply(n)
  {}

  lemma LastStep(n: Net)
    requires Ready(n) && LastReply(n)
    ensures !Step(n, DeliverReply).s.active
  {}

  lemma NoAck(n: Net)
    requires Closed(n) && ACK !in n.replies
    ensures forall c :: c in n.replies ==> c == NAK
  {}

  lemma {:induction false} StaysActive(n: Net, run: seq<Action>)
    requires Inv(n) && Closed(n) && n.s.active && forall c :: c in n.replies ==> c == NAK
    ensures Run(n, run).s.active
    decreases |run|
  {
    hide Inv; hide Padded; hide Filled; hide Packet;
    if run != [] {
      InvStep(n, run[0]);
      ClosedStep(n, run[0]);
      StaysActive(Step(n, run[0]), run[1..]);
    }
  }

  // ---------- the port ----------

  /** The variables of the port while a transfer is going on: xmstat is 1 to send, 2 to
      receive and 0 once it is over. */
  class Port {
    var xmstat: nat
    var xidx: nat
    var acknak: int
    var rcvdnak: int
    var blocknum: Byte
    var xmbuf: array<Byte>
    var file: seq<Byte>
    var pos: nat
    var out: seq<Byte>

    ghost predicate Valid()
      reads this, xmbuf
    {
      xmbuf.Length == 132 && xidx < 132 && pos <= |file|
    }

    ghost function AsSender(): Sender
      requires Valid()
      reads this, xmbuf
    {
      Sender(xmstat == 1, xidx, acknak, rcvdnak, blocknum, xmbuf[..], file, pos)
    }

    ghost function AsReceiver(): Receiver
      requires Valid()
      reads this, xmbuf
    {
      Receiver(xmstat == 2, xidx, acknak, blocknum, xmbuf[..], out)
    }

    /** Opening a file to send, or to receive into. */
    constructor (xmstat: nat, file: seq<Byte>)
      ensures Valid() && fresh(xmbuf)
      ensures xmstat == 1 ==> AsSender() == Initial(file).s
      ensures xmstat == 2 ==> AsReceiver() == Initial(file).r
    {
      this.xmstat := xmstat;
      xidx, acknak, rcvdnak, blocknum := 0, NAK, EOF, 1;
      xmbuf := new Byte[132](_ => 0);
      this.file, pos, out := file, 0, [];
      new;
      assert xmbuf[..] == Zeros(132);
    }

    /** The checksum loop of both halves. */
    method Checksum() returns (sum: Byte)
      requires Valid()
      ensures sum == Sum(xmbuf[3..131])
    {
      sum := 0;
      var w := 3;
      assert xmbuf[3..3] == [];
      while w < 131
        invariant 3 <= w <= 131 && sum == Sum(xmbuf[3..w])
      {
        assert xmbuf[3..w + 1][..w - 3] == xmbuf[3..w];
        sum := Wrap8(sum as int + xmbuf[w]);
        w := w + 1;
      }
    }

    /** memset and fread: the data of the next block; the number of bytes read. */
    method ReadBlock() returns (w: nat)
      requires Valid()
      modifies xmbuf, this`pos
      ensures Valid() && w == MinInt(128, |file| - old(pos)) && pos == old(pos) + w
      ensures forall k :: 0 <= k < 3 || k == 131 ==> xmbuf[k] == 0
      ensures xmbuf[3..131] == Filled(file, old(pos))
    {
      ghost var from := pos;
      var i := 0;
      while i < 132
        invariant 0 <= i <= 132 && pos == from && forall k :: 0 <= k < i ==> xmbuf[k] == 0
      {
        xmbuf[i] := 0;
        i := i + 1;
      }
      w := 0;
      while w < 128 && pos < |file|
        invariant 0 <= w <= 128 && pos == from + w <= |file|
        invariant forall k :: 3 <= k < 3 + w ==> xmbuf[k] == file[from + k - 3]
        invariant forall k :: 0 <= k < 3 || 3 + w <= k < 132 ==> xmbuf[k] == 0
      {
        xmbuf[3 + w] := file[pos];
        w, pos := w + 1, pos + 1;
      }
      FilledIs(xmbuf[..], file, from, w);
    }

    method CharInput() returns (c: int)
      requires Valid() && (xmstat == 1 || xmstat == 2)
      modifies this, xmbuf
      ensures Valid() && xmbuf == old(xmbuf) && file == old(file)
      ensures old(xmstat) == 1 ==> (c, AsSender()) == SenderInput(old(AsSender())) && out == old(out) && xmstat == 1
      ensures old(xmstat) == 2 ==> (c, AsReceiver()) == ReceiverInput(old(AsReceiver()))
    {
      if xmstat == 1 {
        if xidx > 0 {
          c := xmbuf[xidx] as int;
          xidx := xidx + 1;
          if xidx == 132 { xidx, rcvdnak, acknak := 0, EOF, ACK; }
        } else if (acknak == NAK && rcvdnak == NAK) || (acknak == ACK && rcvdnak == ACK) {
          c := SendBlock();
        } else if rcvdnak == NAK {
          rcvdnak := 0;
          c := xmbuf[xidx] as int;
          xidx := xidx + 1;
        } else {
          c := EOF;
        }
      } else {
        if acknak == EOT {
          c, acknak, xmstat := ACK, 0, 0;
        } else if acknak != 0 {
          c, acknak := acknak, 0;
        } else {
          c := EOF;
        }
      }
    }

    /** The next block, or the end mark. */
    method SendBlock() returns (c: int)
      requires Valid() && xmstat == 1 && xidx == 0 && ((acknak == NAK && rcvdnak == NAK) || (acknak == ACK && rcvdnak == ACK))
      modifies this`rcvdnak, this`xidx, this`acknak, this`blocknum, this`pos, xmbuf
      ensures Valid() && (c, AsSender()) == SenderInput(old(AsSender()))
    {
      hide Sum; hide Filled;
      rcvdnak := 0;
      ghost var from, number := pos, blocknum;
      var w := ReadBlock();
      if w > 0 {
        ghost var d := xmbuf[3..131];
        xmbuf[0], xmbuf[1], xmbuf[2] := 1, blocknum, 255 - blocknum;
        blocknum := Wrap8(blocknum as int + 1);
        assert xmbuf[3..131] == d;
        var sum := Checksum();
        xmbuf[131] := sum;
        assert xmbuf[..] == Packet(number, d);
        acknak, c, xidx := ACK, 1, 1;
      } else {
        assert Filled(file, from) == Zeros(128) by { AllZero(file, from); }
        assert xmbuf[..] == xmbuf[..3] + xmbuf[3..131] + xmbuf[131..];
        assert xmbuf[..] == Zeros(132);
        acknak, c := EOT, EOT;
      }
    }

    method DoOutput(c: Byte)
      requires Valid() && (xmstat == 1 || xmstat == 2)
      modifies this, xmbuf
      ensures Valid() && xmbuf == old(xmbuf) && file == old(file)
      ensures old(xmstat) == 1 ==> AsSender() == SenderOutput(old(AsSender()), c as int)
      ensures old(xmstat) == 2 ==> AsReceiver() == ReceiverOutput(old(AsReceiver()), c)
    {
      if xmstat == 1 {
        rcvdnak := c as int;
        if c == ACK && acknak == EOT { xmstat := 0; }
        if c == CAN { xmstat := 0; }
      } else {
        Receive(c);
      }
    }

    method Receive(c: Byte)
      requires Valid() && xmstat == 2
      modifies this`acknak, this`xidx, this`blocknum, this`out, xmbuf
      ensures Valid() && AsReceiver() == ReceiverOutput(old(AsReceiver()), c)
    {
      hide Sum;
      if xidx == 0 && c == EOT { acknak := EOT; }
      ghost var was, at := xmbuf[..], xidx;
      xmbuf[xidx] := c;
      assert xmbuf[..] == was[at := c];
      if xidx + 1 == 132 {
        xidx := 0;
        var sum := Checksum();
        assert xmbuf[..][3..131] == xmbuf[3..131];
        acknak := if xmbuf[0] == 1 && xmbuf[1] == 255 - xmbuf[2] && sum == xmbuf[131] then ACK else NAK;
        if blocknum == xmbuf[1] {
          blocknum := Wrap8(blocknum as int + 1);
          out := out + xmbuf[3..131];
        }
      } else {
        xidx := xidx + 1;
      }
    }
  }

  /** Bytes of the file and then zeros are what a block holds. */
  lemma FilledIs(b: seq<Byte>, file: seq<Byte>, from: nat, w: nat)
    requires |b| == 132 && from + w <= |file| && w <= 128 && (w == 128 || from + w == |file|)
    requires forall k :: 3 <= k < 3 + w ==> b[k] == file[from + k - 3]
    requires forall k :: 3 + w <= k < 132 ==> b[k] == 0
    ensures b[3..131] == Filled(file, from)
  {
    var d := Filled(file, from);
    forall k | 0 <= k < 128 ensures b[3..131][k] == d[k] { assert b[3..131][k] == b[3 + k]; }
  }

  lemma AllZero(file: seq<Byte>, pos: nat)
    requires pos == |file|
    ensures Filled(file, pos) == Zeros(128)
  {}
}
