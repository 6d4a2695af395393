/**
 * The JOS E1000 network driver (kern/e1000.c): the transmit and receive
 * descriptor rings, their packet buffers, the registers the driver writes,
 * and the two operations that move packets through the rings.
 *
 * Memory-mapped registers are fields of the Driver object; what the card
 * itself does to the rings is modelled by two methods, NicTransmit and
 * NicReceive, that follow the Intel 8254x rules: the card works on the
 * transmit descriptors from TDH up to (not including) TDT, writes received
 * packets into the descriptors from RDH up to (not including) RDT, and
 * reports each finished descriptor by setting its DD status bit.
 */
module E1000 {
  import opened Base
  import opened Mmu
  import Syscall

  /** A byte of packet data. */
  newtype byte = x: int | 0 <= x < 0x100

  const MAX_TX_PKTSIZE: nat := 1518
  const MAX_RX_PKTSIZE: nat := 2048
  /** A descriptor is 16 bytes and each ring fills one page: PGSIZE / 16 slots. */
  const N_TXDESC: nat := 256
  const N_RXDESC: nat := 256
  /** Multicast table entries cleared by rx_init. */
  const N_MTA: nat := 128

  const E_INVAL: int := Syscall.E_INVAL
  /** The "try again" error this driver adds to JOS's error codes. */
  const E_AGAIN: int := 16

  /** Transmit descriptor bits (Intel 8254x manual, section 3.3.3). */
  const TX_CMD_EOP: bv8 := 0x01
  const TX_CMD_RS: bv8 := 0x08
  const TX_STATUS_DD: bv8 := 0x01
  /** Receive descriptor bits (Intel 8254x manual, section 3.2.3). */
  const RX_STATUS_DD: bv8 := 0x01
  const RX_STATUS_EOP: bv8 := 0x02

  /** The fields of a legacy transmit descriptor that the driver uses. */
  datatype TxDesc = TxDesc(addr: nat, length: nat, cmd: bv8, status: bv8)
  /** The fields of a receive descriptor that the driver uses. */
  datatype RxDesc = RxDesc(addr: nat, length: nat, status: bv8)

  /** A descriptor in a page handed out by page_alloc(ALLOC_ZERO). */
  const ZeroTx: TxDesc := TxDesc(0, 0, 0, 0)
  const ZeroRx: RxDesc := RxDesc(0, 0, 0)

  /** One step forward around a ring of 256 descriptors. */
  function Next(i: nat): (j: nat)
    requires i < N_TXDESC
    ensures j < N_TXDESC
    ensures j == if i + 1 == N_TXDESC then 0 else i + 1
  {
    (i + 1) % N_TXDESC
  }

  /** How many steps forward it takes to get from slot `a` to slot `b`. */
  function Dist(a: nat, b: nat): (d: nat)
    requires a < N_TXDESC && b < N_TXDESC
    ensures d < N_TXDESC
  {
    if a <= b then b - a else b + N_TXDESC - a
  }

  // ---------------------------------------------------------------------
  // Transmit ring

  /** The transmit ring as descriptors plus the TDH and TDT registers. */
  datatype TxRing = TxRing(descs: seq<TxDesc>, head: nat, tail: nat)

  predicate TxShape(r: TxRing)
  {
    |r.descs| == N_TXDESC && r.head < N_TXDESC && r.tail < N_TXDESC
  }

  predicate TxFree(d: TxDesc)
  {
    d.status & TX_STATUS_DD != 0
  }

  /** The ring tx_init leaves: buffer i at txBufBase + i * MAX_TX_PKTSIZE, every descriptor done. */
  function TxInitDescs(txBufBase: nat): seq<TxDesc>
  {
    seq(N_TXDESC, i requires 0 <= i < N_TXDESC => TxDesc(txBufBase + i * MAX_TX_PKTSIZE, 0, 0, TX_STATUS_DD))
  }

  /** The descriptor e1000_tx hands to the card for a packet of `len` bytes. */
  function TxHandOver(d: TxDesc, len: nat): (h: TxDesc)
    ensures h.addr == d.addr && h.length == len
    ensures h.cmd & TX_CMD_RS != 0 && h.cmd & TX_CMD_EOP != 0
    ensures !TxFree(h)
  {
    d.(length := len, cmd := d.cmd | TX_CMD_RS | TX_CMD_EOP, status := d.status & !TX_STATUS_DD)
  }

  /**
   * The ring part of e1000_tx: the result code and the new ring, for a
   * buffer that is or is not NULL and a length `len`.
   */
  function TxSend(r: TxRing, bufNull: bool, len: nat): (TxOutcome: (int, TxRing))
    requires TxShape(r)
    ensures TxShape(TxOutcome.1)
  {
    if bufNull || len > MAX_TX_PKTSIZE then (-E_INVAL, r)
    else if r.descs[r.tail].status & TX_STATUS_DD == 0 then (-E_AGAIN, r)
    else (0, r.(descs := r.descs[r.tail := TxHandOver(r.descs[r.tail], len)], tail := Next(r.tail)))
  }

  /**
   * The card finishes the descriptor at TDH: it sets DD (RS asks for it)
   * and moves TDH on. With TDH == TDT the card sees nothing to send.
   */
  function TxComplete(r: TxRing): (c: TxRing)
    requires TxShape(r)
    ensures TxShape(c)
  {
    if r.head == r.tail then r
    else
      var d := r.descs[r.head];
      r.(descs := r.descs[r.head := d.(status := d.status | TX_STATUS_DD)], head := Next(r.head))
  }

  /**
   * Ownership of the transmit ring with `pending` packets queued: they sit in
   * the `pending` slots from TDH on, exactly those have DD clear, and TDT is
   * the slot right after them.
   */
  predicate TxRingWf(r: TxRing, pending: nat)
  {
    && TxShape(r)
    && pending <= N_TXDESC
    && Dist(r.head, r.tail) == pending % N_TXDESC
    && forall i | 0 <= i < N_TXDESC :: !TxFree(r.descs[i]) <==> Dist(r.head, i) < pending
  }

  lemma TxSendOutcomes(r: TxRing, bufNull: bool, len: nat)
    requires TxShape(r)
    ensures TxSend(r, bufNull, len).0 == -E_INVAL <==> bufNull || len > MAX_TX_PKTSIZE
    ensures TxSend(r, bufNull, len).0 == -E_AGAIN <==>
              !bufNull && len <= MAX_TX_PKTSIZE && !TxFree(r.descs[r.tail])
    ensures TxSend(r, bufNull, len).0 == 0 <==>
              !bufNull && len <= MAX_TX_PKTSIZE && TxFree(r.descs[r.tail])
    ensures TxSend(r, bufNull, len).0 != 0 ==> TxSend(r, bufNull, len).1 == r
    ensures TxSend(r, bufNull, len).0 == 0 ==>
              var s := TxSend(r, bufNull, len).1;
              && s.head == r.head
              && s.tail == Next(r.tail)
              && s.descs[r.tail] == TxHandOver(r.descs[r.tail], len)
              && forall i | 0 <= i < N_TXDESC && i != r.tail :: s.descs[i] == r.descs[i]
  {
  }

  /** After tx_init no packet is pending. */
  lemma TxInitWf(txBufBase: nat)
    ensures TxRingWf(TxRing(TxInitDescs(txBufBase), 0, 0), 0)
  {
  }

  lemma DistNext(a: nat, b: nat)
    requires a < N_TXDESC && b < N_TXDESC
    ensures Dist(a, Next(b)) == if Dist(a, b) == N_TXDESC - 1 then 0 else Dist(a, b) + 1
  {
  }

  lemma DistFromNext(a: nat, b: nat)
    requires a < N_TXDESC && b < N_TXDESC
    ensures Dist(Next(a), b) == if a == b then N_TXDESC - 1 else Dist(a, b) - 1
  {
  }

  /**
   * A successful e1000_tx queues one more packet; when it refuses, nothing
   * changes. A full ring (256 pending) always refuses.
   */
  lemma {:induction false} TxSendKeepsWf(r: TxRing, pending: nat, bufNull: bool, len: nat)
    requires TxRingWf(r, pending)
    ensures TxSend(r, bufNull, len).0 == 0 ==>
              pending < N_TXDESC && TxRingWf(TxSend(r, bufNull, len).1, pending + 1)
    ensures TxSend(r, bufNull, len).0 != 0 ==> TxRingWf(TxSend(r, bufNull, len).1, pending)
    ensures pending == N_TXDESC ==> TxSend(r, bufNull, len).0 != 0
  {
    var t := r.tail;
    if pending == N_TXDESC {
      assert Dist(r.head, t) < pending;
      assert !TxFree(r.descs[t]);
    } else if !bufNull && len <= MAX_TX_PKTSIZE && TxFree(r.descs[t]) {
      var s := TxSend(r, bufNull, len).1;
      assert Dist(r.head, t) == pending;
      if pending == N_TXDESC - 1 {
        assert Next(t) == r.head;
      } else {
        DistNext(r.head, t);
      }
      forall i | 0 <= i < N_TXDESC
        ensures !TxFree(s.descs[i]) <==> Dist(r.head, i) < pending + 1
      {
        if i == t {
        } else {
          assert s.descs[i] == r.descs[i];
          assert Dist(r.head, i) != pending;
        }
      }
    }
  }

  /**
   * The card finishing a descriptor dequeues one packet, as long as it sees
   * one: with 256 pending packets TDH == TDT, the card reads the ring as
   * empty and does nothing.
   */
  lemma {:induction false} TxCompleteKeepsWf(r: TxRing, pending: nat)
    requires TxRingWf(r, pending)
    ensures 0 < pending < N_TXDESC ==> TxRingWf(TxComplete(r), pending - 1)
    ensures pending == 0 || pending == N_TXDESC ==> TxComplete(r) == r
  {
    if 0 < pending < N_TXDESC {
      var h := r.head;
      var c := TxComplete(r);
      assert h != r.tail;
      DistFromNext(h, r.tail);
      forall i | 0 <= i < N_TXDESC
        ensures !TxFree(c.descs[i]) <==> Dist(c.head, i) < pending - 1
      {
        if i == h {
          assert Dist(c.head, i) == N_TXDESC - 1;
        } else {
          DistFromNext(h, i);
        }
      }
    }
  }

  /** A full transmit ring stays full: neither the driver nor the card can move. */
  lemma TxFullRingStalls(r: TxRing, bufNull: bool, len: nat)
    requires TxRingWf(r, N_TXDESC)
    ensures r.head == r.tail
    ensures TxComplete(r) == r
    ensures TxSend(r, bufNull, len).0 != 0 && TxSend(r, bufNull, len).1 == r
  {
    TxSendKeepsWf(r, N_TXDESC, bufNull, len);
    TxCompleteKeepsWf(r, N_TXDESC);
  }

  /** `k` valid packets of `len` bytes sent back to back, with the card idle. */
  function TxSendMany(r: TxRing, len: nat, k: nat): (s: TxRing)
    requires TxShape(r)
    ensures TxShape(s)
  {
    if k == 0 then r else TxSend(TxSendMany(r, len, k - 1), false, len).1
  }

  /**
   * From a freshly initialised ring, with the card not finishing anything,
   * the first 256 packets are all accepted and fill the ring.
   */
  lemma {:induction false} TxFillsRing(txBufBase: nat, len: nat, k: nat)
    requires len <= MAX_TX_PKTSIZE && k <= N_TXDESC
    ensures TxRingWf(TxSendMany(TxRing(TxInitDescs(txBufBase), 0, 0), len, k), k)
    ensures k < N_TXDESC ==>
              TxSend(TxSendMany(TxRing(TxInitDescs(txBufBase), 0, 0), len, k), false, len).0 == 0
  {
    var r0 := TxRing(TxInitDescs(txBufBase), 0, 0);
    if k == 0 {
      TxInitWf(txBufBase);
    } else {
      TxFillsRing(txBufBase, len, k - 1);
      TxSendKeepsWf(TxSendMany(r0, len, k - 1), k - 1, false, len);
    }
    if k < N_TXDESC {
      var s := TxSendMany(r0, len, k);
      assert Dist(s.head, s.tail) == k;
      assert TxFree(s.descs[s.tail]);
    }
  }

  // ---------------------------------------------------------------------
  // Receive ring

  /** The receive ring as descriptors plus the RDH and RDT registers. */
  datatype RxRing = RxRing(descs: seq<RxDesc>, head: nat, tail: nat)

  predicate RxShape(r: RxRing)
  {
    |r.descs| == N_RXDESC && r.head < N_RXDESC && r.tail < N_RXDESC
    && forall i | 0 <= i < N_RXDESC :: r.descs[i].length <= MAX_RX_PKTSIZE
  }

  predicate RxFilled(d: RxDesc)
  {
    d.status & RX_STATUS_DD != 0
  }

  /** The ring rx_init leaves: buffer i at rxBufBase + i * MAX_RX_PKTSIZE, nothing received. */
  function RxInitDescs(rxBufBase: nat): seq<RxDesc>
  {
    seq(N_RXDESC, i requires 0 <= i < N_RXDESC => RxDesc(rxBufBase + i * MAX_RX_PKTSIZE, 0, 0))
  }

  /** The descriptor e1000_rx gives back to the card. */
  function RxRelease(d: RxDesc): (g: RxDesc)
    ensures g.addr == d.addr && g.length == d.length
    ensures !RxFilled(g) && g.status & RX_STATUS_EOP == 0
  {
    d.(status := d.status & !RX_STATUS_DD & !RX_STATUS_EOP)
  }

  /** The slot e1000_rx looks at next: the one after RDT. */
  function RxNextSlot(r: RxRing): (t: nat)
    requires RxShape(r)
    ensures t < N_RXDESC
  {
    Next(r.tail)
  }

  /**
   * The ring part of e1000_rx: panic on a NULL buffer or a length above
   * MAX_RX_PKTSIZE, -E_AGAIN when the slot after RDT holds no packet, and
   * otherwise that packet's length, with the slot given back to the card.
   * Past the first check `len` plays no part: the whole packet is copied.
   */
  function RxRecv(r: RxRing, bufNull: bool, len: nat): (RxOutcome: (Outcome<int>, RxRing))
    requires RxShape(r)
    ensures RxShape(RxOutcome.1)
  {
    if bufNull || len > MAX_RX_PKTSIZE then (Panicked, r)
    else
      var t := RxNextSlot(r);
      if !RxFilled(r.descs[t]) then (Returned(-E_AGAIN), r)
      else (Returned(r.descs[t].length as int), r.(descs := r.descs[t := RxRelease(r.descs[t])], tail := t))
  }

  /** The card stores an `n`-byte packet at RDH, unless RDH has caught up with RDT. */
  function RxArrive(r: RxRing, n: nat): (a: (bool, RxRing))
    requires RxShape(r) && n <= MAX_RX_PKTSIZE
    ensures RxShape(a.1)
  {
    if r.head == r.tail then (false, r)
    else
      var d := r.descs[r.head];
      (true, r.(descs := r.descs[r.head := d.(length := n, status := d.status | RX_STATUS_DD | RX_STATUS_EOP)],
                head := Next(r.head)))
  }

  /**
   * Ownership of the receive ring holding `filled` received packets: they
   * sit in the `filled` slots after RDT, exactly those have DD set, and RDH
   * is the slot right after them. RDT itself stays with the driver.
   */
  predicate RxRingWf(r: RxRing, filled: nat)
  {
    && RxShape(r)
    && filled < N_RXDESC
    && Dist(r.tail, r.head) == (filled + 1) % N_RXDESC
    && forall i | 0 <= i < N_RXDESC :: RxFilled(r.descs[i]) <==> 0 < Dist(r.tail, i) <= filled
  }

  /** After rx_init (RDH = 0, RDT = N_RXDESC - 1) the ring is consistent and empty. */
  lemma RxInitWf(rxBufBase: nat)
    ensures RxRingWf(RxRing(RxInitDescs(rxBufBase), 0, N_RXDESC - 1), 0)
    ensures RxNextSlot(RxRing(RxInitDescs(rxBufBase), 0, N_RXDESC - 1)) == 0
  {
  }

  lemma RxRecvOutcomes(r: RxRing, filled: nat, bufNull: bool, len: nat)
    requires RxRingWf(r, filled)
    ensures RxRecv(r, bufNull, len).0 == Panicked <==> bufNull || len > MAX_RX_PKTSIZE
    ensures RxRecv(r, bufNull, len).0 == Returned(-E_AGAIN) <==>
              !bufNull && len <= MAX_RX_PKTSIZE && filled == 0
    ensures !bufNull && len <= MAX_RX_PKTSIZE && filled > 0 ==>
              RxRecv(r, bufNull, len).0 == Returned(r.descs[RxNextSlot(r)].length as int)
    ensures RxRecv(r, bufNull, len).0 != Returned(r.descs[RxNextSlot(r)].length as int) ==>
              RxRecv(r, bufNull, len).1 == r
  {
    var t := RxNextSlot(r);
    DistNext(r.tail, r.tail);
    assert Dist(r.tail, t) == 1;
  }

  /**
   * Any `len` that passes the first check gives the same result, and a
   * packet is never longer than MAX_RX_PKTSIZE, so a buffer of that size
   * always holds what e1000_rx copies.
   */
  lemma RxIgnoresLen(r: RxRing, bufNull: bool, len: nat, len': nat)
    requires RxShape(r) && len <= MAX_RX_PKTSIZE && len' <= MAX_RX_PKTSIZE
    ensures RxRecv(r, bufNull, len) == RxRecv(r, bufNull, len')
    ensures RxRecv(r, bufNull, len).0.Returned? ==> RxRecv(r, bufNull, len).0.value <= MAX_RX_PKTSIZE
  {
  }

  /** Taking a packet out hands its slot back and leaves one packet fewer. */
  lemma {:induction false} RxRecvKeepsWf(r: RxRing, filled: nat, bufNull: bool, len: nat)
    requires RxRingWf(r, filled)
    ensures RxRecv(r, bufNull, len).1 != r ==>
              filled > 0 && RxRingWf(RxRecv(r, bufNull, len).1, filled - 1)
  {
    var s := RxRecv(r, bufNull, len).1;
    if s != r {
      var t := RxNextSlot(r);
      RxRecvOutcomes(r, filled, bufNull, len);
      DistNext(r.tail, r.tail);
      assert s.tail == t && s.head == r.head;
      DistFromNext(r.tail, r.head);
      forall i | 0 <= i < N_RXDESC
        ensures RxFilled(s.descs[i]) <==> 0 < Dist(t, i) <= filled - 1
      {
        if i == t {
        } else if i == r.tail {
          assert Dist(t, i) == N_RXDESC - 1;
        } else {
          DistFromNext(r.tail, i);
        }
      }
    }
  }

  /**
   * The card storing a packet adds one to the filled slots; it drops the
   * packet exactly when all slots but RDT's are filled.
   */
  lemma {:induction false} RxArriveKeepsWf(r: RxRing, filled: nat, n: nat)
    requires RxRingWf(r, filled) && n <= MAX_RX_PKTSIZE
    ensures !RxArrive(r, n).0 <==> filled == N_RXDESC - 1
    ensures !RxArrive(r, n).0 ==> RxArrive(r, n).1 == r
    ensures RxArrive(r, n).0 ==> RxRingWf(RxArrive(r, n).1, filled + 1)
    ensures RxArrive(r, n).0 ==> RxArrive(r, n).1.descs[r.head].length == n
  {
    var h := r.head;
    if filled < N_RXDESC - 1 {
      var s := RxArrive(r, n).1;
      assert Dist(r.tail, h) == filled + 1;
      if filled + 1 < N_RXDESC - 1 {
        DistNext(r.tail, h);
      } else {
        assert Next(h) == r.tail;
      }
      forall i | 0 <= i < N_RXDESC
        ensures RxFilled(s.descs[i]) <==> 0 < Dist(r.tail, i) <= filled + 1
      {
        if i != h {
          assert s.descs[i] == r.descs[i];
        }
      }
    }
  }

  /** With the card idle, a packet that arrives in an empty ring is the next one e1000_rx returns. */
  lemma {:induction false} RxDeliversArrival(r: RxRing, n: nat, len: nat)
    requires RxRingWf(r, 0)
    requires n <= MAX_RX_PKTSIZE && len <= MAX_RX_PKTSIZE
    ensures RxArrive(r, n).0
    ensures RxRecv(RxArrive(r, n).1, false, len).0 == Returned(n as int)
  {
    RxArriveKeepsWf(r, 0, n);
    var a := RxArrive(r, n).1;
    DistNext(r.tail, r.tail);
    assert RxNextSlot(a) == r.head;
  }

  // ---------------------------------------------------------------------
  // MAC address

  function Lo(w: bv16): bv8 { (w & 0xff) as bv8 }
  function Hi(w: bv16): bv8 { ((w >> 8) & 0xff) as bv8 }

  /** e1000_mac_address as rx_init fills it from EEPROM words 0, 1 and 2. */
  function MacFromEeprom(low: bv16, mid: bv16, high: bv16): (mac: seq<bv8>)
    ensures |mac| == 6
  {
    [Lo(low), Hi(low), Lo(mid), Hi(mid), Lo(high), Hi(high)]
  }

  /** The Receive Address Low register rx_init writes. */
  function RalValue(low: bv16, mid: bv16): bv32
  {
    (low as bv32 & 0xffff) + ((mid as bv32 << 16) & 0xffff_0000)
  }

  /** Byte `i` (little endian) of a 32-bit register. */
  function ByteOf(x: bv32, i: nat): bv8
    requires i < 4
  {
    if i == 0 then (x & 0xff) as bv8
    else if i == 1 then ((x >> 8) & 0xff) as bv8
    else if i == 2 then ((x >> 16) & 0xff) as bv8
    else (x >> 24) as bv8
  }

  /**
   * RAL and then the low half of RAH hold, low byte first, exactly the MAC
   * address the driver reports.
   */
  lemma ReceiveAddressIsMac(low: bv16, mid: bv16, high: bv16)
    ensures forall i | 0 <= i < 4 :: ByteOf(RalValue(low, mid), i) == MacFromEeprom(low, mid, high)[i]
    ensures ByteOf(high as bv32, 0) == MacFromEeprom(low, mid, high)[4]
    ensures ByteOf(high as bv32, 1) == MacFromEeprom(low, mid, high)[5]
    ensures ByteOf(high as bv32, 2) == 0 && ByteOf(high as bv32, 3) == 0
  {
    var ral := RalValue(low, mid);
    assert ByteOf(ral, 0) == Lo(low);
    assert ByteOf(ral, 1) == Hi(low);
    assert ByteOf(ral, 2) == Lo(mid);
    assert ByteOf(ral, 3) == Hi(mid);
  }

  // ---------------------------------------------------------------------
  // The driver and the card

  /** The descriptor loop of tx_init, run on a freshly allocated zeroed page. */
  method NewTxDescs(txBufBase: nat) returns (descs: array<TxDesc>)
    ensures fresh(descs) && descs[..] == TxInitDescs(txBufBase)
  {
    descs := new TxDesc[N_TXDESC](_ => ZeroTx);
    for i := 0 to N_TXDESC
      invariant forall k | 0 <= k < i :: descs[k] == TxInitDescs(txBufBase)[k]
      invariant forall k | i <= k < N_TXDESC :: descs[k] == ZeroTx
    {
      descs[i] := descs[i].(addr := txBufBase + i * MAX_TX_PKTSIZE,
                            status := descs[i].status | TX_STATUS_DD);
    }
    assert descs[..] == TxInitDescs(txBufBase);
  }

  /** The descriptor loop of rx_init, run on a freshly allocated zeroed page. */
  method NewRxDescs(rxBufBase: nat) returns (descs: array<RxDesc>)
    ensures fresh(descs) && descs[..] == RxInitDescs(rxBufBase)
  {
    descs := new RxDesc[N_RXDESC](_ => ZeroRx);
    for i := 0 to N_RXDESC
      invariant forall k | 0 <= k < i :: descs[k] == RxInitDescs(rxBufBase)[k]
      invariant forall k | i <= k < N_RXDESC :: descs[k] == ZeroRx
    {
      descs[i] := descs[i].(addr := rxBufBase + i * MAX_RX_PKTSIZE);
    }
    assert descs[..] == RxInitDescs(rxBufBase);
  }

  /** The six stores of rx_init into e1000_mac_address. */
  method StoreMac(mac: array<bv8>, low: bv16, mid: bv16, high: bv16)
    requires mac.Length == 6
    modifies mac
    ensures mac[..] == MacFromEeprom(low, mid, high)
  {
    mac[0] := Lo(low);
    mac[1] := Hi(low);
    mac[2] := Lo(mid);
    mac[3] := Hi(mid);
    mac[4] := Lo(high);
    mac[5] := Hi(high);
    assert mac[..] == MacFromEeprom(low, mid, high);
  }

  /** The multicast table loop of rx_init. */
  method ClearTable(table: array<bv32>)
    modifies table
    ensures forall k | 0 <= k < table.Length :: table[k] == 0
  {
    for i := 0 to table.Length
      invariant forall k | 0 <= k < i :: table[k] == 0
    {
      table[i] := 0;
    }
  }

  /** The driver's globals together with the card's registers it uses. */
  class Driver {
    var txDescs: array<TxDesc>
    var txBuf: array2<byte>
    var tdbal: nat
    var tdlen: nat
    var tdh: nat
    var tdt: nat
    var rxDescs: array<RxDesc>
    var rxBuf: array2<byte>
    var rdbal: nat
    var rdlen: nat
    var rdh: nat
    var rdt: nat
    var ral: bv32
    var rah: bv32
    var mta: array<bv32>
    var mac: array<bv8>

    ghost predicate Valid()
      reads this, rxDescs
    {
      && txDescs.Length == N_TXDESC && tdh < N_TXDESC && tdt < N_TXDESC
      && txBuf.Length0 == N_TXDESC && txBuf.Length1 == MAX_TX_PKTSIZE
      && rxDescs.Length == N_RXDESC && rdh < N_RXDESC && rdt < N_RXDESC
      && rxBuf.Length0 == N_RXDESC && rxBuf.Length1 == MAX_RX_PKTSIZE
      && mta.Length == N_MTA && mac.Length == 6
      && forall i | 0 <= i < N_RXDESC :: rxDescs[i].length <= MAX_RX_PKTSIZE
    }

    function TxState(): (r: TxRing)
      reads this, txDescs
    {
      TxRing(txDescs[..], tdh, tdt)
    }

    function RxState(): (r: RxRing)
      reads this, rxDescs
    {
      RxRing(rxDescs[..], rdh, rdt)
    }

    /**
     * pci_e1000_attach after the PCI and MMIO set-up: the buffers start
     * zeroed, then tx_init and rx_init run. The physical addresses of the
     * buffers and of the two descriptor pages, and the three EEPROM words,
     * come from outside the driver.
     */
    constructor Attach(txBufBase: nat, txDescPage: nat, rxBufBase: nat, rxDescPage: nat,
                       macLow: bv16, macMid: bv16, macHigh: bv16)
      ensures Valid()
      ensures TxState() == TxRing(TxInitDescs(txBufBase), 0, 0)
      ensures RxState() == RxRing(RxInitDescs(rxBufBase), 0, N_RXDESC - 1)
      ensures mac[..] == MacFromEeprom(macLow, macMid, macHigh)
      ensures ral == RalValue(macLow, macMid) && rah == macHigh as bv32
    {
      txDescs := new TxDesc[N_TXDESC](_ => ZeroTx);
      txBuf := new byte[N_TXDESC, MAX_TX_PKTSIZE]((_, _) => 0);
      rxDescs := new RxDesc[N_RXDESC](_ => ZeroRx);
      rxBuf := new byte[N_RXDESC, MAX_RX_PKTSIZE]((_, _) => 0);
      mta := new bv32[N_MTA](_ => 0);
      mac := new bv8[6](_ => 0);
      tdbal, tdlen, tdh, tdt := 0, 0, 0, 0;
      rdbal, rdlen, rdh, rdt := 0, 0, 0, 0;
      ral, rah := 0, 0;
      new;
      TxInit(txBufBase, txDescPage);
      RxInit(rxBufBase, rxDescPage, macLow, macMid, macHigh);
    }

    /** e1000_tx_init: a fresh zeroed descriptor page, every descriptor pointing at its buffer and done. */
    method TxInit(txBufBase: nat, txDescPage: nat)
      requires Valid()
      modifies this
      ensures Valid() && fresh(txDescs)
      ensures TxState() == TxRing(TxInitDescs(txBufBase), 0, 0)
      ensures tdbal == txDescPage && tdlen == PGSIZE
      ensures txBuf == old(txBuf) && rxDescs == old(rxDescs) && rxBuf == old(rxBuf)
      ensures rdh == old(rdh) && rdt == old(rdt) && rdbal == old(rdbal) && rdlen == old(rdlen)
      ensures ral == old(ral) && rah == old(rah) && mta == old(mta) && mac == old(mac)
    {
      txDescs := NewTxDescs(txBufBase);
      tdbal := txDescPage;
      tdlen := PGSIZE;
      tdh := 0;
      tdt := 0;
    }

    /** The RAL/RAH writes of rx_init; no other register or global changes. */
    method ProgramReceiveAddress(macLow: bv16, macMid: bv16, macHigh: bv16)
      modifies this
      ensures ral == RalValue(macLow, macMid) && rah == macHigh as bv32
      ensures txDescs == old(txDescs) && txBuf == old(txBuf) && rxBuf == old(rxBuf) && rxDescs == old(rxDescs)
      ensures tdh == old(tdh) && tdt == old(tdt) && tdbal == old(tdbal) && tdlen == old(tdlen)
      ensures rdh == old(rdh) && rdt == old(rdt) && rdbal == old(rdbal) && rdlen == old(rdlen)
      ensures mta == old(mta) && mac == old(mac)
    {
      ral := RalValue(macLow, macMid);
      rah := macHigh as bv32;
    }

    /**
     * e1000_rx_init: program the receive address from the EEPROM words,
     * fill in e1000_mac_address, clear the multicast table, and set up a
     * fresh zeroed descriptor page with the card owning every slot but one.
     */
    method RxInit(rxBufBase: nat, rxDescPage: nat, macLow: bv16, macMid: bv16, macHigh: bv16)
      requires Valid()
      modifies this, mta, mac
      ensures Valid() && fresh(rxDescs)
      ensures RxState() == RxRing(RxInitDescs(rxBufBase), 0, N_RXDESC - 1)
      ensures rdbal == rxDescPage && rdlen == PGSIZE
      ensures ral == RalValue(macLow, macMid) && rah == macHigh as bv32
      ensures mac[..] == MacFromEeprom(macLow, macMid, macHigh)
      ensures forall i | 0 <= i < N_MTA :: mta[i] == 0
      ensures mta == old(mta) && mac == old(mac)
      ensures txDescs == old(txDescs) && txBuf == old(txBuf) && rxBuf == old(rxBuf)
      ensures tdh == old(tdh) && tdt == old(tdt) && tdbal == old(tdbal) && tdlen == old(tdlen)
    {
      ProgramReceiveAddress(macLow, macMid, macHigh);
      StoreMac(mac, macLow, macMid, macHigh);
      assert mta as object != mac by {
        assert mta.Length != mac.Length;
      }
      ClearTable(mta);
      rxDescs := NewRxDescs(rxBufBase);
      rdbal := rxDescPage;
      rdlen := PGSIZE;
      rdh := 0;
      rdt := N_RXDESC - 1;
    }

    /**
     * e1000_tx: queue the first `len` bytes of `buf` (null for a NULL
     * pointer). On success the packet buffer at the old TDT holds exactly
     * those bytes followed by zeros, and only that buffer changes.
     */
    method Tx(buf: array?<byte>, len: nat) returns (r: int)
      requires Valid()
      requires buf != null && len <= MAX_TX_PKTSIZE ==> len <= buf.Length
      modifies this, txDescs, txBuf
      ensures Valid()
      ensures (r, TxState()) == TxSend(old(TxState()), buf == null, len)
      ensures r == 0 ==> forall j | 0 <= j < MAX_TX_PKTSIZE ::
                txBuf[old(tdt), j] == if j < len then buf[j] else 0
      ensures forall i, j | 0 <= i < N_TXDESC && 0 <= j < MAX_TX_PKTSIZE && (r != 0 || i != old(tdt)) ::
                txBuf[i, j] == old(txBuf[i, j])
      ensures txDescs == old(txDescs) && txBuf == old(txBuf) && rxDescs == old(rxDescs) && rxBuf == old(rxBuf)
      ensures RxState() == old(RxState())
      ensures tdbal == old(tdbal) && tdlen == old(tdlen) && rdbal == old(rdbal) && rdlen == old(rdlen)
      ensures ral == old(ral) && rah == old(rah) && mta == old(mta) && mac == old(mac)
    {
      if buf == null || len > MAX_TX_PKTSIZE {
        return -E_INVAL;
      }
      var tail := tdt;
      if txDescs[tail].status & TX_STATUS_DD == 0 {
        return -E_AGAIN;
      }
      forall j | 0 <= j < MAX_TX_PKTSIZE {
        txBuf[tail, j] := 0;
      }
      forall j | 0 <= j < len {
        txBuf[tail, j] := buf[j];
      }
      txDescs[tail] := TxHandOver(txDescs[tail], len);
      assert txDescs[..] == old(txDescs[..])[tail := TxHandOver(old(txDescs[tail]), len)];
      tdt := (tdt + 1) % N_TXDESC;
      r := 0;
    }

    /**
     * The card sends the packet at TDH, if there is one, returning its
     * bytes: the first `length` bytes of that descriptor's buffer.
     */
    method NicTransmit() returns (packet: Option<seq<byte>>)
      requires Valid()
      requires forall i | 0 <= i < N_TXDESC :: txDescs[i].length <= MAX_TX_PKTSIZE
      modifies this, txDescs
      ensures Valid()
      ensures TxState() == TxComplete(old(TxState()))
      ensures packet.None? <==> old(tdh) == old(tdt)
      ensures packet.Some? ==>
                var n := old(txDescs[tdh]).length;
                |packet.value| == n && forall j | 0 <= j < n :: packet.value[j] == txBuf[old(tdh), j]
      ensures txDescs == old(txDescs) && txBuf == old(txBuf) && rxDescs == old(rxDescs) && rxBuf == old(rxBuf)
      ensures RxState() == old(RxState())
      ensures tdbal == old(tdbal) && tdlen == old(tdlen) && rdbal == old(rdbal) && rdlen == old(rdlen)
      ensures ral == old(ral) && rah == old(rah) && mta == old(mta) && mac == old(mac)
    {
      if tdh == tdt {
        return None;
      }
      var h := tdh;
      var n := txDescs[h].length;
      var bytes := txBuf;
      packet := Some(seq(n, j requires 0 <= j < n reads bytes => bytes[h, j]));
      txDescs[h] := txDescs[h].(status := txDescs[h].status | TX_STATUS_DD);
      tdh := Next(h);
    }

    /**
     * e1000_rx. On success the first `n` bytes of `buf` are the packet in
     * the slot after the old RDT, and nothing else of `buf` changes. The
     * copy writes the whole packet, so the buffer must hold it; one of
     * MAX_RX_PKTSIZE bytes always does.
     */
    method Rx(buf: array?<byte>, len: nat) returns (o: Outcome<int>)
      requires Valid()
      requires buf != null && len <= MAX_RX_PKTSIZE && RxFilled(rxDescs[Next(rdt)]) ==>
                 rxDescs[Next(rdt)].length <= buf.Length
      modifies this, rxDescs, buf
      ensures Valid()
      ensures (o, RxState()) == RxRecv(old(RxState()), buf == null, len)
      ensures buf != null && o.Returned? && o.value >= 0 ==>
                var t := Next(old(rdt));
                && forall j | 0 <= j < o.value :: buf[j] == rxBuf[t, j]
      ensures buf != null ==> forall j | 0 <= j < buf.Length && (o.Panicked? || j >= o.value) ::
                buf[j] == old(buf[j])
      ensures rxDescs == old(rxDescs) && rxBuf == old(rxBuf) && txDescs == old(txDescs) && txBuf == old(txBuf)
      ensures TxState() == old(TxState())
      ensures tdbal == old(tdbal) && tdlen == old(tdlen) && rdbal == old(rdbal) && rdlen == old(rdlen)
      ensures ral == old(ral) && rah == old(rah) && mta == old(mta) && mac == old(mac)
    {
      if buf == null || len > MAX_RX_PKTSIZE {
        return Panicked;
      }
      var tail := rdt;
      tail := (tail + 1) % N_RXDESC;
      if rxDescs[tail].status & RX_STATUS_DD == 0 {
        return Returned(-E_AGAIN);
      }
      var n := rxDescs[tail].length;
      forall j | 0 <= j < n {
        buf[j] := rxBuf[tail, j];
      }
      rxDescs[tail] := RxRelease(rxDescs[tail]);
      assert rxDescs[..] == old(rxDescs[..])[tail := RxRelease(old(rxDescs[tail]))];
      rdt := tail;
      o := Returned(n as int);
    }

    /**
     * The card stores an incoming frame of at most MAX_RX_PKTSIZE bytes in
     * the buffer of the descriptor at RDH; with RDH == RDT it has no
     * descriptor and drops the frame.
     */
    method NicReceive(frame: seq<byte>) returns (stored: bool)
      requires Valid() && |frame| <= MAX_RX_PKTSIZE
      modifies this, rxDescs, rxBuf
      ensures Valid()
      ensures (stored, RxState()) == RxArrive(old(RxState()), |frame|)
      ensures stored ==> forall j | 0 <= j < |frame| :: rxBuf[old(rdh), j] == frame[j]
      ensures forall i, j | 0 <= i < N_RXDESC && 0 <= j < MAX_RX_PKTSIZE && (!stored || i != old(rdh)) ::
                rxBuf[i, j] == old(rxBuf[i, j])
      ensures rxDescs == old(rxDescs) && rxBuf == old(rxBuf) && txDescs == old(txDescs) && txBuf == old(txBuf)
      ensures TxState() == old(TxState())
      ensures tdbal == old(tdbal) && tdlen == old(tdlen) && rdbal == old(rdbal) && rdlen == old(rdlen)
      ensures ral == old(ral) && rah == old(rah) && mta == old(mta) && mac == old(mac)
    {
      if rdh == rdt {
        return false;
      }
      var h := rdh;
      forall j | 0 <= j < |frame| {
        rxBuf[h, j] := frame[j];
      }
      var d := rxDescs[h];
      rxDescs[h] := d.(length := |frame|, status := d.status | RX_STATUS_DD | RX_STATUS_EOP);
      assert rxDescs[..] == old(rxDescs[..])[h := d.(length := |frame|, status := d.status | RX_STATUS_DD | RX_STATUS_EOP)];
      rdh := Next(h);
      stored := true;
    }
  }
}
