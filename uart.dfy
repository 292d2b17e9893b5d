/**
 * Model of src/uart.rs: the interrupt-driven USART2 driver.
 *
 * The driver owns two 1024-slot byte buffers, `USART_RX` and `USART_TX`. The
 * USART2 registers it touches are plain fields: the RXNE and TC status bits,
 * the TCIE enable bit, the value RDR reads as, and a log of every byte written
 * to TDR. The foreground calls `logger` and `rx_buffer_read`; the hardware
 * calls the `USART2` handler. Each call is one atomic step.
 */
module Uart {
  import opened Words
  import opened CircularBuffer

  const BUFF_SIZE: nat := 1024

  datatype UartState = UartState(
    rx: Ring<u8>,      // USART_RX
    tx: Ring<u8>,      // USART_TX
    rxne: bool,        // ISR.RXNE: a received byte waits in RDR
    tc: bool,          // ISR.TC: the last transmission completed
    tcie: bool,        // CR1.TCIE: the transmission-complete interrupt is armed
    rdr: u32,          // the value RDR reads as
    tdr: seq<u8>)      // every value written to TDR, oldest first
  {
    predicate Valid() {
      rx.Valid() && tx.Valid() && |rx.buf| == BUFF_SIZE && |tx.buf| == BUFF_SIZE
    }
  }

  /** `logger(buff)`: queue all of `buff` for transmission and arm the transmission-complete interrupt. */
  function LoggerStep(s: UartState, buff: seq<u8>): (t: UartState)
    requires s.Valid()
    ensures t.Valid() && t.tcie
    ensures t.tx == PutAll(s.tx, buff)
    ensures t.rx == s.rx && t.tdr == s.tdr
    ensures t.rxne == s.rxne && t.tc == s.tc && t.rdr == s.rdr
  {
    s.(tx := PutAll(s.tx, buff), tcie := true)
  }

  /** `rx_buffer_read`: pop one received byte, if any, and discard it. */
  function RxBufferReadStep(s: UartState): (t: UartState)
    requires s.Valid()
    ensures t.Valid()
    ensures Contents(t.rx) == if Contents(s.rx) == [] then [] else Contents(s.rx)[1..]
    ensures t == s.(rx := t.rx)
  {
    GetContents(s.rx);
    s.(rx := Get(s.rx).1)
  }

  /**
   * The `USART2` handler. A waiting received byte (RXNE) is read from RDR,
   * which clears RXNE, truncated to 8 bits and pushed into RX. On TC the flag
   * is acknowledged, then one byte is popped from TX and written to TDR, or,
   * when TX is empty, the transmission-complete interrupt is disarmed.
   */
  function Usart2Step(s: UartState): (t: UartState)
    requires s.Valid()
    ensures t.Valid() && t.rdr == s.rdr
    ensures s.rxne ==> t.rx == Put(s.rx, (s.rdr % 0x100) as u8) && !t.rxne
    ensures !s.rxne ==> t.rx == s.rx && t.rxne == s.rxne
    ensures s.tc ==> !t.tc
    ensures s.tc && Contents(s.tx) != [] ==>
              t.tdr == s.tdr + [Contents(s.tx)[0]] && Contents(t.tx) == Contents(s.tx)[1..] &&
              t.tcie == s.tcie
    ensures s.tc && Contents(s.tx) == [] ==> t.tdr == s.tdr && t.tx == s.tx && !t.tcie
    ensures !s.tc ==> t.tx == s.tx && t.tdr == s.tdr && t.tcie == s.tcie && t.tc == s.tc
    ensures !s.rxne && !s.tc ==> t == s
  {
    var s1 := if s.rxne then s.(rx := Put(s.rx, (s.rdr % 0x100) as u8), rxne := false) else s;
    if !s1.tc then s1
    else
      GetContents(s1.tx);
      var (data, tx') := Get(s1.tx);
      match data
      case Some(d) => s1.(tc := false, tx := tx', tdr := s1.tdr + [d])
      case None => s1.(tc := false, tcie := false)
  }

  // ---------------------------------------------------------------------------
  // Properties over several steps

  /** With room for it (fewer than N - 1 bytes in TX afterwards), `logger` appends `buff` to the queued bytes in order. */
  lemma LoggerAppends(s: UartState, buff: seq<u8>)
    requires s.Valid() && Count(s.tx) + |buff| < BUFF_SIZE
    ensures Contents(LoggerStep(s, buff).tx) == Contents(s.tx) + buff
    ensures LoggerStep(s, buff).rx == s.rx
  {
    PutAllAppends(s.tx, buff);
  }

  /** `k` transmission-complete interrupts, the hardware raising TC before each and no byte arriving. */
  function TcInterrupts(s: UartState, k: nat): (t: UartState)
    requires s.Valid()
    ensures t.Valid()
    decreases k
  {
    if k == 0 then s else TcInterrupts(Usart2Step(s.(tc := true, rxne := false)), k - 1)
  }

  /** `k` transmission-complete interrupts write the `k` oldest queued bytes to TDR, in order, and keep TCIE. */
  lemma {:induction false} TcInterruptsWrite(s: UartState, k: nat)
    requires s.Valid() && k <= Count(s.tx)
    ensures TcInterrupts(s, k).tdr == s.tdr + Contents(s.tx)[..k]
    ensures Contents(TcInterrupts(s, k).tx) == Contents(s.tx)[k..]
    ensures TcInterrupts(s, k).tcie == s.tcie
    ensures TcInterrupts(s, k).rx == s.rx
    decreases k
  {
    if k > 0 {
      var c := Contents(s.tx);
      var s1 := Usart2Step(s.(tc := true, rxne := false));
      TcOne(s);
      TcInterruptsWrite(s1, k - 1);
      TakeDropTail(s.tdr, c, k);
    }
  }

  /** One transmission-complete interrupt on a non-empty TX moves its oldest byte to TDR. */
  lemma TcOne(s: UartState)
    requires s.Valid() && Contents(s.tx) != []
    ensures Usart2Step(s.(tc := true, rxne := false)).tdr == s.tdr + [Contents(s.tx)[0]]
    ensures Contents(Usart2Step(s.(tc := true, rxne := false)).tx) == Contents(s.tx)[1..]
    ensures Usart2Step(s.(tc := true, rxne := false)).tcie == s.tcie
    ensures Usart2Step(s.(tc := true, rxne := false)).rx == s.rx
  {
  }

  lemma TakeDropTail<T>(w: seq<T>, c: seq<T>, k: nat)
    requires 1 <= k <= |c|
    ensures (w + [c[0]]) + c[1..][..k - 1] == w + c[..k]
    ensures c[1..][k - 1..] == c[k..]
  {
    assert [c[0]] + c[1..k] == c[..k];
    assert c[1..][..k - 1] == c[1..k];
  }

  /**
   * Once `buff` is exactly what TX holds, |buff| interrupts write it to TDR
   * in order with TCIE still armed; the next one finds TX empty, writes
   * nothing and disarms TCIE.
   */
  lemma DrainQueued(s: UartState, buff: seq<u8>)
    requires s.Valid() && Contents(s.tx) == buff
    ensures TcInterrupts(s, |buff|).tdr == s.tdr + buff
    ensures TcInterrupts(s, |buff|).tcie == s.tcie
    ensures TcInterrupts(s, |buff| + 1).tdr == s.tdr + buff
    ensures !TcInterrupts(s, |buff| + 1).tcie
  {
    TcInterruptsWrite(s, |buff|);
    assert buff[..|buff|] == buff;
    EmptyTxDisarms(s, |buff|);
  }

  /** Transmit drain: the same, starting from `logger(buff)` on an empty TX. */
  lemma TransmitDrain(s: UartState, buff: seq<u8>)
    requires s.Valid() && Contents(s.tx) == [] && |buff| < BUFF_SIZE
    ensures TcInterrupts(LoggerStep(s, buff), |buff|).tdr == s.tdr + buff
    ensures TcInterrupts(LoggerStep(s, buff), |buff|).tcie
    ensures TcInterrupts(LoggerStep(s, buff), |buff| + 1).tdr == s.tdr + buff
    ensures !TcInterrupts(LoggerStep(s, buff), |buff| + 1).tcie
  {
    LoggerAppends(s, buff);
    assert [] + buff == buff;
    DrainQueued(LoggerStep(s, buff), buff);
  }

  lemma {:induction false} TcInterruptsSplit(s: UartState, k: nat)
    requires s.Valid()
    ensures TcInterrupts(s, k + 1) == Usart2Step(TcInterrupts(s, k).(tc := true, rxne := false))
    decreases k
  {
    if k > 0 {
      TcInterruptsSplit(Usart2Step(s.(tc := true, rxne := false)), k - 1);
    }
  }

  /** An interrupt that finds TX empty writes nothing and disarms TCIE. */
  lemma {:induction false} EmptyTxDisarms(s: UartState, k: nat)
    requires s.Valid() && Contents(TcInterrupts(s, k).tx) == []
    ensures TcInterrupts(s, k + 1).tdr == TcInterrupts(s, k).tdr
    ensures !TcInterrupts(s, k + 1).tcie
  {
    TcInterruptsSplit(s, k);
  }

  /** The three-byte scenario: `logger([a, b, c])`, then four transmission-complete interrupts. */
  lemma TransmitDrainThree(s: UartState, a: u8, b: u8, c: u8)
    requires s.Valid() && Contents(s.tx) == []
    ensures TcInterrupts(LoggerStep(s, [a, b, c]), 3).tdr == s.tdr + [a, b, c]
    ensures !TcInterrupts(LoggerStep(s, [a, b, c]), 4).tcie
    ensures TcInterrupts(LoggerStep(s, [a, b, c]), 4).tdr == s.tdr + [a, b, c]
  {
    TransmitDrain(s, [a, b, c]);
  }

  // ---------------------------------------------------------------------------
  // The driver as the firmware has it: two static buffers and the USART2 registers

  class Usart2 {
    const rxBuf: CircularBuff<u8>   // USART_RX
    const txBuf: CircularBuff<u8>   // USART_TX
    var rxne: bool
    var tc: bool
    var tcie: bool
    var rdr: u32
    ghost var tdr: seq<u8>

    ghost function State(): UartState
      reads this, rxBuf, rxBuf.buf, txBuf, txBuf.buf
    {
      UartState(rxBuf.State(), txBuf.State(), rxne, tc, tcie, rdr, tdr)
    }

    ghost predicate Valid()
      reads this, rxBuf, rxBuf.buf, txBuf, txBuf.buf
    {
      rxBuf != txBuf && rxBuf.buf != txBuf.buf && State().Valid()
    }

    /** Both buffers empty; the registers at their reset values. */
    constructor ()
      ensures Valid() && fresh(rxBuf) && fresh(rxBuf.buf) && fresh(txBuf) && fresh(txBuf.buf)
      ensures Contents(State().rx) == [] && Contents(State().tx) == []
      ensures !rxne && !tc && !tcie && rdr == 0 && tdr == []
    {
      rxBuf := new CircularBuff<u8>(BUFF_SIZE);
      txBuf := new CircularBuff<u8>(BUFF_SIZE);
      rxne, tc, tcie, rdr := false, false, false, 0;
      tdr := [];
    }

    method Logger(buff: seq<u8>)
      requires Valid()
      modifies txBuf, txBuf.buf, this`tcie
      ensures Valid() && State() == LoggerStep(old(State()), buff)
    {
      txBuf.PutAllData(buff);
      tcie := true;
    }

    method RxBufferRead()
      requires Valid()
      modifies rxBuf
      ensures Valid() && State() == RxBufferReadStep(old(State()))
    {
      var _ := rxBuf.GetAllData();
    }

    method Usart2()
      requires Valid()
      modifies this`rxne, this`tc, this`tcie, this`tdr, rxBuf, rxBuf.buf, txBuf
      ensures Valid() && State() == Usart2Step(old(State()))
    {
      if rxne {
        var data := (rdr % 0x100) as u8;
        rxne := false;
        rxBuf.PutData(data);
      }
      if tc {
        tc := false;
        var data := txBuf.GetData();
        if data.Some? {
          tdr := tdr + [data.value];
        } else {
          tcie := false;
        }
      }
    }
  }
}
