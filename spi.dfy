/**
 * Model of src/spi.rs: the interrupt-driven SPI1 driver.
 *
 * spi.rs carries its own copy of the ring buffer over u16 words, with two
 * differences from the generic one: `put_data` first drives the chip-select
 * pin (GPIOB pin 0) low, and `get_data` returns `(word, found)`, with word 0
 * when nothing was found. Here the storage and index logic are the generic
 * `Ring`/`CircularBuff` over u16, and the two differences live in the driver:
 * its buffer operations take the buffer, `TX_CBUF` or `RX_CBUF`, to act on.
 * The SPI1 registers are plain fields: RXNE, the value DR reads as, and a log
 * of every word written to DR.
 */
module Spi {
  import opened Words
  import opened CircularBuffer

  const BUFF_SIZE: nat := 1024

  /** Which of the driver's two static buffers an operation acts on. */
  datatype Which = TxCbuf | RxCbuf

  datatype SpiState = SpiState(
    tx: Ring<u16>,        // TX_CBUF
    rx: Ring<u16>,        // RX_CBUF
    csLow: bool,          // chip-select (GPIOB ODR0) driven low
    rxne: bool,           // SR.RXNE: a received word waits in DR
    dr: u32,              // the value DR reads as
    written: seq<u16>)    // every value written to DR, oldest first
  {
    predicate Valid() {
      tx.Valid() && rx.Valid() && |tx.buf| == BUFF_SIZE && |rx.buf| == BUFF_SIZE
    }

    function Cbuf(b: Which): Ring<u16> {
      if b == TxCbuf then tx else rx
    }

    function WithCbuf(b: Which, r: Ring<u16>): SpiState {
      if b == TxCbuf then this.(tx := r) else this.(rx := r)
    }
  }

  /** spi.rs `put_data`: drive chip-select low, then push the word. */
  function PutDataStep(s: SpiState, b: Which, word: u16): (t: SpiState)
    requires s.Valid()
    ensures t.Valid() && t.csLow
    ensures t.Cbuf(b) == Put(s.Cbuf(b), word)
    ensures t == s.WithCbuf(b, t.Cbuf(b)).(csLow := true)
  {
    s.WithCbuf(b, Put(s.Cbuf(b), word)).(csLow := true)
  }

  /** spi.rs `put_all_data`: `put_data` on each word; chip-select is touched only if there is a word. */
  function PutAllDataStep(s: SpiState, b: Which, data: seq<u16>): (t: SpiState)
    requires s.Valid()
    ensures t.Valid()
    ensures t.Cbuf(b) == PutAll(s.Cbuf(b), data)
    ensures t.csLow == (s.csLow || data != [])
    ensures t == s.WithCbuf(b, t.Cbuf(b)).(csLow := t.csLow)
    decreases |data|
  {
    if data == [] then s
    else PutDataStep(PutAllDataStep(s, b, data[..|data| - 1]), b, data[|data| - 1])
  }

  /** spi.rs `get_data`: `(0, false)` and no change on an empty buffer, else the oldest word and `true`. */
  function GetDataStep(s: SpiState, b: Which): (res: (u16, bool, SpiState))
    requires s.Valid()
    ensures res.2.Valid()
    ensures res.1 <==> s.Cbuf(b).wi != s.Cbuf(b).ri
    ensures !res.1 ==> res == (0, false, s) && Contents(s.Cbuf(b)) == []
    ensures res.1 ==> res.0 == s.Cbuf(b).buf[s.Cbuf(b).ri] && res.0 == Contents(s.Cbuf(b))[0] &&
                      Contents(res.2.Cbuf(b)) == Contents(s.Cbuf(b))[1..]
    ensures res.2 == s.WithCbuf(b, Get(s.Cbuf(b)).1)
  {
    GetContents(s.Cbuf(b));
    var (o, r) := Get(s.Cbuf(b));
    match o
    case Some(word) => (word, true, s.WithCbuf(b, r))
    case None => (0, false, s)
  }

  /**
   * `put_to_serial(buff)`: push all of `buff` into TX, then pop exactly once
   * and write what was popped (0 when nothing was) to DR.
   */
  function PutToSerialStep(s: SpiState, buff: seq<u16>): (t: SpiState)
    requires s.Valid()
    ensures t.Valid() && t.rx == s.rx && t.rxne == s.rxne && t.dr == s.dr
    ensures t.csLow == (s.csLow || buff != [])
    ensures |t.written| == |s.written| + 1 && t.written[..|s.written|] == s.written
    ensures var queued := Contents(PutAll(s.tx, buff));
            (queued == [] ==> t.written[|s.written|] == 0 && t.tx == PutAll(s.tx, buff)) &&
            (queued != [] ==> t.written[|s.written|] == queued[0] && Contents(t.tx) == queued[1..])
  {
    var s1 := PutAllDataStep(s, TxCbuf, buff);
    var (data, _, s2) := GetDataStep(s1, TxCbuf);
    s2.(written := s2.written + [data])
  }

  /** The `SPI1` handler: on RXNE, read DR (clearing RXNE), truncate to 16 bits and push into RX. */
  function Spi1Step(s: SpiState): (t: SpiState)
    requires s.Valid()
    ensures t.Valid()
    ensures s.rxne ==> t == s.(rx := Put(s.rx, (s.dr % 0x1_0000) as u16), csLow := true, rxne := false)
    ensures !s.rxne ==> t == s
  {
    if s.rxne then PutDataStep(s.(rxne := false), RxCbuf, (s.dr % 0x1_0000) as u16) else s
  }

  /** spi.rs `rx_buffer_read`: pop one received word, if any, and discard it. */
  function RxBufferReadStep(s: SpiState): (t: SpiState)
    requires s.Valid()
    ensures t.Valid() && t == s.(rx := t.rx)
    ensures Contents(t.rx) == if Contents(s.rx) == [] then [] else Contents(s.rx)[1..]
  {
    GetDataStep(s, RxCbuf).2
  }

  /** One round of `get_all_data`'s loop on RX_CBUF: a word was found; pass it to `put_to_serial`. */
  function RxForwardOne(s: SpiState): (t: SpiState)
    requires s.Valid() && Contents(s.rx) != []
    ensures t.Valid() && Contents(t.rx) == Contents(s.rx)[1..]
    ensures t.rxne == s.rxne && t.dr == s.dr && t.csLow
    ensures |t.written| == |s.written| + 1 && t.written[..|s.written|] == s.written
    ensures Contents(s.tx) == [] ==> t.written == s.written + [Contents(s.rx)[0]] && Contents(t.tx) == []
  {
    var (data, _, s1) := GetDataStep(s, RxCbuf);
    PutToSerialOne(s1, data);
    PutToSerialStep(s1, [data])
  }

  /**
   * spi.rs `get_all_data` on RX_CBUF: pop words until `get_data` finds none
   * (which is exactly when `wi == ri`, and then nothing changes), passing each
   * to `put_to_serial` on its own. It runs (wi - ri) mod N rounds, one DR
   * write each, and leaves RX empty; when TX starts empty, what goes out on
   * DR is every received word in arrival order, and TX ends empty again.
   */
  function RxGetAllDataStep(s: SpiState): (t: SpiState)
    requires s.Valid()
    ensures t.Valid() && Contents(t.rx) == [] && t.rxne == s.rxne && t.dr == s.dr
    ensures t.csLow == (s.csLow || Count(s.rx) > 0)
    ensures |t.written| == |s.written| + Count(s.rx) && t.written[..|s.written|] == s.written
    ensures Contents(s.tx) == [] ==> t.written == s.written + Contents(s.rx) && Contents(t.tx) == []
    decreases Count(s.rx)
  {
    if s.rx.wi == s.rx.ri then s
    else
      var s2 := RxForwardOne(s);
      var t := RxGetAllDataStep(s2);
      PrefixOfPrefix(t.written, |s.written|, |s2.written|);
      ConsTail(s.written, Contents(s.rx));
      t
  }

  lemma PrefixOfPrefix(w: seq<u16>, m: nat, n: nat)
    requires m <= n <= |w|
    ensures w[..n][..m] == w[..m]
  {
  }

  lemma ConsTail(w: seq<u16>, c: seq<u16>)
    requires c != []
    ensures (w + [c[0]]) + c[1..] == w + c
  {
    assert [c[0]] + c[1..] == c;
  }

  // ---------------------------------------------------------------------------
  // Properties over several steps

  /** With TX empty, `put_to_serial([w])` writes `w` to DR and leaves TX empty. */
  lemma PutToSerialOne(s: SpiState, w: u16)
    requires s.Valid()
    ensures Contents(s.tx) == [] ==>
              PutToSerialStep(s, [w]).written == s.written + [w] &&
              Contents(PutToSerialStep(s, [w]).tx) == []
  {
    if Contents(s.tx) == [] {
      PutToSerialFifo(s, [w]);
      assert [] + [w] == [w];
    }
  }

  /**
   * With room in TX, `put_to_serial(buff)` writes the oldest of (queued words
   * followed by `buff`) and leaves the rest queued; with TX empty and `buff`
   * empty it writes 0.
   */
  lemma PutToSerialFifo(s: SpiState, buff: seq<u16>)
    requires s.Valid() && Count(s.tx) + |buff| < BUFF_SIZE
    ensures var t := PutToSerialStep(s, buff);
            var q := Contents(s.tx) + buff;
            (q == [] ==> t.written == s.written + [0]) &&
            (q != [] ==> t.written == s.written + [q[0]] && Contents(t.tx) == q[1..])
  {
    PutAllAppends(s.tx, buff);
    var t := PutToSerialStep(s, buff);
    assert t.written == t.written[..|s.written|] + [t.written[|s.written|]];
  }

  /** Moving the head of `r` to the end of `q` leaves the concatenation `q + r` as it was. */
  lemma ShiftHead(q: seq<u16>, r: seq<u16>)
    requires r != []
    ensures (q + [r[0]])[0] == (q + r)[0]
    ensures (q + [r[0]])[1..] + r[1..] == (q + r)[1..]
  {
    if q == [] {
      assert [r[0]] + r[1..] == r;
    } else {
      assert (q + [r[0]])[1..] == q[1..] + [r[0]];
      assert (q + r)[1..] == q[1..] + r;
      assert [r[0]] + r[1..] == r;
    }
  }

  /** Appending one word and then `r` is appending `[x] + r`. */
  lemma SnocAppend(w: seq<u16>, x: u16, r: seq<u16>)
    ensures (w + [x]) + r == w + ([x] + r)
  {
  }

  /** Splitting off the head of `w`: the first `k` words are the head and the next `k - 1`. */
  lemma HeadTake(w: seq<u16>, k: nat)
    requires 0 < k <= |w|
    ensures [w[0]] + w[1..][..k - 1] == w[..k]
    ensures w[1..][k - 1..] == w[k..]
  {
  }

  /**
   * One round of `get_all_data` with room in TX: DR gets the oldest of the TX
   * words followed by the RX words, the rest stay queued in that order, and
   * TX keeps its count.
   */
  lemma {:induction false} RxForwardFifo(s: SpiState)
    requires s.Valid() && Contents(s.rx) != [] && Count(s.tx) < BUFF_SIZE - 1
    ensures var t := RxForwardOne(s);
            var q := Contents(s.tx) + Contents(s.rx);
            t.written == s.written + [q[0]] &&
            Contents(t.tx) + Contents(t.rx) == q[1..] && Count(t.tx) == Count(s.tx)
  {
    var (data, _, s1) := GetDataStep(s, RxCbuf);
    assert s1.tx == s.tx;
    PutToSerialFifo(s1, [data]);
    ShiftHead(Contents(s.tx), Contents(s.rx));
  }

  /**
   * `get_all_data` on RX_CBUF with room in TX: the words written to DR are
   * the first `Count(rx)` of (the queued TX words followed by the RX words),
   * in order, and the rest of that sequence is what TX holds afterwards.
   */
  lemma {:induction false} RxGetAllDataFifo(s: SpiState)
    requires s.Valid() && Count(s.tx) < BUFF_SIZE - 1
    ensures var t := RxGetAllDataStep(s);
            var q := Contents(s.tx) + Contents(s.rx);
            t.written == s.written + q[..Count(s.rx)] && Contents(t.tx) == q[Count(s.rx)..]
    decreases Count(s.rx)
  {
    var q := Contents(s.tx) + Contents(s.rx);
    if s.rx.wi == s.rx.ri {
      assert Contents(s.rx) == [];
      assert q == Contents(s.tx);
    } else {
      var s2 := RxForwardOne(s);
      var k := Count(s.rx);
      RxForwardFifo(s);
      assert Count(s2.rx) == k - 1;
      var q2 := Contents(s2.tx) + Contents(s2.rx);
      assert q2 == q[1..];
      RxGetAllDataFifo(s2);
      var t := RxGetAllDataStep(s);
      assert t == RxGetAllDataStep(s2);
      assert t.written == s2.written + q2[..k - 1];
      HeadTake(q, k);
      SnocAppend(s.written, q[0], q2[..k - 1]);
    }
  }

  // ---------------------------------------------------------------------------
  // The driver as the firmware has it: two static buffers, chip-select and SPI1

  class Spi {
    const txCbuf: CircularBuff<u16>   // TX_CBUF
    const rxCbuf: CircularBuff<u16>   // RX_CBUF
    var csLow: bool
    var rxne: bool
    var dr: u32
    ghost var written: seq<u16>

    function Cbuf(b: Which): CircularBuff<u16> {
      if b == TxCbuf then txCbuf else rxCbuf
    }

    ghost function State(): SpiState
      reads this, txCbuf, txCbuf.buf, rxCbuf, rxCbuf.buf
    {
      SpiState(txCbuf.State(), rxCbuf.State(), csLow, rxne, dr, written)
    }

    ghost predicate Valid()
      reads this, txCbuf, txCbuf.buf, rxCbuf, rxCbuf.buf
    {
      txCbuf != rxCbuf && txCbuf.buf != rxCbuf.buf && State().Valid()
    }

    /** Both buffers empty; chip-select high, as `init` leaves it. */
    constructor ()
      ensures Valid() && fresh(txCbuf) && fresh(txCbuf.buf) && fresh(rxCbuf) && fresh(rxCbuf.buf)
      ensures Contents(State().tx) == [] && Contents(State().rx) == []
      ensures !csLow && !rxne && dr == 0 && written == []
    {
      txCbuf := new CircularBuff<u16>(BUFF_SIZE);
      rxCbuf := new CircularBuff<u16>(BUFF_SIZE);
      csLow, rxne, dr := false, false, 0;
      written := [];
    }

    method PutData(b: Which, word: u16)
      requires Valid()
      modifies this`csLow, Cbuf(b), Cbuf(b).buf
      ensures Valid() && State() == PutDataStep(old(State()), b, word)
    {
      csLow := true;
      Cbuf(b).PutData(word);
    }

    method PutAllData(b: Which, data: seq<u16>)
      requires Valid()
      modifies this`csLow, Cbuf(b), Cbuf(b).buf
      ensures Valid() && State() == PutAllDataStep(old(State()), b, data)
    {
      for i := 0 to |data|
        invariant Valid() && State() == PutAllDataStep(old(State()), b, data[..i])
      {
        assert data[..i + 1][..i] == data[..i];
        PutData(b, data[i]);
      }
      assert data[..|data|] == data;
    }

    method GetData(b: Which) returns (data: u16, found: bool)
      requires Valid()
      modifies Cbuf(b)
      ensures Valid() && (data, found, State()) == GetDataStep(old(State()), b)
    {
      data, found := 0, false;
      var popped := Cbuf(b).GetData();
      if popped.Some? {
        data, found := popped.value, true;
      }
    }

    method PutToSerial(buff: seq<u16>)
      requires Valid()
      modifies this`csLow, this`written, txCbuf, txCbuf.buf
      ensures Valid() && State() == PutToSerialStep(old(State()), buff)
    {
      PutAllData(TxCbuf, buff);
      var data, _ := GetData(TxCbuf);
      written := written + [data];
    }

    /** `get_all_data` called on RX_CBUF. */
    method RxGetAllData()
      requires Valid()
      modifies this`csLow, this`written, txCbuf, txCbuf.buf, rxCbuf
      ensures Valid() && State() == RxGetAllDataStep(old(State()))
    {
      while true
        invariant Valid() && RxGetAllDataStep(State()) == RxGetAllDataStep(old(State()))
        decreases Count(rxCbuf.State())
      {
        ghost var before := State();
        var data, found := GetData(RxCbuf);
        if !found {
          break;
        }
        PutToSerial([data]);
        assert State() == RxForwardOne(before);
      }
    }

    method Spi1()
      requires Valid()
      modifies this`rxne, this`csLow, rxCbuf, rxCbuf.buf
      ensures Valid() && State() == Spi1Step(old(State()))
    {
      if rxne {
        var data := (dr % 0x1_0000) as u16;
        rxne := false;
        PutData(RxCbuf, data);
      }
    }

    method RxBufferRead()
      requires Valid()
      modifies rxCbuf
      ensures Valid() && State() == RxBufferReadStep(old(State()))
    {
      var _, _ := GetData(RxCbuf);
    }
  }
}
