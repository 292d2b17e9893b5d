# LIS3DH Nucleo firmware: ring buffer, UART and SPI drivers, debounce and blink

This project models, in Dafny, the core of a bare-metal Rust firmware for an
STM32G071 Nucleo board:

- `circular_buffer.dfy`, module `CircularBuffer`: the generic ring buffer
  `CircularBuff<T, N>` from `src/circular_buffer.rs`.
  - `Ring<T>` is the value of one buffer, and `Put`, `Get` and `PutAll` are its
    operations.
  - The class `CircularBuff` is the object the firmware mutates in place. Its
    storage is an `array`, and its methods are proved to act as those functions.
- `uart.dfy`, module `Uart`: the interrupt-driven USART2 driver of `src/uart.rs`.
  It covers `logger`, `rx_buffer_read` and the `USART2` handler, each written as
  a step function over `UartState`. The class `Usart2` holds the two 1024-slot
  buffers and the registers the driver touches.
- `spi.dfy`, module `Spi`: the SPI1 driver of `src/spi.rs`. It covers that file's
  own copy of the ring buffer over `u16`, which drives chip-select low on every
  push and returns `(word, found)` from `get_data`. It also covers
  `put_to_serial`, `rx_buffer_read`, `get_all_data` on `RX_CBUF`, and the `SPI1`
  handler.
- `firmware.dfy`, module `Firmware`: `src/main.rs`. It covers:
  - the three-state button debounce that the 1 ms TIM3 interrupt runs, with its
    20-tick window;
  - `change_blinking_ratio`;
  - one pass of the foreground loop, which flips the LED every `G_BLINK_RATE + 1`
    passes.
- `words.dfy`, module `Words`: Rust's `u8`, `u16` and `u32` as newtypes.

Hardware registers are plain state:

- Reading RDR or DR clears RXNE.
- Writing TCCF clears TC.
- Every value written to TDR or DR is appended to a log (`tdr`, `written`).
  What the proofs say about transmission is stated through that log.
- The button pin (GPIOC IDR13) is a boolean parameter of each TIM3 tick. It
  reads clear while the button is pressed.
- Narrowing casts are written out: `rdr as u8` is `% 0x100`, and `dr as u16` is
  `% 0x1_0000`.

Two behaviours of the code shape the buffer and debounce properties:

- **Capacity.** `wi == ri` means empty, and no slot is kept free, so a buffer
  holds at most N - 1 items. The push that would make N of them brings `wi`
  onto `ri`, and the buffer then reads as empty: the N-th push loses
  everything. What is proved:
  - `PutContents` and `PutAllContents`: the items kept are the last
    ((count + pushes) mod N).
  - `WrapAroundEmpties`: exactly N pushes into an empty buffer leave it empty.
- **Bounce.** At the end of the window `Debouncing` always moves to `Pressed`,
  and the rate toggles only if the pin still reads pressed. A bounce therefore
  goes through `Pressed` without a toggle and returns to `Unpressed` a tick
  later (`ShortBounce`). It does not go straight back to `Unpressed`.

## Model

| member | source | states |
|---|---|---|
| CircularBuffer.Advance | src/circular_buffer.rs:11-15 | the index after `i` stays below N and is `i + 1` reduced modulo N (`Wrap`, which `WrapIsMod` proves equal to `%`) |
| CircularBuffer.WrapIsMod | src/circular_buffer.rs:11-15 | wrap-by-compare index arithmetic agrees with `(c) mod n` for every c |
| CircularBuffer.Count | src/circular_buffer.rs:24-36 | the number of unread items is below N, and is 0 exactly when `wi == ri` |
| CircularBuffer.CountIsDistance | src/circular_buffer.rs:24-36 | the number of unread items is `(wi - ri) mod N` |
| CircularBuffer.SlotIsOffset | src/circular_buffer.rs:24-36 | the k-th unread item sits at slot `(ri + k) mod N` |
| CircularBuffer.Contents | src/circular_buffer.rs:24-36 | the unread items, oldest first: as many as `Count`, the k-th being the slot `Slot(k)` |
| CircularBuffer.Put | src/circular_buffer.rs:8-16 | `put_data` overwrites slot `wi` only, advances `wi` modulo N, and never touches `ri` or refuses an item |
| CircularBuffer.Get | src/circular_buffer.rs:24-36 | `get_data` on `wi == ri` returns None and changes nothing; otherwise it returns the item at `ri` and advances `ri` modulo N, with the slots and `wi` untouched |
| CircularBuffer.PutAll | src/circular_buffer.rs:18-22 | `put_all_data` keeps `ri` and the slot count |
| CircularBuffer.Pops | src/circular_buffer.rs:38-42 | k `get_data` (or `get_all_data`) calls return k results and leave the slots and `wi` alone |
| CircularBuffer.PutContents | src/circular_buffer.rs:8-16 | a push appends the item while fewer than N - 1 are held; otherwise the buffer becomes empty |
| CircularBuffer.PutCount | src/circular_buffer.rs:8-16 | a push adds one item, or drops the count to 0 when N - 1 were held |
| CircularBuffer.GetContents | src/circular_buffer.rs:24-36 | a pop returns None exactly when nothing is held, and then changes nothing; otherwise it returns the oldest item and removes exactly that item |
| CircularBuffer.PutAllWi | src/circular_buffer.rs:18-22 | `put_all_data(s)` advances `wi` by \|s\| modulo N |
| CircularBuffer.PutAllCount | src/circular_buffer.rs:18-22 | `put_all_data(s)` adds \|s\| items modulo N |
| CircularBuffer.PutAllSuffix | src/circular_buffer.rs:18-22 | after `put_all_data(s)` the items held are the newest of (old items followed by `s`) |
| CircularBuffer.PutAllContents | src/circular_buffer.rs:18-22 | after `put_all_data(s)` the items held are the last ((count + \|s\|) mod N) of (old items followed by `s`) |
| CircularBuffer.PutAllAppends | src/circular_buffer.rs:18-22 | with room for it, `put_all_data(s)` appends `s` in order |
| CircularBuffer.PopsContents | src/circular_buffer.rs:24-42 | k pops on a buffer holding at least k items return the k oldest in order, and leave the rest |
| CircularBuffer.PopsReturn | src/circular_buffer.rs:24-42 | what k pops return: the k oldest items, each wrapped in Some |
| CircularBuffer.PopsLeave | src/circular_buffer.rs:24-42 | what k pops leave: all but the k oldest items |
| CircularBuffer.FifoFromEmpty | src/circular_buffer.rs:8-36 | FIFO: fewer than N pushes into an empty buffer, then as many pops, return the pushed items in order, and the next pop returns None |
| CircularBuffer.WrapAroundEmpties | src/circular_buffer.rs:8-22 | exactly N pushes into an empty buffer bring `wi` back onto `ri`, and the buffer reads as empty |
| CircularBuffer.EmptyPopsIdempotent | src/circular_buffer.rs:24-36 | any number of pops on an empty buffer return only None and leave it unchanged |
| CircularBuffer.CircularBuff.constructor | src/uart.rs:6-16 | a fresh buffer has N slots, both indices at 0, and no items |
| CircularBuffer.CircularBuff.PutData | src/circular_buffer.rs:8-16 | the in-place `put_data` leaves the buffer equal to `Put` of its old value |
| CircularBuffer.CircularBuff.PutAllData | src/circular_buffer.rs:18-22 | the `put_all_data` loop leaves the buffer equal to `PutAll` of its old value |
| CircularBuffer.CircularBuff.GetData | src/circular_buffer.rs:24-36 | the in-place `get_data` returns and leaves what `Get` does |
| CircularBuffer.CircularBuff.GetAllData | src/circular_buffer.rs:38-42 | `get_all_data` is exactly one `get_data` |
| Uart.LoggerStep | src/uart.rs:73-79 | `logger` pushes all of `buff` into TX and arms TCIE, and changes nothing else |
| Uart.LoggerAppends | src/uart.rs:73-79 | with room for them, `logger` appends `buff` after the bytes already queued |
| Uart.RxBufferReadStep | src/uart.rs:81-86 | `rx_buffer_read` discards the oldest received byte, if there is one, and changes nothing else |
| Uart.Usart2Step | src/uart.rs:88-113 | the handler on RXNE pushes RDR truncated to 8 bits into RX and clears RXNE; on TC it clears TC, then writes the oldest TX byte to TDR, or disarms TCIE when TX is empty; with neither flag it changes nothing |
| Uart.TcInterruptsWrite | src/uart.rs:101-112 | k transmission-complete interrupts write the k oldest queued bytes to TDR in order, and keep TCIE and RX |
| Uart.TcInterruptsSplit | src/uart.rs:101-112 | k + 1 transmission-complete interrupts are k followed by one more |
| Uart.EmptyTxDisarms | src/uart.rs:106-110 | an interrupt that finds TX empty writes nothing and disarms TCIE |
| Uart.DrainQueued | src/uart.rs:101-112 | once TX holds exactly `buff`, \|buff\| interrupts write `buff` out with TCIE still armed, and the next interrupt writes nothing and disarms TCIE |
| Uart.TransmitDrain | src/uart.rs:73-112 | `logger(buff)` on an empty TX, then \|buff\| + 1 interrupts, writes exactly `buff` to TDR in order and ends with TCIE disarmed |
| Uart.TransmitDrainThree | src/uart.rs:73-112 | `logger([a, b, c])` then four interrupts write a, b, c and disarm TCIE |
| Uart.Usart2.constructor | src/uart.rs:5-16 | both 1024-slot buffers start empty |
| Uart.Usart2.Logger | src/uart.rs:73-79 | the in-place `logger` acts as `LoggerStep` |
| Uart.Usart2.RxBufferRead | src/uart.rs:81-86 | the in-place `rx_buffer_read` acts as `RxBufferReadStep` |
| Uart.Usart2.Usart2 | src/uart.rs:88-113 | the in-place handler acts as `Usart2Step` |
| Spi.PutDataStep | src/spi.rs:11-24 | spi.rs `put_data` drives chip-select low and pushes the word into the chosen buffer, and nothing else changes |
| Spi.PutAllDataStep | src/spi.rs:26-30 | spi.rs `put_all_data` is `PutAll` on the chosen buffer; chip-select goes low only if there is a word |
| Spi.GetDataStep | src/spi.rs:32-46 | spi.rs `get_data` finds a word exactly when `wi != ri`; if not, it returns `(0, false)` and changes nothing; if so, it returns the oldest word and removes it |
| Spi.PutToSerialStep | src/spi.rs:195-205 | `put_to_serial` pushes `buff` into TX and then writes exactly one word to DR: the oldest queued word, or 0 when TX is empty after the push |
| Spi.PutToSerialFifo | src/spi.rs:195-205 | with room in TX, the word written is the oldest of (queued words followed by `buff`), and the rest stay queued |
| Spi.PutToSerialOne | src/spi.rs:195-205 | with TX empty, `put_to_serial([w])` writes `w` and leaves TX empty |
| Spi.Spi1Step | src/spi.rs:161-171 | the `SPI1` handler on RXNE pushes DR truncated to 16 bits into RX, with chip-select low and RXNE cleared; otherwise it changes nothing |
| Spi.RxBufferReadStep | src/spi.rs:207-211 | spi.rs `rx_buffer_read` discards the oldest received word, if any, and changes nothing else |
| Spi.RxForwardOne | src/spi.rs:48-57 | one round of `get_all_data` on a non-empty RX removes its oldest word and writes one word to DR; with TX empty that word is the removed one |
| Spi.RxGetAllDataStep | src/spi.rs:48-57 | `get_all_data` on RX empties RX and writes one word per word held; with TX empty it writes all received words in arrival order and leaves TX empty |
| Spi.RxForwardFifo | src/spi.rs:50-54 | one round with room in TX writes the oldest of (queued TX words followed by RX words), leaves the rest of that sequence split between TX and RX in order, and keeps TX's count |
| Spi.RxGetAllDataFifo | src/spi.rs:48-57 | with room in TX, `get_all_data` on RX writes exactly the first `Count(rx)` words of (queued TX words followed by RX words), in order, and TX is left holding the rest of that sequence |
| Spi.Spi.constructor | src/spi.rs:60-69 | both buffers start empty |
| Spi.Spi.PutData | src/spi.rs:11-24 | the in-place `put_data` acts as `PutDataStep` |
| Spi.Spi.PutAllData | src/spi.rs:26-30 | the `put_all_data` loop acts as `PutAllDataStep` |
| Spi.Spi.GetData | src/spi.rs:32-46 | the in-place `get_data` acts as `GetDataStep` |
| Spi.Spi.PutToSerial | src/spi.rs:195-205 | the in-place `put_to_serial` acts as `PutToSerialStep` |
| Spi.Spi.RxGetAllData | src/spi.rs:48-57 | the `get_all_data` loop on RX_CBUF acts as `RxGetAllDataStep` |
| Spi.Spi.Spi1 | src/spi.rs:161-171 | the in-place handler acts as `Spi1Step` |
| Spi.Spi.RxBufferRead | src/spi.rs:207-211 | the in-place `rx_buffer_read` acts as `RxBufferReadStep` |
| Firmware.PressState | src/main.rs:75-82 | a tick reads "pressed" exactly when IDR13 is clear |
| Firmware.ChangeBlinkingRatioStep | src/main.rs:116-124 | the new rate is 0x0FFF when the old one was 0xFFFF, and 0xFFFF otherwise |
| Firmware.ToggleTwice | src/main.rs:116-124 | on the two preset rates the toggle always changes the rate, and two toggles restore it |
| Firmware.Tim3Step | src/main.rs:69-114 | with the countdown above 0 a tick only counts down; at 0, Unpressed with a press opens a window (20, then 19 after the same tick's decrement), Debouncing always moves to Pressed and toggles the rate only if the pin still reads pressed, and Pressed with a release returns to Unpressed |
| Firmware.RunKeepsInv | src/main.rs:69-114 | from reset the countdown stays below 20 (so `KEY_CNT <= 20` throughout a tick and never underflows), it is 0 outside Debouncing, and the rate is 0, 0x0FFF or 0xFFFF |
| Firmware.RunAppend | src/main.rs:69-114 | running two sample sequences back to back equals running their concatenation |
| Firmware.CountdownIgnoresSamples | src/main.rs:88-112 | while the countdown runs, any samples leave the state and rate unchanged until it reaches 0 |
| Firmware.IdleStaysIdle | src/main.rs:90-95 | with the button up an idle machine stays idle |
| Firmware.HeldStaysPressed | src/main.rs:102-106 | with the button held a pressed machine stays pressed |
| Firmware.PressThroughWindow | src/main.rs:88-112 | a press edge starts the window at 19; the next 19 samples are ignored; the 21st tick moves to Pressed and toggles the rate if and only if the button is still down |
| Firmware.PressAndRelease | src/main.rs:69-124 | 25 ticks up, 30 down and 25 up from rest: the machine debounces on the first down sample, is Pressed with one toggle, and ends Unpressed with the rate toggled exactly once |
| Firmware.ShortBounce | src/main.rs:69-114 | a 5-tick bounce reaches Pressed at the 21st tick without a toggle, and Unpressed one tick later |
| Firmware.LoopStep | src/main.rs:55-64 | below the rate the loop counts up and keeps the LED; otherwise it resets the count and flips the LED |
| Firmware.LoopCountsUp | src/main.rs:55-56 | below the rate k passes add k to the count and keep the LED |
| Firmware.LoopSplit | src/main.rs:54-65 | k + 1 passes are k passes followed by one |
| Firmware.BlinkPeriod | src/main.rs:54-65 | at a fixed rate R, starting from 0, the LED holds for R + 1 passes and flips on pass R + 1, with the count back at 0 |
| Firmware.Board.constructor | src/main.rs:11-72 | every global starts at its reset value |
| Firmware.Board.ChangeBlinkingRatio | src/main.rs:116-124 | the in-place toggle acts as `ChangeBlinkingRatioStep` |
| Firmware.Board.Tim3 | src/main.rs:69-114 | the in-place TIM3 handler acts as `Tim3Step` and keeps `Inv` |
| Firmware.Board.LoopIteration | src/main.rs:55-64 | one in-place pass of the loop acts as `LoopStep` |

## Left out

- Peripheral set-up (`init` in uart.rs and spi.rs, `prepare_tim3`, and the clock
  and GPIO mode writes in `main`): register configuration with no logic to prove.
  Baud rate, prescaler and pin modes are therefore not modelled.
- `Uart.Usart2.constructor`: leaves out the TCIE arming of uart.rs `init`
  (src/uart.rs:64-70), so TCIE starts clear until the first `logger` call.
- `Spi.Spi.constructor`: includes the chip-select raise of spi.rs `init`
  (src/spi.rs:136-137), so chip-select starts high.
- `Uart.TcInterrupts`: it stands for the transmission-complete interrupt
  firing k times and assumes what the code does not control. TC is set before
  every handler call, and TCIE is not consulted. The handler clears TC on
  every call (src/uart.rs:103), and it disarms TCIE when TX is empty
  (src/uart.rs:108-110). After that disarming call the code writes nothing to
  TDR. When a later `logger` re-arms TCIE (src/uart.rs:78), whether TC is set
  again, and so whether transmission resumes, depends on the USART peripheral.
  The model does not describe that peripheral, so a possible stall there is
  not modelled.
- The peripheral-access crate, NVIC unmasking and interrupt priorities. There is
  no concurrency: each handler or foreground call is one atomic step. Races
  between `logger` and the `USART2` handler on `USART_TX`, or between the SPI
  calls and `SPI1` on the buffers, are not modelled.
- Timing: the 1 ms TIM3 period and the speed of the busy loop. A tick is one
  call, and time is the count of calls.
- The TIM3 `UIF` acknowledgement (`tim3.sr.write`): it only re-arms the interrupt
  and does not affect the debounce state.
- The GPIOA output data register: it is reduced to the one LED bit (ODR5), and
  the `modify` of the whole register is written as a flip of that bit. The
  spi.rs chip-select write (`odr.write` on GPIOB) is reduced to the ODR0 bit, so
  the other GPIOB pins it clears are not modelled.
- Chip-select deassertion: the code drives chip-select high only in `init`, so
  the model never raises it.
- The commented-out TXE and TC handling in `SPI1` and the commented-out
  `txeie` write in `put_to_serial`: they are not compiled.
- `get_all_data` is applied to `TX_CBUF` nowhere in the code. Modelled, it would
  have `put_to_serial` push into the same buffer it drains, so it is left out.
- `CircularBuff<T, 0>`: its `len() - 1` underflows and panics. `Ring.Valid`
  requires at least one slot.
- `CircularBuffer.CircularBuff`: the storage is an `array` whose length the
  class does not fix. Both drivers create it with 1024 slots.
- The ghost logs `tdr` and `written` stand for the wire. Shifting bits out on
  the bus and the LIS3DH sensor's replies are not modelled. DR and RDR are
  fields whose value is part of the state a step starts from.
