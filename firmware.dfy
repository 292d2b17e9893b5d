/**
 * Model of the logic in src/main.rs: the button debounce state machine run
 * by the TIM3 interrupt, the blink-rate toggle it drives, and one iteration
 * of the foreground loop that blinks the LED at that rate.
 *
 * The interrupt's statics `KEY_LEVEL` and `KEY_CNT`, the global
 * `G_BLINK_RATE`, the loop's `delay_cnt` and the LED bit (GPIOA ODR5) are
 * fields; the pin the button is on (GPIOC IDR13) is a parameter of the tick.
 */
module Firmware {
  import opened Words

  datatype ButtonState = Unpressed | Debouncing | Pressed

  /** Ticks of the debounce window. */
  const DEBOUNCING_TIME: u16 := 20

  /** What the TIM3 interrupt keeps between ticks: `KEY_LEVEL`, `KEY_CNT` and `G_BLINK_RATE`. */
  datatype Tim3State = Tim3State(keyLevel: ButtonState, keyCnt: u16, blinkRate: u32)

  /** The state at reset. */
  const Initial := Tim3State(Unpressed, 0, 0)

  /** The button pulls PC13 low: a tick reads "pressed" exactly when IDR13 is clear. */
  function PressState(idr13: bool): (pressed: bool)
    ensures pressed <==> !idr13
  {
    if !idr13 then true else false
  }

  /** `change_blinking_ratio`: the rate alternates between 0x0FFF and 0xFFFF. */
  function ChangeBlinkingRatioStep(rate: u32): (r: u32)
    ensures r == 0x0FFF || r == 0xFFFF
    ensures r == 0x0FFF <==> rate == 0xFFFF
  {
    if rate == 0xFFFF then 0x0FFF else 0xFFFF
  }

  /**
   * One TIM3 tick with the pin reading `idr13`. While the countdown runs the
   * state and the rate hold; at 0 the transition table applies, and the rate
   * toggles only on a press confirmed at the end of the debounce window. The
   * countdown then drops by one if it is above 0.
   */
  function Tim3Step(s: Tim3State, idr13: bool): (t: Tim3State)
    ensures s.keyCnt > 0 ==> t == s.(keyCnt := s.keyCnt - 1)
    ensures s.keyCnt == 0 && s.keyLevel == Unpressed ==>
              t == if PressState(idr13) then Tim3State(Debouncing, DEBOUNCING_TIME - 1, s.blinkRate) else s
    ensures s.keyCnt == 0 && s.keyLevel == Debouncing ==>
              t.keyLevel == Pressed && t.keyCnt == 0 &&
              t.blinkRate == if PressState(idr13) then ChangeBlinkingRatioStep(s.blinkRate) else s.blinkRate
    ensures s.keyCnt == 0 && s.keyLevel == Pressed ==>
              t == s.(keyLevel := if PressState(idr13) then Pressed else Unpressed)
    ensures t.keyCnt < DEBOUNCING_TIME || t.keyCnt < s.keyCnt
  {
    var pressed := PressState(idr13);
    var next :=
      if s.keyCnt != 0 then s
      else match s.keyLevel
        case Unpressed =>
          if pressed then s.(keyLevel := Debouncing, keyCnt := DEBOUNCING_TIME) else s
        case Debouncing =>
          s.(keyLevel := Pressed,
             blinkRate := if pressed then ChangeBlinkingRatioStep(s.blinkRate) else s.blinkRate)
        case Pressed =>
          if !pressed then s.(keyLevel := Unpressed) else s;
    if next.keyCnt > 0 then next.(keyCnt := next.keyCnt - 1) else next
  }

  /** The states the TIM3 interrupt can reach from reset. */
  predicate Inv(s: Tim3State) {
    s.keyCnt < DEBOUNCING_TIME &&
    (s.keyLevel != Debouncing ==> s.keyCnt == 0) &&
    (s.blinkRate == 0 || s.blinkRate == 0x0FFF || s.blinkRate == 0xFFFF)
  }

  /** TIM3 ticks over a run of pin samples, oldest first. */
  function Run(s: Tim3State, samples: seq<bool>): (t: Tim3State)
    decreases |samples|
  {
    if samples == [] then s else Run(Tim3Step(s, samples[0]), samples[1..])
  }

  /** `n` equal pin samples. */
  function Repeat(b: bool, n: nat): (r: seq<bool>)
    ensures |r| == n && forall i :: 0 <= i < n ==> r[i] == b
  {
    seq(n, _ => b)
  }

  /** IDR13 levels: set when the button is up, clear when it is down. */
  const UP := true
  const DOWN := false

  // ---------------------------------------------------------------------------
  // Properties of the debounce machine

  /** On the two preset rates a toggle always changes the rate and two toggles give it back. */
  lemma ToggleTwice(rate: u32)
    requires rate == 0x0FFF || rate == 0xFFFF
    ensures ChangeBlinkingRatioStep(ChangeBlinkingRatioStep(rate)) == rate
    ensures ChangeBlinkingRatioStep(rate) != rate
  {
  }

  /** KEY_CNT stays below the window (so at most 20 at any point of a tick) and the state set stays as described. */
  lemma {:induction false} RunKeepsInv(s: Tim3State, samples: seq<bool>)
    requires Inv(s)
    ensures Inv(Run(s, samples))
    decreases |samples|
  {
    if samples != [] {
      RunKeepsInv(Tim3Step(s, samples[0]), samples[1..]);
    }
  }

  lemma {:induction false} RunAppend(s: Tim3State, a: seq<bool>, b: seq<bool>)
    ensures Run(s, a + b) == Run(Run(s, a), b)
    decreases |a|
  {
    if a == [] {
      assert a + b == b;
    } else {
      assert (a + b)[0] == a[0];
      assert (a + b)[1..] == a[1..] + b;
      RunAppend(Tim3Step(s, a[0]), a[1..], b);
    }
  }

  /** While the countdown runs, the samples are ignored: after `keyCnt` ticks only the countdown has changed. */
  lemma {:induction false} CountdownIgnoresSamples(s: Tim3State, samples: seq<bool>)
    requires |samples| == s.keyCnt as int
    ensures Run(s, samples) == s.(keyCnt := 0)
    decreases |samples|
  {
    if samples != [] {
      CountdownIgnoresSamples(Tim3Step(s, samples[0]), samples[1..]);
    }
  }

  /** With the button up, an idle machine stays idle. */
  lemma {:induction false} IdleStaysIdle(s: Tim3State, n: nat)
    requires s.keyLevel == Unpressed && s.keyCnt == 0
    ensures Run(s, Repeat(UP, n)) == s
    decreases n
  {
    if n > 0 {
      assert Repeat(UP, n)[1..] == Repeat(UP, n - 1);
      IdleStaysIdle(s, n - 1);
    }
  }

  /** With the button down, a pressed machine stays pressed. */
  lemma {:induction false} HeldStaysPressed(s: Tim3State, n: nat)
    requires s.keyLevel == Pressed && s.keyCnt == 0
    ensures Run(s, Repeat(DOWN, n)) == s
    decreases n
  {
    if n > 0 {
      assert Repeat(DOWN, n)[1..] == Repeat(DOWN, n - 1);
      HeldStaysPressed(s, n - 1);
    }
  }

  /**
   * A press edge opens the window; the samples during the next 19 ticks are
   * ignored; the tick after that moves to Pressed and toggles the rate if and
   * only if the button is still down then.
   */
  lemma PressThroughWindow(s: Tim3State, window: seq<bool>, last: bool)
    requires s.keyLevel == Unpressed && s.keyCnt == 0
    requires |window| == (DEBOUNCING_TIME - 1) as int
    ensures Run(s, [DOWN]) == Tim3State(Debouncing, DEBOUNCING_TIME - 1, s.blinkRate)
    ensures Run(s, [DOWN] + window) == Tim3State(Debouncing, 0, s.blinkRate)
    ensures Run(s, [DOWN] + window + [last]) ==
            Tim3State(Pressed, 0, if last == DOWN then ChangeBlinkingRatioStep(s.blinkRate) else s.blinkRate)
  {
    var s1 := Tim3Step(s, DOWN);
    assert Run(s, [DOWN]) == s1;
    RunAppend(s, [DOWN], window);
    CountdownIgnoresSamples(s1, window);
    RunAppend(s, [DOWN] + window, [last]);
  }

  /**
   * The scenario: 25 ticks up, 30 down, 25 up from rest. The machine idles
   * through the first 25, starts debouncing on the first down sample, is
   * Pressed with the rate toggled once when the window closes, and is back in
   * Unpressed at the end, the rate toggled exactly once.
   */
  lemma PressAndRelease(rate: u32)
    ensures Run(Tim3State(Unpressed, 0, rate), Repeat(UP, 25)) == Tim3State(Unpressed, 0, rate)
    ensures Run(Tim3State(Unpressed, 0, rate), Repeat(UP, 25) + [DOWN]) ==
            Tim3State(Debouncing, DEBOUNCING_TIME - 1, rate)
    ensures Run(Tim3State(Unpressed, 0, rate), Repeat(UP, 25) + Repeat(DOWN, 30)) ==
            Tim3State(Pressed, 0, ChangeBlinkingRatioStep(rate))
    ensures Run(Tim3State(Unpressed, 0, rate), Repeat(UP, 25) + Repeat(DOWN, 30) + Repeat(UP, 25)) ==
            Tim3State(Unpressed, 0, ChangeBlinkingRatioStep(rate))
  {
    var s0 := Tim3State(Unpressed, 0, rate);
    var up25, down30 := Repeat(UP, 25), Repeat(DOWN, 30);
    IdleStaysIdle(s0, 25);
    RunAppend(s0, up25, [DOWN]);
    assert Run(s0, [DOWN]) == Tim3Step(s0, DOWN);
    PressThroughWindow(s0, Repeat(DOWN, 19), DOWN);
    assert down30 == [DOWN] + Repeat(DOWN, 19) + [DOWN] + Repeat(DOWN, 9);
    var pressed := Tim3State(Pressed, 0, ChangeBlinkingRatioStep(rate));
    RunAppend(s0, [DOWN] + Repeat(DOWN, 19) + [DOWN], Repeat(DOWN, 9));
    HeldStaysPressed(pressed, 9);
    RunAppend(s0, up25, down30);
    assert Run(pressed, [UP]) == Tim3State(Unpressed, 0, ChangeBlinkingRatioStep(rate));
    assert Repeat(UP, 25) == [UP] + Repeat(UP, 24);
    RunAppend(pressed, [UP], Repeat(UP, 24));
    IdleStaysIdle(Tim3State(Unpressed, 0, ChangeBlinkingRatioStep(rate)), 24);
    RunAppend(s0, up25 + down30, up25);
  }

  /**
   * A bounce: 5 ticks down, then up. The window still runs out and the
   * machine passes through Pressed, but the sample at the decision tick is up,
   * so the rate does not toggle; one tick later it is Unpressed again.
   */
  lemma ShortBounce(rate: u32)
    ensures Run(Tim3State(Unpressed, 0, rate), Repeat(DOWN, 5) + Repeat(UP, 16)) ==
            Tim3State(Pressed, 0, rate)
    ensures Run(Tim3State(Unpressed, 0, rate), Repeat(DOWN, 5) + Repeat(UP, 17)) ==
            Tim3State(Unpressed, 0, rate)
  {
    var s0 := Tim3State(Unpressed, 0, rate);
    var window := Repeat(DOWN, 4) + Repeat(UP, 15);
    assert Repeat(DOWN, 5) + Repeat(UP, 16) == [DOWN] + window + [UP];
    PressThroughWindow(s0, window, UP);
    assert Repeat(DOWN, 5) + Repeat(UP, 17) == ([DOWN] + window + [UP]) + [UP];
    RunAppend(s0, [DOWN] + window + [UP], [UP]);
    assert Run(Tim3State(Pressed, 0, rate), [UP]) == Tim3State(Unpressed, 0, rate);
  }

  // ---------------------------------------------------------------------------
  // The foreground loop

  /**
   * One pass of `main`'s loop: count up to the blink rate, then flip the LED
   * and start counting again. `delay_cnt` never passes u32's range: it only
   * grows while it is below the rate.
   */
  function LoopStep(delayCnt: u32, led: bool, rate: u32): (r: (u32, bool))
    ensures delayCnt < rate ==> r == (delayCnt + 1, led)
    ensures delayCnt >= rate ==> r == (0, !led)
  {
    if delayCnt < rate then (delayCnt + 1, led) else (0, !led)
  }

  /** `k` passes of the loop at a fixed rate. */
  function Loop(delayCnt: u32, led: bool, rate: u32, k: nat): (r: (u32, bool))
    decreases k
  {
    if k == 0 then (delayCnt, led)
    else
      var (d, l) := LoopStep(delayCnt, led, rate);
      Loop(d, l, rate, k - 1)
  }

  lemma {:induction false} LoopCountsUp(d: u32, led: bool, rate: u32, k: nat)
    requires d as int + k <= rate as int
    ensures Loop(d, led, rate, k) == ((d as int + k) as u32, led)
    decreases k
  {
    if k > 0 {
      LoopCountsUp(d + 1, led, rate, k - 1);
    }
  }

  /** At a fixed rate R the LED flips once every R + 1 passes of the loop. */
  lemma BlinkPeriod(led: bool, rate: u32)
    ensures forall k :: 0 <= k <= rate as int ==> Loop(0, led, rate, k) == (k as u32, led)
    ensures Loop(0, led, rate, rate as int + 1) == (0, !led)
  {
    forall k | 0 <= k <= rate as int
      ensures Loop(0, led, rate, k) == (k as u32, led)
    {
      LoopCountsUp(0, led, rate, k);
    }
    LoopSplit(0, led, rate, rate as int);
  }

  lemma {:induction false} LoopSplit(d: u32, led: bool, rate: u32, k: nat)
    ensures Loop(d, led, rate, k + 1) ==
            LoopStep(Loop(d, led, rate, k).0, Loop(d, led, rate, k).1, rate)
    decreases k
  {
    if k > 0 {
      var (d1, l1) := LoopStep(d, led, rate);
      LoopSplit(d1, l1, rate, k - 1);
    }
  }

  // ---------------------------------------------------------------------------
  // The firmware's globals, as the interrupt and the loop mutate them

  class Board {
    var keyLevel: ButtonState   // TIM3's KEY_LEVEL
    var keyCnt: u16             // TIM3's KEY_CNT
    var blinkRate: u32          // G_BLINK_RATE
    var delayCnt: u32           // main's delay_cnt
    var led: bool               // GPIOA ODR5

    ghost function Tim3View(): Tim3State
      reads this
    {
      Tim3State(keyLevel, keyCnt, blinkRate)
    }

    /** Everything at its reset value. */
    constructor ()
      ensures Tim3View() == Initial && delayCnt == 0 && !led
    {
      keyLevel, keyCnt, blinkRate := Unpressed, 0, 0;
      delayCnt, led := 0, false;
    }

    method ChangeBlinkingRatio()
      modifies this`blinkRate
      ensures blinkRate == ChangeBlinkingRatioStep(old(blinkRate))
    {
      if blinkRate == 0xFFFF {
        blinkRate := 0x0FFF;
      } else {
        blinkRate := 0xFFFF;
      }
    }

    /** The TIM3 interrupt, the pin reading `idr13`. */
    method Tim3(idr13: bool)
      modifies this`keyLevel, this`keyCnt, this`blinkRate
      ensures Tim3View() == Tim3Step(old(Tim3View()), idr13)
      ensures Inv(old(Tim3View())) ==> Inv(Tim3View())
    {
      var pressState: bool;
      if !idr13 {
        pressState := true;
      } else {
        pressState := false;
      }
      if keyCnt == 0 {
        match keyLevel
        case Unpressed =>
          if pressState {
            keyLevel := Debouncing;
            keyCnt := DEBOUNCING_TIME;
          }
        case Debouncing =>
          if pressState {
            ChangeBlinkingRatio();
          }
          keyLevel := Pressed;
        case Pressed =>
          if !pressState {
            keyLevel := Unpressed;
          }
      }
      if keyCnt > 0 {
        keyCnt := keyCnt - 1;
      }
    }

    /** One pass of the foreground loop. */
    method LoopIteration()
      modifies this`delayCnt, this`led
      ensures (delayCnt, led) == LoopStep(old(delayCnt), old(led), blinkRate)
    {
      if delayCnt < blinkRate {
        delayCnt := delayCnt + 1;
      } else {
        if led {
          led := false;
        } else {
          led := true;
        }
        delayCnt := 0;
      }
    }
  }
}
