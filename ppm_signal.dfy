/** The PPM output of main/main.c: the timer interrupt handler
    `onPpmTimer`, whose statics become the fields of a `Generator`, and
    `ppm_start`, which arms the first alarm. */
module PpmSignal {
  import opened CTypes
  import opened HwTimer
  import opened ApbCallbacks
  import opened PpmFrame
  import PpmInit

  /** The first alarm `ppm_start` programs. */
  const FIRST_ALARM: uint64 := 12000

  /** `channelValue`, shared with the UDP task, with every channel at
      `DEFAULT_CHANNEL_VALUE`. */
  method NewChannelValues() returns (a: array<uint16>)
    ensures fresh(a) && a.Length == PPM_CHANNELS
    ensures forall i :: 0 <= i < a.Length ==> a[i] == DEFAULT_CHANNEL_VALUE
  {
    a := new uint16[PPM_CHANNELS](_ => DEFAULT_CHANNEL_VALUE);
  }

  class Generator {
    var state: PpmState
    /** `ppmChannel`, a `uint8_t` that never leaves `[0, 8)`. */
    var channel: nat
    var output: nat
    var usedFrameLength: int
    /** The level last written to `OUTPUT_PIN`. */
    var pinLevel: nat
    /** The global `timer`, which `ppm_start` sets to `timer_dev[0]`. */
    const timer: Timer
    const channelValue: array<uint16>

    ghost predicate Valid()
      reads this
    {
      channelValue.Length == PPM_CHANNELS && channel < PPM_CHANNELS
    }

    /** The handler's statics as a `Frame`. */
    function Context(): Frame
      reads this
    {
      Frame(state, channel, output, usedFrameLength)
    }

    /** The statics as the program loads them. */
    constructor (timer: Timer, channelValue: array<uint16>)
      requires channelValue.Length == PPM_CHANNELS
      ensures Valid() && Context() == BOOT_FRAME && pinLevel == 0
      ensures this.timer == timer && this.channelValue == channelValue
    {
      state, channel, output, usedFrameLength, pinLevel := Idle, 0, 0, 0, 0;
      this.timer := timer;
      this.channelValue := channelValue;
    }

    /** `onPpmTimer`: one expiry. The statics advance as `Fire` says, the
        alarm `Fire` computes is written with auto-reload after its
        conversion to `uint64_t`, the pin follows the output, and nothing
        else of the timer changes. */
    method OnPpmTimer()
      requires Valid()
      modifies this, timer
      ensures Valid()
      ensures Context() == Fire(old(Context()), channelValue[..]).next
      ensures timer.alarmValue == ToUint64(Fire(old(Context()), channelValue[..]).alarm)
      ensures timer.autoreload && pinLevel == output
      ensures timer.divider == old(timer.divider) && timer.running == old(timer.running)
      ensures timer.alarmEnabled == old(timer.alarmEnabled) && timer.countUp == old(timer.countUp)
      ensures timer.intrType == old(timer.intrType) && timer.counter == old(timer.counter)
    {
      if state == Idle {
        state, channel, usedFrameLength, output := Pulse, 0, 0, 0;
      }
      if state == Pulse {
        output := 1;
        usedFrameLength := usedFrameLength + PPM_PULSE_LENGTH;
        state := Fill;
        timer.AlarmWrite(ToUint64(PPM_PULSE_LENGTH), true);
      } else if state == Fill {
        output := 0;
        var currentChannelValue := channelValue[channel] as int;
        channel := channel + 1;
        state := Pulse;
        if channel >= PPM_CHANNELS {
          channel := 0;
          timer.AlarmWrite(ToUint64(PPM_FRAME_LENGTH - usedFrameLength), true);
          usedFrameLength := 0;
        } else {
          usedFrameLength := usedFrameLength + (currentChannelValue - PPM_PULSE_LENGTH);
          timer.AlarmWrite(ToUint64(currentChannelValue - PPM_PULSE_LENGTH), true);
        }
      }
      pinLevel := output;
    }

    /** `ppm_start`: `ppm_init` on `timer_dev[0]`, then the first alarm of
        12000 ticks with auto-reload, enabled. The handler's statics are not
        touched, so the first expiry finds them as they were. */
    method Start(callbacks: Registry, allocOk: bool)
      requires Valid() && callbacks.Valid() && timer !in callbacks.Repr && this !in callbacks.Repr
      modifies timer, callbacks.Repr
      ensures Valid() && Context() == old(Context())
      ensures timer.alarmValue == FIRST_ALARM && timer.autoreload && timer.alarmEnabled
      ensures timer.running && timer.countUp && timer.divider == PpmInit.INIT_DIVIDER && timer.counter == 0 && timer.intrType == 0
      ensures callbacks.Valid() && fresh(callbacks.Repr - old(callbacks.Repr))
      ensures callbacks.contents ==
                if allocOk && Registration(timer, OnApbChange) !in old(callbacks.contents)
                then [Registration(timer, OnApbChange)] + old(callbacks.contents)
                else old(callbacks.contents)
    {
      var t := PpmInit.Init(timer, callbacks, allocOk);
      t.AlarmWrite(FIRST_ALARM, true);
      t.AlarmEnable();
    }
  }
}
