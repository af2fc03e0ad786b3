/** The hardware timer as the ppm_generator.c wrappers see it: an abstract
    record of the registers the driver calls read and write. */
module HwTimer {
  import opened CTypes
  import opened TimerConfig

  class Timer {
    /** `hw_timer_t`: timer group and timer number. */
    const group: nat
    const num: nat

    var alarmValue: uint64
    var autoreload: bool
    var divider: uint16
    /** `counter_en`: the time-base counter is running. */
    var running: bool
    var alarmEnabled: bool
    /** `counter_dir`: true when counting up. */
    var countUp: bool
    /** `intr_type`, a `timer_intr_mode_t`. */
    var intrType: nat
    var counter: uint64

    constructor (group: nat, num: nat)
      ensures this.group == group && this.num == num
      ensures !running && !alarmEnabled
    {
      this.group := group;
      this.num := num;
      alarmValue, autoreload, divider := 0, false, 0;
      running, alarmEnabled, countUp, intrType, counter := false, false, false, 0, 0;
    }

    /** What `timer_get_config` reports for this timer. */
    function Snapshot(): DriverConfig
      reads this
    {
      DriverConfig(alarmEnabled, autoreload, divider, intrType, running, countUp)
    }

    /** `timer_init` with a `timer_config_t`; the interrupt type the firmware
        leaves zero-initialised, which is level-triggered. */
    method Init(divider: uint16, countUp: bool, running: bool, alarmEnabled: bool, autoreload: bool)
      modifies this
      ensures this.divider == divider && this.countUp == countUp && this.running == running
      ensures this.alarmEnabled == alarmEnabled && this.autoreload == autoreload && intrType == 0
      ensures alarmValue == old(alarmValue) && counter == old(counter)
    {
      this.divider, this.countUp, this.running := divider, countUp, running;
      this.alarmEnabled, this.autoreload, intrType := alarmEnabled, autoreload, 0;
    }

    /** `timer_set_counter_value`. */
    method SetCounterValue(value: uint64)
      modifies this`counter
      ensures counter == value
    {
      counter := value;
    }

    /** `timerAlarmWrite`: the alarm value and the auto-reload flag, nothing else. */
    method AlarmWrite(value: uint64, reload: bool)
      modifies this`alarmValue, this`autoreload
      ensures alarmValue == value && autoreload == reload
    {
      alarmValue := value;
      autoreload := reload;
    }

    /** `timerAlarmEnable`. */
    method AlarmEnable()
      modifies this`alarmEnabled
      ensures alarmEnabled
    {
      alarmEnabled := true;
    }

    /** `timerStart`. */
    method Start()
      modifies this`running
      ensures running
    {
      running := true;
    }

    /** `timerStop`: pauses the counter. */
    method Stop()
      modifies this`running
      ensures !running
    {
      running := false;
    }

    /** `timerSetDivider`. */
    method SetDivider(d: uint16)
      modifies this`divider
      ensures divider == d
    {
      divider := d;
    }

    /** `timerGetConfig`: the driver's configuration packed into a
        `timer_cfg_t` word whose reserved bits are the uninitialised `junk`. */
    method GetConfig(junk: uint10) returns (word: uint32)
      ensures Unpack(word) == CfgFields(junk, Bit(alarmEnabled), Bit(intrType == 0), intrType % 2,
                                        divider, Bit(autoreload), Bit(countUp), Bit(running))
    {
      word := ConfigWord(Snapshot(), junk);
    }

    /** `timerGetDivider`: unpacking the configuration word gives back the
        divider, whatever the reserved bits held. */
    method GetDivider(junk: uint10) returns (d: uint16)
      ensures d == divider
    {
      var word := GetConfig(junk);
      d := DividerOf(word);
    }
  }
}
