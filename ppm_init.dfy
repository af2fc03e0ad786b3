/** `ppm_init` of ppm_generator.c: configure timer 0 of group 0, start it,
    and register `_on_apb_change` for it. */
module PpmInit {
  import opened CTypes
  import opened HwTimer
  import opened ApbCallbacks

  const INIT_DIVIDER: uint16 := 80

  /** `dev` is `timer_dev[0]`, `callbacks` is the registry and `allocOk`
      whether the registration's `malloc` succeeds. The result of the
      registration is ignored, as in the source. */
  method Init(dev: Timer, callbacks: Registry, allocOk: bool) returns (timer: Timer)
    requires callbacks.Valid() && dev !in callbacks.Repr
    modifies dev, callbacks.Repr
    ensures timer == dev
    ensures timer.divider == INIT_DIVIDER && timer.countUp && timer.running
    ensures !timer.alarmEnabled && !timer.autoreload && timer.counter == 0 && timer.intrType == 0
    ensures timer.alarmValue == old(dev.alarmValue)
    ensures callbacks.Valid() && fresh(callbacks.Repr - old(callbacks.Repr))
    ensures Registration(dev, OnApbChange) in callbacks.contents <==>
              allocOk || Registration(dev, OnApbChange) in old(callbacks.contents)
    ensures callbacks.contents ==
              if allocOk && Registration(dev, OnApbChange) !in old(callbacks.contents)
              then [Registration(dev, OnApbChange)] + old(callbacks.contents)
              else old(callbacks.contents)
  {
    timer := dev;
    timer.Init(INIT_DIVIDER, true, false, false, false);
    timer.SetCounterValue(0);
    timer.Start();
    var _ := callbacks.Add(timer, OnApbChange, allocOk);
  }
}
