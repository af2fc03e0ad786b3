/** The PPM frame state machine of `onPpmTimer` (main/main.c), as a function
    from the handler's persistent state and the channel buffer to the next
    state and the alarm duration it programs, with the frame-level lemmas. */
module PpmFrame {
  import opened CTypes

  const PPM_FRAME_LENGTH: int := 22500
  const PPM_PULSE_LENGTH: int := 300
  const PPM_CHANNELS: nat := 8
  const DEFAULT_CHANNEL_VALUE: uint16 := 1500

  /** `ppmState_e`; `PPM_STATE_SYNC` is declared but never entered. */
  datatype PpmState = Idle | Pulse | Fill

  /** The statics of `onPpmTimer`: `ppmState`, `ppmChannel`, `ppmOutput` and
      `usedFrameLength`. */
  datatype Frame = Frame(state: PpmState, channel: nat, output: nat, used: int)

  /** One expiry: the state afterwards and the alarm duration written, as the
      `int` the handler computes before it becomes a `uint64_t`. */
  datatype Firing = Firing(next: Frame, alarm: int)

  /** The statics before the first expiry. */
  const BOOT_FRAME: Frame := Frame(Idle, 0, 0, 0)

  /** A new frame begins with a pulse on channel 0 and nothing used. */
  predicate FrameStart(f: Frame)
  {
    f.state == Pulse && f.channel == 0 && f.used == 0
  }

  /** One call of `onPpmTimer`. An IDLE state resets the frame to channel 0
      with nothing used and falls through into the PULSE branch in the same
      call. A PULSE raises the
      output for `PPM_PULSE_LENGTH`; a FILL lowers it, reads
      `channelValue[ppmChannel]` and either programs the rest of that
      channel's slot or, after the last channel, the remainder of the frame.
      The states alternate, the channel index stays in range, the output is
      high exactly when a FILL comes next, and a high output always lasts
      `PPM_PULSE_LENGTH`. */
  function Fire(f: Frame, values: seq<int>): (r: Firing)
    requires |values| == PPM_CHANNELS && f.channel < PPM_CHANNELS
    ensures r.next.channel < PPM_CHANNELS
    ensures r.next.state == (if f.state == Fill then Pulse else Fill)
    ensures r.next.output == (if r.next.state == Fill then 1 else 0)
    ensures r.next.state == Fill ==> r.alarm == PPM_PULSE_LENGTH
  {
    match f.state
    case Idle =>
      Firing(Frame(Fill, 0, 1, PPM_PULSE_LENGTH), PPM_PULSE_LENGTH)
    case Pulse =>
      Firing(Frame(Fill, f.channel, 1, f.used + PPM_PULSE_LENGTH), PPM_PULSE_LENGTH)
    case Fill =>
      var v := values[f.channel];
      var channel := f.channel + 1;
      if channel >= PPM_CHANNELS then
        Firing(Frame(Pulse, 0, 0, 0), PPM_FRAME_LENGTH - f.used)
      else
        Firing(Frame(Pulse, channel, 0, f.used + (v - PPM_PULSE_LENGTH)), v - PPM_PULSE_LENGTH)
  }

  /** `n` consecutive expiries with the buffer unchanged: the final state and
      the alarm durations in order. */
  function Run(f: Frame, values: seq<int>, n: nat): (r: (Frame, seq<int>))
    requires |values| == PPM_CHANNELS && f.channel < PPM_CHANNELS
    ensures |r.1| == n && r.0.channel < PPM_CHANNELS
    decreases n
  {
    if n == 0 then (f, [])
    else
      var s := Fire(f, values);
      var rest := Run(s.next, values, n - 1);
      (rest.0, [s.alarm] + rest.1)
  }

  function Sum(s: seq<int>): int
  {
    if s == [] then 0 else s[0] + Sum(s[1..])
  }

  /** `values[0] + ... + values[k - 1]`. */
  function SumPrefix(values: seq<int>, k: nat): int
    requires k <= |values|
  {
    if k == 0 then 0 else SumPrefix(values, k - 1) + values[k - 1]
  }

  /** The `i`-th alarm duration of a frame, stated directly: even positions
      are pulses; odd positions before the last are `values[i / 2]` minus the
      pulse; the last is what remains of the frame after seven channel slots
      and the eighth pulse. `values[7]` does not appear. */
  function FrameAlarm(values: seq<int>, i: nat): int
    requires |values| == PPM_CHANNELS && i < 2 * PPM_CHANNELS
  {
    if i % 2 == 0 then PPM_PULSE_LENGTH
    else if i < 2 * PPM_CHANNELS - 1 then values[i / 2] - PPM_PULSE_LENGTH
    else PPM_FRAME_LENGTH - SumPrefix(values, PPM_CHANNELS - 1) - PPM_PULSE_LENGTH
  }

  /** The frame has room for its channels: every channel but the last is at
      least a pulse long, and the first seven slots plus the final pulse fit
      in the frame. */
  predicate ValidChannels(values: seq<int>)
    requires |values| == PPM_CHANNELS
  {
    && (forall i :: 0 <= i < PPM_CHANNELS - 1 ==> values[i] >= PPM_PULSE_LENGTH)
    && SumPrefix(values, PPM_CHANNELS - 1) + PPM_PULSE_LENGTH <= PPM_FRAME_LENGTH
  }

  lemma SumCons2(a: int, b: int, rest: seq<int>)
    ensures Sum([a, b] + rest) == a + b + Sum(rest)
  {
    assert ([a, b] + rest)[1..] == [b] + rest;
    assert ([b] + rest)[1..] == rest;
  }

  /** Two expiries in a row: their alarms head the run. */
  lemma TwoExpiries(f: Frame, values: seq<int>, n: nat)
    requires |values| == PPM_CHANNELS && f.channel < PPM_CHANNELS && n >= 2
    ensures var s1 := Fire(f, values);
      var s2 := Fire(s1.next, values);
      var tail := Run(s2.next, values, n - 2);
      Run(f, values, n) == (tail.0, [s1.alarm, s2.alarm] + tail.1)
  {
    var s1 := Fire(f, values);
    var s2 := Fire(s1.next, values);
    var tail := Run(s2.next, values, n - 2);
    assert Run(s1.next, values, n - 1) == (tail.0, [s2.alarm] + tail.1);
    assert [s1.alarm] + ([s2.alarm] + tail.1) == [s1.alarm, s2.alarm] + tail.1;
  }

  /** The pulse and fill of channel `k < 7`: they last the channel's value
      together and lead to the pulse of channel `k + 1`. */
  lemma ChannelSlot(values: seq<int>, k: nat, output: nat, used: int)
    requires |values| == PPM_CHANNELS && k < PPM_CHANNELS - 1
    ensures var s1 := Fire(Frame(Pulse, k, output, used), values);
      && s1 == Firing(Frame(Fill, k, 1, used + PPM_PULSE_LENGTH), PPM_PULSE_LENGTH)
      && Fire(s1.next, values) == Firing(Frame(Pulse, k + 1, 0, used + values[k]), values[k] - PPM_PULSE_LENGTH)
  {
  }

  /** The pulse of channel 7 and the final gap: they fill the frame and lead
      to the start of the next one. */
  lemma FinalSlot(values: seq<int>, output: nat, used: int)
    requires |values| == PPM_CHANNELS
    ensures var s1 := Fire(Frame(Pulse, PPM_CHANNELS - 1, output, used), values);
      && s1 == Firing(Frame(Fill, PPM_CHANNELS - 1, 1, used + PPM_PULSE_LENGTH), PPM_PULSE_LENGTH)
      && Fire(s1.next, values) == Firing(Frame(Pulse, 0, 0, 0), PPM_FRAME_LENGTH - used - PPM_PULSE_LENGTH)
  {
  }

  /** The alarms of slot `k < 7` followed by the frame alarms from slot
      `k + 1` on are the frame alarms from slot `k` on. */
  lemma PrependSlot(values: seq<int>, k: nat, pulse: int, fill: int, tail: seq<int>)
    requires |values| == PPM_CHANNELS && k < PPM_CHANNELS - 1
    requires pulse == PPM_PULSE_LENGTH && fill == values[k] - PPM_PULSE_LENGTH
    requires |tail| == 2 * (PPM_CHANNELS - k - 1)
    requires forall j :: 0 <= j < |tail| ==> tail[j] == FrameAlarm(values, 2 * (k + 1) + j)
    ensures forall j :: 0 <= j < |tail| + 2 ==> ([pulse, fill] + tail)[j] == FrameAlarm(values, 2 * k + j)
  {
    var alarms := [pulse, fill] + tail;
    forall j | 0 <= j < |alarms|
      ensures alarms[j] == FrameAlarm(values, 2 * k + j)
    {
      if j == 1 {
        assert (2 * k + 1) / 2 == k;
      } else if j >= 2 {
        assert alarms[j] == tail[j - 2];
        assert 2 * (k + 1) + (j - 2) == 2 * k + j;
      }
    }
  }

  /** From the pulse of channel `k`, with the first `k` slots used, the rest
      of the frame runs in `2 * (8 - k)` expiries, produces the remaining
      frame alarms and ends at the start of the next frame. */
  lemma {:induction false} RestOfFrame(values: seq<int>, k: nat, output: nat, used: int)
    requires |values| == PPM_CHANNELS && k < PPM_CHANNELS
    requires used == SumPrefix(values, k)
    ensures var r := Run(Frame(Pulse, k, output, used), values, 2 * (PPM_CHANNELS - k));
      && r.0 == Frame(Pulse, 0, 0, 0)
      && forall j :: 0 <= j < |r.1| ==> r.1[j] == FrameAlarm(values, 2 * k + j)
    decreases PPM_CHANNELS - k
  {
    var n := 2 * (PPM_CHANNELS - k);
    var f0 := Frame(Pulse, k, output, used);
    var s1 := Fire(f0, values);
    var s2 := Fire(s1.next, values);
    var tail := Run(s2.next, values, n - 2);
    TwoExpiries(f0, values, n);
    if k == PPM_CHANNELS - 1 {
      FinalSlot(values, output, used);
      assert tail == (Frame(Pulse, 0, 0, 0), []);
    } else {
      ChannelSlot(values, k, output, used);
      var next := used + values[k];
      assert next == SumPrefix(values, k + 1);
      RestOfFrame(values, k + 1, 0, next);
      PrependSlot(values, k, s1.alarm, s2.alarm, tail.1);
    }
  }

  /** The same run uses up exactly what is left of the frame. */
  lemma {:induction false} RestOfFrameSum(values: seq<int>, k: nat, output: nat, used: int)
    requires |values| == PPM_CHANNELS && k < PPM_CHANNELS
    requires used == SumPrefix(values, k)
    ensures Sum(Run(Frame(Pulse, k, output, used), values, 2 * (PPM_CHANNELS - k)).1) == PPM_FRAME_LENGTH - used
    decreases PPM_CHANNELS - k
  {
    var n := 2 * (PPM_CHANNELS - k);
    var f0 := Frame(Pulse, k, output, used);
    var s1 := Fire(f0, values);
    var s2 := Fire(s1.next, values);
    var tail := Run(s2.next, values, n - 2);
    TwoExpiries(f0, values, n);
    SumCons2(s1.alarm, s2.alarm, tail.1);
    if k == PPM_CHANNELS - 1 {
      FinalSlot(values, output, used);
      assert tail.1 == [];
    } else {
      ChannelSlot(values, k, output, used);
      var next := used + values[k];
      assert next == SumPrefix(values, k + 1);
      RestOfFrameSum(values, k + 1, 0, next);
    }
  }

  /** Every buffer of a sequence holds one value per channel. */
  predicate Buffers(buffers: seq<seq<int>>)
  {
    forall i :: 0 <= i < |buffers| ==> |buffers[i]| == PPM_CHANNELS
  }

  /** Consecutive expiries with the buffer rewritten between them, as the
      receive task does: expiry `i` reads `buffers[i]`. */
  function RunEach(f: Frame, buffers: seq<seq<int>>): (r: (Frame, seq<int>))
    requires f.channel < PPM_CHANNELS && Buffers(buffers)
    ensures |r.1| == |buffers| && r.0.channel < PPM_CHANNELS
    decreases |buffers|
  {
    if buffers == [] then (f, [])
    else
      var s := Fire(f, buffers[0]);
      var rest := RunEach(s.next, buffers[1..]);
      (rest.0, [s.alarm] + rest.1)
  }

  /** Two expiries with their own buffers: their alarms head the run. */
  lemma TwoExpiriesEach(f: Frame, buffers: seq<seq<int>>)
    requires f.channel < PPM_CHANNELS && Buffers(buffers) && |buffers| >= 2
    ensures var s1 := Fire(f, buffers[0]);
      var s2 := Fire(s1.next, buffers[1]);
      var tail := RunEach(s2.next, buffers[2..]);
      RunEach(f, buffers) == (tail.0, [s1.alarm, s2.alarm] + tail.1)
  {
    var s1 := Fire(f, buffers[0]);
    var s2 := Fire(s1.next, buffers[1]);
    assert buffers[1..][0] == buffers[1] && buffers[1..][1..] == buffers[2..];
    var tail := RunEach(s2.next, buffers[2..]);
    assert RunEach(s1.next, buffers[1..]) == (tail.0, [s2.alarm] + tail.1);
    assert [s1.alarm] + ([s2.alarm] + tail.1) == [s1.alarm, s2.alarm] + tail.1;
  }

  /** From channel `k`'s pulse, whatever was used so far and whatever each
      remaining expiry reads, the rest of the frame programs exactly what is
      left of it and ends at the start of the next frame: the final gap
      absorbs every change of the buffer. */
  lemma {:induction false} RestOfFrameEach(buffers: seq<seq<int>>, k: nat, output: nat, used: int)
    requires k < PPM_CHANNELS && Buffers(buffers) && |buffers| == 2 * (PPM_CHANNELS - k)
    ensures var r := RunEach(Frame(Pulse, k, output, used), buffers);
      r.0 == Frame(Pulse, 0, 0, 0) && Sum(r.1) == PPM_FRAME_LENGTH - used
    decreases PPM_CHANNELS - k
  {
    var f0 := Frame(Pulse, k, output, used);
    var s1 := Fire(f0, buffers[0]);
    var s2 := Fire(s1.next, buffers[1]);
    var tail := RunEach(s2.next, buffers[2..]);
    TwoExpiriesEach(f0, buffers);
    SumCons2(s1.alarm, s2.alarm, tail.1);
    if k == PPM_CHANNELS - 1 {
      FinalSlot(buffers[1], output, used);
      assert tail.1 == [];
    } else {
      ChannelSlot(buffers[1], k, output, used);
      assert Buffers(buffers[2..]) by {
        forall i | 0 <= i < |buffers[2..]|
          ensures |buffers[2..][i]| == PPM_CHANNELS
        {
          assert buffers[2..][i] == buffers[i + 2];
        }
      }
      RestOfFrameEach(buffers[2..], k + 1, 0, used + buffers[1][k]);
    }
  }

  /** Every frame lasts `PPM_FRAME_LENGTH` even when the channel buffer
      changes between any two expiries of it. */
  lemma FrameLengthEach(buffers: seq<seq<int>>, f: Frame)
    requires FrameStart(f) && Buffers(buffers) && |buffers| == 2 * PPM_CHANNELS
    ensures var r := RunEach(f, buffers);
      FrameStart(r.0) && r.0.output == 0 && Sum(r.1) == PPM_FRAME_LENGTH
  {
    RestOfFrameEach(buffers, 0, f.output, 0);
  }

  /** With one buffer for every expiry, the run is the fixed-buffer run. */
  lemma {:induction false} RunEachConstant(f: Frame, values: seq<int>, n: nat)
    requires |values| == PPM_CHANNELS && f.channel < PPM_CHANNELS
    ensures Buffers(seq(n, _ => values))
    ensures RunEach(f, seq(n, _ => values)) == Run(f, values, n)
    decreases n
  {
    var buffers := seq(n, _ => values);
    if n > 0 {
      assert buffers[1..] == seq(n - 1, _ => values);
      RunEachConstant(Fire(f, values).next, values, n - 1);
    }
  }

  /** Pulses read nothing, and a FILL reads only its own channel: two
      buffers that agree there give the same expiry. */
  lemma FireReads(f: Frame, b1: seq<int>, b2: seq<int>)
    requires |b1| == PPM_CHANNELS && |b2| == PPM_CHANNELS && f.channel < PPM_CHANNELS
    requires f.state == Fill ==> b1[f.channel] == b2[f.channel]
    ensures Fire(f, b1) == Fire(f, b2)
  {
  }

  /** From channel `k`'s pulse, a run whose FILL of each channel `j` reads
      `values[j]` is the fixed-buffer run on `values`. */
  lemma {:induction false} RunEachReads(buffers: seq<seq<int>>, values: seq<int>, k: nat, output: nat, used: int)
    requires k < PPM_CHANNELS && Buffers(buffers) && |buffers| == 2 * (PPM_CHANNELS - k)
    requires |values| == PPM_CHANNELS
    requires forall j :: k <= j < PPM_CHANNELS ==> buffers[2 * (j - k) + 1][j] == values[j]
    ensures RunEach(Frame(Pulse, k, output, used), buffers) ==
            Run(Frame(Pulse, k, output, used), values, 2 * (PPM_CHANNELS - k))
    decreases PPM_CHANNELS - k
  {
    var n := 2 * (PPM_CHANNELS - k);
    var f0 := Frame(Pulse, k, output, used);
    TwoExpiriesEach(f0, buffers);
    TwoExpiries(f0, values, n);
    FireReads(f0, buffers[0], values);
    var s1 := Fire(f0, values);
    assert buffers[2 * (k - k) + 1][k] == values[k];
    FireReads(s1.next, buffers[1], values);
    var s2 := Fire(s1.next, values);
    if k == PPM_CHANNELS - 1 {
      assert buffers[2..] == [];
    } else {
      ChannelSlot(values, k, output, used);
      assert Buffers(buffers[2..]) by {
        forall i | 0 <= i < |buffers[2..]|
          ensures |buffers[2..][i]| == PPM_CHANNELS
        {
          assert buffers[2..][i] == buffers[i + 2];
        }
      }
      forall j | k + 1 <= j < PPM_CHANNELS
        ensures buffers[2..][2 * (j - (k + 1)) + 1][j] == values[j]
      {
        assert buffers[2..][2 * (j - (k + 1)) + 1] == buffers[2 * (j - k) + 1];
      }
      RunEachReads(buffers[2..], values, k + 1, 0, used + values[k]);
    }
  }

  /** The channel values a frame's FILLs actually read: channel `j` from
      the buffer of expiry `2 * j + 1`. */
  function FrameReads(buffers: seq<seq<int>>): (r: seq<int>)
    requires Buffers(buffers) && |buffers| == 2 * PPM_CHANNELS
    ensures |r| == PPM_CHANNELS
  {
    seq(PPM_CHANNELS, j requires 0 <= j < PPM_CHANNELS => buffers[2 * j + 1][j])
  }

  /** A frame with a rewritten buffer programs the frame alarms of the values
      its FILLs read. */
  lemma FrameEachAlarms(buffers: seq<seq<int>>, f: Frame)
    requires FrameStart(f) && Buffers(buffers) && |buffers| == 2 * PPM_CHANNELS
    ensures var r := RunEach(f, buffers);
      forall i :: 0 <= i < 2 * PPM_CHANNELS ==> r.1[i] == FrameAlarm(FrameReads(buffers), i)
  {
    var values := FrameReads(buffers);
    RunEachReads(buffers, values, 0, f.output, 0);
    RestOfFrame(values, 0, f.output, 0);
  }

  /** Mid-frame rewrites are harmless exactly as far as the values read are
      valid together: then no alarm of the frame wraps on its way into the
      `uint64_t` parameter. */
  lemma MidFrameAlarmsDoNotWrap(buffers: seq<seq<int>>, f: Frame)
    requires FrameStart(f) && Buffers(buffers) && |buffers| == 2 * PPM_CHANNELS
    requires ValidChannels(FrameReads(buffers))
    ensures var r := RunEach(f, buffers);
      forall i :: 0 <= i < 2 * PPM_CHANNELS ==> ToUint64(r.1[i]) == r.1[i]
  {
    var values := FrameReads(buffers);
    FrameEachAlarms(buffers, f);
    forall i | 0 <= i < 2 * PPM_CHANNELS
      ensures 0 <= FrameAlarm(values, i) < UINT64_LIMIT
    {
      AlarmsNonNegative(values);
      SumPrefixNonNegative(values, PPM_CHANNELS - 1);
      if i % 2 == 1 && i < 2 * PPM_CHANNELS - 1 {
        SumPrefixAtLeast(values, PPM_CHANNELS - 1, i / 2);
      }
    }
  }

  /** A term of a prefix of non-negative values is at most the prefix sum. */
  lemma {:induction false} SumPrefixAtLeast(values: seq<int>, k: nat, j: nat)
    requires j < k <= |values| && forall i :: 0 <= i < k ==> values[i] >= 0
    ensures values[j] <= SumPrefix(values, k)
    decreases k
  {
    SumPrefixNonNegative(values, k - 1);
    if j < k - 1 {
      SumPrefixAtLeast(values, k - 1, j);
    }
  }

  /** Checking each buffer on its own does not protect the final gap: two
      buffers that are each valid, one read for channel 0 and the other for
      the rest, make the last alarm of the frame negative, and the timer is
      given 2^64 - 19300. */
  lemma MidFrameRewriteWraps()
    ensures var a := [20000, 300, 300, 300, 300, 300, 300, 300];
      var b := [300, 20000, 300, 300, 300, 300, 300, 300];
      var buffers := [a, a] + seq(2 * PPM_CHANNELS - 2, _ => b);
      && ValidChannels(a) && ValidChannels(b) && Buffers(buffers) && |buffers| == 2 * PPM_CHANNELS
      && RunEach(Frame(Pulse, 0, 0, 0), buffers).1[2 * PPM_CHANNELS - 1] == -19300
      && ToUint64(RunEach(Frame(Pulse, 0, 0, 0), buffers).1[2 * PPM_CHANNELS - 1]) == UINT64_LIMIT - 19300
  {
    var a := [20000, 300, 300, 300, 300, 300, 300, 300];
    var b := [300, 20000, 300, 300, 300, 300, 300, 300];
    var buffers := [a, a] + seq(2 * PPM_CHANNELS - 2, _ => b);
    assert SumPrefix(a, 1) == 20000 && SumPrefix(a, 4) == 20900 && SumPrefix(a, 7) == 21800;
    assert SumPrefix(b, 2) == 20300 && SumPrefix(b, 5) == 21200 && SumPrefix(b, 7) == 21800;
    assert Buffers(buffers) by {
      forall i | 0 <= i < |buffers|
        ensures |buffers[i]| == PPM_CHANNELS
      {
        if i >= 2 { assert buffers[i] == b; }
      }
    }
    var read := FrameReads(buffers);
    assert read[0] == 20000;
    forall j | 1 <= j < PPM_CHANNELS
      ensures read[j] == b[j]
    {
      assert buffers[2 * j + 1] == b;
    }
    var c := [20000, 20000, 300, 300, 300, 300, 300, 300];
    assert read == c;
    assert SumPrefix(c, 2) == 40000 && SumPrefix(c, 5) == 40900 && SumPrefix(c, 7) == 41500;
    FrameEachAlarms(buffers, Frame(Pulse, 0, 0, 0));
  }

  /** One frame from its start: sixteen expiries (eight pulses, seven channel
      fills and the final gap) program exactly the frame alarms, whose sum is
      `PPM_FRAME_LENGTH` whatever the channel values, and end at the start of
      the next frame. */
  lemma FrameLength(values: seq<int>, f: Frame)
    requires |values| == PPM_CHANNELS && FrameStart(f)
    ensures var r := Run(f, values, 2 * PPM_CHANNELS);
      && FrameStart(r.0) && r.0.output == 0
      && Sum(r.1) == PPM_FRAME_LENGTH
      && forall i :: 0 <= i < 2 * PPM_CHANNELS ==> r.1[i] == FrameAlarm(values, i)
  {
    RestOfFrame(values, 0, f.output, 0);
    RestOfFrameSum(values, 0, f.output, 0);
  }

  /** The first expiry after boot finds IDLE, resets the frame and takes the
      PULSE branch in the same call. */
  lemma FirstExpiry(f: Frame, values: seq<int>)
    requires |values| == PPM_CHANNELS && f.channel < PPM_CHANNELS && f.state == Idle
    ensures Fire(f, values) == Firing(Frame(Fill, 0, 1, PPM_PULSE_LENGTH), PPM_PULSE_LENGTH)
  {
  }

  /** The first frame after boot is a whole frame too: from the boot state,
      sixteen expiries behave as from a frame start. */
  lemma BootFrame(values: seq<int>)
    requires |values| == PPM_CHANNELS
    ensures Run(BOOT_FRAME, values, 2 * PPM_CHANNELS) == Run(Frame(Pulse, 0, 0, 0), values, 2 * PPM_CHANNELS)
    ensures Sum(Run(BOOT_FRAME, values, 2 * PPM_CHANNELS).1) == PPM_FRAME_LENGTH
  {
    assert Fire(BOOT_FRAME, values) == Fire(Frame(Pulse, 0, 0, 0), values);
    FrameLength(values, Frame(Pulse, 0, 0, 0));
  }

  /** A PULSE expiry: output high, a pulse-long alarm, the pulse added to the
      used length, FILL next. */
  lemma PulseExpiry(f: Frame, values: seq<int>)
    requires |values| == PPM_CHANNELS && f.channel < PPM_CHANNELS && f.state == Pulse
    ensures Fire(f, values) ==
      Firing(Frame(Fill, f.channel, 1, f.used + PPM_PULSE_LENGTH), PPM_PULSE_LENGTH)
  {
  }

  /** A FILL expiry before the last channel: output low, the channel's value
      minus the pulse as the alarm and as the growth of the used length, the
      next channel's PULSE next. */
  lemma FillExpiry(f: Frame, values: seq<int>)
    requires |values| == PPM_CHANNELS && f.channel < PPM_CHANNELS - 1 && f.state == Fill
    ensures var v := values[f.channel];
      Fire(f, values) == Firing(Frame(Pulse, f.channel + 1, 0, f.used + (v - PPM_PULSE_LENGTH)), v - PPM_PULSE_LENGTH)
  {
  }

  /** The FILL of the last channel: the rest of the frame as the alarm, and a
      new frame next. */
  lemma FinalFillExpiry(f: Frame, values: seq<int>)
    requires |values| == PPM_CHANNELS && f.channel == PPM_CHANNELS - 1 && f.state == Fill
    ensures Fire(f, values) == Firing(Frame(Pulse, 0, 0, 0), PPM_FRAME_LENGTH - f.used)
  {
  }

  /** Each of the first seven slots, pulse plus fill, lasts its channel value. */
  lemma SlotWidth(values: seq<int>, i: nat)
    requires |values| == PPM_CHANNELS && i < PPM_CHANNELS - 1
    ensures FrameAlarm(values, 2 * i) + FrameAlarm(values, 2 * i + 1) == values[i]
  {
  }

  /** Every alarm of a frame is non-negative exactly when the channels are
      valid. */
  lemma AlarmsNonNegative(values: seq<int>)
    requires |values| == PPM_CHANNELS
    ensures (forall i :: 0 <= i < 2 * PPM_CHANNELS ==> FrameAlarm(values, i) >= 0) <==> ValidChannels(values)
  {
    if forall i :: 0 <= i < 2 * PPM_CHANNELS ==> FrameAlarm(values, i) >= 0 {
      forall k | 0 <= k < PPM_CHANNELS - 1
        ensures values[k] >= PPM_PULSE_LENGTH
      {
        assert FrameAlarm(values, 2 * k + 1) >= 0;
      }
      assert FrameAlarm(values, 2 * PPM_CHANNELS - 1) >= 0;
    }
  }

  /** With valid 16-bit channel values every alarm reaches the timer as
      written; the `uint64_t` conversion does not wrap. */
  lemma ValidAlarmsDoNotWrap(values: seq<uint16>, i: nat)
    requires |values| == PPM_CHANNELS && i < 2 * PPM_CHANNELS && ValidChannels(values)
    ensures ToUint64(FrameAlarm(values, i)) == FrameAlarm(values, i)
  {
    AlarmsNonNegative(values);
    SumPrefixNonNegative(values, PPM_CHANNELS - 1);
  }

  lemma {:induction false} SumPrefixNonNegative(values: seq<int>, k: nat)
    requires k <= |values| && forall i :: 0 <= i < k ==> values[i] >= 0
    ensures SumPrefix(values, k) >= 0
  {
    if k > 0 {
      SumPrefixNonNegative(values, k - 1);
    }
  }

  /** A channel value shorter than a pulse makes the FILL alarm negative,
      and the conversion to `uint64_t` turns it into a huge count. */
  lemma ShortChannelWraps(f: Frame, values: seq<uint16>)
    requires |values| == PPM_CHANNELS && f.state == Fill && f.channel < PPM_CHANNELS - 1
    requires values[f.channel] < PPM_PULSE_LENGTH
    ensures ToUint64(Fire(f, values).alarm) == UINT64_LIMIT - (PPM_PULSE_LENGTH - values[f.channel])
  {
  }

  /** `channelValue[7]` is read but never changes anything: any run is the
      same whatever it holds. */
  lemma {:induction false} LastChannelIgnored(f: Frame, values: seq<int>, x: int, n: nat)
    requires |values| == PPM_CHANNELS && f.channel < PPM_CHANNELS
    ensures Run(f, values[PPM_CHANNELS - 1 := x], n) == Run(f, values, n)
    decreases n
  {
    var other := values[PPM_CHANNELS - 1 := x];
    if n > 0 {
      assert Fire(f, other) == Fire(f, values);
      LastChannelIgnored(Fire(f, values).next, values, x, n - 1);
    }
  }

  /** With every channel at the default 1500, the channels are valid, each
      of the first seven slots is 300 high and 1200 low, and the gap after
      the eighth pulse is 11700. */
  lemma DefaultFrame()
    ensures var values := seq(PPM_CHANNELS, _ => DEFAULT_CHANNEL_VALUE as int);
      && ValidChannels(values)
      && (forall i :: 0 <= i < PPM_CHANNELS - 1 ==> FrameAlarm(values, 2 * i + 1) == 1200)
      && FrameAlarm(values, 2 * PPM_CHANNELS - 1) == 11700
  {
    var values := seq(PPM_CHANNELS, _ => DEFAULT_CHANNEL_VALUE as int);
    UniformPrefix(values, DEFAULT_CHANNEL_VALUE as int, PPM_CHANNELS - 1);
  }

  lemma {:induction false} UniformPrefix(values: seq<int>, c: int, k: nat)
    requires k <= |values| && forall i :: 0 <= i < |values| ==> values[i] == c
    ensures SumPrefix(values, k) == c * k
  {
    if k > 0 {
      UniformPrefix(values, c, k - 1);
    }
  }
}
