/** The receive loop of `udp_server_task` (main/main.c) after `recvfrom`:
    the `strtok` loop that writes the shared `channelValue` array and the
    failsafe counter update on a timeout. */
module UdpServer {
  import opened CTypes
  import opened ChannelUpdate

  class ServerTask {
    /** The global `channelValue`, shared with the PPM generator. */
    const channelValue: array<uint16>
    /** `failsafe_count`. */
    var failsafeCount: int

    ghost predicate Valid()
      reads this
    {
      channelValue.Length == CHANNELS
    }

    function State(): Receiver
      reads this, channelValue
    {
      Receiver(channelValue[..], failsafeCount)
    }

    /** The task as it enters its loop: the counter starts at zero. */
    constructor (channelValue: array<uint16>)
      requires channelValue.Length == CHANNELS
      ensures Valid() && this.channelValue == channelValue && failsafeCount == 0
    {
      this.channelValue := channelValue;
      failsafeCount := 0;
    }

    /** The `len <= 0` arm: count the timeout and, from the threshold on,
        force the failsafe channels and clamp the counter. */
    method CountTimeout()
      requires Valid()
      modifies this, channelValue
      ensures Valid() && State() == Timeout(old(State()))
    {
      failsafeCount := failsafeCount + 1;
      if failsafeCount >= FAILSAFE_LIMIT {
        channelValue[FAILSAFE_CHANNEL_HIGH] := FAILSAFE_VALUE_HIGH;
        channelValue[FAILSAFE_CHANNEL_LOW] := FAILSAFE_VALUE_LOW;
        failsafeCount := FAILSAFE_LIMIT;
      }
    }

    /** The `strtok` loop: on a datagram (`len > 0`) token `k` of `text`,
        converted by `toValue` (`atof` followed by the conversion to
        `uint16_t`), is stored in channel `k` and each stored token resets
        the counter; on a timeout nothing is stored. The stores index the
        array without a bound check, so a datagram has at most `CHANNELS`
        tokens. */
    method StoreTokens(len: int, text: string, toValue: string -> uint16)
      requires Valid()
      requires len > 0 ==> |Tokens(text)| <= CHANNELS
      modifies this, channelValue
      ensures Valid()
      ensures State() ==
        if len > 0 then
          Receiver(Store(old(channelValue[..]), Values(Tokens(text), toValue)),
                   if |Tokens(text)| > 0 then 0 else old(failsafeCount))
        else old(State())
    {
      ghost var tokens := Tokens(text);
      // `resume` is where strtok's saved pointer points
      var resume: nat := 0;
      var ptr := NextToken(text, resume);
      var i: nat := 0;
      if len <= 0 {
        // the loop guard fails at once
        return;
      }
      while ptr.Some? && len > 0
        invariant resume <= |text| && ptr == NextToken(text, resume)
        invariant i <= |tokens| && TokensFrom(text, resume) == tokens[i..]
        invariant len > 0 && i <= CHANNELS
        invariant channelValue[..] == Store(old(channelValue[..]), Values(tokens[..i], toValue))
        invariant failsafeCount == if i > 0 then 0 else old(failsafeCount)
        decreases |text| - resume
      {
        NextTokenStep(text, resume, tokens, i);
        StoreNext(old(channelValue[..]), tokens, toValue, i);
        channelValue[i] := toValue(ptr.value.text);
        resume := ptr.value.resume;
        ptr := NextToken(text, resume);
        failsafeCount := 0;
        i := i + 1;
      }
      assert tokens[..i] == tokens;
    }

    /** One pass of the inner loop once `recvfrom` has returned `len` and
        the buffer holds the string `text`: the tokens are stored, and a
        timeout is counted. On a datagram the buffer is then NUL-terminated,
        which only the next `strtok` sees. */
    method ReceiveCycle(len: int, text: string, toValue: string -> uint16)
      requires Valid()
      requires len > 0 ==> |Tokens(text)| <= CHANNELS
      modifies this, channelValue
      ensures Valid() && State() == Cycle(old(State()), len, text, toValue)
    {
      StoreTokens(len, text, toValue);
      if len <= 0 {
        CountTimeout();
      }
    }
  }
}
