/** What one pass of the receive loop of `udp_server_task` (main/main.c)
    does to the shared channel buffer and the failsafe counter: the
    datagram is split with `strtok` on the delimiter set "rptymag", the
    tokens are converted and stored in order from channel 0, and a timeout
    advances the failsafe counter, which forces channels 2 and 4 once it
    reaches its threshold. */
module ChannelUpdate {
  import opened CTypes

  datatype Option<T> = None | Some(value: T)

  const DELIMITERS: string := "rptymag"
  const CHANNELS: nat := 8
  /** Consecutive timeouts after which the failsafe values are applied. */
  const FAILSAFE_LIMIT: int := 50
  const FAILSAFE_CHANNEL_LOW: nat := 2
  const FAILSAFE_VALUE_LOW: uint16 := 1000
  const FAILSAFE_CHANNEL_HIGH: nat := 4
  const FAILSAFE_VALUE_HIGH: uint16 := 2000

  /** The delimiters are exactly the characters of the `delim` string. */
  function IsDelimiter(c: char): (b: bool)
    ensures b <==> c in DELIMITERS
  {
    c == 'r' || c == 'p' || c == 't' || c == 'y' || c == 'm' || c == 'a' || c == 'g'
  }

  /** `strspn(s + from, delim)`, as an index. */
  function SkipDelimiters(s: string, from: nat): (r: nat)
    requires from <= |s|
    ensures from <= r <= |s|
    ensures r < |s| ==> !IsDelimiter(s[r])
    decreases |s| - from
  {
    if from < |s| && IsDelimiter(s[from]) then SkipDelimiters(s, from + 1) else from
  }

  /** Everything `strspn` skips is a delimiter. */
  lemma {:induction false} SkipDelimitersSpan(s: string, from: nat)
    requires from <= |s|
    ensures forall i :: from <= i < SkipDelimiters(s, from) ==> IsDelimiter(s[i])
    decreases |s| - from
  {
    if from < |s| && IsDelimiter(s[from]) {
      SkipDelimitersSpan(s, from + 1);
    }
  }

  /** `strcspn(s + from, delim)`, as an index: the end of the token. */
  function TokenEnd(s: string, from: nat): (r: nat)
    requires from <= |s|
    ensures from <= r <= |s|
    ensures r < |s| ==> IsDelimiter(s[r])
    decreases |s| - from
  {
    if from < |s| && !IsDelimiter(s[from]) then TokenEnd(s, from + 1) else from
  }

  /** Nothing `strcspn` spans is a delimiter. */
  lemma {:induction false} TokenEndSpan(s: string, from: nat)
    requires from <= |s|
    ensures forall i :: from <= i < TokenEnd(s, from) ==> !IsDelimiter(s[i])
    decreases |s| - from
  {
    if from < |s| && !IsDelimiter(s[from]) {
      TokenEndSpan(s, from + 1);
    }
  }

  /** A token and where `strtok` resumes after it: past the delimiter it
      overwrote with a terminator, or at the end of the string. */
  datatype Token = Token(text: string, resume: nat)

  /** One call of `strtok` that continues at index `from`: a non-empty
      token that starts past the delimiters at `from`, or `None` (a null
      pointer). */
  function NextToken(s: string, from: nat): (r: Option<Token>)
    requires from <= |s|
    ensures r.Some? ==> from < r.value.resume <= |s| && |r.value.text| > 0
  {
    var start := SkipDelimiters(s, from);
    if start == |s| then None
    else
      var end := TokenEnd(s, start);
      Some(Token(s[start..end], if end < |s| then end + 1 else end))
  }

  /** `strtok` returns a null pointer exactly when only delimiters are
      left, and a token never contains a delimiter. */
  lemma NextTokenMeaning(s: string, from: nat)
    requires from <= |s|
    ensures var r := NextToken(s, from);
      && (r.None? <==> forall i :: from <= i < |s| ==> IsDelimiter(s[i]))
      && (r.Some? ==> forall i :: 0 <= i < |r.value.text| ==> !IsDelimiter(r.value.text[i]))
  {
    var start := SkipDelimiters(s, from);
    SkipDelimitersSpan(s, from);
    if start < |s| {
      var end := TokenEnd(s, start);
      TokenEndSpan(s, start);
      assert forall i :: 0 <= i < end - start ==> s[start..end][i] == s[start + i];
    }
  }

  /** What repeated `strtok(NULL, delim)` calls return from index `from`
      until the null pointer; there are at most as many as characters left. */
  function TokensFrom(s: string, from: nat): (r: seq<string>)
    requires from <= |s|
    ensures |r| <= |s| - from
    decreases |s| - from
  {
    match NextToken(s, from)
    case None => []
    case Some(t) => [t.text] + TokensFrom(s, t.resume)
  }

  /** A token as `strtok` returns it: non-empty and free of delimiters. */
  predicate Clean(t: string)
  {
    |t| > 0 && forall i :: 0 <= i < |t| ==> !IsDelimiter(t[i])
  }

  /** Every token is clean. */
  lemma {:induction false} TokensAreClean(s: string, from: nat)
    requires from <= |s|
    ensures forall k :: 0 <= k < |TokensFrom(s, from)| ==> Clean(TokensFrom(s, from)[k])
    decreases |s| - from
  {
    var r := NextToken(s, from);
    if r.Some? {
      var all := TokensFrom(s, from);
      var rest := TokensFrom(s, r.value.resume);
      assert all == [r.value.text] + rest;
      NextTokenMeaning(s, from);
      TokensAreClean(s, r.value.resume);
      forall k | 0 <= k < |all|
        ensures Clean(all[k])
      {
        if k == 0 {
          assert all[0] == r.value.text;
        } else {
          assert all[k] == rest[k - 1];
        }
      }
    }
  }

  /** A `strtok` call that returns a token consumes the head of the
      remaining tokens. */
  lemma NextTokenStep(s: string, from: nat, tokens: seq<string>, i: nat)
    requires from <= |s| && NextToken(s, from).Some?
    requires i <= |tokens| && TokensFrom(s, from) == tokens[i..]
    ensures var t := NextToken(s, from).value;
      && i < |tokens| && tokens[i] == t.text
      && t.resume <= |s| && TokensFrom(s, t.resume) == tokens[i + 1..]
  {
  }

  /** The tokens of a whole string. */
  function Tokens(s: string): (r: seq<string>)
    ensures |r| <= |s|
  {
    TokensFrom(s, 0)
  }

  /** Reference splitting, one character at a time: the fields of
      `s[from..]` between delimiters, empty ones included. */
  function SplitFrom(s: string, from: nat): (r: seq<string>)
    requires from <= |s|
    ensures |r| > 0
    decreases |s| - from
  {
    if from == |s| then [[]]
    else
      var rest := SplitFrom(s, from + 1);
      if IsDelimiter(s[from]) then [[]] + rest else [[s[from]] + rest[0]] + rest[1..]
  }

  function NonEmpty(fields: seq<string>): seq<string>
  {
    if fields == [] then []
    else if fields[0] == [] then NonEmpty(fields[1..])
    else [fields[0]] + NonEmpty(fields[1..])
  }

  lemma NonEmptyCons(field: string, rest: seq<string>)
    ensures NonEmpty([field] + rest) == if field == [] then NonEmpty(rest) else [field] + NonEmpty(rest)
  {
    assert ([field] + rest)[1..] == rest;
  }

  /** A non-delimiter in front of a field joins that field. */
  lemma ExtendField(s: string, from: nat, end: nat, later: seq<string>)
    requires from < end <= |s| && !IsDelimiter(s[from])
    requires SplitFrom(s, from + 1) == [s[from + 1..end]] + later
    ensures SplitFrom(s, from) == [s[from..end]] + later
  {
    var rest := SplitFrom(s, from + 1);
    assert rest[0] == s[from + 1..end] && rest[1..] == later;
    assert [s[from]] + s[from + 1..end] == s[from..end];
  }

  /** The first field from `from` runs to `TokenEnd`, and the remaining
      fields are those after the delimiter there. */
  lemma {:induction false} SplitFirstField(s: string, from: nat)
    requires from <= |s|
    ensures var end := TokenEnd(s, from);
      SplitFrom(s, from) == [s[from..end]] + (if end < |s| then SplitFrom(s, end + 1) else [])
    decreases |s| - from
  {
    var end := TokenEnd(s, from);
    if from < |s| && !IsDelimiter(s[from]) {
      assert TokenEnd(s, from + 1) == end;
      SplitFirstField(s, from + 1);
      ExtendField(s, from, end, if end < |s| then SplitFrom(s, end + 1) else []);
    } else {
      assert s[from..end] == [];
    }
  }

  /** A leading delimiter is skipped by `strtok` and opens an empty field. */
  lemma SkipLeadingDelimiter(s: string, from: nat)
    requires from < |s| && IsDelimiter(s[from])
    ensures TokensFrom(s, from) == TokensFrom(s, from + 1)
    ensures NonEmpty(SplitFrom(s, from)) == NonEmpty(SplitFrom(s, from + 1))
  {
    assert SkipDelimiters(s, from) == SkipDelimiters(s, from + 1);
    assert SplitFrom(s, from) == [[]] + SplitFrom(s, from + 1);
    NonEmptyCons([], SplitFrom(s, from + 1));
  }

  /** A token that ends at a delimiter is the first non-empty field;
      `strtok` resumes past that delimiter. */
  lemma TakeToken(s: string, from: nat, end: nat)
    requires from < |s| && !IsDelimiter(s[from]) && end == TokenEnd(s, from) && end < |s|
    requires TokensFrom(s, end + 1) == NonEmpty(SplitFrom(s, end + 1))
    ensures TokensFrom(s, from) == NonEmpty(SplitFrom(s, from))
  {
    SplitFirstField(s, from);
    NonEmptyCons(s[from..end], SplitFrom(s, end + 1));
    assert NextToken(s, from) == Some(Token(s[from..end], end + 1));
  }

  /** A token that runs to the end of the string is the last field. */
  lemma TakeLastToken(s: string, from: nat)
    requires from < |s| && !IsDelimiter(s[from]) && TokenEnd(s, from) == |s|
    ensures TokensFrom(s, from) == NonEmpty(SplitFrom(s, from))
  {
    SplitFirstField(s, from);
    NonEmptyCons(s[from..|s|], []);
    assert SkipDelimiters(s, from) == from;
    assert NextToken(s, from) == Some(Token(s[from..|s|], |s|));
    assert NextToken(s, |s|) == None;
  }

  /** `strtok` yields exactly the non-empty fields between delimiters. */
  lemma {:induction false} TokensAreNonEmptyFields(s: string, from: nat)
    requires from <= |s|
    ensures TokensFrom(s, from) == NonEmpty(SplitFrom(s, from))
    decreases |s| - from
  {
    if from == |s| {
      assert NextToken(s, from) == None;
    } else if IsDelimiter(s[from]) {
      SkipLeadingDelimiter(s, from);
      TokensAreNonEmptyFields(s, from + 1);
    } else {
      var end := TokenEnd(s, from);
      if end < |s| {
        TokensAreNonEmptyFields(s, end + 1);
        TakeToken(s, from, end);
      } else {
        TakeLastToken(s, from);
      }
    }
  }

  /** The tokens of a datagram are its non-empty fields. */
  lemma TokensOfDatagram(s: string)
    ensures Tokens(s) == NonEmpty(SplitFrom(s, 0))
  {
    TokensAreNonEmptyFields(s, 0);
  }

  /** The converted tokens, in order; `toValue` stands for `atof` followed
      by the conversion to `uint16_t`. */
  function Values(tokens: seq<string>, toValue: string -> uint16): (r: seq<uint16>)
    ensures |r| == |tokens|
  {
    seq(|tokens|, i requires 0 <= i < |tokens| => toValue(tokens[i]))
  }

  /** The channel buffer and `failsafe_count` as the receive loop sees them. */
  datatype Receiver = Receiver(channels: seq<uint16>, failsafeCount: int)

  /** The first `|values|` channels overwritten, in order; the others keep
      their values. */
  function Store(channels: seq<uint16>, values: seq<uint16>): (r: seq<uint16>)
    requires |values| <= |channels|
    ensures |r| == |channels|
    ensures forall k :: 0 <= k < |values| ==> r[k] == values[k]
    ensures forall k :: |values| <= k < |channels| ==> r[k] == channels[k]
  {
    values + channels[|values|..]
  }

  /** A receive that timed out: the counter advances and, from the
      threshold on, channel 4 is forced to 2000, channel 2 to 1000, and the
      counter is clamped. */
  function Timeout(rx: Receiver): (r: Receiver)
    requires |rx.channels| == CHANNELS
    ensures |r.channels| == CHANNELS
    ensures r.failsafeCount == Min(rx.failsafeCount + 1, FAILSAFE_LIMIT)
    ensures r.failsafeCount == FAILSAFE_LIMIT ==>
      r.channels[FAILSAFE_CHANNEL_LOW] == FAILSAFE_VALUE_LOW && r.channels[FAILSAFE_CHANNEL_HIGH] == FAILSAFE_VALUE_HIGH
  {
    var count := rx.failsafeCount + 1;
    if count >= FAILSAFE_LIMIT then
      Receiver(rx.channels[FAILSAFE_CHANNEL_HIGH := FAILSAFE_VALUE_HIGH][FAILSAFE_CHANNEL_LOW := FAILSAFE_VALUE_LOW],
               FAILSAFE_LIMIT)
    else
      Receiver(rx.channels, count)
  }

  /** One pass of the receive loop with `len` the result of `recvfrom` and
      `text` the string `strtok` scans. Only a datagram with at least one
      token resets the counter; the code stores tokens without a bound, so
      at most `CHANNELS` of them are allowed. */
  function Cycle(rx: Receiver, len: int, text: string, toValue: string -> uint16): (r: Receiver)
    requires |rx.channels| == CHANNELS && (len > 0 ==> |Tokens(text)| <= CHANNELS)
    ensures |r.channels| == CHANNELS
    ensures len <= 0 ==> r.failsafeCount == Min(rx.failsafeCount + 1, FAILSAFE_LIMIT)
    ensures len > 0 && |Tokens(text)| == CHANNELS ==> r.channels == Values(Tokens(text), toValue)
  {
    if len > 0 then
      var tokens := Tokens(text);
      Receiver(Store(rx.channels, Values(tokens, toValue)), if |tokens| > 0 then 0 else rx.failsafeCount)
    else
      Timeout(rx)
  }

  /** A received datagram: token `k` goes to channel `k`, the channels past
      the last token keep their values, and the counter is reset exactly
      when there was a token. */
  lemma ReceiveStoresTokens(rx: Receiver, len: int, text: string, toValue: string -> uint16)
    requires |rx.channels| == CHANNELS && len > 0 && |Tokens(text)| <= CHANNELS
    ensures var r := Cycle(rx, len, text, toValue);
      var tokens := Tokens(text);
      && |r.channels| == CHANNELS
      && (forall k :: 0 <= k < |tokens| ==> r.channels[k] == toValue(tokens[k]))
      && (forall k :: |tokens| <= k < CHANNELS ==> r.channels[k] == rx.channels[k])
      && (r.failsafeCount == 0 <==> |tokens| > 0 || rx.failsafeCount == 0)
      && (|tokens| == 0 ==> r == rx)
  {
    var tokens := Tokens(text);
    var r := Cycle(rx, len, text, toValue);
    forall k | 0 <= k < |tokens|
      ensures r.channels[k] == toValue(tokens[k])
    {
      assert r.channels[k] == Values(tokens, toValue)[k];
    }
    if |tokens| == 0 {
      assert r.channels == rx.channels;
    }
  }

  /** Storing one more value writes just its channel. */
  lemma StoreNext(channels: seq<uint16>, tokens: seq<string>, toValue: string -> uint16, i: nat)
    requires i < |tokens| && i < |channels|
    ensures Store(channels, Values(tokens[..i + 1], toValue)) ==
            Store(channels, Values(tokens[..i], toValue))[i := toValue(tokens[i])]
  {
  }

  /** A timeout changes only channels 2 and 4, and those only from the
      threshold on. */
  lemma TimeoutChangesOnlyFailsafeChannels(rx: Receiver, k: nat)
    requires |rx.channels| == CHANNELS && k < CHANNELS
    ensures var r := Timeout(rx);
      && |r.channels| == CHANNELS
      && (k != FAILSAFE_CHANNEL_LOW && k != FAILSAFE_CHANNEL_HIGH ==> r.channels[k] == rx.channels[k])
      && (rx.failsafeCount + 1 < FAILSAFE_LIMIT ==> r.channels == rx.channels)
  {
  }

  /** `n` consecutive timeouts. */
  function Timeouts(rx: Receiver, n: nat): (r: Receiver)
    requires |rx.channels| == CHANNELS
    ensures |r.channels| == CHANNELS
    decreases n
  {
    if n == 0 then rx else Timeouts(Timeout(rx), n - 1)
  }

  function Min(a: int, b: int): int
  {
    if a <= b then a else b
  }

  /** The failsafe engages after exactly enough consecutive timeouts: the
      counter counts up to 50 and stays there; below the threshold the
      channels are untouched, and from it on channels 2 and 4 hold the
      failsafe values while every other channel keeps its value. */
  lemma {:induction false} ConsecutiveTimeouts(rx: Receiver, n: nat)
    requires |rx.channels| == CHANNELS && 0 <= rx.failsafeCount <= FAILSAFE_LIMIT
    ensures var r := Timeouts(rx, n);
      && r.failsafeCount == Min(rx.failsafeCount + n, FAILSAFE_LIMIT)
      && (rx.failsafeCount + n < FAILSAFE_LIMIT ==> r.channels == rx.channels)
      && (n > 0 && rx.failsafeCount + n >= FAILSAFE_LIMIT ==>
            && r.channels[FAILSAFE_CHANNEL_LOW] == FAILSAFE_VALUE_LOW
            && r.channels[FAILSAFE_CHANNEL_HIGH] == FAILSAFE_VALUE_HIGH)
      && (forall k :: 0 <= k < CHANNELS && k != FAILSAFE_CHANNEL_LOW && k != FAILSAFE_CHANNEL_HIGH ==>
            r.channels[k] == rx.channels[k])
    decreases n
  {
    if n > 0 {
      var next := Timeout(rx);
      ConsecutiveTimeouts(next, n - 1);
      if rx.failsafeCount + 1 >= FAILSAFE_LIMIT && n > 1 {
        // already engaged: later timeouts write the same values again
        ForcedStaysForced(next, n - 1);
      }
    }
  }

  /** Once the failsafe values are in place and the counter is clamped,
      further timeouts leave the receiver as it is. */
  lemma {:induction false} ForcedStaysForced(rx: Receiver, n: nat)
    requires |rx.channels| == CHANNELS && rx.failsafeCount == FAILSAFE_LIMIT
    requires rx.channels[FAILSAFE_CHANNEL_LOW] == FAILSAFE_VALUE_LOW
    requires rx.channels[FAILSAFE_CHANNEL_HIGH] == FAILSAFE_VALUE_HIGH
    ensures Timeouts(rx, n) == rx
    decreases n
  {
    if n > 0 {
      assert Timeout(rx).channels == rx.channels;
      ForcedStaysForced(rx, n - 1);
    }
  }

  /** Every pass keeps the counter within `[0, 50]`. */
  lemma CycleKeepsCountInRange(rx: Receiver, len: int, text: string, toValue: string -> uint16)
    requires |rx.channels| == CHANNELS && (len > 0 ==> |Tokens(text)| <= CHANNELS)
    requires 0 <= rx.failsafeCount <= FAILSAFE_LIMIT
    ensures var r := Cycle(rx, len, text, toValue);
      |r.channels| == CHANNELS && 0 <= r.failsafeCount <= FAILSAFE_LIMIT
  {
  }

  /** A full datagram after the failsafe restores every channel from the
      data and re-arms the counter. */
  lemma FullDatagramReleasesFailsafe(rx: Receiver, len: int, text: string, toValue: string -> uint16)
    requires |rx.channels| == CHANNELS && len > 0 && |Tokens(text)| == CHANNELS
    ensures var r := Cycle(rx, len, text, toValue);
      r == Receiver(Values(Tokens(text), toValue), 0)
  {
    assert Store(rx.channels, Values(Tokens(text), toValue)) == Values(Tokens(text), toValue);
  }
}
