// Opening an audio output (app/src/main/cpp/skyline/services/audio/IAudioOutManager.cpp):
// the requested sample rate and channel count, defaulted when zero, and
// the reply describing the opened output.
//
// The default rate and channel count and the numeric values of the Int16
// sample format and of the Stopped state are declared in headers that are
// not part of this model; they are the fields of `AudioConstants`.

module AudioOut {
  import opened Common

  datatype AudioConstants = AudioConstants(sampleRate: u32, channelCount: u16, int16Format: u32, stoppedState: u32)

  /** The defaults are real values: a nonzero rate and channel count. */
  predicate ValidConstants(c: AudioConstants) {
    c.sampleRate != 0 && c.channelCount != 0
  }

  /** The reply: rate, channel count, a zero u16, the sample format and the state. */
  datatype OpenReply = OpenReply(sampleRate: u32, channelCount: u16, reserved: u16, format: u32, state: u32)

  /** `OpenAudioOut`: the channel count is popped as a u32 and truncated to
      16 bits; then a zero rate and a zero channel count take the defaults.
      The output opens with these values, as 16-bit samples, stopped. */
  function OpenAudioOut(c: AudioConstants, requestedRate: u32, requestedChannels: u32): (r: OpenReply)
    ensures r.sampleRate == if requestedRate == 0 then c.sampleRate else requestedRate
    ensures var truncated := requestedChannels % U16_MODULUS;
            r.channelCount == if truncated == 0 then c.channelCount else truncated
    ensures r.reserved == 0 && r.format == c.int16Format && r.state == c.stoppedState
    ensures ValidConstants(c) ==> r.sampleRate != 0 && r.channelCount != 0
  {
    var truncated := Wrap16(requestedChannels);
    var rate := if requestedRate != 0 then requestedRate else c.sampleRate;
    var channels := if truncated != 0 then truncated else c.channelCount;
    OpenReply(rate, channels, 0, c.int16Format, c.stoppedState)
  }

  /** Asking again for what the reply granted gets the same reply: the
      defaulting is idempotent. */
  lemma OpenAudioOutIsIdempotent(c: AudioConstants, requestedRate: u32, requestedChannels: u32)
    requires ValidConstants(c)
    ensures var r := OpenAudioOut(c, requestedRate, requestedChannels);
            OpenAudioOut(c, r.sampleRate, r.channelCount) == r
  {
  }

  /** A channel count that is a nonzero multiple of 2^16 truncates to zero
      and so gets the default, like a request for zero channels. */
  lemma WideChannelCountGetsDefault(c: AudioConstants, requestedRate: u32, k: nat)
    requires 0 < k < U16_MODULUS
    ensures OpenAudioOut(c, requestedRate, k * U16_MODULUS).channelCount == c.channelCount
    ensures OpenAudioOut(c, requestedRate, k * U16_MODULUS) == OpenAudioOut(c, requestedRate, 0)
  {
    assert (k * U16_MODULUS) % U16_MODULUS == 0;
  }

  /** The reply as pushed: the five fields in order, 16 bytes. */
  function ReplyBytes(r: OpenReply): (b: seq<u8>)
    ensures |b| == 16
  {
    LeBytes(r.sampleRate, 4) + LeBytes(r.channelCount, 2) + LeBytes(r.reserved, 2)
      + LeBytes(r.format, 4) + LeBytes(r.state, 4)
  }

  /** Reading the pushed bytes field by field gives back the reply. */
  lemma ReplyBytesReadBack(r: OpenReply)
    ensures var b := ReplyBytes(r);
            && LittleEndian(b[0..4]) == r.sampleRate && LittleEndian(b[4..6]) == r.channelCount
            && LittleEndian(b[6..8]) == r.reserved && LittleEndian(b[8..12]) == r.format
            && LittleEndian(b[12..16]) == r.state
  {
    var rate, channels, reserved := LeBytes(r.sampleRate, 4), LeBytes(r.channelCount, 2), LeBytes(r.reserved, 2);
    var format, state := LeBytes(r.format, 4), LeBytes(r.state, 4);
    Middle(rate + channels + reserved, format, state);
    Middle(rate + channels, reserved, format + state);
    Middle(rate, channels, reserved + (format + state));
    Middle([], rate, channels + (reserved + (format + state)));
    Middle(rate + channels + reserved + format, state, []);
    var b := ReplyBytes(r);
    assert b[0..4] == rate;
    assert b[4..6] == channels;
    assert b[6..8] == reserved;
    assert b[8..12] == format;
    assert b[12..16] == state;
    Pow2Value32();
    assert Pow2(16) == U16_MODULUS by { assert Pow2(8) == 0x100; Pow2Add(8, 8); }
    LeBytesRoundTrip(r.sampleRate, 4);
    LeBytesRoundTrip(r.channelCount, 2);
    LeBytesRoundTrip(r.reserved, 2);
    LeBytesRoundTrip(r.format, 4);
    LeBytesRoundTrip(r.state, 4);
  }
}
