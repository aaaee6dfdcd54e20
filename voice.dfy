// A voice of the audio renderer (app/src/main/cpp/skyline/services/audren/voice.cpp):
// the per-update input that acquires or releases it and selects its wave
// buffers, the loading of the current wave buffer into the sample buffer
// (with the mono to multi-channel up-mix), and the playback cursor that
// hands out samples and moves through the four wave buffers.
//
// Guest memory and the resampler are outside the model: the samples a
// reload reads and what the resampler makes of them are parameters. The
// output sample rate and channel count of the audio backend are the
// voice's constants.

module AudioVoice {
  import opened Wrappers
  import opened Common

  /** A 16-bit PCM sample. */
  type i16 = x: int | -0x8000 <= x < 0x8000

  datatype PcmFormat = Int16 | OtherPcm(raw: nat)
  datatype PlaybackState = Started | Stopped | Paused

  /** A wave buffer: where its samples are in guest memory and how many
      bytes, whether it repeats, and whether it ends the stream. */
  datatype WaveBuffer = WaveBuffer(position: u64, size: nat, looping: bool, lastBuffer: bool)

  /** A voice has four wave buffers. */
  const WaveBufferCount: nat := 4

  /** What the guest sends for the voice in an update. The volume, a float, is not modelled. */
  datatype VoiceIn = VoiceIn(acquired: bool, firstUpdate: bool, pcmFormat: PcmFormat, sampleRate: u32,
                             channelCount: u32, baseWaveBufferIndex: u32, waveBuffers: seq<WaveBuffer>,
                             playbackState: PlaybackState)

  /** The counters reported back to the guest. */
  datatype VoiceOut = VoiceOut(playedSamplesCount: int, playedWaveBuffersCount: int, voiceDropsCount: int)

  /** `index & 3`: the wave buffer an index selects. */
  function WaveBufferIndex(index: u32): (r: nat)
    ensures r < WaveBufferCount && r == index % 4
  {
    BitAndLowMask(index, 2);
    assert Pow2(2) == 4;
    BitAnd(index, 3)
  }

  /** C++ division of ints, which truncates toward zero. */
  function DivTrunc(a: int, b: nat): (q: int)
    requires b > 0
    ensures a >= 0 ==> q == a / b
    ensures a < 0 ==> q == -((-a) / b)
  {
    if a >= 0 then a / b else -((-a) / b)
  }

  // ---------------------------------------------------------------------------
  // The mono up-mix
  // ---------------------------------------------------------------------------

  /** n copies of a sample: one frame of an up-mixed sample. */
  function Repeat(x: i16, n: nat): seq<i16>
  {
    seq(n, _ => x)
  }

  /** The up-mix as intended: every mono sample becomes a frame of c copies of it. */
  function UpMixed(mono: seq<i16>, c: nat): (r: seq<i16>)
    ensures |r| == |mono| * c
    decreases |mono|
  {
    if mono == [] then [] else Repeat(mono[0], c) + UpMixed(mono[1..], c)
  }

  /** Frame k of the up-mixed buffer, the c samples from k * c on, all hold mono sample k. */
  lemma {:induction false} UpMixedFrame(mono: seq<i16>, c: nat, k: nat)
    requires k < |mono|
    ensures k * c + c <= |UpMixed(mono, c)|
    ensures UpMixed(mono, c)[k * c..k * c + c] == Repeat(mono[k], c)
    decreases k
  {
    MulMonotone(k + 1, |mono|, c);
    if k > 0 {
      UpMixedFrame(mono[1..], c, k - 1);
      var t := UpMixed(mono[1..], c);
      assert k * c == c + (k - 1) * c;
      assert UpMixed(mono, c)[k * c..k * c + c] == t[(k - 1) * c..(k - 1) * c + c];
    }
  }

  /** Taking the first channel of every frame gives the mono samples back. */
  lemma UpMixedFirstChannel(mono: seq<i16>, c: nat)
    requires c > 0
    ensures forall k :: 0 <= k < |mono| ==> k * c < |UpMixed(mono, c)| && UpMixed(mono, c)[k * c] == mono[k]
  {
    forall k | 0 <= k < |mono| ensures k * c < |UpMixed(mono, c)| && UpMixed(mono, c)[k * c] == mono[k] {
      UpMixedFrame(mono, c, k);
      assert UpMixed(mono, c)[k * c..k * c + c][0] == mono[k];
    }
  }

  /** `sampleBuffer.resize(size)`: the added samples are zero. */
  function Resized(s: seq<i16>, size: nat): (r: seq<i16>)
    requires |s| <= size
    ensures |r| == size && r[..|s|] == s
    ensures forall p :: |s| <= p < size ==> r[p] == 0
  {
    s + seq(size - |s|, _ => 0)
  }

  lemma AtLeastOnce(n: nat, c: nat)
    requires c > 0
    ensures n <= n * c
  {
    MulMonotone(1, c, n);
  }

  /** Stepping back one frame of c slots from `end == (f + 1) * c`. */
  lemma NextFrame(f: nat, c: nat, end: nat)
    requires c > 0 && end == (f + 1) * c
    ensures f < end && c <= end && end - c == f * c
  {
    AtLeastOnce(f + 1, c);
  }

  /** The up-mix as written: the loop stops before frame 0, so frame 0 keeps
      the first c samples of the resized buffer (the first mono samples, then
      zeros); the other frames are as intended. */
  function UpMixedAsWritten(mono: seq<i16>, c: nat): (r: seq<i16>)
    requires |mono| > 0 && c > 0
    ensures |r| == |mono| * c
  {
    AtLeastOnce(|mono|, c);
    Resized(mono, |mono| * c)[..c] + UpMixed(mono[1..], c)
  }

  /** Only frame 0 differs from the intended up-mix, and it differs exactly
      when it is not c copies of the first sample. */
  lemma UpMixAsWrittenDiffersInFrameZero(mono: seq<i16>, c: nat)
    requires |mono| > 0 && c > 0
    ensures UpMixedAsWritten(mono, c)[c..] == UpMixed(mono, c)[c..]
    ensures UpMixedAsWritten(mono, c) == UpMixed(mono, c) <==>
              UpMixedAsWritten(mono, c)[..c] == Repeat(mono[0], c)
  {
    var w, u := UpMixedAsWritten(mono, c), UpMixed(mono, c);
    assert w[c..] == UpMixed(mono[1..], c) == u[c..];
    assert u[..c] == Repeat(mono[0], c);
    assert w == w[..c] + w[c..] && u == u[..c] + u[c..];
  }

  /** Two mono samples a, b on two channels: as written the frames are
      (a, b), (b, b); as intended (a, a), (b, b). */
  lemma UpMixAsWrittenDuplicatesSecondSample()
    ensures UpMixedAsWritten([1, 2], 2) == [1, 2, 2, 2]
    ensures UpMixed([1, 2], 2) == [1, 1, 2, 2]
  {
    assert UpMixed([2], 2) == [2, 2] by { assert [2][1..] == []; }
    assert [1, 2][1..] == [2];
    assert Resized([1, 2], 4)[..2] == [1, 2];
  }

  /** The mono index the up-mix loop starts from as written, `originalSize - 1`
      computed as a size_t. */
  function FirstMonoIndexAsWritten(originalSize: nat): (k: u64)
    requires originalSize < U64_MODULUS
    ensures originalSize > 0 ==> k == originalSize - 1
    ensures originalSize == 0 ==> k == U64_MODULUS - 1
  {
    Wrap64(originalSize - 1)
  }

  /** A one-byte wave buffer holds `1 / sizeof(i16)`, no sample, so the loop as
      written starts from mono index 2^64 - 1, which passes `monoIndex > 0` and
      lies past the end of the empty buffer it reads. */
  lemma OneByteWaveBufferIndexesPastEnd(c: nat)
    requires c >= 2
    ensures var originalSize := 1 / 2;
            var k := FirstMonoIndexAsWritten(originalSize);
            originalSize == 0 && k > 0 && k >= originalSize * c
  {
  }

  /** Writing x in front of the copies of x already written, at the end of the untouched prefix. */
  lemma WriteBeforeCopies(a: seq<i16>, t: nat, x: i16, i: nat, rest: seq<i16>)
    requires 0 < t <= |a|
    ensures (a[..t] + Repeat(x, i) + rest)[t - 1 := x] == a[..t - 1] + Repeat(x, i + 1) + rest
  {
    var lhs := (a[..t] + Repeat(x, i) + rest)[t - 1 := x];
    var rhs := a[..t - 1] + Repeat(x, i + 1) + rest;
    assert |lhs| == |rhs|;
    forall p | 0 <= p < |lhs| ensures lhs[p] == rhs[p] {
      if p < t - 1 {
      } else if p < t + i {
      } else {
        assert lhs[p] == rest[p - t - i];
      }
    }
  }

  /** One more frame in front of an up-mixed suffix. */
  lemma UpMixedSuffixStep(mono: seq<i16>, c: nat, f: nat)
    requires f < |mono|
    ensures UpMixed(mono[f..], c) == Repeat(mono[f], c) + UpMixed(mono[f + 1..], c)
  {
    assert mono[f..][1..] == mono[f + 1..];
  }
  // ---------------------------------------------------------------------------
  // Loading a wave buffer
  // ---------------------------------------------------------------------------

  /** The bytes the reload copies from guest memory, as written: the wave
      buffer's whole size, into a buffer of size / 2 samples. */
  function BytesReadAsWritten(size: nat): (n: nat)
    ensures n == size
  {
    size
  }

  /** An odd-sized wave buffer overruns the sample buffer by one byte. */
  lemma OddSizeOverrunsSampleBuffer(size: nat)
    requires size % 2 == 1
    ensures BytesReadAsWritten(size) == 2 * (size / 2) + 1
  {
  }

  /** The bytes the reload can copy: the whole samples that fit. */
  function BytesRead(size: nat): (n: nat)
    ensures n <= size && size - n < 2 && n % 2 == 0
    ensures n / 2 == size / 2
  {
    2 * (size / 2)
  }

  /** What `UpdateBuffers` makes of the current wave buffer: an empty one
      leaves the sample buffer as it was; a format other than Int16 throws;
      otherwise the samples read from guest memory, or the resampler's output
      when the voice's rate differs from the output rate, up-mixed when the
      voice is mono and the output is not. */
  function Reload(previous: seq<i16>, size: nat, format: PcmFormat, rate: u32, channels: u32,
                  outputRate: u32, c: nat, read: seq<i16>, resampled: seq<i16>): (r: Result<seq<i16>>)
    ensures r.Err? <==> size > 0 && format != Int16
    ensures size == 0 ==> r == Ok(previous)
    ensures r.Ok? && size > 0 && rate == outputRate && channels != 1 ==> r.value == read
    ensures r.Ok? && size > 0 && rate != outputRate && (channels != 1 || c == 1) ==> r.value == resampled
    ensures r.Ok? && size > 0 && channels == 1 && c != 1 ==>
              r.value == UpMixed(if rate == outputRate then read else resampled, c)
  {
    if size == 0 then Ok(previous)
    else if format != Int16 then Err("Unsupported voice PCM format")
    else
      var samples := if rate != outputRate then resampled else read;
      Ok(if channels == 1 && c != channels then UpMixed(samples, c) else samples)
  }

  /** A mono voice at the output rate loads one frame per sample read, each
      frame holding that sample on every output channel. */
  lemma ReloadedMonoFrames(previous: seq<i16>, size: nat, rate: u32, c: nat, read: seq<i16>, resampled: seq<i16>, k: nat)
    requires size > 0 && c > 1 && k < |read|
    ensures var r := Reload(previous, size, Int16, rate, 1, rate, c, read, resampled);
            && r.Ok? && |r.value| == |read| * c && k * c + c <= |r.value|
            && r.value[k * c..k * c + c] == Repeat(read[k], c)
  {
    UpMixedFrame(read, c, k);
  }

  // ---------------------------------------------------------------------------
  // Playback
  // ---------------------------------------------------------------------------

  /** `std::min(maxSamples * channels, available)`: the samples one call hands out. */
  function Take(maxSamples: int, channels: nat, available: int): (n: int)
    ensures n <= maxSamples * channels && n <= available
    ensures n == maxSamples * channels || n == available
  {
    if maxSamples * channels < available then maxSamples * channels else available
  }

  /** One `GetBufferData` step on a sample buffer of `length` samples read
      from `offset`: the samples handed out, the next offset, and whether the
      buffer was finished (the offset then returns to 0). */
  function Play(offset: int, length: int, maxSamples: int, c: nat): (p: (int, int, bool))
    ensures p.0 == Take(maxSamples, c, length - offset)
    ensures p.2 <==> offset + p.0 == length
    ensures p.1 == if p.2 then 0 else offset + p.0
  {
    var n := Take(maxSamples, c, length - offset);
    (n, if offset + n == length then 0 else offset + n, offset + n == length)
  }

  /** Within the buffer and with room for at least one frame, a step hands
      out at least one sample, stays within the buffer, and finishes it
      exactly when what was left fits. */
  lemma PlayStaysInBuffer(offset: int, length: int, maxSamples: int, c: nat)
    requires 0 <= offset < length && maxSamples > 0 && c > 0
    ensures var p := Play(offset, length, maxSamples, c);
            && 0 < p.0 <= maxSamples * c && 0 <= p.1 < length
            && (p.2 <==> length - offset <= maxSamples * c)
  {
    MulMonotone(1, maxSamples, c);
  }

  /** The amounts handed out by steps from `offset` until the buffer is finished. */
  function Delivered(offset: nat, length: nat, maxSamples: nat, c: nat): seq<nat>
    requires offset <= length && maxSamples > 0 && c > 0
    decreases length - offset
  {
    if offset == length then []
    else
      PlayStaysInBuffer(offset, length, maxSamples, c);
      var n := Play(offset, length, maxSamples, c).0;
      [n] + Delivered(offset + n, length, maxSamples, c)
  }

  function Sum(s: seq<nat>): nat {
    if s == [] then 0 else s[0] + Sum(s[1..])
  }

  /** The cursor hands out every sample of the buffer exactly once: the
      amounts add up to what was left, and none exceeds maxSamples frames. */
  lemma {:induction false} DeliveredCoversBuffer(offset: nat, length: nat, maxSamples: nat, c: nat)
    requires offset <= length && maxSamples > 0 && c > 0
    ensures Sum(Delivered(offset, length, maxSamples, c)) == length - offset
    ensures forall i :: 0 <= i < |Delivered(offset, length, maxSamples, c)| ==>
              0 < Delivered(offset, length, maxSamples, c)[i] <= maxSamples * c
    decreases length - offset
  {
    if offset != length {
      PlayStaysInBuffer(offset, length, maxSamples, c);
      var n := Play(offset, length, maxSamples, c).0;
      DeliveredCoversBuffer(offset + n, length, maxSamples, c);
    }
  }

  /** The result of a `GetBufferData` call: the offset it reports (not
      written when the voice is not playing) and the number of samples. */
  datatype BufferData = BufferData(outOffset: Option<int>, outSize: int)

  /** An audio renderer voice. */
  class Voice {
    /** The backend's output sample rate and channel count. */
    const outputSampleRate: u32
    const outputChannelCount: nat

    var acquired: bool
    var bufferReload: bool
    var bufferIndex: nat
    var sampleOffset: int
    var playbackState: PlaybackState
    var pcmFormat: PcmFormat
    var sampleRate: u32
    var channelCount: u32
    var waveBuffers: seq<WaveBuffer>
    var output: VoiceOut
    var sampleBuffer: seq<i16>

    predicate Valid()
      reads this
    {
      |waveBuffers| == WaveBufferCount && bufferIndex < WaveBufferCount && outputChannelCount > 0
    }

    /** A voice starts released, at wave buffer 0, with nothing played. */
    constructor (outputSampleRate: u32, outputChannelCount: nat)
      requires outputChannelCount > 0
      ensures Valid() && this.outputSampleRate == outputSampleRate && this.outputChannelCount == outputChannelCount
      ensures !acquired && bufferReload && bufferIndex == 0 && sampleOffset == 0
      ensures playbackState == Stopped && output == VoiceOut(0, 0, 0) && sampleBuffer == []
    {
      this.outputSampleRate := outputSampleRate;
      this.outputChannelCount := outputChannelCount;
      acquired := false;
      bufferReload := true;
      bufferIndex := 0;
      sampleOffset := 0;
      playbackState := Stopped;
      pcmFormat := Int16;
      sampleRate := outputSampleRate;
      channelCount := 1;
      waveBuffers := seq(WaveBufferCount, _ => WaveBuffer(0, 0, false, false));
      output := VoiceOut(0, 0, 0);
      sampleBuffer := [];
    }

    /** `SetWaveBufferIndex`: selects buffer `index & 3` and marks it for loading. */
    method SetWaveBufferIndex(index: u32)
      requires Valid()
      modifies this
      ensures Valid()
      ensures bufferIndex == WaveBufferIndex(index) && bufferReload
      ensures acquired == old(acquired) && sampleOffset == old(sampleOffset) && playbackState == old(playbackState)
      ensures pcmFormat == old(pcmFormat) && sampleRate == old(sampleRate) && channelCount == old(channelCount)
      ensures waveBuffers == old(waveBuffers) && output == old(output) && sampleBuffer == old(sampleBuffer)
    {
      bufferIndex := WaveBufferIndex(index);
      bufferReload := true;
    }

    /** `ProcessInput`. A voice the guest releases is reset: reload, buffer
        0, offset 0, counters zero. A voice not acquired stops there. On the
        first update a format other than Int16 throws, then more than two
        channels throws (after the format and rate were stored); otherwise
        the channel count and the base wave buffer are taken. Every update
        of an acquired voice takes the wave buffers and the playback state. */
    method ProcessInput(input: VoiceIn) returns (r: Result<()>)
      requires Valid() && |input.waveBuffers| == WaveBufferCount
      modifies this
      ensures Valid()
      ensures acquired == input.acquired
      ensures var released := old(acquired) && !input.acquired;
              && (released ==> sampleOffset == 0 && output == VoiceOut(0, 0, 0))
              && (!released ==> sampleOffset == old(sampleOffset) && output == old(output))
      ensures !input.acquired ==>
                && r.Ok?
                && bufferIndex == (if old(acquired) then 0 else old(bufferIndex))
                && bufferReload == (old(acquired) || old(bufferReload))
                && playbackState == old(playbackState) && waveBuffers == old(waveBuffers)
                && pcmFormat == old(pcmFormat) && sampleRate == old(sampleRate) && channelCount == old(channelCount)
      ensures input.acquired && input.firstUpdate ==>
                && (r.Ok? <==> input.pcmFormat == Int16 && input.channelCount <= 2)
                && (input.pcmFormat == Int16 ==> pcmFormat == Int16 && sampleRate == input.sampleRate)
                && (r.Ok? ==> channelCount == input.channelCount && bufferIndex == WaveBufferIndex(input.baseWaveBufferIndex)
                              && bufferReload)
      ensures input.acquired && !input.firstUpdate ==>
                && r.Ok? && bufferIndex == old(bufferIndex) && bufferReload == old(bufferReload)
                && pcmFormat == old(pcmFormat) && sampleRate == old(sampleRate) && channelCount == old(channelCount)
      ensures input.acquired && r.Ok? ==> waveBuffers == input.waveBuffers && playbackState == input.playbackState
      ensures sampleBuffer == old(sampleBuffer)
    {
      if acquired && !input.acquired {
        bufferReload := true;
        bufferIndex := 0;
        sampleOffset := 0;
        output := VoiceOut(0, 0, 0);
      }
      acquired := input.acquired;
      if !acquired {
        return Ok(());
      }
      if input.firstUpdate {
        if input.pcmFormat != Int16 {
          return Err("Unsupported voice PCM format");
        }
        pcmFormat := input.pcmFormat;
        sampleRate := input.sampleRate;
        if input.channelCount > 2 {
          return Err("Unsupported voice channel count");
        }
        channelCount := input.channelCount;
        SetWaveBufferIndex(input.baseWaveBufferIndex);
      }
      waveBuffers := input.waveBuffers;
      playbackState := input.playbackState;
      r := Ok(());
    }

    /** `UpdateBuffers`: loads the current wave buffer into the sample
        buffer. `read` stands for the samples guest memory holds at the wave
        buffer's position, as many whole samples as its size holds
        (`BytesRead`), and `resampled` for what the resampler returns for
        them; neither is modelled further. */
    method UpdateBuffers(read: seq<i16>, resampled: seq<i16>) returns (r: Result<()>)
      requires Valid() && |read| == BytesRead(waveBuffers[bufferIndex].size) / 2
      modifies this
      ensures Valid()
      ensures var loaded := Reload(old(sampleBuffer), waveBuffers[bufferIndex].size, pcmFormat, sampleRate,
                                   channelCount, outputSampleRate, outputChannelCount, read, resampled);
              && (r.Ok? <==> loaded.Ok?)
              && sampleBuffer == (if loaded.Ok? then loaded.value else old(sampleBuffer))
      ensures acquired == old(acquired) && bufferReload == old(bufferReload) && bufferIndex == old(bufferIndex)
      ensures sampleOffset == old(sampleOffset) && playbackState == old(playbackState) && pcmFormat == old(pcmFormat)
      ensures sampleRate == old(sampleRate) && channelCount == old(channelCount)
      ensures waveBuffers == old(waveBuffers) && output == old(output)
    {
      var currentBuffer := waveBuffers[bufferIndex];
      if currentBuffer.size == 0 {
        return Ok(());
      }
      if pcmFormat != Int16 {
        return Err("Unsupported voice PCM format");
      }
      sampleBuffer := read;
      if sampleRate != outputSampleRate {
        sampleBuffer := resampled;
      }
      if channelCount == 1 && outputChannelCount != channelCount {
        UpMix();
      }
      r := Ok(());
    }

    /** `GetBufferData`: hands out up to `maxSamples` frames from the
        sample buffer. A voice that is not acquired or not started hands out
        nothing and leaves the offset unwritten. Otherwise a pending reload
        runs first; the samples from the current offset on are handed out
        and counted; when the buffer is finished the offset returns to 0,
        the last buffer pauses the voice, a non-looping buffer moves to the
        next one, and the buffer is counted as played. */
    method GetBufferData(maxSamples: int, read: seq<i16>, resampled: seq<i16>) returns (r: Result<BufferData>)
      requires Valid() && |read| == BytesRead(waveBuffers[bufferIndex].size) / 2
      modifies this
      ensures Valid()
      ensures !old(acquired) || old(playbackState) != Started ==>
                r == Ok(BufferData(None, 0)) && sampleBuffer == old(sampleBuffer) && sampleOffset == old(sampleOffset)
                && bufferIndex == old(bufferIndex) && bufferReload == old(bufferReload)
                && playbackState == old(playbackState) && output == old(output)
      ensures old(acquired) && old(playbackState) == Started ==>
                var current := old(waveBuffers)[old(bufferIndex)];
                var loaded := Reload(old(sampleBuffer), current.size, pcmFormat, sampleRate, channelCount,
                                     outputSampleRate, outputChannelCount, read, resampled);
                if old(bufferReload) && loaded.Err? then
                  r.Err? && !bufferReload && sampleBuffer == old(sampleBuffer) && sampleOffset == old(sampleOffset)
                else
                  && sampleBuffer == (if old(bufferReload) then loaded.value else old(sampleBuffer))
                  && var (n, next, finished) := Play(old(sampleOffset), |sampleBuffer|, maxSamples, outputChannelCount);
                  && r == Ok(BufferData(Some(old(sampleOffset)), n))
                  && sampleOffset == next
                  && output.playedSamplesCount == old(output.playedSamplesCount) + DivTrunc(n, outputChannelCount)
                  && output.playedWaveBuffersCount == old(output.playedWaveBuffersCount) + (if finished then 1 else 0)
                  && output.voiceDropsCount == old(output.voiceDropsCount)
                  && playbackState == (if finished && current.lastBuffer then Paused else old(playbackState))
                  && bufferIndex == (if finished && !current.looping then (old(bufferIndex) + 1) % 4 else old(bufferIndex))
                  && bufferReload == (finished && !current.looping)
      ensures acquired == old(acquired) && waveBuffers == old(waveBuffers)
      ensures pcmFormat == old(pcmFormat) && sampleRate == old(sampleRate) && channelCount == old(channelCount)
    {
      var currentBuffer := waveBuffers[bufferIndex];
      if !acquired || playbackState != Started {
        return Ok(BufferData(None, 0));
      }
      if bufferReload {
        bufferReload := false;
        var loaded := UpdateBuffers(read, resampled);
        if loaded.Err? {
          return Err(loaded.message);
        }
      }
      var outOffset := sampleOffset;
      var outSize := PlayStep(maxSamples);
      r := Ok(BufferData(Some(outOffset), outSize));
    }

    /** The part of `GetBufferData` past the reload: hands out what `Play`
        allows from the current offset, counts it, and on finishing the
        buffer returns to offset 0, pauses after the last buffer, moves past
        a non-looping one and counts the buffer as played. */
    method PlayStep(maxSamples: int) returns (outSize: int)
      requires Valid()
      modifies this
      ensures Valid()
      ensures var current := old(waveBuffers)[old(bufferIndex)];
              var (n, next, finished) := Play(old(sampleOffset), |sampleBuffer|, maxSamples, outputChannelCount);
              && outSize == n && sampleOffset == next
              && output.playedSamplesCount == old(output.playedSamplesCount) + DivTrunc(n, outputChannelCount)
              && output.playedWaveBuffersCount == old(output.playedWaveBuffersCount) + (if finished then 1 else 0)
              && output.voiceDropsCount == old(output.voiceDropsCount)
              && playbackState == (if finished && current.lastBuffer then Paused else old(playbackState))
              && bufferIndex == (if finished && !current.looping then (old(bufferIndex) + 1) % 4 else old(bufferIndex))
              && bufferReload == (if finished && !current.looping then true else old(bufferReload))
      ensures acquired == old(acquired) && waveBuffers == old(waveBuffers) && sampleBuffer == old(sampleBuffer)
      ensures pcmFormat == old(pcmFormat) && sampleRate == old(sampleRate) && channelCount == old(channelCount)
    {
      var currentBuffer := waveBuffers[bufferIndex];
      outSize := Take(maxSamples, outputChannelCount, |sampleBuffer| - sampleOffset);
      output := output.(playedSamplesCount := output.playedSamplesCount + DivTrunc(outSize, outputChannelCount));
      sampleOffset := sampleOffset + outSize;
      if sampleOffset == |sampleBuffer| {
        sampleOffset := 0;
        if currentBuffer.lastBuffer {
          playbackState := Paused;
        }
        if !currentBuffer.looping {
          SetWaveBufferIndex(bufferIndex + 1);
        }
        output := output.(playedWaveBuffersCount := output.playedWaveBuffersCount + 1);
      }
    }

    /** The up-mix loop as written: from the last mono sample down to sample
        1, each is copied into every slot of its frame, back to front. On an
        empty buffer the first index wraps (`FirstMonoIndexAsWritten`) and the
        loop reads and writes out of bounds: the model answers an error and
        leaves the buffer empty. */
    method UpMixAsWritten() returns (r: Result<()>)
      requires Valid() && outputChannelCount >= 2
      modifies this`sampleBuffer
      ensures r.Err? <==> |old(sampleBuffer)| == 0
      ensures r.Err? ==> sampleBuffer == old(sampleBuffer) == []
      ensures r.Ok? ==> sampleBuffer == UpMixedAsWritten(old(sampleBuffer), outputChannelCount)
    {
      if |sampleBuffer| == 0 {
        return Err("up-mix of an empty buffer indexes out of bounds");
      }
      r := Ok(());
      var c := outputChannelCount;
      var mono := sampleBuffer;
      var originalSize := |sampleBuffer|;
      AtLeastOnce(originalSize, c);
      sampleBuffer := Resized(sampleBuffer, originalSize * c);
      ghost var resized := sampleBuffer;
      var monoIndex := originalSize - 1;
      var targetIndex := |sampleBuffer|;
      assert sampleBuffer == resized[..targetIndex] + UpMixed(mono[monoIndex + 1..], c);
      while monoIndex > 0
        invariant 0 <= monoIndex < originalSize && targetIndex == (monoIndex + 1) * c
        invariant targetIndex <= |resized|
        invariant sampleBuffer == resized[..targetIndex] + UpMixed(mono[monoIndex + 1..], c)
      {
        MulMonotone(2, c, monoIndex);
        NextFrame(monoIndex, c, targetIndex);
        assert resized[monoIndex] == mono[monoIndex] by { assert resized[..originalSize] == mono; }
        ghost var rest := UpMixed(mono[monoIndex + 1..], c);
        FillFrameFrom(monoIndex, resized, targetIndex, rest);
        targetIndex := targetIndex - c;
        UpMixedSuffixStep(mono, c, monoIndex);
        assert sampleBuffer == resized[..targetIndex] + (Repeat(mono[monoIndex], c) + rest);
        monoIndex := monoIndex - 1;
      }
    }

    /** The up-mix as intended: every mono sample, frame 0 included, is
        copied into every slot of its frame, back to front. */
    method UpMix()
      requires Valid()
      modifies this`sampleBuffer
      ensures sampleBuffer == UpMixed(old(sampleBuffer), outputChannelCount)
    {
      var c := outputChannelCount;
      var mono := sampleBuffer;
      var originalSize := |sampleBuffer|;
      AtLeastOnce(originalSize, c);
      sampleBuffer := Resized(sampleBuffer, originalSize * c);
      ghost var resized := sampleBuffer;
      var frames := originalSize;
      var targetIndex := |sampleBuffer|;
      assert sampleBuffer == resized[..targetIndex] + UpMixed(mono[frames..], c);
      while frames > 0
        invariant 0 <= frames <= originalSize && targetIndex == frames * c
        invariant targetIndex <= |resized|
        invariant sampleBuffer == resized[..targetIndex] + UpMixed(mono[frames..], c)
      {
        frames := frames - 1;
        NextFrame(frames, c, targetIndex);
        var sample := sampleBuffer[frames];
        assert sample == mono[frames] by {
          assert sampleBuffer[frames] == resized[..targetIndex][frames] == resized[..originalSize][frames];
        }
        FillFrame(sample, resized, targetIndex, UpMixed(mono[frames + 1..], c));
        targetIndex := targetIndex - c;
        UpMixedSuffixStep(mono, c, frames);
      }
    }

    /** Copies slot `src` into the c slots in front of `end`, back to front,
        reading it again for every slot; `src` lies before those slots, so
        every copy is of the same sample. */
    method FillFrameFrom(src: nat, ghost prefix: seq<i16>, end: nat, ghost rest: seq<i16>)
      requires Valid() && src < end - outputChannelCount && outputChannelCount <= end <= |prefix|
      requires sampleBuffer == prefix[..end] + rest
      modifies this`sampleBuffer
      ensures sampleBuffer == prefix[..end - outputChannelCount] + Repeat(prefix[src], outputChannelCount) + rest
    {
      var targetIndex := end;
      var i := 0;
      while i < outputChannelCount
        invariant 0 <= i <= outputChannelCount && targetIndex == end - i
        invariant sampleBuffer == prefix[..targetIndex] + Repeat(prefix[src], i) + rest
      {
        WriteBeforeCopies(prefix, targetIndex, prefix[src], i, rest);
        targetIndex := targetIndex - 1;
        sampleBuffer := sampleBuffer[targetIndex := sampleBuffer[src]];
        i := i + 1;
      }
    }

    /** Writes `x` into the c slots in front of `end`, back to front. */
    method FillFrame(x: i16, ghost prefix: seq<i16>, end: nat, ghost rest: seq<i16>)
      requires Valid() && outputChannelCount <= end <= |prefix|
      requires sampleBuffer == prefix[..end] + rest
      modifies this`sampleBuffer
      ensures sampleBuffer == prefix[..end - outputChannelCount] + Repeat(x, outputChannelCount) + rest
    {
      var targetIndex := end;
      var i := 0;
      while i < outputChannelCount
        invariant 0 <= i <= outputChannelCount && targetIndex == end - i
        invariant sampleBuffer == prefix[..targetIndex] + Repeat(x, i) + rest
      {
        WriteBeforeCopies(prefix, targetIndex, x, i, rest);
        targetIndex := targetIndex - 1;
        sampleBuffer := sampleBuffer[targetIndex := x];
        i := i + 1;
      }
    }
  }
}
