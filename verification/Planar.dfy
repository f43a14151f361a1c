/** Channel-major buffers: channel `c` of a buffer with `frames` frames per channel starts at c * frames. */
module Planar {

  function At(channel: nat, frames: nat, frame: nat): nat { channel * frames + frame }

  lemma InRange(channels: nat, frames: nat, channel: nat, frame: nat)
    requires channel < channels && frame < frames
    ensures At(channel, frames, frame) < channels * frames
  {
    assert (channel + 1) * frames <= channels * frames;
  }

  lemma AllInRange(channels: nat, frames: nat)
    ensures forall c: nat, f: nat | c < channels && f < frames :: At(c, frames, f) < channels * frames
  {
    forall c: nat, f: nat | c < channels && f < frames ensures At(c, frames, f) < channels * frames {
      InRange(channels, frames, c, f);
    }
  }

  /** Two different (channel, frame) pairs never share a slot. */
  lemma Distinct(frames: nat, c: nat, f: nat, d: nat, g: nat)
    requires f < frames && g < frames && (c != d || f != g)
    ensures At(c, frames, f) != At(d, frames, g)
  {
    if c < d {
      assert (c + 1) * frames <= d * frames;
    } else if d < c {
      assert (d + 1) * frames <= c * frames;
    }
  }

  lemma AllDistinctFrom(frames: nat, c: nat, f: nat)
    requires f < frames
    ensures forall d: nat, g: nat | g < frames && (c != d || f != g) :: At(c, frames, f) != At(d, frames, g)
  {
    forall d: nat, g: nat | g < frames && (c != d || f != g)
      ensures At(c, frames, f) != At(d, frames, g)
    {
      Distinct(frames, c, f, d, g);
    }
  }

  /** One channel of a planar buffer. */
  function Channel(planar: seq<real>, channels: nat, frames: nat, c: nat): (xs: seq<real>)
    requires |planar| == channels * frames && c < channels
    ensures |xs| == frames
    ensures forall f | 0 <= f < frames :: At(c, frames, f) < |planar| && xs[f] == planar[At(c, frames, f)]
  {
    AllInRange(channels, frames);
    seq(frames, f requires 0 <= f < frames => planar[At(c, frames, f)])
  }

  function Channels(planar: seq<real>, channels: nat, frames: nat): (xs: seq<seq<real>>)
    requires |planar| == channels * frames
    ensures |xs| == channels && forall c | 0 <= c < channels :: xs[c] == Channel(planar, channels, frames, c)
  {
    seq(channels, c requires 0 <= c < channels => Channel(planar, channels, frames, c))
  }
}
