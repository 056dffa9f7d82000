/**
 The blobs of the lava lamp: their creation from the terminal size and
 random draws, and their straight-line motion from one frame to the next.
 */
module Blobs {

  /** A two-component vector of single-precision coordinates, taken here as reals. */
  datatype Vec2 = Vec2(x: real, y: real)

  /** One metaball: its centre in cell coordinates and its displacement per frame. */
  datatype Blob = Blob(x: real, y: real, velocity: Vec2)

  /** Terminal cells per blob: the blob count is the screen area divided by this, truncated. */
  const DENSITY: real := 300.0
  /** Scale applied to the unit-range random velocity components. */
  const VELOCITY: real := 2.0

  /**
   The four random values drawn for one blob, in the order they are drawn:
   two uniform fractions for the position and two uniform values for the velocity.
   */
  datatype Sample = Sample(px: real, py: real, vx: real, vy: real)

  /** The ranges the random generator promises: fractions in [0, 1), velocity components in [-1, 1). */
  predicate InRange(s: Sample)
  {
    0.0 <= s.px < 1.0 && 0.0 <= s.py < 1.0 && -1.0 <= s.vx < 1.0 && -1.0 <= s.vy < 1.0
  }

  /** A blob whose centre lies on a `width` x `height` screen and whose speed per axis is below VELOCITY. */
  predicate InBounds(b: Blob, width: nat, height: nat)
  {
    0.0 <= b.x < width as real && 0.0 <= b.y < height as real &&
    -VELOCITY <= b.velocity.x < VELOCITY && -VELOCITY <= b.velocity.y < VELOCITY
  }

  /** How many blobs a `width` x `height` screen gets: the area over DENSITY, truncated towards zero. */
  function BlobCount(width: nat, height: nat): nat
  {
    ((width * height) as real / DENSITY).Floor
  }

  /** The truncated real quotient is the integer quotient of the area by 300. */
  lemma BlobCountIsQuotient(width: nat, height: nat)
    ensures BlobCount(width, height) == (width * height) / 300
  {
    var area := width * height;
    var q, r := area / 300, area % 300;
    assert area as real == 300.0 * q as real + r as real;
    assert q as real <= area as real / DENSITY < q as real + 1.0;
  }

  /** A screen gets a blob only if it has at least DENSITY cells, so neither side is empty. */
  lemma BlobCountNeedsArea(width: nat, height: nat)
    requires BlobCount(width, height) > 0
    ensures width * height >= 300 && width > 0 && height > 0
  {
    BlobCountIsQuotient(width, height);
  }

  /** The blob built from one random sample: position scaled to the screen, velocity scaled by VELOCITY. */
  function FromSample(s: Sample, width: nat, height: nat): Blob
  {
    Blob(s.px * width as real, s.py * height as real, Vec2(s.vx * VELOCITY, s.vy * VELOCITY))
  }

  /** A fraction in [0, 1) of a positive extent lies in [0, extent). */
  lemma {:induction false} ScaledFractionBelow(u: real, extent: nat, scaled: real)
    requires 0.0 <= u < 1.0 && extent > 0
    requires scaled == u * extent as real
    ensures 0.0 <= scaled < extent as real
  {
    if extent > 1 {
      var smaller := u * (extent - 1) as real;
      ScaledFractionBelow(u, extent - 1, smaller);
      assert scaled == smaller + u;
    } else {
      assert scaled == u;
    }
  }

  /** A sample in range on a screen with both sides non-empty gives a blob on the screen. */
  lemma FromSampleInBounds(s: Sample, width: nat, height: nat)
    requires InRange(s) && width > 0 && height > 0
    ensures InBounds(FromSample(s, width, height), width, height)
  {
    var b := FromSample(s, width, height);
    ScaledFractionBelow(s.px, width, b.x);
    ScaledFractionBelow(s.py, height, b.y);
  }

  /**
   Creates the blobs for a `width` x `height` screen, one per random sample, in
   order. The random generator is replaced by `samples`, the values it would draw.
   */
  method GenBlobs(width: nat, height: nat, samples: seq<Sample>) returns (blobs: seq<Blob>)
    requires |samples| >= BlobCount(width, height)
    requires forall k :: 0 <= k < BlobCount(width, height) ==> InRange(samples[k])
    ensures |blobs| == BlobCount(width, height)
    ensures forall k :: 0 <= k < |blobs| ==> blobs[k] == FromSample(samples[k], width, height)
    ensures forall k :: 0 <= k < |blobs| ==> InBounds(blobs[k], width, height)
  {
    var count := BlobCount(width, height);
    if count > 0 {
      BlobCountNeedsArea(width, height);
    }
    blobs := [];
    for i := 0 to count
      invariant |blobs| == i
      invariant forall k :: 0 <= k < i ==> blobs[k] == FromSample(samples[k], width, height)
      invariant forall k :: 0 <= k < i ==> InBounds(blobs[k], width, height)
    {
      var temp := FromSample(samples[i], width, height);
      FromSampleInBounds(samples[i], width, height);
      blobs := blobs + [temp];
    }
  }

  /** A blob one frame later: moved by its velocity, velocity unchanged. */
  function Tick(b: Blob): Blob
  {
    b.(x := b.x + b.velocity.x, y := b.y + b.velocity.y)
  }

  /** A blob `n` frames later. */
  function Ticks(b: Blob, n: nat): Blob
  {
    if n == 0 then b else Tick(Ticks(b, n - 1))
  }

  /** After `n` frames a blob has kept its velocity and travelled `n` times it along each axis. */
  lemma {:induction false} TicksTravel(b: Blob, n: nat)
    ensures Ticks(b, n).velocity == b.velocity
    ensures Ticks(b, n).x == b.x + n as real * b.velocity.x
    ensures Ticks(b, n).y == b.y + n as real * b.velocity.y
  {
    if n > 0 {
      TicksTravel(b, n - 1);
      assert n as real * b.velocity.x == (n - 1) as real * b.velocity.x + b.velocity.x;
      assert n as real * b.velocity.y == (n - 1) as real * b.velocity.y + b.velocity.y;
    }
  }

  /** Moves every blob by its velocity, in place; nothing else about a blob changes. */
  method Transform(blobs: array<Blob>)
    modifies blobs
    ensures forall k :: 0 <= k < blobs.Length ==> blobs[k] == Tick(old(blobs[k]))
    ensures forall k :: 0 <= k < blobs.Length ==>
      blobs[k].velocity == old(blobs[k].velocity) &&
      blobs[k].x == old(blobs[k].x) + old(blobs[k].velocity.x) &&
      blobs[k].y == old(blobs[k].y) + old(blobs[k].velocity.y)
  {
    for i := 0 to blobs.Length
      invariant forall k :: 0 <= k < i ==> blobs[k] == Tick(old(blobs[k]))
      invariant forall k :: i <= k < blobs.Length ==> blobs[k] == old(blobs[k])
    {
      blobs[i] := blobs[i].(x := blobs[i].x + blobs[i].velocity.x);
      blobs[i] := blobs[i].(y := blobs[i].y + blobs[i].velocity.y);
    }
  }
}
