/**
  The OptiX Prime (PBRT) render core as one host-side state: the buffer
  pool, the scene, the render target, the progressive-rendering counters,
  the camera seed and the pair of extension-ray buffers the next frame
  reads from and writes to.
  Render rebuilds the top level, handles convergence (resetting the camera
  seed on a restart), runs the bounce loop of the Wavefront model and adds
  the samples.
*/
module PrimeCore {
  import opened BufferPool
  import opened SceneRegistry
  import opened ShadowRays
  import opened Wavefront
  import opened Convergence
  import opened ScreenParams

  datatype Core = Core(
    pool: PrimePool,
    scene: PrimeScene,
    width: nat,
    height: nat,
    spp: nat,
    progress: Progress,
    camRNGseed: nat,
    inBuffer: nat,
    outBuffer: nat)

  /** The buffers fit the render target, the accumulator holds what
      `samplesTaken` says it does, and the input and output buffers are the
      two extension-ray buffers, one each. */
  predicate Ready(c: Core)
  {
    && PrimeConsistent(c.pool)
    && c.pool.maxPixels >= c.width * c.height
    && c.pool.currentSPP == c.spp
    && AverageIsExact(c.progress, c.spp)
    && BufferPair(c.inBuffer, c.outBuffer)
  }

  /** The camera seed a restart starts from, so that the same view gives
      the same noise. */
  const RestartSeed: nat := 0x12345678

  /** Seed of bounce `L`'s shade launch: a function of the sample count and
      the bounce only, as a 32-bit unsigned value. */
  function KernelSeed(samplesTaken: nat, L: nat): (r: nat)
    ensures r < Word
  {
    Wrap32(samplesTaken * 7907 + L * 91771)
  }

  /** Within one frame the bounces get distinct seeds, as long as the sum
      does not wrap. */
  lemma KernelSeedsDistinct(samplesTaken: nat, L1: nat, L2: nat)
    requires samplesTaken * 7907 + L1 * 91771 < Word && samplesTaken * 7907 + L2 * 91771 < Word
    ensures KernelSeed(samplesTaken, L1) == KernelSeed(samplesTaken, L2) <==> L1 == L2
  {
  }

  /** The seeds of the shade launches of bounces 1..maxLen. */
  function KernelSeeds(samplesTaken: nat, maxLen: nat): (r: seq<nat>)
    ensures |r| == maxLen
  {
    seq(maxLen, j requires 0 <= j => KernelSeed(samplesTaken, j + 1))
  }

  /** The camera seed a frame's eye rays are drawn from: the restart seed
      on a restart or a first converging frame, the camera stream
      otherwise. */
  function EyeSeedSource(c: Core, conv: Convergence): nat
  {
    if conv == Restart || c.progress.firstConvergingFrame then RestartSeed else c.camRNGseed
  }

  /** The noise of a frame: the eye-ray seed and the shade seeds. */
  function FrameNoise(c: Core, conv: Convergence, d: Device): (nat, seq<nat>)
  {
    (d.next(EyeSeedSource(c, conv)), KernelSeeds(BeginFrame(c.progress, conv).samplesTaken, d.maxLen))
  }

  /** Same seed, same noise: every restart frame draws the same eye-ray seed
      and the shade seeds of sample count 0, whatever the camera stream and
      the sample count were before. */
  lemma RestartRepeatsNoise(c1: Core, c2: Core, d: Device)
    ensures FrameNoise(c1, Restart, d) == FrameNoise(c2, Restart, d)
    ensures FrameNoise(c1, Restart, d) == (d.next(RestartSeed), KernelSeeds(0, d.maxLen))
  {
  }

  /** The first converging frame after a restart restarts again: it draws
      the noise of a restart frame. A later converging frame continues the
      camera stream and the sample count. */
  lemma ConvergingNoise(c: Core, d: Device)
    ensures c.progress.firstConvergingFrame ==> FrameNoise(c, Converge, d) == FrameNoise(c, Restart, d)
    ensures !c.progress.firstConvergingFrame ==>
      FrameNoise(c, Converge, d) == (d.next(c.camRNGseed), KernelSeeds(c.progress.samplesTaken, d.maxLen))
  {
  }

  /** SetTarget: resize the pool if needed, clear the accumulator and
      restart the sample count. */
  function SetTarget(c: Core, width: nat, height: nat, spp: nat): (r: Core)
    ensures r.pool == PrimeSetTarget(c.pool, width, height, spp)
    ensures r.width == width && r.height == height && r.spp == spp
    ensures r.progress == Progress(0, c.progress.firstConvergingFrame, [])
    ensures r.scene == c.scene && r.camRNGseed == c.camRNGseed
    ensures r.inBuffer == c.inBuffer && r.outBuffer == c.outBuffer
    ensures PrimeConsistent(c.pool) && BufferPair(c.inBuffer, c.outBuffer) ==>
      Ready(r) && PrimeCovers(r.pool.buffers, width, height, spp)
  {
    var pool := PrimeSetTarget(c.pool, width, height, spp);
    assert PrimeConsistent(c.pool) ==> PrimeConsistent(pool) && PrimeCovers(pool.buffers, width, height, spp) by {
      if PrimeConsistent(c.pool) {
        PrimeSetTargetCovers(c.pool, width, height, spp);
      }
    }
    c.(pool := pool, width := width, height := height, spp := spp,
       progress := c.progress.(samplesTaken := 0, accumulated := []))
  }

  /** With consistent buffers the shadow-ray buffer holds two rays per
      primary path. */
  lemma PathsFitShadowBuffer(c: Core)
    requires Ready(c)
    ensures 2 * (c.width * c.height * c.spp) <= c.pool.buffers.shadowRays
  {
    var m := c.pool.maxPixels;
    MulMonotone(c.width * c.height, m, c.spp);
    PrimeSizesOfSlots(m, c.spp, m * c.spp);
  }

  /** One frame. The eye rays use one draw from the camera stream, which a
      restart (or the first converging frame) first resets; every shade
      launch is seeded from the sample count and the bounce. The frame
      shades the OptiX Prime schedule, traces every emitted shadow ray once
      and, for the same abstract kernel, visibility and potentials, adds the
      image the OptiX 7 core would. */
  method Render(c: Core, conv: Convergence, d: Device) returns (r: Core, frame: PrimeFrame, eyeSeed: nat, kernelSeeds: seq<nat>)
    requires BoundedShader(d.shade) && PrimeMeshesValid(c.scene) && BufferPair(c.inBuffer, c.outBuffer)
    ensures r.scene == c.scene.(instancesDirty := true)
    ensures r.pool == c.pool && r.width == c.width && r.height == c.height && r.spp == c.spp
    ensures eyeSeed == d.next(if conv == Restart || c.progress.firstConvergingFrame then RestartSeed else c.camRNGseed)
    ensures r.camRNGseed == eyeSeed
    ensures frame.counts == PrimeSchedule(d.shade, 1, c.width * c.height * c.spp, d.maxLen)
    ensures frame.traced == Emitted(d.shade, frame.counts)
    ensures r.progress == PrimeProgress(c.progress, conv, c.spp,
      Energy(Emitted(d.shade, Optix7Schedule(d.shade, 1, c.width * c.height * c.spp, d.maxLen)), d.visible, d.potential))
    ensures |kernelSeeds| == d.maxLen
    ensures forall j :: 0 <= j < d.maxLen ==>
      kernelSeeds[j] == KernelSeed(BeginFrame(c.progress, conv).samplesTaken, j + 1)
    ensures (eyeSeed, kernelSeeds) == FrameNoise(c, conv, d)
    ensures r.inBuffer == frame.inBuffer && r.outBuffer == frame.outBuffer && BufferPair(r.inBuffer, r.outBuffer)
    ensures Ready(c) ==> Ready(r) && frame.peak <= c.pool.buffers.shadowRays
    ensures Ready(c) && c.width * c.height * c.spp > 0 ==> AllPositive(frame.launches)
  {
    var n0 := c.width * c.height * c.spp;
    var scene := PrimeUpdateToplevel(c.scene).0;
    var reset := conv == Restart || c.progress.firstConvergingFrame;
    var seed := if reset then RestartSeed else c.camRNGseed;
    eyeSeed := d.next(seed);
    var begun := BeginFrame(c.progress, conv);
    frame := PrimeRenderLoop(d.shade, n0, c.pool.buffers.shadowRays, d.maxLen, c.inBuffer, c.outBuffer);
    kernelSeeds := KernelSeeds(begun.samplesTaken, d.maxLen);
    var energy := Energy(frame.traced, d.visible, d.potential);
    CoresEmitSameRays(d.shade, n0, d.maxLen);
    var progress := PrimeProgress(c.progress, conv, c.spp, energy);
    if Ready(c) {
      PathsFitShadowBuffer(c);
      ProgressKeepsAverage(c.progress, conv, c.spp, energy);
    }
    r := c.(scene := scene, progress := progress, camRNGseed := eyeSeed, inBuffer := frame.inBuffer, outBuffer := frame.outBuffer);
  }
}
