/**
  The OptiX 7 render core as one host-side state: the buffer pool, the
  scene, the render target and the progressive-rendering counters, with
  SetTarget and Render acting on it. The bounce loop itself is the
  Wavefront model; Render adds the convergence handling, the per-bounce
  kernel seeds and FinalizeRender's counter updates around it.
*/
module Optix7Core {
  import opened Wrappers
  import opened BufferPool
  import opened SceneRegistry
  import opened ShadowRays
  import opened Wavefront
  import opened Convergence
  import opened ScreenParams
  import opened Rng

  datatype Core = Core(
    pool: Optix7Pool,
    scene: Optix7Scene,
    width: nat,
    height: nat,
    spp: nat,
    progress: Progress,
    camRNGseed: nat,
    blueSlot: nat,
    frameCycle: nat)

  /** The buffers fit the render target and the accumulator holds what
      `samplesTaken` says it does. */
  predicate Ready(c: Core)
  {
    && Optix7Consistent(c.pool)
    && c.pool.maxPixels >= c.width * c.height
    && c.pool.currentSPP == c.spp
    && AverageIsExact(c.progress, c.spp)
    && c.blueSlot < 256
    && c.frameCycle < 4
  }

  /** Seed of bounce `L`'s shade launch: the drawn value plus a per-bounce
      offset, as a 32-bit unsigned sum. */
  function KernelSeed(drawn: nat, L: nat): (r: nat)
    ensures r < Word
  {
    Wrap32(drawn + L * 91771)
  }

  /** SetTarget: resize the pool if needed, clear the accumulator and
      restart the sample count. */
  function SetTarget(c: Core, width: nat, height: nat, spp: nat): (r: Core)
    ensures r.pool == Optix7SetTarget(c.pool, width, height, spp)
    ensures r.width == width && r.height == height && r.spp == spp
    ensures r.progress == Progress(0, c.progress.firstConvergingFrame, [])
    ensures r.scene == c.scene && r.camRNGseed == c.camRNGseed
    ensures r.blueSlot == c.blueSlot && r.frameCycle == c.frameCycle
    ensures Optix7Consistent(c.pool) && c.blueSlot < 256 && c.frameCycle < 4 ==>
      Ready(r) && Optix7Covers(r.pool.buffers, width, height, spp)
  {
    var pool := Optix7SetTarget(c.pool, width, height, spp);
    assert Optix7Consistent(c.pool) ==> Optix7Consistent(pool) && Optix7Covers(pool.buffers, width, height, spp) by {
      if Optix7Consistent(c.pool) {
        Optix7SetTargetCovers(c.pool, width, height, spp);
      }
    }
    c.(pool := pool, width := width, height := height, spp := spp,
       progress := c.progress.(samplesTaken := 0, accumulated := []))
  }

  /** The bounces from `L` on draw one value each from the camera stream
      for their shade launch; returns the launch seeds and the final seed. */
  function DrawKernelSeeds(next: nat -> nat, seed: nat, L: nat, k: nat): (r: (seq<nat>, nat))
    ensures |r.0| == k
    ensures r.1 == Iterate(next, seed, k)
    ensures forall j :: 0 <= j < k ==>
      r.0[j] == KernelSeed(Iterate(next, seed, j + 1), L + j)
    decreases k
  {
    if k == 0 then ([], seed)
    else
      var s := next(seed);
      var rest := DrawKernelSeeds(next, s, L + 1, k - 1);
      var r := ([KernelSeed(s, L)] + rest.0, rest.1);
      IterateFirst(next, seed, k - 1);
      assert forall j :: 0 <= j < k ==> r.0[j] == KernelSeed(Iterate(next, seed, j + 1), L + j) by {
        forall j | 0 <= j < k
          ensures r.0[j] == KernelSeed(Iterate(next, seed, j + 1), L + j)
        {
          if j > 0 {
            IterateFirst(next, seed, j);
            assert r.0[j] == rest.0[j - 1];
            assert L + 1 + (j - 1) == L + j;
          }
        }
      }
      r
  }

  /** With consistent buffers every primary path fits in the connection
      buffer, twice over. */
  lemma PathsFitConnectionBuffer(c: Core)
    requires Ready(c)
    ensures 2 * (c.width * c.height * c.spp) <= Optix7ShadowSlots(c.pool.buffers)
  {
    var m := c.pool.maxPixels;
    MulMonotone(c.width * c.height, m, c.spp);
    assert c.pool.buffers.connection == (m * c.spp) * 6;
  }

  /** Result of Render: the new core state, the frame's bounce loop (None
      when nothing was rendered) and the seed of every shade launch. */
  datatype Frame = Frame(core: Core, rendered: Option<Optix7State>, kernelSeeds: seq<nat>)

  /** Render followed by FinalizeRender. Without scene data nothing
      happens. Otherwise the frame shades the bounces of the OptiX 7
      schedule, traces every emitted shadow ray (once when the kernel ends
      every path at the bounce limit; the final launch as written may trace
      the last bounce's rays again otherwise), and adds the image of the
      traced rays to the accumulator; a restart does not reset the camera
      seed. */
  function Render(c: Core, conv: Convergence, d: Device): (r: Frame)
    requires BoundedShader(d.shade)
    ensures !c.scene.gpuHasSceneData ==> r == Frame(c, None, [])
    ensures c.scene.gpuHasSceneData ==>
      var counts := Optix7Schedule(d.shade, 1, c.width * c.height * c.spp, d.maxLen);
      && r.rendered.Some?
      && r.rendered.value.counts == counts
      && Emitted(d.shade, counts) <= r.rendered.value.traced
      && (forall x :: x in r.rendered.value.traced ==> x in Emitted(d.shade, counts))
      && (r.rendered.value.traced != Emitted(d.shade, counts) ==> |counts| == d.maxLen)
      && (DepthCapped(d.shade, d.maxLen) ==> r.rendered.value.traced == Emitted(d.shade, counts))
      && r.core.progress == Optix7Progress(c.progress, conv, c.spp, Energy(r.rendered.value.traced, d.visible, d.potential))
      && |r.kernelSeeds| == |counts|
      && (forall j :: 0 <= j < |counts| ==>
            r.kernelSeeds[j] == KernelSeed(Iterate(d.next, c.camRNGseed, j + 1), j + 1))
      && r.core.camRNGseed == Iterate(d.next, c.camRNGseed, |counts|)
      && r.core.blueSlot == (c.blueSlot + 1) % 256 && r.core.frameCycle == (c.frameCycle + 1) % 4
      && r.core.pool == c.pool && r.core.scene == c.scene
      && r.core.width == c.width && r.core.height == c.height && r.core.spp == c.spp
    ensures c.scene.gpuHasSceneData && c.width * c.height * c.spp <= Optix7ShadowSlots(c.pool.buffers) ==> r.rendered.value.peak <= Optix7ShadowSlots(c.pool.buffers)
  {
    if !c.scene.gpuHasSceneData then Frame(c, None, [])
    else
      var n0 := c.width * c.height * c.spp;
      var slots := Optix7ShadowSlots(c.pool.buffers);
      var f := Optix7RenderImplAsWritten(d.shade, n0, slots, d.maxLen);
      Optix7AsWrittenFrame(d.shade, n0, slots, d.maxLen);
      var seeds := DrawKernelSeeds(d.next, c.camRNGseed, 1, |f.counts|);
      assert forall j :: 0 <= j < |seeds.0| ==> seeds.0[j] == KernelSeed(Iterate(d.next, c.camRNGseed, j + 1), j + 1);
      var energy := Energy(f.traced, d.visible, d.potential);
      var core := c.(progress := Optix7Progress(c.progress, conv, c.spp, energy), camRNGseed := seeds.1,
                     blueSlot := (c.blueSlot + 1) % 256, frameCycle := (c.frameCycle + 1) % 4);
      Frame(core, Some(f), seeds.0)
  }

  /** Rendering keeps the core ready, and the pending shadow rays never
      overrun the connection buffer. */
  lemma RenderKeepsReady(c: Core, conv: Convergence, d: Device)
    requires BoundedShader(d.shade) && Ready(c)
    ensures Ready(Render(c, conv, d).core)
    ensures c.scene.gpuHasSceneData ==> Render(c, conv, d).rendered.value.peak <= Optix7ShadowSlots(c.pool.buffers)
  {
    var r := Render(c, conv, d);
    if c.scene.gpuHasSceneData {
      PathsFitConnectionBuffer(c);
      ProgressKeepsAverage(c.progress, conv, c.spp, Energy(r.rendered.value.traced, d.visible, d.potential));
    }
  }

  /** The seed facts of one frame, apart from the rest of Render's
      contract. */
  lemma RenderSeeds(c: Core, conv: Convergence, d: Device)
    requires BoundedShader(d.shade) && c.scene.gpuHasSceneData
    ensures var r := Render(c, conv, d);
      && r.core.scene == c.scene
      && r.core.camRNGseed == Iterate(d.next, c.camRNGseed, |r.kernelSeeds|)
      && (forall j :: 0 <= j < |r.kernelSeeds| ==> r.kernelSeeds[j] == KernelSeed(Iterate(d.next, c.camRNGseed, j + 1), j + 1))
      && (r.core.width, r.core.height, r.core.spp) == (c.width, c.height, c.spp)
  {
  }

  /** The camera seed is never reset: a frame's shade launches continue
      the stream where the previous frame stopped, restart or not. */
  lemma SeedStreamContinues(c: Core, conv1: Convergence, conv2: Convergence, d: Device)
    requires BoundedShader(d.shade) && c.scene.gpuHasSceneData
    ensures var r1 := Render(c, conv1, d);
      var r2 := Render(r1.core, conv2, d);
      var k := |r1.kernelSeeds|;
      && |r2.kernelSeeds| == |r1.kernelSeeds|
      && forall j :: 0 <= j < |r2.kernelSeeds| ==>
           r2.kernelSeeds[j] == KernelSeed(Iterate(d.next, c.camRNGseed, k + j + 1), j + 1)
  {
    var r1 := Render(c, conv1, d);
    var k := |r1.kernelSeeds|;
    RenderSeeds(c, conv1, d);
    var r2 := Render(r1.core, conv2, d);
    RenderSeeds(r1.core, conv2, d);
    forall j | 0 <= j < |r2.kernelSeeds|
      ensures r2.kernelSeeds[j] == KernelSeed(Iterate(d.next, c.camRNGseed, k + j + 1), j + 1)
    {
      IterateAdd(d.next, c.camRNGseed, k, j + 1);
    }
  }

  /** A restart frame followed by a converging frame leaves only the
      converging frame's image in the accumulator, with one frame's worth
      of samples. */
  lemma RestartImageIsDiscarded(c: Core, d: Device)
    requires BoundedShader(d.shade) && c.scene.gpuHasSceneData && c.spp > 0
    ensures var r1 := Render(c, Restart, d);
      var r2 := Render(r1.core, Converge, d);
      && r2.core.progress.accumulated == [Energy(r2.rendered.value.traced, d.visible, d.potential)]
      && r2.core.progress.samplesTaken == c.spp
      && !r2.core.progress.firstConvergingFrame
  {
  }
}
