/**
  Device buffer pool of the two wavefront render cores.

  `SetTarget` decides whether the per-path buffers must be reallocated and,
  when they are, derives every buffer size from `maxPixels` (the pixel
  capacity, with about 6% slack) and the sample count per pixel. Only the
  element count of each buffer is modelled; its contents are not.
*/
module BufferPool {

  // ---------------------------------------------------------------------
  // Slack policy: `n + (n >> 4)` in the OptiX 7 core, `n + n / 16` in the
  // OptiX Prime core.
  // ---------------------------------------------------------------------

  /** Logical right shift of an unsigned value. */
  function ShiftRight(n: nat, k: nat): nat
    decreases k
  {
    if k == 0 then n else ShiftRight(n / 2, k - 1)
  }

  lemma HalfHalf(n: nat)
    ensures n / 2 / 2 == n / 4
  {
  }

  /** `n >> 4` is `n / 16` for unsigned `n`. */
  lemma ShiftRight4(n: nat)
    ensures ShiftRight(n, 4) == n / 16
  {
    HalfHalf(n);
    HalfHalf(n / 4);
    assert n / 4 / 4 == n / 16;
  }

  /** `n >> 5` is `n / 32` for unsigned `n`. */
  lemma ShiftRight5(n: nat)
    ensures ShiftRight(n, 5) == n / 32
  {
    ShiftRight4(n / 2);
    assert n / 2 / 16 == n / 32;
  }

  /** Capacity chosen by the OptiX 7 core for `n` pixels. */
  function Optix7Capacity(n: nat): nat
  {
    n + ShiftRight(n, 4)
  }

  /** Capacity chosen by the OptiX Prime core for `n` pixels. */
  function PrimeCapacity(n: nat): nat
  {
    n + n / 16
  }

  /** For unsigned pixel counts both slack rules reserve the same capacity,
      never less than `n` and never more than `n + n / 16`. */
  lemma SlackRulesAgree(n: nat)
    ensures Optix7Capacity(n) == PrimeCapacity(n)
    ensures n <= PrimeCapacity(n) <= n + n / 16
  {
    ShiftRight4(n);
  }

  // ---------------------------------------------------------------------
  // OptiX 7 core
  // ---------------------------------------------------------------------

  /** Element counts of the OptiX 7 core's per-path buffers. */
  datatype Optix7Buffers = Optix7Buffers(
    connection: nat,   // float4 triples: one shadow ray plus its potential contribution
    accumulator: nat,  // float4 per pixel, direct and indirect halves
    hit: nat,          // one float4 hit record per path
    pathState: nat,    // three float4 per path
    features: nat)     // one uint4 per pixel, for the filter

  datatype Optix7Pool = Optix7Pool(
    maxPixels: nat,
    currentSPP: nat,
    buffers: Optix7Buffers,
    allocations: nat)  // how many times the buffers were (re)created

  /** The buffer sizes the OptiX 7 core allocates for a given capacity. */
  function Optix7Sizes(maxPixels: nat, spp: nat): Optix7Buffers
  {
    Optix7Buffers(maxPixels * spp * 3 * 2, maxPixels * 2, maxPixels * spp, maxPixels * spp * 3, maxPixels)
  }

  /** Shadow-ray slots in the connection buffer: three float4 per ray. */
  function Optix7ShadowSlots(b: Optix7Buffers): nat
  {
    b.connection / 3
  }

  /** The buffers were sized for the recorded capacity and sample count. */
  predicate Optix7Consistent(p: Optix7Pool)
  {
    p.buffers == Optix7Sizes(p.maxPixels, p.currentSPP)
  }

  /** A pool before the first SetTarget: no capacity, no buffers. */
  function Optix7InitialPool(): (p: Optix7Pool)
    ensures Optix7Consistent(p) && p.maxPixels == 0
  {
    Optix7Pool(0, 0, Optix7Sizes(0, 0), 0)
  }

  predicate Optix7NeedsRealloc(p: Optix7Pool, width: nat, height: nat, spp: nat)
  {
    width * height > p.maxPixels || spp != p.currentSPP
  }

  function Optix7SetTarget(p: Optix7Pool, width: nat, height: nat, spp: nat): (r: Optix7Pool)
    ensures Optix7NeedsRealloc(p, width, height, spp) <==> r.allocations == p.allocations + 1
    ensures !Optix7NeedsRealloc(p, width, height, spp) ==> r == p
    ensures Optix7NeedsRealloc(p, width, height, spp) ==>
      r.maxPixels == Optix7Capacity(width * height) && r.buffers == Optix7Sizes(r.maxPixels, spp)
    ensures r.maxPixels >= width * height && r.currentSPP == spp
  {
    if Optix7NeedsRealloc(p, width, height, spp) then
      var maxPixels := Optix7Capacity(width * height);
      Optix7Pool(maxPixels, spp, Optix7Sizes(maxPixels, spp), p.allocations + 1)
    else
      p
  }

  /** The OptiX 7 buffers hold every path of a `width` x `height` x `spp`
      frame, and the connection buffer two shadow rays per path. */
  predicate Optix7Covers(b: Optix7Buffers, width: nat, height: nat, spp: nat)
  {
    var paths := width * height * spp;
    && b.hit >= paths
    && b.pathState >= 3 * paths
    && Optix7ShadowSlots(b) >= 2 * paths
    && b.accumulator >= 2 * (width * height)
  }

  lemma MulMonotone(a: nat, b: nat, c: nat)
    requires a <= b
    ensures a * c <= b * c
  {
  }

  /** After SetTarget on a consistent pool, the pool stays consistent and
      its buffers are large enough for the new frame. */
  lemma Optix7SetTargetCovers(p: Optix7Pool, width: nat, height: nat, spp: nat)
    requires Optix7Consistent(p)
    ensures Optix7Consistent(Optix7SetTarget(p, width, height, spp))
    ensures Optix7Covers(Optix7SetTarget(p, width, height, spp).buffers, width, height, spp)
  {
    var r := Optix7SetTarget(p, width, height, spp);
    var m := r.maxPixels;
    var n := width * height;
    MulMonotone(n, m, spp);
    assert width * height * spp == n * spp;
    assert r.buffers.connection == (m * spp) * 6;
    assert r.buffers.pathState == (m * spp) * 3;
  }

  /** Calling SetTarget twice with the same target reallocates at most once. */
  lemma Optix7SetTargetIdempotent(p: Optix7Pool, width: nat, height: nat, spp: nat)
    ensures var r := Optix7SetTarget(p, width, height, spp);
      Optix7SetTarget(r, width, height, spp) == r
  {
  }

  // ---------------------------------------------------------------------
  // OptiX Prime core
  // ---------------------------------------------------------------------

  /** Element counts of the OptiX Prime core's per-path buffers. */
  datatype PrimeBuffers = PrimeBuffers(
    extensionRays: nat,    // each of the two ping-pong ray buffers
    extensionRayEx: nat,   // each of the two ping-pong path-state buffers
    extensionHits: nat,
    shadowRays: nat,
    shadowPotential: nat,
    shadowHitWords: nat,   // 32-bit words of the shadow-hit bitmask
    accumulator: nat)

  datatype PrimePool = PrimePool(
    maxPixels: nat,
    currentSPP: nat,
    buffers: PrimeBuffers,
    allocations: nat)

  /** Words needed for a bitmask of `bits` bits: `(bits + 31) >> 5`. */
  function BitmaskWords(bits: nat): nat
  {
    ShiftRight(bits + 31, 5)
  }

  /** The bitmask has one bit per shadow ray and less than one spare word. */
  lemma BitmaskWordsTight(bits: nat)
    ensures BitmaskWords(bits) * 32 >= bits
    ensures bits > 0 ==> (BitmaskWords(bits) - 1) * 32 < bits
    ensures bits == 0 ==> BitmaskWords(bits) == 0
  {
    ShiftRight5(bits + 31);
  }

  function PrimeMaxShadowRays(maxPixels: nat, spp: nat): nat
  {
    maxPixels * spp * 2
  }

  function PrimeSizes(maxPixels: nat, spp: nat): PrimeBuffers
  {
    var maxShadowRays := PrimeMaxShadowRays(maxPixels, spp);
    PrimeBuffers(maxPixels * spp, maxPixels * 2 * spp, maxPixels * spp,
                 maxShadowRays, maxShadowRays, BitmaskWords(maxShadowRays), maxPixels)
  }

  predicate PrimeConsistent(p: PrimePool)
  {
    p.buffers == PrimeSizes(p.maxPixels, p.currentSPP)
  }

  function PrimeInitialPool(): (p: PrimePool)
    ensures PrimeConsistent(p) && p.maxPixels == 0
  {
    PrimePool(0, 0, PrimeSizes(0, 0), 0)
  }

  predicate PrimeNeedsRealloc(p: PrimePool, width: nat, height: nat, spp: nat)
  {
    width * height > p.maxPixels || spp != p.currentSPP
  }

  function PrimeSetTarget(p: PrimePool, width: nat, height: nat, spp: nat): (r: PrimePool)
    ensures PrimeNeedsRealloc(p, width, height, spp) <==> r.allocations == p.allocations + 1
    ensures !PrimeNeedsRealloc(p, width, height, spp) ==> r == p
    ensures PrimeNeedsRealloc(p, width, height, spp) ==>
      r.maxPixels == PrimeCapacity(width * height) && r.buffers == PrimeSizes(r.maxPixels, spp)
    ensures r.maxPixels >= width * height && r.currentSPP == spp
  {
    if PrimeNeedsRealloc(p, width, height, spp) then
      var maxPixels := PrimeCapacity(width * height);
      PrimePool(maxPixels, spp, PrimeSizes(maxPixels, spp), p.allocations + 1)
    else
      p
  }

  /** The Prime buffers hold every path of the frame, two shadow rays per
      path, and a hit bit for every shadow-ray slot. */
  predicate PrimeCovers(b: PrimeBuffers, width: nat, height: nat, spp: nat)
  {
    var paths := width * height * spp;
    && b.extensionRays >= paths
    && b.extensionRayEx >= 2 * paths
    && b.extensionHits >= paths
    && b.shadowRays >= 2 * paths
    && b.shadowPotential == b.shadowRays
    && b.shadowHitWords * 32 >= b.shadowRays
    && b.accumulator >= width * height
  }

  /** The Prime buffer sizes in terms of the number of path slots. */
  lemma PrimeSizesOfSlots(m: nat, spp: nat, q: nat)
    requires q == m * spp
    ensures PrimeSizes(m, spp) == PrimeBuffers(q, 2 * q, q, 2 * q, 2 * q, BitmaskWords(2 * q), m)
  {
    assert m * 2 * spp == 2 * q by {
      assert m * 2 * spp == (m * spp) * 2;
    }
    assert m * spp * 2 == 2 * q;
  }

  lemma PrimeSetTargetCovers(p: PrimePool, width: nat, height: nat, spp: nat)
    requires PrimeConsistent(p)
    ensures PrimeConsistent(PrimeSetTarget(p, width, height, spp))
    ensures PrimeCovers(PrimeSetTarget(p, width, height, spp).buffers, width, height, spp)
  {
    var r := PrimeSetTarget(p, width, height, spp);
    var m := r.maxPixels;
    var q := m * spp;
    MulMonotone(width * height, m, spp);
    PrimeSizesOfSlots(m, spp, q);
    BitmaskWordsTight(2 * q);
  }

  lemma PrimeSetTargetIdempotent(p: PrimePool, width: nat, height: nat, spp: nat)
    ensures var r := PrimeSetTarget(p, width, height, spp);
      PrimeSetTarget(r, width, height, spp) == r
  {
  }
}
