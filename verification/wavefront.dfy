/**
  The wavefront bounce loops of the two render cores, with the shade
  kernel and the ray queries abstract (see ShadowRays).

  OptiX 7 core: each bounce shades the live paths, reads the counters back
  to the host into a local copy, stops when no extension ray was emitted,
  and traces the pending shadow rays early when the next bounce could
  overflow the connection buffer (only if there are any). After the loop the
  remaining shadow rays are traced, if any.

  OptiX Prime core: every bounce up to the limit runs; the last one breaks
  before the read-back. The other bounces read the extension count back,
  swap the two extension-ray buffers, and trace the pending shadow rays
  early when the next bounce could overflow the shadow-ray buffer (with no
  check that there are any). After the loop the remaining shadow rays are
  traced, if any.
*/
module Wavefront {
  import opened Wrappers
  import opened ShadowRays

  function Total(s: seq<nat>): nat
  {
    if |s| == 0 then 0 else Total(s[..|s| - 1]) + s[|s| - 1]
  }

  lemma TotalSnoc(s: seq<nat>, x: nat)
    ensures Total(s + [x]) == Total(s) + x
  {
    assert (s + [x])[..|s|] == s;
  }

  predicate AllPositive(s: seq<nat>)
  {
    forall i :: 0 <= i < |s| ==> s[i] > 0
  }

  /** What a frame depends on that the host does not compute: the shade
      kernel's counts, the any-hit result and potential contribution of
      every shadow ray, the bounce limit MAXPATHLENGTH, and the random
      generator step. */
  datatype Device = Device(
    shade: Shader,
    visible: ShadowRay -> bool,
    potential: ShadowRay -> nat,
    maxLen: nat,
    next: nat -> nat)

  // ---------------------------------------------------------------------
  // OptiX 7 core
  // ---------------------------------------------------------------------

  /** Host-visible state of the OptiX 7 bounce loop.
      `pending`   shadow rays in the connection buffer, not yet traced;
      `hostCopy`  the rays the host's local copy of the counters covers
                  (the connection-buffer prefix at the last read-back);
      `traced`    shadow rays handed to the any-hit launches so far;
      `launches`  the ray count of every shadow launch;
      `peak`      the largest number of pending shadow rays seen. */
  datatype Optix7State = Optix7State(
    pathCount: nat,
    counts: seq<nat>,
    pending: seq<ShadowRay>,
    hostCopy: seq<ShadowRay>,
    traced: seq<ShadowRay>,
    launches: seq<nat>,
    peak: nat)

  function Optix7Start(n0: nat): Optix7State
  {
    Optix7State(n0, [], [], [], [], [], 0)
  }

  /** Bounce `L`: shade the live paths (the kernel appends its shadow rays
      behind the pending ones), then read the counters back. */
  function Optix7Bounce(shade: Shader, L: nat, st: Optix7State): Optix7State
  {
    var o := shade(L, st.pathCount);
    var p := st.pending + BounceRays(L, o.shadowRays);
    st.(pathCount := o.extensionRays, counts := st.counts + [st.pathCount],
        pending := p, hostCopy := p, peak := Max(st.peak, |p|))
  }

  /** One any-hit launch over the pending shadow rays; the device counter
      is reset. */
  function TracePending(st: Optix7State): Optix7State
  {
    st.(traced := st.traced + st.pending, launches := st.launches + [|st.pending|], pending := [])
  }

  /** Early trace when the next bounce could overflow the buffer of
      `capacity` shadow rays, guarded on there being any. */
  function Optix7Flush(capacity: nat, st: Optix7State): Optix7State
  {
    if st.pathCount + |st.pending| >= capacity && |st.pending| > 0 then TracePending(st) else st
  }

  /** Bounces `L`..`maxLen`; the loop breaks when a bounce emits no
      extension ray, before the overflow check. */
  function Optix7Loop(shade: Shader, capacity: nat, maxLen: nat, L: nat, st: Optix7State): Optix7State
    decreases maxLen + 1 - L
  {
    if L == 0 || L > maxLen then st
    else
      var b := Optix7Bounce(shade, L, st);
      if b.pathCount == 0 then b
      else Optix7Loop(shade, capacity, maxLen, L + 1, Optix7Flush(capacity, b))
  }

  /** The shadow launch after the loop, over the rays still pending. */
  function Optix7Finish(st: Optix7State): Optix7State
  {
    if |st.pending| > 0 then TracePending(st) else st
  }

  /** The shadow launch after the loop as written: its ray count is taken
      from the host's local copy of the counters, which an early trace on
      the last bounce does not reset. */
  function Optix7FinishAsWritten(st: Optix7State): Optix7State
  {
    if |st.hostCopy| > 0 then
      st.(traced := st.traced + st.hostCopy, launches := st.launches + [|st.hostCopy|], pending := [])
    else st
  }

  /** One frame of the OptiX 7 core with `n0` primary paths. */
  function Optix7RenderImpl(shade: Shader, n0: nat, capacity: nat, maxLen: nat): Optix7State
  {
    Optix7Finish(Optix7Loop(shade, capacity, maxLen, 1, Optix7Start(n0)))
  }

  function Optix7RenderImplAsWritten(shade: Shader, n0: nat, capacity: nat, maxLen: nat): Optix7State
  {
    Optix7FinishAsWritten(Optix7Loop(shade, capacity, maxLen, 1, Optix7Start(n0)))
  }

  /** Every emitted shadow ray is either traced or pending, in emission
      order, and the launches account for exactly the traced rays. */
  predicate RaysAccountedFor(shade: Shader, st: Optix7State)
  {
    && st.traced + st.pending == Emitted(shade, st.counts)
    && AllPositive(st.launches)
    && Total(st.launches) == |st.traced|
  }

  /** The loop shades exactly the bounces of the OptiX 7 schedule. */
  lemma {:induction false} Optix7LoopCounts(shade: Shader, capacity: nat, maxLen: nat, L: nat, st: Optix7State)
    requires 1 <= L
    ensures Optix7Loop(shade, capacity, maxLen, L, st).counts == st.counts + Optix7Schedule(shade, L, st.pathCount, maxLen)
    decreases maxLen + 1 - L
  {
    if L <= maxLen {
      var b := Optix7Bounce(shade, L, st);
      if b.pathCount != 0 {
        var f := Optix7Flush(capacity, b);
        Optix7LoopCounts(shade, capacity, maxLen, L + 1, f);
        if L == maxLen {
          assert Optix7Schedule(shade, L + 1, f.pathCount, maxLen) == [];
        }
      }
    }
  }

  /** No shadow ray is lost or traced twice across early traces. */
  lemma {:induction false} Optix7LoopRays(shade: Shader, capacity: nat, maxLen: nat, L: nat, st: Optix7State)
    requires 1 <= L && |st.counts| == L - 1
    requires RaysAccountedFor(shade, st)
    ensures RaysAccountedFor(shade, Optix7Loop(shade, capacity, maxLen, L, st))
    decreases maxLen + 1 - L
  {
    if L <= maxLen {
      var b := Optix7Bounce(shade, L, st);
      assert b.counts[..|b.counts| - 1] == st.counts;
      assert b.traced + b.pending == (st.traced + st.pending) + BounceRays(L, shade(L, st.pathCount).shadowRays);
      if b.pathCount != 0 {
        var f := Optix7Flush(capacity, b);
        if f != b {
          TotalSnoc(b.launches, |b.pending|);
          assert f.traced + f.pending == b.traced + b.pending;
        }
        Optix7LoopRays(shade, capacity, maxLen, L + 1, f);
      }
    }
  }

  /** The pending shadow rays never exceed the connection buffer's
      capacity, provided the live paths and pending rays fit on entry. */
  lemma {:induction false} Optix7LoopPeak(shade: Shader, capacity: nat, maxLen: nat, L: nat, st: Optix7State)
    requires BoundedShader(shade)
    requires st.pathCount + |st.pending| <= capacity && st.peak <= capacity
    ensures Optix7Loop(shade, capacity, maxLen, L, st).peak <= capacity
    ensures |Optix7Loop(shade, capacity, maxLen, L, st).pending| <= capacity
    decreases maxLen + 1 - L
  {
    if L != 0 && L <= maxLen {
      var b := Optix7Bounce(shade, L, st);
      assert shade(L, st.pathCount).shadowRays <= st.pathCount;
      assert shade(L, st.pathCount).extensionRays <= st.pathCount;
      if b.pathCount != 0 {
        Optix7LoopPeak(shade, capacity, maxLen, L + 1, Optix7Flush(capacity, b));
      }
    }
  }

  /** The host's copy of the counters differs from the device counter only
      right after an early trace: then nothing is pending and the copy
      covers rays that were just traced. */
  predicate HostCopyTracks(st: Optix7State)
  {
    st.hostCopy == st.pending ||
      (st.pending == [] && |st.hostCopy| > 0 && |st.hostCopy| <= |st.traced| &&
       st.traced[|st.traced| - |st.hostCopy|..] == st.hostCopy)
  }

  /** The copy is stale at the end of the loop only when the early trace
      fired on the last permitted bounce. */
  lemma {:induction false} Optix7LoopHostCopy(shade: Shader, capacity: nat, maxLen: nat, L: nat, st: Optix7State)
    requires 1 <= L <= maxLen + 1 && |st.counts| == L - 1
    requires HostCopyTracks(st)
    ensures var r := Optix7Loop(shade, capacity, maxLen, L, st);
      HostCopyTracks(r) && (r.hostCopy != r.pending ==> |r.counts| == maxLen)
    decreases maxLen + 1 - L
  {
    if L <= maxLen {
      var b := Optix7Bounce(shade, L, st);
      if b.pathCount != 0 {
        var f := Optix7Flush(capacity, b);
        if f != b {
          assert f.traced[|f.traced| - |f.hostCopy|..] == f.hostCopy;
        }
        Optix7LoopHostCopy(shade, capacity, maxLen, L + 1, f);
      }
    }
  }

  /** A frame of the OptiX 7 core shades the bounces of its schedule and
      traces every emitted shadow ray exactly once, in launches of at least
      one ray; when the primary paths fit in the connection buffer, the
      pending shadow rays never overflow it. */
  lemma Optix7FrameTracesEveryRayOnce(shade: Shader, n0: nat, capacity: nat, maxLen: nat)
    requires BoundedShader(shade)
    ensures var f := Optix7RenderImpl(shade, n0, capacity, maxLen);
      && f.counts == Optix7Schedule(shade, 1, n0, maxLen)
      && f.traced == Emitted(shade, f.counts)
      && f.pending == []
      && AllPositive(f.launches)
      && Total(f.launches) == |f.traced|
      && (n0 <= capacity ==> f.peak <= capacity)
  {
    var s := Optix7Start(n0);
    var r := Optix7Loop(shade, capacity, maxLen, 1, s);
    Optix7LoopCounts(shade, capacity, maxLen, 1, s);
    Optix7LoopRays(shade, capacity, maxLen, 1, s);
    if n0 <= capacity {
      Optix7LoopPeak(shade, capacity, maxLen, 1, s);
    }
    if |r.pending| > 0 {
      TotalSnoc(r.launches, |r.pending|);
    }
  }

  /** The image does not depend on the connection buffer's size: early
      traces only split the same rays into more launches. */
  lemma FlushDoesNotChangeImage(shade: Shader, n0: nat, c1: nat, c2: nat, maxLen: nat,
                                visible: ShadowRay -> bool, potential: ShadowRay -> nat)
    requires BoundedShader(shade)
    ensures Optix7RenderImpl(shade, n0, c1, maxLen).traced == Optix7RenderImpl(shade, n0, c2, maxLen).traced
    ensures Energy(Optix7RenderImpl(shade, n0, c1, maxLen).traced, visible, potential)
         == Energy(Emitted(shade, Optix7Schedule(shade, 1, n0, maxLen)), visible, potential)
  {
    Optix7FrameTracesEveryRayOnce(shade, n0, c1, maxLen);
    Optix7FrameTracesEveryRayOnce(shade, n0, c2, maxLen);
  }

  /** As written, the final launch re-traces the rays of an early trace
      that fired on the last permitted bounce; otherwise it agrees with the
      corrected frame. */
  lemma Optix7AsWrittenRetraces(shade: Shader, n0: nat, capacity: nat, maxLen: nat)
    requires BoundedShader(shade)
    ensures var r := Optix7Loop(shade, capacity, maxLen, 1, Optix7Start(n0));
      var w := Optix7RenderImplAsWritten(shade, n0, capacity, maxLen);
      var f := Optix7RenderImpl(shade, n0, capacity, maxLen);
      && (r.hostCopy == r.pending ==> w == f)
      && (r.hostCopy != r.pending ==>
            && |r.counts| == maxLen
            && |r.hostCopy| > 0
            && w.traced == f.traced + r.hostCopy
            && (forall s :: s in r.hostCopy ==> s in f.traced))
  {
    var s := Optix7Start(n0);
    var r := Optix7Loop(shade, capacity, maxLen, 1, s);
    Optix7LoopHostCopy(shade, capacity, maxLen, 1, s);
    Optix7LoopRays(shade, capacity, maxLen, 1, s);
    if r.hostCopy != r.pending {
      forall x | x in r.hostCopy
        ensures x in r.traced
      {
        var k :| 0 <= k < |r.hostCopy| && r.hostCopy[k] == x;
        assert r.traced[|r.traced| - |r.hostCopy| + k] == x;
      }
    }
  }

  /** The shade kernel ends every path at the bounce limit: the last
      bounce emits no extension ray. */
  ghost predicate DepthCapped(shade: Shader, maxLen: nat)
  {
    forall n: nat :: shade(maxLen, n).extensionRays == 0
  }

  /** Under the depth cap the loop leaves by the empty-bounce exit at the
      latest on the last bounce, before the overflow check, so the host copy
      of the counters is current when the loop ends. */
  lemma {:induction false} Optix7DepthCapKeepsCopy(shade: Shader, capacity: nat, maxLen: nat, L: nat, st: Optix7State)
    requires DepthCapped(shade, maxLen) && 1 <= L
    requires L <= maxLen || st.hostCopy == st.pending
    ensures var r := Optix7Loop(shade, capacity, maxLen, L, st); r.hostCopy == r.pending
    decreases maxLen + 1 - L
  {
    if L <= maxLen {
      var b := Optix7Bounce(shade, L, st);
      if b.pathCount != 0 {
        assert L < maxLen;
        Optix7DepthCapKeepsCopy(shade, capacity, maxLen, L + 1, Optix7Flush(capacity, b));
      }
    }
  }

  /** Under the depth cap the frame as written is the corrected frame. */
  lemma Optix7AsWrittenUnderDepthCap(shade: Shader, n0: nat, capacity: nat, maxLen: nat)
    requires DepthCapped(shade, maxLen)
    ensures Optix7RenderImplAsWritten(shade, n0, capacity, maxLen) == Optix7RenderImpl(shade, n0, capacity, maxLen)
  {
    Optix7DepthCapKeepsCopy(shade, capacity, maxLen, 1, Optix7Start(n0));
  }

  /** A frame of the OptiX 7 core as written shades the bounces of its
      schedule and traces every emitted shadow ray, in emission order; it
      traces a ray again only when the last permitted bounce ran, and never
      under the depth cap. The pending shadow rays never overflow the
      connection buffer when the primary paths fit in it. */
  lemma Optix7AsWrittenFrame(shade: Shader, n0: nat, capacity: nat, maxLen: nat)
    requires BoundedShader(shade)
    ensures var w := Optix7RenderImplAsWritten(shade, n0, capacity, maxLen);
      var e := Emitted(shade, Optix7Schedule(shade, 1, n0, maxLen));
      && w.counts == Optix7Schedule(shade, 1, n0, maxLen)
      && e <= w.traced
      && (forall x :: x in w.traced ==> x in e)
      && (w.traced != e ==> |w.counts| == maxLen)
      && (DepthCapped(shade, maxLen) ==> w.traced == e)
      && (n0 <= capacity ==> w.peak <= capacity)
  {
    var w := Optix7RenderImplAsWritten(shade, n0, capacity, maxLen);
    var f := Optix7RenderImpl(shade, n0, capacity, maxLen);
    var r := Optix7Loop(shade, capacity, maxLen, 1, Optix7Start(n0));
    Optix7FrameTracesEveryRayOnce(shade, n0, capacity, maxLen);
    Optix7AsWrittenRetraces(shade, n0, capacity, maxLen);
    assert w.counts == r.counts == f.counts && w.peak == r.peak == f.peak;
    if r.hostCopy != r.pending {
      assert w.traced == f.traced + r.hostCopy;
      assert f.traced <= w.traced;
    }
    if DepthCapped(shade, maxLen) {
      Optix7AsWrittenUnderDepthCap(shade, n0, capacity, maxLen);
    }
  }

  /** Every path survives and connects to a light at every bounce. */
  function FullShader(): Shader
  {
    (L: nat, n: nat) => ShadeOutcome(n, n)
  }

  /** With every path surviving and capacity for exactly twice the primary
      paths, every bounce traces early, the last one included. */
  lemma {:induction false} FullShaderFlushesEveryBounce(n0: nat, maxLen: nat, L: nat, st: Optix7State)
    requires 0 < n0 && 1 <= L <= maxLen
    requires st.pathCount == n0 && st.pending == [] && |st.counts| == L - 1
    ensures var r := Optix7Loop(FullShader(), 2 * n0, maxLen, L, st);
      r.pending == [] && r.hostCopy == BounceRays(maxLen, n0)
    decreases maxLen - L
  {
    var b := Optix7Bounce(FullShader(), L, st);
    assert b.pending == BounceRays(L, n0);
    var f := Optix7Flush(2 * n0, b);
    assert f == TracePending(b);
    if L < maxLen {
      FullShaderFlushesEveryBounce(n0, maxLen, L + 1, f);
    }
  }

  /** A 4x2 image at one sample per pixel has 8 primary paths and room for
      16 shadow rays. If every path survives every bounce, the frame as
      written traces 8 shadow rays more than were emitted, re-tracing the
      last bounce's rays. */
  lemma StaleHostCopyRetraces(maxLen: nat)
    requires maxLen >= 1
    ensures var w := Optix7RenderImplAsWritten(FullShader(), 8, 16, maxLen);
      var f := Optix7RenderImpl(FullShader(), 8, 16, maxLen);
      && |w.traced| == |f.traced| + 8
      && w.traced[|f.traced|..] == BounceRays(maxLen, 8)
      && !NoDuplicates(w.traced)
  {
    var s := Optix7Start(8);
    FullShaderFlushesEveryBounce(8, maxLen, 1, s);
    Optix7AsWrittenRetraces(FullShader(), 8, 16, maxLen);
    Optix7FrameTracesEveryRayOnce(FullShader(), 8, 16, maxLen);
    var r := Optix7Loop(FullShader(), 16, maxLen, 1, s);
    var w := Optix7RenderImplAsWritten(FullShader(), 8, 16, maxLen);
    var f := Optix7RenderImpl(FullShader(), 8, 16, maxLen);
    assert w.traced == f.traced + r.hostCopy;
    var x := r.hostCopy[0];
    assert x in f.traced;
    var i :| 0 <= i < |f.traced| && f.traced[i] == x;
    assert w.traced[i] == x && w.traced[|f.traced|] == x;
  }

  // ---------------------------------------------------------------------
  // OptiX Prime core
  // ---------------------------------------------------------------------

  /** Host-visible state of the OptiX Prime bounce loop: the fields of
      Optix7State without the host copy (the counters are read through a
      reference), plus the extension-ray buffer each bounce read from and
      wrote to and the current input and output buffers. */
  datatype PrimeState = PrimeState(
    pathCount: nat,
    counts: seq<nat>,
    pending: seq<ShadowRay>,
    traced: seq<ShadowRay>,
    launches: seq<nat>,
    peak: nat,
    readBuf: seq<nat>,
    writeBuf: seq<nat>,
    inBuffer: nat,
    outBuffer: nat)

  function PrimeStart(n0: nat, inBuffer0: nat, outBuffer0: nat): PrimeState
  {
    PrimeState(n0, [], [], [], [], 0, [], [], inBuffer0, outBuffer0)
  }

  /** The two buffer indices name the two extension-ray buffers, one each. */
  predicate BufferPair(inBuffer: nat, outBuffer: nat)
  {
    inBuffer < 2 && outBuffer < 2 && inBuffer != outBuffer
  }

  /** Bounce `L`: extend from the input buffer into the output buffer and
      shade; every bounce but the last then reads the extension count back,
      swaps the buffers and traces early, without checking that any shadow
      ray is pending, when the next bounce could overflow the buffer. */
  function PrimeBounce(shade: Shader, capacity: nat, maxLen: nat, L: nat, st: PrimeState): PrimeState
  {
    var o := shade(L, st.pathCount);
    var p := st.pending + BounceRays(L, o.shadowRays);
    var b := st.(counts := st.counts + [st.pathCount], pending := p, peak := Max(st.peak, |p|),
                 readBuf := st.readBuf + [st.inBuffer], writeBuf := st.writeBuf + [st.outBuffer]);
    if L == maxLen then b
    else
      var swapped := b.(pathCount := o.extensionRays, inBuffer := st.outBuffer, outBuffer := st.inBuffer);
      if |p| + o.extensionRays >= capacity then
        swapped.(traced := st.traced + p, launches := st.launches + [|p|], pending := [])
      else swapped
  }

  lemma PrimeBounceBufferFields(shade: Shader, capacity: nat, maxLen: nat, L: nat, st: PrimeState)
    ensures var r := PrimeBounce(shade, capacity, maxLen, L, st);
      && r.readBuf == st.readBuf + [st.inBuffer]
      && r.writeBuf == st.writeBuf + [st.outBuffer]
      && r.inBuffer == (if L == maxLen then st.inBuffer else st.outBuffer)
      && r.outBuffer == (if L == maxLen then st.outBuffer else st.inBuffer)
  {
  }

  /** Each bounce shades the next entry of the OptiX Prime schedule. */
  lemma PrimeBounceSchedule(shade: Shader, capacity: nat, maxLen: nat, L: nat, st: PrimeState)
    requires 1 <= L <= maxLen
    ensures var r := PrimeBounce(shade, capacity, maxLen, L, st);
      r.counts + PrimeSchedule(shade, L + 1, r.pathCount, maxLen) == st.counts + PrimeSchedule(shade, L, st.pathCount, maxLen)
  {
    var r := PrimeBounce(shade, capacity, maxLen, L, st);
    var e := shade(L, st.pathCount).extensionRays;
    assert PrimeSchedule(shade, L, st.pathCount, maxLen) == [st.pathCount] + PrimeSchedule(shade, L + 1, e, maxLen);
    if L == maxLen {
      assert PrimeSchedule(shade, L + 1, r.pathCount, maxLen) == [];
      assert PrimeSchedule(shade, L + 1, e, maxLen) == [];
    } else {
      assert r.pathCount == e;
    }
  }

  /** Every emitted shadow ray is traced or pending, in order, and the
      launches account for the traced ones. */
  predicate PrimeRaysAccountedFor(shade: Shader, L: nat, st: PrimeState)
  {
    && |st.counts| + 1 == L
    && st.traced + st.pending == Emitted(shade, st.counts)
    && Total(st.launches) == |st.traced|
  }

  lemma PrimeBounceRays(shade: Shader, capacity: nat, maxLen: nat, L: nat, st: PrimeState)
    requires PrimeRaysAccountedFor(shade, L, st)
    ensures PrimeRaysAccountedFor(shade, L + 1, PrimeBounce(shade, capacity, maxLen, L, st))
  {
    var o := shade(L, st.pathCount);
    var p := st.pending + BounceRays(L, o.shadowRays);
    var r := PrimeBounce(shade, capacity, maxLen, L, st);
    var counts := st.counts + [st.pathCount];
    assert r.counts == counts && |counts| == L;
    assert counts[..|counts| - 1] == st.counts;
    assert Emitted(shade, counts) == Emitted(shade, st.counts) + BounceRays(L, o.shadowRays);
    assert st.traced + p == Emitted(shade, counts);
    if r.launches != st.launches {
      assert r.traced == st.traced + p && r.pending == [] && r.launches == st.launches + [|p|];
      TotalSnoc(st.launches, |p|);
    } else {
      assert r.traced == st.traced && r.pending == p;
    }
  }

  /** Capacity facts: while bounces remain, live paths plus pending rays
      fit (strictly when the primary paths fit strictly), so an early trace
      always has rays to trace. */
  predicate PrimeFits(n0: nat, capacity: nat, maxLen: nat, L: nat, st: PrimeState)
  {
    && st.pathCount <= n0
    && (n0 <= capacity ==> st.peak <= capacity && (L <= maxLen ==> |st.pending| + st.pathCount <= capacity))
    && (n0 < capacity ==> st.peak < capacity && AllPositive(st.launches) && (L <= maxLen ==> |st.pending| + st.pathCount < capacity))
  }

  lemma PrimeBounceFits(shade: Shader, n0: nat, capacity: nat, maxLen: nat, L: nat, st: PrimeState)
    requires BoundedShader(shade) && L <= maxLen
    requires PrimeFits(n0, capacity, maxLen, L, st)
    ensures PrimeFits(n0, capacity, maxLen, L + 1, PrimeBounce(shade, capacity, maxLen, L, st))
  {
    assert shade(L, st.pathCount).shadowRays <= st.pathCount;
    assert shade(L, st.pathCount).extensionRays <= st.pathCount;
  }

  /** The input and output buffers stay the two buffers, one each; bounce
      j reads the buffer bounce j-1 wrote, and never the one it writes;
      every bounce but the last swaps the two. */
  predicate PrimeBuffersAlternate(inBuffer0: nat, outBuffer0: nat, maxLen: nat, L: nat, st: PrimeState)
  {
    && |st.readBuf| + 1 == L && |st.writeBuf| + 1 == L
    && BufferPair(st.inBuffer, st.outBuffer)
    && (forall j :: 0 <= j < L - 1 ==> BufferPair(st.readBuf[j], st.writeBuf[j]))
    && (forall j :: 0 < j < L - 1 ==> st.readBuf[j] == st.writeBuf[j - 1])
    && (L > 1 ==> st.readBuf[0] == inBuffer0 && st.writeBuf[0] == outBuffer0)
    && (L == 1 ==> st.inBuffer == inBuffer0 && st.outBuffer == outBuffer0)
    && (1 < L <= maxLen ==> st.inBuffer == st.writeBuf[L - 2] && st.outBuffer == st.readBuf[L - 2])
    && (1 < L == maxLen + 1 ==> st.inBuffer == st.readBuf[L - 2] && st.outBuffer == st.writeBuf[L - 2])
  }

  lemma PrimeBounceBuffers(shade: Shader, capacity: nat, inBuffer0: nat, outBuffer0: nat, maxLen: nat, L: nat, st: PrimeState)
    requires 1 <= L <= maxLen
    requires PrimeBuffersAlternate(inBuffer0, outBuffer0, maxLen, L, st)
    ensures PrimeBuffersAlternate(inBuffer0, outBuffer0, maxLen, L + 1, PrimeBounce(shade, capacity, maxLen, L, st))
  {
    PrimeBounceBufferFields(shade, capacity, maxLen, L, st);
  }

  /** Result of one OptiX Prime frame: per-bounce path counts, traced
      shadow rays and launch sizes, the largest number of pending shadow
      rays, the extension-ray buffer each bounce read from and wrote to,
      and the input and output buffers left for the next frame. */
  datatype PrimeFrame = PrimeFrame(
    counts: seq<nat>,
    traced: seq<ShadowRay>,
    launches: seq<nat>,
    peak: nat,
    readBuf: seq<nat>,
    writeBuf: seq<nat>,
    inBuffer: nat,
    outBuffer: nat)

  /** After the loop the shadow rays still pending are traced, if any. */
  function PrimeFinish(st: PrimeState): PrimeFrame
  {
    var traced := if |st.pending| > 0 then st.traced + st.pending else st.traced;
    var launches := if |st.pending| > 0 then st.launches + [|st.pending|] else st.launches;
    PrimeFrame(st.counts, traced, launches, st.peak, st.readBuf, st.writeBuf, st.inBuffer, st.outBuffer)
  }

  lemma PrimeFinishTracesRest(shade: Shader, n0: nat, capacity: nat, maxLen: nat, st: PrimeState)
    requires PrimeRaysAccountedFor(shade, maxLen + 1, st)
    requires PrimeFits(n0, capacity, maxLen, maxLen + 1, st)
    ensures var f := PrimeFinish(st);
      && f.traced == Emitted(shade, f.counts)
      && Total(f.launches) == |f.traced|
      && (n0 < capacity ==> AllPositive(f.launches))
  {
    if |st.pending| > 0 {
      TotalSnoc(st.launches, |st.pending|);
    } else {
      assert st.traced + st.pending == st.traced;
    }
  }

  /** The invariant of the OptiX Prime bounce loop before bounce `L`. */
  predicate PrimeLoopInv(shade: Shader, n0: nat, capacity: nat, maxLen: nat, inBuffer0: nat, outBuffer0: nat, L: nat, st: PrimeState)
  {
    && 1 <= L <= maxLen + 1
    && st.counts + PrimeSchedule(shade, L, st.pathCount, maxLen) == PrimeSchedule(shade, 1, n0, maxLen)
    && PrimeRaysAccountedFor(shade, L, st)
    && PrimeFits(n0, capacity, maxLen, L, st)
    && PrimeBuffersAlternate(inBuffer0, outBuffer0, maxLen, L, st)
  }

  lemma PrimeLoopStart(shade: Shader, n0: nat, capacity: nat, maxLen: nat, inBuffer0: nat, outBuffer0: nat)
    requires BufferPair(inBuffer0, outBuffer0)
    ensures PrimeLoopInv(shade, n0, capacity, maxLen, inBuffer0, outBuffer0, 1, PrimeStart(n0, inBuffer0, outBuffer0))
  {
    var st := PrimeStart(n0, inBuffer0, outBuffer0);
    assert st.counts + PrimeSchedule(shade, 1, st.pathCount, maxLen) == PrimeSchedule(shade, 1, n0, maxLen);
    assert st.traced + st.pending == [] == Emitted(shade, st.counts);
  }

  lemma PrimeLoopStep(shade: Shader, n0: nat, capacity: nat, maxLen: nat, inBuffer0: nat, outBuffer0: nat, L: nat, st: PrimeState)
    requires BoundedShader(shade) && L <= maxLen
    requires PrimeLoopInv(shade, n0, capacity, maxLen, inBuffer0, outBuffer0, L, st)
    ensures PrimeLoopInv(shade, n0, capacity, maxLen, inBuffer0, outBuffer0, L + 1, PrimeBounce(shade, capacity, maxLen, L, st))
  {
    PrimeBounceRays(shade, capacity, maxLen, L, st);
    PrimeBounceFits(shade, n0, capacity, maxLen, L, st);
    PrimeBounceBuffers(shade, capacity, inBuffer0, outBuffer0, maxLen, L, st);
    PrimeBounceSchedule(shade, capacity, maxLen, L, st);
  }

  /** What a finished OptiX Prime frame delivers: the bounces of the
      schedule, every emitted shadow ray traced once, launches that account
      for the traced rays (each non-empty when the primary paths fit
      strictly), no overflow, and the ping-pong buffer discipline. */
  predicate PrimeFrameCorrect(shade: Shader, n0: nat, capacity: nat, maxLen: nat, inBuffer0: nat, outBuffer0: nat, f: PrimeFrame)
  {
    && f.counts == PrimeSchedule(shade, 1, n0, maxLen) && |f.counts| == maxLen
    && f.traced == Emitted(shade, f.counts)
    && Total(f.launches) == |f.traced|
    && (n0 <= capacity ==> f.peak <= capacity)
    && (n0 < capacity ==> f.peak < capacity && AllPositive(f.launches))
    && |f.readBuf| == maxLen && |f.writeBuf| == maxLen
    && (forall j :: 0 <= j < maxLen ==> BufferPair(f.readBuf[j], f.writeBuf[j]))
    && (forall j :: 0 < j < maxLen ==> f.readBuf[j] == f.writeBuf[j - 1])
    && (maxLen > 0 ==> f.readBuf[0] == inBuffer0 && f.writeBuf[0] == outBuffer0)
    && (maxLen > 0 ==> f.inBuffer == f.readBuf[maxLen - 1] && f.outBuffer == f.writeBuf[maxLen - 1])
    && (maxLen == 0 ==> f.inBuffer == inBuffer0 && f.outBuffer == outBuffer0)
    && BufferPair(f.inBuffer, f.outBuffer)
  }

  lemma PrimeLoopExit(shade: Shader, n0: nat, capacity: nat, maxLen: nat, inBuffer0: nat, outBuffer0: nat, st: PrimeState)
    requires BoundedShader(shade)
    requires PrimeLoopInv(shade, n0, capacity, maxLen, inBuffer0, outBuffer0, maxLen + 1, st)
    ensures PrimeFrameCorrect(shade, n0, capacity, maxLen, inBuffer0, outBuffer0, PrimeFinish(st))
  {
    PrimeScheduleShape(shade, 1, n0, maxLen);
    assert PrimeSchedule(shade, maxLen + 1, st.pathCount, maxLen) == [];
    PrimeFinishTracesRest(shade, n0, capacity, maxLen, st);
  }

  /** The OptiX Prime bounce loop for `n0` primary paths, a shadow-ray
      buffer of `capacity` rays and extension-ray buffers 0 and 1. */
  method PrimeRenderLoop(shade: Shader, n0: nat, capacity: nat, maxLen: nat, inBuffer0: nat, outBuffer0: nat) returns (f: PrimeFrame)
    requires BoundedShader(shade)
    requires BufferPair(inBuffer0, outBuffer0)
    ensures f.counts == PrimeSchedule(shade, 1, n0, maxLen) && |f.counts| == maxLen
    ensures f.traced == Emitted(shade, f.counts)
    ensures Total(f.launches) == |f.traced|
    ensures n0 <= capacity ==> f.peak <= capacity
    ensures n0 < capacity ==> f.peak < capacity && AllPositive(f.launches)
    ensures |f.readBuf| == maxLen && |f.writeBuf| == maxLen
    ensures forall j :: 0 <= j < maxLen ==> BufferPair(f.readBuf[j], f.writeBuf[j])
    ensures forall j :: 0 < j < maxLen ==> f.readBuf[j] == f.writeBuf[j - 1]
    ensures maxLen > 0 ==> f.readBuf[0] == inBuffer0 && f.writeBuf[0] == outBuffer0
    ensures maxLen > 0 ==> f.inBuffer == f.readBuf[maxLen - 1] && f.outBuffer == f.writeBuf[maxLen - 1]
    ensures maxLen == 0 ==> f.inBuffer == inBuffer0 && f.outBuffer == outBuffer0
    ensures BufferPair(f.inBuffer, f.outBuffer)
  {
    var L := 1;
    var st := PrimeStart(n0, inBuffer0, outBuffer0);
    PrimeLoopStart(shade, n0, capacity, maxLen, inBuffer0, outBuffer0);
    while L <= maxLen
      invariant PrimeLoopInv(shade, n0, capacity, maxLen, inBuffer0, outBuffer0, L, st)
      decreases maxLen + 1 - L
    {
      PrimeLoopStep(shade, n0, capacity, maxLen, inBuffer0, outBuffer0, L, st);
      st := PrimeBounce(shade, capacity, maxLen, L, st);
      L := L + 1;
    }
    f := PrimeFinish(st);
    PrimeLoopExit(shade, n0, capacity, maxLen, inBuffer0, outBuffer0, st);
  }
}
