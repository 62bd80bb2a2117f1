/**
  Shadow rays of one frame, independent of when they are traced.

  The shade kernel is abstract: for bounce `L` and `n` live paths it
  reports how many extension rays (paths surviving to bounce L+1) and how
  many shadow rays (light connections) it emitted. A shadow ray is named by
  the bounce that emitted it and its rank among that bounce's shadow rays,
  so a ray keeps its identity whichever connection-buffer slot it lands in
  and whether or not the buffer is flushed early.

  The image a frame adds to the accumulator is the sum of the potentials of
  the shadow rays whose any-hit query finds the light visible; visibility
  and potential are abstract functions of the ray.
*/
module ShadowRays {

  datatype ShadowRay = ShadowRay(bounce: nat, rank: nat)

  datatype ShadeOutcome = ShadeOutcome(extensionRays: nat, shadowRays: nat)

  /** The shade kernel's counts: (bounce, live paths) -> outcome. */
  type Shader = (nat, nat) -> ShadeOutcome

  /** Each path yields at most one extension ray and at most one shadow ray
      per bounce. */
  ghost predicate BoundedShader(shade: Shader)
  {
    forall L: nat, n: nat :: shade(L, n).extensionRays <= n && shade(L, n).shadowRays <= n
  }

  /** The shadow rays emitted by bounce `L`, in emission order. */
  function BounceRays(L: nat, k: nat): (r: seq<ShadowRay>)
    ensures |r| == k
    ensures forall i :: 0 <= i < k ==> r[i].bounce == L && r[i].rank == i
  {
    seq(k, i requires 0 <= i => ShadowRay(L, i))
  }

  /** All shadow rays emitted by bounces 1..|counts|, where counts[j] is the
      number of live paths shaded at bounce j+1. */
  function Emitted(shade: Shader, counts: seq<nat>): seq<ShadowRay>
  {
    if |counts| == 0 then []
    else
      var L := |counts|;
      Emitted(shade, counts[..L - 1]) + BounceRays(L, shade(L, counts[L - 1]).shadowRays)
  }

  /** Membership in the emitted set: exactly the rays whose bounce was
      executed and whose rank is below that bounce's shadow-ray count. */
  lemma {:induction false} EmittedMembership(shade: Shader, counts: seq<nat>, s: ShadowRay)
    ensures s in Emitted(shade, counts) <==>
      1 <= s.bounce <= |counts| && s.rank < shade(s.bounce, counts[s.bounce - 1]).shadowRays
  {
    if |counts| > 0 {
      var L := |counts|;
      EmittedMembership(shade, counts[..L - 1], s);
      var b := BounceRays(L, shade(L, counts[L - 1]).shadowRays);
      assert s in b <==> s.bounce == L && s.rank < |b| by {
        if s.bounce == L && s.rank < |b| {
          assert b[s.rank] == s;
        }
      }
    }
  }

  predicate NoDuplicates<T(==)>(s: seq<T>)
  {
    forall i, j :: 0 <= i < j < |s| ==> s[i] != s[j]
  }

  /** No shadow ray is emitted twice. */
  lemma {:induction false} EmittedDistinct(shade: Shader, counts: seq<nat>)
    ensures NoDuplicates(Emitted(shade, counts))
    ensures forall s :: s in Emitted(shade, counts) ==> s.bounce <= |counts|
  {
    if |counts| > 0 {
      var L := |counts|;
      var init := counts[..L - 1];
      EmittedDistinct(shade, init);
      var a := Emitted(shade, init);
      var b := BounceRays(L, shade(L, counts[L - 1]).shadowRays);
      var e := a + b;
      forall i, j | 0 <= i < j < |e|
        ensures e[i] != e[j]
      {
        if j < |a| {
          assert e[i] == a[i] && e[j] == a[j];
        } else if i < |a| {
          assert e[i] == a[i] && a[i] in a;
          assert a[i].bounce <= L - 1;
          assert e[j] == b[j - |a|];
          assert b[j - |a|].bounce == L;
        } else {
          assert e[i] == b[i - |a|] && e[j] == b[j - |a|];
          assert b[i - |a|].rank != b[j - |a|].rank;
        }
      }
      forall s: ShadowRay | s in e
        ensures s.bounce <= L
      {
        if s in b {
          var k :| 0 <= k < |b| && b[k] == s;
        }
      }
    }
  }

  /** Adding bounces that shade no paths emits nothing more. */
  lemma {:induction false} EmittedIgnoresEmptyBounces(shade: Shader, counts: seq<nat>, k: nat)
    requires BoundedShader(shade)
    ensures Emitted(shade, counts + seq(k, _ => 0)) == Emitted(shade, counts)
  {
    if k > 0 {
      var longer := counts + seq(k, _ => 0);
      var shorter := counts + seq(k - 1, _ => 0);
      assert longer[..|longer| - 1] == shorter;
      assert longer[|longer| - 1] == 0;
      assert shade(|longer|, 0).shadowRays == 0;
      EmittedIgnoresEmptyBounces(shade, counts, k - 1);
    } else {
      assert counts + seq(k, _ => 0) == counts;
    }
  }

  /** Sum of the potentials of the visible rays. */
  function Energy(rays: seq<ShadowRay>, visible: ShadowRay -> bool, potential: ShadowRay -> nat): nat
  {
    if |rays| == 0 then 0
    else Energy(rays[..|rays| - 1], visible, potential) + (if visible(rays[|rays| - 1]) then potential(rays[|rays| - 1]) else 0)
  }

  /** Energy is additive over any split of the traced rays into launches. */
  lemma {:induction false} EnergyAppend(a: seq<ShadowRay>, b: seq<ShadowRay>, visible: ShadowRay -> bool, potential: ShadowRay -> nat)
    ensures Energy(a + b, visible, potential) == Energy(a, visible, potential) + Energy(b, visible, potential)
  {
    if |b| == 0 {
      assert a + b == a;
    } else {
      var b' := b[..|b| - 1];
      assert (a + b)[..|a + b| - 1] == a + b';
      assert (a + b)[|a + b| - 1] == b[|b| - 1];
      EnergyAppend(a, b', visible, potential);
    }
  }

  /** Bounce-by-bounce path counts of the OptiX 7 core, from bounce `L` with
      `n` live paths: after each bounce the loop stops when no extension ray
      was emitted or the bounce limit is reached. */
  function Optix7Schedule(shade: Shader, L: nat, n: nat, maxLen: nat): seq<nat>
    decreases maxLen - L
  {
    if L == 0 || L > maxLen then []
    else
      var e := shade(L, n).extensionRays;
      if e == 0 || L == maxLen then [n] else [n] + Optix7Schedule(shade, L + 1, e, maxLen)
  }

  /** Bounce-by-bounce path counts of the OptiX Prime core: every bounce up
      to the limit runs, also with no live paths. */
  function PrimeSchedule(shade: Shader, L: nat, n: nat, maxLen: nat): seq<nat>
    decreases maxLen - L
  {
    if L == 0 || L > maxLen then []
    else [n] + PrimeSchedule(shade, L + 1, shade(L, n).extensionRays, maxLen)
  }

  /** The OptiX 7 schedule runs between one bounce and the remaining limit,
      each count is the previous bounce's extension count, counts never
      grow, and it ends at the limit or at a bounce that emitted nothing. */
  lemma {:induction false} Optix7ScheduleShape(shade: Shader, L: nat, n: nat, maxLen: nat)
    requires BoundedShader(shade) && 1 <= L
    ensures var s := Optix7Schedule(shade, L, n, maxLen);
      && (L <= maxLen ==> 1 <= |s| <= maxLen + 1 - L && s[0] == n)
      && (L > maxLen ==> s == [])
      && (forall j :: 0 <= j < |s| ==> s[j] <= n)
      && (forall j :: 0 < j < |s| ==> 0 < s[j] == shade(L + j - 1, s[j - 1]).extensionRays)
      && (|s| > 0 ==> L + |s| - 1 == maxLen || shade(L + |s| - 1, s[|s| - 1]).extensionRays == 0)
    decreases maxLen - L
  {
    if L <= maxLen {
      var e := shade(L, n).extensionRays;
      if e != 0 && L != maxLen {
        var s := Optix7Schedule(shade, L, n, maxLen);
        var t := Optix7Schedule(shade, L + 1, e, maxLen);
        Optix7ScheduleShape(shade, L + 1, e, maxLen);
        assert s == [n] + t;
        forall j | 0 < j < |s|
          ensures 0 < s[j] == shade(L + j - 1, s[j - 1]).extensionRays
        {
          assert s[j] == t[j - 1];
          if j > 1 {
            assert s[j - 1] == t[j - 2];
          }
        }
      }
    }
  }

  /** The OptiX Prime schedule always has one entry per remaining bounce. */
  lemma {:induction false} PrimeScheduleShape(shade: Shader, L: nat, n: nat, maxLen: nat)
    requires BoundedShader(shade) && 1 <= L <= maxLen + 1
    ensures var p := PrimeSchedule(shade, L, n, maxLen);
      && |p| == maxLen + 1 - L
      && (|p| > 0 ==> p[0] == n)
      && (forall j :: 0 <= j < |p| ==> p[j] <= n)
      && (forall j :: 0 < j < |p| ==> p[j] == shade(L + j - 1, p[j - 1]).extensionRays)
    decreases maxLen - L
  {
    if L <= maxLen {
      var p := PrimeSchedule(shade, L, n, maxLen);
      var e := shade(L, n).extensionRays;
      var t := PrimeSchedule(shade, L + 1, e, maxLen);
      PrimeScheduleShape(shade, L + 1, e, maxLen);
      assert p == [n] + t;
      forall j | 0 < j < |p|
        ensures p[j] == shade(L + j - 1, p[j - 1]).extensionRays
      {
        assert p[j] == t[j - 1];
        if j > 1 {
          assert p[j - 1] == t[j - 2];
        }
      }
    }
  }

  /** Once no paths are alive, every later OptiX Prime bounce shades none. */
  lemma {:induction false} PrimeScheduleOfNoPaths(shade: Shader, L: nat, maxLen: nat)
    requires BoundedShader(shade) && 1 <= L
    ensures PrimeSchedule(shade, L, 0, maxLen) == seq(if L <= maxLen then maxLen + 1 - L else 0, _ => 0)
    decreases maxLen - L
  {
    if L <= maxLen {
      assert shade(L, 0).extensionRays == 0;
      PrimeScheduleOfNoPaths(shade, L + 1, maxLen);
    }
  }

  /** The OptiX Prime core shades the same bounces as the OptiX 7 core and
      then only bounces with no live paths. */
  lemma {:induction false} SchedulesAgree(shade: Shader, L: nat, n: nat, maxLen: nat)
    requires BoundedShader(shade) && 1 <= L
    ensures var s := Optix7Schedule(shade, L, n, maxLen);
      var p := PrimeSchedule(shade, L, n, maxLen);
      |s| <= |p| && p == s + seq(|p| - |s|, _ => 0)
    decreases maxLen - L
  {
    if L <= maxLen {
      var e := shade(L, n).extensionRays;
      var s := Optix7Schedule(shade, L, n, maxLen);
      var p := PrimeSchedule(shade, L, n, maxLen);
      if L == maxLen {
        assert PrimeSchedule(shade, L + 1, e, maxLen) == [];
      } else if e == 0 {
        PrimeScheduleOfNoPaths(shade, L + 1, maxLen);
      } else {
        SchedulesAgree(shade, L + 1, e, maxLen);
        var t := Optix7Schedule(shade, L + 1, e, maxLen);
        var q := PrimeSchedule(shade, L + 1, e, maxLen);
        assert p == [n] + q;
        assert s == [n] + t;
      }
    }
  }

  /** For the same abstract count kernel, the two bounce loops emit the same
      shadow rays. */
  lemma CoresEmitSameRays(shade: Shader, n0: nat, maxLen: nat)
    requires BoundedShader(shade)
    ensures Emitted(shade, PrimeSchedule(shade, 1, n0, maxLen)) == Emitted(shade, Optix7Schedule(shade, 1, n0, maxLen))
  {
    SchedulesAgree(shade, 1, n0, maxLen);
    var s := Optix7Schedule(shade, 1, n0, maxLen);
    var p := PrimeSchedule(shade, 1, n0, maxLen);
    EmittedIgnoresEmptyBounces(shade, s, |p| - |s|);
  }
}
