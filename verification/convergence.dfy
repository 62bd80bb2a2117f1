/**
  Progressive accumulation. Each frame adds its image to the accumulator
  and `samplesTaken` grows by the samples per pixel, so that the final pass
  can divide the accumulator by `samplesTaken`. A `Restart` frame, or the
  first `Converge` frame after one, starts a fresh accumulation.

  An accumulator is modelled as the list of the images (energies) of the
  frames added since it was last cleared.
*/
module Convergence {

  datatype Convergence = Restart | Converge

  datatype Progress = Progress(samplesTaken: nat, firstConvergingFrame: bool, accumulated: seq<nat>)

  /** The accumulator holds exactly the samples `samplesTaken` claims. */
  predicate AverageIsExact(p: Progress, spp: nat)
  {
    p.samplesTaken == spp * |p.accumulated|
  }

  /** Start of a frame, shared by both cores: a restart or a pending first
      converging frame resets the sample count and marks the next frame as
      the first converging one; a converging frame clears that mark. */
  function BeginFrame(p: Progress, c: Convergence): (r: Progress)
    ensures r.accumulated == p.accumulated
    ensures c == Restart || p.firstConvergingFrame ==> r.samplesTaken == 0
    ensures c == Converge && !p.firstConvergingFrame ==> r.samplesTaken == p.samplesTaken
    ensures r.firstConvergingFrame <==> c == Restart
  {
    var q := if c.Restart? || p.firstConvergingFrame then p.(samplesTaken := 0, firstConvergingFrame := true) else p;
    if c.Converge? then q.(firstConvergingFrame := false) else q
  }

  /** OptiX 7 core: the accumulator is cleared when no samples are taken
      yet, the frame's image is added, and finalising adds the samples. */
  function Optix7Progress(p: Progress, c: Convergence, spp: nat, energy: nat): Progress
  {
    var b := BeginFrame(p, c);
    var acc := if b.samplesTaken == 0 then [energy] else b.accumulated + [energy];
    b.(accumulated := acc, samplesTaken := b.samplesTaken + spp)
  }

  /** OptiX Prime core: the accumulator is cleared together with the
      sample count, the image is added and the samples counted. */
  function PrimeProgress(p: Progress, c: Convergence, spp: nat, energy: nat): Progress
  {
    var b := BeginFrame(p, c);
    var acc := if c == Restart || p.firstConvergingFrame then [energy] else b.accumulated + [energy];
    b.(accumulated := acc, samplesTaken := b.samplesTaken + spp)
  }

  /** Both cores keep the accumulator and the sample count in step, so the
      final division yields the average of the accumulated frames. */
  lemma ProgressKeepsAverage(p: Progress, c: Convergence, spp: nat, energy: nat)
    requires AverageIsExact(p, spp)
    ensures AverageIsExact(Optix7Progress(p, c, spp, energy), spp)
    ensures AverageIsExact(PrimeProgress(p, c, spp, energy), spp)
    ensures spp > 0 ==> Optix7Progress(p, c, spp, energy) == PrimeProgress(p, c, spp, energy)
  {
    var b := BeginFrame(p, c);
    if b.samplesTaken == 0 && !(c == Restart || p.firstConvergingFrame) && spp > 0 {
      assert |p.accumulated| == 0;
    }
  }

  /** A run of frames with the given convergence modes and images. */
  function Run(p: Progress, modes: seq<Convergence>, spp: nat, energies: seq<nat>): Progress
    requires |modes| == |energies|
  {
    if |modes| == 0 then p
    else
      var k := |modes| - 1;
      Optix7Progress(Run(p, modes[..k], spp, energies[..k]), modes[k], spp, energies[k])
  }

  /** After a restart frame and k >= 1 converging frames the accumulator
      holds exactly the k converging frames: the restart frame's image is
      dropped by the first converging frame, which starts over. */
  lemma {:induction false} ConvergingRunAccumulates(p: Progress, spp: nat, energies: seq<nat>)
    requires 2 <= |energies| && spp > 0
    ensures var modes := [Restart] + seq(|energies| - 1, _ => Converge);
      var r := Run(p, modes, spp, energies);
      && r.accumulated == energies[1..]
      && r.samplesTaken == (|energies| - 1) * spp
      && !r.firstConvergingFrame
  {
    var n := |energies|;
    var modes := [Restart] + seq(n - 1, _ => Converge);
    var k := n - 1;
    assert modes[..k] == [Restart] + seq(k - 1, _ => Converge);
    assert modes[k] == Converge;
    if n == 2 {
      assert modes[..1] == [Restart] && energies[..1] == [energies[0]];
      var r0 := Run(p, modes[..1], spp, energies[..1]);
      assert modes[..1][..0] == [] && energies[..1][..0] == [];
      assert r0 == Optix7Progress(p, Restart, spp, energies[0]);
      assert r0.firstConvergingFrame;
      assert energies[1..] == [energies[1]];
    } else {
      ConvergingRunAccumulates(p, spp, energies[..k]);
      assert energies[..k][1..] + [energies[k]] == energies[1..];
      var prev := Run(p, modes[..k], spp, energies[..k]);
      assert prev.samplesTaken > 0;
    }
  }
}
