/**
  Fixed-layout data the cores hand to their kernels: the packed screen
  parameters of the OptiX Prime core and the blue-noise table both cores
  build at start-up.
*/
module ScreenParams {
  import opened Wrappers

  const Word: nat := 0x1_0000_0000

  /** A value as the 32-bit pattern it leaves in an int field. */
  function Wrap32(x: nat): (r: nat)
    ensures r < Word
    ensures x < Word ==> r == x
  {
    x % Word
  }

  /** Path depth packed next to the sample count (a fixed 1). */
  const PathDepth: nat := 1

  datatype ScreenParams = ScreenParams(x: nat, y: nat, z: nat)

  /** `.x` holds width and height, `.y` samples per pixel and path depth,
      `.z` the path count; the float epsilon in `.w` is not modelled. */
  function GetScreenParams(w: nat, h: nat, spp: nat): (r: ScreenParams)
    ensures r.x < Word && r.y < Word && r.z < Word
  {
    ScreenParams(Wrap32(w + h * 0x1_0000), Wrap32(spp + PathDepth * 0x100), Wrap32(w * h * spp))
  }

  /** Within the field widths the kernel recovers every input: width and
      height from the low and high 16 bits of `.x`, samples and depth from
      the low 8 bits and the rest of `.y`, and the path count from `.z`. */
  lemma ScreenParamsDecode(w: nat, h: nat, spp: nat)
    requires w < 0x1_0000 && h < 0x1_0000 && spp < 0x100
    ensures var r := GetScreenParams(w, h, spp);
      && r.x % 0x1_0000 == w && r.x / 0x1_0000 == h
      && r.y % 0x100 == spp && r.y / 0x100 == PathDepth
      && (w * h * spp < Word ==> r.z == w * h * spp)
  {
    assert w + h * 0x1_0000 < Word;
  }

  /** Outside the field widths distinct screens pack alike: a width of
      2^16 reads back as height 1, and 256 samples per pixel read back as
      depth 2 with no samples. */
  lemma ScreenParamsAlias()
    ensures GetScreenParams(0x1_0000, 0, 1).x == GetScreenParams(0, 1, 1).x
    ensures GetScreenParams(1, 1, 0x100).y / 0x100 == 2 && GetScreenParams(1, 1, 0x100).y % 0x100 == 0
  {
  }

  type Byte = b: nat | b < 256

  /** Entries in the blue-noise table: five 64K-entry planes. */
  const NoiseEntries: nat := 65536 * 5
  const SobolEntries: nat := 65536
  const ScrambleEntries: nat := 128 * 128 * 8
  const RankingOffset: nat := 3 * 65536

  /** Widens the three 8-bit tables into one table of 32-bit entries: the
      Sobol table at 0, the scrambling table right behind it and the
      ranking table at plane 3. Entries never written stay `None`. */
  method BuildBlueNoise(sob: seq<Byte>, scr: seq<Byte>, rnk: seq<Byte>) returns (data: seq<Option<nat>>)
    requires |sob| >= SobolEntries && |scr| >= ScrambleEntries && |rnk| >= ScrambleEntries
    ensures |data| == NoiseEntries
    ensures forall i :: 0 <= i < SobolEntries ==> data[i] == Some(sob[i] as nat)
    ensures forall i :: 0 <= i < ScrambleEntries ==> data[SobolEntries + i] == Some(scr[i] as nat)
    ensures forall i :: 0 <= i < ScrambleEntries ==> data[RankingOffset + i] == Some(rnk[i] as nat)
    ensures forall i :: 0 <= i < |data| ==> data[i].Some? && data[i].value < 256
  {
    var a := new Option<nat>[NoiseEntries](_ => None);
    var i := 0;
    while i < SobolEntries
      invariant 0 <= i <= SobolEntries
      invariant forall k :: 0 <= k < i ==> a[k] == Some(sob[k] as nat)
      invariant forall k :: i <= k < NoiseEntries ==> a[k] == None
    {
      a[i] := Some(sob[i] as nat);
      i := i + 1;
    }
    i := 0;
    while i < ScrambleEntries
      invariant 0 <= i <= ScrambleEntries
      invariant forall k :: 0 <= k < SobolEntries ==> a[k] == Some(sob[k] as nat)
      invariant forall k :: 0 <= k < i ==> a[SobolEntries + k] == Some(scr[k] as nat)
      invariant forall k :: SobolEntries + i <= k < NoiseEntries ==> a[k] == None
    {
      a[SobolEntries + i] := Some(scr[i] as nat);
      i := i + 1;
    }
    i := 0;
    while i < ScrambleEntries
      invariant 0 <= i <= ScrambleEntries
      invariant forall k :: 0 <= k < SobolEntries ==> a[k] == Some(sob[k] as nat)
      invariant forall k :: 0 <= k < ScrambleEntries ==> a[SobolEntries + k] == Some(scr[k] as nat)
      invariant forall k :: 0 <= k < i ==> a[RankingOffset + k] == Some(rnk[k] as nat)
      invariant forall k :: RankingOffset + i <= k < NoiseEntries ==> a[k] == None
    {
      a[RankingOffset + i] := Some(rnk[i] as nat);
      i := i + 1;
    }
    data := a[..];
    forall k | 0 <= k < |data|
      ensures data[k].Some? && data[k].value < 256
    {
      if k < SobolEntries {
        assert data[k] == Some(sob[k] as nat);
      } else if k < RankingOffset {
        assert data[SobolEntries + (k - SobolEntries)] == Some(scr[k - SobolEntries] as nat);
      } else {
        assert data[RankingOffset + (k - RankingOffset)] == Some(rnk[k - RankingOffset] as nat);
      }
    }
  }
}
