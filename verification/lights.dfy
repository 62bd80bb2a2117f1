/**
  Light buffers. Each of the four light types (triangle, point, spot and
  directional lights) lives in its own buffer that is reallocated only when
  it is missing or too small for the new list; otherwise the new lights are
  copied over its first entries and the whole buffer is staged to the
  device again. The light records themselves are opaque (type parameter
  `L`), and a buffer's host and device copies are equal once staged, so one
  sequence stands for both.
*/
module Lights {
  import opened Wrappers

  datatype LightBuffer<L> = LightBuffer(capacity: nat, entries: seq<L>)

  predicate WellSized<L>(b: LightBuffer<L>)
  {
    |b.entries| == b.capacity
  }

  datatype Resized<L> = Resized(buffer: LightBuffer<L>, reallocated: bool)

  /** Reallocate when missing or too small, then copy `source` into the
      leading entries; entries past the new count keep their old lights. */
  function StagedBufferResize<L>(buf: Option<LightBuffer<L>>, source: seq<L>): (r: Resized<L>)
    requires buf.Some? ==> WellSized(buf.value)
    ensures WellSized(r.buffer)
    ensures r.reallocated <==> buf.None? || |source| > buf.value.capacity
    ensures r.buffer.capacity >= |source| && r.buffer.entries[..|source|] == source
    ensures r.reallocated ==> r.buffer.capacity == |source|
    ensures !r.reallocated ==> r.buffer.capacity == buf.value.capacity &&
                               r.buffer.entries[|source|..] == buf.value.entries[|source|..]
  {
    if buf.None? || |source| > buf.value.capacity then
      Resized(LightBuffer(|source|, source), true)
    else
      Resized(LightBuffer(buf.value.capacity, source + buf.value.entries[|source|..]), false)
  }

  /** Capacity never shrinks, and loading the same lights again does not
      reallocate and leaves the buffer as it was. */
  lemma ResizeIsStable<L>(buf: Option<LightBuffer<L>>, source: seq<L>)
    requires buf.Some? ==> WellSized(buf.value)
    ensures var r := StagedBufferResize(buf, source);
      && (buf.Some? ==> r.buffer.capacity >= buf.value.capacity)
      && StagedBufferResize(Some(r.buffer), source) == Resized(r.buffer, false)
  {
    var r := StagedBufferResize(buf, source);
    var b := r.buffer;
    assert b.entries[..|source|] + b.entries[|source|..] == b.entries;
  }

  datatype LightState<L> = LightState(
    tri: Option<LightBuffer<L>>,
    point: Option<LightBuffer<L>>,
    spot: Option<LightBuffer<L>>,
    directional: Option<LightBuffer<L>>,
    stagedCounts: seq<nat>,
    noDirectLightsInScene: bool)

  predicate LightStateWellSized<L>(st: LightState<L>)
  {
    && (st.tri.Some? ==> WellSized(st.tri.value))
    && (st.point.Some? ==> WellSized(st.point.value))
    && (st.spot.Some? ==> WellSized(st.spot.value))
    && (st.directional.Some? ==> WellSized(st.directional.value))
  }

  /** Every buffer exists, is large enough for its list and starts with it,
      and the four counts are staged in type order. */
  ghost predicate HoldsLights<L>(st: LightState<L>, tri: seq<L>, point: seq<L>, spot: seq<L>, dir: seq<L>)
  {
    && st.tri.Some? && st.tri.value.capacity >= |tri| && |st.tri.value.entries| >= |tri|
    && st.tri.value.entries[..|tri|] == tri
    && st.point.Some? && st.point.value.capacity >= |point| && |st.point.value.entries| >= |point|
    && st.point.value.entries[..|point|] == point
    && st.spot.Some? && st.spot.value.capacity >= |spot| && |st.spot.value.entries| >= |spot|
    && st.spot.value.entries[..|spot|] == spot
    && st.directional.Some? && st.directional.value.capacity >= |dir| && |st.directional.value.entries| >= |dir|
    && st.directional.value.entries[..|dir|] == dir
    && st.stagedCounts == [|tri|, |point|, |spot|, |dir|]
  }

  function LoadLights<L>(st: LightState<L>, tri: seq<L>, point: seq<L>, spot: seq<L>, dir: seq<L>): LightState<L>
    requires LightStateWellSized(st)
  {
    st.(tri := Some(StagedBufferResize(st.tri, tri).buffer),
        point := Some(StagedBufferResize(st.point, point).buffer),
        spot := Some(StagedBufferResize(st.spot, spot).buffer),
        directional := Some(StagedBufferResize(st.directional, dir).buffer),
        stagedCounts := [|tri|, |point|, |spot|, |dir|])
  }

  /** OptiX 7 core: load all four lists and record whether the scene has
      any light to connect to. */
  function Optix7SetLights<L>(st: LightState<L>, tri: seq<L>, point: seq<L>, spot: seq<L>, dir: seq<L>): (r: LightState<L>)
    requires LightStateWellSized(st)
    ensures LightStateWellSized(r) && HoldsLights(r, tri, point, spot, dir)
    ensures r.noDirectLightsInScene <==> |tri| + |point| + |spot| + |dir| == 0
  {
    LoadLights(st, tri, point, spot, dir).(noDirectLightsInScene := |tri| + |point| + |spot| + |dir| == 0)
  }

  /** OptiX Prime core: the same buffer policy; the no-lights flag is not
      maintained by this core. */
  function PrimeSetLights<L>(st: LightState<L>, tri: seq<L>, point: seq<L>, spot: seq<L>, dir: seq<L>): (r: LightState<L>)
    requires LightStateWellSized(st)
    ensures LightStateWellSized(r) && HoldsLights(r, tri, point, spot, dir)
    ensures r.noDirectLightsInScene == st.noDirectLightsInScene
  {
    LoadLights(st, tri, point, spot, dir)
  }

  /** Shrinking a light list keeps the larger buffer: the capacity is that
      of the largest list loaded so far. */
  lemma CapacityIsHighWaterMark<L>(st: LightState<L>, a: seq<L>, b: seq<L>)
    requires LightStateWellSized(st) && st.tri.None?
    ensures var r := Optix7SetLights(Optix7SetLights(st, a, [], [], []), b, [], [], []);
      r.tri.value.capacity == Max(|a|, |b|)
  {
  }
}
