/**
  Scene instance and mesh registry of the two render cores.

  Meshes and instances arrive through a thin setter interface: a mesh index
  at or past the end of the list appends, a smaller one overwrites in place;
  an instance with mesh index -1 marks the end of the instance stream and
  truncates the list. `FinalizeInstances` then derives the flattened
  instance-descriptor table consumed by shading. Geometry and matrices are
  carried as opaque values: vertex data, acceleration structures and the
  matrix inversion are not modelled.
*/
module SceneRegistry {
  import opened Wrappers

  /** The 3x4 affine part of an instance matrix, as copied by the core. */
  datatype Transform = Transform(rows: seq<real>)

  /** A mesh as uploaded by SetGeometry. */
  datatype Mesh = Mesh(vertexCount: nat, triangleCount: nat)

  /** Descriptor used during shading: the mesh whose triangle buffer the
      instance uses, and the transform whose inverse it stores. */
  datatype InstanceDesc = InstanceDesc(triangles: nat, inverseOf: Transform)

  // ---------------------------------------------------------------------
  // Meshes (identical in both cores)
  // ---------------------------------------------------------------------

  function SetGeometry(meshes: seq<Mesh>, meshIdx: int, vertexCount: nat, triangleCount: nat): (r: seq<Mesh>)
    requires 0 <= meshIdx <= |meshes|
    ensures |r| == if meshIdx == |meshes| then |meshes| + 1 else |meshes|
    ensures |r| > meshIdx && r[meshIdx] == Mesh(vertexCount, triangleCount)
    ensures forall i :: 0 <= i < |meshes| && i != meshIdx ==> r[i] == meshes[i]
  {
    var grown := if meshIdx >= |meshes| then meshes + [Mesh(0, 0)] else meshes;
    grown[meshIdx := Mesh(vertexCount, triangleCount)]
  }

  /** Uploads `geometry[k..]` as meshes k, k+1, ... in order. */
  function UploadFrom(meshes: seq<Mesh>, geometry: seq<Mesh>, k: nat): seq<Mesh>
    requires k <= |meshes| && k <= |geometry|
    decreases |geometry| - k
  {
    if k == |geometry| then meshes
    else UploadFrom(SetGeometry(meshes, k, geometry[k].vertexCount, geometry[k].triangleCount), geometry, k + 1)
  }

  /** First-time population in sequential order creates exactly one mesh per
      upload, holding the uploaded geometry. */
  lemma {:induction false} SequentialUploadCreatesMeshes(meshes: seq<Mesh>, geometry: seq<Mesh>, k: nat)
    requires |meshes| == k && k <= |geometry|
    requires forall i :: 0 <= i < k ==> meshes[i] == geometry[i]
    ensures UploadFrom(meshes, geometry, k) == geometry
    decreases |geometry| - k
  {
    if k < |geometry| {
      var next := SetGeometry(meshes, k, geometry[k].vertexCount, geometry[k].triangleCount);
      assert forall i :: 0 <= i < k + 1 ==> next[i] == geometry[i];
      SequentialUploadCreatesMeshes(next, geometry, k + 1);
    } else {
      assert meshes == geometry;
    }
  }

  // ---------------------------------------------------------------------
  // The end-of-stream sentinel (identical in both cores)
  // ---------------------------------------------------------------------

  /** The list is cut back to the sentinel's index only when it is longer
      than that index; the length is compared unsigned, so a negative index
      never truncates. */
  function Truncate<T>(instances: seq<T>, instanceIdx: int): (r: seq<T>)
    ensures 0 <= instanceIdx < |instances| ==> r == instances[..instanceIdx]
    ensures !(0 <= instanceIdx < |instances|) ==> r == instances
    ensures |r| <= |instances| && r <= instances
  {
    if 0 <= instanceIdx < |instances| then instances[..instanceIdx] else instances
  }

  // ---------------------------------------------------------------------
  // OptiX 7 instances
  // ---------------------------------------------------------------------

  /** A CoreInstance of the OptiX 7 core: the mesh it draws, its transform,
      and the OptixInstance record handed to the top-level build (its id,
      its own copy of the transform, and the mesh whose geometry handle it
      points at). */
  datatype Optix7Instance = Optix7Instance(
    mesh: int,
    transform: Transform,
    instanceId: nat,
    recordTransform: Transform,
    handleMesh: nat)

  function Optix7SetInstance(instances: seq<Optix7Instance>, meshCount: nat, instanceIdx: int, meshIdx: int, m: Transform): (r: seq<Optix7Instance>)
    requires meshIdx != -1 ==> 0 <= instanceIdx <= |instances|
    requires meshIdx != -1 && instanceIdx == |instances| ==> 0 <= meshIdx < meshCount
    ensures meshIdx == -1 ==> r == Truncate(instances, instanceIdx)
    ensures meshIdx != -1 ==>
      && |r| == (if instanceIdx == |instances| then |instances| + 1 else |instances|)
      && r[instanceIdx].mesh == meshIdx
      && r[instanceIdx].transform == m && r[instanceIdx].recordTransform == m
      && (forall i :: 0 <= i < |r| && i != instanceIdx ==> r[i] == instances[i])
    ensures meshIdx != -1 && instanceIdx == |instances| ==>
      r[instanceIdx].instanceId == instanceIdx && r[instanceIdx].handleMesh == meshIdx
    ensures meshIdx != -1 && instanceIdx < |instances| ==>
      r[instanceIdx].instanceId == instances[instanceIdx].instanceId &&
      r[instanceIdx].handleMesh == instances[instanceIdx].handleMesh
  {
    if meshIdx == -1 then Truncate(instances, instanceIdx)
    else
      var grown := if instanceIdx >= |instances| then instances + [Optix7Instance(meshIdx, m, instanceIdx, m, meshIdx)] else instances;
      grown[instanceIdx := grown[instanceIdx].(transform := m, recordTransform := m, mesh := meshIdx)]
  }

  /** Every OptixInstance record carries its own slot as instance id. */
  predicate IdsMatchSlots(instances: seq<Optix7Instance>)
  {
    forall i :: 0 <= i < |instances| ==> instances[i].instanceId == i
  }

  /** SetInstance keeps instance ids equal to slot numbers. */
  lemma Optix7SetInstanceKeepsIds(instances: seq<Optix7Instance>, meshCount: nat, instanceIdx: int, meshIdx: int, m: Transform)
    requires meshIdx != -1 ==> 0 <= instanceIdx <= |instances|
    requires meshIdx != -1 && instanceIdx == |instances| ==> 0 <= meshIdx < meshCount
    requires IdsMatchSlots(instances)
    ensures IdsMatchSlots(Optix7SetInstance(instances, meshCount, instanceIdx, meshIdx, m))
  {
  }

  /** One entry of the instance stream sent to SetInstance. */
  datatype InstanceUpdate = InstanceUpdate(mesh: nat, transform: Transform)

  /** Sends `stream[k..]` as instances k, k+1, ... and then the -1 sentinel. */
  function Optix7ApplyStream(instances: seq<Optix7Instance>, meshCount: nat, stream: seq<InstanceUpdate>, k: nat): seq<Optix7Instance>
    requires k <= |instances| && k <= |stream|
    requires forall j :: 0 <= j < |stream| ==> stream[j].mesh < meshCount
    decreases |stream| - k
  {
    if k == |stream| then Optix7SetInstance(instances, meshCount, k, -1, Transform([]))
    else
      var next := Optix7SetInstance(instances, meshCount, k, stream[k].mesh, stream[k].transform);
      Optix7ApplyStream(next, meshCount, stream, k + 1)
  }

  /** A full instance stream followed by the sentinel leaves exactly one
      instance per stream entry, with the streamed mesh and transform,
      whatever the list held before. */
  lemma {:induction false} Optix7StreamDefinesInstances(instances: seq<Optix7Instance>, meshCount: nat, stream: seq<InstanceUpdate>, k: nat)
    requires k <= |instances| && k <= |stream|
    requires forall j :: 0 <= j < |stream| ==> stream[j].mesh < meshCount
    requires forall j :: 0 <= j < k ==> instances[j].mesh == stream[j].mesh && instances[j].transform == stream[j].transform
    ensures var r := Optix7ApplyStream(instances, meshCount, stream, k);
      && |r| == |stream|
      && forall j :: 0 <= j < |r| ==> r[j].mesh == stream[j].mesh && r[j].transform == stream[j].transform
    decreases |stream| - k
  {
    if k < |stream| {
      var next := Optix7SetInstance(instances, meshCount, k, stream[k].mesh, stream[k].transform);
      Optix7StreamDefinesInstances(next, meshCount, stream, k + 1);
    }
  }

  datatype Optix7Scene = Optix7Scene(
    meshes: seq<Mesh>,
    instances: seq<Optix7Instance>,
    instanceArray: seq<Optix7Instance>,  // host copy of the OptixInstance array, first |instances| slots
    instanceArrayCapacity: nat,
    descBuffer: Option<nat>,             // capacity of the descriptor buffer, None while null
    descs: seq<InstanceDesc>,            // descriptors written to that buffer
    instancesDirty: bool,
    gpuHasSceneData: bool)

  /** Every instance refers to an existing mesh. */
  predicate Optix7MeshesValid(s: Optix7Scene)
  {
    forall i :: 0 <= i < |s.instances| ==> 0 <= s.instances[i].mesh < |s.meshes|
  }

  /** The descriptor table an instance list calls for. */
  function Descriptors<I>(instances: seq<I>, mesh: I -> int, transform: I -> Transform): (r: seq<InstanceDesc>)
    requires forall i :: 0 <= i < |instances| ==> mesh(instances[i]) >= 0
    ensures |r| == |instances|
    ensures forall i :: 0 <= i < |r| ==> r[i] == InstanceDesc(mesh(instances[i]) as nat, transform(instances[i]))
  {
    seq(|instances|, i requires 0 <= i < |instances| => InstanceDesc(mesh(instances[i]) as nat, transform(instances[i])))
  }

  /** Descriptor buffer policy shared by both cores: reallocate at twice the
      instance count when null or too small. */
  function GrowDescBuffer(buf: Option<nat>, count: nat): (r: nat)
    ensures r >= count
    ensures buf.Some? && buf.value >= count ==> r == buf.value
    ensures buf.None? || buf.value < count ==> r == 2 * count
  {
    if buf.None? || buf.value < count then 2 * count else buf.value
  }

  function Optix7FinalizeInstances(s: Optix7Scene): (r: Optix7Scene)
    requires Optix7MeshesValid(s)
    ensures r.meshes == s.meshes && r.instancesDirty == s.instancesDirty
    ensures |r.instances| == |s.instances|
    ensures forall i :: 0 <= i < |r.instances| ==>
      r.instances[i] == s.instances[i].(handleMesh := s.instances[i].mesh as nat)
    ensures r.instanceArray == r.instances
    ensures r.instanceArrayCapacity >= |s.instances|
    ensures |s.instances| <= s.instanceArrayCapacity ==> r.instanceArrayCapacity == s.instanceArrayCapacity
    ensures |s.instances| > s.instanceArrayCapacity ==> r.instanceArrayCapacity == |s.instances| + 4
    ensures s.instancesDirty ==>
      && r.descBuffer == Some(GrowDescBuffer(s.descBuffer, |s.instances|))
      && |r.descs| == |s.instances|
      && forall i :: 0 <= i < |r.descs| ==>
           r.descs[i] == InstanceDesc(s.instances[i].mesh as nat, s.instances[i].transform)
    ensures !s.instancesDirty ==> r.descBuffer == s.descBuffer && r.descs == s.descs
    ensures r.gpuHasSceneData
  {
    var n := |s.instances|;
    var capacity := if n > s.instanceArrayCapacity then n + 4 else s.instanceArrayCapacity;
    var refreshed := seq(n, i requires 0 <= i < n => s.instances[i].(handleMesh := s.instances[i].mesh as nat));
    var s1 := s.(instances := refreshed, instanceArray := refreshed, instanceArrayCapacity := capacity);
    var s2 :=
      if s.instancesDirty then
        s1.(descBuffer := Some(GrowDescBuffer(s.descBuffer, n)),
            descs := Descriptors(s.instances, (x: Optix7Instance) => x.mesh, (x: Optix7Instance) => x.transform))
      else s1;
    s2.(gpuHasSceneData := true)
  }

  /** After FinalizeInstances every OptixInstance record points at the
      geometry of its own instance's mesh, even for instances whose mesh was
      changed by SetInstance after creation. */
  lemma Optix7FinalizeRefreshesHandles(s: Optix7Scene)
    requires Optix7MeshesValid(s)
    ensures var r := Optix7FinalizeInstances(s);
      forall i :: 0 <= i < |r.instanceArray| ==> r.instanceArray[i].handleMesh == r.instanceArray[i].mesh < |r.meshes|
  {
  }

  // ---------------------------------------------------------------------
  // OptiX Prime instances
  // ---------------------------------------------------------------------

  datatype PrimeInstance = PrimeInstance(mesh: int, transform: Transform)

  function PrimeSetInstance(instances: seq<PrimeInstance>, instanceIdx: int, meshIdx: int, m: Transform): (r: seq<PrimeInstance>)
    requires meshIdx != -1 ==> 0 <= instanceIdx <= |instances|
    ensures meshIdx == -1 ==> r == Truncate(instances, instanceIdx)
    ensures meshIdx != -1 ==>
      && |r| == (if instanceIdx == |instances| then |instances| + 1 else |instances|)
      && r[instanceIdx] == PrimeInstance(meshIdx, m)
      && (forall i :: 0 <= i < |r| && i != instanceIdx ==> r[i] == instances[i])
  {
    if meshIdx == -1 then Truncate(instances, instanceIdx)
    else
      var grown := if instanceIdx >= |instances| then instances + [PrimeInstance(0, m)] else instances;
      grown[instanceIdx := PrimeInstance(meshIdx, m)]
  }

  function PrimeApplyStream(instances: seq<PrimeInstance>, stream: seq<InstanceUpdate>, k: nat): seq<PrimeInstance>
    requires k <= |instances| && k <= |stream|
    decreases |stream| - k
  {
    if k == |stream| then PrimeSetInstance(instances, k, -1, Transform([]))
    else PrimeApplyStream(PrimeSetInstance(instances, k, stream[k].mesh, stream[k].transform), stream, k + 1)
  }

  lemma {:induction false} PrimeStreamDefinesInstances(instances: seq<PrimeInstance>, stream: seq<InstanceUpdate>, k: nat)
    requires k <= |instances| && k <= |stream|
    requires forall j :: 0 <= j < k ==> instances[j] == PrimeInstance(stream[j].mesh, stream[j].transform)
    ensures var r := PrimeApplyStream(instances, stream, k);
      && |r| == |stream|
      && forall j :: 0 <= j < |r| ==> r[j] == PrimeInstance(stream[j].mesh, stream[j].transform)
    decreases |stream| - k
  {
    if k < |stream| {
      PrimeStreamDefinesInstances(PrimeSetInstance(instances, k, stream[k].mesh, stream[k].transform), stream, k + 1);
    }
  }

  datatype PrimeScene = PrimeScene(
    meshes: seq<Mesh>,
    instances: seq<PrimeInstance>,
    descBuffer: Option<nat>,
    descs: seq<InstanceDesc>,
    instancesDirty: bool)

  predicate PrimeMeshesValid(s: PrimeScene)
  {
    forall i :: 0 <= i < |s.instances| ==> 0 <= s.instances[i].mesh < |s.meshes|
  }

  function PrimeFinalizeInstances(s: PrimeScene): (r: PrimeScene)
    requires s.instancesDirty ==> PrimeMeshesValid(s)
    ensures !s.instancesDirty ==> r == s
    ensures s.instancesDirty ==>
      && r == s.(descBuffer := r.descBuffer, descs := r.descs)
      && r.descBuffer == Some(GrowDescBuffer(s.descBuffer, |s.instances|))
      && |r.descs| == |s.instances|
      && forall i :: 0 <= i < |r.descs| ==>
           r.descs[i] == InstanceDesc(s.instances[i].mesh as nat, s.instances[i].transform)
  {
    if !s.instancesDirty then s
    else
      s.(descBuffer := Some(GrowDescBuffer(s.descBuffer, |s.instances|)),
         descs := Descriptors(s.instances, (x: PrimeInstance) => x.mesh, (x: PrimeInstance) => x.transform))
  }

  /** The instance and transform lists handed to the top-level build. */
  datatype TopLevelInput = TopLevelInput(models: seq<nat>, transforms: seq<Transform>)

  /** UpdateToplevel: one model and one transform per instance, in order,
      and the descriptor table marked for re-upload. */
  function PrimeUpdateToplevel(s: PrimeScene): (r: (PrimeScene, TopLevelInput))
    requires PrimeMeshesValid(s)
    ensures r.0 == s.(instancesDirty := true)
    ensures |r.1.models| == |s.instances| == |r.1.transforms|
    ensures forall i :: 0 <= i < |s.instances| ==>
      r.1.models[i] == s.instances[i].mesh && r.1.transforms[i] == s.instances[i].transform
  {
    var n := |s.instances|;
    (s.(instancesDirty := true),
     TopLevelInput(seq(n, i requires 0 <= i < n => s.instances[i].mesh as nat),
                   seq(n, i requires 0 <= i < n => s.instances[i].transform)))
  }

  /** The top level and the descriptor table agree: after UpdateToplevel,
      finalising publishes one descriptor per instance naming the model and
      the transform the top-level build received, whatever the dirty flag
      was before. */
  lemma ToplevelAndDescriptorsAgree(s: PrimeScene)
    requires PrimeMeshesValid(s)
    ensures var u := PrimeUpdateToplevel(s);
      var r := PrimeFinalizeInstances(u.0);
      && r.instances == s.instances && r.meshes == s.meshes
      && r.descBuffer == Some(GrowDescBuffer(s.descBuffer, |s.instances|))
      && |r.descs| == |u.1.models|
      && forall i :: 0 <= i < |r.descs| ==> r.descs[i] == InstanceDesc(u.1.models[i], u.1.transforms[i])
  {
  }
}
