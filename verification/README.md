# lighthouse2 render cores: host-side control logic in Dafny

This project models the host side of two lighthouse2 wavefront path-tracing render cores:

- the OptiX 7 core with filtering, `lib/RenderCore_Optix7Filter/rendercore.cpp`;
- the OptiX Prime PBRT core, `lib/RenderCore_OptixPrime_PBRT/rendercore.cpp`.

The model does not draw pixels. It models the decisions the host makes around the GPU kernels:

- how large the per-path buffers are and when they are reallocated;
- how the mesh and instance lists are updated by their setter interface, and how the instance descriptor tables are derived from them;
- where each texture's texels start in the packed texel buffers;
- which index each material descriptor receives;
- how the light buffers grow;
- how the progressive accumulator and the sample count stay in step across `Restart` and `Converge` frames;
- which seeds the kernels receive;
- the wavefront bounce loop of each core.

In the bounce loop the shade kernel is abstract. For a bounce and a number of live paths it reports how many extension rays and how many shadow rays it emitted. Each path emits at most one of each.

A shadow ray is named by the bounce that emitted it and its rank within that bounce. This lets the model state that every emitted ray is traced exactly once, whatever the early traces ("flushes") the buffer capacity forces. The any-hit result and the potential contribution of a ray are abstract functions. The image a frame adds is the sum of the potentials of the visible rays.

The modules follow the source's concerns:

| file | module | contents |
|---|---|---|
| `wrappers.dfy` | `Wrappers` | `Option`, `Max` |
| `buffer_pool.dfy` | `BufferPool` | SetTarget's reallocation test and buffer sizes, both cores |
| `scene_registry.dfy` | `SceneRegistry` | SetGeometry, SetInstance, FinalizeInstances, UpdateToplevel (PBRT) |
| `textures.dfy` | `Textures` | SetTextures and SyncStorageType |
| `materials.dfy` | `Materials` | SetMaterials of the PBRT core |
| `lights.dfy` | `Lights` | StagedBufferResize and SetLights |
| `screen_params.dfy` | `ScreenParams` | GetScreenParams, the blue-noise table, 32-bit wrap |
| `convergence.dfy` | `Convergence` | accumulator and `samplesTaken` bookkeeping |
| `shadow_rays.dfy` | `ShadowRays` | abstract shader, emitted shadow rays, bounce schedules, image energy |
| `rng.dfy` | `Rng` | iteration of the abstract random step |
| `wavefront.dfy` | `Wavefront` | the two bounce loops |
| `optix7_core.dfy` | `Optix7Core` | the OptiX 7 core state: SetTarget, Render + FinalizeRender |
| `prime_core.dfy` | `PrimeCore` | the PBRT core state: SetTarget, Render |

Integer fields that the kernels read as 32-bit values are wrapped explicitly (`Wrap32`). These are the kernel seeds and the screen-parameter words.

The PBRT core has no early exit when a bounce emits no extension rays. Every bounce up to `MAXPATHLENGTH` runs, possibly over zero paths, and the schedule models this. `SchedulesAgree` shows that the extra bounces shade nothing.

## Model

| member | source | states |
|---|---|---|
| BufferPool.SlackRulesAgree | lib/RenderCore_Optix7Filter/rendercore.cpp:319-325 | The OptiX 7 slack rule `n + (n >> 4)` and the PBRT rule `n + n / 16` reserve the same capacity for every unsigned pixel count. That capacity is at least `n` and at most `n + n / 16`. |
| BufferPool.Optix7SetTarget | lib/RenderCore_Optix7Filter/rendercore.cpp:307-376 | Reallocation happens exactly when the new pixel count exceeds the capacity or the sample count changed. A reallocation records the new capacity and sizes every buffer from it. Otherwise the pool is untouched. Either way the capacity covers the target and the sample count is the requested one. |
| BufferPool.Optix7SetTargetCovers | lib/RenderCore_Optix7Filter/rendercore.cpp:346-350 | After SetTarget on a consistent pool, the pool is still consistent. The hit buffer holds every path, the path-state buffer three entries per path, the connection buffer two shadow rays per path, and the accumulator two entries per pixel. |
| BufferPool.Optix7SetTargetIdempotent | lib/RenderCore_Optix7Filter/rendercore.cpp:319-325 | Repeating SetTarget with the same target changes nothing and does not reallocate again. |
| BufferPool.PrimeSetTarget | lib/RenderCore_OptixPrime_PBRT/rendercore.cpp:139-198 | Same reallocation rule for the PBRT core, with its own buffer set: two extension-ray buffers, the extension hits, the shadow rays and potentials, the hit bitmask and the accumulator. |
| BufferPool.PrimeSetTargetCovers | lib/RenderCore_OptixPrime_PBRT/rendercore.cpp:177-187 | After SetTarget on a consistent pool, the pool is still consistent. Every buffer holds every path. The shadow buffers hold two rays per path, with one potential per ray, and the bitmask has a bit for every shadow-ray slot. |
| BufferPool.PrimeSetTargetIdempotent | lib/RenderCore_OptixPrime_PBRT/rendercore.cpp:151-157 | Repeating SetTarget with the same target changes nothing. |
| BufferPool.BitmaskWordsTight | lib/RenderCore_OptixPrime_PBRT/rendercore.cpp:183 | `(bits + 31) >> 5` words give one bit per shadow ray with less than one word to spare, and no words for no rays. |
| SceneRegistry.SetGeometry | lib/RenderCore_Optix7Filter/rendercore.cpp:383-391 | An index at the end of the list appends a mesh and any smaller index overwrites that mesh in place. Every other mesh is unchanged. |
| SceneRegistry.SequentialUploadCreatesMeshes | lib/RenderCore_Optix7Filter/rendercore.cpp:385-390 | First-time upload in sequential order yields exactly the uploaded meshes, one per call. |
| SceneRegistry.Truncate | lib/RenderCore_Optix7Filter/rendercore.cpp:401-405 | The `-1` sentinel shortens the instance list to the given index only when the list is longer. A negative index never truncates. The result is always a prefix of the list. |
| SceneRegistry.Optix7SetInstance | lib/RenderCore_Optix7Filter/rendercore.cpp:397-427 | Either truncates at the sentinel, or appends a new instance or updates an existing one with the new mesh and matrix, leaving the others unchanged. A new instance's record gets its slot as id and its mesh's geometry handle. An updated one keeps its id and its old handle. |
| SceneRegistry.Optix7SetInstanceKeepsIds | lib/RenderCore_Optix7Filter/rendercore.cpp:408-418 | Instance ids stay equal to slot numbers under every SetInstance call. |
| SceneRegistry.Optix7StreamDefinesInstances | lib/RenderCore_Optix7Filter/rendercore.cpp:397-427 | A full instance stream ended by the sentinel leaves exactly one instance per stream entry, carrying that entry's mesh and matrix, whatever the list held before. |
| SceneRegistry.GrowDescBuffer | lib/RenderCore_Optix7Filter/rendercore.cpp:469-476 | The descriptor buffer always fits the instances. It is kept when it is large enough and otherwise reallocated at twice the instance count. |
| SceneRegistry.Optix7FinalizeInstances | lib/RenderCore_Optix7Filter/rendercore.cpp:433-483 | The OptixInstance array grows to the instance count plus 4 when too small and otherwise keeps its size. It holds every instance with a refreshed geometry handle. When instances are dirty the descriptor table is rebuilt, one descriptor per instance with its mesh and transform. Rendering is enabled afterwards. |
| SceneRegistry.Optix7FinalizeRefreshesHandles | lib/RenderCore_Optix7Filter/rendercore.cpp:441-445 | After finalising, every OptixInstance record points at the geometry of its own instance's current mesh, which exists. |
| SceneRegistry.PrimeSetInstance | lib/RenderCore_OptixPrime_PBRT/rendercore.cpp:219-233 | Either truncates at the sentinel, or sets the slot's mesh and matrix, appending at the end of the list. Every other instance is unchanged. |
| SceneRegistry.PrimeStreamDefinesInstances | lib/RenderCore_OptixPrime_PBRT/rendercore.cpp:219-233 | A full instance stream ended by the sentinel leaves exactly the streamed instances. |
| SceneRegistry.PrimeFinalizeInstances | lib/RenderCore_OptixPrime_PBRT/rendercore.cpp:239-268 | A clean scene is returned unchanged. A dirty one gets the descriptor table of its instances in a buffer grown by the shared policy, and nothing else changes. |
| SceneRegistry.ToplevelAndDescriptorsAgree | lib/RenderCore_OptixPrime_PBRT/rendercore.cpp:573-593 | After UpdateToplevel, finalising publishes one descriptor per instance, naming the same model and transform that the top-level build received for that instance. This holds whatever the dirty flag was before, and the instances and meshes are unchanged. |
| Textures.SyncStorageType | lib/RenderCore_Optix7Filter/rendercore.cpp:509-553 | The buffer size is the total texel count of the storage type, at least 16. Only the offsets of that type change. Each texture of that type starts where the earlier ones end. The ranges are pairwise disjoint and inside the buffer. |
| Textures.PackedRangesDisjoint | lib/RenderCore_Optix7Filter/rendercore.cpp:536-547 | Packed offsets give pairwise disjoint texel ranges that lie inside any buffer holding the total. |
| Textures.SetTextures | lib/RenderCore_Optix7Filter/rendercore.cpp:489-501 | With no textures the descriptors are dropped and the texel buffers keep their sizes. Otherwise all three storage types end up packed: later passes do not disturb earlier offsets, each type's buffer holds all the texels of that type, and no other descriptor field changes. |
| Textures.PackedOffsetsKept | lib/RenderCore_Optix7Filter/rendercore.cpp:498-500 | Packing one storage type leaves the packed offsets of another type intact. |
| Materials.ReassignedRangeInBuffer | lib/RenderCore_OptixPrime_PBRT/rendercore.cpp:417-424 | Once the textures are packed, a reassigned reference points at its own texture's texel range. That range lies inside the buffer of the texture's storage type and is clear of every other texture of the same type. |
| Materials.ConvertLayout | lib/RenderCore_OptixPrime_PBRT/rendercore.cpp:372-456 | Every descriptor resolves to the material it was built from. Disney materials are numbered consecutively from 0. Non-Disney materials are numbered consecutively after whatever the PBRT table held at the start. |
| Materials.AsWrittenLayout | lib/RenderCore_OptixPrime_PBRT/rendercore.cpp:366-368 | As written, the PBRT table starts with one default-constructed material per input material. Non-Disney indices therefore start at the material count, and the table holds `materialCount` default-constructed entries ahead of the converted ones. |
| Materials.CorrectedLayout | lib/RenderCore_OptixPrime_PBRT/rendercore.cpp:366-456 | With the table only reserved, each kind is numbered from 0 and the PBRT table holds exactly the converted non-Disney materials. |
| Materials.AsWrittenIndexOffset | lib/RenderCore_OptixPrime_PBRT/rendercore.cpp:412 | For a scene with one non-Disney material: as written it gets index 1 and slot 0 is a default material; corrected, it gets index 0 in a one-entry table. |
| Lights.StagedBufferResize | lib/RenderCore_Optix7Filter/rendercore.cpp:609-620 | A reallocation happens exactly when the buffer is missing or too small, and then the buffer is exactly the new list. Otherwise the capacity is kept, the list overwrites the leading entries and older entries past it survive. |
| Lights.ResizeIsStable | lib/RenderCore_Optix7Filter/rendercore.cpp:612-616 | The capacity never shrinks. Loading the same list again neither reallocates nor changes the buffer. |
| Lights.Optix7SetLights | lib/RenderCore_Optix7Filter/rendercore.cpp:621-632 | All four light buffers exist and start with their lists, the four counts are staged in type order, and the no-lights flag is set exactly when all lists are empty. |
| Lights.PrimeSetLights | lib/RenderCore_OptixPrime_PBRT/rendercore.cpp:472-524 | The same buffer guarantees for the PBRT core, which leaves the no-lights flag alone. |
| Lights.CapacityIsHighWaterMark | lib/RenderCore_Optix7Filter/rendercore.cpp:612-616 | After loading two lists the buffer's capacity is that of the larger one. |
| ScreenParams.GetScreenParams | lib/RenderCore_OptixPrime_PBRT/rendercore.cpp:59-66 | Every packed field is a 32-bit value. |
| ScreenParams.ScreenParamsDecode | lib/RenderCore_OptixPrime_PBRT/rendercore.cpp:62-64 | Within the field widths the kernel reads back the width, height, samples per pixel, depth and path count. |
| ScreenParams.ScreenParamsAlias | lib/RenderCore_OptixPrime_PBRT/rendercore.cpp:62-63 | Outside the field widths distinct screens pack alike: a width of 65536 reads as height 1, and 256 samples read as depth 2 with no samples. |
| ScreenParams.BuildBlueNoise | lib/RenderCore_Optix7Filter/rendercore.cpp:268-275 | The Sobol table lands at entry 0, the scrambling table right after it and the ranking table at plane 3. Together they fill all five planes with 8-bit values. |
| Convergence.BeginFrame | lib/RenderCore_Optix7Filter/rendercore.cpp:744-751 | A restart, or a pending first converging frame, zeroes the sample count. Otherwise the count is kept. The first-converging mark is set exactly on a restart. |
| Convergence.ProgressKeepsAverage | lib/RenderCore_Optix7Filter/rendercore.cpp:778 | Both cores keep the sample count equal to the samples per pixel times the number of accumulated images. With samples per pixel above zero, the OptiX 7 rule (clear when `samplesTaken == 0`) and the PBRT rule (clear on restart) agree. |
| Convergence.ConvergingRunAccumulates | lib/RenderCore_Optix7Filter/rendercore.cpp:744-751 | After a restart frame and k ≥ 1 converging frames, the accumulator holds exactly the k converging images with k frames' samples. The restart frame's image is dropped. |
| ShadowRays.EmittedMembership | lib/RenderCore_Optix7Filter/rendercore.cpp:830-837 | A shadow ray is emitted exactly when its bounce ran and its rank is below that bounce's shadow-ray count. |
| ShadowRays.EmittedDistinct | lib/RenderCore_Optix7Filter/rendercore.cpp:830-837 | No shadow ray is emitted twice. |
| ShadowRays.EnergyAppend | lib/RenderCore_Optix7Filter/rendercore.cpp:852-857 | The image is additive over any split of the traced rays into launches. |
| ShadowRays.Optix7ScheduleShape | lib/RenderCore_Optix7Filter/rendercore.cpp:810-841 | The OptiX 7 loop shades at least one and at most the remaining bounces. It starts with the primary paths and feeds each bounce the previous bounce's extension rays, so counts never grow. It ends at the limit or after a bounce that emitted none. |
| ShadowRays.PrimeScheduleShape | lib/RenderCore_OptixPrime_PBRT/rendercore.cpp:628-659 | The PBRT loop shades every bounce up to the limit, feeding each bounce the previous bounce's extension rays. |
| ShadowRays.SchedulesAgree | lib/RenderCore_OptixPrime_PBRT/rendercore.cpp:628-659 | The PBRT loop shades the OptiX 7 bounces and after them only bounces with no live paths. |
| ShadowRays.CoresEmitSameRays | lib/RenderCore_OptixPrime_PBRT/rendercore.cpp:628-659 | For the same abstract count kernel, the two bounce loops emit the same shadow rays. |
| Wavefront.Optix7LoopCounts | lib/RenderCore_Optix7Filter/rendercore.cpp:810-851 | The OptiX 7 loop shades exactly the bounces of its schedule. |
| Wavefront.Optix7LoopRays | lib/RenderCore_Optix7Filter/rendercore.cpp:838-850 | Across early traces every emitted ray is traced or still pending, in emission order, and never twice. Launches are non-empty and account for the traced rays. |
| Wavefront.Optix7LoopPeak | lib/RenderCore_Optix7Filter/rendercore.cpp:842-850 | If the live paths and pending rays fit on entry, the pending shadow rays never exceed the connection buffer. |
| Wavefront.Optix7FrameTracesEveryRayOnce | lib/RenderCore_Optix7Filter/rendercore.cpp:773-857 | A corrected OptiX 7 frame shades its schedule and traces every emitted shadow ray exactly once, in launches of at least one ray. When the primary paths fit, the connection buffer never overflows. |
| Wavefront.FlushDoesNotChangeImage | lib/RenderCore_Optix7Filter/rendercore.cpp:842-850 | The traced rays and the image do not depend on the connection buffer's size: early traces only split the same rays into more launches. |
| Wavefront.Optix7AsWrittenRetraces | lib/RenderCore_Optix7Filter/rendercore.cpp:852-857 | As written, the final launch agrees with the corrected one unless an early trace fired on the last permitted bounce. In that case it traces that trace's rays a second time. |
| Wavefront.Optix7AsWrittenUnderDepthCap | lib/RenderCore_Optix7Filter/rendercore.cpp:838-857 | If the kernel ends every path at the bounce limit, the loop leaves before the overflow check on the last bounce. The local counter copy is then current, and the frame as written equals the corrected frame. |
| Wavefront.Optix7AsWrittenFrame | lib/RenderCore_Optix7Filter/rendercore.cpp:773-857 | The frame as written shades its schedule and traces every emitted shadow ray, in emission order, and nothing that was not emitted. It traces rays again only when the last permitted bounce ran, and never under the depth cap. The connection buffer never overflows when the primary paths fit. |
| Wavefront.StaleHostCopyRetraces | lib/RenderCore_Optix7Filter/rendercore.cpp:838-857 | For a 4x2 image at one sample per pixel where every path survives and connects, the frame as written traces the last bounce's 8 shadow rays twice. |
| Wavefront.PrimeBounceFits | lib/RenderCore_OptixPrime_PBRT/rendercore.cpp:661-678 | A bounce keeps the live paths plus the pending rays within the shadow-ray buffer. When the primary paths fit strictly, every early trace has rays to trace. |
| Wavefront.PrimeBounceBuffers | lib/RenderCore_OptixPrime_PBRT/rendercore.cpp:643-660 | The input and output indices always name the two extension-ray buffers, one each. Each bounce reads the input buffer and writes the output buffer, so it never reads the buffer it writes. Each bounce reads the buffer the previous bounce wrote. Every bounce but the last swaps both indices. |
| Wavefront.PrimeRenderLoop | lib/RenderCore_OptixPrime_PBRT/rendercore.cpp:628-702 | A PBRT frame runs every bounce to the limit and traces every emitted shadow ray exactly once. The launches account for the traced rays and are non-empty when the paths fit strictly. The shadow-ray buffer never overflows when the primary paths fit. The first bounce reads the starting input buffer and writes the starting output buffer. The buffers alternate after that, and the indices left for the next frame still name both buffers. |
| Optix7Core.SetTarget | lib/RenderCore_Optix7Filter/rendercore.cpp:307-376 | Resizes the pool, clears the accumulator and the sample count, and leaves the scene and seeds alone. From a consistent pool the core is ready for the new target. |
| Optix7Core.DrawKernelSeeds | lib/RenderCore_Optix7Filter/rendercore.cpp:834 | Each bounce draws the next value of the camera stream and adds `L * 91771` modulo 2^32. The stream ends one step per bounce further on. |
| Optix7Core.Render | lib/RenderCore_Optix7Filter/rendercore.cpp:737-857 | Without scene data nothing happens. Otherwise the frame, with its final launch as written, shades the OptiX 7 schedule and traces every emitted shadow ray in emission order. It traces each exactly once when the kernel ends every path at the bounce limit. The image of the traced rays is accumulated. Each shade launch gets its seed from the continuing camera stream. `blueSlot` and `frameCycle` advance modulo 256 and 4. |
| Optix7Core.RenderKeepsReady | lib/RenderCore_Optix7Filter/rendercore.cpp:897-902 | Rendering keeps the buffers consistent and the accumulator exact, and the connection buffer never overflows. |
| Optix7Core.SeedStreamContinues | lib/RenderCore_Optix7Filter/rendercore.cpp:744-749 | The camera seed is never reset. A frame's shade seeds continue the stream where the previous frame stopped, restart or not. |
| Optix7Core.RestartImageIsDiscarded | lib/RenderCore_Optix7Filter/rendercore.cpp:744-751 | A restart frame followed by a converging frame leaves only the converging image, with one frame's samples. |
| PrimeCore.SetTarget | lib/RenderCore_OptixPrime_PBRT/rendercore.cpp:139-199 | The same as the OptiX 7 SetTarget for the PBRT pool. |
| PrimeCore.KernelSeedsDistinct | lib/RenderCore_OptixPrime_PBRT/rendercore.cpp:647 | Within one frame, as long as the seed sum does not wrap, two bounces get the same shade seed exactly when they are the same bounce. |
| PrimeCore.RestartRepeatsNoise | lib/RenderCore_OptixPrime_PBRT/rendercore.cpp:607-613 | Same seed, same noise: every restart frame draws the same eye-ray seed and the shade seeds of sample count 0, whatever the camera stream and the sample count were before. |
| PrimeCore.ConvergingNoise | lib/RenderCore_OptixPrime_PBRT/rendercore.cpp:607-614 | The first converging frame after a restart draws a restart frame's noise. A later converging frame continues the camera stream and the sample count. |
| PrimeCore.Render | lib/RenderCore_OptixPrime_PBRT/rendercore.cpp:599-718 | The top level is rebuilt. A restart or a first converging frame resets the camera seed before the eye-ray draw. The frame shades the PBRT schedule, traces every emitted ray once and accumulates the image the OptiX 7 core would accumulate for the same abstract count kernel, visibility and potentials. The eye-ray seed and the shade seeds are the frame's noise (PrimeCore.FrameNoise). The buffer indices are swapped as the loop leaves them. The core stays ready and the shadow-ray buffer never overflows. |
| Rng.IterateAdd | lib/RenderCore_Optix7Filter/rendercore.cpp:834 | Drawing a values and then b more equals drawing a + b values from the same seed. |

## Left out

- GPU and driver calls are left out, along with the acceleration-structure builds. This covers OptiX, OptiX Prime, CUDA and OpenGL calls, and the OptiX 7 UpdateToplevel (685-715), which only builds device structures. Staging copies are identities in the model.
- Kernel bodies are left out: ray generation, extension, shading, finalizeConnections, the filter and TAA. The shade kernel enters as an abstract count function. Visibility and potential enter as abstract functions of the ray.
- The kernel's direct contributions to the accumulator are left out. The modelled image is the sum over connected shadow rays.
- Floating point is left out: view jitter, the Halton offsets, the geometry epsilon in `.w` of the screen parameters, the TOUINT4 packing and the eta bit pattern of the Disney conversion.
- The OptiX 7 SetMaterials is left out, and with it the float packing of the Disney conversion in both cores. A Disney table slot records only which input material it came from. The `materialCount + 512` slack of the device buffers is left out too.
- SetSkyData, Setting, SetProbePos, Shutdown and the statistics and timing code are not modelled. They hold no control logic.
- The asynchronous render thread and WaitForRender are left out. The model renders synchronously, which is the `async == false` path.
- `RandomUInt` is not part of this model. Its header is not available, so its step is a parameter `next`, and each call advances the seed to `next(seed)` and returns that value.
- `MAXPATHLENGTH` and the initial values of `inBuffer`, `outBuffer` and `firstConvergingFrame` are declared in headers that are not part of this model. The bounce limit is a parameter. The two buffer indices start as any pair that names both extension-ray buffers, one each; other values either index past the two buffer arrays or make a bounce write the buffer it reads.
- The two cores' kernels are compared through one abstract count kernel, visibility and potential. The model assumes these do not depend on the seed a launch receives, although the seeds differ (`RandomUInt( camRNGseed ) + pathLength * 91771` against `samplesTaken * 7907 + pathLength * 91771`). The accumulator layouts, two entries per pixel in the OptiX 7 core and one in the PBRT core, are not compared.
- The OptiX 7 core passes a null connection buffer to the shade kernel when the scene has no lights. The model leaves this to the abstract kernel, which is assumed to emit no shadow rays then.
- Setters with indices out of range are left out. The SetGeometry, SetInstance and FinalizeInstances preconditions exclude indices past the end of the list and instances that name a missing mesh. The source documents the sequential calling order as its callers' duty and indexes out of bounds otherwise.
- Unsigned 32-bit overflow of pixel counts, buffer sizes, texel totals and shadow-ray counters is not modelled. These are unbounded naturals in the model. Only the seeds and the screen-parameter words are wrapped.
- Wavefront.Optix7LoopPeak: proves the connection buffer does not overflow only when the primary paths fit in it. The source's own check is conservative in the same way.

## Findings

| source | as written | input that shows it | evidently intended | confidence | as-written member | corrected member |
|---|---|---|---|---|---|---|
| lib/RenderCore_OptixPrime_PBRT/rendercore.cpp:366-368 | `pbrtMaterials.resize( materialCount )` fills the PBRT table with default materials before the loop appends. A non-Disney material then gets index `materialCount + k` and the first `materialCount` slots are default materials. | one non-Disney material: descriptor index 1, slot 0 default-constructed | `reserve`, as for `matDesc`, so the k-th non-Disney material gets index k | not executed; holds if the kernel indexes the table by the descriptor index | Materials.AsWrittenIndexOffset | Materials.CorrectedLayout |
| lib/RenderCore_Optix7Filter/rendercore.cpp:852-857 | After an early trace the device counter is reset, but the host's local `counters` copy is not. If the trace fires on the last permitted bounce, the final launch re-traces those shadow rays. | 4x2 image, 1 spp (8 paths, 16 shadow-ray slots), every path extends and connects at every bounce, `MAXPATHLENGTH` ≥ 1: the last bounce's 8 rays are traced twice | launch over the live counter, or reset the local copy too | not executed; needs a kernel that emits extension rays on the final bounce, which Wavefront.Optix7AsWrittenUnderDepthCap rules out for a kernel that ends every path there | Wavefront.StaleHostCopyRetraces | Wavefront.Optix7FrameTracesEveryRayOnce |

Optix7Core.Render composes the frame with its final launch as written. Wavefront.Optix7AsWrittenFrame bounds what that frame traces, and Wavefront.Optix7AsWrittenUnderDepthCap shows that it equals the corrected frame whenever the kernel ends every path at the bounce limit.
