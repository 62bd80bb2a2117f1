/**
  Texel packing. For each texel storage type the core concatenates the
  texels of every texture of that type into one device buffer and records,
  in each texture descriptor, where its texels start (`firstPixel`).
*/
module Textures {
  import opened Wrappers

  datatype TexelStorage = ARGB32 | ARGB128 | NRM32

  datatype TexDesc = TexDesc(storage: TexelStorage, pixelCount: nat, firstPixel: nat, width: nat, height: nat)

  /** Texels of storage type `storage` in `descs`: the reference sum. */
  function StorageTotal(descs: seq<TexDesc>, storage: TexelStorage): nat
  {
    if |descs| == 0 then 0
    else
      var last := descs[|descs| - 1];
      StorageTotal(descs[..|descs| - 1], storage) + (if last.storage == storage then last.pixelCount else 0)
  }

  /** Extending the prefix never decreases the running total. */
  lemma {:induction false} StorageTotalMonotone(descs: seq<TexDesc>, storage: TexelStorage, i: nat, j: nat)
    requires i <= j <= |descs|
    ensures StorageTotal(descs[..i], storage) <= StorageTotal(descs[..j], storage)
    decreases j - i
  {
    if i < j {
      StorageTotalMonotone(descs, storage, i, j - 1);
      assert descs[..j][..j - 1] == descs[..j - 1];
    }
  }

  /** Same storage types and pixel counts, slot by slot. */
  predicate SameCounts(a: seq<TexDesc>, b: seq<TexDesc>)
  {
    && |a| == |b|
    && forall i :: 0 <= i < |a| ==> a[i].storage == b[i].storage && a[i].pixelCount == b[i].pixelCount
  }

  /** Only the `firstPixel` fields of textures of `storage` may differ. */
  predicate SameExceptOffsets(a: seq<TexDesc>, b: seq<TexDesc>, storage: TexelStorage)
  {
    && |a| == |b|
    && forall i :: 0 <= i < |a| ==>
         (if a[i].storage == storage then b[i] == a[i].(firstPixel := b[i].firstPixel) else b[i] == a[i])
  }

  /** Each texture of `storage` starts where the earlier ones of that storage end. */
  predicate PackedOffsets(descs: seq<TexDesc>, storage: TexelStorage)
  {
    forall i :: 0 <= i < |descs| && descs[i].storage == storage ==>
      descs[i].firstPixel == StorageTotal(descs[..i], storage)
  }

  /** Packed texel ranges of one storage type are pairwise disjoint and lie
      inside any buffer that holds the total. */
  lemma PackedRangesDisjoint(descs: seq<TexDesc>, storage: TexelStorage, bufferSize: nat)
    requires PackedOffsets(descs, storage)
    requires bufferSize >= StorageTotal(descs, storage)
    ensures forall i :: 0 <= i < |descs| && descs[i].storage == storage ==>
      descs[i].firstPixel + descs[i].pixelCount <= bufferSize
    ensures forall i, j :: 0 <= i < j < |descs| && descs[i].storage == storage && descs[j].storage == storage ==>
      descs[i].firstPixel + descs[i].pixelCount <= descs[j].firstPixel
  {
    forall k | 0 <= k < |descs| && descs[k].storage == storage
      ensures descs[k].firstPixel + descs[k].pixelCount <= bufferSize
    {
      assert descs[..k + 1][..k] == descs[..k];
      StorageTotalMonotone(descs, storage, k + 1, |descs|);
      assert descs[..|descs|] == descs;
    }
    forall a, b | 0 <= a < b < |descs| && descs[a].storage == storage && descs[b].storage == storage
      ensures descs[a].firstPixel + descs[a].pixelCount <= descs[b].firstPixel
    {
      assert descs[..a + 1][..a] == descs[..a];
      StorageTotalMonotone(descs, storage, a + 1, b);
    }
  }

  /** SyncStorageType: the buffer size for one storage type and the
      descriptors with their texel offsets filled in. */
  method SyncStorageType(descs: seq<TexDesc>, storage: TexelStorage) returns (bufferSize: nat, r: seq<TexDesc>)
    ensures bufferSize == Max(16, StorageTotal(descs, storage))
    ensures SameExceptOffsets(descs, r, storage)
    ensures PackedOffsets(r, storage)
    ensures forall i :: 0 <= i < |r| && r[i].storage == storage ==> r[i].firstPixel + r[i].pixelCount <= bufferSize
    ensures forall i, j :: 0 <= i < j < |r| && r[i].storage == storage && r[j].storage == storage ==>
      r[i].firstPixel + r[i].pixelCount <= r[j].firstPixel
  {
    var texelTotal := 0;
    var i := 0;
    while i < |descs|
      invariant 0 <= i <= |descs|
      invariant texelTotal == StorageTotal(descs[..i], storage)
    {
      assert descs[..i + 1][..i] == descs[..i];
      if descs[i].storage == storage {
        texelTotal := texelTotal + descs[i].pixelCount;
      }
      i := i + 1;
    }
    assert descs[..i] == descs;
    bufferSize := Max(16, texelTotal);
    // second pass: record each texture's offset into the packed buffer
    r := descs;
    texelTotal := 0;
    i := 0;
    while i < |descs|
      invariant 0 <= i <= |descs|
      invariant texelTotal == StorageTotal(descs[..i], storage)
      invariant SameExceptOffsets(descs, r, storage)
      invariant forall k :: i <= k < |r| ==> r[k] == descs[k]
      invariant forall k :: 0 <= k < i && descs[k].storage == storage ==> r[k].firstPixel == StorageTotal(descs[..k], storage)
    {
      assert descs[..i + 1][..i] == descs[..i];
      if descs[i].storage == storage {
        r := r[i := descs[i].(firstPixel := texelTotal)];
        texelTotal := texelTotal + descs[i].pixelCount;
      }
      i := i + 1;
    }
    SameExceptOffsetsSameCounts(descs, r, storage);
    forall k | 0 <= k < |r| && r[k].storage == storage
      ensures r[k].firstPixel == StorageTotal(r[..k], storage)
    {
      StorageTotalIgnoresOffsets(descs[..k], r[..k], storage);
    }
    StorageTotalIgnoresOffsets(descs, r, storage);
    PackedRangesDisjoint(r, storage, bufferSize);
  }

  lemma SameExceptOffsetsSameCounts(a: seq<TexDesc>, b: seq<TexDesc>, storage: TexelStorage)
    requires SameExceptOffsets(a, b, storage)
    ensures SameCounts(a, b)
    ensures forall k :: 0 <= k <= |a| ==> SameCounts(a[..k], b[..k])
  {
  }

  /** The running total depends only on storage types and pixel counts. */
  lemma {:induction false} StorageTotalIgnoresOffsets(a: seq<TexDesc>, b: seq<TexDesc>, storage: TexelStorage)
    requires SameCounts(a, b)
    ensures StorageTotal(a, storage) == StorageTotal(b, storage)
    decreases |a|
  {
    if |a| > 0 {
      StorageTotalIgnoresOffsets(a[..|a| - 1], b[..|b| - 1], storage);
    }
  }

  /** The three texel buffers and the current descriptors. */
  datatype TextureStore = TextureStore(descs: seq<TexDesc>, argb32Size: nat, argb128Size: nat, nrm32Size: nat)

  /** Size, in texels, of the device buffer of one storage type. */
  function BufferSize(store: TextureStore, storage: TexelStorage): nat
  {
    match storage
    case ARGB32 => store.argb32Size
    case ARGB128 => store.argb128Size
    case NRM32 => store.nrm32Size
  }

  /** The textures of `storage` are packed, in order, into its buffer. */
  predicate PackedInto(store: TextureStore, storage: TexelStorage)
  {
    PackedOffsets(store.descs, storage) && StorageTotal(store.descs, storage) <= BufferSize(store, storage)
  }

  predicate Packed(store: TextureStore)
  {
    PackedInto(store, ARGB32) && PackedInto(store, ARGB128) && PackedInto(store, NRM32)
  }

  /** SetTextures: with no textures nothing is packed and the texel buffers
      keep their previous sizes; otherwise each storage type is packed in
      turn, every texture getting the offset of its own storage type. */
  method SetTextures(store: TextureStore, tex: seq<TexDesc>) returns (r: TextureStore)
    ensures |tex| == 0 ==> r == store.(descs := [])
    ensures |tex| > 0 ==>
      && r.argb32Size == Max(16, StorageTotal(tex, ARGB32))
      && r.argb128Size == Max(16, StorageTotal(tex, ARGB128))
      && r.nrm32Size == Max(16, StorageTotal(tex, NRM32))
      && |r.descs| == |tex|
      && (forall i :: 0 <= i < |tex| ==> r.descs[i] == tex[i].(firstPixel := r.descs[i].firstPixel))
      && PackedOffsets(r.descs, ARGB32) && PackedOffsets(r.descs, ARGB128) && PackedOffsets(r.descs, NRM32)
    ensures |tex| > 0 ==> Packed(r)
  {
    if |tex| == 0 {
      return store.(descs := []);
    }
    var size32, d1 := SyncStorageType(tex, ARGB32);
    var size128, d2 := SyncStorageType(d1, ARGB128);
    var sizeNrm, d3 := SyncStorageType(d2, NRM32);
    SameExceptOffsetsSameCounts(tex, d1, ARGB32);
    SameExceptOffsetsSameCounts(d1, d2, ARGB128);
    SameExceptOffsetsSameCounts(d2, d3, NRM32);
    StorageTotalIgnoresOffsets(tex, d1, ARGB128);
    StorageTotalIgnoresOffsets(tex, d1, NRM32);
    StorageTotalIgnoresOffsets(d1, d2, NRM32);
    PackedOffsetsKept(d1, d2, ARGB32, ARGB128);
    PackedOffsetsKept(d2, d3, ARGB32, NRM32);
    PackedOffsetsKept(d2, d3, ARGB128, NRM32);
    StorageTotalIgnoresOffsets(tex, d3, ARGB32);
    StorageTotalIgnoresOffsets(tex, d3, ARGB128);
    StorageTotalIgnoresOffsets(tex, d3, NRM32);
    r := TextureStore(d3, size32, size128, sizeNrm);
  }

  /** Packing one storage type leaves the offsets of another type intact. */
  lemma PackedOffsetsKept(a: seq<TexDesc>, b: seq<TexDesc>, kept: TexelStorage, packed: TexelStorage)
    requires kept != packed
    requires SameExceptOffsets(a, b, packed)
    requires PackedOffsets(a, kept)
    ensures PackedOffsets(b, kept)
  {
    SameExceptOffsetsSameCounts(a, b, packed);
    forall i | 0 <= i < |b| && b[i].storage == kept
      ensures b[i].firstPixel == StorageTotal(b[..i], kept)
    {
      StorageTotalIgnoresOffsets(a[..i], b[..i], kept);
    }
  }
}
