/**
  Material index assignment of the OptiX Prime (PBRT) core.

  Every input material gets one descriptor, in input order. Disney
  materials are converted into the compact GPU material table and numbered
  consecutively from 0. Any other material is copied into the PBRT
  material table with each texture reference rewritten from a texture id to
  that texture's texel offset and size; its descriptor index is the table's
  size at the moment it is appended. The float packing of the Disney
  conversion is not modelled: a Disney table slot records which input
  material it was converted from.
*/
module Materials {
  import opened Textures

  datatype MaterialType = Disney | Pbrt(code: nat)

  /** A textured material parameter: texture id (-1 for none) and size. */
  datatype TexRef = TexRef(textureID: int, width: nat, height: nat)

  datatype CoreMaterial = CoreMaterial(kind: MaterialType, params: seq<TexRef>)

  datatype MaterialDesc = MaterialDesc(kind: MaterialType, index: nat)

  /** A PBRT table slot: a default-constructed material or a converted one. */
  datatype PbrtSlot = DefaultConstructed | Converted(material: CoreMaterial)

  /** Descriptor list, Disney table (input index per slot) and PBRT table. */
  datatype MaterialTables = MaterialTables(descs: seq<MaterialDesc>, disney: seq<nat>, pbrt: seq<PbrtSlot>)

  /** Every texture id is -1 or names an existing texture descriptor. */
  predicate ValidTextureRefs(m: CoreMaterial, tex: seq<TexDesc>)
  {
    forall k :: 0 <= k < |m.params| ==> m.params[k].textureID == -1 || 0 <= m.params[k].textureID < |tex|
  }

  predicate AllValid(mats: seq<CoreMaterial>, tex: seq<TexDesc>)
  {
    forall i :: 0 <= i < |mats| ==> ValidTextureRefs(mats[i], tex)
  }

  /** The `reassign` step: a texture id becomes the texture's first texel. */
  function Reassign(p: TexRef, tex: seq<TexDesc>): (r: TexRef)
    requires p.textureID == -1 || 0 <= p.textureID < |tex|
    ensures p.textureID == -1 ==> r == p
    ensures p.textureID != -1 ==>
      r.textureID == tex[p.textureID].firstPixel && r.width == tex[p.textureID].width && r.height == tex[p.textureID].height
  {
    if p.textureID != -1 then
      var t := tex[p.textureID];
      TexRef(t.firstPixel, t.width, t.height)
    else p
  }

  /** Once the textures are packed, a reassigned reference points at its
      own texture's texel range: inside the buffer of the texture's storage
      type and clear of every other texture of that type. */
  lemma ReassignedRangeInBuffer(p: TexRef, store: TextureStore)
    requires Packed(store) && 0 <= p.textureID < |store.descs|
    ensures var t := store.descs[p.textureID];
      var r := Reassign(p, store.descs);
      && r.textureID + t.pixelCount <= BufferSize(store, t.storage)
      && forall j :: 0 <= j < |store.descs| && j != p.textureID && store.descs[j].storage == t.storage ==>
           r.textureID + t.pixelCount <= store.descs[j].firstPixel
           || store.descs[j].firstPixel + store.descs[j].pixelCount <= r.textureID
  {
    var t := store.descs[p.textureID];
    PackedRangesDisjoint(store.descs, t.storage, BufferSize(store, t.storage));
  }

  function ReassignAll(m: CoreMaterial, tex: seq<TexDesc>): (r: CoreMaterial)
    requires ValidTextureRefs(m, tex)
    ensures r.kind == m.kind && |r.params| == |m.params|
    ensures forall k :: 0 <= k < |m.params| ==> r.params[k] == Reassign(m.params[k], tex)
  {
    m.(params := seq(|m.params|, k requires 0 <= k < |m.params| => Reassign(m.params[k], tex)))
  }

  /** Converts input material `i` and appends its descriptor. */
  function Step(acc: MaterialTables, i: nat, m: CoreMaterial, tex: seq<TexDesc>): MaterialTables
    requires ValidTextureRefs(m, tex)
  {
    if m.kind == Disney then
      acc.(descs := acc.descs + [MaterialDesc(Disney, |acc.disney|)], disney := acc.disney + [i])
    else
      acc.(descs := acc.descs + [MaterialDesc(m.kind, |acc.pbrt|)], pbrt := acc.pbrt + [Converted(ReassignAll(m, tex))])
  }

  /** The conversion loop over `mats`, starting from the tables `start`. */
  function Convert(mats: seq<CoreMaterial>, tex: seq<TexDesc>, start: MaterialTables): MaterialTables
    requires AllValid(mats, tex)
  {
    if |mats| == 0 then start
    else Step(Convert(mats[..|mats| - 1], tex, start), |mats| - 1, mats[|mats| - 1], tex)
  }

  /** SetMaterials as written: the PBRT table is first resized to one
      default-constructed entry per input material, then appended to. */
  function SetMaterialsAsWritten(mats: seq<CoreMaterial>, tex: seq<TexDesc>): MaterialTables
    requires AllValid(mats, tex)
  {
    Convert(mats, tex, MaterialTables([], [], seq(|mats|, _ => DefaultConstructed)))
  }

  /** SetMaterials with the PBRT table only reserved, as the descriptor list is. */
  function SetMaterials(mats: seq<CoreMaterial>, tex: seq<TexDesc>): MaterialTables
    requires AllValid(mats, tex)
  {
    Convert(mats, tex, MaterialTables([], [], []))
  }

  function CountDisney(mats: seq<CoreMaterial>): (r: nat)
    ensures r <= |mats|
  {
    if |mats| == 0 then 0
    else CountDisney(mats[..|mats| - 1]) + (if mats[|mats| - 1].kind == Disney then 1 else 0)
  }

  /** Every descriptor resolves to the material it was built from: a Disney
      descriptor to the table slot converted from it, any other descriptor
      to the PBRT slot holding its texture-reassigned copy. */
  predicate Resolves(r: MaterialTables, mats: seq<CoreMaterial>, tex: seq<TexDesc>)
    requires AllValid(mats, tex)
  {
    && |r.descs| == |mats|
    && forall i :: 0 <= i < |mats| ==>
         && r.descs[i].kind == mats[i].kind
         && (mats[i].kind == Disney ==> r.descs[i].index < |r.disney| && r.disney[r.descs[i].index] == i)
         && (mats[i].kind != Disney ==>
               r.descs[i].index < |r.pbrt| && r.pbrt[r.descs[i].index] == Converted(ReassignAll(mats[i], tex)))
  }

  /** Table sizes after the conversion loop. */
  lemma {:induction false} ConvertSizes(mats: seq<CoreMaterial>, tex: seq<TexDesc>, start: MaterialTables)
    requires AllValid(mats, tex)
    ensures var r := Convert(mats, tex, start);
      && |r.descs| == |start.descs| + |mats|
      && |r.disney| == |start.disney| + CountDisney(mats)
      && |r.pbrt| == |start.pbrt| + |mats| - CountDisney(mats)
  {
    if |mats| > 0 {
      ConvertSizes(mats[..|mats| - 1], tex, start);
    }
  }

  /** The loop only appends: the tables after `k` materials are prefixes of
      the final tables. */
  lemma {:induction false} ConvertAppendsOnly(mats: seq<CoreMaterial>, tex: seq<TexDesc>, start: MaterialTables, k: nat)
    requires AllValid(mats, tex) && k <= |mats|
    ensures AllValid(mats[..k], tex)
    ensures var p := Convert(mats[..k], tex, start);
      var r := Convert(mats, tex, start);
      p.descs <= r.descs && p.disney <= r.disney && p.pbrt <= r.pbrt
    decreases |mats|
  {
    if k < |mats| {
      var init := mats[..|mats| - 1];
      assert init[..k] == mats[..k];
      ConvertAppendsOnly(init, tex, start, k);
    } else {
      assert mats[..k] == mats;
    }
  }

  /** Layout of the conversion loop started from empty descriptor and Disney
      lists and a PBRT table that may already hold entries. */
  lemma ConvertLayout(mats: seq<CoreMaterial>, tex: seq<TexDesc>, start: MaterialTables)
    requires AllValid(mats, tex)
    requires start.descs == [] && start.disney == []
    ensures var r := Convert(mats, tex, start);
      && Resolves(r, mats, tex)
      && |r.disney| == CountDisney(mats)
      && |r.pbrt| == |start.pbrt| + |mats| - CountDisney(mats)
      && start.pbrt <= r.pbrt
      && (forall i :: 0 <= i < |mats| && mats[i].kind == Disney ==> r.descs[i].index == CountDisney(mats[..i]))
      && (forall i :: 0 <= i < |mats| && mats[i].kind != Disney ==>
            r.descs[i].index == |start.pbrt| + i - CountDisney(mats[..i]))
  {
    var r := Convert(mats, tex, start);
    ConvertSizes(mats, tex, start);
    ConvertAppendsOnly(mats, tex, start, 0);
    assert mats[..0] == [];
    forall i | 0 <= i < |mats|
      ensures r.descs[i].kind == mats[i].kind
      ensures mats[i].kind == Disney ==>
        r.descs[i].index == CountDisney(mats[..i]) && r.descs[i].index < |r.disney| && r.disney[r.descs[i].index] == i
      ensures mats[i].kind != Disney ==>
        && r.descs[i].index == |start.pbrt| + i - CountDisney(mats[..i])
        && r.descs[i].index < |r.pbrt| && r.pbrt[r.descs[i].index] == Converted(ReassignAll(mats[i], tex))
    {
      ConvertAppendsOnly(mats, tex, start, i + 1);
      assert mats[..i + 1][..i] == mats[..i];
      ConvertSizes(mats[..i], tex, start);
      var before := Convert(mats[..i], tex, start);
      var after := Convert(mats[..i + 1], tex, start);
      assert after == Step(before, i, mats[i], tex);
      assert after.descs[i] == r.descs[i];
    }
  }

  /** As written, non-Disney indices start at the number of input materials
      and the first that many PBRT slots are default-constructed; every
      descriptor still resolves to its own material. */
  lemma AsWrittenLayout(mats: seq<CoreMaterial>, tex: seq<TexDesc>)
    requires AllValid(mats, tex)
    ensures var r := SetMaterialsAsWritten(mats, tex);
      && Resolves(r, mats, tex)
      && |r.pbrt| == 2 * |mats| - CountDisney(mats)
      && (forall k :: 0 <= k < |mats| ==> r.pbrt[k] == DefaultConstructed)
      && (forall i :: 0 <= i < |mats| && mats[i].kind != Disney ==>
            r.descs[i].index == |mats| + i - CountDisney(mats[..i]))
  {
    var start := MaterialTables([], [], seq(|mats|, _ => DefaultConstructed));
    ConvertLayout(mats, tex, start);
    var r := SetMaterialsAsWritten(mats, tex);
    forall k | 0 <= k < |mats|
      ensures r.pbrt[k] == DefaultConstructed
    {
      assert start.pbrt[k] == r.pbrt[k];
    }
  }

  /** With the table only reserved, Disney and PBRT materials are each
      numbered consecutively from 0, the PBRT table holds exactly the
      converted non-Disney materials, and every descriptor resolves. */
  lemma CorrectedLayout(mats: seq<CoreMaterial>, tex: seq<TexDesc>)
    requires AllValid(mats, tex)
    ensures var r := SetMaterials(mats, tex);
      && Resolves(r, mats, tex)
      && |r.disney| == CountDisney(mats)
      && |r.pbrt| == |mats| - CountDisney(mats)
      && (forall i :: 0 <= i < |mats| && mats[i].kind == Disney ==> r.descs[i].index == CountDisney(mats[..i]))
      && (forall i :: 0 <= i < |mats| && mats[i].kind != Disney ==> r.descs[i].index == i - CountDisney(mats[..i]))
  {
    ConvertLayout(mats, tex, MaterialTables([], [], []));
  }

  /** A scene with a single non-Disney material: as written it gets index 1
      and PBRT slot 0 is a default-constructed material; the corrected
      assignment gives it index 0 in a one-entry table. */
  lemma AsWrittenIndexOffset()
    ensures var mats := [CoreMaterial(Pbrt(1), [])];
      && SetMaterialsAsWritten(mats, []).descs[0].index == 1
      && SetMaterialsAsWritten(mats, []).pbrt[0] == DefaultConstructed
      && SetMaterials(mats, []).descs[0].index == 0
      && |SetMaterials(mats, []).pbrt| == 1
  {
    var mats := [CoreMaterial(Pbrt(1), [])];
    assert mats[..0] == [];
    AsWrittenLayout(mats, []);
    CorrectedLayout(mats, []);
  }
}
