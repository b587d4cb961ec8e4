/** The ordered sequence of modules attached to an event, and what the module endpoints
    do to it: attach-or-merge, detach with reindexing, config patching, and the preview
    that pairs each attachment with its catalog definition. */
module Composer {
  import opened Base
  import opened JsonValue
  import opened Model

  /** Position of the first attachment with module id `id` (`findIndex`/`find`). */
  function FindAttachment(mods: seq<Attachment>, id: string): (r: Option<nat>)
    ensures r.Some? ==> r.value < |mods| && mods[r.value].id == id
    ensures r.Some? ==> forall j :: 0 <= j < r.value ==> mods[j].id != id
    ensures r.None? <==> forall j :: 0 <= j < |mods| ==> mods[j].id != id
  {
    FindFirst(mods, (a: Attachment) => a.id == id)
  }

  /** Every attachment's `order` is its position. */
  predicate WellOrdered(mods: seq<Attachment>) {
    forall i :: 0 <= i < |mods| ==> mods[i].order == Some(i)
  }

  /** The ids in attachment order. */
  function Ids(mods: seq<Attachment>): (r: seq<string>)
    ensures |r| == |mods| && forall i :: 0 <= i < |mods| ==> r[i] == mods[i].id
  {
    if |mods| == 0 then [] else [mods[0].id] + Ids(mods[1..])
  }

  /** The shallow merge `{...base, ...patch}`: every key of either, the patch's value winning. */
  function Merge(base: Config, patch: Config): (r: Config)
    ensures forall k :: k in r <==> k in base || k in patch
    ensures forall k :: k in patch ==> r[k] == patch[k]
    ensures forall k :: k in base && k !in patch ==> r[k] == base[k]
  {
    base + patch
  }

  /** Merging an empty patch keeps the config; merging the same patch twice is merging it once. */
  lemma MergeLaws(base: Config, patch: Config)
    ensures Merge(base, map[]) == base
    ensures Merge(Merge(base, patch), patch) == Merge(base, patch)
  {
  }

  /** The config an attachment holds, an absent one read as `{}` (spreading `undefined`). */
  function ConfigOf(a: Attachment): Config {
    a.config.GetOr(map[])
  }

  /** The attachment the attach endpoint appends for a module not yet attached. */
  function NewAttachment(mods: seq<Attachment>, id: string, config: Option<Config>, now: string): Attachment {
    Attachment(id, Some(config.GetOr(map[])), Some(|mods|), Some(now), None)
  }

  /** Attach module `id`: if it is attached already, merge `config` into the first such
      attachment; otherwise append a fresh attachment whose order is the old length. */
  function Attach(mods: seq<Attachment>, id: string, config: Option<Config>, now: string): seq<Attachment> {
    match FindAttachment(mods, id)
    case Some(i) => mods[i := mods[i].(config := Some(Merge(ConfigOf(mods[i]), config.GetOr(map[]))))]
    case None => mods + [NewAttachment(mods, id, config, now)]
  }

  /** A new id is appended at the end with order equal to the old length and config
      defaulting to `{}`; nothing before it changes. */
  lemma AttachNew(mods: seq<Attachment>, id: string, config: Option<Config>, now: string)
    requires forall j :: 0 <= j < |mods| ==> mods[j].id != id
    ensures var r := Attach(mods, id, config, now);
      && |r| == |mods| + 1
      && r[..|mods|] == mods
      && r[|mods|].id == id
      && r[|mods|].order == Some(|mods|)
      && r[|mods|].config == Some(config.GetOr(map[]))
      && r[|mods|].addedAt == Some(now)
  {
    var r := Attach(mods, id, config, now);
    assert r == mods + [NewAttachment(mods, id, config, now)];
    assert r[..|mods|] == mods;
  }

  /** An attached id keeps its place, length and every order; only the first matching
      attachment's config changes, to the merge of the old config and the new one. */
  lemma AttachExisting(mods: seq<Attachment>, id: string, config: Option<Config>, now: string, i: nat)
    requires i < |mods| && mods[i].id == id
    requires forall j :: 0 <= j < i ==> mods[j].id != id
    ensures var r := Attach(mods, id, config, now);
      && |r| == |mods|
      && (forall j :: 0 <= j < |mods| && j != i ==> r[j] == mods[j])
      && r[i] == mods[i].(config := Some(Merge(ConfigOf(mods[i]), config.GetOr(map[]))))
  {
    assert FindAttachment(mods, id) == Some(i);
  }

  /** Attaching keeps orders equal to positions when they were. */
  lemma AttachPreservesOrder(mods: seq<Attachment>, id: string, config: Option<Config>, now: string)
    requires WellOrdered(mods)
    ensures WellOrdered(Attach(mods, id, config, now))
  {
    var r := Attach(mods, id, config, now);
    match FindAttachment(mods, id)
    case Some(i) =>
      assert forall j :: 0 <= j < |r| ==> r[j].order == mods[j].order;
    case None =>
      assert forall j :: 0 <= j < |mods| ==> r[j] == mods[j];
  }

  /** Attaching never duplicates an id: the id sequence grows only by a fresh id. */
  lemma AttachIds(mods: seq<Attachment>, id: string, config: Option<Config>, now: string)
    ensures var r := Attach(mods, id, config, now);
      Ids(r) == if id in Ids(mods) then Ids(mods) else Ids(mods) + [id]
  {
    var r := Attach(mods, id, config, now);
    match FindAttachment(mods, id)
    case Some(i) =>
      assert Ids(mods)[i] == id;
      assert Ids(r) == Ids(mods);
    case None =>
      assert id !in Ids(mods);
      assert Ids(r) == Ids(mods) + [id];
  }

  /** Every attachment's order set to its position (the `forEach` reindex). */
  function Renumbered(mods: seq<Attachment>): (r: seq<Attachment>)
    ensures |r| == |mods|
  {
    seq(|mods|, k requires 0 <= k < |mods| => mods[k].(order := Some(k)))
  }

  lemma RenumberedWellOrdered(mods: seq<Attachment>)
    ensures WellOrdered(Renumbered(mods))
    ensures Ids(Renumbered(mods)) == Ids(mods)
  {
  }

  /** Reindexing a well-ordered sequence changes nothing. */
  lemma RenumberedFixed(mods: seq<Attachment>)
    requires WellOrdered(mods)
    ensures Renumbered(mods) == mods
  {
    var r := Renumbered(mods);
    forall k | 0 <= k < |mods| ensures r[k] == mods[k] {
      assert mods[k].order == Some(k);
    }
  }

  /** The attachments after `splice(i, 1)` and the reindex. */
  function Detach(mods: seq<Attachment>, i: nat): seq<Attachment>
    requires i < |mods|
  {
    Renumbered(mods[..i] + mods[i + 1..])
  }

  /** Detaching drops exactly one attachment, keeps the survivors in their relative order
      with their ids and configs, and leaves every order equal to its position. */
  lemma DetachMeaning(mods: seq<Attachment>, i: nat)
    requires i < |mods|
    ensures var r := Detach(mods, i);
      && |r| == |mods| - 1
      && WellOrdered(r)
      && (forall k :: 0 <= k < i ==> r[k] == mods[k].(order := Some(k)))
      && (forall k :: i <= k < |r| ==> r[k] == mods[k + 1].(order := Some(k)))
  {
    var s := mods[..i] + mods[i + 1..];
    RenumberedWellOrdered(s);
    assert forall k :: 0 <= k < i ==> s[k] == mods[k];
    assert forall k :: i <= k < |s| ==> s[k] == mods[k + 1];
  }

  /** The ids left after detaching are the old ids with position `i` cut out. */
  lemma DetachIds(mods: seq<Attachment>, i: nat)
    requires i < |mods|
    ensures Ids(Detach(mods, i)) == Ids(mods)[..i] + Ids(mods)[i + 1..]
  {
    DetachMeaning(mods, i);
    var r := Detach(mods, i);
    var ids := Ids(mods)[..i] + Ids(mods)[i + 1..];
    forall k | 0 <= k < |ids| ensures Ids(r)[k] == ids[k] {
      if k < i {
        assert ids[k] == Ids(mods)[k];
      } else {
        assert ids[k] == Ids(mods)[k + 1];
      }
    }
  }

  /** The config endpoint's change: merge `patch` into attachment `i` and stamp it. */
  function Patch(mods: seq<Attachment>, i: nat, patch: Config, now: string): seq<Attachment>
    requires i < |mods|
  {
    mods[i := mods[i].(config := Some(Merge(ConfigOf(mods[i]), patch)), updatedAt := Some(now))]
  }

  /** Patching touches only attachment `i`, and there only its config and `updatedAt`;
      ids and every order stay as they were. */
  lemma PatchLocal(mods: seq<Attachment>, i: nat, patch: Config, now: string)
    requires i < |mods|
    ensures var r := Patch(mods, i, patch, now);
      && |r| == |mods|
      && (forall j :: 0 <= j < |mods| && j != i ==> r[j] == mods[j])
      && (forall j :: 0 <= j < |mods| ==> r[j].id == mods[j].id && r[j].order == mods[j].order)
      && r[i].addedAt == mods[i].addedAt
      && (forall k :: k in patch ==> r[i].config.value[k] == patch[k])
      && (forall k :: k in ConfigOf(mods[i]) && k !in patch ==> r[i].config.value[k] == ConfigOf(mods[i])[k])
  {
  }

  lemma PatchPreservesOrder(mods: seq<Attachment>, i: nat, patch: Config, now: string)
    requires i < |mods| && WellOrdered(mods)
    ensures WellOrdered(Patch(mods, i, patch, now))
  {
    PatchLocal(mods, i, patch, now);
  }

  // ---------------------------------------------------------------------------
  // The preview

  /** A preview entry: the attachment with the definition's code and display name. */
  datatype PreviewEntry = PreviewEntry(attachment: Attachment, code: string, name: string)

  /** `def?.code || ''` and `def?.name || module.id`, looking the definition up by id
      alone, whether or not it is active. */
  function PreviewOf(a: Attachment, catalog: seq<ModuleDef>): PreviewEntry {
    match FindFirst(catalog, (d: ModuleDef) => d.id == a.id)
    case Some(j) => PreviewEntry(a, catalog[j].code, if catalog[j].name != "" then catalog[j].name else a.id)
    case None => PreviewEntry(a, "", a.id)
  }

  /** One entry per attachment, in attachment order. */
  function Preview(mods: seq<Attachment>, catalog: seq<ModuleDef>): (r: seq<PreviewEntry>)
    ensures |r| == |mods|
    ensures forall k :: 0 <= k < |mods| ==> r[k] == PreviewOf(mods[k], catalog)
  {
    if |mods| == 0 then [] else [PreviewOf(mods[0], catalog)] + Preview(mods[1..], catalog)
  }

  /** An attachment without a definition previews with empty code under its own id. */
  lemma PreviewMissing(a: Attachment, catalog: seq<ModuleDef>)
    requires forall j :: 0 <= j < |catalog| ==> catalog[j].id != a.id
    ensures PreviewOf(a, catalog) == PreviewEntry(a, "", a.id)
  {
  }

  /** An attachment with a definition previews with the first definition's code, and its
      name unless that is empty. */
  lemma PreviewFound(a: Attachment, catalog: seq<ModuleDef>, j: nat)
    requires j < |catalog| && catalog[j].id == a.id
    requires forall i :: 0 <= i < j ==> catalog[i].id != a.id
    ensures var p := PreviewOf(a, catalog);
      && p.attachment == a
      && p.code == catalog[j].code
      && p.name == (if catalog[j].name == "" then a.id else catalog[j].name)
  {
    assert FindFirst(catalog, (d: ModuleDef) => d.id == a.id) == Some(j);
  }

  /** Preview entries carry the attachments unchanged, and an entry's name is empty only
      when its attachment's id is. */
  lemma PreviewModules(mods: seq<Attachment>, catalog: seq<ModuleDef>)
    ensures var r := Preview(mods, catalog);
      forall k :: 0 <= k < |r| ==> r[k].attachment == mods[k] && (r[k].name == "" ==> mods[k].id == "")
  {
  }
}
