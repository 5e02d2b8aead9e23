/**
 * `FolderViewModel`: the current-folder variable, the derived
 * `folderUntilDeleted` stream with its replay-one buffer, the two write
 * operations and the three projections bound by the folder table view.
 */
module ViewModel {
  import opened Wrappers
  import opened Items
  import opened Pipeline

  // ---------------------------------------------------------------------
  // Projections

  /** The heading `NSLocalizedString("Recordings", …)` yields in the base language. */
  const RecordingsHeading: string := "Recordings"

  /** `navigationTitle` of one snapshot. */
  function NavigationTitle(snapshot: Option<Folder>): (title: string)
  {
    match snapshot
    case None => ""
    case Some(f) => if f.parent.None? then RecordingsHeading else f.name
  }

  /** `AnimatableSectionModel<Int, Item>`, without its diffing machinery. */
  datatype Section = Section(model: int, items: seq<Item>)

  /** `folderContents` of one snapshot. */
  function FolderContents(snapshot: Option<Folder>): (sections: seq<Section>)
  {
    match snapshot
    case None => [Section(0, [])]
    case Some(f) => [Section(0, f.contents)]
  }

  /** U+1F50A SPEAKER WITH THREE SOUND WAVES and U+1F4C1 FILE FOLDER. */
  const SpeakerGlyph: char := '\U{1F50A}'
  const FolderGlyph: char := '\U{1F4C1}'

  /** `text(for:)`: the row label of an item. */
  function Text(item: Item): (row: string)
  {
    [if item.Recording? then SpeakerGlyph else FolderGlyph] + "  " + item.name
  }

  /**
   * The title is empty exactly when the folder has been deleted, or when a
   * non-root folder has an empty name; a root folder always shows the heading.
   */
  lemma EmptyTitle(snapshot: Option<Folder>)
    ensures NavigationTitle(snapshot) == ""
        <==> snapshot.None? || (snapshot.value.parent.Some? && snapshot.value.name == "")
    ensures snapshot.Some? && snapshot.value.parent.None? ==> NavigationTitle(snapshot) == RecordingsHeading
    ensures snapshot.Some? && snapshot.value.parent.Some? ==> NavigationTitle(snapshot) == snapshot.value.name
  {
  }

  /**
   * There is always exactly one section, with model 0, listing the folder's
   * children in order, or nothing once the folder is gone.
   */
  lemma ContentsShape(snapshot: Option<Folder>)
    ensures |FolderContents(snapshot)| == 1 && FolderContents(snapshot)[0].model == 0
    ensures FolderContents(snapshot)[0].items == if snapshot.Some? then snapshot.value.contents else []
  {
  }

  /** A row is the kind glyph, two spaces, then the item's name. */
  lemma TextLayout(item: Item)
    ensures |Text(item)| == |item.name| + 3
    ensures Text(item)[0] == (if item.Recording? then SpeakerGlyph else FolderGlyph)
    ensures Text(item)[1..3] == "  " && Text(item)[3..] == item.name
  {
  }

  /** The row label determines the item's kind and its name. */
  lemma TextDeterminesKindAndName(a: Item, b: Item)
    requires Text(a) == Text(b)
    ensures a.Recording? == b.Recording? && a.name == b.name
  {
    TextLayout(a);
    TextLayout(b);
  }

  // ---------------------------------------------------------------------
  // The view model

  class FolderViewModel {
    /** `folder.value`: the currently selected folder, as the view model sees it. */
    var folder: Folder
    /** Whether the current selection's inner stream is live: its deletion not yet seen. */
    var live: bool
    /** Every snapshot `folderUntilDeleted` has emitted, oldest first. */
    var emitted: seq<Snapshot>
    /** The `share(replay: 1)` buffer. */
    var last: Snapshot
    /** The next identifier `UUID()` hands out. */
    var nextUuid: nat
    /** Every event the chain has observed, oldest first. */
    ghost var trace: seq<Event>

    /**
     * The fields are the chain's state after `trace`; the replay buffer holds
     * the latest snapshot (the folder while live, `nil` after its deletion);
     * every identifier in the current folder is below the next fresh one.
     */
    ghost predicate Valid()
      reads this
    {
      && Run(trace) == Machine(Some(folder.uuid), live, emitted)
      && |emitted| > 0 && last == emitted[|emitted| - 1]
      && last == (if live then Some(folder.uuid) else None)
      && MaxUuid(folder) < nextUuid
    }

    /** What a subscriber reads through the replayed snapshot. */
    function Replayed(): (s: Option<Folder>)
      reads this
      requires Valid()
      ensures s == if live then Some(folder) else None
    {
      if last.Some? then Some(folder) else None
    }

    /**
     * `init(initialFolder:)`, with the chain taken as subscribed from the
     * start, so that the variable's initial value is emitted at once.
     */
    constructor (initialFolder: Folder)
      ensures Valid()
      ensures folder == initialFolder && live
      ensures emitted == [Some(initialFolder.uuid)]
      ensures trace == [Select(initialFolder.uuid)]
    {
      folder := initialFolder;
      live := true;
      emitted := [Some(initialFolder.uuid)];
      last := Some(initialFolder.uuid);
      nextUuid := MaxUuid(initialFolder) + 1;
      trace := [Select(initialFolder.uuid)];
      new;
      assert trace[..0] == [];
    }

    /** Navigation assigns `folder.value`: the chain switches to the new folder. */
    method SelectFolder(f: Folder)
      requires Valid()
      modifies this
      ensures Valid()
      ensures folder == f && live
      ensures emitted == old(emitted) + [Some(f.uuid)]
      ensures trace == old(trace) + [Select(f.uuid)]
      ensures nextUuid == Max(old(nextUuid), MaxUuid(f) + 1)
    {
      assert (trace + [Select(f.uuid)])[..|trace|] == trace;
      folder, live, emitted, last := f, true, emitted + [Some(f.uuid)], Some(f.uuid);
      nextUuid := Max(nextUuid, MaxUuid(f) + 1);
      trace := trace + [Select(f.uuid)];
    }

    /**
     * A notification reaches the chain: the latest inner subscription (the
     * current folder's, until its deletion) turns it into at most one emission.
     */
    method Deliver(e: Event)
      requires Valid() && !e.Select?
      modifies this
      ensures Valid()
      ensures folder == old(folder) && nextUuid == old(nextUuid)
      ensures live == (old(live) && e != Deleted(folder.uuid))
      ensures emitted == old(emitted) + EpochStep(folder.uuid, !old(live), e)
      ensures trace == old(trace) + [e]
    {
      assert (trace + [e])[..|trace|] == trace;
      var step := EpochStep(folder.uuid, !live, e);
      emitted, last, live :=
        emitted + step, if step == [] then last else step[0], live && e != Deleted(folder.uuid);
      trace := trace + [e];
    }

    /**
     * The `changeObservable` of folder `updated.uuid` fires; `updated` is
     * that folder's new state.
     */
    method FolderChanged(updated: Folder)
      requires Valid()
      modifies this
      ensures Valid()
      ensures folder == if updated.uuid == old(folder).uuid then updated else old(folder)
      ensures live == old(live)
      ensures emitted == old(emitted)
        + (if updated.uuid == old(folder).uuid && old(live) then [Some(updated.uuid)] else [])
      ensures trace == old(trace) + [Changed(updated.uuid)]
      ensures nextUuid == if updated.uuid == old(folder).uuid
                          then Max(old(nextUuid), MaxUuid(updated) + 1)
                          else old(nextUuid)
    {
      Deliver(Changed(updated.uuid));
      if updated.uuid == folder.uuid {
        folder := updated;
        nextUuid := Max(nextUuid, MaxUuid(updated) + 1);
      }
    }

    /**
     * The view model changed the current folder itself and its
     * `changeObservable` fires: the new state keeps the identifier and
     * draws only on identifiers already handed out.
     */
    method CurrentFolderChanged(updated: Folder)
      requires Valid() && updated.uuid == folder.uuid && MaxUuid(updated) < nextUuid
      modifies this
      ensures Valid()
      ensures folder == updated && live == old(live) && nextUuid == old(nextUuid)
      ensures emitted == old(emitted) + (if old(live) then [Some(updated.uuid)] else [])
      ensures trace == old(trace) + [Changed(updated.uuid)]
    {
      Deliver(Changed(updated.uuid));
      folder := updated;
    }

    /** The `deletedObservable` of folder `u` fires. */
    method FolderDeleted(u: Uuid)
      requires Valid()
      modifies this
      ensures Valid()
      ensures folder == old(folder) && nextUuid == old(nextUuid)
      ensures live == (old(live) && u != folder.uuid)
      ensures emitted == old(emitted) + (if u == folder.uuid && old(live) then [None] else [])
      ensures trace == old(trace) + [Deleted(u)]
      ensures u == folder.uuid ==> NavigationTitle(Replayed()) == "" && FolderContents(Replayed()) == [Section(0, [])]
    {
      Deliver(Deleted(u));
    }

    /**
     * `create(folderNamed:)`: without a name nothing happens; with any name,
     * the empty one included, a folder with a fresh identifier is added to
     * the current selection, whose change notification then fires.
     */
    method Create(name: Option<string>)
      requires Valid()
      modifies this
      ensures Valid()
      ensures name.None? ==>
        folder == old(folder) && live == old(live) && emitted == old(emitted)
        && nextUuid == old(nextUuid) && trace == old(trace)
      ensures name.Some? ==>
        && old(nextUuid) > MaxUuid(old(folder))
        && folder == AddChild(old(folder), Folder(name.value, old(nextUuid), None, []))
        && nextUuid == old(nextUuid) + 1
        && live == old(live)
        && emitted == old(emitted) + (if old(live) then [Some(folder.uuid)] else [])
        && trace == old(trace) + [Changed(folder.uuid)]
    {
      if name.Some? {
        var child := Folder(name.value, nextUuid, None, []);
        var grown := AddChild(folder, child);
        AddChildMaxUuid(folder, child);
        nextUuid := nextUuid + 1;
        CurrentFolderChanged(grown);
      }
    }

    /**
     * `deleteItem(_:)`: the item is removed from the current selection,
     * whose change notification then fires.
     */
    method DeleteItem(item: Item)
      requires Valid()
      modifies this
      ensures Valid()
      ensures folder == RemoveChild(old(folder), item)
      ensures live == old(live) && nextUuid == old(nextUuid)
      ensures IndexOf(old(folder).contents, item.uuid) >= 0 ==>
        emitted == old(emitted) + (if old(live) then [Some(folder.uuid)] else [])
        && trace == old(trace) + [Changed(folder.uuid)]
      ensures IndexOf(old(folder).contents, item.uuid) < 0 ==>
        emitted == old(emitted) && trace == old(trace)
    {
      if IndexOf(folder.contents, item.uuid) >= 0 {
        var shrunk := RemoveChild(folder, item);
        RemoveChildMaxUuid(folder, item);
        CurrentFolderChanged(shrunk);
      }
    }

    /** A late subscriber first receives the replayed, most recent snapshot. */
    method Subscribe() returns (s: Snapshot)
      requires Valid()
      ensures s == emitted[|emitted| - 1]
      ensures s == if live then Some(folder.uuid) else None
    {
      s := last;
    }
  }

  /**
   * The view model's emissions are the denotation of the Rx chain over every
   * event it has observed.
   */
  lemma StreamIsDenotation(vm: FolderViewModel)
    requires vm.Valid()
    ensures vm.emitted == SwitchLatest(vm.trace)
  {
    RunDenotes(vm.trace);
  }
}
