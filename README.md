# FolderViewModel, modelled in Dafny

This project models the folder view model of the MVVM-C "Recordings" app. It
keeps the currently selected folder in a variable. From that variable it
derives `folderUntilDeleted`, the stream of `Folder?` snapshots:

- `flatMapLatest` switches to the latest selection;
- for each selection the stream emits the folder (`just`), then re-emits it on
  every change notification (`concat` of the mapped `changeObservable`);
- the folder's deletion notification cuts it off (`takeUntil`) and appends one
  `nil` (`concat(just(nil))`);
- `share(replay: 1)` hands the latest snapshot to late subscribers.

The view model also creates folders in the current selection and deletes
items from it. It projects each snapshot into a navigation title, a table
section and row labels.

The project has four modules.

- `Wrappers`: `Option`, which stands for Swift's optionals.
- `Items`: the `Item` tree, meaning folders and recordings, each with a name
  and an identifier; folders also have an optional parent and ordered
  contents. It models `Folder.add` and `Folder.remove` as they affect the
  tree, plus the facts about identifiers that `create` and `deleteItem`
  depend on.
- `Pipeline`: what the Rx chain means, as a function of the trace of events
  it observes:
  - `Select(f)` is a new value of the variable, including the value the
    variable replays when the chain subscribes;
  - `Changed(f)` and `Deleted(f)` are firings of folder `f`'s notification
    sources.

  `Inner` is one selection's inner observable. `SwitchLatest` is
  `flatMapLatest`: it cuts the trace into epochs, one per selection, and
  concatenates their inner streams.

  The module also defines the state machine `Step`/`Run`: the latest
  selection, whether its inner subscription is live, and the emission log.
  It proves that `Run` emits exactly `SwitchLatest`. It also proves the
  chain's temporal contract on the denotation:
  - an initial emission on every selection;
  - one re-emission per change;
  - one terminal `nil` on deletion, then silence;
  - latest wins;
  - replay of the latest snapshot.
- `ViewModel`: the pure projections `navigationTitle`, `folderContents` and
  `text(for:)`, and the class `FolderViewModel`. The class has one method
  per input of the chain: selection, change notification and deletion
  notification. It also has `create(folderNamed:)`, `deleteItem(_:)` and a
  late subscription. Its invariant `Valid()` says that its fields are the
  state machine after every event it has seen, and that the replay buffer
  holds the latest snapshot. `StreamIsDenotation` concludes that everything
  it emitted is the chain's denotation of that trace.

Snapshots in the stream carry the folder's identifier. The projections read
the folder value the view model holds, just as the Swift closures read
`f.contents` and `f.name` when they receive a snapshot. `UUID()` is a counter
`nextUuid`. It is kept above every identifier in the current folder's tree,
so each identifier it hands out is fresh. `NSLocalizedString("Recordings", …)`
is the constant `"Recordings"`.

## Model

| member | source | states |
|---|---|---|
| Pipeline.Inner | Recordings-MVVM-C/Recordings/FolderViewModel.swift:15-23 | one selection's inner stream starts with `Some(f)`, every entry but the last is `Some(f)`, and the last is `nil` exactly when `f`'s deletion was among its events: `Some(F) · Some(F)* · [nil]` |
| Pipeline.DeletedAt | Recordings-MVVM-C/Recordings/FolderViewModel.swift:21 | `takeUntil` cuts at the first deletion of `f`: no deletion before the cut, a deletion at it, and a cut inside the events exactly when a deletion occurs |
| Pipeline.ChangesOf | Recordings-MVVM-C/Recordings/FolderViewModel.swift:19 | the mapped change stream emits only the folder itself, at most once per event |
| Pipeline.LastEpoch | Recordings-MVVM-C/Recordings/FolderViewModel.swift:15 | a selection opens a new epoch that collects every later non-selection event |
| Pipeline.CurrentEpoch | Recordings-MVVM-C/Recordings/FolderViewModel.swift:15-24 | the stream so far is the earlier epochs' stream followed by the latest epoch's inner stream |
| Pipeline.InnerStep | Recordings-MVVM-C/Recordings/FolderViewModel.swift:17-23 | one more event adds to an inner stream nothing once it has ended, `Some(f)` for a change of `f`, `nil` for its deletion, and nothing otherwise |
| Pipeline.StreamStep | Recordings-MVVM-C/Recordings/FolderViewModel.swift:15-24 | the same step holds for the whole switched stream while the selection stands |
| Pipeline.SelectionEmitsFolder | Recordings-MVVM-C/Recordings/FolderViewModel.swift:12-17 | every selection, the initial one included, immediately emits exactly `Some(F)` |
| Pipeline.InnerChanges | Recordings-MVVM-C/Recordings/FolderViewModel.swift:19 | `n` changes of a live `f` keep it live and add exactly `n` snapshots of `f` to its inner stream |
| Pipeline.ChangesReemit | Recordings-MVVM-C/Recordings/FolderViewModel.swift:19 | while `F` is selected and not deleted, `n` change notifications of `F` emit exactly `n` more `Some(F)` |
| Pipeline.InnerAfterDeletion | Recordings-MVVM-C/Recordings/FolderViewModel.swift:21-23 | after its deletion an inner stream has gained exactly one `nil`, whatever follows |
| Pipeline.DeletionIsTerminal | Recordings-MVVM-C/Recordings/FolderViewModel.swift:21-23 | deleting the selected folder emits exactly one `nil`, and nothing more is emitted for that epoch, even if the folder later reports changes |
| Pipeline.InnerOthers | Recordings-MVVM-C/Recordings/FolderViewModel.swift:19-21 | events about other folders do not change an inner stream |
| Pipeline.OtherFoldersSilent | Recordings-MVVM-C/Recordings/FolderViewModel.swift:15 | latest wins: while `G` is selected, changes and deletions of any other folder, such as one selected earlier, emit nothing |
| Pipeline.LatestSnapshot | Recordings-MVVM-C/Recordings/FolderViewModel.swift:24 | the most recent snapshot, which the replay buffer holds, is the selection until its deletion and `nil` afterwards |
| Pipeline.LastSelect | Recordings-MVVM-C/Recordings/FolderViewModel.swift:13-15 | locates the latest selection, after which the trace has no selection; a result of -1 means the trace has no selection at all |
| Pipeline.BeforeAnySelection | Recordings-MVVM-C/Recordings/FolderViewModel.swift:13-15 | before the variable's first value, the chain is idle and has emitted nothing |
| Pipeline.RunEpoch | Recordings-MVVM-C/Recordings/FolderViewModel.swift:13-24 | within an epoch, the state machine holds the selection, is live exactly until its deletion, and has emitted the denotation |
| Pipeline.RunDenotes | Recordings-MVVM-C/Recordings/FolderViewModel.swift:10-25 | the state machine's emission log equals the `flatMapLatest` denotation on every trace |
| Pipeline.SwitchLatest | Recordings-MVVM-C/Recordings/FolderViewModel.swift:15 | `flatMapLatest`: the epochs' inner streams, concatenated, where `Epochs` cuts the trace at each selection and `Flatten` concatenates; its contract is stated by CurrentEpoch, StreamStep and the temporal lemmas above |
| Pipeline.Step | Recordings-MVVM-C/Recordings/FolderViewModel.swift:13-24 | one event of the chain's state machine: a selection switches to a live epoch emitting the folder, another event adds the epoch step; its contract with the denotation is RunEpoch and RunDenotes |
| Pipeline.Run | Recordings-MVVM-C/Recordings/FolderViewModel.swift:10-25 | the state machine after a whole trace, starting idle; RunDenotes states that its log is `SwitchLatest` of the trace |
| ViewModel.FolderViewModel.constructor | Recordings-MVVM-C/Recordings/FolderViewModel.swift:10-25 | `init` with the chain taken as subscribed from the start: the initial folder is the first snapshot, the epoch is live and the invariant holds |
| ViewModel.FolderViewModel.SelectFolder | Recordings-MVVM-C/Recordings/FolderViewModel.swift:13-17 | assigning `folder.value` starts a live epoch and emits exactly `Some(F)`; the invariant is preserved |
| ViewModel.FolderViewModel.Deliver | Recordings-MVVM-C/Recordings/FolderViewModel.swift:19-23 | a notification adds exactly the state machine's step to the log and ends the epoch exactly on the current folder's deletion |
| ViewModel.FolderViewModel.FolderChanged | Recordings-MVVM-C/Recordings/FolderViewModel.swift:19 | the selected and live folder's change emits one `Some(F)` and updates the held folder; another folder's change emits nothing |
| ViewModel.FolderViewModel.CurrentFolderChanged | Recordings-MVVM-C/Recordings/FolderViewModel.swift:28-37 | an in-place edit of the selection by the view model replaces the held folder and emits `Some(F)` exactly while the epoch is live |
| ViewModel.FolderViewModel.FolderDeleted | Recordings-MVVM-C/Recordings/FolderViewModel.swift:21-23 | the selection's deletion emits one `nil` and ends the epoch, after which the title is `""` and the table has one empty section; another folder's deletion changes nothing |
| ViewModel.FolderViewModel.Create | Recordings-MVVM-C/Recordings/FolderViewModel.swift:28-32 | a `nil` name changes nothing; any other name, `""` included, adds to the current selection a folder with that name and a fresh identifier, and the selection's change notification fires |
| ViewModel.FolderViewModel.DeleteItem | Recordings-MVVM-C/Recordings/FolderViewModel.swift:35-37 | the current selection becomes itself without the item; the change notification fires when the item was present, and nothing changes otherwise |
| ViewModel.FolderViewModel.Subscribe | Recordings-MVVM-C/Recordings/FolderViewModel.swift:24 | a late subscriber first receives the last emitted snapshot: the folder while live, `nil` after its deletion |
| ViewModel.FolderViewModel.Replayed | Recordings-MVVM-C/Recordings/FolderViewModel.swift:24 | the replayed `Folder?` is the held folder while the epoch is live, `nil` after its deletion |
| ViewModel.StreamIsDenotation | Recordings-MVVM-C/Recordings/FolderViewModel.swift:10-25 | everything the view model has emitted is the chain's denotation of the events it has seen |
| ViewModel.EmptyTitle | Recordings-MVVM-C/Recordings/FolderViewModel.swift:40-45 | `navigationTitle` maps `nil` to `""`, a parentless folder to "Recordings", and any other folder to its name; it is `""` exactly for `nil` or an unnamed non-root folder |
| ViewModel.NavigationTitle | Recordings-MVVM-C/Recordings/FolderViewModel.swift:40-45 | `navigationTitle` of one snapshot; its contract is stated by EmptyTitle |
| ViewModel.FolderContents | Recordings-MVVM-C/Recordings/FolderViewModel.swift:49-54 | `folderContents` of one snapshot; its contract is stated by ContentsShape |
| ViewModel.Text | Recordings-MVVM-C/Recordings/FolderViewModel.swift:56-58 | `text(for:)`; its contract is stated by TextLayout and TextDeterminesKindAndName |
| ViewModel.ContentsShape | Recordings-MVVM-C/Recordings/FolderViewModel.swift:49-54 | `folderContents` is always one section with model 0, holding the folder's children in order, or nothing for `nil` |
| ViewModel.TextLayout | Recordings-MVVM-C/Recordings/FolderViewModel.swift:56-58 | a row label is the speaker glyph for a recording, or the folder glyph otherwise, then two spaces, then the name |
| ViewModel.TextDeterminesKindAndName | Recordings-MVVM-C/Recordings/FolderViewModel.swift:56-58 | two items with the same label are of the same kind and have the same name |
| Items.IndexOf | Recordings-MVVM-C/Recordings/FolderViewModel.swift:36 | finds the first child with the item's identifier, or -1 exactly when no child has it |
| Items.AddChild | Recordings-MVVM-C/Recordings/FolderViewModel.swift:31 | adding a child leaves the folder's name, identifier and parent unchanged |
| Items.RemoveChild | Recordings-MVVM-C/Recordings/FolderViewModel.swift:36 | removing a child leaves the folder's name, identifier and parent unchanged, never lengthens the child list, and keeps only children the folder already had |
| Items.AddFreshChildShape | Recordings-MVVM-C/Recordings/FolderViewModel.swift:30-31 | a child whose identifier is above every identifier in the tree is fresh among the children; the old children stay first, in order, and the single new one carries the name, identifier and kind given, adopted by the folder when it is a folder |
| Items.AddFreshChild | Recordings-MVVM-C/Recordings/FolderViewModel.swift:30-31 | a child with a fresh identifier keeps the children uniquely identified; the old children stay first, in order, and the single new one carries the name, identifier and kind given, adopted by the folder when it is a folder |
| Items.AddChildMaxUuid | Recordings-MVVM-C/Recordings/FolderViewModel.swift:30-31 | after an add, the largest identifier in the tree is the larger of the folder's and the child's |
| Items.MaxUuidOfDrop | Recordings-MVVM-C/Recordings/FolderViewModel.swift:36 | dropping one child from a child list never raises the largest identifier among them |
| Items.RemoveChildMaxUuid | Recordings-MVVM-C/Recordings/FolderViewModel.swift:36 | removing a child never raises the largest identifier in the tree |
| Items.RemoveChildContents | Recordings-MVVM-C/Recordings/FolderViewModel.swift:36 | with uniquely identified children, the result holds exactly the other children, still unique, one fewer when the item was present, and is unchanged when it was absent |
| Items.ChildBelowMax | Recordings-MVVM-C/Recordings/FolderViewModel.swift:30 | every child's identifier is at most the largest identifier in the tree, which makes the counter's identifiers fresh |

## Left out

- `PlayViewController.swift` is not part of this model: its outlet bindings, slider binder and state restoration are UIKit plumbing around a `PlayViewModel` that is not shown.
- Rx schedulers, `DisposeBag` lifetimes and the connection scope of `share(replay: 1)` are not modelled. The model has a single subscription that is connected from `init` on and stays connected, and every event reaches it in order. In the source, `share(replay: 1)` runs the chain only at its first subscriber (a binding of `navigationTitle` or `folderContents`), so nothing is emitted before then and the first snapshot is the variable's value at that moment; assignments made before it emit nothing, while the model's log already holds them.
- `Folder`, `Recording` and `Store` are not shown. `Items.AddChild` assumes that `add` appends the child and sets a child folder's parent. `Items.RemoveChild` assumes that `remove` drops the first child with the item's identifier and fires no notification when there is none. Neither models sorting, persistence, or the deletion notification of the removed child itself.
- Changes made to the folder from outside the view model arrive only through `FolderChanged(updated)`, which carries the folder's new value. The change sources are assumed never to complete or fail.
- `UUID()` is the counter `nextUuid` rather than a random identifier. Freshness is proved against the current folder's tree only, not against the whole store.
- Swift string semantics are not modelled: a string is a sequence of Unicode scalars, so the lengths and positions TextLayout states are counted in scalars, not in Swift's grapheme clusters, and equality is not canonical equivalence.
- `NSLocalizedString` is the constant "Recordings": localisation is not modelled.
- The diffing and animation machinery of `AnimatableSectionModel` is not modelled. Only the section's model and items are.
- The default argument `Store.shared.rootFolder` of `init` is not modelled. The constructor takes the initial folder explicitly.
- The stream carries the folder's identifier rather than a reference to the folder object. The projections read the folder value held by the view model.
