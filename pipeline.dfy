/**
 * The meaning of the Rx chain that derives `folderUntilDeleted` from the
 * `folder` variable, as a function of the trace of events it observes: for
 * each value f of the variable, f, then f again on each of its change
 * notifications, cut off at its first deletion and followed by one nil;
 * only the latest value's stream is forwarded.
 *
 * A `Select(f)` is a new value of the variable (the variable also replays its
 * current value when the chain subscribes, which is the first `Select`).
 * `Changed(f)` and `Deleted(f)` are firings of folder `f`'s notification
 * sources. Snapshots carry the folder's identity; consumers read its
 * contents when they receive it.
 */
module Pipeline {
  import opened Wrappers
  import opened Items

  datatype Event =
    | Select(folder: Uuid)
    | Changed(folder: Uuid)
    | Deleted(folder: Uuid)

  /** A snapshot of `folderUntilDeleted`: `Some(f)` or `nil`. */
  type Snapshot = Option<Uuid>

  predicate SelectFree(es: seq<Event>)
  {
    forall i :: 0 <= i < |es| ==> !es[i].Select?
  }

  /** `takeUntil(f.deletedObservable)`: where the first deletion of `f` falls, or `|es|`. */
  function DeletedAt(f: Uuid, es: seq<Event>): (k: nat)
    ensures k <= |es|
    ensures forall i :: 0 <= i < k ==> es[i] != Deleted(f)
    ensures k < |es| ==> es[k] == Deleted(f)
    ensures k < |es| <==> Deleted(f) in es
  {
    if es == [] || es[0] == Deleted(f) then 0 else 1 + DeletedAt(f, es[1..])
  }

  /** `f.changeObservable.map { _ in f }` over the events `es`. */
  function ChangesOf(f: Uuid, es: seq<Event>): (r: seq<Snapshot>)
    ensures forall i :: 0 <= i < |r| ==> r[i] == Some(f)
    ensures |r| <= |es|
  {
    if es == [] then []
    else (if es[0] == Changed(f) then [Some(f)] else []) + ChangesOf(f, es[1..])
  }

  /**
   * The inner observable of one epoch: folder `f` selected, then the events
   * `es` that arrive before the next selection.
   */
  function Inner(f: Uuid, es: seq<Event>): (r: seq<Snapshot>)
    ensures |r| > 0 && r[0] == Some(f)
    ensures forall i :: 0 <= i < |r| - 1 ==> r[i] == Some(f)
    ensures r[|r| - 1] == if Deleted(f) in es then None else Some(f)
  {
    var cut := DeletedAt(f, es);
    [Some(f)] + ChangesOf(f, es[..cut]) + (if cut < |es| then [None] else [])
  }

  /** One selection and the events it observed before the next selection. */
  datatype Epoch = Epoch(folder: Uuid, events: seq<Event>)

  /**
   * The trace cut into epochs: each selection opens a new epoch, and every
   * other event is delivered to the latest one (events before the first
   * selection reach none).
   */
  function Epochs(trace: seq<Event>): (eps: seq<Epoch>)
    decreases |trace|
  {
    if trace == [] then []
    else
      var prior, e := Epochs(trace[..|trace| - 1]), trace[|trace| - 1];
      if e.Select? then prior + [Epoch(e.folder, [])]
      else if prior == [] then []
      else prior[..|prior| - 1] + [Epoch(prior[|prior| - 1].folder, prior[|prior| - 1].events + [e])]
  }

  /** Concatenation of the epochs' inner streams. */
  function Flatten(eps: seq<Epoch>): (r: seq<Snapshot>)
  {
    if eps == [] then [] else Inner(eps[0].folder, eps[0].events) + Flatten(eps[1..])
  }

  /** `flatMapLatest`: each selection's inner stream, cut off by the next selection. */
  function SwitchLatest(trace: seq<Event>): (r: seq<Snapshot>)
  {
    Flatten(Epochs(trace))
  }

  /** Whether folder `f`'s epoch has ended: its deletion is among the events seen. */
  predicate Terminated(f: Uuid, es: seq<Event>)
  {
    Deleted(f) in es
  }

  /**
   * What one more non-selection event `e` adds to a live or terminated epoch
   * of `f`: the step the view model's state machine takes.
   */
  function EpochStep(f: Uuid, terminated: bool, e: Event): (r: seq<Snapshot>)
  {
    if terminated then []
    else if e == Changed(f) then [Some(f)]
    else if e == Deleted(f) then [None]
    else []
  }

  function Repeat<T>(x: T, n: nat): (r: seq<T>)
    ensures |r| == n && forall i :: 0 <= i < n ==> r[i] == x
  {
    if n == 0 then [] else Repeat(x, n - 1) + [x]
  }

  // ---------------------------------------------------------------------
  // Structure of the denotation

  lemma {:induction false} FlattenAppend(x: seq<Epoch>, y: seq<Epoch>)
    ensures Flatten(x + y) == Flatten(x) + Flatten(y)
    decreases |x|
  {
    if x == [] {
      assert x + y == y;
    } else {
      assert (x + y)[1..] == x[1..] + y;
      FlattenAppend(x[1..], y);
    }
  }

  /** The selection of `f` and the events after it form the last epoch. */
  lemma {:induction false} LastEpoch(p: seq<Event>, f: Uuid, es: seq<Event>)
    requires SelectFree(es)
    ensures Epochs(p + [Select(f)] + es) == Epochs(p) + [Epoch(f, es)]
    decreases |es|
  {
    var t := p + [Select(f)] + es;
    if es == [] {
      assert t[..|t| - 1] == p;
    } else {
      var es', e := es[..|es| - 1], es[|es| - 1];
      assert es == es' + [e];
      assert t[..|t| - 1] == p + [Select(f)] + es';
      LastEpoch(p, f, es');
      var prior := Epochs(p) + [Epoch(f, es')];
      assert prior[..|prior| - 1] == Epochs(p);
    }
  }

  /** The stream so far is the earlier epochs followed by the current one's inner stream. */
  lemma CurrentEpoch(p: seq<Event>, f: Uuid, es: seq<Event>)
    requires SelectFree(es)
    ensures SwitchLatest(p + [Select(f)] + es) == SwitchLatest(p) + Inner(f, es)
  {
    LastEpoch(p, f, es);
    FlattenAppend(Epochs(p), [Epoch(f, es)]);
    assert Flatten([Epoch(f, es)]) == Inner(f, es) + Flatten([]);
  }

  lemma {:induction false} ChangesOfAppend(f: Uuid, es: seq<Event>, e: Event)
    ensures ChangesOf(f, es + [e]) == ChangesOf(f, es) + (if e == Changed(f) then [Some(f)] else [])
    decreases |es|
  {
    if es == [] {
      assert es + [e] == [e];
    } else {
      assert (es + [e])[1..] == es[1..] + [e];
      ChangesOfAppend(f, es[1..], e);
    }
  }

  lemma InnerAfterEnd(f: Uuid, es: seq<Event>, e: Event)
    requires Terminated(f, es)
    ensures Inner(f, es + [e]) == Inner(f, es)
  {
    var es' := es + [e];
    var cut := DeletedAt(f, es);
    assert es'[cut] == Deleted(f);
    assert DeletedAt(f, es') == cut;
    assert es'[..cut] == es[..cut];
  }

  lemma InnerDeletion(f: Uuid, es: seq<Event>)
    requires !Terminated(f, es)
    ensures Inner(f, es + [Deleted(f)]) == Inner(f, es) + [None]
  {
    var es' := es + [Deleted(f)];
    assert DeletedAt(f, es') == |es|;
    assert es'[..|es|] == es;
    assert es[..|es|] == es;
  }

  lemma InnerLive(f: Uuid, es: seq<Event>, e: Event)
    requires !Terminated(f, es) && e != Deleted(f)
    ensures Inner(f, es + [e]) == Inner(f, es) + (if e == Changed(f) then [Some(f)] else [])
  {
    var es' := es + [e];
    assert !(Deleted(f) in es');
    assert DeletedAt(f, es') == |es'|;
    assert es'[..|es'|] == es';
    assert es[..|es|] == es;
    ChangesOfAppend(f, es, e);
  }

  /** The inner stream grows by exactly the state machine's step. */
  lemma InnerStep(f: Uuid, es: seq<Event>, e: Event)
    requires !e.Select?
    ensures Inner(f, es + [e]) == Inner(f, es) + EpochStep(f, Terminated(f, es), e)
  {
    if Terminated(f, es) {
      InnerAfterEnd(f, es, e);
    } else if e == Deleted(f) {
      InnerDeletion(f, es);
    } else {
      InnerLive(f, es, e);
    }
  }

  /**
   * One more notification appends exactly what the state machine's step
   * says: nothing once the epoch has ended, `Some(f)` for a change of the
   * selected folder, `nil` for its deletion, nothing for any other folder.
   */
  lemma StreamStep(p: seq<Event>, f: Uuid, es: seq<Event>, e: Event)
    requires SelectFree(es) && !e.Select?
    ensures SwitchLatest(p + [Select(f)] + es + [e])
         == SwitchLatest(p + [Select(f)] + es) + EpochStep(f, Terminated(f, es), e)
  {
    var es' := es + [e];
    assert SelectFree(es');
    calc {
      SwitchLatest(p + [Select(f)] + es + [e]);
    == { assert p + [Select(f)] + es + [e] == p + [Select(f)] + es'; }
      SwitchLatest(p + [Select(f)] + es');
    == { CurrentEpoch(p, f, es'); }
      SwitchLatest(p) + Inner(f, es');
    == { InnerStep(f, es, e); }
      SwitchLatest(p) + (Inner(f, es) + EpochStep(f, Terminated(f, es), e));
    == { CurrentEpoch(p, f, es); }
      SwitchLatest(p + [Select(f)] + es) + EpochStep(f, Terminated(f, es), e);
    }
  }

  // ---------------------------------------------------------------------
  // The temporal contract of `folderUntilDeleted`

  /** Every selection of a folder immediately emits it as its epoch's first value. */
  lemma SelectionEmitsFolder(t: seq<Event>, f: Uuid)
    ensures SwitchLatest(t + [Select(f)]) == SwitchLatest(t) + [Some(f)]
  {
    CurrentEpoch(t, f, []);
    assert t + [Select(f)] + [] == t + [Select(f)];
  }

  /**
   * While `f` is selected and not deleted, `n` change notifications of `f`
   * emit exactly `n` more snapshots of `f`.
   */
  lemma {:induction false} InnerChanges(f: Uuid, es: seq<Event>, n: nat)
    requires !Terminated(f, es)
    ensures !Terminated(f, es + Repeat(Changed(f), n))
    ensures Inner(f, es + Repeat(Changed(f), n)) == Inner(f, es) + Repeat(Some(f), n)
    decreases n
  {
    if n == 0 {
      assert es + [] == es;
    } else {
      var es' := es + Repeat(Changed(f), n - 1);
      InnerChanges(f, es, n - 1);
      InnerLive(f, es', Changed(f));
      assert es + Repeat(Changed(f), n) == es' + [Changed(f)];
      assert !Terminated(f, es' + [Changed(f)]);
    }
  }

  lemma ChangesReemit(p: seq<Event>, f: Uuid, es: seq<Event>, n: nat)
    requires SelectFree(es) && !Terminated(f, es)
    ensures SwitchLatest(p + [Select(f)] + es + Repeat(Changed(f), n))
         == SwitchLatest(p + [Select(f)] + es) + Repeat(Some(f), n)
  {
    var es' := es + Repeat(Changed(f), n);
    assert SelectFree(es');
    assert p + [Select(f)] + es + Repeat(Changed(f), n) == p + [Select(f)] + es';
    CurrentEpoch(p, f, es);
    CurrentEpoch(p, f, es');
    InnerChanges(f, es, n);
  }

  lemma InnerAfterDeletion(f: Uuid, es: seq<Event>, later: seq<Event>)
    requires !Terminated(f, es)
    ensures Inner(f, es + [Deleted(f)] + later) == Inner(f, es) + [None]
  {
    var es' := es + [Deleted(f)] + later;
    assert es'[|es|] == Deleted(f);
    assert DeletedAt(f, es') == |es|;
    assert es'[..|es|] == es;
    assert es[..DeletedAt(f, es)] == es;
  }

  /**
   * Deleting the selected folder emits exactly one `nil`, and nothing else
   * is emitted for that epoch, whatever the folder reports afterwards.
   */
  lemma DeletionIsTerminal(p: seq<Event>, f: Uuid, es: seq<Event>, later: seq<Event>)
    requires SelectFree(es) && SelectFree(later) && !Terminated(f, es)
    ensures SwitchLatest(p + [Select(f)] + es + [Deleted(f)] + later)
         == SwitchLatest(p + [Select(f)] + es) + [None]
  {
    var es' := es + [Deleted(f)] + later;
    assert SelectFree(es');
    assert p + [Select(f)] + es + [Deleted(f)] + later == p + [Select(f)] + es';
    CurrentEpoch(p, f, es');
    CurrentEpoch(p, f, es);
    InnerAfterDeletion(f, es, later);
  }

  lemma {:induction false} ChangesOfOthers(f: Uuid, es: seq<Event>)
    requires forall i :: 0 <= i < |es| ==> es[i].folder != f
    ensures ChangesOf(f, es) == []
    decreases |es|
  {
    if es != [] {
      ChangesOfOthers(f, es[1..]);
    }
  }

  lemma {:induction false} ChangesOfConcat(f: Uuid, a: seq<Event>, b: seq<Event>)
    ensures ChangesOf(f, a + b) == ChangesOf(f, a) + ChangesOf(f, b)
    decreases |a|
  {
    if a == [] {
      assert a + b == b;
    } else {
      assert (a + b)[1..] == a[1..] + b;
      ChangesOfConcat(f, a[1..], b);
    }
  }

  lemma InnerOthers(g: Uuid, es: seq<Event>, later: seq<Event>)
    requires forall i :: 0 <= i < |later| ==> later[i].folder != g
    ensures Inner(g, es + later) == Inner(g, es)
  {
    var es' := es + later;
    var cut := DeletedAt(g, es);
    if cut < |es| {
      assert es'[cut] == Deleted(g);
      assert DeletedAt(g, es') == cut;
      assert es'[..cut] == es[..cut];
    } else {
      assert !(Deleted(g) in later);
      assert !(Deleted(g) in es');
      assert es'[..DeletedAt(g, es')] == es';
      assert es[..cut] == es;
      ChangesOfConcat(g, es, later);
      ChangesOfOthers(g, later);
    }
  }

  /**
   * Latest wins: while `g` is the selection, notifications of any other
   * folder (in particular of a folder selected earlier) emit nothing.
   */
  lemma OtherFoldersSilent(p: seq<Event>, g: Uuid, es: seq<Event>, later: seq<Event>)
    requires SelectFree(es) && SelectFree(later)
    requires forall i :: 0 <= i < |later| ==> later[i].folder != g
    ensures SwitchLatest(p + [Select(g)] + es + later) == SwitchLatest(p + [Select(g)] + es)
  {
    var es' := es + later;
    assert SelectFree(es');
    assert p + [Select(g)] + es + later == p + [Select(g)] + es';
    CurrentEpoch(p, g, es');
    CurrentEpoch(p, g, es);
    InnerOthers(g, es, later);
  }

  /**
   * Replay-one: the most recent snapshot, which `share(replay: 1)` hands to a
   * late subscriber, is the selected folder until it is deleted, then `nil`.
   */
  lemma LatestSnapshot(p: seq<Event>, f: Uuid, es: seq<Event>)
    requires SelectFree(es)
    ensures var s := SwitchLatest(p + [Select(f)] + es);
            |s| > 0 && s[|s| - 1] == if Terminated(f, es) then None else Some(f)
  {
    CurrentEpoch(p, f, es);
  }

  // ---------------------------------------------------------------------
  // The state machine that realises the denotation

  /**
   * What the chain keeps between events: the latest selection (none before
   * the variable's first value), whether its inner subscription is still
   * live, and every snapshot emitted so far.
   */
  datatype Machine = Machine(current: Option<Uuid>, live: bool, emitted: seq<Snapshot>)

  /**
   * One event: a selection switches to the new folder's inner stream, which
   * emits the folder at once; any other event goes to the current inner
   * stream only.
   */
  function Step(m: Machine, e: Event): (m': Machine)
  {
    if e.Select? then Machine(Some(e.folder), true, m.emitted + [Some(e.folder)])
    else if m.current.None? then m
    else
      var f := m.current.value;
      Machine(m.current, m.live && e != Deleted(f), m.emitted + EpochStep(f, !m.live, e))
  }

  /** The machine after the whole trace, from its state before any selection. */
  function Run(trace: seq<Event>): (m: Machine)
    decreases |trace|
  {
    if trace == [] then Machine(None, false, [])
    else Step(Run(trace[..|trace| - 1]), trace[|trace| - 1])
  }

  /** Where the last selection of the trace is, or -1 when there is none. */
  function LastSelect(trace: seq<Event>): (k: int)
    ensures -1 <= k < |trace|
    ensures k >= 0 ==> trace[k].Select?
    ensures forall i :: k < i < |trace| ==> !trace[i].Select?
    decreases |trace|
  {
    if trace == [] then -1
    else if trace[|trace| - 1].Select? then |trace| - 1
    else LastSelect(trace[..|trace| - 1])
  }

  lemma {:induction false} BeforeAnySelection(trace: seq<Event>)
    requires SelectFree(trace)
    ensures Run(trace) == Machine(None, false, [])
    ensures Epochs(trace) == []
    decreases |trace|
  {
    if trace != [] {
      BeforeAnySelection(trace[..|trace| - 1]);
    }
  }

  /**
   * Within an epoch the machine tracks the denotation: it holds the
   * selected folder, is live until the folder's deletion, and has emitted
   * exactly the stream so far.
   */
  lemma {:induction false} RunEpoch(p: seq<Event>, f: Uuid, es: seq<Event>)
    requires SelectFree(es) && Run(p).emitted == SwitchLatest(p)
    ensures Run(p + [Select(f)] + es)
         == Machine(Some(f), !Terminated(f, es), SwitchLatest(p + [Select(f)] + es))
    decreases |es|
  {
    var t := p + [Select(f)] + es;
    if es == [] {
      assert t[..|t| - 1] == p;
      SelectionEmitsFolder(p, f);
      assert p + [Select(f)] + [] == p + [Select(f)];
    } else {
      var es0, e := es[..|es| - 1], es[|es| - 1];
      assert es == es0 + [e];
      assert SelectFree(es0);
      assert t[..|t| - 1] == p + [Select(f)] + es0;
      RunEpoch(p, f, es0);
      StreamStep(p, f, es0, e);
      assert p + [Select(f)] + es0 + [e] == t;
      assert Terminated(f, es) == (Terminated(f, es0) || e == Deleted(f));
    }
  }

  /** The state machine emits exactly the denotation of `flatMapLatest`. */
  lemma {:induction false} RunDenotes(trace: seq<Event>)
    ensures Run(trace).emitted == SwitchLatest(trace)
    decreases |trace|
  {
    var k := LastSelect(trace);
    if k < 0 {
      BeforeAnySelection(trace);
    } else {
      var p, f, es := trace[..k], trace[k].folder, trace[k + 1..];
      assert trace == p + [Select(f)] + es by {
        assert trace[k] == Select(f);
      }
      RunDenotes(p);
      RunEpoch(p, f, es);
    }
  }
}
