/**
 * Abstract stand-ins for the repository's `Item`, `Folder` and `Recording`
 * classes, whose implementations are not part of this model. Every item has a
 * name and a unique identifier; a folder also has an optional parent and an
 * ordered list of children. `Folder.add` and `Folder.remove` are modelled by
 * `AddChild` and `RemoveChild`.
 */
module Items {
  import opened Wrappers

  /** `UUID` values, modelled as naturals handed out by a counter. */
  type Uuid = nat

  datatype Item =
    | Folder(name: string, uuid: Uuid, parent: Option<Uuid>, contents: seq<Item>)
    | Recording(name: string, uuid: Uuid)

  /** A folder-valued item, the type of `Variable<Folder>`'s value. */
  type Folder = i: Item | i.Folder? witness Folder("", 0, None, [])

  function Max(a: nat, b: nat): (m: nat)
  {
    if a < b then b else a
  }

  /** The largest identifier anywhere in the tree rooted at `i`. */
  function MaxUuid(i: Item): (m: nat)
    decreases i, 1
  {
    match i
    case Recording(_, u) => u
    case Folder(_, u, _, cs) => Max(u, MaxUuidOf(cs))
  }

  /** The largest identifier anywhere in the trees rooted at `cs` (0 if none). */
  function MaxUuidOf(cs: seq<Item>): (m: nat)
    decreases cs, 0
  {
    if cs == [] then 0 else Max(MaxUuid(cs[0]), MaxUuidOf(cs[1..]))
  }

  /** No two children share an identifier: what a diffing table view needs. */
  predicate UniqueUuids(cs: seq<Item>)
  {
    forall i, j :: 0 <= i < j < |cs| ==> cs[i].uuid != cs[j].uuid
  }

  /** Position of the first child with identifier `u`, or -1. */
  function IndexOf(cs: seq<Item>, u: Uuid): (k: int)
    ensures -1 <= k < |cs|
    ensures 0 <= k ==> cs[k].uuid == u && forall j :: 0 <= j < k ==> cs[j].uuid != u
    ensures k == -1 <==> forall j :: 0 <= j < |cs| ==> cs[j].uuid != u
  {
    if cs == [] then -1
    else if cs[0].uuid == u then 0
    else
      var k := IndexOf(cs[1..], u);
      if k == -1 then -1 else k + 1
  }

  /**
   * `Folder.add`: the folder gains `child` as its last entry, and `child`'s
   * parent becomes the folder.
   */
  function AddChild(f: Folder, child: Item): (g: Folder)
    ensures g.name == f.name && g.uuid == f.uuid && g.parent == f.parent
  {
    var adopted := if child.Folder? then child.(parent := Some(f.uuid)) else child;
    f.(contents := f.contents + [adopted])
  }

  /**
   * `Folder.remove`: the first child with `item`'s identifier is taken out;
   * a folder that does not contain it is returned unchanged.
   */
  function RemoveChild(f: Folder, item: Item): (g: Folder)
    ensures g.name == f.name && g.uuid == f.uuid && g.parent == f.parent
    ensures |g.contents| <= |f.contents|
    ensures forall x :: x in g.contents ==> x in f.contents
  {
    var k := IndexOf(f.contents, item.uuid);
    if k < 0 then f else f.(contents := f.contents[..k] + f.contents[k + 1..])
  }

  lemma {:induction false} MaxUuidOfConcat(a: seq<Item>, b: seq<Item>)
    ensures MaxUuidOf(a + b) == Max(MaxUuidOf(a), MaxUuidOf(b))
    decreases |a|
  {
    if a == [] {
      assert a + b == b;
    } else {
      assert (a + b)[1..] == a[1..] + b;
      MaxUuidOfConcat(a[1..], b);
    }
  }

  /** Every child's tree lies below its parent's largest identifier. */
  lemma {:induction false} ChildBelowMax(cs: seq<Item>, i: nat)
    requires i < |cs|
    ensures cs[i].uuid <= MaxUuid(cs[i]) <= MaxUuidOf(cs)
    decreases |cs|
  {
    if i > 0 {
      ChildBelowMax(cs[1..], i - 1);
    }
  }

  /** Adding a child raises the largest identifier only to the child's. */
  lemma AddChildMaxUuid(f: Folder, child: Item)
    ensures child.Folder? ==> MaxUuid(AddChild(f, child)) == Max(MaxUuid(f), Max(child.uuid, MaxUuidOf(child.contents)))
    ensures child.Recording? ==> MaxUuid(AddChild(f, child)) == Max(MaxUuid(f), child.uuid)
  {
    var adopted := if child.Folder? then child.(parent := Some(f.uuid)) else child;
    MaxUuidOfConcat(f.contents, [adopted]);
    assert MaxUuidOf([adopted]) == MaxUuid(adopted);
  }

  /** Dropping one tree from a sequence never raises the largest identifier. */
  lemma {:induction false} MaxUuidOfDrop(cs: seq<Item>, k: nat)
    requires k < |cs|
    ensures MaxUuidOf(cs[..k] + cs[k + 1..]) <= MaxUuidOf(cs)
    decreases k
  {
    if k == 0 {
      assert cs[..0] + cs[1..] == cs[1..];
    } else {
      MaxUuidOfDrop(cs[1..], k - 1);
      assert cs[..k] + cs[k + 1..] == [cs[0]] + (cs[1..][..k - 1] + cs[1..][k..]);
    }
  }

  /** Removing a child never introduces an identifier. */
  lemma RemoveChildMaxUuid(f: Folder, item: Item)
    ensures MaxUuid(RemoveChild(f, item)) <= MaxUuid(f)
  {
    var k := IndexOf(f.contents, item.uuid);
    if k >= 0 {
      MaxUuidOfDrop(f.contents, k);
    }
  }

  /**
   * A child whose identifier is above every identifier in the folder's tree
   * is fresh among the children, and the folder ends up with exactly one more
   * child, after the old ones: the child itself, adopted by the folder when
   * it is a folder.
   */
  lemma AddFreshChildShape(f: Folder, child: Item)
    requires child.uuid > MaxUuid(f)
    ensures |AddChild(f, child).contents| == |f.contents| + 1
    ensures forall x :: x in f.contents ==> x.uuid != child.uuid
    ensures AddChild(f, child).contents[..|f.contents|] == f.contents
    ensures var n := AddChild(f, child).contents[|f.contents|];
      n.name == child.name && n.uuid == child.uuid && n.Folder? == child.Folder?
      && (n.Folder? ==> n.parent == Some(f.uuid) && n.contents == child.contents)
  {
    forall i | 0 <= i < |f.contents|
      ensures f.contents[i].uuid < child.uuid
    {
      ChildBelowMax(f.contents, i);
    }
  }

  /**
   * With uniquely identified children, adding a fresh child keeps them
   * uniquely identified, with the shape `AddFreshChildShape` states.
   */
  lemma AddFreshChild(f: Folder, child: Item)
    requires UniqueUuids(f.contents)
    requires child.uuid > MaxUuid(f)
    ensures UniqueUuids(AddChild(f, child).contents)
    ensures |AddChild(f, child).contents| == |f.contents| + 1
    ensures forall x :: x in f.contents ==> x.uuid != child.uuid
    ensures AddChild(f, child).contents[..|f.contents|] == f.contents
    ensures var n := AddChild(f, child).contents[|f.contents|];
      n.name == child.name && n.uuid == child.uuid && n.Folder? == child.Folder?
      && (n.Folder? ==> n.parent == Some(f.uuid) && n.contents == child.contents)
  {
    var g := AddChild(f, child);
    AddFreshChildShape(f, child);
    assert forall i :: 0 <= i < |f.contents| ==> g.contents[i] == f.contents[i];
  }

  /**
   * With uniquely identified children, removing `item` leaves exactly the
   * other children and keeps them uniquely identified.
   */
  lemma RemoveChildContents(f: Folder, item: Item)
    requires UniqueUuids(f.contents)
    ensures UniqueUuids(RemoveChild(f, item).contents)
    ensures forall x :: x in RemoveChild(f, item).contents <==> x in f.contents && x.uuid != item.uuid
    ensures IndexOf(f.contents, item.uuid) >= 0 ==> |RemoveChild(f, item).contents| == |f.contents| - 1
    ensures IndexOf(f.contents, item.uuid) < 0 ==> RemoveChild(f, item) == f
  {
  }
}
