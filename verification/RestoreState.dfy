/**
 The durable state of a production restore and what every crash may leave of it.

 A restore keeps three names per enrolled path: the production target, a staged
 copy beside it and, after the first of two renames, the parked original.  The
 journal on disk names them.  `Consistent` is the invariant that holds of the disk
 after every durable step; `SettledIsWhole` is what it means to the settlement gate.
 */
module RestoreState {
  import opened Texts
  import opened Wrappers

  type Path = string
  type Mode = m: nat | m < 0x1000

  datatype Meta = Meta(uid: nat, gid: nat, mode: Mode)
  datatype Node = Node(data: string, directory: bool, meta: Meta)
  type Files = map<Path, Node>

  datatype Status = Preparing | Stopping | Switching | Starting | Done | RollbackRequired | RolledBack

  datatype ItemState = ItemPlanned | ItemPreparing | ItemPrepared | ItemSwitching | ItemSwitched | ItemRolledBack

  /** The fields an item gains when its restore siblings are named. */
  datatype Siblings = Siblings(staged: Path, previous: Path, meta: Meta)

  datatype Item = Item(target: Path, siblings: Option<Siblings>)

  /** `states[k]` is the progress mark that the journal keeps in item `paths[k]`. */
  datatype Journal = Journal(
    operation: string,
    status: Status,
    productionStopped: bool,
    healthVerified: bool,
    paths: seq<Item>,
    states: seq<ItemState>)

  /** The disk, with the two references its meaning needs: the files as the
      operation found them, and the nodes it is to put at its targets. */
  datatype Disk = Disk(files: Files, journal: Option<Journal>, origin: Files, wanted: Files)

  // ---------------------------------------------------------------- names

  const SUFFIX_HEAD := ".platform-restore-"

  /** The last twelve characters, or all of a shorter string. */
  function Tail(op: string): string {
    if |op| <= 12 then op else op[|op| - 12..]
  }

  function Suffix(op: string): string {
    SUFFIX_HEAD + Tail(op)
  }

  function StagedPath(target: Path, op: string): Path {
    target + Suffix(op)
  }

  function PreviousPath(target: Path, op: string): Path {
    target + Suffix(op) + "-previous"
  }

  /** Siblings of different targets never share a name, and a staged name is never
      anybody's parked name, whatever the operation's last twelve characters are. */
  lemma SiblingNamesNeverCollide(t1: Path, t2: Path, op: string)
    ensures StagedPath(t1, op) != PreviousPath(t2, op)
    ensures t1 != t2 ==> StagedPath(t1, op) != StagedPath(t2, op)
    ensures t1 != t2 ==> PreviousPath(t1, op) != PreviousPath(t2, op)
  {
    var s := Suffix(op);
    assert |s| >= 18 && s[0] == '.' && s[9] == '-';
    var a, b := StagedPath(t1, op), PreviousPath(t2, op);
    if |t1| == |t2| + 9 {
      assert a[|t1|] == s[0] && b[|t1|] == s[9];
    }
    assert t1 == StagedPath(t1, op)[..|t1|] == PreviousPath(t1, op)[..|t1|];
    assert t2 == StagedPath(t2, op)[..|t2|] == PreviousPath(t2, op)[..|t2|];
  }

  /** The siblings of a target: the head, the last twelve characters of the operation, and
      the ending of the parked one. */
  lemma SiblingNamesMean(target: Path, op: string) returns (head: string, last: string)
    requires OperationName(op)
    ensures op == head + last && |last| == 12
    ensures StagedPath(target, op) == target + ".platform-restore-" + last
    ensures PreviousPath(target, op) == target + ".platform-restore-" + last + "-previous"
  {
    head, last := op[..|op| - 12], op[|op| - 12..];
    assert StagedPath(target, op) == target + (".platform-restore-" + last);
  }

  // ---------------------------------------------------------------- file map

  ghost predicate Same(f: Files, g: Files, p: Path) {
    && (p in f <==> p in g)
    && (p in f ==> f[p] == g[p])
  }

  function Renamed(f: Files, a: Path, b: Path): Files
    requires a in f
  {
    (f - {a})[b := f[a]]
  }

  function WithMeta(f: Files, p: Path, m: Meta): Files
    requires p in f
  {
    f[p := f[p].(meta := m)]
  }

  // ---------------------------------------------------------------- staging

  ghost predicate NamesStaged(paths: seq<Item>, p: Path) {
    exists k :: 0 <= k < |paths| && paths[k].siblings.Some? && paths[k].siblings.value.staged == p
  }

  /** Before production stops: the disk differs from what the operation found only
      at staged names this journal lists, none of which existed before. */
  ghost predicate StageInv(f: Files, paths: seq<Item>, op: string, origin: Files)
  {
    && (forall p :: !NamesStaged(paths, p) ==> Same(f, origin, p))
    && (forall k :: 0 <= k < |paths| && paths[k].siblings.Some? ==>
          && paths[k].siblings.value.staged == StagedPath(paths[k].target, op)
          && paths[k].siblings.value.previous == PreviousPath(paths[k].target, op)
          && paths[k].siblings.value.staged !in origin
          && paths[k].siblings.value.previous !in origin)
  }

  // ---------------------------------------------------------------- switching

  ghost predicate SameData(a: Node, b: Node) {
    a.data == b.data && a.directory == b.directory
  }

  /** Original at its target, replacement staged beside it. */
  ghost predicate Prepared(f: Files, t: Path, s: Siblings, o: Node, w: Node) {
    && t in f && f[t] == o
    && s.staged in f && f[s.staged] == w
    && s.previous !in f
  }

  /** Original moved aside (its owner and mode may be closed down), target absent. */
  ghost predicate Parked(f: Files, t: Path, s: Siblings, o: Node, w: Node) {
    && t !in f
    && s.staged in f && f[s.staged] == w
    && s.previous in f && SameData(f[s.previous], o)
  }

  /** The owner and mode that keep a parked original out of reach: root, 0700 or 0600. */
  function ClosedDown(directory: bool): Meta {
    Meta(0, 0, if directory then 0x1C0 else 0x180)
  }

  /** Octal 700 or 600 for the superuser: nothing for the group or for others. */
  lemma ClosedDownMeans(directory: bool)
    ensures var m := ClosedDown(directory);
            && m.uid == 0 && m.gid == 0 && m.mode % 64 == 0
            && m.mode / 64 == if directory then 7 else 6
  {}

  /** Replacement at the target, original kept aside and closed down. */
  ghost predicate Switched(f: Files, t: Path, s: Siblings, o: Node, w: Node) {
    && t in f && f[t] == w
    && s.staged !in f
    && s.previous in f && SameData(f[s.previous], o) && f[s.previous].meta == ClosedDown(o.directory)
  }

  ghost predicate Shaped(f: Files, t: Path, s: Siblings, o: Node, w: Node) {
    Prepared(f, t, s, o, w) || Parked(f, t, s, o, w) || Switched(f, t, s, o, w)
  }

  /** No two of the names a plan uses are equal. */
  ghost predicate Disjoint(paths: seq<Item>) {
    && (forall k :: 0 <= k < |paths| ==> paths[k].siblings.Some?)
    && (forall k, l :: 0 <= k < |paths| && 0 <= l < |paths| && k != l ==>
          && paths[k].target != paths[l].target
          && paths[k].siblings.value.staged != paths[l].siblings.value.staged
          && paths[k].siblings.value.previous != paths[l].siblings.value.previous)
    && (forall k, l :: 0 <= k < |paths| && 0 <= l < |paths| ==>
          && paths[k].siblings.value.staged != paths[l].siblings.value.previous
          && paths[k].target != paths[l].siblings.value.staged
          && paths[k].target != paths[l].siblings.value.previous)
  }

  ghost predicate Plan(paths: seq<Item>, op: string, origin: Files, wanted: Files)
  {
    && (forall k :: 0 <= k < |paths| ==>
          && paths[k].siblings.Some?
          && paths[k].target in origin
          && paths[k].target in wanted
          && paths[k].siblings.value.staged == StagedPath(paths[k].target, op)
          && paths[k].siblings.value.previous == PreviousPath(paths[k].target, op)
          && paths[k].siblings.value.staged !in origin
          && paths[k].siblings.value.previous !in origin
          && paths[k].siblings.value.meta == origin[paths[k].target].meta)
    && Disjoint(paths)
    && (forall t :: t in wanted ==> exists k :: 0 <= k < |paths| && paths[k].target == t)
  }

  ghost predicate Uses(paths: seq<Item>, p: Path) {
    exists k :: 0 <= k < |paths| && paths[k].siblings.Some? &&
      (p == paths[k].target || p == paths[k].siblings.value.staged || p == paths[k].siblings.value.previous)
  }

  ghost predicate ItemPreparedIn(f: Files, it: Item, origin: Files, wanted: Files) {
    && it.siblings.Some? && it.target in origin && it.target in wanted
    && Prepared(f, it.target, it.siblings.value, origin[it.target], wanted[it.target])
  }

  ghost predicate ItemParkedIn(f: Files, it: Item, origin: Files, wanted: Files) {
    && it.siblings.Some? && it.target in origin && it.target in wanted
    && Parked(f, it.target, it.siblings.value, origin[it.target], wanted[it.target])
  }

  ghost predicate ItemSwitchedIn(f: Files, it: Item, origin: Files, wanted: Files) {
    && it.siblings.Some? && it.target in origin && it.target in wanted
    && Switched(f, it.target, it.siblings.value, origin[it.target], wanted[it.target])
  }

  ghost predicate ItemShapedIn(f: Files, it: Item, origin: Files, wanted: Files) {
    && it.siblings.Some? && it.target in origin && it.target in wanted
    && Shaped(f, it.target, it.siblings.value, origin[it.target], wanted[it.target])
  }

  /** Once production may be stopped: every item is in one of the three shapes and
      nothing but the names of the plan has moved. */
  ghost predicate SwitchInv(f: Files, paths: seq<Item>, op: string, origin: Files, wanted: Files)
  {
    && Plan(paths, op, origin, wanted)
    && (forall k :: 0 <= k < |paths| ==> ItemShapedIn(f, paths[k], origin, wanted))
    && (forall p :: !Uses(paths, p) ==> Same(f, origin, p))
  }

  ghost predicate AllPrepared(f: Files, paths: seq<Item>, origin: Files, wanted: Files) {
    forall k :: 0 <= k < |paths| ==> ItemPreparedIn(f, paths[k], origin, wanted)
  }

  ghost predicate AllSwitched(f: Files, paths: seq<Item>, origin: Files, wanted: Files) {
    forall k :: 0 <= k < |paths| ==> ItemSwitchedIn(f, paths[k], origin, wanted)
  }

  /** The invariant of the disk after every durable step. */
  ghost predicate Consistent(d: Disk) {
    d.journal.Some? ==>
      var j := d.journal.value;
      && OperationName(j.operation) && |j.states| == |j.paths|
      && if !j.productionStopped then
           && j.status != Done
           && StageInv(d.files, j.paths, j.operation, d.origin)
         else
           && SwitchInv(d.files, j.paths, j.operation, d.origin, d.wanted)
           && (j.status == Done ==> AllSwitched(d.files, j.paths, d.origin, d.wanted))
           && (j.status == RolledBack ==> AllPrepared(d.files, j.paths, d.origin, d.wanted))
  }

  // ---------------------------------------------------------------- meaning

  ghost predicate IsSibling(paths: seq<Item>, p: Path) {
    exists k :: 0 <= k < |paths| && paths[k].siblings.Some? &&
      (p == paths[k].siblings.value.staged || p == paths[k].siblings.value.previous)
  }

  /** Every target holds its restored node, every original is retained aside for a
      later rollback, and no other path changed except the operation's own siblings,
      which did not exist before. */
  ghost predicate AllRestored(d: Disk, paths: seq<Item>) {
    && (forall t :: t in d.wanted ==> t in d.files && d.files[t] == d.wanted[t])
    && (forall k :: 0 <= k < |paths| ==>
          && paths[k].siblings.Some? && paths[k].target in d.wanted && paths[k].target in d.origin
          && paths[k].siblings.value.previous in d.files
          && SameData(d.files[paths[k].siblings.value.previous], d.origin[paths[k].target]))
    && (forall p :: p !in d.wanted && !IsSibling(paths, p) ==> Same(d.files, d.origin, p))
    && (forall p :: IsSibling(paths, p) ==> p !in d.origin)
  }

  /** Every path of the machine holds what it held before the operation: contents,
      kind, owner and mode.  Only siblings that did not exist before may differ. */
  ghost predicate AllOriginal(d: Disk, paths: seq<Item>) {
    && (forall p :: !IsSibling(paths, p) ==> Same(d.files, d.origin, p))
    && (forall p :: IsSibling(paths, p) ==> p !in d.origin)
  }

  /** All or nothing: a journal that says done has every target restored, one that says
      rolled back has everything original.  The gate lets no others pass. */
  ghost predicate Whole(d: Disk) {
    d.journal.Some? ==>
      var j := d.journal.value;
      && (j.status == Done ==> AllRestored(d, j.paths))
      && (j.status == RolledBack ==> AllOriginal(d, j.paths))
  }

  lemma SwitchedIsRestored(d: Disk, paths: seq<Item>, op: string)
    requires SwitchInv(d.files, paths, op, d.origin, d.wanted) && AllSwitched(d.files, paths, d.origin, d.wanted)
    ensures AllRestored(d, paths)
  {
    hide Disjoint, ItemShapedIn, ItemSwitchedIn, StagedPath, PreviousPath;
    forall k | 0 <= k < |paths|
      ensures paths[k].siblings.Some? && paths[k].target in d.wanted && paths[k].target in d.origin
      ensures paths[k].target in d.files && d.files[paths[k].target] == d.wanted[paths[k].target]
      ensures paths[k].siblings.value.previous in d.files
      ensures SameData(d.files[paths[k].siblings.value.previous], d.origin[paths[k].target])
    {
      SwitchedItemMeans(d.files, paths[k], d.origin, d.wanted);
    }
    forall t | t in d.wanted ensures t in d.files && d.files[t] == d.wanted[t] {
      var k :| 0 <= k < |paths| && paths[k].target == t;
    }
    forall p | p !in d.wanted && !IsSibling(paths, p) ensures Same(d.files, d.origin, p) {
      assert !Uses(paths, p);
    }
  }

  lemma SwitchedItemMeans(f: Files, it: Item, origin: Files, wanted: Files)
    requires ItemSwitchedIn(f, it, origin, wanted)
    ensures it.siblings.Some? && it.target in wanted && it.target in origin
    ensures it.target in f && f[it.target] == wanted[it.target]
    ensures it.siblings.value.previous in f && SameData(f[it.siblings.value.previous], origin[it.target])
  {}

  lemma StagedIsOriginal(d: Disk, paths: seq<Item>, op: string)
    requires StageInv(d.files, paths, op, d.origin)
    ensures AllOriginal(d, paths)
  {
    forall p | !IsSibling(paths, p) ensures Same(d.files, d.origin, p) {
      assert !NamesStaged(paths, p);
    }
  }

  lemma SettledIsWhole(d: Disk)
    requires Consistent(d)
    ensures Whole(d)
  {
    hide SwitchInv, StageInv, AllPrepared, AllSwitched, AllRestored, AllOriginal;
    if d.journal.Some? {
      var j := d.journal.value;
      if j.status == Done {
        SwitchedIsRestored(d, j.paths, j.operation);
      } else if j.status == RolledBack {
        if j.productionStopped {
          PreparedIsOriginal(d.files, j.paths, j.operation, d.origin, d.wanted);
        }
        StagedIsOriginal(d, j.paths, j.operation);
      }
    }
  }

  /** While the durable journal says production was not stopped, no path that
      existed before the operation has changed. */
  lemma UntouchedUntilStopped(d: Disk)
    requires Consistent(d) && d.journal.Some? && !d.journal.value.productionStopped
    ensures forall p :: p in d.origin ==> p in d.files && d.files[p] == d.origin[p]
    ensures forall p :: p in d.files && p !in d.origin ==> NamesStaged(d.journal.value.paths, p)
  {
    StagingLeavesOriginals(d.files, d.journal.value.paths, d.journal.value.operation, d.origin);
  }

  /** With every item prepared the disk is what the operation found, apart from the
      staged copies. */
  lemma PreparedIsOriginal(f: Files, paths: seq<Item>, op: string, origin: Files, wanted: Files)
    requires SwitchInv(f, paths, op, origin, wanted) && AllPrepared(f, paths, origin, wanted)
    ensures StageInv(f, paths, op, origin)
  {
    forall p | !NamesStaged(paths, p) ensures Same(f, origin, p) {
      if Uses(paths, p) {
        var k :| 0 <= k < |paths| &&
          paths[k].siblings.Some? &&
          (p == paths[k].target || p == paths[k].siblings.value.staged || p == paths[k].siblings.value.previous);
        assert ItemPreparedIn(f, paths[k], origin, wanted);
      }
    }
  }

  ghost predicate AgreeOutside(f: Files, g: Files, it: Item) {
    it.siblings.Some? &&
    forall p :: p != it.target && p != it.siblings.value.staged && p != it.siblings.value.previous ==> Same(f, g, p)
  }

  /** Every other item keeps the shape it had. */
  ghost predicate KeepsOthers(f: Files, g: Files, paths: seq<Item>, i: nat, origin: Files, wanted: Files) {
    forall k :: 0 <= k < |paths| && k != i ==>
      && (ItemPreparedIn(f, paths[k], origin, wanted) ==> ItemPreparedIn(g, paths[k], origin, wanted))
      && (ItemSwitchedIn(f, paths[k], origin, wanted) ==> ItemSwitchedIn(g, paths[k], origin, wanted))
  }

  lemma SameNamesSameShape(f: Files, g: Files, it: Item, origin: Files, wanted: Files)
    requires it.siblings.Some?
    requires Same(f, g, it.target) && Same(f, g, it.siblings.value.staged) && Same(f, g, it.siblings.value.previous)
    ensures ItemPreparedIn(f, it, origin, wanted) <==> ItemPreparedIn(g, it, origin, wanted)
    ensures ItemSwitchedIn(f, it, origin, wanted) <==> ItemSwitchedIn(g, it, origin, wanted)
    ensures ItemShapedIn(f, it, origin, wanted) <==> ItemShapedIn(g, it, origin, wanted)
  {}

  /** Moving the three names of one item from shape to shape disturbs no other item. */
  lemma MoveOneItem(f: Files, g: Files, paths: seq<Item>, i: nat, op: string, origin: Files, wanted: Files)
    requires SwitchInv(f, paths, op, origin, wanted) && i < |paths|
    requires AgreeOutside(f, g, paths[i])
    requires ItemShapedIn(g, paths[i], origin, wanted)
    ensures SwitchInv(g, paths, op, origin, wanted)
    ensures KeepsOthers(f, g, paths, i, origin, wanted)
  {
    hide ItemShapedIn, ItemPreparedIn, ItemSwitchedIn;
    forall k | 0 <= k < |paths| && k != i
      ensures ItemPreparedIn(f, paths[k], origin, wanted) <==> ItemPreparedIn(g, paths[k], origin, wanted)
      ensures ItemSwitchedIn(f, paths[k], origin, wanted) <==> ItemSwitchedIn(g, paths[k], origin, wanted)
      ensures ItemShapedIn(f, paths[k], origin, wanted) <==> ItemShapedIn(g, paths[k], origin, wanted)
    {
      SameNamesSameShape(f, g, paths[k], origin, wanted);
    }
    forall p | !Uses(paths, p) ensures Same(g, origin, p) {
      assert Same(f, origin, p);
      assert Same(f, g, p);
    }
  }

  lemma OwnNamesDiffer(f: Files, paths: seq<Item>, i: nat, op: string, origin: Files, wanted: Files)
    requires SwitchInv(f, paths, op, origin, wanted) && i < |paths|
    ensures paths[i].target in origin
    ensures paths[i].siblings.Some? && paths[i].siblings.value.meta == origin[paths[i].target].meta
    ensures paths[i].target != paths[i].siblings.value.staged
    ensures paths[i].target != paths[i].siblings.value.previous
    ensures paths[i].siblings.value.staged != paths[i].siblings.value.previous
  {}

  // The four renames of the protocol and the metadata changes, each from shape to shape.

  /** `target -> previous`, the first half of a switch. */
  lemma ParkItem(f: Files, paths: seq<Item>, i: nat, op: string, origin: Files, wanted: Files)
    requires SwitchInv(f, paths, op, origin, wanted) && i < |paths|
    requires ItemPreparedIn(f, paths[i], origin, wanted)
    ensures paths[i].target in f && paths[i].siblings.value.previous !in f
    ensures var g := Renamed(f, paths[i].target, paths[i].siblings.value.previous);
      && SwitchInv(g, paths, op, origin, wanted)
      && ItemParkedIn(g, paths[i], origin, wanted)
      && KeepsOthers(f, g, paths, i, origin, wanted)
  {
    hide SwitchInv, KeepsOthers;
    OwnNamesDiffer(f, paths, i, op, origin, wanted);
    MoveOneItem(f, Renamed(f, paths[i].target, paths[i].siblings.value.previous), paths, i, op, origin, wanted);
  }

  /** `staged -> target`, the second half of a switch. */
  lemma SwitchItem(f: Files, paths: seq<Item>, i: nat, op: string, origin: Files, wanted: Files)
    requires SwitchInv(f, paths, op, origin, wanted) && i < |paths|
    requires ItemParkedIn(f, paths[i], origin, wanted)
    requires paths[i].siblings.value.previous in f
    requires f[paths[i].siblings.value.previous].meta == ClosedDown(f[paths[i].siblings.value.previous].directory)
    ensures paths[i].target !in f && paths[i].siblings.value.staged in f
    ensures var g := Renamed(f, paths[i].siblings.value.staged, paths[i].target);
      && SwitchInv(g, paths, op, origin, wanted)
      && ItemSwitchedIn(g, paths[i], origin, wanted)
      && KeepsOthers(f, g, paths, i, origin, wanted)
  {
    hide SwitchInv, KeepsOthers;
    OwnNamesDiffer(f, paths, i, op, origin, wanted);
    MoveOneItem(f, Renamed(f, paths[i].siblings.value.staged, paths[i].target), paths, i, op, origin, wanted);
  }

  /** `target -> staged`, the first half of an undo. */
  lemma UnswitchItem(f: Files, paths: seq<Item>, i: nat, op: string, origin: Files, wanted: Files)
    requires SwitchInv(f, paths, op, origin, wanted) && i < |paths|
    requires ItemSwitchedIn(f, paths[i], origin, wanted)
    ensures paths[i].target in f && paths[i].siblings.value.staged !in f
    ensures var g := Renamed(f, paths[i].target, paths[i].siblings.value.staged);
      && SwitchInv(g, paths, op, origin, wanted)
      && ItemParkedIn(g, paths[i], origin, wanted)
      && KeepsOthers(f, g, paths, i, origin, wanted)
  {
    hide SwitchInv, KeepsOthers;
    OwnNamesDiffer(f, paths, i, op, origin, wanted);
    MoveOneItem(f, Renamed(f, paths[i].target, paths[i].siblings.value.staged), paths, i, op, origin, wanted);
  }

  /** `previous -> target`, the second half of an undo, once its metadata is back. */
  lemma UnparkItem(f: Files, paths: seq<Item>, i: nat, op: string, origin: Files, wanted: Files)
    requires SwitchInv(f, paths, op, origin, wanted) && i < |paths|
    requires ItemParkedIn(f, paths[i], origin, wanted)
    requires paths[i].siblings.value.previous in f
    requires f[paths[i].siblings.value.previous].meta == paths[i].siblings.value.meta
    ensures paths[i].target !in f
    ensures var g := Renamed(f, paths[i].siblings.value.previous, paths[i].target);
      && SwitchInv(g, paths, op, origin, wanted)
      && ItemPreparedIn(g, paths[i], origin, wanted)
      && KeepsOthers(f, g, paths, i, origin, wanted)
  {
    hide SwitchInv, KeepsOthers;
    OwnNamesDiffer(f, paths, i, op, origin, wanted);
    MoveOneItem(f, Renamed(f, paths[i].siblings.value.previous, paths[i].target), paths, i, op, origin, wanted);
  }

  /** Changing the owner or mode of a parked original. */
  lemma RemetaItem(f: Files, m: Meta, paths: seq<Item>, i: nat, op: string, origin: Files, wanted: Files)
    requires SwitchInv(f, paths, op, origin, wanted) && i < |paths|
    requires ItemParkedIn(f, paths[i], origin, wanted)
    ensures paths[i].siblings.value.previous in f
    ensures var g := WithMeta(f, paths[i].siblings.value.previous, m);
      && SwitchInv(g, paths, op, origin, wanted)
      && ItemParkedIn(g, paths[i], origin, wanted)
      && KeepsOthers(f, g, paths, i, origin, wanted)
  {
    hide SwitchInv, KeepsOthers;
    OwnNamesDiffer(f, paths, i, op, origin, wanted);
    MoveOneItem(f, WithMeta(f, paths[i].siblings.value.previous, m), paths, i, op, origin, wanted);
  }

  /** Which of its three names exist tells an item's shape, and never do all three, so
      that manual reconciliation is unreachable. */
  lemma ShapeOfItem(f: Files, paths: seq<Item>, i: nat, op: string, origin: Files, wanted: Files)
    requires SwitchInv(f, paths, op, origin, wanted) && i < |paths|
    ensures paths[i].siblings.Some? && paths[i].target in origin && paths[i].target in wanted
    ensures paths[i].siblings.value.meta == origin[paths[i].target].meta
    ensures paths[i].siblings.value.previous !in f ==> ItemPreparedIn(f, paths[i], origin, wanted)
    ensures paths[i].siblings.value.previous in f && paths[i].target !in f ==> ItemParkedIn(f, paths[i], origin, wanted)
    ensures paths[i].siblings.value.previous in f && paths[i].target in f ==>
              ItemSwitchedIn(f, paths[i], origin, wanted)
    ensures ItemPreparedIn(f, paths[i], origin, wanted) ==> paths[i].siblings.value.previous !in f
    ensures paths[i].siblings.value.previous in f && paths[i].target in f ==> paths[i].siblings.value.staged !in f
  {
    assert ItemShapedIn(f, paths[i], origin, wanted);
  }

  /** A journal whose items are on the move may be on disk in any mixture of shapes. */
  lemma MovingIsConsistent(f: Files, j: Journal, origin: Files, wanted: Files)
    requires |j.states| == |j.paths|
    requires OperationName(j.operation) && j.productionStopped && j.status != Done && j.status != RolledBack
    requires SwitchInv(f, j.paths, j.operation, origin, wanted)
    ensures Consistent(Disk(f, Some(j), origin, wanted))
  {}

  /** A journal of a plan with everything prepared may carry any status but done. */
  lemma PreparedIsConsistent(f: Files, j: Journal, origin: Files, wanted: Files)
    requires |j.states| == |j.paths|
    requires OperationName(j.operation) && j.status != Done
    requires SwitchInv(f, j.paths, j.operation, origin, wanted) && AllPrepared(f, j.paths, origin, wanted)
    ensures Consistent(Disk(f, Some(j), origin, wanted))
    ensures StageInv(f, j.paths, j.operation, origin)
  {
    PreparedIsOriginal(f, j.paths, j.operation, origin, wanted);
  }

  /** A journal written before production stops. */
  lemma StagingIsConsistent(f: Files, j: Journal, origin: Files, wanted: Files)
    requires |j.states| == |j.paths|
    requires OperationName(j.operation) && !j.productionStopped && j.status != Done
    requires StageInv(f, j.paths, j.operation, origin)
    ensures Consistent(Disk(f, Some(j), origin, wanted))
  {}

  /** A journal of a completed switch. */
  lemma SwitchedIsConsistent(f: Files, j: Journal, origin: Files, wanted: Files)
    requires |j.states| == |j.paths|
    requires OperationName(j.operation) && j.productionStopped && j.status != RolledBack
    requires SwitchInv(f, j.paths, j.operation, origin, wanted) && AllSwitched(f, j.paths, origin, wanted)
    ensures Consistent(Disk(f, Some(j), origin, wanted))
  {}

  /** What a journal found on disk says after a crash. */
  lemma ReadBack(d: Disk)
    requires Consistent(d) && d.journal.Some?
    ensures OperationName(d.journal.value.operation) && |d.journal.value.states| == |d.journal.value.paths|
    ensures !d.journal.value.productionStopped ==>
              && d.journal.value.status != Done
              && StageInv(d.files, d.journal.value.paths, d.journal.value.operation, d.origin)
    ensures d.journal.value.productionStopped ==>
              && SwitchInv(d.files, d.journal.value.paths, d.journal.value.operation, d.origin, d.wanted)
              && (d.journal.value.status == RolledBack ==>
                    AllPrepared(d.files, d.journal.value.paths, d.origin, d.wanted))
  {}

  // ---------------------------------------------------------------- staging steps

  /** A name listed by the journal may hold anything, or nothing, while it is staged. */
  lemma ScratchIsConsistent(d: Disk, g: Files, p: Path)
    requires Consistent(d) && d.journal.Some? && !d.journal.value.productionStopped
    requires NamesStaged(d.journal.value.paths, p)
    requires forall q :: q != p ==> Same(g, d.files, q)
    ensures Consistent(d.(files := g))
  {
    var j := d.journal.value;
    forall q | !NamesStaged(j.paths, q) ensures Same(g, d.origin, q) {
      assert q != p;
      assert Same(d.files, d.origin, q) && Same(g, d.files, q);
    }
  }

  lemma ScratchKeepsStage(f: Files, g: Files, p: Path, paths: seq<Item>, op: string, origin: Files)
    requires StageInv(f, paths, op, origin) && NamesStaged(paths, p)
    requires forall q :: q != p ==> Same(g, f, q)
    ensures StageInv(g, paths, op, origin)
  {
    forall q | !NamesStaged(paths, q) ensures Same(g, origin, q) {
      assert q != p;
      assert Same(f, origin, q) && Same(g, f, q);
    }
  }

  function Named(target: Path, op: string, meta: Meta): Item {
    Item(target, Some(Siblings(StagedPath(target, op), PreviousPath(target, op), meta)))
  }

  /** Items before `i` are named and staged, those from `i` on are not named yet. */
  ghost predicate StagedUpTo(f: Files, paths: seq<Item>, i: nat, op: string, origin: Files, wanted: Files) {
    && i <= |paths|
    && StageInv(f, paths, op, origin)
    && Plan(paths[..i], op, origin, wanted)
    && AllPrepared(f, paths[..i], origin, wanted)
    && forall k :: i <= k < |paths| ==> paths[k].siblings.None?
  }

  lemma StagedNamesOfPrefix(f: Files, paths: seq<Item>, i: nat, op: string, origin: Files, wanted: Files)
    requires StagedUpTo(f, paths, i, op, origin, wanted)
    ensures forall p :: NamesStaged(paths, p) <==> NamesStaged(paths[..i], p)
  {
    hide StageInv, Plan, AllPrepared;
    forall p | NamesStaged(paths, p) ensures NamesStaged(paths[..i], p) {
      var k :| 0 <= k < |paths| && paths[k].siblings.Some? && paths[k].siblings.value.staged == p;
      assert paths[..i][k].siblings.value.staged == p;
    }
    forall p | NamesStaged(paths[..i], p) ensures NamesStaged(paths, p) {
      var k :| 0 <= k < i && paths[..i][k].siblings.Some? && paths[..i][k].siblings.value.staged == p;
      assert paths[k].siblings.value.staged == p;
    }
  }

  /** The names of a prepared item differ from any target present, and any sibling
      absent, from the disk. */
  lemma PreparedNamesDiffer(f: Files, it: Item, t: Path, op: string, origin: Files, wanted: Files)
    requires ItemPreparedIn(f, it, origin, wanted)
    requires it.siblings.value.staged == StagedPath(it.target, op)
    requires it.siblings.value.previous == PreviousPath(it.target, op)
    requires t in f && StagedPath(t, op) !in f && PreviousPath(t, op) !in f && t != StagedPath(it.target, op)
    ensures Apart(it, t, op)
  {
    SiblingNamesNeverCollide(t, it.target, op);
    SiblingNamesNeverCollide(it.target, t, op);
  }

  /** A target whose siblings were observed absent was there before the operation,
      its siblings were not, and none of the three names is used by an earlier item. */
  lemma NewNamesAreFresh(f: Files, paths: seq<Item>, i: nat, op: string, origin: Files, wanted: Files)
    requires StagedUpTo(f, paths, i, op, origin, wanted) && i < |paths|
    requires paths[i].target in f && StagedPath(paths[i].target, op) !in f && PreviousPath(paths[i].target, op) !in f
    requires forall k :: 0 <= k < i ==> paths[i].target != StagedPath(paths[k].target, op)
    ensures Same(f, origin, paths[i].target)
    ensures StagedPath(paths[i].target, op) !in origin && PreviousPath(paths[i].target, op) !in origin
    ensures Disjoint(paths[..i] + [Named(paths[i].target, op, origin[paths[i].target].meta)])
  {
    var t := paths[i].target;
    StagedNamesOfPrefix(f, paths, i, op, origin, wanted);
    forall k | 0 <= k < i ensures Apart(paths[..i][k], t, op) {
      PreparedNamesDiffer(f, paths[..i][k], t, op, origin, wanted);
    }
    NotStagedYet(paths[..i], t, op);
    assert Same(f, origin, t) && Same(f, origin, StagedPath(t, op)) && Same(f, origin, PreviousPath(t, op));
    hide StageInv, AllPrepared, StagedPath, PreviousPath, Same, Apart;
    ExtendDisjoint(paths[..i], t, op, origin[t].meta);
  }

  /** No name of the item equals a target, a staged or a parked name of `t`. */
  ghost predicate Apart(it: Item, t: Path, op: string) {
    && it.siblings.Some?
    && it.target != t && it.target != StagedPath(t, op) && it.target != PreviousPath(t, op)
    && it.siblings.value.staged != StagedPath(t, op) && it.siblings.value.staged != PreviousPath(t, op)
    && it.siblings.value.staged != t && it.siblings.value.previous != t
    && it.siblings.value.previous != StagedPath(t, op) && it.siblings.value.previous != PreviousPath(t, op)
  }

  lemma NotStagedYet(head: seq<Item>, t: Path, op: string)
    requires forall k :: 0 <= k < |head| ==> Apart(head[k], t, op)
    ensures !NamesStaged(head, t) && !NamesStaged(head, StagedPath(t, op)) && !NamesStaged(head, PreviousPath(t, op))
  {
    hide StagedPath, PreviousPath;
  }

  lemma ExtendDisjoint(head: seq<Item>, t: Path, op: string, meta: Meta)
    requires Disjoint(head) && forall k :: 0 <= k < |head| ==> Apart(head[k], t, op)
    ensures Disjoint(head + [Named(t, op, meta)])
  {
    SiblingsDifferFromTarget(t, op);
    SiblingNamesNeverCollide(t, t, op);
    hide StagedPath, PreviousPath;
  }

  lemma SiblingsDifferFromTarget(t: Path, op: string)
    ensures t != StagedPath(t, op) && t != PreviousPath(t, op)
  {
    assert |StagedPath(t, op)| > |t| && |PreviousPath(t, op)| > |t|;
  }

  /** A sibling in the way was there before, unless the same target was staged earlier. */
  lemma SiblingInTheWay(f: Files, paths: seq<Item>, i: nat, op: string, origin: Files, wanted: Files)
    requires StagedUpTo(f, paths, i, op, origin, wanted) && i < |paths|
    requires StagedPath(paths[i].target, op) in f || PreviousPath(paths[i].target, op) in f
    ensures || StagedPath(paths[i].target, op) in origin || PreviousPath(paths[i].target, op) in origin
            || exists m :: 0 <= m < i && paths[m].target == paths[i].target
  {
    hide StagedPath, PreviousPath, Plan, AllPrepared;
    var t := paths[i].target;
    var p := if StagedPath(t, op) in f then StagedPath(t, op) else PreviousPath(t, op);
    if p !in origin {
      assert NamesStaged(paths, p) || Same(f, origin, p);
      var m :| 0 <= m < |paths| && paths[m].siblings.Some? && paths[m].siblings.value.staged == p;
      SiblingNamesNeverCollide(paths[m].target, t, op);
    }
  }

  /** Naming item `i` in the journal, before anything of it exists. */
  lemma NameItem(f: Files, paths: seq<Item>, i: nat, op: string, origin: Files, wanted: Files, node: Node)
    requires StagedUpTo(f, paths, i, op, origin, wanted) && i < |paths|
    requires paths[i].target in f && StagedPath(paths[i].target, op) !in f && PreviousPath(paths[i].target, op) !in f
    requires forall k :: 0 <= k < i ==> paths[i].target != StagedPath(paths[k].target, op)
    ensures paths[i].target in origin && f[paths[i].target] == origin[paths[i].target]
    ensures var t := paths[i].target;
      var more := paths[i := Named(t, op, f[t].meta)];
      && StageInv(f, more, op, origin)
      && NamesStaged(more, StagedPath(t, op))
      && Plan(more[..i + 1], op, origin, wanted[t := node])
      && AllPrepared(f, more[..i], origin, wanted[t := node])
  {
    hide StageInv, Plan, AllPrepared, Disjoint, StagedPath, PreviousPath;
    var t := paths[i].target;
    NewNamesAreFresh(f, paths, i, op, origin, wanted);
    var it := Named(t, op, f[t].meta);
    var more := paths[i := it];
    assert more[..i + 1] == paths[..i] + [it] && more[..i] == paths[..i];
    assert more[i].siblings.value.staged == StagedPath(t, op);
    ExtendStage(f, paths, i, it, op, origin);
    ExtendPlan(f, paths[..i], it, op, origin, wanted, node);
  }

  lemma ExtendStage(f: Files, paths: seq<Item>, i: nat, it: Item, op: string, origin: Files)
    requires StageInv(f, paths, op, origin) && i < |paths| && paths[i].siblings.None?
    requires it.siblings.Some?
    requires it.siblings.value.staged == StagedPath(it.target, op)
    requires it.siblings.value.previous == PreviousPath(it.target, op)
    requires it.siblings.value.staged !in origin && it.siblings.value.previous !in origin
    ensures StageInv(f, paths[i := it], op, origin)
  {
    hide StagedPath, PreviousPath;
    var more := paths[i := it];
    forall p | NamesStaged(paths, p) ensures NamesStaged(more, p) {
      var k :| 0 <= k < |paths| && paths[k].siblings.Some? && paths[k].siblings.value.staged == p;
      assert more[k].siblings.value.staged == p;
    }
  }

  lemma LastTargetIsNew(head: seq<Item>, it: Item)
    requires Disjoint(head + [it])
    ensures forall k :: 0 <= k < |head| ==> head[k].target != it.target
  {
    var plan := head + [it];
    assert plan[|head|] == it && forall k :: 0 <= k < |head| ==> plan[k] == head[k];
  }

  lemma WiderKeepsPrepared(f: Files, it: Item, origin: Files, wanted: Files, t: Path, node: Node)
    requires ItemPreparedIn(f, it, origin, wanted) && it.target != t
    ensures ItemPreparedIn(f, it, origin, wanted[t := node])
  {}

  lemma ExtendPlan(f: Files, head: seq<Item>, it: Item, op: string, origin: Files, wanted: Files, node: Node)
    requires Plan(head, op, origin, wanted) && AllPrepared(f, head, origin, wanted)
    requires it.target in origin && it == Named(it.target, op, origin[it.target].meta)
    requires it.siblings.value.staged !in origin && it.siblings.value.previous !in origin
    requires Disjoint(head + [it])
    ensures Plan(head + [it], op, origin, wanted[it.target := node])
    ensures AllPrepared(f, head, origin, wanted[it.target := node])
  {
    hide StagedPath, PreviousPath, Disjoint, ItemPreparedIn;
    var plan, wider := head + [it], wanted[it.target := node];
    assert plan[|head|] == it;
    LastTargetIsNew(head, it);
    forall k | 0 <= k < |head| ensures ItemPreparedIn(f, head[k], origin, wider) {
      WiderKeepsPrepared(f, head[k], origin, wanted, it.target, node);
    }
    forall u | u in wider ensures exists k :: 0 <= k < |plan| && plan[k].target == u {
      if u == it.target {
        assert plan[|head|].target == u;
      } else {
        var k :| 0 <= k < |head| && head[k].target == u;
        assert plan[k].target == u;
      }
    }
  }

  /** Completing the staged copy of item `i`. */
  lemma FillItem(f: Files, g: Files, paths: seq<Item>, i: nat, op: string, origin: Files, wanted: Files)
    requires i < |paths| && StageInv(f, paths, op, origin)
    requires Plan(paths[..i + 1], op, origin, wanted) && AllPrepared(f, paths[..i], origin, wanted)
    requires forall k :: i < k < |paths| ==> paths[k].siblings.None?
    requires Same(f, origin, paths[i].target) && paths[i].siblings.value.previous !in f
    requires forall q :: q != paths[i].siblings.value.staged ==> Same(g, f, q)
    requires paths[i].siblings.value.staged in g && g[paths[i].siblings.value.staged] == wanted[paths[i].target]
    ensures StagedUpTo(g, paths, i + 1, op, origin, wanted)
  {
    var plan := paths[..i + 1];
    assert plan[i] == paths[i];
    assert paths[i].siblings.value.staged == plan[i].siblings.value.staged;
    assert NamesStaged(paths, paths[i].siblings.value.staged);
    ScratchKeepsStage(f, g, paths[i].siblings.value.staged, paths, op, origin);
    forall k | 0 <= k < i + 1 ensures ItemPreparedIn(g, plan[k], origin, wanted) {
      assert Same(g, f, plan[k].target) && Same(g, f, plan[k].siblings.value.previous);
      if k < i {
        assert plan[k] == paths[..i][k];
        assert ItemPreparedIn(f, paths[..i][k], origin, wanted);
        assert Same(g, f, plan[k].siblings.value.staged);
      }
    }
  }

  /** With every item staged the plan is ready to switch. */
  lemma AllStaged(f: Files, paths: seq<Item>, op: string, origin: Files, wanted: Files)
    requires StagedUpTo(f, paths, |paths|, op, origin, wanted)
    ensures SwitchInv(f, paths, op, origin, wanted) && AllPrepared(f, paths, origin, wanted)
  {
    assert paths[..|paths|] == paths;
    forall p | !Uses(paths, p) ensures Same(f, origin, p) {
      assert !NamesStaged(paths, p);
    }
    forall k | 0 <= k < |paths| ensures ItemShapedIn(f, paths[k], origin, wanted) {
      assert ItemPreparedIn(f, paths[k], origin, wanted);
    }
  }

  /** What a staged plan says of the disk that the operation found. */
  lemma PlanMeansStageable(paths: seq<Item>, op: string, origin: Files, wanted: Files)
    requires Plan(paths, op, origin, wanted)
    ensures forall k :: 0 <= k < |paths| ==>
              && paths[k].target in origin
              && StagedPath(paths[k].target, op) !in origin && PreviousPath(paths[k].target, op) !in origin
    ensures forall k, l :: 0 <= k < l < |paths| ==> paths[k].target != paths[l].target
  {
    hide StagedPath, PreviousPath;
  }

  lemma DoneMeans(d: Disk)
    requires Consistent(d) && d.journal.Some? && d.journal.value.status == Done
    ensures forall t :: t in d.wanted ==> t in d.files && d.files[t] == d.wanted[t]
  {
    SettledIsWhole(d);
  }

  lemma NothingStaged(paths: seq<Item>, origin: Files, op: string)
    requires forall k :: 0 <= k < |paths| ==> paths[k].siblings.None?
    ensures StagedUpTo(origin, paths, 0, op, origin, map[])
  {}

  lemma PlanTargetsDiffer(paths: seq<Item>, i: nat, op: string, origin: Files, wanted: Files)
    requires Plan(paths, op, origin, wanted) && i < |paths|
    ensures forall k :: 0 <= k < |paths| && k != i ==> paths[k].target != paths[i].target
  {}

  /** Once no staged name is left, the disk is exactly what the operation found. */
  lemma NothingLeft(f: Files, paths: seq<Item>, op: string, origin: Files)
    requires StageInv(f, paths, op, origin)
    requires forall k :: 0 <= k < |paths| && paths[k].siblings.Some? ==> paths[k].siblings.value.staged !in f
    ensures f == origin
  {
    forall p ensures Same(f, origin, p) {
      if NamesStaged(paths, p) {
        var k :| 0 <= k < |paths| && paths[k].siblings.Some? && paths[k].siblings.value.staged == p;
        assert p !in f && p !in origin;
      }
    }
    forall p ensures p in f.Keys <==> p in origin.Keys {
      assert Same(f, origin, p);
    }
    assert f.Keys == origin.Keys;
    forall p | p in f ensures f[p] == origin[p] {
      assert Same(f, origin, p);
    }
  }

  /** Whatever exists beyond the original paths before production stops is a staged
      copy, by the name the journal gives it. */
  lemma StagingLeavesOriginals(f: Files, paths: seq<Item>, op: string, origin: Files)
    requires StageInv(f, paths, op, origin)
    ensures forall p :: p in origin ==> p in f && f[p] == origin[p]
    ensures forall p :: p in f && p !in origin ==> NamesStaged(paths, p)
    ensures forall k :: 0 <= k < |paths| && paths[k].siblings.Some? ==>
              && paths[k].siblings.value.staged !in origin
              && paths[k].siblings.value.staged == StagedPath(paths[k].target, op)
  {
    forall p | p in origin ensures p in f && f[p] == origin[p] {
      assert !NamesStaged(paths, p);
      assert Same(f, origin, p);
    }
    forall p | p in f && p !in origin ensures NamesStaged(paths, p) {
      assert NamesStaged(paths, p) || Same(f, origin, p);
    }
  }
}
