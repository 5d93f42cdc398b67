/**
 The byte count of a remote tree, taken with an explicit stack of directories.

 A directory stands on the stack by its listing and its depth below the root.
 */
module QuotaTree {
  import opened Wrappers

  datatype Entry =
    | Self(name: string)                        // cdir, pdir
    | File(name: string, size: Option<nat>)
    | Dir(name: string, children: seq<Entry>)
    | Unsupported(name: string)

  datatype QuotaError = ExcessiveDepth | InvalidInventory | UnknownSize | UnsupportedObject

  const MAX_DEPTH: nat := 8
  const MAX_ENTRIES: nat := 10000

  predicate ValidName(n: string) {
    && n != "" && n != "." && n != ".."
    && forall k :: 0 <= k < |n| ==> n[k] != '/' && n[k] != '\\' && n[k] as int >= 32
  }

  /** One component of a path, without control characters. */
  ghost predicate IsComponent(n: string) {
    && n !in {"", ".", ".."} && '/' !in n && '\\' !in n
    && forall c :: c in n ==> c as int > 31
  }

  lemma ValidNameMeans(n: string)
    ensures ValidName(n) <==> IsComponent(n)
  {
    if ValidName(n) {
      forall c | c in n ensures c != '/' && c != '\\' && c as int > 31 {
        var k :| 0 <= k < |n| && n[k] == c;
      }
    }
    if IsComponent(n) {
      forall k | 0 <= k < |n| ensures n[k] != '/' && n[k] != '\\' && n[k] as int >= 32 {
        assert n[k] in n;
      }
    }
  }

  // ---------------------------------------------------------------- what the tree holds

  function Bytes(es: seq<Entry>): nat {
    if es == [] then 0
    else (match es[0]
          case File(_, Some(size)) => size
          case Dir(_, children) => Bytes(children)
          case _ => 0) + Bytes(es[1..])
  }

  function Entries(es: seq<Entry>): nat {
    if es == [] then 0
    else (match es[0]
          case Self(_) => 0
          case Dir(_, children) => 1 + Entries(children)
          case _ => 1) + Entries(es[1..])
  }

  /** Every name is usable, every file size known, and there is nothing but files and
      directories. */
  ghost predicate Countable(es: seq<Entry>) {
    es != [] ==>
      && (match es[0]
          case Self(_) => true
          case File(n, size) => IsComponent(n) && size.Some?
          case Dir(n, children) => IsComponent(n) && Countable(children)
          case Unsupported(_) => false)
      && Countable(es[1..])
  }

  /** Directories below this listing lie at most `d` levels down. */
  ghost predicate Within(es: seq<Entry>, d: int) {
    && 0 <= d
    && (es != [] ==>
          && (es[0].Dir? ==> Within(es[0].children, d - 1))
          && Within(es[1..], d))
  }

  ghost predicate Admissible(root: seq<Entry>) {
    Countable(root) && Entries(root) <= MAX_ENTRIES && Within(root, MAX_DEPTH)
  }

  // ---------------------------------------------------------------- what the stack holds

  datatype Level = Level(listing: seq<Entry>, depth: nat)

  function Directories(es: seq<Entry>): nat {
    if es == [] then 0
    else (if es[0].Dir? then 1 + Directories(es[0].children) else 0) + Directories(es[1..])
  }

  function StackBytes(stack: seq<Level>): nat {
    if stack == [] then 0 else StackBytes(stack[..|stack| - 1]) + Bytes(stack[|stack| - 1].listing)
  }

  function StackEntries(stack: seq<Level>): nat {
    if stack == [] then 0 else StackEntries(stack[..|stack| - 1]) + Entries(stack[|stack| - 1].listing)
  }

  function StackDirectories(stack: seq<Level>): nat {
    if stack == [] then 0 else StackDirectories(stack[..|stack| - 1]) + 1 + Directories(stack[|stack| - 1].listing)
  }

  ghost predicate StackFits(stack: seq<Level>) {
    forall k :: 0 <= k < |stack| ==> Countable(stack[k].listing) && Within(stack[k].listing, MAX_DEPTH - stack[k].depth)
  }

  lemma Push(stack: seq<Level>, l: Level)
    ensures StackBytes(stack + [l]) == StackBytes(stack) + Bytes(l.listing)
    ensures StackEntries(stack + [l]) == StackEntries(stack) + Entries(l.listing)
    ensures StackDirectories(stack + [l]) == StackDirectories(stack) + 1 + Directories(l.listing)
    ensures StackFits(stack + [l]) <==>
              StackFits(stack) && Countable(l.listing) && Within(l.listing, MAX_DEPTH - l.depth)
  {
    var more := stack + [l];
    assert more[..|more| - 1] == stack && more[|stack|] == l;
    assert forall k :: 0 <= k < |stack| ==> more[k] == stack[k];
  }

  /** What is still to be looked at: the rest of the open listing and the stack. */
  ghost predicate Remaining(root: seq<Entry>, rest: seq<Entry>, depth: nat, stack: seq<Level>, total: nat, seen: nat) {
    && total + Bytes(rest) + StackBytes(stack) == Bytes(root)
    && seen + Entries(rest) + StackEntries(stack) == Entries(root)
    && (Countable(root) && Within(root, MAX_DEPTH) <==>
          Countable(rest) && Within(rest, MAX_DEPTH - depth) && StackFits(stack))
  }

  /** `tree_bytes` succeeds exactly on the admissible trees and returns the recursive sum
      of their file sizes, in whatever order the stack visits them. */
  method TreeBytes(root: seq<Entry>) returns (r: Result<nat, QuotaError>)
    ensures r.Success? <==> Admissible(root)
    ensures r.Success? ==> r.value == Bytes(root)
  {
    hide Bytes, Entries, Countable, Within, Directories, StackBytes, StackEntries, StackDirectories, StackFits;
    var total: nat, seen: nat := 0, 0;
    var pending := [Level(root, 0)];
    Opening(root);
    while pending != []
      invariant Remaining(root, [], 0, pending, total, seen) && seen <= MAX_ENTRIES
      decreases StackDirectories(pending)
    {
      var top, below := pending[|pending| - 1], pending[..|pending| - 1];
      Pop(root, pending, total, seen);
      if top.depth > MAX_DEPTH {
        TooDeep(top.listing, MAX_DEPTH - top.depth);
        return Failure(ExcessiveDepth);
      }
      var scan;
      scan, pending, total, seen := Scan(root, top.listing, top.depth, below, total, seen);
      if scan.Some? { return Failure(scan.value); }
    }
    Closing(root, total, seen);
    r := Success(total);
  }

  /** The inner loop: one directory listing, its subdirectories pushed on the stack. */
  method Scan(ghost root: seq<Entry>, listing: seq<Entry>, depth: nat, below: seq<Level>, bytes: nat, count: nat)
    returns (error: Option<QuotaError>, pending: seq<Level>, total: nat, seen: nat)
    requires Remaining(root, listing, depth, below, bytes, count) && count <= MAX_ENTRIES && depth <= MAX_DEPTH
    ensures error.None? ==> Remaining(root, [], 0, pending, total, seen) && seen <= MAX_ENTRIES
    ensures error.None? ==> StackDirectories(pending) == StackDirectories(below) + Directories(listing)
    ensures error.Some? ==> !Admissible(root)
  {
    hide Bytes, Entries, Countable, Within, Directories, StackBytes, StackEntries, StackDirectories, StackFits;
    hide ValidName, IsComponent;
    pending, total, seen := below, bytes, count;
    var i := 0;
    assert listing[0..] == listing;
    while i < |listing|
      invariant 0 <= i <= |listing| && seen <= MAX_ENTRIES
      invariant Remaining(root, listing[i..], depth, pending, total, seen)
      invariant StackDirectories(pending) + Directories(listing[i..]) == StackDirectories(below) + Directories(listing)
    {
      var e := listing[i];
      assert listing[i..][0] == e && listing[i..][1..] == listing[i + 1..];
      HeadOf(listing[i..], MAX_DEPTH - depth);
      i := i + 1;
      ValidNameMeans(e.name);
      if e.Self? { continue; }
      seen := seen + 1;
      if seen > MAX_ENTRIES || !ValidName(e.name) { return Some(InvalidInventory), pending, total, seen; }
      match e {
        case Dir(_, children) =>
          Push(pending, Level(children, depth + 1));
          pending := pending + [Level(children, depth + 1)];
        case File(_, size) =>
          if size.None? { return Some(UnknownSize), pending, total, seen; }
          total := total + size.value;
        case _ =>
          return Some(UnsupportedObject), pending, total, seen;
      }
    }
    assert listing[i..] == [];
    NoRest(MAX_DEPTH - depth);
    error := None;
  }

  /** One step of each recursive count. */
  lemma HeadOf(es: seq<Entry>, d: int)
    requires es != []
    ensures var e, rest := es[0], es[1..];
      && Bytes(es) == Bytes(rest)
           + (if e.File? && e.size.Some? then e.size.value else if e.Dir? then Bytes(e.children) else 0)
      && Entries(es) == Entries(rest) + (if e.Self? then 0 else if e.Dir? then 1 + Entries(e.children) else 1)
      && Directories(es) == Directories(rest) + (if e.Dir? then 1 + Directories(e.children) else 0)
      && (Countable(es) <==>
            && Countable(rest)
            && (|| e.Self?
                || (IsComponent(e.name) && if e.File? then e.size.Some? else e.Dir? && Countable(e.children))))
      && (Within(es, d) <==> 0 <= d && Within(rest, d) && (e.Dir? ==> Within(e.children, d - 1)))
  {}

  lemma NoRest(d: int)
    ensures Bytes([]) == 0 && Entries([]) == 0 && Directories([]) == 0 && Countable([])
    ensures Within([], MAX_DEPTH) && (d >= 0 ==> Within([], d))
    ensures Within([], d) ==> d >= 0
  {}

  lemma TooDeep(es: seq<Entry>, d: int)
    requires d < 0
    ensures !Within(es, d)
  {}

  lemma Opening(root: seq<Entry>)
    ensures Remaining(root, [], 0, [Level(root, 0)], 0, 0)
  {
    Push([], Level(root, 0));
    assert [] + [Level(root, 0)] == [Level(root, 0)];
  }

  lemma Pop(root: seq<Entry>, pending: seq<Level>, total: nat, seen: nat)
    requires pending != [] && Remaining(root, [], 0, pending, total, seen)
    ensures var top, below := pending[|pending| - 1], pending[..|pending| - 1];
      && Remaining(root, top.listing, top.depth, below, total, seen)
      && StackDirectories(pending) == StackDirectories(below) + 1 + Directories(top.listing)
  {
    var top, below := pending[|pending| - 1], pending[..|pending| - 1];
    Push(below, top);
    assert below + [top] == pending;
    NoRest(MAX_DEPTH);
  }

  lemma Closing(root: seq<Entry>, total: nat, seen: nat)
    requires Remaining(root, [], 0, [], total, seen) && seen <= MAX_ENTRIES
    ensures Admissible(root) && total == Bytes(root)
  {}
}
