/**
 The chain of signed admissions.

 Each admitted profile names the digest of its predecessor.  The runner walks back from
 the current profile through the stored history to the first generation.
 */
module AdmissionChain {

  import opened Texts
  import opened Wrappers

  type Digest = string

  const MAX_GENERATION := 1024

  /** A profile document, as far as the walk reads it. */
  datatype Profile = Profile(generation: int, host: Identity, previous: Option<Digest>)

  datatype Identity = Identity(hostname: string, machineId: string)

  /** A directory of the history: its document, the digest of the document's bytes, and
      whether the authority's signature verifies. */
  datatype Entry = Entry(document: Profile, sha: Digest, signed: bool)

  type History = map<Digest, Entry>

  function Zeros(n: nat): string {
    if n == 0 then "" else "0" + Zeros(n - 1)
  }

  const GENESIS: Digest := Zeros(64)

  // ---------------------------------------------------------------- what is accepted

  /** `d` names an authentic document of the generation before `generation`, of the same host. */
  ghost predicate Precedes(host: Identity, history: History, generation: int, d: Digest) {
    && IsDigestText(d) && d != GENESIS && d in history
    && history[d].sha == d && history[d].signed
    && history[d].document.generation == generation - 1
    && history[d].document.host == host
  }

  predicate Stored(history: History, chain: seq<Digest>) {
    forall d :: d in chain ==> d in history
  }

  /** The predecessor named by the k-th document of a chain whose first digest is named
      by `first`. */
  function Named(first: Option<Digest>, history: History, chain: seq<Digest>, k: nat): Option<Digest>
    requires k <= |chain| && Stored(history, chain)
  {
    if k == 0 then first else history[chain[k - 1]].document.previous
  }

  /** Every digest is named by the document before it; the last document names none. */
  ghost predicate Linked(first: Option<Digest>, history: History, chain: seq<Digest>)
    requires Stored(history, chain)
  {
    && (forall k :: 0 <= k < |chain| ==> Named(first, history, chain, k) == Some(chain[k]))
    && Named(first, history, chain, |chain|) == Some(GENESIS)
  }

  ghost predicate Authentic(host: Identity, history: History, generation: int, chain: seq<Digest>) {
    forall k :: 0 <= k < |chain| ==> Precedes(host, history, generation - k, chain[k])
  }

  /** Authentic predecessors, one per generation below `generation` down to 1, each named
      by its successor. */
  ghost predicate AncestryFrom(host: Identity, history: History, generation: int, first: Option<Digest>,
                               chain: seq<Digest>)
  {
    && |chain| == generation - 1 && Stored(history, chain)
    && Authentic(host, history, generation, chain) && Linked(first, history, chain)
  }

  ghost predicate Ancestry(p: Profile, history: History, chain: seq<Digest>) {
    AncestryFrom(p.host, history, p.generation, p.previous, chain)
  }

  // ---------------------------------------------------------------- the walk

  /** Whether the walk succeeds from `generation` with `previous` still to be looked up. */
  ghost predicate Walks(host: Identity, history: History, generation: int, previous: Option<Digest>)
    decreases generation
  {
    if generation <= 1 then previous == Some(GENESIS)
    else
      && previous.Some? && Precedes(host, history, generation, previous.value)
      && Walks(host, history, generation - 1, history[previous.value].document.previous)
  }

  datatype ChainError =
    | InvalidGeneration | InvalidPredecessor | Repeated | Missing | BytesDiffer | Unsigned
    | IdentityDiffers | GenesisDiffers

  /** `validate_admission_chain`. */
  method Validate(p: Profile, history: History) returns (error: Option<ChainError>)
    ensures error.None? <==> 1 <= p.generation <= MAX_GENERATION && exists chain :: Ancestry(p, history, chain)
    ensures error == Some(InvalidGeneration) <==> !(1 <= p.generation <= MAX_GENERATION)
  {
    var generation, previous := p.generation, p.previous;
    if !(1 <= generation <= MAX_GENERATION) { return Some(InvalidGeneration); }
    WalkIsAncestry(p, history);
    var seen: set<Digest> := {};
    while generation > 1
      invariant generation >= 1
      invariant Walks(p.host, history, p.generation, p.previous) == Walks(p.host, history, generation, previous)
      invariant forall d :: d in seen ==> d in history && history[d].document.generation >= generation
    {
      if previous.Some? { Hex64Means(previous.value); }
      hide Ancestry, Hex64, IsDigestText;
      if previous.None? || !Hex64(previous.value) || previous.value == GENESIS { return Some(InvalidPredecessor); }
      if previous.value in seen { return Some(Repeated); }
      seen := seen + {previous.value};
      if previous.value !in history { return Some(Missing); }
      var prior := history[previous.value];
      if prior.sha != previous.value { return Some(BytesDiffer); }
      if !prior.signed { return Some(Unsigned); }
      var document := prior.document;
      if document.generation != generation - 1 || document.host != p.host {
        return Some(IdentityDiffers);
      }
      generation, previous := document.generation, document.previous;
    }
    if previous != Some(GENESIS) { return Some(GenesisDiffers); }
    return None;
  }

  lemma AuthenticStep(host: Identity, history: History, generation: int, d: Digest, rest: seq<Digest>)
    ensures Authentic(host, history, generation, [d] + rest) <==>
            Precedes(host, history, generation, d) && Authentic(host, history, generation - 1, rest)
  {
    hide Precedes;
    var chain := [d] + rest;
    if Authentic(host, history, generation, chain) {
      assert Precedes(host, history, generation - 0, chain[0]);
      forall k | 0 <= k < |rest| ensures Precedes(host, history, generation - 1 - k, rest[k]) {
        assert Precedes(host, history, generation - (k + 1), chain[k + 1]);
      }
    }
  }

  predicate IsTail(rest: seq<Digest>, chain: seq<Digest>) {
    |chain| == |rest| + 1 && forall k :: 0 <= k < |rest| ==> rest[k] == chain[k + 1]
  }

  lemma LinkedStep(history: History, chain: seq<Digest>, rest: seq<Digest>)
    requires Stored(history, chain) && Stored(history, rest) && IsTail(rest, chain)
    ensures Linked(Some(chain[0]), history, chain) <==> Linked(history[chain[0]].document.previous, history, rest)
  {
    var first, next := Some(chain[0]), history[chain[0]].document.previous;
    forall k | 0 <= k <= |rest| ensures Named(next, history, rest, k) == Named(first, history, chain, k + 1) {}
    LinkedByStep(first, next, history, chain, rest);
  }

  lemma LinkedByStep(first: Option<Digest>, next: Option<Digest>, history: History,
                     chain: seq<Digest>, rest: seq<Digest>)
    requires Stored(history, chain) && Stored(history, rest) && IsTail(rest, chain)
    requires Named(first, history, chain, 0) == Some(chain[0])
    requires forall k :: 0 <= k <= |rest| ==> Named(next, history, rest, k) == Named(first, history, chain, k + 1)
    ensures Linked(first, history, chain) <==> Linked(next, history, rest)
  {
    hide Named, Stored;
    if Linked(first, history, chain) {
      forall k | 0 <= k < |rest| ensures Named(next, history, rest, k) == Some(rest[k]) {
        assert Named(first, history, chain, k + 1) == Some(chain[k + 1]);
      }
    }
    if Linked(next, history, rest) {
      forall k | 0 < k < |chain| ensures Named(first, history, chain, k) == Some(chain[k]) {
        assert Named(next, history, rest, k - 1) == Some(rest[k - 1]);
      }
    }
  }

  lemma AncestryStep(host: Identity, history: History, generation: int, d: Digest, rest: seq<Digest>)
    requires generation > 1 && d in history
    ensures AncestryFrom(host, history, generation, Some(d), [d] + rest) <==>
            && Precedes(host, history, generation, d)
            && AncestryFrom(host, history, generation - 1, history[d].document.previous, rest)
  {
    hide Precedes, Authentic, Linked;
    assert Stored(history, [d] + rest) ==> forall x :: x in rest ==> x in [d] + rest;
    if Stored(history, rest) {
      AuthenticStep(host, history, generation, d, rest);
      assert Stored(history, [d] + rest);
      LinkedStep(history, [d] + rest, rest);
    }
  }

  /** The first digest of a chain is the one that is named. */
  lemma ChainHead(host: Identity, history: History, generation: int, first: Option<Digest>, chain: seq<Digest>)
    requires generation > 1 && AncestryFrom(host, history, generation, first, chain)
    ensures first.Some? && first.value in history && chain == [first.value] + chain[1..]
  {
    hide Precedes;
    assert Named(first, history, chain, 0) == Some(chain[0]);
  }

  lemma {:induction false} WalkGivesChain(host: Identity, history: History, generation: int, first: Option<Digest>)
    returns (chain: seq<Digest>)
    requires generation >= 1 && Walks(host, history, generation, first)
    ensures AncestryFrom(host, history, generation, first, chain)
    decreases generation
  {
    if generation == 1 {
      chain := [];
    } else {
      hide AncestryFrom, Precedes;
      var d := first.value;
      PrecedingIsStored(host, history, generation, d);
      var rest := WalkGivesChain(host, history, generation - 1, history[d].document.previous);
      chain := [d] + rest;
      AncestryStep(host, history, generation, d, rest);
    }
  }

  lemma {:induction false} ChainGivesWalk(host: Identity, history: History, generation: int, first: Option<Digest>,
                                          chain: seq<Digest>)
    requires generation >= 1 && AncestryFrom(host, history, generation, first, chain)
    ensures Walks(host, history, generation, first)
    decreases generation
  {
    if generation > 1 {
      ChainHead(host, history, generation, first, chain);
      hide AncestryFrom, Precedes;
      AncestryStep(host, history, generation, first.value, chain[1..]);
      ChainGivesWalk(host, history, generation - 1, history[first.value].document.previous, chain[1..]);
    }
  }

  lemma PrecedingIsStored(host: Identity, history: History, generation: int, d: Digest)
    requires Precedes(host, history, generation, d)
    ensures d in history
  {}

  lemma WalkIsAncestry(p: Profile, history: History)
    requires p.generation >= 1
    ensures Walks(p.host, history, p.generation, p.previous) <==> exists chain :: Ancestry(p, history, chain)
  {
    if Walks(p.host, history, p.generation, p.previous) {
      var chain := WalkGivesChain(p.host, history, p.generation, p.previous);
      assert Ancestry(p, history, chain);
    }
    forall chain | Ancestry(p, history, chain) ensures Walks(p.host, history, p.generation, p.previous) {
      ChainGivesWalk(p.host, history, p.generation, p.previous, chain);
    }
  }

  // ---------------------------------------------------------------- chains

  /** No digest occurs twice in a chain, so the check for repeats rejects no chain. */
  lemma ChainNeverRepeats(p: Profile, history: History, chain: seq<Digest>, i: nat, j: nat)
    requires Ancestry(p, history, chain) && i < j < |chain|
    ensures chain[i] != chain[j]
  {
    assert history[chain[i]].document.generation == p.generation - i - 1;
    assert history[chain[j]].document.generation == p.generation - j - 1;
  }

  /** There is at most one chain. */
  lemma {:induction false} ChainIsUnique(host: Identity, history: History, generation: int, first: Option<Digest>,
                                         chain: seq<Digest>, other: seq<Digest>)
    requires AncestryFrom(host, history, generation, first, chain)
    requires AncestryFrom(host, history, generation, first, other)
    ensures chain == other
    decreases |chain|
  {
    if generation > 1 {
      ChainHead(host, history, generation, first, chain);
      ChainHead(host, history, generation, first, other);
      AncestryStep(host, history, generation, first.value, chain[1..]);
      AncestryStep(host, history, generation, first.value, other[1..]);
      ChainIsUnique(host, history, generation - 1, history[first.value].document.previous, chain[1..], other[1..]);
    }
  }
}
