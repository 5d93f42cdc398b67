/**
 Replaying database grants on an engine whose access lists were reset.

 A grant can be issued only by the owner or by a role that already holds the grant
 option, so the tuples are tried over and over until a pass issues none.  What the
 engine answers is `ready`, a function of the grants issued so far.
 */
module GrantReplay {

  import opened Sequences
  import opened Wrappers

  /** A row of aclexplode.  Only PUBLIC has no grantee. */
  datatype Grant = Grant(
    datname: string,
    grantor: string,
    grantee: Option<string>,
    public: bool,
    privilege: string,
    grantable: bool)

  type Readiness = (set<Grant>, Grant) -> bool

  datatype Ending = Replayed | InvalidGrant | Unresolvable

  ghost predicate Named(g: Grant) {
    g.public || g.grantee.Some?
  }

  predicate ValidGrant(g: Grant) {
    && g.privilege in ["CREATE", "CONNECT", "TEMPORARY"]
    && !(g.public && (g.grantable || g.grantee.Some?))
  }

  /** One of the three privileges of a database; what is public names nobody and carries no
      option to grant. */
  ghost predicate IsDatabaseGrant(g: Grant) {
    && (g.privilege == "CREATE" || g.privilege == "CONNECT" || g.privilege == "TEMPORARY")
    && (g.public ==> g.grantee == None && !g.grantable)
  }

  lemma ValidGrantMeans(g: Grant)
    ensures ValidGrant(g) <==> IsDatabaseGrant(g)
  {
    var all := ["CREATE", "CONNECT", "TEMPORARY"];
    assert all[0] == "CREATE" && all[1] == "CONNECT" && all[2] == "TEMPORARY";
  }

  /** Issuing more grants never takes a grant option away. */
  ghost predicate Monotone(ready: Readiness) {
    forall a: set<Grant>, b: set<Grant>, g: Grant :: a <= b && ready(a, g) ==> ready(b, g)
  }

  /** Every grant was issued when its grantor could already grant it. */
  ghost predicate Justified(ready: Readiness, applied: seq<Grant>) {
    forall i :: 0 <= i < |applied| ==> ready(Elements(applied[..i]), applied[i])
  }

  /** Nothing more can be issued. */
  ghost predicate Closed(ready: Readiness, tuples: seq<Grant>, s: set<Grant>) {
    forall g :: g in tuples && ready(s, g) ==> g in s
  }

  /** The least set of tuples closed under readiness. */
  ghost predicate LeastClosed(ready: Readiness, tuples: seq<Grant>, s: set<Grant>) {
    && (forall g :: g in s ==> g in tuples)
    && Closed(ready, tuples, s)
    && forall t: set<Grant> :: Closed(ready, tuples, t) ==> s <= t
  }

  /** In every closed set: derivable from the owners by some chain of grants. */
  ghost predicate Derivable(ready: Readiness, tuples: seq<Grant>, g: Grant) {
    forall t: set<Grant> :: Closed(ready, tuples, t) ==> g in t
  }

  lemma {:induction false} JustifiedIsContained(ready: Readiness, tuples: seq<Grant>, applied: seq<Grant>,
                                                t: set<Grant>)
    requires Monotone(ready) && Justified(ready, applied) && Closed(ready, tuples, t)
    requires forall g :: g in applied ==> g in tuples
    ensures Elements(applied) <= t
  {
    if applied != [] {
      var n := |applied| - 1;
      var init := applied[..n];
      forall i | 0 <= i < |init| ensures ready(Elements(init[..i]), init[i]) {
        assert init[..i] == applied[..i];
      }
      JustifiedIsContained(ready, tuples, init, t);
      assert ready(t, applied[n]);
      assert applied == init + [applied[n]];
    }
  }

  lemma {:induction false} SaturatedIsLeast(ready: Readiness, tuples: seq<Grant>, applied: seq<Grant>,
                                            pending: seq<Grant>)
    requires Monotone(ready) && Justified(ready, applied)
    requires multiset(applied) + multiset(pending) == multiset(tuples)
    requires forall g :: g in pending ==> !ready(Elements(applied), g)
    ensures LeastClosed(ready, tuples, Elements(applied))
    ensures forall g :: g in pending ==> g !in Elements(applied)
  {
    forall g | g in applied ensures g in tuples {
      assert g in multiset(applied) && g in multiset(tuples);
    }
    forall g | g in tuples && g !in applied ensures g in pending {
      assert g in multiset(tuples) && g !in multiset(applied);
      assert g in multiset(pending);
    }
    forall t: set<Grant> | Closed(ready, tuples, t) ensures Elements(applied) <= t {
      JustifiedIsContained(ready, tuples, applied, t);
    }
    forall g | g in pending ensures g !in applied {
      AppliedIsReady(ready, applied, g);
    }
  }

  /** A grant that was issued could be issued again. */
  lemma AppliedIsReady(ready: Readiness, applied: seq<Grant>, g: Grant)
    requires Monotone(ready) && Justified(ready, applied)
    ensures g in applied ==> ready(Elements(applied), g)
  {
    if g in applied {
      var i :| 0 <= i < |applied| && applied[i] == g;
      assert Elements(applied[..i]) <= Elements(applied);
      assert ready(Elements(applied[..i]), g);
    }
  }

  lemma IssueOne(ready: Readiness, applied: seq<Grant>, g: Grant)
    requires Justified(ready, applied) && ready(Elements(applied), g)
    ensures Justified(ready, applied + [g])
  {
    var more := applied + [g];
    forall i | 0 <= i < |more| ensures ready(Elements(more[..i]), more[i]) {
      assert more[..i] == if i < |applied| then applied[..i] else applied;
      assert applied[..|applied|] == applied;
    }
  }

  /** `replay_database_acl`.  `applied` lists the grants issued, in order. */
  method Replay(tuples: seq<Grant>, ready: Readiness) returns (ending: Ending, applied: seq<Grant>)
    requires Monotone(ready) && forall g :: g in tuples ==> Named(g)
    // Each tuple at most as often as it is listed, and only when its grantor may grant it.
    ensures Justified(ready, applied) && multiset(applied) <= multiset(tuples)
    ensures ending == InvalidGrant <==> exists g :: g in tuples && !IsDatabaseGrant(g)
    // The issued set is the least fixpoint, whether or not everything could be issued.
    ensures ending != InvalidGrant ==> LeastClosed(ready, tuples, Elements(applied))
    ensures ending == Replayed ==> multiset(applied) == multiset(tuples)
    ensures ending != InvalidGrant ==> (ending == Replayed <==> forall g :: g in tuples ==> Derivable(ready, tuples, g))
  {
    applied := [];
    var pending := tuples;
    while pending != []
      invariant Justified(ready, applied)
      invariant multiset(applied) + multiset(pending) == multiset(tuples)
      invariant pending == tuples || forall g :: g in tuples ==> IsDatabaseGrant(g)
      decreases |pending|
    {
      var remaining;
      ghost var issued := applied;
      ending, applied, remaining := Pass(pending, ready, applied);
      SameElements(tuples, issued, pending);
      SameElements(tuples, applied, remaining);
      if ending == InvalidGrant { return; }
      if |remaining| == |pending| {
        SaturatedIsLeast(ready, tuples, applied, pending);
        ending := Unresolvable;
        LeastDecides(ready, tuples, applied, pending[0]);
        return;
      }
      pending := remaining;
    }
    ending := Replayed;
    SaturatedIsLeast(ready, tuples, applied, []);
    SameElements(tuples, applied, []);
    forall g | g in tuples ensures Derivable(ready, tuples, g) {
      assert g in Elements(applied);
    }
  }

  lemma SameElements(tuples: seq<Grant>, applied: seq<Grant>, pending: seq<Grant>)
    requires multiset(applied) + multiset(pending) <= multiset(tuples)
    ensures forall g :: g in applied || g in pending ==> g in tuples
    ensures multiset(applied) + multiset(pending) == multiset(tuples) ==>
              forall g :: g in tuples ==> g in applied || g in pending
  {
    forall g ensures g in applied || g in pending ==> g in tuples {
      assert g in applied <==> g in multiset(applied);
      assert g in pending <==> g in multiset(pending);
      assert g in tuples <==> g in multiset(tuples);
    }
    if multiset(applied) + multiset(pending) == multiset(tuples) {
      forall g | g in tuples ensures g in applied || g in pending {
        assert g in multiset(tuples);
        assert g in multiset(applied) || g in multiset(pending);
      }
    }
  }

  lemma LeastDecides(ready: Readiness, tuples: seq<Grant>, applied: seq<Grant>, g: Grant)
    requires LeastClosed(ready, tuples, Elements(applied)) && g in tuples && g !in Elements(applied)
    ensures !Derivable(ready, tuples, g)
  {}

  /** One pass over the pending tuples. */
  method Pass(pending: seq<Grant>, ready: Readiness, issued: seq<Grant>)
    returns (ending: Ending, applied: seq<Grant>, remaining: seq<Grant>)
    requires Monotone(ready) && Justified(ready, issued) && pending != []
    ensures Justified(ready, applied)
    ensures ending == InvalidGrant <==> exists g :: g in pending && !IsDatabaseGrant(g)
    ensures multiset(applied) + multiset(remaining) <= multiset(issued) + multiset(pending)
    ensures ending != InvalidGrant ==> multiset(applied) + multiset(remaining) == multiset(issued) + multiset(pending)
    ensures |remaining| <= |pending|
    ensures ending != InvalidGrant && |remaining| == |pending| ==>
              remaining == pending && applied == issued && forall g :: g in pending ==> !ready(Elements(applied), g)
  {
    hide Accounted, Justified, Elements, Monotone, ValidGrant, IsDatabaseGrant;
    applied, remaining := issued, [];
    var i := 0;
    NoneAccounted(issued, pending);
    while i < |pending|
      invariant 0 <= i <= |pending| && |remaining| <= i
      invariant Justified(ready, applied)
      invariant Accounted(issued + pending[..i], applied, remaining)
      invariant forall k :: 0 <= k < i ==> IsDatabaseGrant(pending[k])
      invariant |remaining| == i ==> remaining == pending[..i] && applied == issued
      invariant |remaining| == i ==> forall k :: 0 <= k < i ==> !ready(Elements(issued), pending[k])
    {
      var g := pending[i];
      AccountFor(issued + pending[..i], applied, remaining, g);
      assert issued + pending[..i + 1] == issued + pending[..i] + [g];
      ValidGrantMeans(g);
      if !ValidGrant(g) {
        PrefixAccounted(issued, pending, i, applied, remaining);
        return InvalidGrant, applied, remaining;
      }
      if !ready(Elements(applied), g) {
        remaining := remaining + [g];
      } else {
        IssueOne(ready, applied, g);
        applied := applied + [g];
      }
      i := i + 1;
    }
    assert pending[..i] == pending;
    PrefixAccounted(issued, pending, i, applied, remaining);
    ending := Replayed;
  }

  lemma NoneAccounted(issued: seq<Grant>, pending: seq<Grant>)
    ensures Accounted(issued + pending[..0], issued, [])
  {
    assert issued + pending[..0] == issued;
  }

  ghost predicate Accounted(seen: seq<Grant>, applied: seq<Grant>, remaining: seq<Grant>) {
    multiset(applied) + multiset(remaining) == multiset(seen)
  }

  lemma AccountFor(seen: seq<Grant>, applied: seq<Grant>, remaining: seq<Grant>, g: Grant)
    requires Accounted(seen, applied, remaining)
    ensures Accounted(seen + [g], applied + [g], remaining)
    ensures Accounted(seen + [g], applied, remaining + [g])
  {}

  lemma PrefixAccounted(issued: seq<Grant>, pending: seq<Grant>, i: nat, applied: seq<Grant>, remaining: seq<Grant>)
    requires i <= |pending| && Accounted(issued + pending[..i], applied, remaining)
    ensures multiset(applied) + multiset(remaining) <= multiset(issued) + multiset(pending)
    ensures i == |pending| ==> multiset(applied) + multiset(remaining) == multiset(issued) + multiset(pending)
  {
    assert issued + pending == issued + pending[..i] + pending[i..];
    assert multiset(issued + pending) == multiset(issued + pending[..i]) + multiset(pending[i..]);
  }

  /** The issued set does not depend on the order in which the tuples are listed. */
  lemma OrderDoesNotMatter(ready: Readiness, t1: seq<Grant>, a1: set<Grant>, t2: seq<Grant>, a2: set<Grant>)
    requires Elements(t1) == Elements(t2)
    requires LeastClosed(ready, t1, a1) && LeastClosed(ready, t2, a2)
    ensures a1 == a2
  {
    forall g ensures g in t1 <==> g in t2 {
      assert g in Elements(t1) <==> g in Elements(t2);
    }
    assert Closed(ready, t2, a1) && Closed(ready, t1, a2);
  }

  // ---------------------------------------------------------------- what the engine answers

  /** `h` carries the grant option that `g` needs, to a role whose rights its grantor has.
      `member` is the engine's role membership; a superuser has every role's rights. */
  ghost predicate Reaches(member: (string, string) -> bool, h: Grant, g: Grant) {
    && h.grantable && h.datname == g.datname && h.privilege == g.privilege
    && h.grantee.Some? && member(g.grantor, h.grantee.value)
  }

  ghost predicate ByOwner(owners: map<string, string>, member: (string, string) -> bool, g: Grant) {
    g.datname in owners && (g.grantor == owners[g.datname] || member(g.grantor, owners[g.datname]))
  }

  /** What `ready` asks: the owner may grant, and so may a holder of the grant option. */
  ghost predicate MayGrant(owners: map<string, string>, member: (string, string) -> bool, issued: set<Grant>,
                           g: Grant)
  {
    ByOwner(owners, member, g) || exists h :: h in issued && Reaches(member, h, g)
  }

  ghost predicate AnswersAsEngine(owners: map<string, string>, member: (string, string) -> bool, ready: Readiness) {
    forall s: set<Grant>, g: Grant :: ready(s, g) <==> MayGrant(owners, member, s, g)
  }

  lemma EngineIsMonotone(owners: map<string, string>, member: (string, string) -> bool, ready: Readiness)
    requires AnswersAsEngine(owners, member, ready)
    ensures Monotone(ready)
  {
    forall a: set<Grant>, b: set<Grant>, g: Grant | a <= b && ready(a, g) ensures ready(b, g) {
      assert MayGrant(owners, member, a, g);
    }
  }

  /** A grant that is not the owner's was issued after one that carries its grantor's
      option; following these back ends at a grant of the owner. */
  lemma GrantorHoldsOption(owners: map<string, string>, member: (string, string) -> bool, ready: Readiness,
                           applied: seq<Grant>, i: nat)
    requires AnswersAsEngine(owners, member, ready)
    requires Justified(ready, applied) && i < |applied| && !ByOwner(owners, member, applied[i])
    ensures exists k :: 0 <= k < i && Reaches(member, applied[k], applied[i])
  {
    hide Reaches, ByOwner;
    var before := Elements(applied[..i]);
    assert ready(before, applied[i]);
    assert MayGrant(owners, member, before, applied[i]);
    var h :| h in before && Reaches(member, h, applied[i]);
    var k :| 0 <= k < i && applied[..i][k] == h;
    assert applied[k] == h;
  }
}
