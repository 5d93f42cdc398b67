/**
 Who owns a name.

 A hosted workload owns services and secrets by hyphen prefix, volumes by underscore
 prefix, and one network per zone.  An accepted set of identifiers gives every name at
 most one owner under each scheme.
 */
module WorkloadNames {

  import opened Texts
  import opened Wrappers

  datatype Scheme = Hyphen | Volume | Network

  const ZONES := ["ingress", "postgres", "cache", "bus", "identity", "storage", "observability", "egress"]

  predicate IsLower(c: char) {
    'a' <= c <= 'z'
  }

  predicate IsIdChar(c: char) {
    IsLower(c) || '0' <= c <= '9' || c == '-'
  }

  /** `WORKLOAD_ID`. */
  predicate Canonical(id: string) {
    && 2 <= |id| <= 61 && IsLower(id[0])
    && forall i :: 1 <= i < |id| ==> IsIdChar(id[i])
  }

  /** One identifier is the other plus a hyphen and more. */
  predicate Collide(a: string, b: string) {
    a + "-" <= b || b + "-" <= a
  }

  lemma {:induction false} IdCharMeans(c: char)
    ensures IsLower(c) <==> c in LETTERS
    ensures IsIdChar(c) <==> c in LETTERS || c in DIGITS || c == '-'
  {
    LetterMeans(c);
    DigitMeans(c);
  }

  lemma CanonicalMeans(id: string)
    ensures Canonical(id) <==> IsIdText(id, 61)
  {
    IdTextMeans(id, 61);
  }

  /** The first character and the others, against the set of them all. */
  lemma IdTextMeans(s: string, longest: nat)
    ensures 2 <= |s| <= longest && IsLower(s[0]) && (forall i :: 1 <= i < |s| ==> IsIdChar(s[i])) <==>
            IsIdText(s, longest)
  {
    forall c ensures IsLower(c) <==> c in LETTERS { IdCharMeans(c); }
    forall c ensures IsIdChar(c) <==> c in LETTERS || c in DIGITS || c == '-' { IdCharMeans(c); }
    hide IsIdChar, IsLower;
    if |s| > 0 { assert s[0] in s; }
    if forall i :: 1 <= i < |s| ==> IsIdChar(s[i]) {
      forall c | c in s ensures c == s[0] || IsIdChar(c) {
        var k :| 0 <= k < |s| && s[k] == c;
      }
    }
  }

  /** One of the two texts goes on where the other ends, after a dash. */
  ghost predicate Continues(a: string, b: string) {
    exists rest: string :: b == a + "-" + rest
  }

  lemma CollideMeans(a: string, b: string)
    ensures Collide(a, b) <==> Continues(a, b) || Continues(b, a)
  {
    PrefixMeans(a + "-", b);
    PrefixMeans(b + "-", a);
  }

  /** Canonical identifiers without repeats, none of which continues another. */
  ghost predicate Accepted(ids: seq<string>) {
    && (forall i :: 0 <= i < |ids| ==> IsIdText(ids[i], 61))
    && (forall i, j :: 0 <= i < j < |ids| ==>
          ids[i] != ids[j] && !Continues(ids[i], ids[j]) && !Continues(ids[j], ids[i]))
  }

  /** What the three loops check is what the set has to be. */
  lemma LoopsDecide(ids: seq<string>)
    ensures Accepted(ids) <==>
              && (forall i :: 0 <= i < |ids| ==> Canonical(ids[i]))
              && (forall i, j :: 0 <= i < j < |ids| ==> ids[i] != ids[j])
              && (forall i, j :: 0 <= i < j < |ids| ==> !Collide(ids[i], ids[j]))
  {
    forall i | 0 <= i < |ids| ensures Canonical(ids[i]) <==> IsIdText(ids[i], 61) {
      CanonicalMeans(ids[i]);
    }
    forall i, j | 0 <= i < j < |ids|
      ensures Collide(ids[i], ids[j]) <==> Continues(ids[i], ids[j]) || Continues(ids[j], ids[i])
    {
      CollideMeans(ids[i], ids[j]);
    }
    hide Canonical, IsIdText, Collide, Continues;
  }

  datatype IdError = Noncanonical | Repeated | PrefixCollision

  /** `validate_workload_id_set!`. */
  method ValidateIds(ids: seq<string>) returns (error: Option<IdError>)
    ensures error.None? <==> Accepted(ids)
    ensures error == Some(PrefixCollision) ==>
              exists i, j :: 0 <= i < j < |ids| && (Continues(ids[i], ids[j]) || Continues(ids[j], ids[i]))
  {
    hide Canonical, IsIdText, Collide, Continues, Accepted;
    LoopsDecide(ids);
    for i := 0 to |ids|
      invariant forall k :: 0 <= k < i ==> Canonical(ids[k])
    {
      if !Canonical(ids[i]) { return Some(Noncanonical); }
    }
    for i := 0 to |ids|
      invariant forall x, y :: 0 <= x < y < i ==> ids[x] != ids[y]
    {
      if ids[i] in ids[..i] { return Some(Repeated); }
    }
    for i := 0 to |ids|
      invariant forall x, y :: 0 <= x < i && x < y < |ids| ==> !Collide(ids[x], ids[y])
    {
      for j := i + 1 to |ids|
        invariant forall y :: i < y < j ==> !Collide(ids[i], ids[y])
      {
        if Collide(ids[i], ids[j]) {
          CollideMeans(ids[i], ids[j]);
          return Some(PrefixCollision);
        }
      }
    }
    return None;
  }

  // ---------------------------------------------------------------- owners

  function Underscored(id: string): (r: string)
    ensures |r| == |id|
  {
    seq(|id|, i requires 0 <= i < |id| => if id[i] == '-' then '_' else id[i])
  }

  function NetworkName(id: string, zone: string): string {
    Underscored(id) + "_" + zone
  }

  /** The test of the three selections. */
  predicate Claims(scheme: Scheme, id: string, name: string) {
    match scheme
    case Hyphen => id + "-" <= name
    case Volume => id + "_" <= name
    case Network => exists zone :: zone in ZONES && name == NetworkName(id, zone)
  }

  /** The name goes on where the identifier ends, after a dash or underscore; a network is
      the identifier, its dashes as underscores, with one zone. */
  ghost predicate Owns(scheme: Scheme, id: string, name: string) {
    match scheme
    case Hyphen => exists rest: string :: name == id + "-" + rest
    case Volume => exists rest: string :: name == id + "_" + rest
    case Network => exists zone :: zone in ZONES && name == NetworkName(id, zone)
  }

  lemma OwnsMeans(scheme: Scheme, id: string, name: string)
    ensures Claims(scheme, id, name) <==> Owns(scheme, id, name)
  {
    PrefixMeans(id + "-", name);
    PrefixMeans(id + "_", name);
  }

  function Owners(scheme: Scheme, ids: seq<string>, name: string): seq<string> {
    if ids == [] then []
    else (if Claims(scheme, ids[0], name) then [ids[0]] else []) + Owners(scheme, ids[1..], name)
  }

  /** The three `canonical_*_owner!` functions. */
  function CanonicalOwner(scheme: Scheme, ids: seq<string>, name: string): Option<string> {
    var owners := Owners(scheme, ids, name);
    if |owners| == 1 then Some(owners[0]) else None
  }

  /** The shorter of two hyphen owners would be a prefix of the longer one. */
  lemma HyphenOwnerIsUnique(a: string, b: string, name: string)
    requires Claims(Hyphen, a, name) && Claims(Hyphen, b, name) && |a| <= |b|
    ensures a == b || a + "-" <= b
  {
    assert a == name[..|a|] && b == name[..|b|];
    if |a| < |b| {
      assert (a + "-")[..] == name[..|a| + 1] == b[..|a| + 1];
    }
  }

  /** No identifier contains the underscore that ends the owner of a volume. */
  lemma VolumeOwnerIsUnique(a: string, b: string, name: string)
    requires Canonical(a) && Canonical(b) && Claims(Volume, a, name) && Claims(Volume, b, name) && |a| <= |b|
    ensures a == b
  {
    assert a == name[..|a|] && b == name[..|b|];
    assert name[|a|] == (a + "_")[|a|] == '_';
    forall i | 0 <= i < |b| ensures name[i] != '_' {
      assert name[i] == b[i];
    }
  }

  lemma UnderscoredIsInjective(a: string, b: string)
    requires Canonical(a) && Canonical(b) && Underscored(a) == Underscored(b)
    ensures a == b
  {
    forall i | 0 <= i < |a| ensures a[i] == b[i] {
      assert Underscored(a)[i] == Underscored(b)[i];
      assert a[i] != '_' && b[i] != '_';
    }
  }

  lemma ZonesArePlain(zone: string)
    requires zone in ZONES
    ensures '_' !in zone
  {}

  /** The last underscore of a network name separates its owner from its zone. */
  lemma NetworkNameIsInjective(a: string, x: string, b: string, y: string)
    requires Canonical(a) && Canonical(b) && '_' !in x && '_' !in y && |x| <= |y|
    requires NetworkName(a, x) == NetworkName(b, y)
    ensures a == b && x == y
  {
    var name := NetworkName(a, x);
    var cut := |name| - |x| - 1;
    assert name[cut] == '_';
    forall p | |name| - |y| <= p < |name| ensures name[p] != '_' {
      assert name[p] == y[p - |name| + |y|];
    }
    assert x == name[cut + 1..] == y;
    assert Underscored(a) == name[..cut] == Underscored(b);
    UnderscoredIsInjective(a, b);
  }

  /** Every name has at most one owner under each scheme. */
  lemma OwnerIsUnique(scheme: Scheme, ids: seq<string>, a: string, b: string, name: string)
    requires Accepted(ids) && a in ids && b in ids && Owns(scheme, a, name) && Owns(scheme, b, name)
    ensures a == b
  {
    var i :| 0 <= i < |ids| && ids[i] == a;
    var j :| 0 <= j < |ids| && ids[j] == b;
    CanonicalMeans(ids[i]);
    CanonicalMeans(ids[j]);
    CollideMeans(a, b);
    OwnsMeans(scheme, a, name);
    OwnsMeans(scheme, b, name);
    hide IsIdText, Continues, Owns;
    assert i < j ==> !Collide(ids[i], ids[j]);
    assert j < i ==> !Collide(ids[j], ids[i]);
    match scheme
    case Hyphen =>
      if |a| <= |b| { HyphenOwnerIsUnique(a, b, name); } else { HyphenOwnerIsUnique(b, a, name); }
    case Volume =>
      if |a| <= |b| { VolumeOwnerIsUnique(a, b, name); } else { VolumeOwnerIsUnique(b, a, name); }
    case Network =>
      var x :| x in ZONES && name == NetworkName(a, x);
      var y :| y in ZONES && name == NetworkName(b, y);
      ZonesArePlain(x);
      ZonesArePlain(y);
      if |x| <= |y| { NetworkNameIsInjective(a, x, b, y); } else { NetworkNameIsInjective(b, y, a, x); }
  }

  /** The collision rule is not stricter than needed: colliding identifiers share names. */
  lemma CollisionIsAmbiguous(a: string, b: string)
    requires Collide(a, b)
    ensures exists name :: Owns(Hyphen, a, name) && Owns(Hyphen, b, name)
  {
    var longer := if a + "-" <= b then b else a;
    var name := longer + "-x";
    assert longer <= name && longer + "-" <= name;
    PrefixOfPrefix(a + "-", b, b + "-x");
    PrefixOfPrefix(b + "-", a, a + "-x");
    assert Claims(Hyphen, a, name) && Claims(Hyphen, b, name);
    OwnsMeans(Hyphen, a, name);
    OwnsMeans(Hyphen, b, name);
  }

  lemma PrefixOfPrefix(a: string, b: string, c: string)
    requires b <= c
    ensures a <= b ==> a <= c
  {}

  lemma {:induction false} OwnersAreTheOwning(scheme: Scheme, ids: seq<string>, name: string)
    ensures forall id :: id in Owners(scheme, ids, name) <==> id in ids && Owns(scheme, id, name)
    ensures |Owners(scheme, ids, name)| <= |ids|
  {
    hide Owns, Claims;
    if ids != [] {
      OwnsMeans(scheme, ids[0], name);
      OwnersAreTheOwning(scheme, ids[1..], name);
      assert ids == [ids[0]] + ids[1..];
    }
  }

  lemma {:induction false} OneOwnerAtMost(scheme: Scheme, ids: seq<string>, name: string)
    requires Accepted(ids)
    ensures |Owners(scheme, ids, name)| <= 1
  {
    hide Owns, Claims;
    if ids != [] {
      var rest := ids[1..];
      assert forall i :: 0 <= i < |rest| ==> rest[i] == ids[i + 1];
      assert Accepted(rest);
      OneOwnerAtMost(scheme, rest, name);
      OwnersAreTheOwning(scheme, rest, name);
      OwnsMeans(scheme, ids[0], name);
      if Owns(scheme, ids[0], name) && Owners(scheme, rest, name) != [] {
        var other := Owners(scheme, rest, name)[0];
        assert other in Owners(scheme, rest, name);
        OwnerIsUnique(scheme, ids, ids[0], other, name);
      }
    }
  }

  /** On an accepted set the selection finds the owner, and fails exactly when there is none. */
  lemma CanonicalOwnerDecides(scheme: Scheme, ids: seq<string>, name: string)
    requires Accepted(ids)
    ensures forall id :: CanonicalOwner(scheme, ids, name) == Some(id) <==> id in ids && Owns(scheme, id, name)
  {
    OneOwnerAtMost(scheme, ids, name);
    OwnersAreTheOwning(scheme, ids, name);
    hide Accepted, Owns, Owners;
    var owners := Owners(scheme, ids, name);
    if |owners| == 1 {
      forall id ensures id in owners <==> id == owners[0] {}
    }
  }
}
