/** Which bind-mounted directories a restore replaces. */
module BindRoots {

  import opened Sequences
  import opened Texts

  datatype Mount = Mount(kind: string, source: string)

  const SCOPE := "/srv/platform-infrastructure/first-install"
  const PRESERVE_PREFIXES := [
    "/run", "/var/run", "/var/lib/docker/containers", "/var/lib/platform-vps-backup",
    "/etc/platform-infrastructure/cloudflare-dns", "/etc/platform-infrastructure/first-enrollment"]
  const PRESERVE_EXACT := [
    "/etc/machine-id", "/srv/platform-infrastructure", "/srv/platform-infrastructure/first-install",
    "/srv/platform-infrastructure/src", "/etc/platform-infrastructure/admin/infrastructure-token"]

  predicate Within(value: string, root: string) {
    value == root || root + "/" <= value
  }

  predicate InScope(source: string) {
    && source !in PRESERVE_EXACT
    && (forall prefix :: prefix in PRESERVE_PREFIXES ==> !Within(source, prefix))
    && Within(source, SCOPE)
  }

  lemma WithinIsTransitive(a: string, b: string, c: string)
    requires Within(a, b) && Within(b, c)
    ensures Within(a, c)
  {
    if a != b && b != c {
      assert b <= a;
      assert (c + "/")[..] == b[..|c| + 1] == a[..|c| + 1];
    }
  }

  lemma WithinMeans(value: string, root: string)
    ensures Within(value, root) <==> value == root || exists rest: string :: value == root + "/" + rest
  {
    PrefixMeans(root + "/", value);
  }

  /** In scope are exactly the paths below the first installation: none of the preserved
      ones lies there or above it, but for the installation's own directory. */
  lemma InScopeMeans(source: string)
    ensures InScope(source) <==>
              exists rest: string :: source == "/srv/platform-infrastructure/first-install/" + rest
  {
    PrefixMeans(SCOPE + "/", source);
    assert SCOPE + "/" == "/srv/platform-infrastructure/first-install/";
    assert SCOPE in PRESERVE_EXACT;
    if SCOPE + "/" <= source {
      assert |source| > 42 && source[1] == (SCOPE + "/")[1] == 's';
      forall path | path in PRESERVE_EXACT ensures source != path {
        ScopeAvoidsPreserved(source, path);
      }
      forall prefix | prefix in PRESERVE_PREFIXES ensures !Within(source, prefix) {
        ShortPrefixes(prefix);
      }
    }
  }

  /** All prefixes begin with another character than the scope does. */
  lemma ShortPrefixes(prefix: string)
    requires prefix in PRESERVE_PREFIXES
    ensures |prefix| > 1 && prefix[1] != 's'
  {
    var p := PRESERVE_PREFIXES;
    assert p[0][1] == 'r' && p[1][1] == 'v' && p[2][1] == 'v' && p[3][1] == 'v' && p[4][1] == 'e' && p[5][1] == 'e';
  }

  // ---------------------------------------------------------------- sorting

  /** The sort key: length, then the text. */
  predicate Before(a: string, b: string) {
    |a| < |b| || (|a| == |b| && Lexicographic(a, b))
  }

  lemma BeforeIsTransitive(a: string, b: string, c: string)
    requires Before(a, b) && Before(b, c)
    ensures Before(a, c)
  {
    if |a| == |c| {
      LexicographicIsTransitive(a, b, c);
    }
  }

  ghost predicate Sorted(s: seq<string>) {
    forall i, j :: 0 <= i < j < |s| ==> Before(s[i], s[j])
  }

  function InsertByKey(x: string, s: seq<string>): seq<string> {
    if s == [] then [x]
    else if x == s[0] then s
    else if Before(x, s[0]) then [x] + s
    else [s[0]] + InsertByKey(x, s[1..])
  }

  /** The distinct elements in order of their keys. */
  function SortDistinct(s: seq<string>): seq<string> {
    if s == [] then [] else InsertByKey(s[0], SortDistinct(s[1..]))
  }

  lemma {:induction false} InsertSorts(x: string, s: seq<string>)
    requires Sorted(s)
    ensures Sorted(InsertByKey(x, s))
    ensures forall y :: y in InsertByKey(x, s) <==> y == x || y in s
  {
    if s != [] && x != s[0] {
      var rest := s[1..];
      assert s == [s[0]] + rest;
      if Before(x, s[0]) {
        forall j | 0 < j < |s| ensures Before(x, s[j]) { BeforeIsTransitive(x, s[0], s[j]); }
      } else {
        LexicographicIsTotal(x, s[0]);
        InsertSorts(x, rest);
        PutFirst(s[0], InsertByKey(x, rest));
      }
    }
  }

  lemma PutFirst(x: string, s: seq<string>)
    requires Sorted(s) && forall y :: y in s ==> Before(x, y)
    ensures Sorted([x] + s)
  {}

  lemma {:induction false} SortDistinctSorts(s: seq<string>)
    ensures Sorted(SortDistinct(s))
    ensures forall y :: y in SortDistinct(s) <==> y in s
  {
    if s != [] {
      SortDistinctSorts(s[1..]);
      InsertSorts(s[0], SortDistinct(s[1..]));
      assert s == [s[0]] + s[1..];
    }
  }

  // ---------------------------------------------------------------- the roots

  function Scoped(mounts: seq<Mount>): seq<string> {
    if mounts == [] then []
    else
      var m := mounts[0];
      (if m.kind == "bind" && InScope(m.source) then [m.source] else []) + Scoped(mounts[1..])
  }

  predicate Outermost(p: string, sources: seq<string>) {
    forall q :: q in sources ==> p == q || !Within(p, q)
  }

  function KeepOutermost(candidates: seq<string>, sources: seq<string>): seq<string> {
    if candidates == [] then []
    else (if Outermost(candidates[0], sources) then [candidates[0]] else []) + KeepOutermost(candidates[1..], sources)
  }

  /** `selected_bind_roots`. */
  function Roots(rows: seq<seq<Mount>>): seq<string> {
    var sources := SortDistinct(Scoped(Flatten(rows)));
    KeepOutermost(sources, sources)
  }

  /** A source that is bind-mounted by some container and in scope. */
  ghost predicate Mounted(rows: seq<seq<Mount>>, source: string) {
    InScope(source) && exists row :: row in rows && Mount("bind", source) in row
  }

  lemma {:induction false} ScopedAreBinds(mounts: seq<Mount>, source: string)
    ensures source in Scoped(mounts) <==> InScope(source) && Mount("bind", source) in mounts
  {
    if mounts != [] {
      hide InScope;
      ScopedAreBinds(mounts[1..], source);
      assert mounts == [mounts[0]] + mounts[1..];
    }
  }

  lemma {:induction false} KeptAreOutermost(candidates: seq<string>, sources: seq<string>)
    requires Sorted(candidates)
    ensures Sorted(KeepOutermost(candidates, sources))
    ensures forall p :: p in KeepOutermost(candidates, sources) <==> p in candidates && Outermost(p, sources)
  {
    hide Outermost, Before;
    if candidates != [] {
      var rest := candidates[1..];
      assert candidates == [candidates[0]] + rest;
      KeptAreOutermost(rest, sources);
      PutFirst(candidates[0], KeepOutermost(rest, sources));
    }
  }

  /** Exactly the mounted sources that lie within no other one, in order. */
  lemma RootsAreOutermost(rows: seq<seq<Mount>>)
    ensures Sorted(Roots(rows))
    ensures forall p :: p in Roots(rows) <==>
              Mounted(rows, p) && forall q :: Mounted(rows, q) ==> p == q || !Within(p, q)
  {
    hide InScope, Before, Within;
    var sources := SortDistinct(Scoped(Flatten(rows)));
    SortDistinctSorts(Scoped(Flatten(rows)));
    KeptAreOutermost(sources, sources);
    forall p ensures p in sources <==> Mounted(rows, p) {
      ScopedAreBinds(Flatten(rows), p);
      FlattenHasAll(rows, Mount("bind", p));
    }
  }

  /** No root lies within another. */
  lemma RootsAreAntichain(rows: seq<seq<Mount>>, i: nat, j: nat)
    requires i < |Roots(rows)| && j < |Roots(rows)| && i != j
    ensures !Within(Roots(rows)[i], Roots(rows)[j])
  {
    RootsAreOutermost(rows);
    var roots := Roots(rows);
    assert roots[i] in roots && roots[j] in roots;
    LexicographicIsTotal(roots[i], roots[i]);
  }

  /** Every mounted source is replaced along with some root. */
  lemma {:induction false} RootsCover(rows: seq<seq<Mount>>, source: string)
    requires Mounted(rows, source)
    ensures exists root :: root in Roots(rows) && Within(source, root)
    decreases |source|
  {
    RootsAreOutermost(rows);
    if source !in Roots(rows) {
      var q :| Mounted(rows, q) && source != q && Within(source, q);
      RootsCover(rows, q);
      var root :| root in Roots(rows) && Within(q, root);
      WithinIsTransitive(source, q, root);
    }
  }

  predicate Elsewhere(path: string) {
    |path| <= |SCOPE| || path[1] != 's'
  }

  lemma PreservedAreElsewhere(path: string)
    requires path in PRESERVE_PREFIXES || path in PRESERVE_EXACT
    ensures Elsewhere(path)
  {
    var p, e := PRESERVE_PREFIXES, PRESERVE_EXACT;
    assert Elsewhere(p[0]) && Elsewhere(p[1]) && Elsewhere(p[2]);
    assert Elsewhere(p[3]) && Elsewhere(p[4]) && Elsewhere(p[5]);
    assert Elsewhere(e[0]) && Elsewhere(e[1]) && Elsewhere(e[2]) && Elsewhere(e[3]) && Elsewhere(e[4]);
  }

  /** A proper subpath of the scope contains none of the preserved paths. */
  lemma ScopeAvoidsPreserved(root: string, path: string)
    requires SCOPE + "/" <= root && (path in PRESERVE_PREFIXES || path in PRESERVE_EXACT)
    ensures !Within(path, root)
  {
    assert |root| > |SCOPE| == 42;
    assert root[1] == (SCOPE + "/")[1] == 's';
    PreservedAreElsewhere(path);
  }

  /** No root is, contains or lies within a path that must be preserved. */
  lemma RootsPreserve(rows: seq<seq<Mount>>, root: string, path: string)
    requires root in Roots(rows)
    ensures path in PRESERVE_EXACT ==> !Within(path, root)
    ensures path in PRESERVE_PREFIXES ==> !Within(path, root) && !Within(root, path)
  {
    RootsAreOutermost(rows);
    assert InScope(root);
    assert SCOPE in PRESERVE_EXACT;
    if path in PRESERVE_EXACT || path in PRESERVE_PREFIXES {
      ScopeAvoidsPreserved(root, path);
    }
  }
}
