/** The three path operations the broker derives names with, on plain strings. */
module PosixPaths {

  const SLASH := '/'

  predicate NoSlashFrom(s: string, i: nat) {
    forall k :: i <= k < |s| ==> s[k] != SLASH
  }

  predicate NoSlash(s: string) {
    NoSlashFrom(s, 0)
  }

  predicate AllSlashes(s: string) {
    forall k :: 0 <= k < |s| ==> s[k] == SLASH
  }

  /** The index just after the last slash, 0 when there is none. */
  function AfterLastSlash(s: string): (i: nat)
    ensures i <= |s| && NoSlashFrom(s, i) && (i > 0 ==> s[i - 1] == SLASH)
  {
    if s == [] then 0
    else if s[|s| - 1] == SLASH then |s|
    else AfterLastSlash(s[..|s| - 1])
  }

  function StripTrailing(s: string): (r: string)
    ensures r <= s && (r == [] || r[|r| - 1] != SLASH)
    ensures AllSlashes(s[|r|..])
  {
    if s == [] || s[|s| - 1] != SLASH then s else StripTrailing(s[..|s| - 1])
  }

  /** os.path.dirname: the head of the path, its trailing slashes removed unless it is
      made of nothing else. */
  function Dirname(s: string): string {
    var head := s[..AfterLastSlash(s)];
    if AllSlashes(head) then head else StripTrailing(head)
  }

  /** os.path.basename. */
  function Basename(s: string): string {
    s[AfterLastSlash(s)..]
  }

  /** os.path.join of a path and one component. */
  function Join(a: string, b: string): string {
    if b != [] && b[0] == SLASH then b
    else if a == [] || a[|a| - 1] == SLASH then a + b
    else a + "/" + b
  }

  /** A head that is empty, or ends in no slash, or is made of slashes only. */
  predicate CleanHead(h: string) {
    h == [] || h[|h| - 1] != SLASH || AllSlashes(h)
  }

  lemma StripKeepsClean(h: string)
    requires h != [] && h[|h| - 1] != SLASH
    ensures StripTrailing(h + "/") == h
  {
    var s := h + "/";
    assert s[..|s| - 1] == h;
  }

  lemma BasenameOfJoined(h: string, b: string)
    requires NoSlash(b)
    ensures Basename(h + "/" + b) == b
  {
    var s := h + "/" + b;
    var i := |h| + 1;
    assert s[i - 1] == SLASH && NoSlashFrom(s, i);
    assert AfterLastSlash(s) == i;
  }

  lemma DirnameOfJoined(h: string, b: string)
    requires b != [] && NoSlash(b) && h != [] && h[|h| - 1] != SLASH
    ensures Dirname(h + "/" + b) == h
  {
    var s := h + "/" + b;
    var i := |h| + 1;
    assert s[i - 1] == SLASH && NoSlashFrom(s, i);
    assert AfterLastSlash(s) == i;
    assert s[..i] == h + "/";
    assert s[..i][0..|h|] == h && s[..i][|h| - 1] == h[|h| - 1];
    StripKeepsClean(h);
  }

  lemma DirnameOfRooted(h: string, b: string)
    requires b != [] && NoSlash(b) && AllSlashes(h)
    ensures Dirname(h + b) == h
  {
    var s := h + b;
    assert NoSlashFrom(s, |h|) && (|h| > 0 ==> s[|h| - 1] == h[|h| - 1]);
    assert AfterLastSlash(s) == |h|;
    assert s[..|h|] == h;
  }

  lemma DirnameIsClean(s: string)
    ensures CleanHead(Dirname(s))
  {}

  /** The path that a recovery derives from a recorded one: same store directory, the
      state's own directory, the fixed file name. */
  function Derived(path: string, stateId: string, name: string): string {
    Join(Join(Dirname(Dirname(path)), stateId), name)
  }

  /** `path` ends in `/stateId/name` and no doubled slash precedes the state directory
      (or it is just `stateId/name`). */
  predicate CleanTail(path: string, stateId: string, name: string) {
    var tail := "/" + stateId + "/" + name;
    || path == stateId + "/" + name
    || (|path| >= |tail| && path[|path| - |tail|..] == tail && CleanHead(path[..|path| - |tail|]))
  }

  lemma CleanTailIsDerived(path: string, stateId: string, name: string)
    requires stateId != [] && NoSlash(stateId) && name != [] && NoSlash(name)
    requires CleanTail(path, stateId, name)
    ensures Derived(path, stateId, name) == path
  {
    hide Derived, NoSlash;
    if path == stateId + "/" + name {
      BareIsDerived(stateId, name);
    } else {
      var h := path[..|path| - |"/" + stateId + "/" + name|];
      SplitTail(path, stateId, name);
      CleanTailParents(h, stateId, name);
    }
  }

  lemma BareIsDerived(stateId: string, name: string)
    requires stateId != [] && NoSlash(stateId) && name != [] && NoSlash(name)
    ensures Derived(stateId + "/" + name, stateId, name) == stateId + "/" + name
  {
    hide Dirname;
    DirnameOfJoined(stateId, name);
    DirnameOfRooted("", stateId);
    assert "" + stateId == stateId;
  }

  lemma SplitTail(path: string, stateId: string, name: string)
    requires var tail := "/" + stateId + "/" + name; |path| >= |tail| && path[|path| - |tail|..] == tail
    ensures path == path[..|path| - |"/" + stateId + "/" + name|] + "/" + stateId + "/" + name
  {
    var tail := "/" + stateId + "/" + name;
    assert path == path[..|path| - |tail|] + tail;
  }

  /** Both parents of a clean path, and the way back. */
  lemma CleanTailParents(h: string, stateId: string, name: string)
    requires stateId != [] && NoSlash(stateId) && name != [] && NoSlash(name) && CleanHead(h)
    ensures Derived(h + "/" + stateId + "/" + name, stateId, name) == h + "/" + stateId + "/" + name
  {
    hide Dirname;
    var root := h + "/" + stateId;
    assert root[|root| - 1] == stateId[|stateId| - 1];
    DirnameOfJoined(root, name);
    if AllSlashes(h) {
      assert root == (h + "/") + stateId;
      DirnameOfRooted(h + "/", stateId);
      assert Join(h + "/", stateId) == root;
    } else {
      DirnameOfJoined(h, stateId);
    }
  }

  lemma DerivedHasCleanTail(path: string, stateId: string, name: string)
    requires stateId != [] && NoSlash(stateId) && name != [] && NoSlash(name)
    requires Derived(path, stateId, name) == path
    ensures CleanTail(path, stateId, name)
  {
    hide Dirname;
    var d := Dirname(Dirname(path));
    DirnameIsClean(Dirname(path));
    var root := Join(d, stateId);
    assert root[|root| - 1] == stateId[|stateId| - 1];
    assert path == root + "/" + name;
    if d != [] {
      var h := if d[|d| - 1] == SLASH then d[..|d| - 1] else d;
      var tail := "/" + stateId + "/" + name;
      assert root == h + "/" + stateId;
      assert path == h + tail;
      assert path[..|path| - |tail|] == h && path[|path| - |tail|..] == tail;
    }
  }

  /** A recorded path is the one recovery derives from it exactly when it has a clean
      tail, which can be seen from the string before it is recorded. */
  lemma DerivedIffCleanTail(path: string, stateId: string, name: string)
    requires stateId != [] && NoSlash(stateId) && name != [] && NoSlash(name)
    ensures Derived(path, stateId, name) == path <==> CleanTail(path, stateId, name)
  {
    hide Derived, CleanTail;
    if CleanTail(path, stateId, name) {
      CleanTailIsDerived(path, stateId, name);
    }
    if Derived(path, stateId, name) == path {
      DerivedHasCleanTail(path, stateId, name);
    }
  }

  predicate NoDoubledSlash(path: string) {
    forall k :: 0 < k < |path| ==> !(path[k - 1] == SLASH && path[k] == SLASH)
  }

  lemma JoinedIsClean(root: string, stateId: string, name: string)
    requires stateId != [] && NoSlash(stateId) && name != [] && NoSlash(name)
    requires Basename(root) == stateId
    requires NoDoubledSlash(Join(root, name))
    ensures CleanTail(Join(root, name), stateId, name)
  {
    var i := AfterLastSlash(root);
    assert root[i..] == stateId && root[|root| - 1] == stateId[|stateId| - 1];
    var path := root + "/" + name;
    assert Join(root, name) == path;
    if i > 0 {
      var h := root[..i - 1];
      assert root == h + "/" + stateId;
      TailOf(h, stateId, name);
      assert path == h + "/" + stateId + "/" + name;
      if h != [] {
        assert path[|h| - 1] == h[|h| - 1] && path[|h|] == SLASH;
      }
    } else {
      assert root == stateId;
    }
  }

  lemma TailOf(h: string, stateId: string, name: string)
    ensures var path, tail := h + "/" + stateId + "/" + name, "/" + stateId + "/" + name;
      path == h + tail && path[..|path| - |tail|] == h && path[|path| - |tail|..] == tail
  {
    var path, tail := h + "/" + stateId + "/" + name, "/" + stateId + "/" + name;
    assert path == h + tail;
  }
}
