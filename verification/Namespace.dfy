/**
 * The name space (simplefs_inode.c): directory entries, link counts and the parent that each
 * directory records, under create, mkdir, link, unlink, rmdir, rename and exchange.
 */
module Namespace {
  import opened Wrappers
  import DirIndexes

  /** An entry's place: the directory and the name in it. */
  type Key = (nat, string)

  type Entries = map<Key, nat>

  /** The entries that name an inode. */
  ghost function Names(ents: Entries, i: nat): set<Key> {
    set k | k in ents && ents[k] == i
  }

  /** The entries of a directory that name directories. */
  ghost function Subdirs(ents: Entries, dirs: set<nat>, d: nat): set<Key> {
    set k | k in ents && k.0 == d && ents[k] in dirs
  }

  ghost predicate Empty(ents: Entries, d: nat) {
    forall k :: k in ents ==> k.0 != d
  }

  // ---------- the invariants ----------

  ghost predicate Shape(root: nat, ents: Entries, dirs: set<nat>, files: set<nat>) {
    && root in dirs && dirs !! files
    && forall k :: k in ents ==> k.0 in dirs && ents[k] != root && ents[k] in dirs + files
  }

  /** A directory has 2 links plus one per subdirectory, another inode one per entry. */
  ghost predicate Counts(ents: Entries, dirs: set<nat>, files: set<nat>, nlink: map<nat, nat>) {
    && (forall d :: d in dirs ==> d in nlink && nlink[d] == 2 + |Subdirs(ents, dirs, d)|)
    && (forall f :: f in files ==> f in nlink && nlink[f] == |Names(ents, f)|)
  }

  /** Exactly one entry names each directory but the root, in the directory it has recorded. */
  ghost predicate Parents(root: nat, ents: Entries, dirs: set<nat>, parent: map<nat, nat>) {
    forall d :: d in dirs && d != root ==> d in parent && NamedOnce(ents, d, parent[d])
  }

  /** One entry names d, and it is in directory p. */
  ghost predicate NamedOnce(ents: Entries, d: nat, p: nat) {
    exists n :: Names(ents, d) == {(p, n)}
  }

  /** n recorded parents lead from d to the root. */
  ghost predicate Climbs(root: nat, parent: map<nat, nat>, d: nat, n: nat)
    decreases n
  {
    if n == 0 then d == root else d != root && d in parent && Climbs(root, parent, parent[d], n - 1)
  }

  ghost predicate CanClimb(root: nat, parent: map<nat, nat>, d: nat) {
    exists n: nat :: Climbs(root, parent, d, n)
  }

  /** The recorded parents lead every directory to the root. */
  ghost predicate Rooted(root: nat, dirs: set<nat>, parent: map<nat, nat>) {
    forall d :: d in dirs ==> CanClimb(root, parent, d)
  }

  // ---------- one entry more, one entry less ----------

  lemma NamesAttach(ents: Entries, k: Key, i: nat, x: nat)
    requires k !in ents
    ensures Names(ents[k := i], x) == Names(ents, x) + if x == i then {k} else {}
  {
  }

  lemma NamesDetach(ents: Entries, k: Key, x: nat)
    requires k in ents
    ensures Names(ents - {k}, x) == Names(ents, x) - if ents[k] == x then {k} else {}
  {
  }

  lemma SubdirsAttach(ents: Entries, dirs: set<nat>, k: Key, i: nat, d: nat)
    requires k !in ents
    ensures Subdirs(ents[k := i], dirs, d) == Subdirs(ents, dirs, d) + if d == k.0 && i in dirs then {k} else {}
    ensures k !in Subdirs(ents, dirs, d)
  {
  }

  lemma SubdirsDetach(ents: Entries, dirs: set<nat>, k: Key, d: nat)
    requires k in ents
    ensures Subdirs(ents - {k}, dirs, d) == Subdirs(ents, dirs, d) - if d == k.0 && ents[k] in dirs then {k} else {}
    ensures d == k.0 && ents[k] in dirs ==> k in Subdirs(ents, dirs, d)
  {
  }

  /** Whose count an entry weighs on: its directory's if it names a directory, else its inode's. */
  function Payer(dirs: set<nat>, k: Key, i: nat): nat {
    if i in dirs then k.0 else i
  }

  lemma AttachCounts(ents: Entries, dirs: set<nat>, files: set<nat>, nlink: map<nat, nat>, k: Key, i: nat)
    requires Counts(ents, dirs, files, nlink) && k !in ents && k.0 in dirs && i in dirs + files && dirs !! files
    ensures var p := Payer(dirs, k, i);
      p in nlink && Counts(ents[k := i], dirs, files, nlink[p := nlink[p] + 1])
  {
    hide Names, Subdirs;
    var p := Payer(dirs, k, i);
    forall d | d in dirs ensures d in nlink && nlink[p := nlink[p] + 1][d] == 2 + |Subdirs(ents[k := i], dirs, d)| {
      SubdirsAttach(ents, dirs, k, i, d);
    }
    forall f | f in files ensures f in nlink && nlink[p := nlink[p] + 1][f] == |Names(ents[k := i], f)| {
      NamesAttach(ents, k, i, f);
      NotNamed(ents, k, f);
    }
  }

  lemma NotNamed(ents: Entries, k: Key, f: nat)
    requires k !in ents
    ensures k !in Names(ents, f)
  {
  }

  lemma DetachCounts(ents: Entries, dirs: set<nat>, files: set<nat>, nlink: map<nat, nat>, k: Key)
    requires Counts(ents, dirs, files, nlink) && k in ents && k.0 in dirs && ents[k] in dirs + files && dirs !! files
    ensures var p := Payer(dirs, k, ents[k]);
      p in nlink && nlink[p] > 0 && Counts(ents - {k}, dirs, files, nlink[p := nlink[p] - 1])
  {
    hide Names, Subdirs;
    var p := Payer(dirs, k, ents[k]);
    IsNamed(ents, k);
    NonEmptySet(Names(ents, ents[k]), k);
    forall d | d in dirs ensures d in nlink && nlink[p := if nlink[p] > 0 then nlink[p] - 1 else 0][d] == 2 + |Subdirs(ents - {k}, dirs, d)| {
      SubdirsDetach(ents, dirs, k, d);
    }
    forall f | f in files ensures f in nlink && nlink[p := if nlink[p] > 0 then nlink[p] - 1 else 0][f] == |Names(ents - {k}, f)| {
      NamesDetach(ents, k, f);
    }
  }

  lemma IsNamed(ents: Entries, k: Key)
    requires k in ents
    ensures k in Names(ents, ents[k])
  {
  }

  lemma NonEmptySet(s: set<Key>, k: Key)
    requires k in s
    ensures |s| > 0
  {
  }

  /** A directory that no entry names and that holds none can be forgotten. */
  lemma ForgetCounts(ents: Entries, dirs: set<nat>, files: set<nat>, nlink: map<nat, nat>, t: nat)
    requires Counts(ents, dirs, files, nlink) && Names(ents, t) == {}
    ensures Counts(ents, dirs - {t}, files, nlink)
  {
    forall d | d in dirs ensures Subdirs(ents, dirs - {t}, d) == Subdirs(ents, dirs, d) {
      forall k | k in ents ensures ents[k] != t {
        IsNamed(ents, k);
      }
    }
  }

  lemma NewInodeCounts(ents: Entries, dirs: set<nat>, files: set<nat>, nlink: map<nat, nat>, ino: nat, isDir: bool)
    requires Counts(ents, dirs, files, nlink) && ino !in dirs + files
    requires forall k :: k in ents ==> k.0 in dirs && ents[k] in dirs + files
    ensures var dirs', files' := if isDir then dirs + {ino} else dirs, if isDir then files else files + {ino};
      Counts(ents, dirs', files', nlink[ino := if isDir then 2 else 0])
  {
    var dirs' := if isDir then dirs + {ino} else dirs;
    forall d | d in dirs' ensures Subdirs(ents, dirs', d) == if d == ino then {} else Subdirs(ents, dirs, d) {
    }
    assert Names(ents, ino) == {};
  }

  // ---------- climbing to the root ----------

  /** The way up from d meets none of S; the root itself is never asked. */
  ghost predicate Avoids(root: nat, parent: map<nat, nat>, d: nat, n: nat, S: set<nat>)
    requires Climbs(root, parent, d, n)
    decreases n
  {
    n > 0 ==> d !in S && Avoids(root, parent, parent[d], n - 1, S)
  }

  lemma {:induction false} ClimbsOnce(root: nat, parent: map<nat, nat>, d: nat, n: nat, m: nat)
    requires Climbs(root, parent, d, n) && Climbs(root, parent, d, m)
    ensures n == m
    decreases n
  {
    if n > 0 {
      ClimbsOnce(root, parent, parent[d], n - 1, m - 1);
    }
  }

  ghost predicate SameOff(parent: map<nat, nat>, parent': map<nat, nat>, S: set<nat>) {
    forall d :: d in parent && d !in S ==> d in parent' && parent'[d] == parent[d]
  }

  lemma {:induction false} AvoidsStill(root: nat, parent: map<nat, nat>, parent': map<nat, nat>, S: set<nat>, d: nat, n: nat)
    requires Climbs(root, parent, d, n) && Avoids(root, parent, d, n, S) && SameOff(parent, parent', S)
    ensures Climbs(root, parent', d, n)
    decreases n
  {
    if n > 0 {
      AvoidsStill(root, parent, parent', S, parent[d], n - 1);
    }
  }

  /** If what moved can still climb from its new parent, everything can. */
  lemma {:induction false} ClimbsStill(root: nat, parent: map<nat, nat>, parent': map<nat, nat>, S: set<nat>, d: nat, n: nat)
    returns (m: nat)
    requires Climbs(root, parent, d, n) && SameOff(parent, parent', S) && root !in S
    requires forall s :: s in S ==> s in parent' && CanClimb(root, parent', parent'[s])
    ensures Climbs(root, parent', d, m)
    decreases n
  {
    if n == 0 {
      m := 0;
    } else if d in S {
      var k: nat :| Climbs(root, parent', parent'[d], k);
      m := k + 1;
    } else {
      m := ClimbsStill(root, parent, parent', S, parent[d], n - 1);
      m := m + 1;
    }
  }

  /** What is met on the way up climbs in no more steps. */
  lemma {:induction false} MetOnTheWay(root: nat, parent: map<nat, nat>, d: nat, n: nat, x: nat) returns (k: nat)
    requires Climbs(root, parent, d, n) && !Avoids(root, parent, d, n, {x})
    ensures k <= n && Climbs(root, parent, x, k)
    decreases n
  {
    if d == x {
      k := n;
    } else {
      k := MetOnTheWay(root, parent, parent[d], n - 1, x);
    }
  }

  lemma {:induction false} AvoidsBoth(root: nat, parent: map<nat, nat>, d: nat, n: nat, x: nat, y: nat)
    requires Climbs(root, parent, d, n) && Avoids(root, parent, d, n, {x}) && Avoids(root, parent, d, n, {y})
    ensures Avoids(root, parent, d, n, {x, y})
    decreases n
  {
    if n > 0 {
      AvoidsBoth(root, parent, parent[d], n - 1, x, y);
    }
  }

  /** A directory is never on its own parent's way up. */
  lemma ChildNotAbove(root: nat, parent: map<nat, nat>, d: nat, x: nat, n: nat)
    requires Climbs(root, parent, d, n) && x != root && x in parent && parent[x] == d
    ensures Avoids(root, parent, d, n, {x})
  {
    if !Avoids(root, parent, d, n, {x}) {
      var k := MetOnTheWay(root, parent, d, n, x);
      assert Climbs(root, parent, x, n + 1);
      ClimbsOnce(root, parent, x, k, n + 1);
    }
  }

  // ---------- the operations as functions ----------

  datatype Tree = Tree(ents: Entries, dirs: set<nat>, files: set<nat>, nlink: map<nat, nat>, parent: map<nat, nat>)

  ghost predicate Inv(root: nat, t: Tree) {
    && Shape(root, t.ents, t.dirs, t.files) && Counts(t.ents, t.dirs, t.files, t.nlink)
    && Parents(root, t.ents, t.dirs, t.parent) && Rooted(root, t.dirs, t.parent)
  }

  /** unlink, or rmdir with the parent's count */
  ghost function Removed(t: Tree, k: Key): Tree
    requires k in t.ents && t.ents[k] in t.nlink && k.0 in t.nlink && t.nlink[Payer(t.dirs, k, t.ents[k])] > 0
  {
    var i := t.ents[k];
    if i in t.dirs then
      t.(ents := t.ents - {k}, dirs := t.dirs - {i}, nlink := t.nlink[i := 0][k.0 := t.nlink[k.0] - 1])
    else
      t.(ents := t.ents - {k}, nlink := t.nlink[i := t.nlink[i] - 1])
  }

  lemma CountsFrame(ents: Entries, dirs: set<nat>, files: set<nat>, nlink: map<nat, nat>, nlink': map<nat, nat>)
    requires Counts(ents, dirs, files, nlink)
    requires forall i :: i in dirs + files ==> i in nlink && i in nlink' && nlink'[i] == nlink[i]
    ensures Counts(ents, dirs, files, nlink')
  {
  }

  lemma RemovedKeepsInv(root: nat, t: Tree, k: Key)
    requires Inv(root, t) && k in t.ents && (t.ents[k] in t.dirs ==> Empty(t.ents, t.ents[k]))
    ensures k.0 in t.nlink && t.ents[k] in t.nlink && t.nlink[Payer(t.dirs, k, t.ents[k])] > 0
    ensures Inv(root, Removed(t, k))
  {
    hide Counts, Rooted, Parents;
    var i := t.ents[k];
    var ents' := t.ents - {k};
    DetachCounts(t.ents, t.dirs, t.files, t.nlink, k);
    CountsDefined(t.ents, t.dirs, t.files, t.nlink);
    if i in t.dirs {
      RemovedDirParents(root, t, k);
      assert Names(ents', i) == {} by { SoleName(root, t, k); NamesDetach(t.ents, k, i); }
      var nl := t.nlink[k.0 := t.nlink[k.0] - 1];
      ForgetCounts(ents', t.dirs, t.files, nl, i);
      CountsFrame(ents', t.dirs - {i}, t.files, nl, t.nlink[i := 0][k.0 := t.nlink[k.0] - 1]);
      FewerRooted(root, t.dirs, t.dirs - {i}, t.parent);
    } else {
      RemovedFileParents(root, t, k);
    }
  }

  lemma CountsDefined(ents: Entries, dirs: set<nat>, files: set<nat>, nlink: map<nat, nat>)
    requires Counts(ents, dirs, files, nlink)
    ensures forall i :: i in dirs + files ==> i in nlink
  {
  }

  lemma FewerRooted(root: nat, dirs: set<nat>, dirs': set<nat>, parent: map<nat, nat>)
    requires Rooted(root, dirs, parent) && dirs' <= dirs
    ensures Rooted(root, dirs', parent)
  {
  }

  lemma SoleName(root: nat, t: Tree, k: Key)
    requires Shape(root, t.ents, t.dirs, t.files) && Parents(root, t.ents, t.dirs, t.parent) && k in t.ents && t.ents[k] in t.dirs
    ensures Names(t.ents, t.ents[k]) == {k} && t.ents[k] in t.parent && t.parent[t.ents[k]] == k.0
  {
    var i := t.ents[k];
    var n :| Names(t.ents, i) == {(t.parent[i], n)};
    IsNamed(t.ents, k);
  }

  lemma RemovedDirParents(root: nat, t: Tree, k: Key)
    requires Shape(root, t.ents, t.dirs, t.files) && Parents(root, t.ents, t.dirs, t.parent)
    requires k in t.ents && t.ents[k] in t.dirs && Empty(t.ents, t.ents[k])
    ensures Shape(root, t.ents - {k}, t.dirs - {t.ents[k]}, t.files)
    ensures Parents(root, t.ents - {k}, t.dirs - {t.ents[k]}, t.parent)
  {
    var i := t.ents[k];
    SoleName(root, t, k);
    forall e | e in t.ents - {k} ensures t.ents[e] != i {
      IsNamed(t.ents, e);
    }
    forall d | d in t.dirs && d != i ensures Names(t.ents - {k}, d) == Names(t.ents, d) {
      NamesDetach(t.ents, k, d);
    }
  }

  lemma RemovedFileParents(root: nat, t: Tree, k: Key)
    requires Shape(root, t.ents, t.dirs, t.files) && Parents(root, t.ents, t.dirs, t.parent) && k in t.ents && t.ents[k] !in t.dirs
    ensures Shape(root, t.ents - {k}, t.dirs, t.files) && Parents(root, t.ents - {k}, t.dirs, t.parent)
  {
    forall d | d in t.dirs ensures Names(t.ents - {k}, d) == Names(t.ents, d) {
      NamesDetach(t.ents, k, d);
    }
  }

  /** create and mkdir: the inode starts with its final count, the parent's follows. */
  ghost function Created(t: Tree, k: Key, ino: nat, isDir: bool): Tree
    requires k.0 in t.nlink
  {
    if isDir then
      t.(ents := t.ents[k := ino], dirs := t.dirs + {ino}, parent := t.parent[ino := k.0],
      nlink := t.nlink[ino := 2][k.0 := t.nlink[k.0] + 1])
    else
      t.(ents := t.ents[k := ino], files := t.files + {ino}, nlink := t.nlink[ino := 1])
  }

  lemma CreatedKeepsInv(root: nat, t: Tree, k: Key, ino: nat, isDir: bool)
    requires Inv(root, t) && k !in t.ents && k.0 in t.dirs && ino !in t.dirs + t.files
    ensures k.0 in t.nlink && Inv(root, Created(t, k, ino, isDir))
  {
    hide Counts, Rooted, Parents;
    CountsDefined(t.ents, t.dirs, t.files, t.nlink);
    var after := Created(t, k, ino, isDir);
    NewInodeCounts(t.ents, t.dirs, t.files, t.nlink, ino, isDir);
    AttachCounts(t.ents, after.dirs, after.files, t.nlink[ino := if isDir then 2 else 0], k, ino);
    if !isDir {
      assert t.nlink[ino := 0][ino := 1] == t.nlink[ino := 1];
    }
    CreatedParents(root, t, k, ino, isDir);
    if isDir {
      ParentsAreDirs(root, t);
      CreatedRooted(root, t.dirs, t.parent, k.0, ino);
    }
  }

  lemma CreatedParents(root: nat, t: Tree, k: Key, ino: nat, isDir: bool)
    requires Shape(root, t.ents, t.dirs, t.files) && Parents(root, t.ents, t.dirs, t.parent)
    requires k !in t.ents && k.0 in t.dirs && ino !in t.dirs + t.files && k.0 in t.nlink
    ensures var after := Created(t, k, ino, isDir);
      && Shape(root, after.ents, after.dirs, after.files) && Parents(root, after.ents, after.dirs, after.parent)
  {
    hide Names;
    var after := Created(t, k, ino, isDir);
    forall d | d in after.dirs && d != root ensures d in after.parent && NamedOnce(after.ents, d, after.parent[d]) {
      NamesAttach(t.ents, k, ino, d);
      if d == ino {
        Unnamed(root, t, ino);
        assert Names(after.ents, ino) == {(k.0, k.1)};
      } else {
        assert Names(after.ents, d) == Names(t.ents, d);
      }
    }
  }

  lemma Unnamed(root: nat, t: Tree, ino: nat)
    requires Shape(root, t.ents, t.dirs, t.files) && ino !in t.dirs + t.files
    ensures Names(t.ents, ino) == {}
  {
  }

  /** The way up stays among the directories. */
  ghost predicate Closed(root: nat, dirs: set<nat>, parent: map<nat, nat>) {
    forall d :: d in dirs && d != root ==> d in parent && parent[d] in dirs
  }

  lemma ParentsAreDirs(root: nat, t: Tree)
    requires Shape(root, t.ents, t.dirs, t.files) && Parents(root, t.ents, t.dirs, t.parent)
    ensures Closed(root, t.dirs, t.parent)
  {
    forall d | d in t.dirs && d != root ensures t.parent[d] in t.dirs {
      var n :| Names(t.ents, d) == {(t.parent[d], n)};
      assert (t.parent[d], n) in Names(t.ents, d);
    }
  }

  lemma {:induction false} AvoidsOutsiders(root: nat, dirs: set<nat>, parent: map<nat, nat>, d: nat, n: nat, x: nat)
    requires Closed(root, dirs, parent) && d in dirs && x !in dirs && Climbs(root, parent, d, n)
    ensures Avoids(root, parent, d, n, {x})
    decreases n
  {
    if n > 0 {
      AvoidsOutsiders(root, dirs, parent, parent[d], n - 1, x);
    }
  }

  lemma CreatedRooted(root: nat, dirs: set<nat>, parent: map<nat, nat>, p: nat, ino: nat)
    requires Rooted(root, dirs, parent) && Closed(root, dirs, parent) && root in dirs && p in dirs && ino !in dirs
    ensures Rooted(root, dirs + {ino}, parent[ino := p])
  {
    var parent' := parent[ino := p];
    forall d | d in dirs ensures CanClimb(root, parent', d) {
      var n: nat :| Climbs(root, parent, d, n);
      AvoidsOutsiders(root, dirs, parent, d, n, ino);
      AvoidsStill(root, parent, parent', {ino}, d, n);
    }
    var n: nat :| Climbs(root, parent', p, n);
    assert Climbs(root, parent', ino, n + 1);
  }

  /** An inode without links is evicted and its number may be used again. */
  ghost function Evicted(t: Tree, ino: nat): Tree {
    t.(files := t.files - {ino})
  }

  lemma EvictedKeepsInv(root: nat, t: Tree, ino: nat)
    requires Inv(root, t) && ino in t.files && ino in t.nlink && t.nlink[ino] == 0
    ensures Inv(root, Evicted(t, ino)) && ino !in Evicted(t, ino).dirs + Evicted(t, ino).files
  {
    hide Rooted, Parents, Subdirs;
    assert |Names(t.ents, ino)| == 0;
    forall k | k in t.ents ensures t.ents[k] != ino {
      IsNamed(t.ents, k);
    }
  }

  ghost function Linked(t: Tree, k: Key, ino: nat): Tree
    requires ino in t.nlink
  {
    t.(ents := t.ents[k := ino], nlink := t.nlink[ino := t.nlink[ino] + 1])
  }

  lemma LinkedKeepsInv(root: nat, t: Tree, k: Key, ino: nat)
    requires Inv(root, t) && k !in t.ents && k.0 in t.dirs && ino in t.files
    ensures ino in t.nlink && Inv(root, Linked(t, k, ino))
  {
    hide Counts, Rooted, Names;
    AttachCounts(t.ents, t.dirs, t.files, t.nlink, k, ino);
    forall d | d in t.dirs && d != root ensures NamedOnce(t.ents[k := ino], d, t.parent[d]) {
      NamesAttach(t.ents, k, ino, d);
      assert Names(t.ents[k := ino], d) == Names(t.ents, d);
    }
    AttachShape(root, t, k, ino);
  }

  lemma AttachShape(root: nat, t: Tree, k: Key, ino: nat)
    requires Shape(root, t.ents, t.dirs, t.files) && k.0 in t.dirs && ino in t.dirs + t.files && ino != root
    ensures Shape(root, t.ents[k := ino], t.dirs, t.files)
  {
  }

  /** A rename whose target name is free. */
  ghost function Moved(t: Tree, from: Key, to: Key): Tree
    requires from in t.ents && from.0 in t.nlink && to.0 in t.nlink && t.nlink[from.0] > 0
  {
    var i := t.ents[from];
    var ents' := t.ents[to := i] - {from};
    if i in t.dirs && from.0 != to.0 then
      t.(ents := ents', parent := t.parent[i := to.0],
      nlink := t.nlink[from.0 := t.nlink[from.0] - 1][to.0 := t.nlink[to.0] + 1])
    else
      t.(ents := ents')
  }

  /** The directory is not moved under itself. */
  ghost predicate NotUnder(root: nat, parent: map<nat, nat>, d: nat, i: nat) {
    forall n: nat :: Climbs(root, parent, d, n) ==> Avoids(root, parent, d, n, {i})
  }

  lemma MovedKeepsInv(root: nat, t: Tree, from: Key, to: Key)
    requires Inv(root, t) && from in t.ents && to !in t.ents && to.0 in t.dirs
    requires t.ents[from] in t.dirs && from.0 != to.0 ==> NotUnder(root, t.parent, to.0, t.ents[from])
    ensures from.0 in t.nlink && to.0 in t.nlink && t.nlink[from.0] > 0 && Inv(root, Moved(t, from, to))
  {
    hide Counts, Rooted, Parents, NotUnder;
    var i := t.ents[from];
    CountsDefined(t.ents, t.dirs, t.files, t.nlink);
    DirHasLinks(t.ents, t.dirs, t.files, t.nlink, from.0);
    MovedCounts(root, t, from, to);
    MovedParents(root, t, from, to);
    if i in t.dirs && from.0 != to.0 {
      MovedRooted(root, t.dirs, t.parent, to.0, i);
    }
  }

  lemma DirHasLinks(ents: Entries, dirs: set<nat>, files: set<nat>, nlink: map<nat, nat>, d: nat)
    requires Counts(ents, dirs, files, nlink) && d in dirs
    ensures d in nlink && nlink[d] >= 2
  {
  }

  lemma MovedCounts(root: nat, t: Tree, from: Key, to: Key)
    requires Shape(root, t.ents, t.dirs, t.files) && Counts(t.ents, t.dirs, t.files, t.nlink)
    requires from in t.ents && to !in t.ents && to.0 in t.dirs
    requires from.0 in t.nlink && to.0 in t.nlink && t.nlink[from.0] > 0
    ensures var after := Moved(t, from, to);
      Shape(root, after.ents, after.dirs, after.files) && Counts(after.ents, after.dirs, after.files, after.nlink)
  {
    hide Counts;
    var i := t.ents[from];
    var mid := t.ents[to := i];
    AttachCounts(t.ents, t.dirs, t.files, t.nlink, to, i);
    var p := Payer(t.dirs, to, i);
    var n1 := t.nlink[p := t.nlink[p] + 1];
    DetachCounts(mid, t.dirs, t.files, n1, from);
    var q := Payer(t.dirs, from, i);
    var n2 := n1[q := n1[q] - 1];
    assert n2 == Moved(t, from, to).nlink;
  }

  lemma MovedParents(root: nat, t: Tree, from: Key, to: Key)
    requires Shape(root, t.ents, t.dirs, t.files) && Parents(root, t.ents, t.dirs, t.parent)
    requires from in t.ents && to !in t.ents && to.0 in t.dirs
    requires from.0 in t.nlink && to.0 in t.nlink && t.nlink[from.0] > 0
    ensures var after := Moved(t, from, to);
      Parents(root, after.ents, after.dirs, after.parent)
  {
    hide Names;
    var i := t.ents[from];
    var after := Moved(t, from, to);
    if i in t.dirs {
      SoleName(root, t, from);
    }
    forall d | d in t.dirs && d != root ensures d in after.parent && NamedOnce(after.ents, d, after.parent[d]) {
      NamesAttach(t.ents, to, i, d);
      NamesDetach(t.ents[to := i], from, d);
      if d == i {
        assert Names(after.ents, d) == {(to.0, to.1)};
      } else {
        assert Names(after.ents, d) == Names(t.ents, d);
      }
    }
  }

  lemma MovedRooted(root: nat, dirs: set<nat>, parent: map<nat, nat>, d: nat, i: nat)
    requires Rooted(root, dirs, parent) && d in dirs && i != root && NotUnder(root, parent, d, i)
    ensures Rooted(root, dirs, parent[i := d])
  {
    var parent' := parent[i := d];
    var n: nat :| Climbs(root, parent, d, n);
    AvoidsStill(root, parent, parent', {i}, d, n);
    assert CanClimb(root, parent', d);
    forall x | x in dirs ensures CanClimb(root, parent', x) {
      var k: nat :| Climbs(root, parent, x, k);
      var m := ClimbsStill(root, parent, parent', {i}, x, k);
    }
  }

  /** renameat2 with RENAME_EXCHANGE */
  ghost function Exchanged(t: Tree, ka: Key, kb: Key): Tree
    requires ka in t.ents && kb in t.ents && ka.0 in t.nlink && kb.0 in t.nlink && t.nlink[ka.0] > 0 && t.nlink[kb.0] > 0
  {
    var a, b := t.ents[ka], t.ents[kb];
    var p1 := if ka.0 != kb.0 && a in t.dirs then t.parent[a := kb.0] else t.parent;
    var p2 := if ka.0 != kb.0 && b in t.dirs then p1[b := ka.0] else p1;
    var nlink' :=
      if ka.0 == kb.0 || (a in t.dirs) == (b in t.dirs) then t.nlink
      else if a in t.dirs then t.nlink[ka.0 := t.nlink[ka.0] - 1][kb.0 := t.nlink[kb.0] + 1]
      else t.nlink[ka.0 := t.nlink[ka.0] + 1][kb.0 := t.nlink[kb.0] - 1];
    t.(ents := t.ents[ka := b][kb := a], parent := p2, nlink := nlink')
  }

  lemma ExchangedKeepsInv(root: nat, t: Tree, ka: Key, kb: Key)
    requires Inv(root, t) && ka in t.ents && kb in t.ents && t.ents[ka] != t.ents[kb]
    requires t.ents[ka] in t.dirs && ka.0 != kb.0 ==> NotUnder(root, t.parent, kb.0, t.ents[ka])
    requires t.ents[kb] in t.dirs && ka.0 != kb.0 ==> NotUnder(root, t.parent, ka.0, t.ents[kb])
    ensures ka.0 in t.nlink && kb.0 in t.nlink && t.nlink[ka.0] > 0 && t.nlink[kb.0] > 0
    ensures Inv(root, Exchanged(t, ka, kb))
  {
    hide Counts, Rooted, Parents, NotUnder;
    DirHasLinks(t.ents, t.dirs, t.files, t.nlink, ka.0);
    DirHasLinks(t.ents, t.dirs, t.files, t.nlink, kb.0);
    ExchangedCounts(root, t, ka, kb);
    ExchangedParents(root, t, ka, kb);
    if ka.0 != kb.0 {
      ExchangedRooted(root, t, ka, kb);
    }
  }

  lemma ExchangedCounts(root: nat, t: Tree, ka: Key, kb: Key)
    requires Shape(root, t.ents, t.dirs, t.files) && Counts(t.ents, t.dirs, t.files, t.nlink)
    requires ka in t.ents && kb in t.ents && t.ents[ka] != t.ents[kb]
    requires ka.0 in t.nlink && kb.0 in t.nlink && t.nlink[ka.0] > 0 && t.nlink[kb.0] > 0
    ensures var after := Exchanged(t, ka, kb);
      Shape(root, after.ents, after.dirs, after.files) && Counts(after.ents, after.dirs, after.files, after.nlink)
  {
    hide Counts;
    var a, b := t.ents[ka], t.ents[kb];
    DetachCounts(t.ents, t.dirs, t.files, t.nlink, ka);
    var p1 := Payer(t.dirs, ka, a);
    var n1 := t.nlink[p1 := t.nlink[p1] - 1];
    DetachCounts(t.ents - {ka}, t.dirs, t.files, n1, kb);
    var p2 := Payer(t.dirs, kb, b);
    var n2 := n1[p2 := n1[p2] - 1];
    var e2 := t.ents - {ka} - {kb};
    AttachCounts(e2, t.dirs, t.files, n2, ka, b);
    var p3 := Payer(t.dirs, ka, b);
    var n3 := n2[p3 := n2[p3] + 1];
    AttachCounts(e2[ka := b], t.dirs, t.files, n3, kb, a);
    var p4 := Payer(t.dirs, kb, a);
    var n4 := n3[p4 := n3[p4] + 1];
    assert e2[ka := b][kb := a] == t.ents[ka := b][kb := a];
    assert n4 == Exchanged(t, ka, kb).nlink;
  }

  lemma NamesExchange(ents: Entries, ka: Key, kb: Key, x: nat)
    requires ka in ents && kb in ents && ents[ka] != ents[kb]
    ensures Names(ents[ka := ents[kb]][kb := ents[ka]], x) ==
        if x == ents[ka] then Names(ents, x) - {ka} + {kb}
        else if x == ents[kb] then Names(ents, x) - {kb} + {ka}
        else Names(ents, x)
  {
  }

  lemma ExchangedParents(root: nat, t: Tree, ka: Key, kb: Key)
    requires Shape(root, t.ents, t.dirs, t.files) && Parents(root, t.ents, t.dirs, t.parent)
    requires ka in t.ents && kb in t.ents && t.ents[ka] != t.ents[kb]
    requires ka.0 in t.nlink && kb.0 in t.nlink && t.nlink[ka.0] > 0 && t.nlink[kb.0] > 0
    ensures var after := Exchanged(t, ka, kb);
      Parents(root, after.ents, after.dirs, after.parent)
  {
    hide Names;
    var a, b := t.ents[ka], t.ents[kb];
    var after := Exchanged(t, ka, kb);
    if a in t.dirs {
      SoleName(root, t, ka);
    }
    if b in t.dirs {
      SoleName(root, t, kb);
    }
    forall d | d in t.dirs && d != root ensures d in after.parent && NamedOnce(after.ents, d, after.parent[d]) {
      NamesExchange(t.ents, ka, kb, d);
      if d == a {
        assert Names(after.ents, d) == {(kb.0, kb.1)};
      } else if d == b {
        assert Names(after.ents, d) == {(ka.0, ka.1)};
      } else {
        assert Names(after.ents, d) == Names(t.ents, d);
      }
    }
  }

  /** Neither directory is above the other, so the ways up from both new parents are untouched. */
  lemma ExchangedRooted(root: nat, t: Tree, ka: Key, kb: Key)
    requires Shape(root, t.ents, t.dirs, t.files) && Parents(root, t.ents, t.dirs, t.parent) && Rooted(root, t.dirs, t.parent)
    requires ka in t.ents && kb in t.ents && t.ents[ka] != t.ents[kb] && ka.0 != kb.0
    requires t.ents[ka] in t.dirs ==> NotUnder(root, t.parent, kb.0, t.ents[ka])
    requires t.ents[kb] in t.dirs ==> NotUnder(root, t.parent, ka.0, t.ents[kb])
    requires ka.0 in t.nlink && kb.0 in t.nlink && t.nlink[ka.0] > 0 && t.nlink[kb.0] > 0
    ensures Rooted(root, t.dirs, Exchanged(t, ka, kb).parent)
  {
    hide Names, Parents;
    var a, b := t.ents[ka], t.ents[kb];
    if a in t.dirs && b in t.dirs {
      SoleName(root, t, ka);
      SoleName(root, t, kb);
      SwapRooted(root, t.dirs, t.parent, a, ka.0, b, kb.0);
    } else if a in t.dirs {
      MovedRooted(root, t.dirs, t.parent, kb.0, a);
    } else if b in t.dirs {
      MovedRooted(root, t.dirs, t.parent, ka.0, b);
    }
  }

  lemma SwapRooted(root: nat, dirs: set<nat>, parent: map<nat, nat>, a: nat, p: nat, b: nat, q: nat)
    requires Rooted(root, dirs, parent) && p in dirs && q in dirs && a != root && b != root && a != b
    requires a in parent && parent[a] == p && b in parent && parent[b] == q
    requires NotUnder(root, parent, q, a) && NotUnder(root, parent, p, b)
    ensures Rooted(root, dirs, parent[a := q][b := p])
  {
    var parent' := parent[a := q][b := p];
    assert CanClimb(root, parent', p) by { UpUntouched(root, dirs, parent, parent', p, a, b); }
    assert CanClimb(root, parent', q) by { UpUntouched(root, dirs, parent, parent', q, b, a); }
    forall x | x in dirs ensures CanClimb(root, parent', x) {
      var k: nat :| Climbs(root, parent, x, k);
      var m := ClimbsStill(root, parent, parent', {a, b}, x, k);
    }
  }

  lemma UpUntouched(root: nat, dirs: set<nat>, parent: map<nat, nat>, parent': map<nat, nat>, p: nat, child: nat, other: nat)
    requires Rooted(root, dirs, parent) && p in dirs && child != root && child in parent && parent[child] == p
    requires NotUnder(root, parent, p, other) && SameOff(parent, parent', {child, other})
    ensures CanClimb(root, parent', p)
  {
    var n: nat :| Climbs(root, parent, p, n);
    ChildNotAbove(root, parent, p, child, n);
    AvoidsBoth(root, parent, p, n, child, other);
    AvoidsStill(root, parent, parent', {child, other}, p, n);
  }

  // ---------- the operations ----------

  class Volume {
    const root: nat
    var ents: Entries
    var dirs: set<nat>
    var files: set<nat>
    var nlink: map<nat, nat>
    var parent: map<nat, nat>

    ghost function T(): Tree
      reads this
    {
      Tree(ents, dirs, files, nlink, parent)
    }

    ghost predicate Valid()
      reads this
    {
      Inv(root, T())
    }

    /** A root directory with nothing in it. */
    constructor (root: nat)
      ensures Valid() && this.root == root && ents == map[] && dirs == {root}
    {
      this.root := root;
      ents, dirs, files, nlink, parent := map[], {root}, {}, map[root := 2], map[];
      new;
      assert Subdirs(ents, dirs, root) == {};
      assert Climbs(root, parent, root, 0);
    }

    /** simplefs_dir_add, seen from the name space */
    method DirAdd(k: Key, ino: nat) returns (r: Option<Errno>)
      modifies this`ents
      ensures r == (if |k.1| > DirIndexes.FILENAME_LEN then Some(ENAMETOOLONG) else if k in old(ents) then Some(EEXIST) else None)
      ensures ents == if r == None then old(ents)[k := ino] else old(ents)
    {
      if |k.1| > DirIndexes.FILENAME_LEN {
        return Some(ENAMETOOLONG);
      }
      if k in ents {
        return Some(EEXIST);
      }
      ents := ents[k := ino];
      return None;
    }

    /** simplefs_create_internal with a free inode number; mkdir when isDir. */
    method Create(k: Key, ino: nat, isDir: bool) returns (r: Option<Errno>)
      requires Valid() && k.0 in dirs && ino !in dirs + files
      modifies this
      ensures Valid()
      ensures r == (if |k.1| > DirIndexes.FILENAME_LEN then Some(ENAMETOOLONG) else if k in old(ents) then Some(EEXIST) else None)
      ensures r != None ==> ents == old(ents) && dirs == old(dirs) && files == old(files)
      ensures r == None ==> k.0 in old(nlink) && T() == Created(old(T()), k, ino, isDir)
      ensures r == None ==>
          && ents == old(ents)[k := ino]
          && dirs == old(dirs) + (if isDir then {ino} else {}) && files == old(files) + (if isDir then {} else {ino})
      ensures r == None ==> Takes(root, old(T()), Step.Create(k, ino, isDir), T())
    {
      hide Counts, Rooted, Parents;
      if |k.1| > DirIndexes.FILENAME_LEN {
        return Some(ENAMETOOLONG);
      }
      if k !in ents {
        CreatedKeepsInv(root, T(), k, ino, isDir);
      }
      NewInodeFrame(root, T(), ino, if isDir then 2 else 1, k.0, isDir);
      nlink := nlink[ino := if isDir then 2 else 1];
      if isDir {
        parent := parent[ino := k.0];
      }
      r := DirAdd(k, ino);
      if r.Some? {
        return;
      }
      if isDir {
        dirs := dirs + {ino};
        nlink := nlink[k.0 := nlink[k.0] + 1];
      } else {
        files := files + {ino};
      }
    }

    /** simplefs_link; the VFS links only inodes that are not directories. */
    method Link(k: Key, ino: nat) returns (r: Option<Errno>)
      requires Valid() && k.0 in dirs && ino in files
      modifies this
      ensures Valid()
      ensures r == (if |k.1| > DirIndexes.FILENAME_LEN then Some(ENAMETOOLONG) else if k in old(ents) then Some(EEXIST) else None)
      ensures r != None ==> T() == old(T())
      ensures r == None ==> ino in old(nlink) && T() == Linked(old(T()), k, ino)
      ensures r == None ==> ents == old(ents)[k := ino] && dirs == old(dirs) && files == old(files)
      ensures r == None ==> Takes(root, old(T()), Step.Link(k, ino), T())
    {
      hide Counts, Rooted, Parents;
      CountsDefined(ents, dirs, files, nlink);
      if k !in ents {
        LinkedKeepsInv(root, T(), k, ino);
      }
      nlink := nlink[ino := nlink[ino] + 1];
      r := DirAdd(k, ino);
      if r.Some? {
        nlink := nlink[ino := nlink[ino] - 1];
        assert nlink == old(nlink);
      }
    }

    /** simplefs_unlink_internal: the entry, and the count of what it named. */
    method UnlinkInternal(k: Key)
      requires k in ents && ents[k] in nlink && dirs !! files
      modifies this`ents, this`nlink, this`dirs
      ensures ents == old(ents) - {k}
      ensures old(ents)[k] in old(dirs) ==> dirs == old(dirs) - {old(ents)[k]} && nlink == old(nlink)[old(ents)[k] := 0]
      ensures old(ents)[k] !in old(dirs) ==>
          && dirs == old(dirs)
          && nlink == old(nlink)[old(ents)[k] := if old(nlink)[old(ents)[k]] > 0 then old(nlink)[old(ents)[k]] - 1 else 0]
    {
      var i := ents[k];
      ents := ents - {k};
      if i in dirs {
        nlink := nlink[i := 0];
        dirs := dirs - {i};
      } else if nlink[i] > 0 {
        nlink := nlink[i := nlink[i] - 1];
      }
    }

    method Unlink(k: Key)
      requires Valid() && k in ents && ents[k] in files
      modifies this
      ensures Valid()
      ensures k.0 in old(nlink) && old(ents)[k] in old(nlink) && old(nlink)[old(ents)[k]] > 0 && T() == Removed(old(T()), k)
      ensures ents == old(ents) - {k} && dirs == old(dirs) && files == old(files)
      ensures Takes(root, old(T()), Step.Remove(k), T())
    {
      hide Counts, Rooted, Parents;
      RemovedKeepsInv(root, T(), k);
      UnlinkInternal(k);
    }

    /** The end of simplefs_evict_inode for an inode without links: its number is free again. */
    method Evict(ino: nat)
      requires Valid() && ino in files && ino in nlink && nlink[ino] == 0
      modifies this
      ensures Valid() && T() == Evicted(old(T()), ino)
      ensures ino !in dirs + files && forall k :: k in ents ==> ents[k] != ino
      ensures ents == old(ents) && dirs == old(dirs) && files == old(files) - {ino}
      ensures Takes(root, old(T()), Step.Evict(ino), T())
    {
      EvictedKeepsInv(root, T(), ino);
      files := files - {ino};
    }

    method Rmdir(k: Key) returns (r: Option<Errno>)
      requires Valid() && k in ents
      modifies this
      ensures Valid()
      ensures r == (if old(ents)[k] !in old(dirs) then Some(ENOTDIR)
                    else if !Empty(old(ents), old(ents)[k]) then Some(ENOTEMPTY) else None)
      ensures r != None ==> T() == old(T())
      ensures r == None ==> k.0 in old(nlink) && old(ents)[k] in old(nlink) && old(nlink)[k.0] > 0 && T() == Removed(old(T()), k)
      ensures r == None ==> ents == old(ents) - {k} && dirs == old(dirs) - {old(ents)[k]} && files == old(files)
      ensures r == None ==> Takes(root, old(T()), Step.Remove(k), T())
    {
      hide Counts, Rooted, Parents;
      var i := ents[k];
      if i !in dirs {
        return Some(ENOTDIR);
      }
      if exists e <- ents.Keys :: e.0 == i {
        return Some(ENOTEMPTY);
      }
      RemovedKeepsInv(root, T(), k);
      NotInItself(root, T(), k);
      UnlinkInternal(k);
      if nlink[k.0] > 0 {
        nlink := nlink[k.0 := nlink[k.0] - 1];
      }
      return None;
    }

    /** simplefs_rename_check_subdir: whether the way up from d meets inode i. */
    method RenameCheckSubdir(i: nat, d: nat) returns (inside: bool)
      requires Valid() && d in dirs
      ensures inside <==> !NotUnder(root, parent, d, i)
    {
      hide Counts, Names;
      ParentsAreDirs(root, T());
      ghost var n: nat :| Climbs(root, parent, d, n);
      var p := d;
      ghost var left: nat := n;
      while p != root
        invariant left <= n && p in dirs && Climbs(root, parent, p, left)
        invariant Avoids(root, parent, d, n, {i}) <==> Avoids(root, parent, p, left, {i})
        decreases left
      {
        if p == i {
          assert !Avoids(root, parent, p, left, {i});
          return true;
        }
        p := parent[p];
        left := left - 1;
      }
      forall m: nat | Climbs(root, parent, d, m) ensures Avoids(root, parent, d, m, {i}) {
        ClimbsOnce(root, parent, d, n, m);
      }
      return false;
    }

    /** simplefs_prepare_rename_target */
    method PrepareRenameTarget(i: nat, target: nat) returns (r: Option<Errno>)
      ensures r == TargetError(ents, dirs, i, target)
    {
      if target in dirs {
        if i !in dirs {
          return Some(EISDIR);
        }
        if exists e <- ents.Keys :: e.0 == target {
          return Some(ENOTEMPTY);
        }
        return None;
      }
      if i in dirs {
        return Some(ENOTDIR);
      }
      return None;
    }

    /** The overwritten target of a rename: its entry, its count and, for a directory, its parent's count. */
    method DropTarget(to: Key)
      requires Valid() && to in ents && (ents[to] in dirs ==> Empty(ents, ents[to]))
      modifies this
      ensures Valid() && RemoveDefined(old(T()), to) && T() == Removed(old(T()), to)
      ensures Takes(root, old(T()), Step.Remove(to), T())
    {
      hide Counts, Rooted, Parents, Names, Subdirs;
      RemovedKeepsInv(root, T(), to);
      var isDir := ents[to] in dirs;
      if isDir {
        NotInItself(root, T(), to);
      }
      UnlinkInternal(to);
      if isDir && nlink[to.0] > 0 {
        nlink := nlink[to.0 := nlink[to.0] - 1];
      }
    }

    /** The rest of a rename once the new name is free: the new entry first, then the old one goes. */
    method MoveEntry(from: Key, to: Key)
      requires Valid() && from in ents && to !in ents && to.0 in dirs
      requires ents[from] in dirs && from.0 != to.0 ==> NotUnder(root, parent, to.0, ents[from])
      modifies this
      ensures Valid() && MoveDefined(old(T()), from, to) && T() == Moved(old(T()), from, to)
      ensures Takes(root, old(T()), Step.Move(from, to), T())
    {
      hide Counts, Rooted, Parents, Names, Subdirs, NotUnder;
      var i := ents[from];
      MovedKeepsInv(root, T(), from, to);
      ents := ents[to := i];
      ents := ents - {from};
      if i in dirs && from.0 != to.0 {
        parent := parent[i := to.0];
        if nlink[from.0] > 0 {
          nlink := nlink[from.0 := nlink[from.0] - 1];
        }
        nlink := nlink[to.0 := nlink[to.0] + 1];
      }
    }

    /** simplefs_rename_normal; the VFS has found the source and never calls it for two names of one inode. */
    method RenameNormal(from: Key, to: Key, noReplace: bool) returns (r: Option<Errno>)
      requires Valid() && from in ents && to.0 in dirs && (to in ents ==> ents[to] != ents[from])
      modifies this
      ensures Valid()
      ensures r == RenameError(root, old(T()), from, to, noReplace)
      ensures r != None ==> T() == old(T())
      ensures r == None ==> ents == old(ents)[to := old(ents)[from]] - {from}
      ensures r == None ==>
          && files == old(files)
          && dirs == if to in old(ents) then old(dirs) - {old(ents)[to]} else old(dirs)
      // Over an entry it succeeds only if both or neither are directories.
      ensures r == None && to in old(ents) ==> !noReplace && (old(ents)[from] in old(dirs) <==> old(ents)[to] in old(dirs))
      ensures r == Some(EEXIST) <==> noReplace && to in old(ents)
      ensures r == Some(EISDIR) <==>
          !noReplace && to in old(ents) && old(ents)[to] in old(dirs) && old(ents)[from] !in old(dirs)
      ensures r == Some(ENOTDIR) <==>
          && !noReplace && to in old(ents) && old(ents)[to] !in old(dirs) && old(ents)[from] in old(dirs)
          && old(NotUnder(root, parent, to.0, ents[from]))
      ensures r == Some(ENOTEMPTY) <==>
          && !noReplace && to in old(ents) && old(ents)[to] in old(dirs) && old(ents)[from] in old(dirs)
          && old(NotUnder(root, parent, to.0, ents[from])) && exists e :: e in old(ents) && e.0 == old(ents)[to]
      ensures r == Some(EINVAL) <==>
          && old(ents)[from] in old(dirs) && !old(NotUnder(root, parent, to.0, ents[from]))
          && (if to in old(ents) then !noReplace else from.0 != to.0)
      ensures r == Some(ENAMETOOLONG) <==>
          && to !in old(ents) && |to.1| > DirIndexes.FILENAME_LEN
          && (from.0 == to.0 || old(ents)[from] !in old(dirs) || old(NotUnder(root, parent, to.0, ents[from])))
      ensures r == None && to !in old(ents) ==> MoveDefined(old(T()), from, to) && T() == Moved(old(T()), from, to)
      ensures r == None && to in old(ents) ==>
          && RemoveDefined(old(T()), to) && MoveDefined(Removed(old(T()), to), from, to)
          && T() == Moved(Removed(old(T()), to), from, to)
      ensures r == None && to !in old(ents) ==> Takes(root, old(T()), Step.Move(from, to), T())
      ensures r == None && to in old(ents) ==>
          && Takes(root, old(T()), Step.Remove(to), Removed(old(T()), to))
          && Takes(root, Removed(old(T()), to), Step.Move(from, to), T())
    {
      hide Inv, NotUnder, Removed, Moved, Takes;
      var i := ents[from];
      if noReplace && to in ents {
        return Some(EEXIST);
      }
      if from.0 == to.0 && to !in ents {
        if |to.1| > DirIndexes.FILENAME_LEN {
          return Some(ENAMETOOLONG);
        }
        MoveEntry(from, to);
        MovedEntries(old(T()), from, to);
        return None;
      }
      if i in dirs {
        var inside := RenameCheckSubdir(i, to.0);
        if inside {
          return Some(EINVAL);
        }
      }
      if to in ents {
        var error := PrepareRenameTarget(i, ents[to]);
        if error.Some? {
          return error;
        }
        DropTarget(to);
        UnlinkThenMove(root, old(T()), from, to);
        MoveEntry(from, to);
        RemovedEntries(old(T()), to);
        MovedEntries(Removed(old(T()), to), from, to);
        assert (old(ents) - {to})[to := i] == old(ents)[to := i];
        return None;
      }
      if |to.1| > DirIndexes.FILENAME_LEN {
        return Some(ENAMETOOLONG);
      }
      MoveEntry(from, to);
      MovedEntries(old(T()), from, to);
      return None;
    }

    /**
     * simplefs_rename_exchange; the VFS never exchanges two names of one inode, nor a
     * directory with something above or below it.
     */
    method RenameExchange(ka: Key, kb: Key) returns (r: Option<Errno>)
      requires Valid() && ka in ents && kb.0 in dirs && (kb in ents ==> ents[ka] != ents[kb])
      requires ents[ka] in dirs ==> NotUnder(root, parent, kb.0, ents[ka])
      requires kb in ents && ents[kb] in dirs ==> NotUnder(root, parent, ka.0, ents[kb])
      modifies this
      ensures Valid()
      ensures r == if kb !in old(ents) then Some(ENOENT) else None
      ensures r != None ==> T() == old(T())
      ensures r == None ==> ExchangeDefined(old(T()), ka, kb) && T() == Exchanged(old(T()), ka, kb)
      ensures r == None ==>
          && ents == old(ents)[ka := old(ents)[kb]][kb := old(ents)[ka]]
          && dirs == old(dirs) && files == old(files)
      ensures r == None ==> Takes(root, old(T()), Step.Exchange(ka, kb), T())
    {
      hide Inv, NotUnder;
      if kb !in ents {
        return Some(ENOENT);
      }
      ghost var before := T();
      var a, b := ents[ka], ents[kb];
      ExchangedKeepsInv(root, T(), ka, kb);
      ents := ents[ka := b];
      ents := ents[kb := a];
      if ka.0 != kb.0 && (a in dirs) != (b in dirs) {
        if a in dirs {
          if nlink[ka.0] > 0 {
            nlink := nlink[ka.0 := nlink[ka.0] - 1];
          }
          nlink := nlink[kb.0 := nlink[kb.0] + 1];
        } else {
          nlink := nlink[ka.0 := nlink[ka.0] + 1];
          if nlink[kb.0] > 0 {
            nlink := nlink[kb.0 := nlink[kb.0] - 1];
          }
        }
      }
      if ka.0 != kb.0 && a in dirs {
        parent := parent[a := kb.0];
      }
      if ka.0 != kb.0 && b in dirs {
        parent := parent[b := ka.0];
      }
      assert T() == Exchanged(before, ka, kb);
      return None;
    }
  }

  ghost predicate RemoveDefined(t: Tree, k: Key) {
    k in t.ents && t.ents[k] in t.nlink && k.0 in t.nlink && t.nlink[Payer(t.dirs, k, t.ents[k])] > 0
  }

  ghost predicate MoveDefined(t: Tree, from: Key, to: Key) {
    from in t.ents && from.0 in t.nlink && to.0 in t.nlink && t.nlink[from.0] > 0
  }

  ghost predicate ExchangeDefined(t: Tree, ka: Key, kb: Key) {
    ka in t.ents && kb in t.ents && ka.0 in t.nlink && kb.0 in t.nlink && t.nlink[ka.0] > 0 && t.nlink[kb.0] > 0
  }

  ghost function TargetError(ents: Entries, dirs: set<nat>, i: nat, target: nat): Option<Errno> {
    if target in dirs then
      if i !in dirs then Some(EISDIR) else if !Empty(ents, target) then Some(ENOTEMPTY) else None
    else if i in dirs then Some(ENOTDIR) else None
  }

  ghost function RenameError(root: nat, t: Tree, from: Key, to: Key, noReplace: bool): Option<Errno>
    requires from in t.ents
  {
    var i := t.ents[from];
    if noReplace && to in t.ents then Some(EEXIST)
    else if (from.0 != to.0 || to in t.ents) && i in t.dirs && !NotUnder(root, t.parent, to.0, i) then Some(EINVAL)
    else if to in t.ents then TargetError(t.ents, t.dirs, i, t.ents[to])
    else if |to.1| > DirIndexes.FILENAME_LEN then Some(ENAMETOOLONG)
    else None
  }

  lemma MovedEntries(t: Tree, from: Key, to: Key)
    requires MoveDefined(t, from, to)
    ensures Moved(t, from, to).ents == t.ents[to := t.ents[from]] - {from}
    ensures Moved(t, from, to).dirs == t.dirs && Moved(t, from, to).files == t.files
  {
  }

  lemma RemovedEntries(t: Tree, k: Key)
    requires RemoveDefined(t, k)
    ensures Removed(t, k).ents == t.ents - {k}
    ensures Removed(t, k).dirs == t.dirs - {t.ents[k]} && Removed(t, k).files == t.files
  {
  }

  /** After its target is gone a rename still has its source, and both directories. */
  lemma UnlinkThenMove(root: nat, t: Tree, from: Key, to: Key)
    requires Inv(root, t) && from in t.ents && to in t.ents && t.ents[from] != t.ents[to]
    requires t.ents[to] in t.dirs ==> Empty(t.ents, t.ents[to])
    requires RemoveDefined(t, to)
    ensures var m := Removed(t, to);
      && from in m.ents && m.ents[from] == t.ents[from] && to !in m.ents && to.0 in m.dirs && m.parent == t.parent
      && (t.ents[from] in m.dirs <==> t.ents[from] in t.dirs)
      && (t.ents[to] in t.dirs ==> to.0 != t.ents[to] && from.0 != t.ents[to])
  {
    hide Counts, Rooted, Parents;
  }

  lemma NotInItself(root: nat, t: Tree, k: Key)
    requires Inv(root, t) && k in t.ents && Empty(t.ents, t.ents[k])
    ensures k.0 != t.ents[k] && k.0 in t.nlink
  {
  }

  /** A count for an inode that is not in the tree yet, or a stale parent of it, disturbs nothing. */
  lemma NewInodeFrame(root: nat, t: Tree, ino: nat, n: nat, p: nat, isDir: bool)
    requires Inv(root, t) && ino !in t.dirs + t.files
    ensures Inv(root, t.(nlink := t.nlink[ino := n], parent := if isDir then t.parent[ino := p] else t.parent))
  {
    hide Counts, Rooted;
    CountsDefined(t.ents, t.dirs, t.files, t.nlink);
    CountsFrame(t.ents, t.dirs, t.files, t.nlink, t.nlink[ino := n]);
    ParentsAreDirs(root, t);
    if isDir {
      StaleRooted(root, t.dirs, t.parent, p, ino);
    }
  }

  lemma StaleRooted(root: nat, dirs: set<nat>, parent: map<nat, nat>, p: nat, ino: nat)
    requires Rooted(root, dirs, parent) && Closed(root, dirs, parent) && ino !in dirs
    ensures Rooted(root, dirs, parent[ino := p])
  {
    forall d | d in dirs ensures CanClimb(root, parent[ino := p], d) {
      var n: nat :| Climbs(root, parent, d, n);
      AvoidsOutsiders(root, dirs, parent, d, n, ino);
      AvoidsStill(root, parent, parent[ino := p], {ino}, d, n);
    }
  }

  // ---------- whole runs ----------

  /** What a successful call does to the tree; a rename over an existing name is a Remove and a Move. */
  datatype Step =
    | Create(k: Key, ino: nat, isDir: bool)
    | Link(k: Key, ino: nat)
    | Remove(k: Key)
    | Evict(ino: nat)
    | Move(from: Key, to: Key)
    | Exchange(from: Key, to: Key)

  ghost predicate Enabled(root: nat, t: Tree, step: Step) {
    match step
    case Create(k, ino, _) => k !in t.ents && k.0 in t.dirs && ino !in t.dirs + t.files
    case Link(k, ino) => k !in t.ents && k.0 in t.dirs && ino in t.files
    case Remove(k) => k in t.ents && (t.ents[k] in t.dirs ==> Empty(t.ents, t.ents[k]))
    case Evict(ino) => ino in t.files && ino in t.nlink && t.nlink[ino] == 0
    case Move(from, to) =>
      && from in t.ents && to !in t.ents && to.0 in t.dirs
      && (t.ents[from] in t.dirs && from.0 != to.0 ==> NotUnder(root, t.parent, to.0, t.ents[from]))
    case Exchange(from, to) =>
      && from in t.ents && to in t.ents && t.ents[from] != t.ents[to]
      && (t.ents[from] in t.dirs && from.0 != to.0 ==> NotUnder(root, t.parent, to.0, t.ents[from]))
      && (t.ents[to] in t.dirs && from.0 != to.0 ==> NotUnder(root, t.parent, from.0, t.ents[to]))
  }

  ghost predicate Takes(root: nat, t: Tree, step: Step, t': Tree) {
    Enabled(root, t, step) &&
    match step
    case Create(k, ino, isDir) => k.0 in t.nlink && t' == Created(t, k, ino, isDir)
    case Link(k, ino) => ino in t.nlink && t' == Linked(t, k, ino)
    case Remove(k) => RemoveDefined(t, k) && t' == Removed(t, k)
    case Evict(ino) => t' == Evicted(t, ino)
    case Move(from, to) => MoveDefined(t, from, to) && t' == Moved(t, from, to)
    case Exchange(from, to) => ExchangeDefined(t, from, to) && t' == Exchanged(t, from, to)
  }

  lemma StepKeepsInv(root: nat, t: Tree, step: Step, t': Tree)
    requires Inv(root, t) && Takes(root, t, step, t')
    ensures Inv(root, t')
  {
    hide Inv, NotUnder;
    match step
    case Create(k, ino, isDir) => CreatedKeepsInv(root, t, k, ino, isDir);
    case Link(k, ino) => LinkedKeepsInv(root, t, k, ino);
    case Remove(k) => RemovedKeepsInv(root, t, k);
    case Evict(ino) => EvictedKeepsInv(root, t, ino);
    case Move(from, to) => MovedKeepsInv(root, t, from, to);
    case Exchange(from, to) => ExchangedKeepsInv(root, t, from, to);
  }

  ghost predicate Run(root: nat, trees: seq<Tree>, steps: seq<Step>) {
    && |trees| == |steps| + 1 && Inv(root, trees[0])
    && forall i :: 0 <= i < |steps| ==> Takes(root, trees[i], steps[i], trees[i + 1])
  }

  /** A number that was unlinked and evicted can be given out again, for a file or a directory. */
  lemma NumberIsReusable(root: nat, t: Tree, k: Key, ino: nat, k': Key, isDir: bool)
    requires Inv(root, t) && k in t.ents && t.ents[k] == ino && ino in t.files && Names(t.ents, ino) == {k}
    requires k' !in t.ents - {k} && k'.0 in t.dirs
    ensures Enabled(root, t, Remove(k)) && RemoveDefined(t, k)
    ensures var gone := Removed(t, k);
      && Enabled(root, gone, Evict(ino)) && Enabled(root, Evicted(gone, ino), Create(k', ino, isDir))
  {
    RemovedKeepsInv(root, t, k);
    NamesDetach(t.ents, k, ino);
    assert Names(t.ents - {k}, ino) == {};
  }

  /**
   * After any run of successful calls every directory has two links and one for each
   * subdirectory, every other inode one for each entry, each directory but the root is named
   * once, in the directory it has recorded, and the recorded parents lead to the root.
   */
  lemma {:induction false} EveryRunKeepsTheTree(root: nat, trees: seq<Tree>, steps: seq<Step>, i: nat)
    requires Run(root, trees, steps) && i <= |steps|
    ensures var t := trees[i];
      && Inv(root, t)
      && (forall d :: d in t.dirs ==> d in t.nlink && t.nlink[d] == 2 + |Subdirs(t.ents, t.dirs, d)|)
      && (forall f :: f in t.files ==> f in t.nlink && t.nlink[f] == |Names(t.ents, f)|)
      && (forall d :: d in t.dirs && d != root ==> d in t.parent && NamedOnce(t.ents, d, t.parent[d]) && CanClimb(root, t.parent, d))
  {
    hide Names, Subdirs, NamedOnce, CanClimb;
    if i > 0 {
      EveryRunKeepsTheTree(root, trees, steps, i - 1);
      StepKeepsInv(root, trees[i - 1], steps[i - 1], trees[i]);
    }
  }

  /** Moving a directory under itself is what the check is for: its way up would never end. */
  lemma MovedUnderItself(root: nat, parent: map<nat, nat>, d: nat, i: nat, n: nat)
    requires Climbs(root, parent, d, n) && !Avoids(root, parent, d, n, {i}) && i != root
    ensures !CanClimb(root, parent[i := d], i)
  {
    var parent' := parent[i := d];
    forall m: nat ensures !Climbs(root, parent', i, m) {
      LoopNeverEnds(root, parent, d, i, n, m);
    }
  }

  /** From anywhere on the loop, m steps do not reach the root. */
  lemma {:induction false} LoopNeverEnds(root: nat, parent: map<nat, nat>, d: nat, i: nat, n: nat, m: nat)
    requires Climbs(root, parent, d, n) && !Avoids(root, parent, d, n, {i}) && i != root
    ensures !Climbs(root, parent[i := d], i, m)
    decreases m
  {
    if m > 0 && Climbs(root, parent[i := d], i, m) {
      var left := ReachLoop(root, parent, d, i, d, n, m - 1);
      LoopNeverEnds(root, parent, d, i, n, left);
      assert false;
    }
  }

  lemma {:induction false} ReachLoop(root: nat, parent: map<nat, nat>, d: nat, i: nat, x: nat, n: nat, m: nat) returns (left: nat)
    requires Climbs(root, parent, x, n) && !Avoids(root, parent, x, n, {i}) && i != root
    requires Climbs(root, parent[i := d], x, m)
    ensures left <= m && Climbs(root, parent[i := d], i, left)
    decreases n
  {
    if x == i {
      left := m;
    } else {
      left := ReachLoop(root, parent, d, i, parent[x], n - 1, m - 1);
    }
  }
}
