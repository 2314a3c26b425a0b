/**
 Rewriting the state store.

 The snapshot at the prune point is cloned tree by tree; every later snapshot is rebuilt in the
 new store from the changes between it and the snapshot before it. Trees whose metadata did not
 change are taken over without looking at them.
 */
module Prune {
  import opened ChainState
  import opened Partition
  import opened Topo
  import opened Variables

  type Tree = map<nat, Bytes>

  /** The trees of a snapshot: account balances, contract metadata, and one tree for every contract. */
  datatype Name = Balance | Meta | Contract(scid: nat)

  type Snap = map<Name, Tree>

  const CHUNK_SIZE := 100000

  /** A tree that is not there is empty. */
  function TreeOf(s: Snap, n: Name): Tree {
    if n in s then s[n] else map[]
  }

  /** Snapshots agree on balances, metadata, and the contracts that have metadata. */
  ghost predicate Same(a: Snap, b: Snap) {
    && TreeOf(a, Balance) == TreeOf(b, Balance) && TreeOf(a, Meta) == TreeOf(b, Meta)
    && forall scid :: scid in TreeOf(b, Meta) ==> TreeOf(a, Contract(scid)) == TreeOf(b, Contract(scid))
  }

  /** A contract without metadata has no data. */
  ghost predicate Tidy(s: Snap) {
    forall scid :: scid !in TreeOf(s, Meta) ==> TreeOf(s, Contract(scid)) == map[]
  }

  // ---------- differences between trees ----------

  predicate Changed(was: Tree, now: Tree, k: nat) {
    k in now && (k !in was || was[k] != now[k])
  }

  predicate Gone(was: Tree, now: Tree, k: nat) {
    k in was && k !in now
  }

  /** The changes from one tree to another, applied to a third; deletions only if they are handled. */
  function Patched(was: Tree, now: Tree, t: Tree, deletes: bool): Tree {
    map k | k in t.Keys + now.Keys && (Changed(was, now, k) || (k in t && !(deletes && Gone(was, now, k)))) ::
      if Changed(was, now, k) then now[k] else t[k]
  }

  /** Applied to the tree they start from, the changes give the tree they lead to; without deletions, if
      and only if nothing was deleted. */
  lemma {:induction false} PatchedSame(was: Tree, now: Tree)
    ensures Patched(was, now, was, true) == now
    ensures Patched(was, now, was, false) == now <==> forall k :: k in was ==> k in now
  {
    var p := Patched(was, now, was, false);
    forall k | k in was && k !in now ensures k in p {}
  }

  /** What has been patched so far. */
  ghost predicate PatchedTo(was: Tree, now: Tree, t0: Tree, t: Tree, deletes: bool, rest: set<nat>) {
    forall k :: if k in rest then (k in t <==> k in t0) && (k in t ==> t[k] == t0[k])
      else (k in t <==> k in Patched(was, now, t0, deletes)) && (k in t ==> t[k] == Patched(was, now, t0, deletes)[k])
  }

  lemma PatchStart(was: Tree, now: Tree, t: Tree, deletes: bool)
    ensures PatchedTo(was, now, t, t, deletes, was.Keys + now.Keys)
  {
  }

  lemma PatchEnd(was: Tree, now: Tree, t0: Tree, t: Tree, deletes: bool)
    requires PatchedTo(was, now, t0, t, deletes, {})
    ensures t == Patched(was, now, t0, deletes)
  {
  }

  lemma {:induction false} PatchStep(was: Tree, now: Tree, t0: Tree, t: Tree, deletes: bool, rest: set<nat>, k: nat)
    requires PatchedTo(was, now, t0, t, deletes, rest) && k in rest
    ensures var next := if Changed(was, now, k) then t[k := now[k]] else if deletes && Gone(was, now, k) then t - {k} else t;
      PatchedTo(was, now, t0, next, deletes, rest - {k})
  {
    hide Patched;
    PatchedAt(was, now, t0, deletes, k);
  }

  lemma PatchedAt(was: Tree, now: Tree, t: Tree, deletes: bool, k: nat)
    ensures var p := Patched(was, now, t, deletes);
      if Changed(was, now, k) then k in p && p[k] == now[k]
      else if deletes && Gone(was, now, k) then k !in p
      else (k in p <==> k in t) && (k in p ==> p[k] == t[k])
  {
  }

  /** The inserted and the modified keys, as far as they have been visited. */
  ghost predicate Visited(was: Tree, now: Tree, inserted: set<nat>, modified: set<nat>, rest: set<nat>) {
    forall k :: (k in inserted <==> k in now && k !in was && k !in rest)
      && (k in modified <==> k in now && k in was && was[k] != now[k] && k !in rest)
  }

  lemma VisitStart(was: Tree, now: Tree)
    ensures Visited(was, now, {}, {}, was.Keys + now.Keys)
  {
  }

  lemma {:induction false} VisitStep(was: Tree, now: Tree, inserted: set<nat>, modified: set<nat>, rest: set<nat>, k: nat)
    requires Visited(was, now, inserted, modified, rest) && k in rest && k in was.Keys + now.Keys
    ensures Visited(was, now, if k in now && k !in was then inserted + {k} else inserted,
      if k in now && k in was && was[k] != now[k] then modified + {k} else modified, rest - {k})
  {
  }

  function Inserted(was: Tree, now: Tree): set<nat> {
    set k | k in now && k !in was
  }

  function Modified(was: Tree, now: Tree): set<nat> {
    set k | k in now && k in was && was[k] != now[k]
  }

  lemma VisitEnd(was: Tree, now: Tree, inserted: set<nat>, modified: set<nat>)
    requires Visited(was, now, inserted, modified, {})
    ensures inserted == Inserted(was, now) && modified == Modified(was, now)
  {
  }

  /** Applies the changes key by key, and tells the inserted from the modified keys. */
  method ApplyDiff(was: Tree, now: Tree, t0: Tree, deletes: bool) returns (t: Tree, inserted: set<nat>, modified: set<nat>)
    ensures t == Patched(was, now, t0, deletes)
    ensures inserted == Inserted(was, now) && modified == Modified(was, now)
  {
    hide PatchedTo, Patched, Visited, Inserted, Modified;
    t, inserted, modified := t0, {}, {};
    var rest := was.Keys + now.Keys;
    PatchStart(was, now, t, deletes);
    VisitStart(was, now);
    while rest != {}
      invariant rest <= was.Keys + now.Keys
      invariant PatchedTo(was, now, t0, t, deletes, rest)
      invariant Visited(was, now, inserted, modified, rest)
      decreases |rest|
    {
      var k :| k in rest;
      PatchStep(was, now, t0, t, deletes, rest, k);
      VisitStep(was, now, inserted, modified, rest, k);
      if k in now && k !in was {
        t, inserted := t[k := now[k]], inserted + {k};
      } else if k in now && was[k] != now[k] {
        t, modified := t[k := now[k]], modified + {k};
      } else if k !in now && deletes {
        t := t - {k};
      }
      rest := rest - {k};
    }
    PatchEnd(was, now, t0, t, deletes);
    VisitEnd(was, now, inserted, modified);
  }

  // ---------- one snapshot to the next ----------

  /** The changes between two snapshots, applied to a third: the metadata without deletions, a new contract
      by copying, a contract whose metadata changed by its changes. */
  function Moved(was: Snap, now: Snap, w: Snap): Snap {
    map n | n in Touched(was, now, w) :: MovedTree(was, now, w, n)
  }

  /** The trees of the store and those that are written. */
  function Touched(was: Snap, now: Snap, w: Snap): set<Name> {
    w.Keys + {Balance, Meta} + set scid | scid in TreeOf(now, Meta) && Changed(TreeOf(was, Meta), TreeOf(now, Meta), scid) :: Contract(scid)
  }

  function MovedTree(was: Snap, now: Snap, w: Snap, n: Name): Tree {
    match n
    case Balance => Patched(TreeOf(was, Balance), TreeOf(now, Balance), TreeOf(w, Balance), true)
    case Meta => Patched(TreeOf(was, Meta), TreeOf(now, Meta), TreeOf(w, Meta), false)
    case Contract(scid) => MovedContractTree(was, now, w, scid)
  }

  function MovedContractTree(was: Snap, now: Snap, w: Snap, scid: nat): Tree {
    var m, m', n := TreeOf(was, Meta), TreeOf(now, Meta), Contract(scid);
    if scid in m' && scid !in m then TreeOf(w, n) + TreeOf(now, n)
    else if Changed(m, m', scid) then Patched(TreeOf(was, n), TreeOf(now, n), TreeOf(w, n), true)
    else TreeOf(w, n)
  }

  /** Metadata shows every change: it is never removed, and the data of a contract whose metadata stays the
      same stays the same. */
  ghost predicate MetaShows(was: Snap, now: Snap) {
    var m, m' := TreeOf(was, Meta), TreeOf(now, Meta);
    && (forall scid :: scid in m ==> scid in m')
    && (forall scid :: scid in m && scid in m' && m[scid] == m'[scid] ==> TreeOf(was, Contract(scid)) == TreeOf(now, Contract(scid)))
  }

  lemma {:induction false} MovedAt(was: Snap, now: Snap, w: Snap, n: Name)
    ensures TreeOf(Moved(was, now, w), n) == MovedTree(was, now, w, n)
  {
    hide Patched;
  }

  /** A store that agrees with the old snapshot comes to agree with the new one if and only if the metadata
      shows every change. */
  lemma {:induction false} MovedSame(was: Snap, now: Snap, w: Snap)
    requires Same(w, was) && Tidy(w)
    ensures Same(Moved(was, now, w), now) <==> MetaShows(was, now)
    ensures Same(Moved(was, now, w), now) ==> Tidy(Moved(was, now, w))
  {
    hide Patched, Moved;
    var m, m' := TreeOf(was, Meta), TreeOf(now, Meta);
    MovedAt(was, now, w, Balance);
    MovedAt(was, now, w, Meta);
    PatchedSame(TreeOf(was, Balance), TreeOf(now, Balance));
    PatchedSame(m, m');
    forall scid ensures ContractMoved(was, now, w, scid) {
      MovedContract(was, now, w, scid);
    }
    if forall scid :: scid in m ==> scid in m' {
      assert forall scid :: scid in m' ==> ContractMoved(was, now, w, scid);
      forall scid | scid !in m' ensures TreeOf(Moved(was, now, w), Contract(scid)) == map[] {
        assert ContractMoved(was, now, w, scid);
      }
    }
  }

  /** What becomes of one contract's data. */
  ghost predicate ContractMoved(was: Snap, now: Snap, w: Snap, scid: nat) {
    var m, m' := TreeOf(was, Meta), TreeOf(now, Meta);
    && (scid in m' ==> (TreeOf(Moved(was, now, w), Contract(scid)) == TreeOf(now, Contract(scid)) <==>
          !(scid in m && m[scid] == m'[scid] && TreeOf(was, Contract(scid)) != TreeOf(now, Contract(scid)))))
    && (scid !in m && scid !in m' ==> TreeOf(Moved(was, now, w), Contract(scid)) == map[])
  }

  lemma {:induction false} MovedContract(was: Snap, now: Snap, w: Snap, scid: nat)
    requires Same(w, was) && Tidy(w)
    ensures ContractMoved(was, now, w, scid)
  {
    hide Patched, Moved;
    var n := Contract(scid);
    MovedAt(was, now, w, n);
    PatchedSame(TreeOf(was, n), TreeOf(now, n));
    assert map[] + TreeOf(now, n) == TreeOf(now, n);
  }

  // ---------- the new store ----------

  /** The most recent snapshot. */
  function Latest(snaps: seq<Snap>): Snap {
    if snaps == [] then map[] else snaps[|snaps| - 1]
  }

  class WriteStore {
    var snaps: seq<Snap>

    constructor ()
      ensures snaps == []
    {
      snaps := [];
    }

    /** Commits trees on top of the snapshot they were taken from; version 0 stands for the most recent. */
    method Commit(trees: map<Name, Tree>, version: nat) returns (v: nat)
      requires version <= |snaps|
      modifies this
      ensures snaps == old(snaps) + [(if version == 0 then Latest(old(snaps)) else old(snaps)[version - 1]) + trees]
      ensures v == |snaps| > 0
      ensures version == 0 || version == old(|snaps|) ==> Latest(snaps) == Latest(old(snaps)) + trees
    {
      var base := if version == 0 then Latest(snaps) else snaps[version - 1];
      snaps := snaps + [base + trees];
      v := |snaps|;
    }

    /** Copies a tree, committing it in chunks. */
    method CopyTree(source: Tree, n: Name) returns (v: nat)
      requires n !in Latest(snaps)
      modifies this
      ensures v == |snaps| > 0 && Latest(snaps) == Latest(old(snaps))[n := source]
    {
      hide Latest, Taken;
      ghost var was := Latest(snaps);
      var tree: Tree := map[];
      var version, counter: nat := 0, 0;
      var rest := source.Keys;
      TakenNone(source);
      while rest != {}
        invariant rest <= source.Keys && tree == Taken(source, rest)
        invariant version == 0 || version == |snaps|
        invariant BasedOn(was, Latest(snaps), n)
        decreases |rest|
      {
        var k :| k in rest;
        if counter != 0 && counter % CHUNK_SIZE == 0 {
          Overlaid(was, Latest(snaps), n, tree);
          version := Commit(map[n := tree], version);
        }
        TakenStep(source, rest, k);
        tree := tree[k := source[k]];
        counter := counter + 1;
        rest := rest - {k};
      }
      TakenAll(source);
      Overlaid(was, Latest(snaps), n, tree);
      v := Commit(map[n := tree], version);
    }

    /** Copies one snapshot: balances, metadata, and the contracts that the metadata lists. */
    method CloneSnapshot(source: Snap) returns (v: nat)
      requires snaps == []
      modifies this
      ensures v == |snaps| > 0 && Same(Latest(snaps), source) && Tidy(Latest(snaps))
    {
      hide Same, Tidy, Cloned, Latest, Split;
      assert Latest(snaps) == map[] by { LatestOfNone(); }
      v := CopyTree(TreeOf(source, Balance), Balance);
      v := CopyTree(TreeOf(source, Meta), Meta);
      CloneStart(source, Latest(snaps));
      var scids := TreeOf(source, Meta).Keys;
      ghost var done: set<nat> := {};
      SplitStart(scids);
      while scids != {}
        invariant Split(TreeOf(source, Meta).Keys, done, scids)
        invariant v == |snaps| > 0 && Latest(snaps) == Cloned(source, done)
        decreases |scids|
      {
        var scid :| scid in scids;
        SplitStep(TreeOf(source, Meta).Keys, done, scids, scid);
        var tree := CopyEntries(TreeOf(source, Contract(scid)), map[]);
        CloneStep(source, done, scid);
        v := Commit(map[Contract(scid) := tree], 0);
        scids, done := scids - {scid}, done + {scid};
      }
      SplitEnd(TreeOf(source, Meta).Keys, done);
      CloneEnd(source);
    }

    /** Rebuilds the next snapshot from the changes, in one commit. */
    method DiffSnapshot(was: Snap, now: Snap) returns (v: nat)
      modifies this
      ensures v == |snaps| == old(|snaps|) + 1 && snaps == old(snaps) + [Moved(was, now, Latest(old(snaps)))]
    {
      hide *;
      var w := Latest(snaps);
      var balance, i0, m0 := ApplyDiff(TreeOf(was, Balance), TreeOf(now, Balance), TreeOf(w, Balance), true);
      var meta, inserted, modified := ApplyDiff(TreeOf(was, Meta), TreeOf(now, Meta), TreeOf(w, Meta), false);
      var trees: map<Name, Tree> := map[Balance := balance, Meta := meta];
      ghost var done: set<nat> := {};
      WriteStart(was, now, w, trees);
      SplitStart(inserted);
      var rest := inserted;
      while rest != {}
        invariant Split(inserted, done, rest) && trees == Written(was, now, w, done) && snaps == old(snaps)
        decreases |rest|
      {
        var scid :| scid in rest;
        SplitStep(inserted, done, rest, scid);
        var tree := CopyEntries(TreeOf(now, Contract(scid)), TreeOf(w, Contract(scid)));
        WriteNew(was, now, w, done, scid);
        trees := trees[Contract(scid) := tree];
        rest, done := rest - {scid}, done + {scid};
      }
      SplitEnd(inserted, done);
      CoverStart(inserted, modified);
      rest := modified;
      while rest != {}
        invariant Covers(inserted + modified, done, rest)
        invariant rest <= modified && trees == Written(was, now, w, done) && snaps == old(snaps)
        decreases |rest|
      {
        var scid :| scid in rest;
        var tree, i1, m1 := ApplyDiff(TreeOf(was, Contract(scid)), TreeOf(now, Contract(scid)), TreeOf(w, Contract(scid)), true);
        WriteModified(was, now, w, done, scid);
        trees := trees[Contract(scid) := tree];
        CoverStep(inserted + modified, done, rest, scid);
        rest, done := rest - {scid}, done + {scid};
      }
      CoverEnd(inserted + modified, done);
      WriteEnd(was, now, w);
      v := Commit(trees, 0);
    }
  }

  /** Puts all entries of a tree into another. */
  method CopyEntries(source: Tree, t0: Tree) returns (t: Tree)
    ensures t == t0 + source
  {
    hide Taken;
    t := t0;
    var rest := source.Keys;
    TakenNone(source);
    assert t0 + map[] == t0;
    while rest != {}
      invariant rest <= source.Keys && t == t0 + Taken(source, rest)
      decreases |rest|
    {
      var k :| k in rest;
      TakenStep(source, rest, k);
      AddOne(t0, Taken(source, rest), k, source[k]);
      t := t[k := source[k]];
      rest := rest - {k};
    }
    TakenAll(source);
  }

  lemma AddOne(a: Tree, b: Tree, k: nat, v: Bytes)
    ensures (a + b)[k := v] == a + b[k := v]
  {
  }

  /** The entries that have been visited. */
  function Taken(source: Tree, rest: set<nat>): Tree {
    map k | k in source && k !in rest :: source[k]
  }

  lemma TakenNone(source: Tree)
    ensures Taken(source, source.Keys) == map[]
  {
  }

  lemma TakenStep(source: Tree, rest: set<nat>, k: nat)
    requires k in rest && k in source
    ensures Taken(source, rest - {k}) == Taken(source, rest)[k := source[k]]
  {
  }

  lemma TakenAll(source: Tree)
    ensures Taken(source, {}) == source
  {
  }

  ghost predicate Covers(all: set<nat>, done: set<nat>, rest: set<nat>) {
    done + rest == all
  }

  lemma CoverStart(a: set<nat>, b: set<nat>)
    ensures Covers(a + b, a, b)
  {
  }

  lemma CoverStep(all: set<nat>, done: set<nat>, rest: set<nat>, x: nat)
    requires Covers(all, done, rest) && x in rest
    ensures Covers(all, done + {x}, rest - {x})
  {
  }

  lemma CoverEnd(all: set<nat>, done: set<nat>)
    requires Covers(all, done, {})
    ensures done == all
  {
  }

  lemma LatestOfNone()
    ensures Latest([]) == map[]
  {
  }

  /** Nothing but one tree was written over a snapshot. */
  ghost predicate BasedOn(was: Snap, latest: Snap, n: Name) {
    latest == was || (n in latest && latest == was[n := latest[n]])
  }

  lemma Overlaid(was: Snap, latest: Snap, n: Name, tree: Tree)
    requires BasedOn(was, latest, n)
    ensures latest + map[n := tree] == was[n := tree] && BasedOn(was, latest + map[n := tree], n)
  {
  }

  /** Balances, metadata, and the contracts copied so far. */
  function Cloned(source: Snap, done: set<nat>): Snap {
    map n | n in {Balance, Meta} + (set scid | scid in done :: Contract(scid)) :: TreeOf(source, n)
  }

  lemma CloneStart(source: Snap, latest: Snap)
    requires latest == map[][Balance := TreeOf(source, Balance)][Meta := TreeOf(source, Meta)]
    ensures latest == Cloned(source, {})
  {
  }

  lemma {:induction false} CloneStep(source: Snap, done: set<nat>, scid: nat)
    ensures Cloned(source, done) + map[Contract(scid) := map[] + TreeOf(source, Contract(scid))] == Cloned(source, done + {scid})
  {
    var tree := TreeOf(source, Contract(scid));
    assert map[] + tree == tree;
  }

  lemma CloneEnd(source: Snap)
    ensures Same(Cloned(source, TreeOf(source, Meta).Keys), source) && Tidy(Cloned(source, TreeOf(source, Meta).Keys))
  {
  }

  /** The trees to be committed: balances, metadata, and the contracts done so far. */
  function Written(was: Snap, now: Snap, w: Snap, done: set<nat>): map<Name, Tree> {
    map n | n in {Balance, Meta} + (set scid | scid in done :: Contract(scid)) :: MovedTree(was, now, w, n)
  }

  lemma WriteStart(was: Snap, now: Snap, w: Snap, trees: map<Name, Tree>)
    requires trees == map[Balance := Patched(TreeOf(was, Balance), TreeOf(now, Balance), TreeOf(w, Balance), true),
      Meta := Patched(TreeOf(was, Meta), TreeOf(now, Meta), TreeOf(w, Meta), false)]
    ensures trees == Written(was, now, w, {})
  {
    hide Patched;
  }

  lemma {:induction false} WriteStep(was: Snap, now: Snap, w: Snap, done: set<nat>, scid: nat)
    ensures Written(was, now, w, done)[Contract(scid) := MovedContractTree(was, now, w, scid)] == Written(was, now, w, done + {scid})
  {
    hide MovedContractTree, Patched;
  }

  lemma {:induction false} WriteNew(was: Snap, now: Snap, w: Snap, done: set<nat>, scid: nat)
    requires scid in Inserted(TreeOf(was, Meta), TreeOf(now, Meta))
    ensures Written(was, now, w, done)[Contract(scid) := TreeOf(w, Contract(scid)) + TreeOf(now, Contract(scid))] == Written(was, now, w, done + {scid})
  {
    hide Written, Patched;
    WriteStep(was, now, w, done, scid);
  }

  lemma {:induction false} WriteModified(was: Snap, now: Snap, w: Snap, done: set<nat>, scid: nat)
    requires scid in Modified(TreeOf(was, Meta), TreeOf(now, Meta))
    ensures var n := Contract(scid);
      Written(was, now, w, done)[n := Patched(TreeOf(was, n), TreeOf(now, n), TreeOf(w, n), true)] == Written(was, now, w, done + {scid})
  {
    hide Written, Patched;
    WriteStep(was, now, w, done, scid);
  }

  lemma {:induction false} WriteEnd(was: Snap, now: Snap, w: Snap)
    ensures w + Written(was, now, w, Inserted(TreeOf(was, Meta), TreeOf(now, Meta)) + Modified(TreeOf(was, Meta), TreeOf(now, Meta)))
      == Moved(was, now, w)
  {
    hide Patched, MovedTree, Written, Moved;
    var m, m' := TreeOf(was, Meta), TreeOf(now, Meta);
    var done := Inserted(m, m') + Modified(m, m');
    var a, b := w + Written(was, now, w, done), Moved(was, now, w);
    WrittenKeys(was, now, w, done);
    MovedKeys(was, now, w);
    forall n | n in w && n !in Written(was, now, w, done) ensures MovedTree(was, now, w, n) == w[n] {
      Untouched(was, now, w, n);
    }
    assert a.Keys == b.Keys;
  }

  lemma {:induction false} WrittenKeys(was: Snap, now: Snap, w: Snap, done: set<nat>)
    ensures forall n :: n in Written(was, now, w, done) <==> (n.Contract? ==> n.scid in done)
    ensures forall n :: n in Written(was, now, w, done) ==> Written(was, now, w, done)[n] == MovedTree(was, now, w, n)
  {
    hide MovedTree;
    var t := Written(was, now, w, done);
    forall n ensures n in t <==> (n.Contract? ==> n.scid in done) {
      if n.Contract? { assert n == Contract(n.scid); } else { assert n in {Balance, Meta}; }
    }
  }

  lemma {:induction false} MovedKeys(was: Snap, now: Snap, w: Snap)
    ensures forall n :: n in Moved(was, now, w) <==>
      n in w || (n.Contract? ==> n.scid in Inserted(TreeOf(was, Meta), TreeOf(now, Meta)) + Modified(TreeOf(was, Meta), TreeOf(now, Meta)))
    ensures forall n :: n in Moved(was, now, w) ==> Moved(was, now, w)[n] == MovedTree(was, now, w, n)
  {
    hide MovedTree;
    var t := Moved(was, now, w);
    var m, m' := TreeOf(was, Meta), TreeOf(now, Meta);
    forall n ensures n in t <==> n in w || (n.Contract? ==> n.scid in Inserted(m, m') + Modified(m, m')) {
      if n.Contract? {
        assert n == Contract(n.scid);
        assert n.scid in Inserted(m, m') + Modified(m, m') <==> n.scid in m' && Changed(m, m', n.scid);
      } else {
        assert n in {Balance, Meta};
      }
    }
  }

  lemma Untouched(was: Snap, now: Snap, w: Snap, n: Name)
    requires n in w && n.Contract?
    requires n.scid !in Inserted(TreeOf(was, Meta), TreeOf(now, Meta)) + Modified(TreeOf(was, Meta), TreeOf(now, Meta))
    ensures MovedTree(was, now, w, n) == w[n]
  {
    hide Patched;
  }

  // ---------- the whole store ----------

  /** Snapshot of a record in the old store. */
  function SnapAt(source: seq<Snap>, version: nat): Snap {
    if 1 <= version <= |source| then source[version - 1] else map[]
  }

  ghost predicate ShowsUpTo(file: seq<Rec>, source: seq<Snap>, p: nat, i: int) {
    p <= i < |file| && forall j {:trigger file[j + 1]} :: p <= j < i ==> MetaShows(SnapAt(source, file[j].version), SnapAt(source, file[j + 1].version))
  }

  /** The heights p..i have the same content in both stores. */
  ghost predicate SameUpTo(file: seq<Rec>, source: seq<Snap>, snaps: seq<Snap>, first: nat, p: nat, i: int) {
    p <= i < |file| && 1 <= first && first + i - p <= |snaps| &&
    forall j {:trigger file[j]} :: p <= j <= i ==> Same(snaps[first + j - p - 1], SnapAt(source, file[j].version))
  }

  /** One more height. */
  lemma {:induction false} OneMoreHeight(file: seq<Rec>, source: seq<Snap>, snaps: seq<Snap>, first: nat, p: nat, i: nat)
    requires p <= i < |file| - 1 && 1 <= first && first + i - p == |snaps|
    requires SameUpTo(file, source, snaps, first, p, i) <==> ShowsUpTo(file, source, p, i)
    requires SameUpTo(file, source, snaps, first, p, i) ==> Tidy(Latest(snaps))
    ensures var was, now := SnapAt(source, file[i].version), SnapAt(source, file[i + 1].version);
      var next := snaps + [Moved(was, now, Latest(snaps))];
      && (SameUpTo(file, source, next, first, p, i + 1) <==> ShowsUpTo(file, source, p, i + 1))
      && (SameUpTo(file, source, next, first, p, i + 1) ==> Tidy(Latest(next)))
  {
    hide Same, Tidy, MetaShows, Moved, SnapAt;
    var was, now := SnapAt(source, file[i].version), SnapAt(source, file[i + 1].version);
    var next := snaps + [Moved(was, now, Latest(snaps))];
    if SameUpTo(file, source, snaps, first, p, i) {
      assert Same(snaps[first + i - p - 1], SnapAt(source, file[i].version));
      MovedSame(was, now, Latest(snaps));
      assert forall j {:trigger file[j]} :: p <= j <= i ==> Same(next[first + j - p - 1], SnapAt(source, file[j].version));
      assert next[first + (i + 1) - p - 1] == Moved(was, now, Latest(snaps));
    } else {
      var j :| p <= j <= i && !Same(snaps[first + j - p - 1], SnapAt(source, file[j].version));
      assert next[first + j - p - 1] == snaps[first + j - p - 1];
      assert file[j] == file[j];
    }
  }

  /** The records after the rewriting: up to the prune height they share the first version, above it every
      record has its own; what lies above the top stays. */
  function Renumbered(file: seq<Rec>, first: nat, p: nat, top: nat): (r: seq<Rec>)
    ensures |r| == |file|
  {
    seq(|file|, i requires 0 <= i < |file| =>
      if i > top then file[i] else file[i].(version := if i <= p then first else first + i - p))
  }

  /** Rewrites the store from the prune height to the top. Every height in between keeps its content if and
      only if the metadata showed every change. */
  method RewriteStore(t: TopoStore, source: seq<Snap>, w: WriteStore, p: nat, top: nat) returns (first: nat)
    requires w.snaps == [] && p <= top < |t.file|
    modifies t`file, w
    ensures 1 <= first && |w.snaps| == first + top - p
    ensures t.file == Renumbered(old(t.file), first, p, top)
    ensures SameUpTo(old(t.file), source, w.snaps, first, p, top) <==> ShowsUpTo(old(t.file), source, p, top)
  {
    hide SameUpTo, ShowsUpTo, Same, Tidy, Moved, SnapAt, Renumbered;
    ghost var file := t.file;
    first := w.CloneSnapshot(SnapAt(source, t.file[p].version));
    FirstHeight(file, source, w.snaps, first, p);
    var versions: seq<nat> := [];
    var i := p;
    while i < top
      invariant p <= i <= top && t.file == file && 1 <= first && |w.snaps| == first + i - p
      invariant |versions| == i - p && forall j :: 0 <= j < |versions| ==> versions[j] == first + j + 1
      invariant SameUpTo(file, source, w.snaps, first, p, i) <==> ShowsUpTo(file, source, p, i)
      invariant SameUpTo(file, source, w.snaps, first, p, i) ==> Tidy(Latest(w.snaps))
    {
      OneMoreHeight(file, source, w.snaps, first, p, i);
      var v := w.DiffSnapshot(SnapAt(source, t.file[i].version), SnapAt(source, t.file[i + 1].version));
      versions := versions + [v];
      i := i + 1;
    }
    ghost var snaps := w.snaps;
    i := 0;
    while i < |versions|
      invariant 0 <= i <= |versions| && |t.file| == |file| && w.snaps == snaps
      invariant forall j :: 0 <= j < |file| ==> t.file[j] == if p < j <= p + i then file[j].(version := first + j - p) else file[j]
    {
      var r := t.file[p + i + 1];
      t.WriteRecord(p + i + 1, r.blid, versions[i], r.height);
      i := i + 1;
    }
    i := 0;
    while i <= p
      invariant 0 <= i <= p + 1 && |t.file| == |file| && w.snaps == snaps
      invariant forall j :: 0 <= j < |file| ==> t.file[j] == if j < i then file[j].(version := first) else if p < j <= top then file[j].(version := first + j - p) else file[j]
    {
      var r := t.file[i];
      t.WriteRecord(i, r.blid, first, r.height);
      i := i + 1;
    }
    RenumberedIs(file, first, p, top, t.file);
  }

  lemma FirstHeight(file: seq<Rec>, source: seq<Snap>, snaps: seq<Snap>, first: nat, p: nat)
    requires p < |file| && first == |snaps| > 0 && Same(Latest(snaps), SnapAt(source, file[p].version))
    ensures SameUpTo(file, source, snaps, first, p, p) && ShowsUpTo(file, source, p, p)
  {
    hide Same, SnapAt;
  }

  lemma RenumberedIs(file: seq<Rec>, first: nat, p: nat, top: nat, r: seq<Rec>)
    requires |r| == |file|
    requires forall j :: 0 <= j < |file| ==>
      r[j] == if j > top then file[j] else file[j].(version := if j <= p then first else first + j - p)
    ensures r == Renumbered(file, first, p, top)
  {
  }

  /** After the rewriting, the prune height is the last one that shares record 0's version, which is what
      locating it looks for. */
  lemma {:induction false} PruneHeightLocated(file: seq<Rec>, first: nat, p: nat, top: nat, k: int)
    requires 1 <= first && p < top < |file|
    ensures Monotone(Renumbered(file, first, p, top), top + 1)
    ensures LastOfVersion(Renumbered(file, first, p, top), top + 1, k) <==> k == p
  {
  }

  const KEPT := 50

  /** Prunes everything below height p. The top is the last record that is not clean; a chain that would keep
      fewer than 50 heights is left alone. */
  method PruneBlockchain(t: TopoStore, source: seq<Snap>, w: WriteStore, p: nat) returns (r: Option<nat>)
    requires w.snaps == []
    modifies t`file, w
    ensures r == None <==> Count(old(t.file)) - 1 - p < 50
    ensures r == None ==> t.file == old(t.file) && w.snaps == []
    ensures r.Some? ==>
      var top := Count(old(t.file)) - 1;
      && 1 <= r.value && t.file == Renumbered(old(t.file), r.value, p, top) && |w.snaps| == r.value + top - p
      && (SameUpTo(old(t.file), source, w.snaps, r.value, p, top) <==> ShowsUpTo(old(t.file), source, p, top))
  {
    hide SameUpTo, ShowsUpTo, Renumbered, Count;
    var top := t.CountRecords();
    while top >= 0
      invariant -1 <= top <= Count(t.file) && t.file == old(t.file)
      invariant forall i :: top < i < |t.file| ==> IsClean(t.file[i])
      decreases top
    {
      if top < |t.file| && !IsClean(t.file[top]) { break; }
      top := top - 1;
    }
    CountIs(t.file, top + 1);
    if top - p < KEPT { return None; }
    var first := RewriteStore(t, source, w, p, top);
    r := Some(first);
  }
}
