/**
 * Three parts of package log write files in one directory: the log its segments, the
 * consumer groups one commits file (log/group.go), and snapshots theirs (log/snapshot.go).
 * Each names its files in its own way, so that what one of them does to the disk is nothing
 * to the others but a directory sync.
 */
module Owners {
  import opened Wrappers
  import opened Bytes
  import opened Names
  import opened Disks

  datatype Owner = TheLog | TheCommits | TheSnapshots

  /** A name `o` may use. A file being written aside is its writer's alone until it is renamed. */
  predicate Belongs(o: Owner, name: string) {
    || Temporary(name)
    || match o
       case TheLog => ParseSegmentName(name).Some?
       case TheCommits => name == COMMITS_FILE
       case TheSnapshots => ParseSnapshotName(name).Some?
  }

  /** The same entries under `name`, visible and durable, leading to the same bytes. */
  ghost predicate SameFile(d: Disk, e: Disk, name: string) {
    && SameEntry(d.live, e.live, name) && SameEntry(d.durable, e.durable, name)
    && (name in d.live && d.live[name] < |d.inodes| && d.live[name] < |e.inodes| ==> e.inodes[d.live[name]] == d.inodes[d.live[name]])
    && (name in d.durable && d.durable[name] < |d.inodes| && d.durable[name] < |e.inodes| ==>
          e.inodes[d.durable[name]] == d.inodes[d.durable[name]])
  }

  /** Nothing but files of `o` is different, and no entry has become durable or stopped being. */
  ghost predicate Keeps(d: Disk, e: Disk, o: Owner) {
    && |d.inodes| <= |e.inodes| && e.durable == d.durable
    && forall name :: !Belongs(o, name) ==> SameFile(d, e, name)
  }

  /** One operation of `o`: on a file of its own, or a directory sync. */
  ghost predicate Minds(d: Disk, e: Disk, o: Owner) {
    e == DirSynced(d) || Keeps(d, e, o)
  }

  /** `q` goes on from `p` by operations of `o`. */
  ghost predicate Framed(p: seq<Disk>, q: seq<Disk>, o: Owner) {
    p != [] && p <= q && forall j :: |p| <= j < |q| ==> Minds(q[j - 1], q[j], o)
  }

  /** No entry but those of `o` leads to this file. */
  ghost predicate Private(d: Disk, node: nat, o: Owner) {
    && node < |d.inodes|
    && (forall name :: !Belongs(o, name) && name in d.live ==> d.live[name] != node)
    && (forall name :: !Belongs(o, name) && name in d.durable ==> d.durable[name] != node)
  }

  lemma SameKeeps(d: Disk, o: Owner)
    ensures Keeps(d, d, o) && Minds(d, d, o)
  {
    hide Belongs;
  }

  lemma CreatedKeeps(d: Disk, name: string, o: Owner)
    requires Sound(d) && Belongs(o, name)
    ensures Keeps(d, Created(d, name), o)
  {
    hide Belongs;
  }

  lemma RemovedKeeps(d: Disk, name: string, o: Owner)
    requires Belongs(o, name)
    ensures Keeps(d, Removed(d, name), o)
  {
    hide Belongs;
  }

  lemma RenamedKeeps(d: Disk, oldName: string, newName: string, o: Owner)
    requires oldName in d.live && Belongs(o, oldName) && Belongs(o, newName)
    ensures Keeps(d, Renamed(d, oldName, newName), o)
  {
    hide Belongs;
  }

  /** Changing the bytes of a file only `o` can reach. */
  lemma BytesKeep(d: Disk, node: nat, n: Inode, o: Owner)
    requires Private(d, node, o)
    ensures Keeps(d, d.(inodes := d.inodes[node := n]), o) && Private(d.(inodes := d.inodes[node := n]), node, o)
  {
    hide Belongs;
  }

  lemma FramedHere(p: seq<Disk>, o: Owner)
    requires p != []
    ensures Framed(p, p, o)
  {
  }

  lemma FramedStep(p: seq<Disk>, q: seq<Disk>, d: Disk, o: Owner)
    requires Framed(p, q, o) && Minds(q[|q| - 1], d, o)
    ensures Framed(p, q + [d], o)
  {
    hide Minds;
    var r := q + [d];
    forall j | |p| <= j < |r| ensures Minds(r[j - 1], r[j], o) {
      assert r[j - 1] == q[j - 1] && (j < |q| ==> r[j] == q[j]);
    }
  }

  lemma FramedThen(p: seq<Disk>, q: seq<Disk>, r: seq<Disk>, o: Owner)
    requires Framed(p, q, o) && Framed(q, r, o)
    ensures Framed(p, r, o)
  {
    hide Minds;
    forall j | |p| <= j < |r| ensures Minds(r[j - 1], r[j], o) {
      if j < |q| {
        assert r[j - 1] == q[j - 1] && r[j] == q[j];
      }
    }
  }

  /** Whoever owns a name, nobody else does. */
  lemma OneOwner(o: Owner, name: string)
    ensures ParseSegmentName(name).Some? ==> (Belongs(o, name) <==> o == TheLog)
    ensures ParseSnapshotName(name).Some? ==> (Belongs(o, name) <==> o == TheSnapshots)
    ensures Belongs(o, COMMITS_FILE) <==> o == TheCommits
  {
    hide ParseSegmentName, ParseSnapshotName, Temporary;
    KindsAreDistinct(0);
    if Temporary(name) {
      TemporaryIsNothingElse(name);
    }
    if ParseSnapshotName(name).Some? {
      NameOfParsedSnapshot(name);
      KindsAreDistinct(ParseSnapshotName(name).value);
    }
  }
}
