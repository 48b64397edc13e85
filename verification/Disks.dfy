/**
 * sim/fs.go: the crashable disk. There are two directories, the one programs see and the
 * one a power cut leaves; a file's bytes are likewise split into those written and those
 * synced, and an open handle outlives whatever happens to the name. The operations on
 * values come first; class FS performs them in place, and may refuse any of them the way
 * internal/devtools/harness/fs.go injects faults.
 */
module Disks {
  import opened Wrappers
  import opened Bytes
  import opened Names

  datatype Inode = Inode(data: bytes, durable: bytes)

  /** Inodes are numbered, and both directories name them by number. */
  datatype Disk = Disk(live: map<string, nat>, durable: map<string, nat>, inodes: seq<Inode>)

  const EMPTY: Disk := Disk(map[], map[], [])

  ghost predicate Directory(m: map<string, nat>, inodes: nat) {
    && (forall name :: name in m ==> m[name] < inodes)
    && (forall a, b :: a in m && b in m && m[a] == m[b] ==> a == b)
  }

  ghost predicate Sound(d: Disk) {
    Directory(d.live, |d.inodes|) && Directory(d.durable, |d.inodes|)
  }

  function Created(d: Disk, name: string): Disk {
    d.(live := d.live[name := |d.inodes|], inodes := d.inodes + [Inode([], [])])
  }

  function Removed(d: Disk, name: string): Disk {
    d.(live := d.live - {name})
  }

  function Renamed(d: Disk, oldName: string, newName: string): Disk
    requires oldName in d.live
  {
    if oldName == newName then d else d.(live := (d.live - {oldName})[newName := d.live[oldName]])
  }

  function DirSynced(d: Disk): Disk {
    d.(durable := d.live)
  }

  function Appended(d: Disk, node: nat, p: bytes): Disk
    requires node < |d.inodes|
  {
    d.(inodes := d.inodes[node := d.inodes[node].(data := d.inodes[node].data + p)])
  }

  function Truncated(d: Disk, node: nat, size: nat): Disk
    requires node < |d.inodes| && size <= |d.inodes[node].data|
  {
    d.(inodes := d.inodes[node := d.inodes[node].(data := d.inodes[node].data[..size])])
  }

  function FileSynced(d: Disk, node: nat): Disk
    requires node < |d.inodes|
  {
    d.(inodes := d.inodes[node := d.inodes[node].(durable := d.inodes[node].data)])
  }

  predicate SameEntry(a: map<string, nat>, b: map<string, nat>, name: string) {
    (name in a <==> name in b) && (name in a && name in b ==> a[name] == b[name])
  }

  /** How a power cut leaves bytes that were written and not synced. */
  datatype Shape = Reverted | Extended | Partial(percent: int)

  function Clamp(percent: int): nat {
    if percent < 0 then 0 else if percent > 100 then 100 else percent
  }

  function Kept(extra: nat, percent: int): (n: nat)
    ensures n <= extra
  {
    assert extra * Clamp(percent) <= extra * 100;
    extra * Clamp(percent) / 100
  }

  /** A file's bytes after the cut: what was synced, and whatever the shape leaves past it. */
  function Survives(n: Inode, shape: Shape): bytes {
    if |n.data| <= |n.durable| then n.durable else
    var extra := |n.data| - |n.durable|;
    match shape
    case Reverted => n.durable
    case Extended => n.durable + Zeros(extra)
    case Partial(percent) => n.durable + n.data[|n.durable|..|n.durable| + Kept(extra, percent)]
  }

  /** `a` is what a cut of this shape may leave of the file. */
  ghost predicate Leaves(n: Inode, shape: Shape, a: bytes) {
    var lost := if |n.data| > |n.durable| then |n.data| - |n.durable| else 0;
    && n.durable <= a
    && match shape
       case Reverted => |a| == |n.durable|
       case Extended => |a| == |n.durable| + lost && forall i :: |n.durable| <= i < |a| ==> a[i] == 0
       case Partial(percent) =>
         var k, part := |a| - |n.durable|, if percent <= 0 then 0 else if percent >= 100 then 100 else percent;
         && k <= lost && a[|n.durable|..] == n.data[|n.data| - lost..][..k]
         && 100 * k <= lost * part < 100 * k + 100
  }

  lemma SurvivesLeaves(n: Inode, shape: Shape)
    ensures Leaves(n, shape, Survives(n, shape))
  {
    var a := Survives(n, shape);
    if |n.data| > |n.durable| && shape.Partial? {
      var lost := |n.data| - |n.durable|;
      assert n.data[|n.durable|..][..Kept(lost, shape.percent)] == n.data[|n.durable|..|n.durable| + Kept(lost, shape.percent)];
    }
  }

  function CutInode(n: Inode, shape: Shape): Inode {
    n.(data := Survives(n, shape))
  }

  function PowerCut(d: Disk, shape: Shape): Disk {
    Disk(d.durable, d.durable,
         seq(|d.inodes|, i requires 0 <= i < |d.inodes| =>
           if i in d.durable.Values then CutInode(d.inodes[i], shape) else d.inodes[i]))
  }

  lemma OperationsAreSound(d: Disk, name: string, other: string)
    requires Sound(d)
    ensures Sound(Created(d, name)) && Sound(Removed(d, name)) && Sound(DirSynced(d))
    ensures name in d.live ==> Sound(Renamed(d, name, other))
  {
  }

  /**
   * A synced file outlives a power cut of any shape exactly when its directory entry
   * is durable: bytes alone are not enough.
   */
  lemma SyncedFileSurvives(d: Disk, name: string, shape: Shape)
    requires Sound(d) && name in d.live
    requires d.inodes[d.live[name]].data == d.inodes[d.live[name]].durable
    ensures var after := PowerCut(d, shape);
            (name in after.live && after.live[name] == d.live[name]) <==>
            (name in d.durable && d.durable[name] == d.live[name])
    ensures name in d.durable && d.durable[name] == d.live[name] ==>
              PowerCut(d, shape).inodes[d.live[name]] == d.inodes[d.live[name]]
  {
    if name in d.durable && d.durable[name] == d.live[name] {
      assert d.live[name] in d.durable.Values;
    }
  }

  datatype Fault = Exists | NotExists | Failed

  /** The pass over the durable entries that each of the three crashes makes. */
  method CutFiles(durable: map<string, nat>, before: seq<Inode>, shape: Shape)
    returns (live: map<string, nat>, after: seq<Inode>)
    requires Directory(durable, |before|)
    ensures live == durable
    ensures |after| == |before|
    ensures forall i :: 0 <= i < |after| ==>
              after[i] == if i in durable.Values then CutInode(before[i], shape) else before[i]
  {
    hide CutInode;
    live, after := map[], before;
    var names := durable.Keys;
    while names != {}
      invariant |after| == |before|
      invariant names <= durable.Keys && live.Keys == durable.Keys - names
      invariant forall name :: name in live ==> live[name] == durable[name]
      invariant forall name :: name in names ==> after[durable[name]] == before[durable[name]]
      invariant forall name :: name in live ==> after[durable[name]] == CutInode(before[durable[name]], shape)
      invariant forall i :: 0 <= i < |after| && i !in durable.Values ==> after[i] == before[i]
    {
      var name :| name in names;
      var node := durable[name];
      after := after[node := CutInode(after[node], shape)];
      live := live[name := node];
      names := names - {name};
    }
  }

  class FS {
    var live: map<string, nat>
    var durable: map<string, nat>
    var inodes: seq<Inode>

    /** Every state the disk has been in, one entry per operation. */
    ghost var past: seq<Disk>

    /** How many operations the disk has refused, or done only in part. */
    ghost var refused: nat

    ghost function View(): Disk
      reads this
    {
      Disk(live, durable, inodes)
    }

    ghost predicate Valid()
      reads this
    {
      Sound(View())
    }

    constructor ()
      ensures Valid() && View() == EMPTY && past == [EMPTY] && refused == 0
    {
      live, durable, inodes, past, refused := map[], map[], [], [EMPTY], 0;
    }

    method Create(name: string) returns (r: Result<nat, Fault>)
      requires Valid()
      modifies this
      ensures refused == old(refused) + if r == Err(Failed) then 1 else 0
      ensures Valid() && past == old(past) + [View()]
      ensures r == Err(Exists) <==> name in old(live)
      ensures r.Err? ==> r.error == Exists || r.error == Failed
      ensures match r
              case Ok(node) => node == |old(inodes)| && View() == Created(old(View()), name)
              case Err(_) => View() == old(View())
    {
      var fails: bool := *;
      if name in live {
        r := Err(Exists);
      } else if fails {
        r := Err(Failed);
        refused := refused + 1;
      } else {
        r := Ok(|inodes|);
        live := live[name := |inodes|];
        inodes := inodes + [Inode([], [])];
      }
      past := past + [View()];
    }

    method Open(name: string) returns (r: Result<nat, Fault>)
      requires Valid()
      modifies this`past, this`refused
      ensures refused == old(refused) + if r == Err(Failed) then 1 else 0
      ensures past == old(past) + [View()]
      ensures r == Err(NotExists) <==> name !in live
      ensures r.Err? ==> r.error == NotExists || r.error == Failed
      ensures r.Ok? ==> name in live && r.value == live[name] < |inodes|
    {
      var fails: bool := *;
      if name !in live {
        r := Err(NotExists);
      } else if fails {
        r := Err(Failed);
        refused := refused + 1;
      } else {
        r := Ok(live[name]);
      }
      past := past + [View()];
    }

    method Remove(name: string) returns (r: Result<(), Fault>)
      requires Valid()
      modifies this
      ensures refused == old(refused) + if r == Err(Failed) then 1 else 0
      ensures Valid() && past == old(past) + [View()]
      ensures r == Err(NotExists) <==> name !in old(live)
      ensures r.Err? ==> r.error == NotExists || r.error == Failed
      ensures View() == if r.Ok? then Removed(old(View()), name) else old(View())
    {
      var fails: bool := *;
      if name !in live {
        r := Err(NotExists);
      } else if fails {
        r := Err(Failed);
        refused := refused + 1;
      } else {
        r := Ok(());
        live := live - {name};
      }
      past := past + [View()];
    }

    method Rename(oldName: string, newName: string) returns (r: Result<(), Fault>)
      requires Valid()
      modifies this
      ensures refused == old(refused) + if r == Err(Failed) then 1 else 0
      ensures Valid() && past == old(past) + [View()]
      ensures r == Err(NotExists) <==> oldName !in old(live)
      ensures r.Err? ==> r.error == NotExists || r.error == Failed
      ensures r.Ok? ==> oldName in old(live) && View() == Renamed(old(View()), oldName, newName)
      ensures r.Err? ==> View() == old(View())
    {
      var fails: bool := *;
      if oldName !in live {
        r := Err(NotExists);
      } else if fails {
        r := Err(Failed);
        refused := refused + 1;
      } else {
        r := Ok(());
        if oldName != newName {
          var node := live[oldName];
          live := live - {oldName};
          live := live[newName := node];
        }
      }
      past := past + [View()];
    }

    /** The directory's entries become durable; no file's contents do. */
    method Sync() returns (ok: bool)
      requires Valid()
      modifies this
      ensures refused == old(refused) + if !ok then 1 else 0
      ensures Valid() && past == old(past) + [View()]
      ensures View() == if ok then DirSynced(old(View())) else old(View())
    {
      ok := *;
      if ok {
        durable := live;
      }
      past, refused := past + [View()], refused + if ok then 0 else 1;
    }

    /** Stores all of `p`, or a strict prefix of it and says so. */
    method Append(node: nat, p: bytes) returns (stored: nat, ok: bool)
      requires Valid() && node < |inodes|
      modifies this
      ensures refused == old(refused) + if !ok then 1 else 0
      ensures Valid() && past == old(past) + [View()]
      ensures stored <= |p| && (ok <==> stored == |p|)
      ensures View() == Appended(old(View()), node, p[..stored])
    {
      var limit: int := *;
      stored := if 0 <= limit < |p| then limit else |p|;
      ok := stored == |p|;
      inodes := inodes[node := inodes[node].(data := inodes[node].data + p[..stored])];
      past, refused := past + [View()], refused + if ok then 0 else 1;
    }

    /** Fills at most `n` bytes from `off`; fewer is the end of the file. */
    method ReadAt(node: nat, off: nat, n: nat) returns (p: bytes, eof: bool)
      requires node < |inodes|
      ensures eof <==> off + n > |inodes[node].data| && n > 0
      ensures !eof && n > 0 ==> p == inodes[node].data[off..off + n]
      ensures |p| <= n && (n == 0 ==> p == [])
    {
      var data := inodes[node].data;
      if off >= |data| {
        return [], n > 0;
      }
      if off + n <= |data| {
        p, eof := data[off..off + n], false;
      } else {
        p, eof := data[off..], true;
      }
    }

    method Truncate(node: nat, size: nat) returns (ok: bool)
      requires Valid() && node < |inodes|
      modifies this
      ensures refused == old(refused) + if !ok then 1 else 0
      ensures Valid() && past == old(past) + [View()]
      ensures ok ==> size <= |old(inodes)[node].data| && View() == Truncated(old(View()), node, size)
      ensures !ok ==> View() == old(View())
    {
      ok := *;
      ok := ok && size <= |inodes[node].data|;
      if ok {
        inodes := inodes[node := inodes[node].(data := inodes[node].data[..size])];
      }
      past, refused := past + [View()], refused + if ok then 0 else 1;
    }

    method SyncFile(node: nat) returns (ok: bool)
      requires Valid() && node < |inodes|
      modifies this
      ensures refused == old(refused) + if !ok then 1 else 0
      ensures Valid() && past == old(past) + [View()]
      ensures View() == if ok then FileSynced(old(View()), node) else old(View())
    {
      ok := *;
      if ok {
        inodes := inodes[node := inodes[node].(durable := inodes[node].data)];
      }
      past, refused := past + [View()], refused + if ok then 0 else 1;
    }

    /** `Crash`, `CrashExtend` and `CrashTorn`. */
    method Cut(shape: Shape)
      requires Valid()
      modifies this
      ensures Valid() && past == old(past) + [View()]
      ensures View() == PowerCut(old(View()), shape) && refused == old(refused)
      ensures live == durable == old(durable)
      ensures forall name :: name in live ==>
                var before, now := old(inodes)[live[name]], inodes[live[name]];
                now.durable == before.durable && Leaves(before, shape, now.data)
    {
      hide Survives, Leaves;
      forall n ensures Leaves(n, shape, Survives(n, shape)) {
        SurvivesLeaves(n, shape);
      }
      live, inodes := CutFiles(durable, inodes, shape);
      past := past + [View()];
    }

    /** The file names, in listing order. */
    method List() returns (names: seq<string>)
      ensures forall name :: name in names <==> name in live
      ensures Sorted(names)
    {
      names := [];
      var rest := live.Keys;
      while rest != {}
        invariant rest <= live.Keys
        invariant forall name :: name in names <==> name in live && name !in rest
        invariant Sorted(names)
      {
        var name :| name in rest;
        names := Insert(names, name);
        rest := rest - {name};
      }
    }
  }

  /** Strictly in listing order, so no name twice. */
  ghost predicate Sorted(names: seq<string>) {
    forall i, j :: 0 <= i < j < |names| ==> Before(names[i], names[j])
  }

  method Insert(names: seq<string>, name: string) returns (r: seq<string>)
    requires Sorted(names) && name !in names
    ensures Sorted(r)
    ensures forall n :: n in r <==> n in names || n == name
  {
    var i := 0;
    while i < |names| && Before(names[i], name)
      invariant i <= |names|
      invariant forall j :: 0 <= j < i ==> Before(names[j], name)
    {
      i := i + 1;
    }
    r := names[..i] + [name] + names[i..];
    forall j | i <= j < |names| ensures Before(name, names[j]) {
      BeforeIsTotal(name, names[i]);
      if j > i {
        BeforeIsTransitive(name, names[i], names[j]);
      }
    }
  }

  lemma {:induction false} BeforeIsTotal(s: string, t: string)
    ensures s == t || Before(s, t) || Before(t, s)
    decreases |s|
  {
    if s != "" && t != "" {
      BeforeIsTotal(s[1..], t[1..]);
      assert s == [s[0]] + s[1..] && t == [t[0]] + t[1..];
    }
  }

  lemma {:induction false} BeforeIsTransitive(s: string, t: string, u: string)
    requires Before(s, t) && Before(t, u)
    ensures Before(s, u)
    decreases |s|
  {
    if s != "" && s[0] == t[0] == u[0] {
      BeforeIsTransitive(s[1..], t[1..], u[1..]);
    }
  }
}
