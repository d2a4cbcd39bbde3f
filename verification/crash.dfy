/** The pack directory under crashes. A file's bytes survive a crash only if they were synced;
    each name independently keeps any binding it had since the directory was last synced. Temporary
    names are numbers, which a later life of the program may use again. */
module CrashSafety {
  import opened Octets
  import opened Objects
  import opened Pack
  import opened StoreSpec
  import opened StoreInv
  import opened StorePacks

  // ---- the file system -------------------------------------------------------------------

  datatype File = PackFile(name: Id) | IndexFile(name: Id) | TempFile(n: nat)
  datatype Inode = Inode(bytes: Bytes, synced: bool)
  type Names = map<File, nat>

  /** The namespaces since the last directory sync, the current one last. */
  datatype Fs = Fs(past: seq<Names>, inodes: map<nat, Inode>)

  /** `Create` truncates the file that has the name, or makes a new one. */
  datatype Effect =
    | Create(f: File, inode: nat)
    | Write(f: File, bytes: Bytes)
    | SyncFile(f: File)
    | Rename(from: File, to: File)
    | Unlink(f: File)
    | SyncDir

  ghost predicate FsOk(fs: Fs) { fs.past != [] }

  ghost function Live(fs: Fs): Names
    requires FsOk(fs)
  {
    fs.past[|fs.past| - 1]
  }

  ghost function Apply(fs: Fs, e: Effect): (fs1: Fs)
    requires FsOk(fs)
    ensures FsOk(fs1)
  {
    match e
    case Create(f, i) =>
      if f in Live(fs) then fs.(inodes := fs.inodes[Live(fs)[f] := Inode([], false)])
      else Fs(fs.past + [Live(fs)[f := i]], fs.inodes[i := Inode([], false)])
    case Write(f, b) => if f in Live(fs) then fs.(inodes := fs.inodes[Live(fs)[f] := Inode(b, false)]) else fs
    case SyncFile(f) =>
      if f in Live(fs) && Live(fs)[f] in fs.inodes
      then fs.(inodes := fs.inodes[Live(fs)[f] := fs.inodes[Live(fs)[f]].(synced := true)]) else fs
    case Rename(f, t) =>
      if f in Live(fs) then fs.(past := fs.past + [(Live(fs) - {f})[t := Live(fs)[f]]]) else fs
    case Unlink(f) => fs.(past := fs.past + [Live(fs) - {f}])
    case SyncDir => fs.(past := [Live(fs)])
  }

  ghost function ApplyAll(fs: Fs, es: seq<Effect>): (fs1: Fs)
    requires FsOk(fs)
    ensures FsOk(fs1)
    decreases |es|
  {
    if es == [] then fs else ApplyAll(Apply(fs, es[0]), es[1..])
  }

  ghost function Binding(ns: Names, f: File): Option<nat> { if f in ns then Some(ns[f]) else None }

  /** The name has a binding it had in one of the namespaces. */
  ghost predicate FallsBack(past: seq<Names>, ns: Names, f: File) {
    exists i :: 0 <= i < |past| && Binding(ns, f) == Binding(past[i], f)
  }

  /** A namespace and file contents a crash may leave. */
  ghost predicate CrashLeaves(fs: Fs, ns: Names, content: map<nat, Bytes>) {
    && (forall f :: FallsBack(fs.past, ns, f))
    && content.Keys == fs.inodes.Keys
    && (forall k :: k in fs.inodes && fs.inodes[k].synced ==> content[k] == fs.inodes[k].bytes)
  }

  /** What was written and not synced may be anything after a crash; what was synced is there. */
  lemma OnlySyncedIsKept(fs: Fs, ns: Names, content: map<nat, Bytes>, k: nat, b: Bytes)
    requires CrashLeaves(fs, ns, content) && k in fs.inodes
    ensures CrashLeaves(fs, ns, content[k := b]) <==> !fs.inodes[k].synced || b == fs.inodes[k].bytes
  {
  }

  function PackNames(ns: Names): set<Id> { set f | f in ns && f.PackFile? :: f.name }
  function IndexNames(ns: Names): set<Id> { set f | f in ns && f.IndexFile? :: f.name }

  /** What a restart finds in the directory. */
  ghost function Found(ns: Names, content: map<nat, Bytes>): Disk {
    Disk(map[], map[],
         map name | name in PackNames(ns) && ns[PackFile(name)] in content :: content[ns[PackFile(name)]],
         map name | name in IndexNames(ns) && ns[IndexFile(name)] in content :: content[ns[IndexFile(name)]])
  }

  // ---- the program's steps ------------------------------------------------------------------

  datatype PackOp = WriteOp(items: seq<Item>) | RemoveOp(name: Id)

  /** `atomic_write_durable`: temp file `t` (inode `n` if it is new), write, sync, rename, sync directory. */
  function AtomicWrite(n: nat, t: nat, f: File, b: Bytes): seq<Effect> {
    [Create(TempFile(t), n), Write(TempFile(t), b), SyncFile(TempFile(t)), Rename(TempFile(t), f), SyncDir]
  }

  /** The pack before its index; on removal the pack first, and no sync. */
  function Steps(p: Prims, op: PackOp, n: nat, t: nat): seq<Effect> {
    match op
    case WriteOp(items) =>
      var name := p.hash(PackBytes(p, items));
      AtomicWrite(n, t, PackFile(name), PackBytes(p, items))
      + AtomicWrite(n + 1, t + 1, IndexFile(name), PackIndex(p, items))
    case RemoveOp(name) => [Unlink(PackFile(name)), Unlink(IndexFile(name))]
  }

  function AllSteps(p: Prims, ops: seq<PackOp>, n: nat, t: nat): seq<Effect> {
    if ops == [] then [] else Steps(p, ops[0], n, t) + AllSteps(p, ops[1..], n + 2, t + 2)
  }

  // ---- the invariant ----------------------------------------------------------------------------

  ghost predicate ContentOk(w: World, f: File, b: Bytes) {
    match f
    case PackFile(name) => PackFileOk(w, name, b)
    case IndexFile(name) => IndexFileOk(w, name, b)
    case TempFile(_) => true
  }

  /** Files are numbered below `n`, and every pack or index name is bound only to synced, right contents. */
  ghost predicate NamesOk(w: World, inodes: map<nat, Inode>, ns: Names, n: nat) {
    forall f {:trigger ns[f]} :: f in ns ==>
      ns[f] < n && (!f.TempFile? ==> ns[f] in inodes && inodes[ns[f]].synced && ContentOk(w, f, inodes[ns[f]].bytes))
  }

  /** No temporary name from `t` on shares its file with another name. */
  ghost predicate Apart(ms: Names, ns: Names, t: nat) {
    forall u, g {:trigger TempFile(u) in ms, g in ns} ::
      t <= u && TempFile(u) in ms && g in ns && g != TempFile(u) ==> ms[TempFile(u)] != ns[g]
  }

  ghost predicate AllApart(past: seq<Names>, t: nat) {
    forall i, j {:trigger Apart(past[i], past[j], t)} ::
      0 <= i < |past| && 0 <= j < |past| ==> Apart(past[i], past[j], t)
  }

  ghost predicate AllNamesOk(w: World, fs: Fs, n: nat) {
    forall i {:trigger NamesOk(w, fs.inodes, fs.past[i], n)} ::
      0 <= i < |fs.past| ==> NamesOk(w, fs.inodes, fs.past[i], n)
  }

  ghost predicate Sound(w: World, fs: Fs, n: nat, t: nat) {
    FsOk(fs) && AllApart(fs.past, t) && AllNamesOk(w, fs, n)
  }

  /** A crash in a sound state leaves a sound directory. */
  lemma CrashLeavesSound(w: World, fs: Fs, n: nat, ns: Names, content: map<nat, Bytes>)
    requires AllNamesOk(w, fs, n) && CrashLeaves(fs, ns, content)
    ensures DirOk(w, Found(ns, content).packs, Found(ns, content).idxs)
  {
    var d := Found(ns, content);
    forall name | name in d.packs ensures PackFileOk(w, name, d.packs[name]) {
      BoundRight(w, fs, n, ns, content, PackFile(name));
    }
    forall name | name in d.idxs ensures IndexFileOk(w, name, d.idxs[name]) {
      BoundRight(w, fs, n, ns, content, IndexFile(name));
    }
  }

  lemma BoundRight(w: World, fs: Fs, n: nat, ns: Names, content: map<nat, Bytes>, f: File)
    requires AllNamesOk(w, fs, n) && CrashLeaves(fs, ns, content) && f in ns
    ensures ns[f] < n && (!f.TempFile? ==> ns[f] in content && ContentOk(w, f, content[ns[f]]))
  {
    assert FallsBack(fs.past, ns, f);
    var i :| 0 <= i < |fs.past| && Binding(ns, f) == Binding(fs.past[i], f);
    assert NamesOk(w, fs.inodes, fs.past[i], n);
    assert f in fs.past[i] && fs.past[i][f] == ns[f];
  }

  // ---- each effect ---------------------------------------------------------------------------------

  /** One more namespace. */
  lemma OneMoreNamespace(w: World, fs: Fs, n: nat, t: nat, inodes: map<nat, Inode>, ns: Names)
    requires Sound(w, fs.(inodes := inodes), n, t) && NamesOk(w, inodes, ns, n) && Apart(ns, ns, t)
    requires forall i :: 0 <= i < |fs.past| ==> Apart(fs.past[i], ns, t) && Apart(ns, fs.past[i], t)
    ensures Sound(w, Fs(fs.past + [ns], inodes), n, t)
  {
    var past := fs.past + [ns];
    forall i, j | 0 <= i < |past| && 0 <= j < |past| ensures Apart(past[i], past[j], t) {
      if i < |fs.past| && j < |fs.past| { assert Apart(fs.past[i], fs.past[j], t); }
    }
    forall i | 0 <= i < |past| ensures NamesOk(w, inodes, past[i], n) {
      if i < |fs.past| { assert NamesOk(w, inodes, fs.past[i], n); }
    }
  }

  /** Changing a file that no pack's or index's name has. */
  lemma FileKeeps(w: World, fs: Fs, n: nat, h: nat, node: Inode)
    requires AllNamesOk(w, fs, n)
    requires forall i, f :: 0 <= i < |fs.past| && f in fs.past[i] && !f.TempFile? ==> fs.past[i][f] != h
    ensures AllNamesOk(w, fs.(inodes := fs.inodes[h := node]), n)
  {
    forall i | 0 <= i < |fs.past| ensures NamesOk(w, fs.inodes[h := node], fs.past[i], n) {
      assert NamesOk(w, fs.inodes, fs.past[i], n);
    }
  }

  /** The file of temporary name `t` is no pack's and no index's, now or after a crash. */
  lemma TempFileApart(w: World, fs: Fs, n: nat, t: nat)
    requires Sound(w, fs, n, t) && TempFile(t) in Live(fs)
    ensures forall i, f :: 0 <= i < |fs.past| && f in fs.past[i] && !f.TempFile? ==>
      fs.past[i][f] != Live(fs)[TempFile(t)]
  {
    forall i, f | 0 <= i < |fs.past| && f in fs.past[i] && !f.TempFile?
      ensures fs.past[i][f] != Live(fs)[TempFile(t)]
    {
      assert Apart(fs.past[|fs.past| - 1], fs.past[i], t);
    }
  }

  lemma CreateKeeps(w: World, fs: Fs, n: nat, t: nat)
    requires Sound(w, fs, n, t)
    ensures var fs1 := Apply(fs, Create(TempFile(t), n));
      Sound(w, fs1, n + 1, t) && TempFile(t) in Live(fs1)
  {
    SoundLater(w, fs, n, t, n + 1, t);
    if TempFile(t) in Live(fs) {
      TempFileApart(w, fs, n, t);
      FileKeeps(w, fs, n + 1, Live(fs)[TempFile(t)], Inode([], false));
    } else {
      NewName(w, fs, n, t);
    }
  }

  lemma NewName(w: World, fs: Fs, n: nat, t: nat)
    requires Sound(w, fs, n, t) && TempFile(t) !in Live(fs)
    ensures Sound(w, Fs(fs.past + [Live(fs)[TempFile(t) := n]], fs.inodes[n := Inode([], false)]), n + 1, t)
  {
    var ns, inodes := Live(fs)[TempFile(t) := n], fs.inodes[n := Inode([], false)];
    SoundLater(w, fs, n, t, n + 1, t);
    forall i, f | 0 <= i < |fs.past| && f in fs.past[i] && !f.TempFile? ensures fs.past[i][f] != n {
      assert NamesOk(w, fs.inodes, fs.past[i], n);
    }
    FileKeeps(w, fs, n + 1, n, Inode([], false));
    var last := |fs.past| - 1;
    assert NamesOk(w, fs.inodes, fs.past[last], n) && NamesOk(w, inodes, fs.past[last], n + 1);
    forall i | 0 <= i < |fs.past| ensures Apart(fs.past[i], ns, t) && Apart(ns, fs.past[i], t) {
      assert NamesOk(w, fs.inodes, fs.past[i], n);
      assert Apart(fs.past[i], fs.past[last], t) && Apart(fs.past[last], fs.past[i], t);
    }
    assert Apart(fs.past[last], fs.past[last], t);
    OneMoreNamespace(w, fs, n + 1, t, inodes, ns);
  }

  /** Writing or syncing the temporary file. */
  lemma TempKeeps(w: World, fs: Fs, n: nat, t: nat, node: Inode)
    requires Sound(w, fs, n, t) && TempFile(t) in Live(fs)
    ensures Sound(w, fs.(inodes := fs.inodes[Live(fs)[TempFile(t)] := node]), n, t)
  {
    TempFileApart(w, fs, n, t);
    FileKeeps(w, fs, n, Live(fs)[TempFile(t)], node);
  }

  lemma PublishKeeps(w: World, fs: Fs, n: nat, t: nat, f: File)
    requires Sound(w, fs, n, t) && !f.TempFile? && TempFile(t) in Live(fs)
    requires var h := Live(fs)[TempFile(t)];
      h in fs.inodes && fs.inodes[h].synced && ContentOk(w, f, fs.inodes[h].bytes)
    ensures Sound(w, Apply(fs, Rename(TempFile(t), f)), n, t + 1)
  {
    var last := |fs.past| - 1;
    SoundLater(w, fs, n, t, n, t + 1);
    RenamedNames(w, fs.inodes, Live(fs), n, t, f);
    forall i | 0 <= i < |fs.past|
      ensures Apart(fs.past[i], Renamed(Live(fs), t, f), t + 1) && Apart(Renamed(Live(fs), t, f), fs.past[i], t + 1)
    {
      assert Apart(fs.past[i], fs.past[last], t) && Apart(fs.past[last], fs.past[i], t);
      RenamedApart(fs.past[i], Live(fs), t, f);
    }
    assert Apart(fs.past[last], fs.past[last], t);
    RenamedSelf(Live(fs), t, f);
    OneMoreNamespace(w, fs, n, t + 1, fs.inodes, Renamed(Live(fs), t, f));
  }

  /** The temporary file under its final name. */
  function Renamed(ns: Names, t: nat, f: File): Names
    requires TempFile(t) in ns
  {
    (ns - {TempFile(t)})[f := ns[TempFile(t)]]
  }

  lemma RenamedNames(w: World, inodes: map<nat, Inode>, ns: Names, n: nat, t: nat, f: File)
    requires NamesOk(w, inodes, ns, n) && TempFile(t) in ns && !f.TempFile?
    requires var h := ns[TempFile(t)]; h in inodes && inodes[h].synced && ContentOk(w, f, inodes[h].bytes)
    ensures NamesOk(w, inodes, Renamed(ns, t, f), n)
  {
  }

  lemma RenamedApart(ms: Names, ns: Names, t: nat, f: File)
    requires Apart(ms, ns, t) && Apart(ns, ms, t) && TempFile(t) in ns && !f.TempFile?
    ensures Apart(ms, Renamed(ns, t, f), t + 1) && Apart(Renamed(ns, t, f), ms, t + 1)
  {
  }

  lemma RenamedSelf(ns: Names, t: nat, f: File)
    requires Apart(ns, ns, t) && TempFile(t) in ns && !f.TempFile?
    ensures Apart(Renamed(ns, t, f), Renamed(ns, t, f), t + 1)
  {
  }

  lemma UnlinkKeeps(w: World, fs: Fs, n: nat, t: nat, f: File)
    requires Sound(w, fs, n, t)
    ensures Sound(w, Apply(fs, Unlink(f)), n, t)
  {
    var last := |fs.past| - 1;
    assert NamesOk(w, fs.inodes, fs.past[last], n);
    forall i | 0 <= i < |fs.past| ensures Apart(fs.past[i], Live(fs) - {f}, t) && Apart(Live(fs) - {f}, fs.past[i], t) {
      assert Apart(fs.past[i], fs.past[last], t) && Apart(fs.past[last], fs.past[i], t);
    }
    assert Apart(fs.past[last], fs.past[last], t);
    OneMoreNamespace(w, fs, n, t, fs.inodes, Live(fs) - {f});
  }

  lemma SyncDirKeeps(w: World, fs: Fs, n: nat, t: nat)
    requires Sound(w, fs, n, t)
    ensures Sound(w, Apply(fs, SyncDir), n, t)
  {
    var last := |fs.past| - 1;
    assert NamesOk(w, fs.inodes, fs.past[last], n) && Apart(fs.past[last], fs.past[last], t);
  }

  lemma SoundLater(w: World, fs: Fs, n: nat, t: nat, m: nat, u: nat)
    requires Sound(w, fs, n, t) && n <= m && t <= u
    ensures Sound(w, fs, m, u)
  {
    forall i | 0 <= i < |fs.past| ensures NamesOk(w, fs.inodes, fs.past[i], m) {
      assert NamesOk(w, fs.inodes, fs.past[i], n);
    }
    forall i, j | 0 <= i < |fs.past| && 0 <= j < |fs.past| ensures Apart(fs.past[i], fs.past[j], u) {
      assert Apart(fs.past[i], fs.past[j], t);
    }
  }

  // ---- every prefix of every operation ----------------------------------------------------------------

  lemma {:induction false} ApplyConcat(fs: Fs, xs: seq<Effect>, ys: seq<Effect>)
    requires FsOk(fs)
    ensures ApplyAll(fs, xs + ys) == ApplyAll(ApplyAll(fs, xs), ys)
    decreases |xs|
  {
    if xs == [] {
      assert xs + ys == ys;
    } else {
      assert (xs + ys)[1..] == xs[1..] + ys;
      ApplyConcat(Apply(fs, xs[0]), xs[1..], ys);
    }
  }

  lemma {:induction false} ApplyOne(fs: Fs, xs: seq<Effect>, k: nat)
    requires FsOk(fs) && k < |xs|
    ensures ApplyAll(fs, xs[..k + 1]) == Apply(ApplyAll(fs, xs[..k]), xs[k])
  {
    assert xs[..k + 1] == xs[..k] + [xs[k]];
    ApplyConcat(fs, xs[..k], [xs[k]]);
  }

  /** The temporary file after `k` effects of an atomic write. */
  ghost predicate TempAt(fs: Fs, t: nat, b: Bytes, k: nat) {
    && FsOk(fs)
    && (1 <= k <= 3 ==> TempFile(t) in Live(fs))
    && (2 <= k <= 3 ==> Live(fs)[TempFile(t)] in fs.inodes && fs.inodes[Live(fs)[TempFile(t)]] == Inode(b, k == 3))
  }

  /** Where an atomic write of `b` stands after `k` of its effects. */
  ghost predicate Phase(w: World, fs: Fs, n: nat, t: nat, b: Bytes, k: nat) {
    Sound(w, fs, n + 1, if k < 4 then t else t + 1) && TempAt(fs, t, b, k)
  }

  lemma PhaseStep(w: World, fs: Fs, n: nat, t: nat, f: File, b: Bytes, k: nat)
    requires 0 < k < 5 && Phase(w, fs, n, t, b, k) && !f.TempFile? && ContentOk(w, f, b)
    ensures Phase(w, Apply(fs, AtomicWrite(n, t, f, b)[k]), n, t, b, k + 1)
  {
    match k
    case 1 => TempKeeps(w, fs, n + 1, t, Inode(b, false));
    case 2 => TempKeeps(w, fs, n + 1, t, Inode(b, true));
    case 3 => PublishKeeps(w, fs, n + 1, t, f);
    case 4 => SyncDirKeeps(w, fs, n + 1, t + 1);
  }

  /** Stopping an atomic write anywhere leaves a sound directory. */
  lemma {:induction false} AtomicWriteKeeps(w: World, fs: Fs, n: nat, t: nat, f: File, b: Bytes, k: nat)
    requires Sound(w, fs, n, t) && !f.TempFile? && ContentOk(w, f, b) && k <= 5
    ensures k > 0 ==> Phase(w, ApplyAll(fs, AtomicWrite(n, t, f, b)[..k]), n, t, b, k)
    ensures Sound(w, ApplyAll(fs, AtomicWrite(n, t, f, b)[..k]), n + 1, t + 1)
    decreases k
  {
    if k > 0 {
      AtomicWriteKeeps(w, fs, n, t, f, b, k - 1);
      ApplyOne(fs, AtomicWrite(n, t, f, b), k - 1);
      if k == 1 {
        CreateKeeps(w, fs, n, t);
      } else {
        PhaseStep(w, ApplyAll(fs, AtomicWrite(n, t, f, b)[..k - 1]), n, t, f, b, k - 1);
      }
      if k < 4 { SoundLater(w, ApplyAll(fs, AtomicWrite(n, t, f, b)[..k]), n + 1, t, n + 1, t + 1); }
    } else {
      SoundLater(w, fs, n, t, n + 1, t + 1);
    }
  }

  ghost predicate OpOk(w: World, op: PackOp) { op.WriteOp? ==> ItemsOk(w, op.items) }

  ghost predicate OpsOk(w: World, ops: seq<PackOp>) { forall i :: 0 <= i < |ops| ==> OpOk(w, ops[i]) }

  lemma {:induction false} StepsKeep(w: World, fs: Fs, op: PackOp, n: nat, t: nat, k: nat)
    requires Sound(w, fs, n, t) && OpOk(w, op) && k <= |Steps(w.p, op, n, t)|
    ensures Sound(w, ApplyAll(fs, Steps(w.p, op, n, t)[..k]), n + 2, t + 2)
  {
    match op
    case WriteOp(items) => WriteStepsKeep(w, fs, items, n, t, k);
    case RemoveOp(name) =>
      var es := Steps(w.p, op, n, t);
      UnlinkKeeps(w, fs, n, t, PackFile(name));
      UnlinkKeeps(w, Apply(fs, es[0]), n, t, IndexFile(name));
      ApplyOne(fs, es, 0);
      ApplyOne(fs, es, 1);
      assert ApplyAll(fs, es[..k]) == [fs, Apply(fs, es[0]), Apply(Apply(fs, es[0]), es[1])][k];
      SoundLater(w, ApplyAll(fs, es[..k]), n, t, n + 2, t + 2);
  }

  lemma {:induction false} WriteStepsKeep(w: World, fs: Fs, items: seq<Item>, n: nat, t: nat, k: nat)
    requires Sound(w, fs, n, t) && ItemsOk(w, items) && k <= 10
    ensures |Steps(w.p, WriteOp(items), n, t)| == 10
    ensures Sound(w, ApplyAll(fs, Steps(w.p, WriteOp(items), n, t)[..k]), n + 2, t + 2)
  {
    var name, es := w.p.hash(PackBytes(w.p, items)), Steps(w.p, WriteOp(items), n, t);
    var first := AtomicWrite(n, t, PackFile(name), PackBytes(w.p, items));
    var second := AtomicWrite(n + 1, t + 1, IndexFile(name), PackIndex(w.p, items));
    assert ContentOk(w, PackFile(name), PackBytes(w.p, items));
    assert ContentOk(w, IndexFile(name), PackIndex(w.p, items));
    if k <= 5 {
      assert es[..k] == first[..k];
      AtomicWriteKeeps(w, fs, n, t, PackFile(name), PackBytes(w.p, items), k);
      SoundLater(w, ApplyAll(fs, es[..k]), n + 1, t + 1, n + 2, t + 2);
    } else {
      assert es[..k] == first + second[..k - 5];
      assert first[..5] == first;
      AtomicWriteKeeps(w, fs, n, t, PackFile(name), PackBytes(w.p, items), 5);
      AtomicWriteKeeps(w, ApplyAll(fs, first), n + 1, t + 1, IndexFile(name), PackIndex(w.p, items), k - 5);
      ApplyConcat(fs, first, second[..k - 5]);
    }
  }

  lemma CutWithin(xs: seq<Effect>, ys: seq<Effect>, k: nat)
    requires k <= |xs|
    ensures (xs + ys)[..k] == xs[..k]
  {
  }

  lemma CutAfter(xs: seq<Effect>, ys: seq<Effect>, k: nat)
    requires |xs| <= k <= |xs + ys|
    ensures (xs + ys)[..k] == xs + ys[..k - |xs|]
  {
  }

  lemma {:induction false} StepsDone(w: World, fs: Fs, op: PackOp, n: nat, t: nat)
    requires Sound(w, fs, n, t) && OpOk(w, op)
    ensures Sound(w, ApplyAll(fs, Steps(w.p, op, n, t)), n + 2, t + 2)
  {
    var es := Steps(w.p, op, n, t);
    StepsKeep(w, fs, op, n, t, |es|);
    assert es[..|es|] == es;
  }

  lemma {:induction false} StoppedWithin(w: World, fs: Fs, op: PackOp, rest: seq<Effect>, n: nat, t: nat, k: nat)
    requires Sound(w, fs, n, t) && OpOk(w, op) && k <= |Steps(w.p, op, n, t)|
    ensures Sound(w, ApplyAll(fs, (Steps(w.p, op, n, t) + rest)[..k]), n + 2, t + 2)
  {
    CutWithin(Steps(w.p, op, n, t), rest, k);
    StepsKeep(w, fs, op, n, t, k);
  }

  lemma {:induction false} StoppedPast(w: World, fs: Fs, first: seq<Effect>, rest: seq<Effect>, k: nat, n: nat, t: nat)
    requires FsOk(fs) && |first| <= k <= |first + rest|
    requires Sound(w, ApplyAll(ApplyAll(fs, first), rest[..k - |first|]), n, t)
    ensures Sound(w, ApplyAll(fs, (first + rest)[..k]), n, t)
  {
    CutAfter(first, rest, k);
    ApplyConcat(fs, first, rest[..k - |first|]);
  }

  /** Any prefix of the steps of any sequence of pack writes and deletions is sound. */
  lemma {:induction false} PrefixSound(w: World, fs: Fs, ops: seq<PackOp>, n: nat, t: nat, k: nat)
    requires Sound(w, fs, n, t) && OpsOk(w, ops) && k <= |AllSteps(w.p, ops, n, t)|
    ensures Sound(w, ApplyAll(fs, AllSteps(w.p, ops, n, t)[..k]), n + 2 * |ops|, t + 2 * |ops|)
    decreases |ops|
  {
    if ops != [] {
      var op, later := ops[0], ops[1..];
      var first, rest := Steps(w.p, op, n, t), AllSteps(w.p, later, n + 2, t + 2);
      if k <= |first| {
        StoppedWithin(w, fs, op, rest, n, t, k);
        SoundLater(w, ApplyAll(fs, (first + rest)[..k]), n + 2, t + 2, n + 2 * |ops|, t + 2 * |ops|);
      } else {
        StepsDone(w, fs, op, n, t);
        PrefixSound(w, ApplyAll(fs, first), later, n + 2, t + 2, k - |first|);
        StoppedPast(w, fs, first, rest, k, n + 2 * |ops|, t + 2 * |ops|);
      }
    }
  }

  /** After a crash anywhere in the steps of pack writes and deletions, a reload succeeds and every
      loaded row resolves to a complete record with the right id. */
  lemma {:induction false} ReloadAfterCrash(w: World, fs: Fs, ops: seq<PackOp>, n: nat, t: nat, k: nat, ns: Names,
                                            content: map<nat, Bytes>, order: seq<Id>)
    requires WorldOk(w) && Sound(w, fs, n, t) && k <= |AllSteps(w.p, ops, n, t)|
    requires OpsOk(w, ops)
    requires CrashLeaves(ApplyAll(fs, AllSteps(w.p, ops, n, t)[..k]), ns, content)
    ensures Load(Found(ns, content), order, map[]).1.None?
    ensures IndexOk(w, Load(Found(ns, content), order, map[]).0, Found(ns, content).packs)
  {
    PrefixSound(w, fs, ops, n, t, k);
    CrashLeavesSound(w, ApplyAll(fs, AllSteps(w.p, ops, n, t)[..k]), n + 2 * |ops|, ns, content);
    LoadSpec(w, Found(ns, content), order, map[]);
  }

  // ---- a finished write survives ------------------------------------------------------------------------

  /** `f` is bound in every namespace a crash could fall back to. */
  ghost predicate Held(fs: Fs, f: File) { FsOk(fs) && forall i :: 0 <= i < |fs.past| ==> f in fs.past[i] }

  /** The effect can unbind `f`. */
  ghost predicate Unbinds(e: Effect, f: File) { (e.Unlink? && e.f == f) || (e.Rename? && e.from == f && e.to != f) }

  lemma {:induction false} HeldThrough(fs: Fs, f: File, es: seq<Effect>)
    requires Held(fs, f) && forall i :: 0 <= i < |es| ==> !Unbinds(es[i], f)
    ensures Held(ApplyAll(fs, es), f)
    decreases |es|
  {
    if es != [] {
      var fs1 := Apply(fs, es[0]);
      assert f in Live(fs);
      assert Held(fs1, f);
      HeldThrough(fs1, f, es[1..]);
    }
  }

  lemma {:induction false} WrittenHeld(w: World, fs: Fs, n: nat, t: nat, f: File, b: Bytes)
    requires Sound(w, fs, n, t) && !f.TempFile? && ContentOk(w, f, b)
    ensures Held(ApplyAll(fs, AtomicWrite(n, t, f, b)), f)
  {
    AtomicWriteKeeps(w, fs, n, t, f, b, 3);
    EndsHeld(fs, AtomicWrite(n, t, f, b), t, f);
  }

  lemma {:induction false} EndsHeld(fs: Fs, es: seq<Effect>, t: nat, f: File)
    requires FsOk(fs) && |es| == 5 && es[3] == Rename(TempFile(t), f) && es[4] == SyncDir && !f.TempFile?
    requires TempFile(t) in Live(ApplyAll(fs, es[..3]))
    ensures Held(ApplyAll(fs, es), f)
  {
    ApplyOne(fs, es, 3);
    ApplyOne(fs, es, 4);
    RenamedHeld(ApplyAll(fs, es[..3]), t, f);
    assert es[..5] == es;
  }

  lemma RenamedHeld(fs: Fs, t: nat, f: File)
    requires FsOk(fs) && TempFile(t) in Live(fs) && !f.TempFile?
    ensures Held(Apply(Apply(fs, Rename(TempFile(t), f)), SyncDir), f)
  {
  }

  lemma HeldAfterCrash(fs: Fs, f: File, ns: Names, content: map<nat, Bytes>)
    requires Held(fs, f) && CrashLeaves(fs, ns, content)
    ensures f in ns
  {
    assert FallsBack(fs.past, ns, f);
    var i :| 0 <= i < |fs.past| && Binding(ns, f) == Binding(fs.past[i], f);
  }

  // ---- the order of a write ---------------------------------------------------------------------------

  /** The effect can bind `f`. */
  ghost predicate Binds(e: Effect, f: File) { (e.Create? && e.f == f) || (e.Rename? && e.to == f) }

  lemma {:induction false} LiveThrough(fs: Fs, f: File, es: seq<Effect>)
    requires FsOk(fs)
    ensures f in Live(fs) && (forall i :: 0 <= i < |es| ==> !Unbinds(es[i], f)) ==> f in Live(ApplyAll(fs, es))
    ensures f !in Live(fs) && (forall i :: 0 <= i < |es| ==> !Binds(es[i], f)) ==> f !in Live(ApplyAll(fs, es))
    decreases |es|
  {
    if es != [] { LiveThrough(Apply(fs, es[0]), f, es[1..]); }
  }

  /** Wherever a pack write stops: an index that was not there before is there only with its pack. */
  lemma {:induction false} PackComesFirst(p: Prims, fs: Fs, items: seq<Item>, n: nat, t: nat, k: nat)
    requires FsOk(fs) && k <= 10
    ensures var (name, fs1) := (p.hash(PackBytes(p, items)), ApplyAll(fs, Steps(p, WriteOp(items), n, t)[..k]));
      IndexFile(name) in Live(fs1) && IndexFile(name) !in Live(fs) ==> PackFile(name) in Live(fs1)
  {
    var name := p.hash(PackBytes(p, items));
    var first := AtomicWrite(n, t, PackFile(name), PackBytes(p, items));
    var second := AtomicWrite(n + 1, t + 1, IndexFile(name), PackIndex(p, items));
    if k <= 5 {
      CutWithin(first, second, k);
      LiveThrough(fs, IndexFile(name), first[..k]);
    } else {
      CutAfter(first, second, k);
      ApplyConcat(fs, first, second[..k - 5]);
      AtomicBinds(fs, n, t, PackFile(name), PackBytes(p, items));
      LiveThrough(ApplyAll(fs, first), PackFile(name), second[..k - 5]);
    }
  }

  lemma {:induction false} AtomicBinds(fs: Fs, n: nat, t: nat, f: File, b: Bytes)
    requires FsOk(fs) && !f.TempFile?
    ensures f in Live(ApplyAll(fs, AtomicWrite(n, t, f, b)))
  {
    var es := AtomicWrite(n, t, f, b);
    assert es == es[..1] + (es[1..3] + es[3..]);
    assert es[..1] == [Create(TempFile(t), n)] && es[1..3] == [Write(TempFile(t), b), SyncFile(TempFile(t))];
    assert es[3..] == [Rename(TempFile(t), f), SyncDir];
    ApplyConcat(fs, es[..1], es[1..3] + es[3..]);
    ApplyConcat(ApplyAll(fs, es[..1]), es[1..3], es[3..]);
    assert [Create(TempFile(t), n)][1..] == [];
    var fs1 := ApplyAll(fs, es[..1]);
    assert fs1 == Apply(fs, Create(TempFile(t), n));
    LiveThrough(fs1, TempFile(t), es[1..3]);
    RenamedHeld(ApplyAll(fs1, es[1..3]), t, f);
    assert es[3..][1..] == [SyncDir] && [SyncDir][1..] == [];
  }
}
