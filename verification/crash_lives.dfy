/** Any number of lives of the program on one pack directory: each starts from what the last crash
    left, runs pack writes and deletions, stops after some effect and crashes. */
module CrashLives {
  import opened Octets
  import opened Objects
  import opened Pack
  import opened StoreSpec
  import opened StoreInv
  import opened StoreLaws
  import opened StorePacks
  import opened StoreRuns
  import opened CrashSafety

  // ---- histories ------------------------------------------------------------------------------

  /** The first temporary name of a life, its operations, how many of their effects happened, and what
      the crash left. */
  datatype Life = Life(temp: nat, ops: seq<PackOp>, stop: nat, ns: Names, content: map<nat, Bytes>)

  /** What is on disk at a restart is durable. */
  ghost function Restarted(ns: Names, content: map<nat, Bytes>): Fs {
    Fs([ns], map i | i in content :: Inode(content[i], true))
  }

  const EMPTY_DIRECTORY := Fs([map[]], map[])

  /** The effects of a life that happened. */
  function Effects(p: Prims, l: Life, n: nat): seq<Effect> {
    var es := AllSteps(p, l.ops, n, l.temp);
    if l.stop <= |es| then es[..l.stop] else es
  }

  ghost function Stopped(p: Prims, fs: Fs, n: nat, l: Life): (fs1: Fs)
    requires FsOk(fs)
    ensures FsOk(fs1)
  {
    ApplyAll(fs, Effects(p, l, n))
  }

  ghost predicate Lives(w: World, fs: Fs, n: nat, l: Life)
    requires FsOk(fs)
  {
    OpsOk(w, l.ops) && CrashLeaves(Stopped(w.p, fs, n, l), l.ns, l.content)
  }

  /** Each life runs on what the one before it left. No temporary name it may use shares its file with
      another name: no such name is there, or a rename never leaves both its names behind. */
  ghost predicate History(w: World, fs: Fs, n: nat, lives: seq<Life>)
    requires FsOk(fs)
    decreases |lives|
  {
    lives == [] ||
    (AllApart(fs.past, lives[0].temp) && Lives(w, fs, n, lives[0])
     && History(w, Restarted(lives[0].ns, lives[0].content), n + 2 * |lives[0].ops|, lives[1..]))
  }

  // ---- soundness over every history --------------------------------------------------------------

  /** Sound for a life that uses temporary names from `t` on, once their files are not shared. */
  lemma SoundFrom(w: World, fs: Fs, n: nat, t: nat, u: nat)
    requires Sound(w, fs, n, t) && AllApart(fs.past, u)
    ensures Sound(w, fs, n, u)
  {
  }

  /** What is left is sound to run on, with temporary names no file of which is shared. */
  lemma RestartSound(w: World, fs: Fs, n: nat, t: nat, ns: Names, content: map<nat, Bytes>, u: nat)
    requires Sound(w, fs, n, t) && CrashLeaves(fs, ns, content) && Apart(ns, ns, u)
    ensures Sound(w, Restarted(ns, content), n, u)
  {
    var fs1 := Restarted(ns, content);
    forall f | f in ns
      ensures ns[f] < n && (!f.TempFile? ==>
        ns[f] in fs1.inodes && fs1.inodes[ns[f]].synced && ContentOk(w, f, fs1.inodes[ns[f]].bytes))
    {
      BoundRight(w, fs, n, ns, content, f);
    }
    assert NamesOk(w, fs1.inodes, fs1.past[0], n);
  }

  /** Past all temporary names ever used, no file is shared. */
  lemma RestartBeyond(w: World, fs: Fs, n: nat, t: nat, ns: Names, content: map<nat, Bytes>) returns (u: nat)
    requires Sound(w, fs, n, t) && CrashLeaves(fs, ns, content)
    ensures Sound(w, Restarted(ns, content), n, u)
  {
    u := TempBound(ns, ns.Keys);
    assert Apart(ns, ns, u);
    RestartSound(w, fs, n, t, ns, content, u);
  }

  lemma {:induction false} TempBound(ns: Names, files: set<File>) returns (u: nat)
    ensures forall v: nat :: TempFile(v) in files ==> v < u
    decreases |files|
  {
    if files == {} {
      u := 0;
    } else {
      var f :| f in files;
      u := TempBound(ns, files - {f});
      if f.TempFile? && f.n >= u { u := f.n + 1; }
    }
  }

  lemma LifeSound(w: World, fs: Fs, n: nat, t: nat, l: Life)
    requires Sound(w, fs, n, t) && AllApart(fs.past, l.temp) && OpsOk(w, l.ops)
    ensures Sound(w, Stopped(w.p, fs, n, l), n + 2 * |l.ops|, l.temp + 2 * |l.ops|)
  {
    SoundFrom(w, fs, n, t, l.temp);
    var es := AllSteps(w.p, l.ops, n, l.temp);
    PrefixSound(w, fs, l.ops, n, l.temp, if l.stop <= |es| then l.stop else |es|);
    assert es[..|es|] == es;
  }

  /** A reload succeeds, and every loaded row resolves to a complete record with the right id. */
  ghost predicate ReloadsRight(w: World, ns: Names, content: map<nat, Bytes>, order: seq<Id>) {
    var d := Found(ns, content);
    Load(d, order, map[]).1.None? && IndexOk(w, Load(d, order, map[]).0, d.packs)
  }

  lemma ReloadSound(w: World, fs: Fs, n: nat, t: nat, ns: Names, content: map<nat, Bytes>, order: seq<Id>)
    requires WorldOk(w) && Sound(w, fs, n, t) && CrashLeaves(fs, ns, content)
    ensures ReloadsRight(w, ns, content, order)
  {
    CrashLeavesSound(w, fs, n, ns, content);
    LoadSpec(w, Found(ns, content), order, map[]);
  }

  lemma LifeRestarts(w: World, fs: Fs, n: nat, t: nat, l: Life) returns (v: nat)
    requires Sound(w, fs, n, t) && AllApart(fs.past, l.temp) && Lives(w, fs, n, l)
    ensures Sound(w, Stopped(w.p, fs, n, l), n + 2 * |l.ops|, l.temp + 2 * |l.ops|)
    ensures Sound(w, Restarted(l.ns, l.content), n + 2 * |l.ops|, v)
  {
    LifeSound(w, fs, n, t, l);
    v := RestartBeyond(w, Stopped(w.p, fs, n, l), n + 2 * |l.ops|, l.temp + 2 * |l.ops|, l.ns, l.content);
  }

  /** What life `i` leaves comes from a sound directory. */
  lemma {:induction false} LeftSound(w: World, fs: Fs, n: nat, t: nat, lives: seq<Life>, i: nat)
    returns (stopped: Fs, m: nat, u: nat)
    requires Sound(w, fs, n, t) && History(w, fs, n, lives) && i < |lives|
    ensures Sound(w, stopped, m, u) && CrashLeaves(stopped, lives[i].ns, lives[i].content)
    decreases |lives|
  {
    var l := lives[0];
    var v := LifeRestarts(w, fs, n, t, l);
    if i > 0 {
      stopped, m, u := LeftSound(w, Restarted(l.ns, l.content), n + 2 * |l.ops|, v, lives[1..], i - 1);
    } else {
      stopped, m, u := Stopped(w.p, fs, n, l), n + 2 * |l.ops|, l.temp + 2 * |l.ops|;
    }
  }

  lemma EmptySound(w: World)
    ensures Sound(w, EMPTY_DIRECTORY, 0, 0)
  {
  }

  /** Crash safety: over any number of lives from an empty directory, each stopped at any effect of
      any pack writes and deletions, and whatever each crash keeps, every reload succeeds and every
      loaded row resolves to a complete record with the right id. */
  lemma {:induction false} CrashSafe(w: World, lives: seq<Life>, i: nat, order: seq<Id>)
    requires WorldOk(w) && History(w, EMPTY_DIRECTORY, 0, lives) && i < |lives|
    ensures ReloadsRight(w, lives[i].ns, lives[i].content, order)
  {
    EmptySound(w);
    var stopped, m, u := LeftSound(w, EMPTY_DIRECTORY, 0, 0, lives, i);
    ReloadSound(w, stopped, m, u, lives[i].ns, lives[i].content, order);
  }

  // ---- temporary names used again -------------------------------------------------------------------

  /** In no namespace do a temporary name and another name have one file. */
  ghost predicate NoneShared(fs: Fs) {
    forall i :: 0 <= i < |fs.past| ==> Apart(fs.past[i], fs.past[i], 0)
  }

  ghost predicate Below(fs: Fs, n: nat) {
    forall i, f :: 0 <= i < |fs.past| && f in fs.past[i] ==> fs.past[i][f] < n
  }

  /** A rename moves the file from one name to the other, so namespaces never share it. */
  lemma EffectSharesNone(fs: Fs, e: Effect, n: nat)
    requires FsOk(fs) && NoneShared(fs) && Below(fs, n)
    requires e.Create? ==> e.inode == n
    requires e.Rename? ==> e.from.TempFile? && !e.to.TempFile?
    ensures NoneShared(Apply(fs, e)) && Below(Apply(fs, e), n + 1)
  {
    var last := |fs.past| - 1;
    assert Apart(fs.past[last], fs.past[last], 0);
  }

  /** The effects of an atomic write or a removal, new files numbered from `n`. */
  ghost predicate Numbered(es: seq<Effect>, n: nat)
    decreases |es|
  {
    es == [] ||
    ((es[0].Create? ==> es[0].inode >= n) && (es[0].Rename? ==> es[0].from.TempFile? && !es[0].to.TempFile?)
     && Numbered(es[1..], if es[0].Create? then es[0].inode + 1 else n))
  }

  lemma {:induction false} EffectsShareNone(fs: Fs, es: seq<Effect>, n: nat)
    requires FsOk(fs) && NoneShared(fs) && Below(fs, n) && Numbered(es, n)
    ensures NoneShared(ApplyAll(fs, es))
    decreases |es|
  {
    if es != [] {
      var e := es[0];
      var m := if e.Create? then e.inode else n;
      EffectSharesNone(fs, e, m);
      if !e.Create? { OthersBelow(fs, e, n); }
      EffectsShareNone(Apply(fs, e), es[1..], if e.Create? then e.inode + 1 else n);
    }
  }

  lemma OthersBelow(fs: Fs, e: Effect, n: nat)
    requires FsOk(fs) && Below(fs, n) && !e.Create?
    ensures Below(Apply(fs, e), n)
  {
    var last := |fs.past| - 1;
    assert forall f :: f in fs.past[last] ==> fs.past[last][f] < n;
  }

  lemma {:induction false} NumberedConcat(xs: seq<Effect>, ys: seq<Effect>, n: nat, m: nat)
    requires Numbered(xs, n) && Numbered(ys, m) && n <= m
    requires forall i :: 0 <= i < |xs| && xs[i].Create? ==> xs[i].inode < m
    ensures Numbered(xs + ys, n)
    decreases |xs|
  {
    if xs == [] {
      assert xs + ys == ys;
      NumberedFrom(ys, m, n);
    } else {
      assert (xs + ys)[1..] == xs[1..] + ys;
      NumberedConcat(xs[1..], ys, if xs[0].Create? then xs[0].inode + 1 else n, m);
    }
  }

  lemma {:induction false} NumberedFrom(es: seq<Effect>, m: nat, n: nat)
    requires Numbered(es, m) && n <= m
    ensures Numbered(es, n)
    decreases |es|
  {
    if es != [] && !es[0].Create? { NumberedFrom(es[1..], m, n); }
  }

  lemma {:induction false} NumberedPrefix(es: seq<Effect>, n: nat, k: nat)
    requires Numbered(es, n) && k <= |es|
    ensures Numbered(es[..k], n)
    decreases k
  {
    if k > 0 {
      assert es[..k][1..] == es[1..][..k - 1];
      NumberedPrefix(es[1..], if es[0].Create? then es[0].inode + 1 else n, k - 1);
    }
  }

  lemma {:induction false} AtomicNumbered(n: nat, t: nat, f: File, b: Bytes)
    requires !f.TempFile?
    ensures Numbered(AtomicWrite(n, t, f, b), n)
    ensures forall i :: 0 <= i < 5 && AtomicWrite(n, t, f, b)[i].Create? ==> AtomicWrite(n, t, f, b)[i].inode < n + 1
  {
    var es := AtomicWrite(n, t, f, b);
    assert es[1..][1..][1..][1..] == [SyncDir] && [SyncDir][1..] == [];
    assert Numbered(es[1..][1..][1..][1..], n + 1);
    assert Numbered(es[1..][1..][1..], n + 1);
    assert Numbered(es[1..][1..], n + 1);
    assert Numbered(es[1..], n + 1);
  }

  lemma {:induction false} StepsNumbered(p: Prims, op: PackOp, n: nat, t: nat)
    ensures Numbered(Steps(p, op, n, t), n)
    ensures forall i :: 0 <= i < |Steps(p, op, n, t)| && Steps(p, op, n, t)[i].Create? ==>
      Steps(p, op, n, t)[i].inode < n + 2
  {
    match op
    case WriteOp(items) =>
      var name := p.hash(PackBytes(p, items));
      AtomicNumbered(n, t, PackFile(name), PackBytes(p, items));
      AtomicNumbered(n + 1, t + 1, IndexFile(name), PackIndex(p, items));
      NumberedConcat(AtomicWrite(n, t, PackFile(name), PackBytes(p, items)),
                     AtomicWrite(n + 1, t + 1, IndexFile(name), PackIndex(p, items)), n, n + 1);
    case RemoveOp(name) =>
      var es := Steps(p, op, n, t);
      assert es[1..][1..] == [] && Numbered(es[1..], n);
  }

  lemma {:induction false} AllStepsNumbered(p: Prims, ops: seq<PackOp>, n: nat, t: nat)
    ensures Numbered(AllSteps(p, ops, n, t), n)
    decreases |ops|
  {
    if ops != [] {
      StepsNumbered(p, ops[0], n, t);
      AllStepsNumbered(p, ops[1..], n + 2, t + 2);
      NumberedConcat(Steps(p, ops[0], n, t), AllSteps(p, ops[1..], n + 2, t + 2), n, n + 2);
    }
  }

  /** Each crash leaves a namespace that was there as a whole: renames are atomic. */
  ghost predicate AtomicHistory(w: World, fs: Fs, n: nat, lives: seq<Life>)
    requires FsOk(fs)
    decreases |lives|
  {
    lives == [] ||
    (Lives(w, fs, n, lives[0]) && lives[0].ns in Stopped(w.p, fs, n, lives[0]).past
     && AtomicHistory(w, Restarted(lives[0].ns, lives[0].content), n + 2 * |lives[0].ops|, lives[1..]))
  }

  /** With atomic renames every history is one, whatever temporary names its lives use again. */
  lemma {:induction false} AtomicIsHistory(w: World, fs: Fs, n: nat, t: nat, lives: seq<Life>)
    requires Sound(w, fs, n, t) && NoneShared(fs) && |fs.past| == 1 && AtomicHistory(w, fs, n, lives)
    ensures History(w, fs, n, lives)
    decreases |lives|
  {
    if lives != [] {
      var l := lives[0];
      var m, u, stopped := n + 2 * |l.ops|, l.temp + 2 * |l.ops|, Stopped(w.p, fs, n, l);
      assert Apart(fs.past[0], fs.past[0], 0);
      LifeSound(w, fs, n, t, l);
      LifeSharesNone(w, fs, n, t, l);
      AtomicRestart(w, stopped, m, u, l);
      AtomicIsHistory(w, Restarted(l.ns, l.content), m, 0, lives[1..]);
    }
  }

  lemma AtomicRestart(w: World, stopped: Fs, m: nat, u: nat, l: Life)
    requires Sound(w, stopped, m, u) && CrashLeaves(stopped, l.ns, l.content)
    requires NoneShared(stopped) && l.ns in stopped.past
    ensures Sound(w, Restarted(l.ns, l.content), m, 0) && NoneShared(Restarted(l.ns, l.content))
  {
    RestartSound(w, stopped, m, u, l.ns, l.content, 0);
  }

  lemma LifeSharesNone(w: World, fs: Fs, n: nat, t: nat, l: Life)
    requires Sound(w, fs, n, t) && NoneShared(fs)
    ensures NoneShared(Stopped(w.p, fs, n, l))
  {
    var es := AllSteps(w.p, l.ops, n, l.temp);
    SoundBelow(w, fs, n, t);
    AllStepsNumbered(w.p, l.ops, n, l.temp);
    NumberedPrefix(es, n, if l.stop <= |es| then l.stop else |es|);
    assert es[..|es|] == es;
    EffectsShareNone(fs, Effects(w.p, l, n), n);
  }

  lemma SoundBelow(w: World, fs: Fs, n: nat, t: nat)
    requires Sound(w, fs, n, t)
    ensures Below(fs, n)
  {
    forall i, f | 0 <= i < |fs.past| && f in fs.past[i] ensures fs.past[i][f] < n {
      assert NamesOk(w, fs.inodes, fs.past[i], n);
    }
  }

  /** So with atomic renames the directory is safe although temporary names are used again. */
  lemma {:induction false} AtomicCrashSafe(w: World, lives: seq<Life>, i: nat, order: seq<Id>)
    requires WorldOk(w) && AtomicHistory(w, EMPTY_DIRECTORY, 0, lives) && i < |lives|
    ensures ReloadsRight(w, lives[i].ns, lives[i].content, order)
  {
    EmptySound(w);
    AtomicIsHistory(w, EMPTY_DIRECTORY, 0, 0, lives);
    CrashSafe(w, lives, i, order);
  }

  /** The file of temporary name `t` is one a crash may find under the name of a pack or an index. */
  ghost predicate SharesFile(fs: Fs, t: nat)
    requires FsOk(fs)
  {
    TempFile(t) in Live(fs)
    && exists i, f :: 0 <= i < |fs.past| && f in fs.past[i] && !f.TempFile? && fs.past[i][f] == Live(fs)[TempFile(t)]
  }

  /** Whatever a crash leaves, every pack and every index in the directory is right. */
  ghost predicate LeavesRight(w: World, fs: Fs) {
    forall ns, content {:trigger CrashLeaves(fs, ns, content)} ::
      CrashLeaves(fs, ns, content) ==> DirOk(w, Found(ns, content).packs, Found(ns, content).idxs)
  }

  lemma EmptyIsNoFile(w: World, f: File)
    requires !f.TempFile?
    ensures !ContentOk(w, f, [])
  {
  }

  /** Using a temporary name again is safe exactly when its file is no pack's and no index's. */
  lemma ReuseSafeIff(w: World, fs: Fs, n: nat, u: nat, t: nat)
    requires Sound(w, fs, n, u)
    ensures LeavesRight(w, Apply(fs, Create(TempFile(t), n))) <==> !SharesFile(fs, t)
  {
    var fs1 := Apply(fs, Create(TempFile(t), n));
    if SharesFile(fs, t) {
      var i, f :| 0 <= i < |fs.past| && f in fs.past[i] && !f.TempFile? && fs.past[i][f] == Live(fs)[TempFile(t)];
      TruncationShows(w, fs1, i, f);
    } else {
      CreateRight(w, fs, n, t);
    }
  }

  /** A crash may leave an unsynced file empty under a name it had. */
  lemma TruncationShows(w: World, fs: Fs, i: nat, f: File)
    requires i < |fs.past| && f in fs.past[i] && !f.TempFile?
    requires fs.past[i][f] in fs.inodes && fs.inodes[fs.past[i][f]] == Inode([], false)
    ensures !LeavesRight(w, fs)
  {
    var ns, content := fs.past[i], map k | k in fs.inodes :: fs.inodes[k].bytes;
    forall g ensures FallsBack(fs.past, ns, g) {
      assert Binding(ns, g) == Binding(fs.past[i], g);
    }
    assert CrashLeaves(fs, ns, content);
    EmptyIsNoFile(w, f);
    assert f.name in (if f.PackFile? then PackNames(ns) else IndexNames(ns));
    var d := Found(ns, content);
    assert if f.PackFile? then !PackFileOk(w, f.name, d.packs[f.name]) else !IndexFileOk(w, f.name, d.idxs[f.name]);
  }

  lemma CreateNames(w: World, fs: Fs, n: nat, t: nat)
    requires FsOk(fs) && AllNamesOk(w, fs, n) && !SharesFile(fs, t)
    ensures AllNamesOk(w, Apply(fs, Create(TempFile(t), n)), n + 1)
  {
    forall i | 0 <= i < |fs.past| ensures NamesOk(w, fs.inodes, fs.past[i], n + 1) {
      assert NamesOk(w, fs.inodes, fs.past[i], n);
    }
    var last := |fs.past| - 1;
    if TempFile(t) in Live(fs) {
      FileKeeps(w, fs, n + 1, Live(fs)[TempFile(t)], Inode([], false));
    } else {
      forall i, f | 0 <= i < |fs.past| && f in fs.past[i] ensures fs.past[i][f] != n {
        assert NamesOk(w, fs.inodes, fs.past[i], n);
      }
      FileKeeps(w, fs, n + 1, n, Inode([], false));
      var fs1 := Apply(fs, Create(TempFile(t), n));
      assert NamesOk(w, fs1.inodes, fs.past[last], n + 1);
      assert NamesOk(w, fs1.inodes, fs1.past[last + 1], n + 1);
      forall i | 0 <= i < |fs1.past| ensures NamesOk(w, fs1.inodes, fs1.past[i], n + 1) {
        if i <= last { assert fs1.past[i] == fs.past[i] && NamesOk(w, fs1.inodes, fs.past[i], n + 1); }
      }
    }
  }

  lemma CreateRight(w: World, fs: Fs, n: nat, t: nat)
    requires FsOk(fs) && AllNamesOk(w, fs, n) && !SharesFile(fs, t)
    ensures LeavesRight(w, Apply(fs, Create(TempFile(t), n)))
  {
    var fs1 := Apply(fs, Create(TempFile(t), n));
    CreateNames(w, fs, n, t);
    forall ns, content | CrashLeaves(fs1, ns, content)
      ensures DirOk(w, Found(ns, content).packs, Found(ns, content).idxs)
    {
      CrashLeavesSound(w, fs1, n + 1, ns, content);
    }
  }

  /** Where a crash can leave both names of a rename, using the temporary name again empties the pack:
      the index still lists its rows, and none of them resolves. */
  lemma {:induction false} ReuseEmptiesPack(w: World, items: seq<Item>, name: Id, h: nat, i: nat, t: nat,
                                            order: seq<Id>)
    requires WorldOk(w) && ItemsOk(w, items) && items != [] && name == w.p.hash(PackBytes(w.p, items))
    requires h != i && name in order
    ensures var fs := BothNamesLeft(name, PackBytes(w.p, items), PackIndex(w.p, items), h, i, t);
      && var ns, content := fs.past[0], map[h := [], i := PackIndex(w.p, items)];
      && CrashLeaves(Apply(fs, Create(TempFile(t), h + i + 1)), ns, content)
      && items[0].id in Load(Found(ns, content), order, map[]).0
      && !IndexOk(w, Load(Found(ns, content), order, map[]).0, Found(ns, content).packs)
  {
    var idx := PackIndex(w.p, items);
    ReuseTruncates(name, PackBytes(w.p, items), idx, h, i, t);
    var ns := BothNamesLeft(name, PackBytes(w.p, items), idx, h, i, t).past[0];
    EmptiedFound(name, ns, map[h := [], i := idx], h, i);
    EmptiedLoads(w, items, Found(ns, map[h := [], i := idx]), order);
  }

  /** A directory in which a pack and a temporary name have one file, as a crash may leave that keeps the
      old name of a rename with the new one. */
  ghost function BothNamesLeft(name: Id, pack: Bytes, idx: Bytes, h: nat, i: nat, t: nat): (fs: Fs)
    ensures FsOk(fs)
  {
    Fs([map[PackFile(name) := h, IndexFile(name) := i, TempFile(t) := h]],
       map[h := Inode(pack, true), i := Inode(idx, true)])
  }

  lemma ReuseTruncates(name: Id, pack: Bytes, idx: Bytes, h: nat, i: nat, t: nat)
    requires h != i
    ensures var fs := BothNamesLeft(name, pack, idx, h, i, t);
      CrashLeaves(Apply(fs, Create(TempFile(t), h + i + 1)), fs.past[0], map[h := [], i := idx])
  {
    var fs := BothNamesLeft(name, pack, idx, h, i, t);
    var fs1 := Apply(fs, Create(TempFile(t), h + i + 1));
    assert fs1 == fs.(inodes := fs.inodes[h := Inode([], false)]);
    forall f ensures FallsBack(fs1.past, fs.past[0], f) {
      assert Binding(fs.past[0], f) == Binding(fs1.past[0], f);
    }
  }

  lemma EmptiedFound(name: Id, ns: Names, content: map<nat, Bytes>, h: nat, i: nat)
    requires PackFile(name) in ns && IndexFile(name) in ns && ns[PackFile(name)] == h && ns[IndexFile(name)] == i
    requires forall f :: f in ns && !f.TempFile? ==> f == PackFile(name) || f == IndexFile(name)
    requires h in content && i in content
    ensures Found(ns, content).packs == map[name := content[h]] && Found(ns, content).idxs == map[name := content[i]]
  {
    FoundHas(ns, content, name);
    assert PackNames(ns) == {name} && IndexNames(ns) == {name};
  }

  lemma {:induction false} EmptiedLoads(w: World, items: seq<Item>, d: Disk, order: seq<Id>)
    requires WorldOk(w) && ItemsOk(w, items) && items != [] && w.p.hash(PackBytes(w.p, items)) in order
    requires var name := w.p.hash(PackBytes(w.p, items));
      d.packs == map[name := []] && d.idxs == map[name := PackIndex(w.p, items)]
    ensures items[0].id in Load(d, order, map[]).0 && !IndexOk(w, Load(d, order, map[]).0, d.packs)
  {
    var name, id := w.p.hash(PackBytes(w.p, items)), items[0].id;
    IndexInverts(w.p, items);
    ListedAreItems(w, items, id);
    ListedIff(PackIndex(w.p, items), id);
    LoadGains(d, order, map[], name, id);
    var index := Load(d, order, map[]).0;
    assert !LocOk(w, d.packs, index[id], id);
  }

  lemma {:induction false} KeepGains(index: map<Id, PackLoc>, name: Id, es: seq<IndexEntry>, id: Id)
    ensures id in index || HasId(es, id) ==> id in Keep(index, name, es)
    decreases |es|
  {
    if es != [] {
      KeepGains(if es[0].id in index then index else index[es[0].id := PackLoc(name, es[0].offset)], name, es[1..], id);
      HasIdCons(es, id);
    }
  }

  /** A load of one readable index gains its ids, and loses none it had. */
  lemma {:induction false} LoadGains(d: Disk, order: seq<Id>, index: map<Id, PackLoc>, name: Id, id: Id)
    requires d.idxs.Keys == {name} && name in d.packs && ParseIndex(d.idxs[name]).Some?
    ensures id in index || (name in order && HasId(ParseIndex(d.idxs[name]).value, id)) ==>
      id in Load(d, order, index).0
    decreases |order|
  {
    if order != [] {
      var es := ParseIndex(d.idxs[name]).value;
      KeepGains(index, name, es, id);
      LoadGains(d, order[1..], if order[0] == name then Keep(index, name, es) else index, name, id);
    }
  }

  // ---- what is served -----------------------------------------------------------------------------

  /** Both files of a pack are there whatever a crash falls back to. */
  ghost predicate PackHeld(fs: Fs, name: Id) { Held(fs, PackFile(name)) && Held(fs, IndexFile(name)) }

  /** Every item of the pack is in the index a reload builds. */
  ghost predicate ServesAll(ns: Names, content: map<nat, Bytes>, order: seq<Id>, items: seq<Item>) {
    forall i :: 0 <= i < |items| ==> items[i].id in Load(Found(ns, content), order, map[]).0
  }

  ghost predicate ListsAll(order: seq<Id>, ns: Names, content: map<nat, Bytes>) {
    Lists(order, Found(ns, content).idxs)
  }

  lemma HeldServes(w: World, fs: Fs, n: nat, t: nat, items: seq<Item>, ns: Names, content: map<nat, Bytes>,
                   order: seq<Id>)
    requires WorldOk(w) && Sound(w, fs, n, t) && ItemsOk(w, items) && PackHeld(fs, w.p.hash(PackBytes(w.p, items)))
    requires CrashLeaves(fs, ns, content) && ListsAll(order, ns, content)
    ensures ServesAll(ns, content, order, items)
  {
    var name := w.p.hash(PackBytes(w.p, items));
    var d := Found(ns, content);
    HeldAfterCrash(fs, PackFile(name), ns, content);
    HeldAfterCrash(fs, IndexFile(name), ns, content);
    BoundRight(w, fs, n, ns, content, PackFile(name));
    BoundRight(w, fs, n, ns, content, IndexFile(name));
    FoundHas(ns, content, name);
    CrashLeavesSound(w, fs, n, ns, content);
    LoadSpec(w, d, order, map[]);
    forall i | 0 <= i < |items| ensures items[i].id in Load(d, order, map[]).0 {
      SameNameSameIds(w, d.idxs[name], items, items[i].id);
      assert ServedBy(d.packs, d.idxs, order, items[i].id);
    }
  }

  lemma FoundHas(ns: Names, content: map<nat, Bytes>, name: Id)
    requires PackFile(name) in ns && IndexFile(name) in ns
    requires ns[PackFile(name)] in content && ns[IndexFile(name)] in content
    ensures name in Found(ns, content).packs && name in Found(ns, content).idxs
    ensures Found(ns, content).idxs[name] == content[ns[IndexFile(name)]]
  {
    assert PackFile(name).name == name && IndexFile(name).name == name;
  }

  // ---- a finished pack is served for ever after -------------------------------------------------------

  ghost predicate Spared(ops: seq<PackOp>, name: Id) { forall i :: 0 <= i < |ops| ==> ops[i] != RemoveOp(name) }

  /** None of the effects can unbind a file of the pack. */
  ghost predicate Sparing(es: seq<Effect>, name: Id) {
    forall i :: 0 <= i < |es| ==> !Unbinds(es[i], PackFile(name)) && !Unbinds(es[i], IndexFile(name))
  }

  lemma {:induction false} SparedSteps(p: Prims, ops: seq<PackOp>, n: nat, t: nat, name: Id)
    requires Spared(ops, name)
    ensures Sparing(AllSteps(p, ops, n, t), name)
    decreases |ops|
  {
    if ops != [] {
      SparedSteps(p, ops[1..], n + 2, t + 2, name);
      var first := Steps(p, ops[0], n, t);
      assert Sparing(first, name);
    }
  }

  lemma {:induction false} HeldOn(fs: Fs, name: Id, es: seq<Effect>)
    requires PackHeld(fs, name) && Sparing(es, name)
    ensures PackHeld(ApplyAll(fs, es), name)
  {
    HeldThrough(fs, PackFile(name), es);
    HeldThrough(fs, IndexFile(name), es);
  }

  lemma {:induction false} WriteHolds(w: World, fs: Fs, n: nat, t: nat, items: seq<Item>)
    requires Sound(w, fs, n, t) && ItemsOk(w, items)
    ensures PackHeld(ApplyAll(fs, Steps(w.p, WriteOp(items), n, t)), w.p.hash(PackBytes(w.p, items)))
  {
    var name := w.p.hash(PackBytes(w.p, items));
    var first := AtomicWrite(n, t, PackFile(name), PackBytes(w.p, items));
    var second := AtomicWrite(n + 1, t + 1, IndexFile(name), PackIndex(w.p, items));
    assert ContentOk(w, PackFile(name), PackBytes(w.p, items));
    assert ContentOk(w, IndexFile(name), PackIndex(w.p, items));
    WrittenHeld(w, fs, n, t, PackFile(name), PackBytes(w.p, items));
    AtomicWriteKeeps(w, fs, n, t, PackFile(name), PackBytes(w.p, items), 5);
    assert first[..5] == first;
    WrittenHeld(w, ApplyAll(fs, first), n + 1, t + 1, IndexFile(name), PackIndex(w.p, items));
    HeldThrough(ApplyAll(fs, first), PackFile(name), second);
    ApplyConcat(fs, first, second);
  }

  lemma {:induction false} AllStepsConcat(p: Prims, xs: seq<PackOp>, ys: seq<PackOp>, n: nat, t: nat)
    ensures AllSteps(p, xs + ys, n, t) == AllSteps(p, xs, n, t) + AllSteps(p, ys, n + 2 * |xs|, t + 2 * |xs|)
    decreases |xs|
  {
    if xs == [] {
      assert xs + ys == ys;
    } else {
      assert (xs + ys)[1..] == xs[1..] + ys;
      AllStepsConcat(p, xs[1..], ys, n + 2, t + 2);
    }
  }

  lemma {:induction false} OneStep(p: Prims, op: PackOp, n: nat, t: nat)
    ensures AllSteps(p, [op], n, t) == Steps(p, op, n, t)
  {
    assert [op][1..] == [];
    assert AllSteps(p, [], n + 2, t + 2) == [];
  }

  lemma {:induction false} StepsSplit(p: Prims, before: seq<PackOp>, op: PackOp, after: seq<PackOp>, n: nat, t: nat)
    ensures AllSteps(p, before + [op], n, t)
         == AllSteps(p, before, n, t) + Steps(p, op, n + 2 * |before|, t + 2 * |before|)
    ensures AllSteps(p, before + [op] + after, n, t)
         == AllSteps(p, before + [op], n, t) + AllSteps(p, after, n + 2 * |before| + 2, t + 2 * |before| + 2)
  {
    AllStepsConcat(p, before, [op], n, t);
    OneStep(p, op, n + 2 * |before|, t + 2 * |before|);
    AllStepsConcat(p, before + [op], after, n, t);
  }

  /** Once a pack write has finished, its files are held through any steps that spare it. */
  lemma {:induction false} HeldSince(w: World, fs: Fs, m: nat, u: nat, items: seq<Item>, late: seq<Effect>)
    requires Sound(w, fs, m, u) && ItemsOk(w, items) && Sparing(late, w.p.hash(PackBytes(w.p, items)))
    ensures PackHeld(ApplyAll(fs, Steps(w.p, WriteOp(items), m, u) + late), w.p.hash(PackBytes(w.p, items)))
  {
    var written := Steps(w.p, WriteOp(items), m, u);
    WriteHolds(w, fs, m, u, items);
    HeldOn(ApplyAll(fs, written), w.p.hash(PackBytes(w.p, items)), late);
    ApplyConcat(fs, written, late);
  }

  lemma EarlySound(w: World, fs: Fs, n: nat, t: nat, before: seq<PackOp>)
    requires Sound(w, fs, n, t) && OpsOk(w, before)
    ensures Sound(w, ApplyAll(fs, AllSteps(w.p, before, n, t)), n + 2 * |before|, t + 2 * |before|)
  {
    var early := AllSteps(w.p, before, n, t);
    PrefixSound(w, fs, before, n, t, |early|);
    assert early[..|early|] == early;
  }

  lemma {:induction false} HeldGlued(fs: Fs, xs: seq<Effect>, ys: seq<Effect>, zs: seq<Effect>, es: seq<Effect>,
                                     name: Id)
    requires FsOk(fs) && PackHeld(ApplyAll(ApplyAll(fs, xs), ys + zs), name) && es == xs + ys + zs
    ensures PackHeld(ApplyAll(fs, es), name)
  {
    assert xs + ys + zs == xs + (ys + zs);
    ApplyConcat(fs, xs, ys + zs);
  }

  /** The effects up to `stop`, cut before and after the write. */
  lemma {:induction false} LateEffects(p: Prims, before: seq<PackOp>, op: PackOp, after: seq<PackOp>, n: nat, t: nat,
                                       stop: nat, name: Id)
    returns (late: seq<Effect>)
    requires |AllSteps(p, before + [op], n, t)| <= stop <= |AllSteps(p, before + [op] + after, n, t)|
    requires Spared(after, name)
    ensures AllSteps(p, before + [op] + after, n, t)[..stop]
         == AllSteps(p, before, n, t) + Steps(p, op, n + 2 * |before|, t + 2 * |before|) + late
    ensures Sparing(late, name)
  {
    StepsSplit(p, before, op, after, n, t);
    SparedSteps(p, after, n + 2 * |before| + 2, t + 2 * |before| + 2, name);
    late := SparingCut(AllSteps(p, before + [op], n, t),
      AllSteps(p, after, n + 2 * |before| + 2, t + 2 * |before| + 2), stop, name);
  }

  lemma SparingCut(xs: seq<Effect>, ys: seq<Effect>, stop: nat, name: Id) returns (late: seq<Effect>)
    requires |xs| <= stop <= |xs + ys| && Sparing(ys, name)
    ensures (xs + ys)[..stop] == xs + late && Sparing(late, name)
  {
    late := ys[..stop - |xs|];
    CutAfter(xs, ys, stop);
  }

  /** Within a life: once a pack write has finished, its files are held wherever the life stops. */
  lemma {:induction false} HeldAtStop(w: World, fs: Fs, n: nat, t: nat, before: seq<PackOp>, items: seq<Item>,
                                      after: seq<PackOp>, stop: nat)
    requires Sound(w, fs, n, t) && ItemsOk(w, items) && Spared(after, w.p.hash(PackBytes(w.p, items)))
    requires OpsOk(w, before)
    requires |AllSteps(w.p, before + [WriteOp(items)], n, t)| <= stop
    requires stop <= |AllSteps(w.p, before + [WriteOp(items)] + after, n, t)|
    ensures PackHeld(ApplyAll(fs, AllSteps(w.p, before + [WriteOp(items)] + after, n, t)[..stop]),
      w.p.hash(PackBytes(w.p, items)))
  {
    var name, m, u := w.p.hash(PackBytes(w.p, items)), n + 2 * |before|, t + 2 * |before|;
    var late := LateEffects(w.p, before, WriteOp(items), after, n, t, stop, name);
    EarlySound(w, fs, n, t, before);
    HeldSince(w, ApplyAll(fs, AllSteps(w.p, before, n, t)), m, u, items, late);
    HeldGlued(fs, AllSteps(w.p, before, n, t), Steps(w.p, WriteOp(items), m, u), late,
              AllSteps(w.p, before + [WriteOp(items)] + after, n, t)[..stop], name);
  }

  /** The lives from `from` to `to` do not remove the pack. */
  ghost predicate SparedLives(lives: seq<Life>, from: nat, to: nat, name: Id) {
    forall j :: from <= j <= to && j < |lives| ==> Spared(lives[j].ops, name)
  }

  lemma SparedTail(lives: seq<Life>, i: nat, name: Id)
    requires 0 < i < |lives| && SparedLives(lives, 1, i, name)
    ensures SparedLives(lives[1..], 0, i - 1, name)
  {
  }

  lemma HeldAtRestart(fs: Fs, name: Id, ns: Names, content: map<nat, Bytes>)
    requires PackHeld(fs, name) && CrashLeaves(fs, ns, content)
    ensures PackHeld(Restarted(ns, content), name)
  {
    HeldAfterCrash(fs, PackFile(name), ns, content);
    HeldAfterCrash(fs, IndexFile(name), ns, content);
  }

  /** Held where life `i` stops, in the sound directory its crash leaves something of. */
  ghost predicate LeftHolding(w: World, stopped: Fs, m: nat, u: nat, l: Life, name: Id) {
    Sound(w, stopped, m, u) && PackHeld(stopped, name) && CrashLeaves(stopped, l.ns, l.content)
  }

  /** From a directory that holds a pack, and with no removal of it, every later life holds it. */
  lemma {:induction false} HeldInHistory(w: World, fs: Fs, n: nat, t: nat, lives: seq<Life>, i: nat, name: Id)
    returns (stopped: Fs, m: nat, u: nat)
    requires Sound(w, fs, n, t) && History(w, fs, n, lives) && i < |lives|
    requires PackHeld(fs, name) && SparedLives(lives, 0, i, name)
    ensures LeftHolding(w, stopped, m, u, lives[i], name)
    decreases |lives|, 0
  {
    var l := lives[0];
    LifeSound(w, fs, n, t, l);
    HeldInLife(w.p, fs, n, l, name);
    stopped, m, u := HeldSinceFirst(w, Stopped(w.p, fs, n, l), n + 2 * |l.ops|, l.temp + 2 * |l.ops|, lives, i, name);
  }

  lemma {:induction false} HeldInLife(p: Prims, fs: Fs, n: nat, l: Life, name: Id)
    requires PackHeld(fs, name) && Spared(l.ops, name)
    ensures PackHeld(Stopped(p, fs, n, l), name)
  {
    SparedSteps(p, l.ops, n, l.temp, name);
    HeldOn(fs, name, Effects(p, l, n));
  }

  /** The files are held where the first life stops, so they are where it and the spared lives after it do. */
  lemma {:induction false} HeldSinceFirst(w: World, first: Fs, k: nat, v: nat, lives: seq<Life>, i: nat, name: Id)
    returns (stopped: Fs, m: nat, u: nat)
    requires i < |lives| && LeftHolding(w, first, k, v, lives[0], name) && SparedLives(lives, 1, i, name)
    requires History(w, Restarted(lives[0].ns, lives[0].content), k, lives[1..])
    ensures LeftHolding(w, stopped, m, u, lives[i], name)
    decreases |lives| - 1, 1
  {
    var l := lives[0];
    if i == 0 {
      stopped, m, u := first, k, v;
    } else {
      HeldAtRestart(first, name, l.ns, l.content);
      var y := RestartBeyond(w, first, k, v, l.ns, l.content);
      SparedTail(lives, i, name);
      stopped, m, u := HeldInHistory(w, Restarted(l.ns, l.content), k, y, lives[1..], i - 1, name);
    }
  }

  /** Once a pack write has finished, and for as long as nobody removes that pack, its files are held
      wherever this life and all later ones stop. */
  lemma {:induction false} FinishedPackHeld(w: World, fs: Fs, n: nat, t: nat, before: seq<PackOp>, items: seq<Item>,
                                            after: seq<PackOp>, lives: seq<Life>, i: nat)
    returns (stopped: Fs, m: nat, u: nat)
    requires Sound(w, fs, n, t) && History(w, fs, n, lives) && i < |lives| && ItemsOk(w, items)
    requires lives[0].ops == before + [WriteOp(items)] + after
    requires |AllSteps(w.p, before + [WriteOp(items)], n, lives[0].temp)| <= lives[0].stop
    requires Spared(after, w.p.hash(PackBytes(w.p, items)))
    requires SparedLives(lives, 1, i, w.p.hash(PackBytes(w.p, items)))
    ensures LeftHolding(w, stopped, m, u, lives[i], w.p.hash(PackBytes(w.p, items)))
  {
    var l := lives[0];
    WrittenLeft(w, fs, n, t, before, items, after, l);
    stopped, m, u := HeldSinceFirst(w, Stopped(w.p, fs, n, l), n + 2 * |l.ops|, l.temp + 2 * |l.ops|, lives, i,
      w.p.hash(PackBytes(w.p, items)));
  }

  /** So every reload after every crash, in this life and in all later ones, serves all its items. */
  lemma {:induction false} FinishedPackServed(w: World, fs: Fs, n: nat, t: nat, before: seq<PackOp>, items: seq<Item>,
                                              after: seq<PackOp>, lives: seq<Life>, i: nat, order: seq<Id>)
    requires WorldOk(w) && Sound(w, fs, n, t) && History(w, fs, n, lives) && i < |lives| && ItemsOk(w, items)
    requires lives[0].ops == before + [WriteOp(items)] + after
    requires |AllSteps(w.p, before + [WriteOp(items)], n, lives[0].temp)| <= lives[0].stop
    requires Spared(after, w.p.hash(PackBytes(w.p, items)))
    requires SparedLives(lives, 1, i, w.p.hash(PackBytes(w.p, items)))
    requires ListsAll(order, lives[i].ns, lives[i].content)
    ensures ServesAll(lives[i].ns, lives[i].content, order, items)
  {
    var stopped, m, u := FinishedPackHeld(w, fs, n, t, before, items, after, lives, i);
    HeldServes(w, stopped, m, u, items, lives[i].ns, lives[i].content, order);
  }

  lemma {:induction false} WrittenLeft(w: World, fs: Fs, n: nat, t: nat, before: seq<PackOp>, items: seq<Item>,
                                       after: seq<PackOp>, l: Life)
    requires Sound(w, fs, n, t) && AllApart(fs.past, l.temp) && Lives(w, fs, n, l) && ItemsOk(w, items)
    requires l.ops == before + [WriteOp(items)] + after
    requires |AllSteps(w.p, before + [WriteOp(items)], n, l.temp)| <= l.stop
    requires Spared(after, w.p.hash(PackBytes(w.p, items)))
    ensures LeftHolding(w, Stopped(w.p, fs, n, l), n + 2 * |l.ops|, l.temp + 2 * |l.ops|, l,
      w.p.hash(PackBytes(w.p, items)))
  {
    WrittenInLife(w, fs, n, t, before, items, after, l);
    LifeSound(w, fs, n, t, l);
  }

  lemma {:induction false} WrittenInLife(w: World, fs: Fs, n: nat, t: nat, before: seq<PackOp>, items: seq<Item>,
                                         after: seq<PackOp>, l: Life)
    requires Sound(w, fs, n, t) && AllApart(fs.past, l.temp) && OpsOk(w, l.ops) && ItemsOk(w, items)
    requires l.ops == before + [WriteOp(items)] + after
    requires |AllSteps(w.p, before + [WriteOp(items)], n, l.temp)| <= l.stop
    requires Spared(after, w.p.hash(PackBytes(w.p, items)))
    ensures PackHeld(Stopped(w.p, fs, n, l), w.p.hash(PackBytes(w.p, items)))
  {
    forall j | 0 <= j < |before| ensures OpOk(w, before[j]) { assert l.ops[j] == before[j]; }
    SoundFrom(w, fs, n, t, l.temp);
    var es := AllSteps(w.p, l.ops, n, l.temp);
    AllStepsConcat(w.p, before + [WriteOp(items)], after, n, l.temp);
    assert es[..|es|] == es;
    HeldAtStop(w, fs, n, l.temp, before, items, after, if l.stop <= |es| then l.stop else |es|);
  }

  // ---- orphan indexes -----------------------------------------------------------------------------------

  /** A removal stopped between its two unlinks can leave an index without its pack. */
  lemma {:induction false} OrphanLeft(p: Prims, fs: Fs, name: Id, n: nat, t: nat, content: map<nat, Bytes>)
    requires PackHeld(fs, name) && content == map i | i in fs.inodes :: fs.inodes[i].bytes
    ensures var ns := Live(fs) - {PackFile(name)};
      && CrashLeaves(ApplyAll(fs, Steps(p, RemoveOp(name), n, t)[..1]), ns, content)
      && IndexFile(name) in ns && PackFile(name) !in ns
      && Held(Restarted(ns, content), IndexFile(name))
  {
    var fs1 := Apply(fs, Unlink(PackFile(name)));
    assert Steps(p, RemoveOp(name), n, t)[..1] == [Unlink(PackFile(name))];
    assert ApplyAll(fs1, []) == fs1 && [Unlink(PackFile(name))][1..] == [];
    var last := |fs1.past| - 1;
    assert fs1.past[last] == Live(fs) - {PackFile(name)};
    forall f ensures FallsBack(fs1.past, Live(fs) - {PackFile(name)}, f) {
      assert Binding(Live(fs) - {PackFile(name)}, f) == Binding(fs1.past[last], f);
    }
    assert IndexFile(name) in fs.past[|fs.past| - 1];
  }

  lemma {:induction false} RevivedHeld(w: World, fs: Fs, n: nat, t: nat, items: seq<Item>, late: seq<Effect>)
    requires Sound(w, fs, n, t) && ItemsOk(w, items) && Held(fs, IndexFile(w.p.hash(PackBytes(w.p, items))))
    requires Sparing(late, w.p.hash(PackBytes(w.p, items)))
    ensures var name := w.p.hash(PackBytes(w.p, items));
      PackHeld(ApplyAll(fs, AtomicWrite(n, t, PackFile(name), PackBytes(w.p, items)) + late), name)
  {
    var name := w.p.hash(PackBytes(w.p, items));
    var first := AtomicWrite(n, t, PackFile(name), PackBytes(w.p, items));
    assert ContentOk(w, PackFile(name), PackBytes(w.p, items));
    WrittenHeld(w, fs, n, t, PackFile(name), PackBytes(w.p, items));
    HeldThrough(fs, IndexFile(name), first);
    ApplyConcat(fs, first, late);
    HeldOn(ApplyAll(fs, first), name, late);
  }

  /** Such an index is revived by a later pack of the same name before its own index is rewritten,
      and then serves all of that pack's items. */
  lemma {:induction false} OrphanRevived(w: World, fs: Fs, n: nat, t: nat, items: seq<Item>, k: nat, ns: Names,
                                         content: map<nat, Bytes>, order: seq<Id>)
    requires WorldOk(w) && Sound(w, fs, n, t) && ItemsOk(w, items)
    requires Held(fs, IndexFile(w.p.hash(PackBytes(w.p, items)))) && 5 <= k <= 10
    requires CrashLeaves(ApplyAll(fs, Steps(w.p, WriteOp(items), n, t)[..k]), ns, content)
    requires ListsAll(order, ns, content)
    ensures ServesAll(ns, content, order, items)
  {
    var name := w.p.hash(PackBytes(w.p, items));
    var first := AtomicWrite(n, t, PackFile(name), PackBytes(w.p, items));
    var late := AtomicWrite(n + 1, t + 1, IndexFile(name), PackIndex(w.p, items))[..k - 5];
    assert Steps(w.p, WriteOp(items), n, t)[..k] == first + late;
    RevivedHeld(w, fs, n, t, items, late);
    WriteStepsKeep(w, fs, items, n, t, k);
    HeldServes(w, ApplyAll(fs, first + late), n + 2, t + 2, items, ns, content, order);
  }
}
