/** generate_systemd_config as a whole: the network directory with its sub-directories, the
    steps the method takes on it, and what it holds afterwards. */
module SystemdConfig {
  import opened Results
  import opened Records
  import opened Directory
  import opened Networkd

  /** The network directory: whether it exists, its own entries, and the entries of each of
      its sub-directories. */
  datatype Tree = Tree(present: bool, root: Dir, subdirs: map<string, Dir>)

  /** A missing directory is empty, every entry is listed, and the sub-directories are
      exactly the Folder entries. */
  ghost predicate TreeWF(t: Tree) {
    && (!t.present ==> t.root == EmptyDir && t.subdirs == map[])
    && Listed(t.root)
    && (forall s :: s in t.subdirs <==> FolderAt(t.root, s))
    && (forall s :: s in t.subdirs ==> Listed(t.subdirs[s]))
  }

  /** What os.path.exists followed by os.listdir sees of the network directory. */
  function View(t: Tree): Option<Dir> {
    if t.present then Some(t.root) else None
  }

  /** The entries of a sub-directory; a missing one is empty. */
  function Contents(t: Tree, s: string): Dir {
    if s in t.subdirs then t.subdirs[s] else EmptyDir
  }

  /** The network directory after a call and whether the call returned normally. */
  datatype GenRun = GenRun(tree: Tree, outcome: Outcome<FsError>)

  /** os.makedirs(network_dir, exist_ok=True) */
  function MakeNetworkDir(t: Tree): Tree {
    if t.present then t else Tree(true, EmptyDir, map[])
  }

  /** os.makedirs(parent_dropin_dir, exist_ok=True) raises when the name holds something
      other than a directory. */
  predicate DropInDirBlocked(t: Tree, drop: string) {
    drop in t.root.entries && !t.root.entries[drop].Folder?
  }

  /** os.makedirs(parent_dropin_dir, exist_ok=True) when it does not raise. */
  function MakeDropInDir(t: Tree, drop: string): Tree {
    Tree(t.present,
         if drop in t.root.entries then t.root else Put(t.root, drop, Folder),
         if drop in t.subdirs then t.subdirs else t.subdirs[drop := EmptyDir])
  }

  /** _cleanup_configs(network_dir, parent_dropin_dir): each directory that exists is
      pruned; listing a drop-in name that is not a directory raises, after the network
      directory has been pruned. */
  function Cleanup(t: Tree, drop: string): (r: GenRun)
    ensures r.tree.present == t.present && r.tree.subdirs.Keys == t.subdirs.Keys
  {
    var root := if t.present then Prune(t.root, UnitPattern) else t.root;
    if t.present && DropInDirBlocked(Tree(t.present, root, t.subdirs), drop) then
      GenRun(Tree(t.present, root, t.subdirs), Fail(NotADirectory(drop)))
    else if drop in t.subdirs then GenRun(Tree(t.present, root, t.subdirs[drop := Prune(t.subdirs[drop], DropInPattern)]), Pass)
    else GenRun(Tree(t.present, root, t.subdirs), Pass)
  }

  /** The name of the parent interface's drop-in directory, once the network directory exists. */
  function DropInDir(t: Tree, iface: string): string {
    ParentConfigFile(View(MakeNetworkDir(t)), iface) + ".d"
  }

  /** The directories as the write loop finds them: after both makedirs and the cleanup. */
  function WriteStart(t: Tree, iface: string): Dirs {
    var t1, drop := MakeNetworkDir(t), DropInDir(t, iface);
    Dirs(Prune(MakeDropInDir(t1, drop).root, UnitPattern), Prune(Contents(t1, drop), DropInPattern))
  }

  /** generate_systemd_config with parent interface iface. */
  function Generate(t: Tree, vlans: seq<Vlan>, iface: string): GenRun {
    var t1 := MakeNetworkDir(t);
    var drop := ParentConfigFile(View(t1), iface) + ".d";
    if DropInDirBlocked(t1, drop) then GenRun(t1, Fail(FileExists(drop)))
    else
      var c := Cleanup(MakeDropInDir(t1, drop), drop);
      if c.outcome.Fail? then c
      else
        var t3 := c.tree;
        var e := EmitAll(Dirs(t3.root, t3.subdirs[drop]), vlans);
        GenRun(Tree(true, e.dirs.network, t3.subdirs[drop := e.dirs.dropIn]), e.outcome)
  }

  // ---------------------------------------------------------------------------
  // The stages

  /** The drop-in directory's name ends in ".d", so it is no generated unit file. */
  lemma DropInDirNotGenerated(parent: string)
    ensures !IsGeneratedUnit(parent + ".d")
  {
    var d := parent + ".d";
    assert d[|d| - 1] == 'd';
  }

  /** Creating the directories keeps the tree well formed and leaves the drop-in directory a
      listed sub-directory. */
  lemma MakeDirsWF(t: Tree, drop: string)
    requires TreeWF(t) && !DropInDirBlocked(MakeNetworkDir(t), drop)
    ensures var t1 := MakeNetworkDir(t); var t2 := MakeDropInDir(t1, drop);
      && TreeWF(t1) && TreeWF(t2) && t2.present
      && drop in t2.subdirs && t2.subdirs[drop] == Contents(t1, drop)
      && (forall n :: EntryAt(t2.root, n) == if n == drop then Some(Folder) else EntryAt(t1.root, n))
      && (forall s :: s != drop ==> (s in t2.subdirs <==> s in t1.subdirs))
      && (forall s :: s != drop && s in t1.subdirs ==> t2.subdirs[s] == t1.subdirs[s])
  {
  }

  /** When the drop-in directory can be created, the call reaches the write loop, which
      starts from WriteStart. */
  lemma GenerateUnfold(t: Tree, vlans: seq<Vlan>, iface: string)
    requires TreeWF(t)
    requires !DropInDirBlocked(MakeNetworkDir(t), DropInDir(t, iface))
    ensures var t2, drop, e := MakeDropInDir(MakeNetworkDir(t), DropInDir(t, iface)), DropInDir(t, iface), EmitAll(WriteStart(t, iface), vlans);
      Generate(t, vlans, iface) == GenRun(Tree(true, e.dirs.network, t2.subdirs[drop := e.dirs.dropIn]), e.outcome)
  {
    var t1, drop := MakeNetworkDir(t), DropInDir(t, iface);
    var t2 := MakeDropInDir(t1, drop);
    MakeDirsWF(t, drop);
    PruneEffect(t2.root, UnitPattern);
    assert EntryAt(Prune(t2.root, UnitPattern), drop) == Some(Folder);
    var t3 := Tree(true, Prune(t2.root, UnitPattern), t2.subdirs[drop := Prune(t2.subdirs[drop], DropInPattern)]);
    assert Cleanup(t2, drop) == GenRun(t3, Pass);
    assert Dirs(t3.root, t3.subdirs[drop]) == WriteStart(t, iface);
    var e := EmitAll(WriteStart(t, iface), vlans);
    assert t3.subdirs[drop := e.dirs.dropIn] == t2.subdirs[drop := e.dirs.dropIn];
  }

  /** The cleanup removes the generated names and no sub-directory; the drop-in directory is
      not among what it removes. */
  lemma WriteStartEntries(t: Tree, iface: string)
    requires TreeWF(t)
    requires !DropInDirBlocked(MakeNetworkDir(t), DropInDir(t, iface))
    ensures var t1, drop, s := MakeNetworkDir(t), DropInDir(t, iface), WriteStart(t, iface);
      && Listed(s.network) && Listed(s.dropIn)
      && (forall n :: EntryAt(s.network, n) ==
            if n == drop then Some(Folder)
            else if IsGeneratedUnit(n) && n in t1.root.entries && !t1.root.entries[n].Folder? then None
            else EntryAt(t1.root, n))
      && (forall n :: EntryAt(s.dropIn, n) ==
            if Doomed(Contents(t1, drop), n, DropInPattern) then None else EntryAt(Contents(t1, drop), n))
  {
    var t1, drop := MakeNetworkDir(t), DropInDir(t, iface);
    MakeDirsWF(t, drop);
    DropInDirNotGenerated(ParentConfigFile(View(t1), iface));
    PruneEffect(MakeDropInDir(t1, drop).root, UnitPattern);
    PruneEffect(Contents(t1, drop), DropInPattern);
  }

  /** The write loop finds the same sub-directories as there were, plus the drop-in directory. */
  lemma WriteStartFolders(t: Tree, iface: string)
    requires TreeWF(t)
    requires !DropInDirBlocked(MakeNetworkDir(t), DropInDir(t, iface))
    ensures var t1, drop, s := MakeNetworkDir(t), DropInDir(t, iface), WriteStart(t, iface);
      && (forall n :: FolderAt(s.network, n) <==> n == drop || FolderAt(t1.root, n))
      && (forall n :: FolderAt(s.dropIn, n) <==> FolderAt(Contents(t1, drop), n))
  {
    var t1, drop, s := MakeNetworkDir(t), DropInDir(t, iface), WriteStart(t, iface);
    var d := Contents(t1, drop);
    WriteStartEntries(t, iface);
    forall n ensures FolderAt(s.dropIn, n) <==> FolderAt(d, n) {
      assert EntryAt(s.dropIn, n) == if Doomed(d, n, DropInPattern) then None else EntryAt(d, n);
    }
  }

  /** Every name the loop writes into the network directory is a generated one. */
  lemma UnitFilesGenerated(vlans: seq<Vlan>)
    ensures forall n :: n in UnitFiles(vlans) ==> IsGeneratedUnit(n)
    ensures forall n :: n in DropInFiles(vlans) ==> IsGeneratedDropIn(n)
  {
    forall n | n in UnitFiles(vlans) ensures IsGeneratedUnit(n) {
      UnitFileOwner(vlans, n);
      var i :| 0 <= i < |vlans| && (n == NetdevName(vlans[i].id) || n == NetworkName(vlans[i].id));
      GeneratedNamesMatch(vlans[i].id);
    }
    forall n | n in DropInFiles(vlans) ensures IsGeneratedDropIn(n) {
      DropInFileOwner(vlans, n);
      var i :| 0 <= i < |vlans| && n == DropInName(vlans[i].id);
      GeneratedNamesMatch(vlans[i].id);
    }
  }

  // ---------------------------------------------------------------------------
  // What generate_systemd_config does

  /** The call raises at os.makedirs when the drop-in name holds a file, and otherwise runs
      to the end exactly when none of the names it writes is a sub-directory. */
  lemma GenerateOutcome(t: Tree, vlans: seq<Vlan>, iface: string)
    requires TreeWF(t)
    ensures var t1, drop := MakeNetworkDir(t), DropInDir(t, iface);
      && (DropInDirBlocked(t1, drop) ==> Generate(t, vlans, iface) == GenRun(t1, Fail(FileExists(drop))))
      && (!DropInDirBlocked(t1, drop) ==>
            (Generate(t, vlans, iface).outcome.Pass? <==> Unblocked(Dirs(t1.root, Contents(t1, drop)), vlans)))
  {
    var t1, drop := MakeNetworkDir(t), DropInDir(t, iface);
    if !DropInDirBlocked(t1, drop) {
      GenerateUnfold(t, vlans, iface);
      EmitAllOutcome(WriteStart(t, iface), vlans);
      WriteStartFolders(t, iface);
      forall i | 0 <= i < |vlans| ensures drop != NetdevName(vlans[i].id) && drop != NetworkName(vlans[i].id) {
        DropInDirNotUnit(ParentConfigFile(View(t1), iface), vlans[i].id);
      }
    }
  }

  /** After a run to the end, every VLAN has its .netdev and its drop-in, and the .network of
      an id holds the last record with that id. */
  lemma GenerateWrites(t: Tree, vlans: seq<Vlan>, iface: string, i: int)
    requires TreeWF(t) && Generate(t, vlans, iface).outcome.Pass? && 0 <= i < |vlans|
    ensures var r, drop, v := Generate(t, vlans, iface).tree, DropInDir(t, iface), vlans[i];
      && EntryAt(r.root, NetdevName(v.id)) == Some(File(NetdevContent(v.id)))
      && (LastWithId(vlans, i) ==> EntryAt(r.root, NetworkName(v.id)) == Some(File(NetworkContent(v))))
      && drop in r.subdirs
      && EntryAt(r.subdirs[drop], DropInName(v.id)) == Some(File(DropInContent(v.id)))
  {
    GenerateUnfold(t, vlans, iface);
    EmitAllContents(WriteStart(t, iface), vlans);
    NetdevFileWritten(vlans, i);
    DropInFileWritten(vlans, i);
    if LastWithId(vlans, i) {
      NetworkFileWritten(vlans, i);
    }
  }

  /** After a run to the end, every generated file left behind belongs to a current VLAN: the
      files of deleted VLANs are gone. */
  lemma GenerateNoStale(t: Tree, vlans: seq<Vlan>, iface: string)
    requires TreeWF(t) && Generate(t, vlans, iface).outcome.Pass?
    ensures var r, drop := Generate(t, vlans, iface).tree, DropInDir(t, iface);
      && (forall n :: n in r.root.entries && IsGeneratedUnit(n) && !r.root.entries[n].Folder? ==>
            exists i :: 0 <= i < |vlans| && (n == NetdevName(vlans[i].id) || n == NetworkName(vlans[i].id)))
      && drop in r.subdirs
      && (forall n :: n in r.subdirs[drop].entries && IsGeneratedDropIn(n) && !r.subdirs[drop].entries[n].Folder? ==>
            exists i :: 0 <= i < |vlans| && n == DropInName(vlans[i].id))
  {
    var t1, drop, s := MakeNetworkDir(t), DropInDir(t, iface), WriteStart(t, iface);
    GenerateUnfold(t, vlans, iface);
    var e := EmitAll(s, vlans);
    EmitAllContents(s, vlans);
    EmitAllKeepsFolders(s, vlans);
    WriteStartEntries(t, iface);
    WriteStartFolders(t, iface);
    DropInDirNotGenerated(ParentConfigFile(View(t1), iface));
    forall n | n in e.dirs.network.entries && IsGeneratedUnit(n) && !e.dirs.network.entries[n].Folder?
      ensures exists i :: 0 <= i < |vlans| && (n == NetdevName(vlans[i].id) || n == NetworkName(vlans[i].id))
    {
      assert EntryAt(e.dirs.network, n) == Overlay(s.network, UnitFiles(vlans), n);
      assert EntryAt(s.network, n) == if n in t1.root.entries && !t1.root.entries[n].Folder? then None else EntryAt(t1.root, n);
      assert n in UnitFiles(vlans);
      UnitFileOwner(vlans, n);
    }
    forall n | n in e.dirs.dropIn.entries && IsGeneratedDropIn(n) && !e.dirs.dropIn.entries[n].Folder?
      ensures exists i :: 0 <= i < |vlans| && n == DropInName(vlans[i].id)
    {
      assert EntryAt(e.dirs.dropIn, n) == Overlay(s.dropIn, DropInFiles(vlans), n);
      assert n in DropInFiles(vlans);
      DropInFileOwner(vlans, n);
    }
  }

  /** Whatever the outcome, files that are not generated, the other sub-directories and the
      drop-ins that are not generated keep what they held. */
  lemma GenerateKeepsOthers(t: Tree, vlans: seq<Vlan>, iface: string)
    requires TreeWF(t)
    ensures var t1, drop, r := MakeNetworkDir(t), DropInDir(t, iface), Generate(t, vlans, iface).tree;
      && r.present
      && (forall n :: !IsGeneratedUnit(n) && n != drop ==> EntryAt(r.root, n) == EntryAt(t1.root, n))
      && (forall s :: s != drop ==> (s in r.subdirs <==> s in t1.subdirs))
      && (forall s :: s != drop && s in t1.subdirs ==> r.subdirs[s] == t1.subdirs[s])
      && (!DropInDirBlocked(t1, drop) ==>
            && FolderAt(r.root, drop) && drop in r.subdirs
            && forall n :: !IsGeneratedDropIn(n) ==> EntryAt(r.subdirs[drop], n) == EntryAt(Contents(t1, drop), n))
  {
    var t1, drop, s := MakeNetworkDir(t), DropInDir(t, iface), WriteStart(t, iface);
    if !DropInDirBlocked(t1, drop) {
      GenerateUnfold(t, vlans, iface);
      MakeDirsWF(t, drop);
      WriteStartEntries(t, iface);
      WriteStartFolders(t, iface);
      EmitAllFrame(s, vlans);
      EmitAllKeepsFolders(s, vlans);
      UnitFilesGenerated(vlans);
    }
  }

  /** The tree stays well formed, whatever the outcome. */
  lemma GeneratePreservesWF(t: Tree, vlans: seq<Vlan>, iface: string)
    requires TreeWF(t)
    ensures TreeWF(Generate(t, vlans, iface).tree)
  {
    var t1, drop, s := MakeNetworkDir(t), DropInDir(t, iface), WriteStart(t, iface);
    if !DropInDirBlocked(t1, drop) {
      GenerateUnfold(t, vlans, iface);
      MakeDirsWF(t, drop);
      WriteStartEntries(t, iface);
      WriteStartFolders(t, iface);
      EmitAllKeepsFolders(s, vlans);
    }
  }
}
