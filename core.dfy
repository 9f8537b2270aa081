/** The VlanManager object: the list of VLAN records it holds, the file it persists them to,
    and the methods that change the list and write the host's network configuration. */
module Core {
  import opened Results
  import opened Text
  import opened Records
  import opened Directory
  import opened Networkd
  import opened SystemdConfig
  import opened Nftables

  // ---------------------------------------------------------------------------
  // The host the manager works on

  /** The JSON data file: missing, unloadable (open or json.load raises), or a stored list of
      records. */
  datatype DataFile = Missing | Unloadable | Stored(records: seq<Vlan>)

  /** load_vlans: a missing or unloadable file yields the empty list. */
  function LoadVlans(f: DataFile): seq<Vlan> {
    if f.Stored? then f.records else []
  }

  /** What a command-line tool does when run: exits 0, exits non-zero, is not installed
      (subprocess.run raises FileNotFoundError) or may not be executed (subprocess.run raises
      PermissionError). */
  datatype ToolStatus = Succeeds | ExitsNonZero | NotInstalled | NotPermitted

  /** subprocess.run raises before the program runs. */
  predicate LaunchFails(s: ToolStatus) {
    s.NotInstalled? || s.NotPermitted?
  }

  /** What a handler of FileNotFoundError and CalledProcessError around subprocess.run(...,
      check=True) lets through. */
  predicate EscapesGuard(s: ToolStatus) {
    s.NotPermitted?
  }

  /** Why open(path, 'w') raises. */
  datatype IoError = PermissionDenied(path: string)

  /** Why apply_config re-raises. */
  datatype ApplyError = Systemd(fs: FsError) | Io(io: IoError) | CannotRun(program: string, status: ToolStatus)

  /** The parts of the machine the manager reads and writes: the data file, the systemd
      network directory, the other text files it writes (by path), the paths it may not
      write, and the commands it has run (argument vectors, in order). */
  class Host {
    var dataFile: DataFile
    var network: Tree
    var files: map<string, string>
    var readOnly: set<string>
    var commands: seq<seq<string>>
  }

  /** The settings VlanManager reads from Config. */
  datatype Settings = Settings(parentInterface: string, wanInterface: string, nftablesDir: string)

  const NftablesIncludeFile: string := "vlans.nft"
  const SysctlFile: string := "/etc/sysctl.d/99-vlan-manager.conf"
  const SysctlContent: string := "net.ipv4.ip_forward=1\n"

  /** The commands apply_config runs, as argument vectors. */
  const SysctlCommand: seq<string> := ["sysctl", "-p", SysctlFile]
  const ReloadCommand: seq<string> := ["networkctl", "reload"]

  const NftProgram: string := "nft"

  function NftCommand(path: string): seq<string> {
    [NftProgram, "-f", path]
  }

  /** os.path.join(dir, name) for a relative name. */
  function PathJoin(dir: string, name: string): (r: string)
    ensures EndsWith(r, name)
    ensures StartsWith(r, dir)
    ensures dir != [] && dir[|dir| - 1] != '/' ==> r == dir + "/" + name
  {
    EndsWithConcat(if dir == [] || dir[|dir| - 1] == '/' then dir else dir + "/", name);
    StartsWithConcat(dir, if dir == [] || dir[|dir| - 1] == '/' then name else "/" + name);
    assert dir + "/" + name == dir + ("/" + name);
    if dir == [] || dir[|dir| - 1] == '/' then dir + name else dir + "/" + name
  }

  /** The path generate_nftables_config writes and returns. */
  function NftablesPath(config: Settings): string {
    PathJoin(config.nftablesDir, NftablesIncludeFile)
  }

  /** What apply_config leaves behind besides the network directory. */
  datatype Effects = Effects(files: map<string, string>, commands: seq<seq<string>>, outcome: Outcome<ApplyError>)

  /** The part of apply_config after generate_systemd_config: the ruleset text is written to
      path, the sysctl file is written, and the three commands are run. A write that fails
      raises and stops the rest. sysctl raises when it cannot be started at all; networkctl
      and nft raise only when they may not be executed, since their handlers catch a missing
      program and a non-zero exit. */
  function Deploy(files: map<string, string>, readOnly: set<string>, commands: seq<seq<string>>,
                  rules: string, path: string, status: string -> ToolStatus): Effects
  {
    if path in readOnly then Effects(files, commands, Fail(Io(PermissionDenied(path))))
    else if SysctlFile in readOnly then Effects(files[path := rules], commands, Fail(Io(PermissionDenied(SysctlFile))))
    else
      var written := files[path := rules][SysctlFile := SysctlContent];
      var sysctl, reload, nft := status(SysctlCommand[0]), status(ReloadCommand[0]), status(NftProgram);
      if LaunchFails(sysctl) then
        Effects(written, commands + [SysctlCommand], Fail(CannotRun(SysctlCommand[0], sysctl)))
      else if EscapesGuard(reload) then
        Effects(written, commands + [SysctlCommand, ReloadCommand], Fail(CannotRun(ReloadCommand[0], reload)))
      else if EscapesGuard(nft) then
        Effects(written, commands + [SysctlCommand, ReloadCommand, NftCommand(path)], Fail(CannotRun(NftProgram, nft)))
      else
        Effects(written, commands + [SysctlCommand, ReloadCommand, NftCommand(path)], Pass)
  }

  /** The include path ends in "vlans.nft", so it is never the sysctl file. */
  lemma NftablesPathNotSysctl(config: Settings)
    ensures NftablesPath(config) != SysctlFile
  {
    var p := NftablesPath(config);
    assert p[|p| - 1] == NftablesIncludeFile[8];
    assert SysctlFile[|SysctlFile| - 1] == 'f';
  }

  /** The three programs can be launched as far as apply_config cares. */
  predicate ToolsRun(status: string -> ToolStatus) {
    && !LaunchFails(status(SysctlCommand[0]))
    && !EscapesGuard(status(ReloadCommand[0]))
    && !EscapesGuard(status(NftProgram))
  }

  /** apply_config succeeds exactly when both files can be written and the programs can be
      launched; then the include file holds the ruleset, the sysctl file enables forwarding,
      and the three commands ran in order, nft on the file just written. */
  lemma DeploySucceeds(files: map<string, string>, readOnly: set<string>, commands: seq<seq<string>>,
                       rules: string, config: Settings, status: string -> ToolStatus)
    ensures var path := NftablesPath(config); var d := Deploy(files, readOnly, commands, rules, path, status);
      && (d.outcome.Pass? <==> path !in readOnly && SysctlFile !in readOnly && ToolsRun(status))
      && (d.outcome.Pass? ==>
            && path in d.files && d.files[path] == rules
            && SysctlFile in d.files && d.files[SysctlFile] == SysctlContent
            && d.commands == commands + [SysctlCommand, ReloadCommand, NftCommand(path)])
  {
    NftablesPathNotSysctl(config);
  }

  /** A command runs only after both files are written, a failed write leaves the commands
      untouched, and a program that cannot be launched is the last command tried. */
  lemma DeployWritesBeforeRunning(files: map<string, string>, readOnly: set<string>, commands: seq<seq<string>>,
                                  rules: string, config: Settings, status: string -> ToolStatus)
    ensures var path := NftablesPath(config); var d := Deploy(files, readOnly, commands, rules, path, status);
      && (d.commands != commands ==>
            path in d.files && d.files[path] == rules && SysctlFile in d.files && d.files[SysctlFile] == SysctlContent)
      && (path in readOnly ==> d.files == files && d.commands == commands)
      && (d.outcome.Fail? && d.outcome.error.Io? ==> d.commands == commands)
      && (d.outcome.Fail? && d.outcome.error.CannotRun? ==>
            |d.commands| > |commands| && d.commands[|d.commands| - 1][0] == d.outcome.error.program)
  {
    NftablesPathNotSysctl(config);
  }

  /** A non-zero exit of any of the three programs, and a missing networkctl or nft, makes no
      difference to what apply_config does. */
  lemma DeployIgnoresToolFailures(files: map<string, string>, readOnly: set<string>, commands: seq<seq<string>>,
                                  rules: string, path: string, s1: string -> ToolStatus, s2: string -> ToolStatus)
    requires LaunchFails(s1(SysctlCommand[0])) || LaunchFails(s2(SysctlCommand[0])) ==>
      s1(SysctlCommand[0]) == s2(SysctlCommand[0])
    requires EscapesGuard(s1(ReloadCommand[0])) == EscapesGuard(s2(ReloadCommand[0]))
    requires EscapesGuard(s1(NftProgram)) == EscapesGuard(s2(NftProgram))
    ensures Deploy(files, readOnly, commands, rules, path, s1) == Deploy(files, readOnly, commands, rules, path, s2)
  {
  }

  // ---------------------------------------------------------------------------
  // The manager

  class VlanManager {
    const config: Settings
    const host: Host
    var vlans: seq<Vlan>

    /** __init__: the list is whatever the data file holds. */
    constructor (config: Settings, host: Host)
      ensures this.config == config && this.host == host
      ensures vlans == LoadVlans(host.dataFile)
    {
      this.config := config;
      this.host := host;
      vlans := LoadVlans(host.dataFile);
    }

    /** save_vlans: the data file holds the list; nothing else on the host changes. */
    method SaveVlans()
      modifies host
      ensures host.dataFile == Stored(vlans)
      ensures host.network == old(host.network) && host.files == old(host.files)
      ensures host.readOnly == old(host.readOnly) && host.commands == old(host.commands)
    {
      host.dataFile := Stored(vlans);
    }

    /** get_vlans */
    method GetVlans() returns (r: seq<Vlan>)
      ensures r == vlans
    {
      r := vlans;
    }

    /** add_vlan: on success the record is appended and the list saved; on any error
        neither the list nor the host changes. */
    method AddVlan(input: VlanInput, cidrValid: string -> bool) returns (r: Outcome<AddError>)
      modifies this, host
      ensures var out := AddOutcome(old(vlans), input, cidrValid);
        && (out.Failure? ==> r == Fail(out.error) && vlans == old(vlans) && host.dataFile == old(host.dataFile))
        && (out.Success? ==> r == Pass && vlans == old(vlans) + [out.value] && host.dataFile == Stored(vlans))
      ensures host.network == old(host.network) && host.files == old(host.files)
      ensures host.readOnly == old(host.readOnly) && host.commands == old(host.commands)
    {
      if input.id.DoesNotParse? {
        return Fail(InvalidVlanId);
      }
      var n := input.id.n;
      if n < MinVlanId || n > MaxVlanId {
        return Fail(InvalidVlanId);
      }
      var i := 0;
      while i < |vlans|
        invariant 0 <= i <= |vlans|
        invariant forall j :: 0 <= j < i ==> vlans[j].id != n
      {
        if vlans[i].id == n {
          return Fail(DuplicateVlanId(n));
        }
        i := i + 1;
      }
      if !cidrValid(input.cidr) {
        return Fail(InvalidCidr);
      }
      vlans := vlans + [Coerce(n, input)];
      SaveVlans();
      r := Pass;
    }

    /** delete_vlan: every record whose id renders as str(key) is dropped, the others keep
        their order, and the list is saved. */
    method DeleteVlan(key: VlanKey)
      modifies this, host
      ensures vlans == RemoveId(old(vlans), KeyString(key))
      ensures host.dataFile == Stored(vlans)
      ensures host.network == old(host.network) && host.files == old(host.files)
      ensures host.readOnly == old(host.readOnly) && host.commands == old(host.commands)
    {
      vlans := RemoveId(vlans, KeyString(key));
      SaveVlans();
    }

    /** _find_parent_config_file(network_dir, iface) */
    method FindParentConfigFile(iface: string) returns (f: string)
      ensures f == ParentConfigFile(View(host.network), iface)
    {
      if !host.network.present {
        return iface + ".network";
      }
      var d := host.network.root;
      var names := d.listing;
      var i := 0;
      while i < |names|
        invariant 0 <= i <= |names|
        invariant FirstMatch(d, names[i..], iface) == FirstMatch(d, names, iface)
      {
        assert names[i..][1..] == names[i + 1..];
        if NamesInterface(d, names[i], iface) {
          return names[i];
        }
        i := i + 1;
      }
      return "10-" + iface + ".network";
    }

    /** One directory's loop of _cleanup_configs over the names listed when it started. */
    static method PruneLoop(d: Dir, p: Pattern) returns (r: Dir)
      ensures r == Prune(d, p)
    {
      var names := d.listing;
      r := d;
      var i := 0;
      while i < |names|
        invariant 0 <= i <= |names|
        invariant r == PruneNames(d, names[..i], p)
      {
        assert names[..i + 1][..i] == names[..i];
        if Matches(p, names[i]) && names[i] in r.entries && !r.entries[names[i]].Folder? {
          r := Delete(r, names[i]);
        }
        i := i + 1;
      }
      assert names[..i] == names;
    }

    /** _cleanup_configs(network_dir, parent_dropin_dir) */
    method CleanupConfigs(drop: string) returns (r: Outcome<FsError>)
      modifies host
      ensures GenRun(host.network, r) == Cleanup(old(host.network), drop)
      ensures host.dataFile == old(host.dataFile) && host.files == old(host.files)
      ensures host.readOnly == old(host.readOnly) && host.commands == old(host.commands)
    {
      if host.network.present {
        var root := PruneLoop(host.network.root, UnitPattern);
        host.network := host.network.(root := root);
        if drop in host.network.root.entries && !host.network.root.entries[drop].Folder? {
          return Fail(NotADirectory(drop));
        }
      }
      if drop in host.network.subdirs {
        var dir := PruneLoop(host.network.subdirs[drop], DropInPattern);
        host.network := host.network.(subdirs := host.network.subdirs[drop := dir]);
      }
      r := Pass;
    }

    /** One iteration of the write loop: the .netdev, the .network and the drop-in, each
        open(..., 'w') on a sub-directory raising. */
    static method WriteVlan(s: Dirs, v: Vlan) returns (e: Emission)
      ensures e == EmitVlan(s, v)
    {
      var w := Write(s.network, NetdevName(v.id), NetdevContent(v.id));
      if w.Failure? {
        return Emission(s, Fail(w.error));
      }
      var network := w.value;
      w := Write(network, NetworkName(v.id), NetworkContent(v));
      if w.Failure? {
        return Emission(Dirs(network, s.dropIn), Fail(w.error));
      }
      network := w.value;
      w := Write(s.dropIn, DropInName(v.id), DropInContent(v.id));
      if w.Failure? {
        return Emission(Dirs(network, s.dropIn), Fail(w.error));
      }
      e := Emission(Dirs(network, w.value), Pass);
    }

    /** The write loop of generate_systemd_config: one iteration per record, stopping at the
        first write that raises. */
    static method WriteLoop(start: Dirs, vlans: seq<Vlan>) returns (e: Emission)
      ensures e == EmitAll(start, vlans)
    {
      e := Emission(start, Pass);
      assert vlans[..0] == [];
      var i := 0;
      while i < |vlans|
        invariant 0 <= i <= |vlans|
        invariant e == EmitAll(start, vlans[..i]) && e.outcome.Pass?
      {
        assert vlans[..i + 1][..i] == vlans[..i] && vlans[..i + 1][i] == vlans[i];
        e := WriteVlan(e.dirs, vlans[i]);
        assert e == EmitAll(start, vlans[..i + 1]);
        if e.outcome.Fail? {
          EmitAllStops(start, vlans, i + 1);
          return;
        }
        i := i + 1;
      }
      assert vlans[..i] == vlans;
    }

    /** generate_systemd_config: create the directories, find the parent's drop-in
        directory, clean up, then write three files per VLAN. */
    method GenerateSystemdConfig() returns (r: Outcome<FsError>)
      modifies host
      ensures GenRun(host.network, r) == Generate(old(host.network), vlans, config.parentInterface)
      ensures host.dataFile == old(host.dataFile) && host.files == old(host.files)
      ensures host.readOnly == old(host.readOnly) && host.commands == old(host.commands)
    {
      if !host.network.present {
        host.network := Tree(true, EmptyDir, map[]);
      }
      var parent := FindParentConfigFile(config.parentInterface);
      var drop := parent + ".d";
      if drop in host.network.root.entries && !host.network.root.entries[drop].Folder? {
        return Fail(FileExists(drop));
      }
      host.network := MakeDropInDir(host.network, drop);
      r := CleanupConfigs(drop);
      if r.Fail? {
        return;
      }
      var e := WriteLoop(Dirs(host.network.root, host.network.subdirs[drop]), vlans);
      host.network := host.network.(root := e.dirs.network, subdirs := host.network.subdirs[drop := e.dirs.dropIn]);
      r := e.outcome;
    }

    /** The first loop of generate_nftables_config: a forward rule per NAT VLAN. */
    static method AppendForwardRules(lines: seq<string>, vlans: seq<Vlan>, wan: string) returns (r: seq<string>)
      ensures r == lines + ForwardRules(vlans, wan)
    {
      r := lines;
      var i := 0;
      while i < |vlans|
        invariant 0 <= i <= |vlans|
        invariant r == lines + ForwardRules(vlans[..i], wan)
      {
        assert vlans[..i + 1][..i] == vlans[..i];
        if vlans[i].natEnabled {
          r := r + [ForwardRule(vlans[i], wan)];
        }
        i := i + 1;
      }
      assert vlans[..i] == vlans;
    }

    /** The second loop of generate_nftables_config: a masquerade rule per NAT VLAN. */
    static method AppendMasqueradeRules(lines: seq<string>, vlans: seq<Vlan>, wan: string) returns (r: seq<string>)
      ensures r == lines + MasqueradeRules(vlans, wan)
    {
      r := lines;
      var i := 0;
      while i < |vlans|
        invariant 0 <= i <= |vlans|
        invariant r == lines + MasqueradeRules(vlans[..i], wan)
      {
        assert vlans[..i + 1][..i] == vlans[..i];
        if vlans[i].natEnabled {
          r := r + [MasqueradeRule(vlans[i], wan)];
        }
        i := i + 1;
      }
      assert vlans[..i] == vlans;
    }

    /** generate_nftables_config: the ruleset text is written to the include file, whose
        path is returned; a path that cannot be written raises. */
    method GenerateNftablesConfig() returns (r: Result<string, IoError>)
      modifies host
      ensures var path := NftablesPath(config);
        && (path in old(host.readOnly) ==> r == Failure(PermissionDenied(path)) && host.files == old(host.files))
        && (path !in old(host.readOnly) ==>
              r == Success(path) && host.files == old(host.files)[path := RulesetText(vlans, config.wanInterface)])
      ensures host.dataFile == old(host.dataFile) && host.network == old(host.network)
      ensures host.readOnly == old(host.readOnly) && host.commands == old(host.commands)
    {
      var wan := config.wanInterface;
      var lines := Header;
      lines := AppendForwardRules(lines, vlans, wan);
      lines := lines + Middle;
      lines := AppendMasqueradeRules(lines, vlans, wan);
      lines := lines + Trailer;
      var path := PathJoin(config.nftablesDir, NftablesIncludeFile);
      if path in host.readOnly {
        return Failure(PermissionDenied(path));
      }
      host.files := host.files[path := Join(lines)];
      r := Success(path);
    }

    /** apply_config: generate_systemd_config, then the rest of Deploy; whatever raises
        is re-raised. */
    method ApplyConfig(status: string -> ToolStatus) returns (r: Outcome<ApplyError>)
      modifies host
      ensures var g := Generate(old(host.network), vlans, config.parentInterface);
        && host.network == g.tree
        && host.dataFile == old(host.dataFile) && host.readOnly == old(host.readOnly)
        && (g.outcome.Fail? ==>
              r == Fail(Systemd(g.outcome.error)) && host.files == old(host.files) && host.commands == old(host.commands))
        && (g.outcome.Pass? ==>
              Effects(host.files, host.commands, r) ==
              Deploy(old(host.files), old(host.readOnly), old(host.commands), RulesetText(vlans, config.wanInterface),
                     NftablesPath(config), status))
    {
      var g := GenerateSystemdConfig();
      if g.Fail? {
        return Fail(Systemd(g.error));
      }
      r := DeployConfig(status);
    }

    /** The try-block of apply_config after generate_systemd_config. */
    method DeployConfig(status: string -> ToolStatus) returns (r: Outcome<ApplyError>)
      modifies host
      ensures Effects(host.files, host.commands, r) ==
        Deploy(old(host.files), old(host.readOnly), old(host.commands), RulesetText(vlans, config.wanInterface),
               NftablesPath(config), status)
      ensures host.network == old(host.network) && host.dataFile == old(host.dataFile)
      ensures host.readOnly == old(host.readOnly)
    {
      ghost var commands := host.commands;
      var nft := GenerateNftablesConfig();
      if nft.Failure? {
        return Fail(Io(nft.error));
      }
      var nftFile := nft.value;
      if SysctlFile in host.readOnly {
        return Fail(Io(PermissionDenied(SysctlFile)));
      }
      host.files := host.files[SysctlFile := SysctlContent];
      host.commands := host.commands + [SysctlCommand];
      var s := status(SysctlCommand[0]);
      if LaunchFails(s) {
        return Fail(CannotRun(SysctlCommand[0], s));
      }
      host.commands := host.commands + [ReloadCommand];
      s := status(ReloadCommand[0]);
      if EscapesGuard(s) {
        assert host.commands == commands + [SysctlCommand, ReloadCommand];
        return Fail(CannotRun(ReloadCommand[0], s));
      }
      host.commands := host.commands + [NftCommand(nftFile)];
      assert host.commands == commands + [SysctlCommand, ReloadCommand, NftCommand(nftFile)];
      s := status(NftProgram);
      if EscapesGuard(s) {
        return Fail(CannotRun(NftProgram, s));
      }
      r := Pass;
    }
  }
}
