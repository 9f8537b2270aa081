/** The systemd-networkd side of VlanManager: the directory it writes into, the three unit
    files rendered per VLAN, the scan for the parent interface's .network file, the cleanup of
    previously generated files, and the whole of generate_systemd_config as a function of the
    directory it starts from. */
module Networkd {
  import opened Results
  import opened Text
  import opened Records
  import opened UnitFile
  import opened Directory

  // ---------------------------------------------------------------------------
  // Names and contents of the generated files

  /** name = f"vlan{vid}": the interface systemd creates for a VLAN. */
  function InterfaceName(id: int): string {
    "vlan" + DecimalString(id)
  }

  function NetdevName(id: int): string {
    "10-" + InterfaceName(id) + ".netdev"
  }

  function NetworkName(id: int): string {
    "10-" + InterfaceName(id) + ".network"
  }

  /** The drop-in that attaches the VLAN to the parent interface. */
  function DropInName(id: int): string {
    "vlan-" + DecimalString(id) + ".conf"
  }

  function NetdevLines(id: int): seq<Line> {
    [Section("NetDev"), Setting(Name, InterfaceName(id)), Setting(Kind, "vlan"), Blank,
     Section("VLAN"), Setting(Id, DecimalString(id)), Blank]
  }

  function DhcpServerValue(dhcp: bool): string {
    if dhcp then "yes" else "no"
  }

  function NetworkLines(v: Vlan): seq<Line> {
    [Section("Match"), Setting(Name, InterfaceName(v.id)), Blank,
     Section("Network"), Setting(Address, v.cidr), Setting(DHCPServer, DhcpServerValue(v.dhcp)),
     Setting(IPMasquerade, "no"), Setting(IPForward, "yes"), Blank]
  }

  function DropInLines(id: int): seq<Line> {
    [Section("Network"), Setting(VLAN, InterfaceName(id)), Blank]
  }

  function NetdevContent(id: int): string {
    FileText(NetdevLines(id))
  }

  function NetworkContent(v: Vlan): string {
    FileText(NetworkLines(v))
  }

  function DropInContent(id: int): string {
    FileText(DropInLines(id))
  }

  /** The rendered lines of the .netdev file. */
  lemma NetdevRendered(id: int)
    ensures var ls := NetdevLines(id);
      RenderAll(ls) == [Render(ls[0]), Render(ls[1]), Render(ls[2]), Render(ls[3]), Render(ls[4]),
                        Render(ls[5]), Render(ls[6])]
  {
    RenderAllAt(NetdevLines(id));
  }

  /** The .netdev text, line by line as the f-string spells it: each line is followed by a
      line break but the last, which is empty, so the text ends in one. */
  lemma NetdevText(id: int)
    ensures NetdevContent(id) ==
      "[NetDev]" + "\n"
      + ("Name=" + InterfaceName(id)) + "\n"
      + "Kind=vlan" + "\n"
      + "" + "\n"
      + "[VLAN]" + "\n"
      + ("Id=" + DecimalString(id)) + "\n"
      + ""
  {
    var ls := NetdevLines(id);
    NetdevRendered(id);
    JoinSeven(Render(ls[0]), Render(ls[1]), Render(ls[2]), Render(ls[3]), Render(ls[4]),
              Render(ls[5]), Render(ls[6]));
    assert Render(ls[0]) == "[NetDev]" && Render(ls[3]) == "" && Render(ls[6]) == "";
    assert Render(ls[1]) == "Name=" + InterfaceName(id);
    assert Render(ls[2]) == "Kind=vlan";
    assert Render(ls[4]) == "[VLAN]";
    assert Render(ls[5]) == "Id=" + DecimalString(id);
  }

  /** The rendered lines of the .network file. */
  lemma NetworkRendered(v: Vlan)
    ensures var ls := NetworkLines(v);
      RenderAll(ls) == [Render(ls[0]), Render(ls[1]), Render(ls[2]), Render(ls[3]), Render(ls[4]),
                        Render(ls[5]), Render(ls[6]), Render(ls[7]), Render(ls[8])]
  {
    RenderAllAt(NetworkLines(v));
  }

  /** The .network text, line by line as the f-string spells it: each line is followed by a
      line break but the last, which is empty, so the text ends in one. */
  lemma NetworkText(v: Vlan)
    ensures NetworkContent(v) ==
      "[Match]" + "\n"
      + ("Name=" + InterfaceName(v.id)) + "\n"
      + "" + "\n"
      + "[Network]" + "\n"
      + ("Address=" + v.cidr) + "\n"
      + ("DHCPServer=" + (if v.dhcp then "yes" else "no")) + "\n"
      + "IPMasquerade=no" + "\n"
      + "IPForward=yes" + "\n"
      + ""
  {
    var ls := NetworkLines(v);
    NetworkRendered(v);
    JoinNine(Render(ls[0]), Render(ls[1]), Render(ls[2]), Render(ls[3]), Render(ls[4]),
             Render(ls[5]), Render(ls[6]), Render(ls[7]), Render(ls[8]));
    assert Render(ls[0]) == "[Match]" && Render(ls[2]) == "" && Render(ls[8]) == "";
    assert Render(ls[1]) == "Name=" + InterfaceName(v.id);
    assert Render(ls[3]) == "[Network]";
    assert Render(ls[4]) == "Address=" + v.cidr;
    assert Render(ls[5]) == "DHCPServer=" + (if v.dhcp then "yes" else "no");
    assert Render(ls[6]) == "IPMasquerade=no";
    assert Render(ls[7]) == "IPForward=yes";
  }

  /** The drop-in text, line by line as the f-string spells it: each line is followed by a
      line break but the last, which is empty, so the text ends in one. */
  lemma DropInText(id: int)
    ensures DropInContent(id) ==
      "[Network]" + "\n"
      + ("VLAN=" + InterfaceName(id)) + "\n"
      + ""
  {
    var ls := DropInLines(id);
    RenderAllAt(ls);
    assert RenderAll(ls) == [Render(ls[0]), Render(ls[1]), Render(ls[2])];
    JoinSnoc([Render(ls[0]), Render(ls[1])], Render(ls[2]));
    JoinSnoc([Render(ls[0])], Render(ls[1]));
    assert [Render(ls[0])] + [Render(ls[1])] == [Render(ls[0]), Render(ls[1])];
    assert [Render(ls[0]), Render(ls[1])] + [Render(ls[2])] == RenderAll(ls);
    assert Render(ls[0]) == "[Network]" && Render(ls[2]) == "";
    assert Render(ls[1]) == "VLAN=" + InterfaceName(id);
  }

  lemma InterfaceNameNoNewline(id: int)
    ensures NoNewline(InterfaceName(id))
  {
    DecimalStringNoNewline(id);
    NoNewlineConcat("vlan", DecimalString(id));
  }

  /** The .netdev file declares a VLAN device named vlan<id> with VLAN id <id>. */
  lemma NetdevSettings(id: int)
    ensures var ls := NetdevLines(id);
      && SettingValue(ls, Name) == Some(InterfaceName(id))
      && SettingValue(ls, Kind) == Some("vlan")
      && SettingValue(ls, Id) == Some(DecimalString(id))
  {
    var ls := NetdevLines(id);
    SettingAt(ls, Name, 1, InterfaceName(id));
    SettingAt(ls, Kind, 2, "vlan");
    SettingAt(ls, Id, 5, DecimalString(id));
  }

  /** The .network file matches vlan<id>, carries the CIDR verbatim and enables the DHCP
      server exactly when dhcp is set. */
  lemma NetworkSettings(v: Vlan)
    ensures var ls := NetworkLines(v);
      && SettingValue(ls, Name) == Some(InterfaceName(v.id))
      && SettingValue(ls, Address) == Some(v.cidr)
      && SettingValue(ls, DHCPServer) == Some(if v.dhcp then "yes" else "no")
  {
    var ls := NetworkLines(v);
    SettingAt(ls, Name, 1, InterfaceName(v.id));
    SettingAt(ls, Address, 4, v.cidr);
    SettingAt(ls, DHCPServer, 5, DhcpServerValue(v.dhcp));
  }

  /** Masquerading is always off and forwarding always on in the .network file, whatever nat
      says. */
  lemma NetworkForwarding(v: Vlan)
    ensures var ls := NetworkLines(v);
      && SettingValue(ls, IPMasquerade) == Some("no")
      && SettingValue(ls, IPForward) == Some("yes")
  {
    var ls := NetworkLines(v);
    SettingAt(ls, IPMasquerade, 6, "no");
    SettingAt(ls, IPForward, 7, "yes");
  }

  /** The drop-in attaches vlan<id> to the parent interface. */
  lemma DropInSettings(id: int)
    ensures SettingValue(DropInLines(id), VLAN) == Some(InterfaceName(id))
  {
    SettingAt(DropInLines(id), VLAN, 1, InterfaceName(id));
  }

  /** A reader of the written .netdev text finds exactly these settings. */
  lemma NetdevReadBack(id: int, k: Key)
    ensures Lookup(Split(NetdevContent(id)), KeyText(k)) == SettingValue(NetdevLines(id), k)
  {
    InterfaceNameNoNewline(id);
    DecimalStringNoNewline(id);
    assert ValidLines(NetdevLines(id));
    ReadBack(NetdevLines(id), k);
  }

  /** A reader of the written .network text finds exactly these settings, as long as the CIDR
      holds no line break. */
  lemma NetworkReadBack(v: Vlan, k: Key)
    requires NoNewline(v.cidr)
    ensures Lookup(Split(NetworkContent(v)), KeyText(k)) == SettingValue(NetworkLines(v), k)
  {
    InterfaceNameNoNewline(v.id);
    assert ValidLines(NetworkLines(v));
    ReadBack(NetworkLines(v), k);
  }

  /** A reader of the written drop-in text finds exactly these settings. */
  lemma DropInReadBack(id: int, k: Key)
    ensures Lookup(Split(DropInContent(id)), KeyText(k)) == SettingValue(DropInLines(id), k)
  {
    InterfaceNameNoNewline(id);
    assert ValidLines(DropInLines(id));
    ReadBack(DropInLines(id), k);
  }

  // ---------------------------------------------------------------------------
  // The name patterns _cleanup_configs removes

  /** A file of the network directory that a previous run may have written. */
  predicate IsGeneratedUnit(n: string) {
    StartsWith(n, "10-vlan") && (EndsWith(n, ".netdev") || EndsWith(n, ".network"))
  }

  /** A drop-in of the parent interface that a previous run may have written. */
  predicate IsGeneratedDropIn(n: string) {
    StartsWith(n, "vlan-") && EndsWith(n, ".conf")
  }

  /** Every file this run writes is one the next run's cleanup removes. */
  lemma GeneratedNamesMatch(id: int)
    ensures IsGeneratedUnit(NetdevName(id)) && IsGeneratedUnit(NetworkName(id))
    ensures IsGeneratedDropIn(DropInName(id))
  {
    var n := DecimalString(id);
    assert NetdevName(id) == "10-vlan" + (n + ".netdev");
    assert NetworkName(id) == "10-vlan" + (n + ".network");
    StartsWithConcat("10-vlan", n + ".netdev");
    StartsWithConcat("10-vlan", n + ".network");
    EndsWithConcat("10-vlan" + n, ".netdev");
    EndsWithConcat("10-vlan" + n, ".network");
    assert DropInName(id) == "vlan-" + (n + ".conf");
    StartsWithConcat("vlan-", n + ".conf");
    EndsWithConcat("vlan-" + n, ".conf");
  }

  /** Distinct VLAN ids get distinct files, and the .netdev and .network names never clash. */
  lemma NamesInjective(a: int, b: int)
    ensures NetdevName(a) == NetdevName(b) <==> a == b
    ensures NetworkName(a) == NetworkName(b) <==> a == b
    ensures DropInName(a) == DropInName(b) <==> a == b
    ensures NetdevName(a) != NetworkName(b)
  {
    var x, y := DecimalString(a), DecimalString(b);
    DecimalStringInjective(a, b);
    if NetdevName(a) == NetdevName(b) {
      ConcatCancel("10-", InterfaceName(a), InterfaceName(b), ".netdev");
      assert x == InterfaceName(a)[4..] && y == InterfaceName(b)[4..];
    }
    if NetworkName(a) == NetworkName(b) {
      ConcatCancel("10-", InterfaceName(a), InterfaceName(b), ".network");
      assert x == InterfaceName(a)[4..] && y == InterfaceName(b)[4..];
    }
    if DropInName(a) == DropInName(b) {
      ConcatCancel("vlan-", x, y, ".conf");
    }
    var s, t := NetdevName(a), NetworkName(b);
    assert s[|s| - 1] == 'v' && t[|t| - 1] == 'k';
  }

  /** A drop-in directory name, ending in ".d", is never the name of a generated unit file. */
  lemma DropInDirNotUnit(parent: string, id: int)
    ensures parent + ".d" != NetdevName(id) && parent + ".d" != NetworkName(id)
  {
    var d, s, t := parent + ".d", NetdevName(id), NetworkName(id);
    assert d[|d| - 1] == 'd' && s[|s| - 1] == 'v' && t[|t| - 1] == 'k';
  }

  // ---------------------------------------------------------------------------
  // _find_parent_config_file

  /** The scan takes f: a .network file whose text holds `Name=<iface>` anywhere; names that
      cannot be opened and read as text are skipped. */
  predicate NamesInterface(d: Dir, f: string, iface: string) {
    EndsWith(f, ".network") && f in d.entries && d.entries[f].File?
    && Contains(d.entries[f].content, "Name=" + iface)
  }

  /** The first of names the scan takes. */
  function FirstMatch(d: Dir, names: seq<string>, iface: string): Option<string>
    decreases |names|
  {
    if names == [] then None
    else if NamesInterface(d, names[0], iface) then Some(names[0])
    else FirstMatch(d, names[1..], iface)
  }

  /** The name of the parent interface's .network file; `None` is a missing directory. */
  function ParentConfigFile(dir: Option<Dir>, iface: string): string {
    match dir
    case None => iface + ".network"
    case Some(d) =>
      match FirstMatch(d, d.listing, iface)
      case Some(f) => f
      case None => "10-" + iface + ".network"
  }

  /** names[k] is the first name the scan takes. */
  predicate FirstMatchAt(d: Dir, names: seq<string>, k: int, iface: string) {
    0 <= k < |names| && NamesInterface(d, names[k], iface)
    && forall j :: 0 <= j < k ==> !NamesInterface(d, names[j], iface)
  }

  /** The scan stops at the first match in listing order, and finds nothing only when no
      name matches. */
  lemma {:induction false} FirstMatchIsFirst(d: Dir, names: seq<string>, iface: string)
    ensures FirstMatch(d, names, iface).None? <==> forall k :: 0 <= k < |names| ==> !NamesInterface(d, names[k], iface)
    ensures FirstMatch(d, names, iface).Some? ==>
      exists k :: FirstMatchAt(d, names, k, iface) && names[k] == FirstMatch(d, names, iface).value
    decreases |names|
  {
    if names != [] && !NamesInterface(d, names[0], iface) {
      FirstMatchIsFirst(d, names[1..], iface);
      var r := FirstMatch(d, names[1..], iface);
      if r.Some? {
        var k :| FirstMatchAt(d, names[1..], k, iface) && names[1..][k] == r.value;
        assert names[k + 1] == r.value;
        forall j | 0 <= j < k + 1 ensures !NamesInterface(d, names[j], iface) {
          if j > 0 {
            assert names[j] == names[1..][j - 1];
          }
        }
        assert FirstMatchAt(d, names, k + 1, iface);
      } else {
        forall k | 0 <= k < |names| ensures !NamesInterface(d, names[k], iface) {
          if k > 0 {
            assert names[k] == names[1..][k - 1];
          }
        }
      }
    }
  }

  /** The file found is a listed .network file naming the interface, and every file listed
      before it is not; without a match the fallback names are used. */
  lemma ParentConfigFileChoice(dir: Option<Dir>, iface: string)
    ensures dir.None? ==> ParentConfigFile(dir, iface) == iface + ".network"
    ensures dir.Some? && (forall k :: 0 <= k < |dir.value.listing| ==> !NamesInterface(dir.value, dir.value.listing[k], iface))
      ==> ParentConfigFile(dir, iface) == "10-" + iface + ".network"
    ensures dir.Some? && (exists k :: 0 <= k < |dir.value.listing| && NamesInterface(dir.value, dir.value.listing[k], iface))
      ==> (exists k :: FirstMatchAt(dir.value, dir.value.listing, k, iface) && dir.value.listing[k] == ParentConfigFile(dir, iface))
  {
    if dir.Some? {
      FirstMatchIsFirst(dir.value, dir.value.listing, iface);
    }
  }

  // ---------------------------------------------------------------------------
  // _cleanup_configs

  datatype Pattern = UnitPattern | DropInPattern

  predicate Matches(p: Pattern, n: string) {
    match p
    case UnitPattern => IsGeneratedUnit(n)
    case DropInPattern => IsGeneratedDropIn(n)
  }

  /** What the cleanup removes: a matching name that os.remove can remove. A sub-directory
      makes os.remove raise, which the cleanup swallows. */
  predicate Doomed(d: Dir, n: string, p: Pattern) {
    Matches(p, n) && n in d.entries && !d.entries[n].Folder?
  }

  function PruneStep(d: Dir, n: string, p: Pattern): Dir {
    if Doomed(d, n, p) then Delete(d, n) else d
  }

  /** The cleanup loop over the names listed before it started. */
  function PruneNames(d: Dir, names: seq<string>, p: Pattern): Dir
    decreases |names|
  {
    if names == [] then d
    else PruneStep(PruneNames(d, names[..|names| - 1], p), names[|names| - 1], p)
  }

  function Prune(d: Dir, p: Pattern): Dir {
    PruneNames(d, d.listing, p)
  }

  /** The loop removes exactly the doomed names it visits and leaves everything else as it was. */
  lemma {:induction false} PruneNamesEffect(d: Dir, names: seq<string>, p: Pattern)
    ensures forall n :: EntryAt(PruneNames(d, names, p), n) == if n in names && Doomed(d, n, p) then None else EntryAt(d, n)
    ensures Listed(d) ==> Listed(PruneNames(d, names, p))
    decreases |names|
  {
    if names != [] {
      var init, last := names[..|names| - 1], names[|names| - 1];
      PruneNamesEffect(d, init, p);
      assert forall n :: n in names <==> n in init || n == last;
    }
  }

  /** _cleanup_configs on one directory: the doomed names are gone, everything else is kept. */
  lemma PruneEffect(d: Dir, p: Pattern)
    requires Listed(d)
    ensures forall n :: EntryAt(Prune(d, p), n) == if Doomed(d, n, p) then None else EntryAt(d, n)
    ensures Listed(Prune(d, p))
  {
    PruneNamesEffect(d, d.listing, p);
  }

  // ---------------------------------------------------------------------------
  // The write loop of generate_systemd_config

  /** Why a step of generate_systemd_config raises: open(..., 'w') on a sub-directory,
      os.makedirs on a name that exists and is not a directory, or os.listdir on such a name. */
  datatype FsError = IsADirectory(name: string) | FileExists(name: string) | NotADirectory(name: string)

  /** open(name, 'w').write(content) */
  function Write(d: Dir, n: string, content: string): Result<Dir, FsError> {
    if FolderAt(d, n) then Failure(IsADirectory(n)) else Success(Put(d, n, File(content)))
  }

  /** The network directory and the parent's drop-in directory. */
  datatype Dirs = Dirs(network: Dir, dropIn: Dir)

  /** Where the loop stopped: the directories as left, and whether it ran to the end. */
  datatype Emission = Emission(dirs: Dirs, outcome: Outcome<FsError>)

  /** One iteration: the .netdev, the .network and the drop-in, in that order; the first
      write that raises ends the run with the earlier writes in place. */
  function EmitVlan(s: Dirs, v: Vlan): Emission {
    match Write(s.network, NetdevName(v.id), NetdevContent(v.id))
    case Failure(e) => Emission(s, Fail(e))
    case Success(n1) =>
      match Write(n1, NetworkName(v.id), NetworkContent(v))
      case Failure(e) => Emission(Dirs(n1, s.dropIn), Fail(e))
      case Success(n2) =>
        match Write(s.dropIn, DropInName(v.id), DropInContent(v.id))
        case Failure(e) => Emission(Dirs(n2, s.dropIn), Fail(e))
        case Success(d) => Emission(Dirs(n2, d), Pass)
  }

  function EmitAll(s: Dirs, vlans: seq<Vlan>): Emission
    decreases |vlans|
  {
    if vlans == [] then Emission(s, Pass)
    else
      var prev := EmitAll(s, vlans[..|vlans| - 1]);
      if prev.outcome.Fail? then prev else EmitVlan(prev.dirs, vlans[|vlans| - 1])
  }

  /** The unit files the loop writes into the network directory, a later VLAN overwriting an
      earlier one of the same id. */
  function UnitFiles(vlans: seq<Vlan>): map<string, Entry>
    decreases |vlans|
  {
    if vlans == [] then map[]
    else
      var v := vlans[|vlans| - 1];
      UnitFiles(vlans[..|vlans| - 1])[NetdevName(v.id) := File(NetdevContent(v.id))][NetworkName(v.id) := File(NetworkContent(v))]
  }

  /** The drop-ins the loop writes into the parent's drop-in directory. */
  function DropInFiles(vlans: seq<Vlan>): map<string, Entry>
    decreases |vlans|
  {
    if vlans == [] then map[]
    else
      var v := vlans[|vlans| - 1];
      DropInFiles(vlans[..|vlans| - 1])[DropInName(v.id) := File(DropInContent(v.id))]
  }

  /** No file the loop writes is a sub-directory. */
  ghost predicate Unblocked(s: Dirs, vlans: seq<Vlan>) {
    forall i :: 0 <= i < |vlans| ==>
      !FolderAt(s.network, NetdevName(vlans[i].id)) && !FolderAt(s.network, NetworkName(vlans[i].id))
      && !FolderAt(s.dropIn, DropInName(vlans[i].id))
  }

  /** Entries of d overridden by the files of m. */
  function Overlay(d: Dir, m: map<string, Entry>, n: string): Option<Entry> {
    if n in m then Some(m[n]) else EntryAt(d, n)
  }

  /** One iteration runs through when none of its three files is a sub-directory, and then
      it has written exactly those three files. */
  lemma EmitVlanEffect(s: Dirs, v: Vlan)
    ensures var e, a, b, c := EmitVlan(s, v), NetdevName(v.id), NetworkName(v.id), DropInName(v.id);
      && (e.outcome.Pass? <==> !FolderAt(s.network, a) && !FolderAt(s.network, b) && !FolderAt(s.dropIn, c))
      && (e.outcome.Pass? ==>
        (forall n :: EntryAt(e.dirs.network, n) ==
          if n == b then Some(File(NetworkContent(v))) else if n == a then Some(File(NetdevContent(v.id))) else EntryAt(s.network, n))
        && (forall n :: EntryAt(e.dirs.dropIn, n) == if n == c then Some(File(DropInContent(v.id))) else EntryAt(s.dropIn, n)))
  {
    NamesInjective(v.id, v.id);
  }

  /** Whatever its outcome, one iteration touches only its own three names, creates and
      removes no sub-directory in either directory, and keeps every entry listed. */
  lemma EmitVlanFrame(s: Dirs, v: Vlan)
    ensures var e, a, b, c := EmitVlan(s, v), NetdevName(v.id), NetworkName(v.id), DropInName(v.id);
      && (forall n :: n != a && n != b ==> EntryAt(e.dirs.network, n) == EntryAt(s.network, n))
      && (forall n :: n != c ==> EntryAt(e.dirs.dropIn, n) == EntryAt(s.dropIn, n))
      && (forall n :: FolderAt(e.dirs.network, n) <==> FolderAt(s.network, n))
      && (forall n :: FolderAt(e.dirs.dropIn, n) <==> FolderAt(s.dropIn, n))
      && (Listed(s.network) && Listed(s.dropIn) ==> Listed(e.dirs.network) && Listed(e.dirs.dropIn))
  {
  }

  /** The last VLAN adds its three names to those of the others. */
  lemma UnblockedStep(s: Dirs, vlans: seq<Vlan>)
    requires vlans != []
    ensures var init, v := vlans[..|vlans| - 1], vlans[|vlans| - 1];
      Unblocked(s, vlans) <==>
        (Unblocked(s, init)
         && !FolderAt(s.network, NetdevName(v.id)) && !FolderAt(s.network, NetworkName(v.id))
         && !FolderAt(s.dropIn, DropInName(v.id)))
  {
    var init := vlans[..|vlans| - 1];
    assert forall i :: 0 <= i < |init| ==> init[i] == vlans[i];
  }

  /** Overlaying the files of all VLANs is overlaying those of the last on the others. */
  lemma OverlayStep(d: Dir, e: Dir, vlans: seq<Vlan>)
    requires vlans != []
    ensures var init, v := vlans[..|vlans| - 1], vlans[|vlans| - 1];
      && (forall n ::
            Overlay(d, UnitFiles(vlans), n) ==
            if n == NetworkName(v.id) then Some(File(NetworkContent(v)))
            else if n == NetdevName(v.id) then Some(File(NetdevContent(v.id)))
            else Overlay(d, UnitFiles(init), n))
      && (forall n ::
            Overlay(e, DropInFiles(vlans), n) ==
            if n == DropInName(v.id) then Some(File(DropInContent(v.id))) else Overlay(e, DropInFiles(init), n))
  {
  }

  /** Whatever the outcome, only names the loop writes change. */
  lemma {:induction false} EmitAllFrame(s: Dirs, vlans: seq<Vlan>)
    ensures forall n :: n !in UnitFiles(vlans) ==> EntryAt(EmitAll(s, vlans).dirs.network, n) == EntryAt(s.network, n)
    ensures forall n :: n !in DropInFiles(vlans) ==> EntryAt(EmitAll(s, vlans).dirs.dropIn, n) == EntryAt(s.dropIn, n)
    decreases |vlans|
  {
    if vlans != [] {
      var init, v := vlans[..|vlans| - 1], vlans[|vlans| - 1];
      EmitAllFrame(s, init);
      EmitVlanFrame(EmitAll(s, init).dirs, v);
      assert forall n :: n in UnitFiles(init) ==> n in UnitFiles(vlans);
      assert forall n :: n in DropInFiles(init) ==> n in DropInFiles(vlans);
    }
  }

  /** Whatever the outcome, the loop creates and replaces no sub-directory and every entry
      stays listed. */
  lemma {:induction false} EmitAllKeepsFolders(s: Dirs, vlans: seq<Vlan>)
    ensures forall n :: FolderAt(EmitAll(s, vlans).dirs.network, n) <==> FolderAt(s.network, n)
    ensures forall n :: FolderAt(EmitAll(s, vlans).dirs.dropIn, n) <==> FolderAt(s.dropIn, n)
    ensures Listed(s.network) && Listed(s.dropIn) ==>
      Listed(EmitAll(s, vlans).dirs.network) && Listed(EmitAll(s, vlans).dirs.dropIn)
    decreases |vlans|
  {
    if vlans != [] {
      EmitAllKeepsFolders(s, vlans[..|vlans| - 1]);
      EmitVlanFrame(EmitAll(s, vlans[..|vlans| - 1]).dirs, vlans[|vlans| - 1]);
    }
  }

  /** The loop runs to the end exactly when none of its files is a sub-directory. */
  lemma {:induction false} EmitAllOutcome(s: Dirs, vlans: seq<Vlan>)
    ensures EmitAll(s, vlans).outcome.Pass? <==> Unblocked(s, vlans)
    decreases |vlans|
  {
    if vlans != [] {
      var init, v := vlans[..|vlans| - 1], vlans[|vlans| - 1];
      EmitAllOutcome(s, init);
      UnblockedStep(s, vlans);
      var prev := EmitAll(s, init);
      if prev.outcome.Pass? {
        EmitAllKeepsFolders(s, init);
        EmitVlanEffect(prev.dirs, v);
      }
    }
  }

  /** Once an iteration has raised, the later records are never reached. */
  lemma {:induction false} EmitAllStops(s: Dirs, vlans: seq<Vlan>, k: int)
    requires 0 <= k <= |vlans| && EmitAll(s, vlans[..k]).outcome.Fail?
    ensures EmitAll(s, vlans) == EmitAll(s, vlans[..k])
    decreases |vlans| - k
  {
    if k < |vlans| {
      var init := vlans[..|vlans| - 1];
      assert init[..k] == vlans[..k];
      EmitAllStops(s, init, k);
    } else {
      assert vlans[..k] == vlans;
    }
  }

  /** After a full run the network directory holds the unit files on top of what it held. */
  lemma {:induction false} EmitAllNetworkContents(s: Dirs, vlans: seq<Vlan>)
    requires EmitAll(s, vlans).outcome.Pass?
    ensures forall n :: EntryAt(EmitAll(s, vlans).dirs.network, n) == Overlay(s.network, UnitFiles(vlans), n)
    decreases |vlans|
  {
    if vlans != [] {
      var init, v := vlans[..|vlans| - 1], vlans[|vlans| - 1];
      var prev := EmitAll(s, init);
      assert prev.outcome.Pass?;
      assert EmitAll(s, vlans) == EmitVlan(prev.dirs, v);
      EmitAllNetworkContents(s, init);
      EmitVlanEffect(prev.dirs, v);
      OverlayStep(s.network, s.dropIn, vlans);
    }
  }

  /** After a full run the drop-in directory holds the drop-ins on top of what it held. */
  lemma {:induction false} EmitAllDropInContents(s: Dirs, vlans: seq<Vlan>)
    requires EmitAll(s, vlans).outcome.Pass?
    ensures forall n :: EntryAt(EmitAll(s, vlans).dirs.dropIn, n) == Overlay(s.dropIn, DropInFiles(vlans), n)
    decreases |vlans|
  {
    if vlans != [] {
      var init, v := vlans[..|vlans| - 1], vlans[|vlans| - 1];
      var prev := EmitAll(s, init);
      assert prev.outcome.Pass?;
      assert EmitAll(s, vlans) == EmitVlan(prev.dirs, v);
      EmitAllDropInContents(s, init);
      EmitVlanEffect(prev.dirs, v);
      OverlayStep(s.network, s.dropIn, vlans);
    }
  }

  /** After a full run the directories hold the files the loop wrote on top of what they held. */
  lemma EmitAllContents(s: Dirs, vlans: seq<Vlan>)
    requires EmitAll(s, vlans).outcome.Pass?
    ensures forall n :: EntryAt(EmitAll(s, vlans).dirs.network, n) == Overlay(s.network, UnitFiles(vlans), n)
    ensures forall n :: EntryAt(EmitAll(s, vlans).dirs.dropIn, n) == Overlay(s.dropIn, DropInFiles(vlans), n)
  {
    EmitAllNetworkContents(s, vlans);
    EmitAllDropInContents(s, vlans);
  }

  /** Every file the loop writes into the network directory belongs to some VLAN. */
  lemma {:induction false} UnitFileOwner(vlans: seq<Vlan>, n: string)
    requires n in UnitFiles(vlans)
    ensures exists i :: 0 <= i < |vlans| && (n == NetdevName(vlans[i].id) || n == NetworkName(vlans[i].id))
    decreases |vlans|
  {
    var init, v := vlans[..|vlans| - 1], vlans[|vlans| - 1];
    if n != NetdevName(v.id) && n != NetworkName(v.id) {
      UnitFileOwner(init, n);
      var i :| 0 <= i < |init| && (n == NetdevName(init[i].id) || n == NetworkName(init[i].id));
      assert vlans[i] == init[i];
    }
  }

  /** Every drop-in the loop writes belongs to some VLAN. */
  lemma {:induction false} DropInFileOwner(vlans: seq<Vlan>, n: string)
    requires n in DropInFiles(vlans)
    ensures exists i :: 0 <= i < |vlans| && n == DropInName(vlans[i].id)
    decreases |vlans|
  {
    var init, v := vlans[..|vlans| - 1], vlans[|vlans| - 1];
    if n != DropInName(v.id) {
      DropInFileOwner(init, n);
      var i :| 0 <= i < |init| && n == DropInName(init[i].id);
      assert vlans[i] == init[i];
    }
  }

  /** One VLAN's two unit files, added to any map of files: both are in place, and no other
      name changes. */
  lemma AddUnits(m: map<string, Entry>, v: Vlan, k: string)
    ensures var a, b := NetdevName(v.id), NetworkName(v.id);
      var r := m[a := File(NetdevContent(v.id))][b := File(NetworkContent(v))];
      && a in r && r[a] == File(NetdevContent(v.id)) && b in r && r[b] == File(NetworkContent(v))
      && (k != a && k != b ==> (k in r <==> k in m) && (k in m ==> r[k] == m[k]))
  {
    NamesInjective(v.id, v.id);
  }

  /** One VLAN's drop-in, added to any map of files: it is in place, and no other name changes. */
  lemma AddDropIn(m: map<string, Entry>, id: int, k: string)
    ensures var a := DropInName(id);
      var r := m[a := File(DropInContent(id))];
      && a in r && r[a] == File(DropInContent(id))
      && (k != a ==> (k in r <==> k in m) && (k in m ==> r[k] == m[k]))
  {
  }

  /** The .netdev depends on the id alone, so every VLAN's is in place. */
  lemma {:induction false} NetdevFileWritten(vlans: seq<Vlan>, i: int)
    requires 0 <= i < |vlans|
    ensures NetdevName(vlans[i].id) in UnitFiles(vlans)
    ensures UnitFiles(vlans)[NetdevName(vlans[i].id)] == File(NetdevContent(vlans[i].id))
    decreases |vlans|
  {
    var init, v := vlans[..|vlans| - 1], vlans[|vlans| - 1];
    AddUnits(UnitFiles(init), v, NetdevName(vlans[i].id));
    if v.id != vlans[i].id {
      NamesInjective(vlans[i].id, v.id);
      assert init[i] == vlans[i];
      NetdevFileWritten(init, i);
    }
  }

  /** The drop-in depends on the id alone, so every VLAN's is in place. */
  lemma {:induction false} DropInFileWritten(vlans: seq<Vlan>, i: int)
    requires 0 <= i < |vlans|
    ensures DropInName(vlans[i].id) in DropInFiles(vlans)
    ensures DropInFiles(vlans)[DropInName(vlans[i].id)] == File(DropInContent(vlans[i].id))
    decreases |vlans|
  {
    var init, v := vlans[..|vlans| - 1], vlans[|vlans| - 1];
    AddDropIn(DropInFiles(init), v.id, DropInName(vlans[i].id));
    if v.id != vlans[i].id {
      NamesInjective(vlans[i].id, v.id);
      assert init[i] == vlans[i];
      DropInFileWritten(init, i);
    }
  }

  /** No later record with the same id overwrites record i's .network file. */
  predicate LastWithId(vlans: seq<Vlan>, i: int)
    requires 0 <= i < |vlans|
  {
    forall j :: i < j < |vlans| ==> vlans[j].id != vlans[i].id
  }

  /** The .network file of an id holds the last record with that id. */
  lemma {:induction false} NetworkFileWritten(vlans: seq<Vlan>, i: int)
    requires 0 <= i < |vlans| && LastWithId(vlans, i)
    ensures NetworkName(vlans[i].id) in UnitFiles(vlans)
    ensures UnitFiles(vlans)[NetworkName(vlans[i].id)] == File(NetworkContent(vlans[i]))
    decreases |vlans|
  {
    var init, v := vlans[..|vlans| - 1], vlans[|vlans| - 1];
    AddUnits(UnitFiles(init), v, NetworkName(vlans[i].id));
    if i < |vlans| - 1 {
      NamesInjective(v.id, vlans[i].id);
      assert init[i] == vlans[i];
      assert LastWithId(init, i) by {
        forall j | i < j < |init| ensures init[j].id != init[i].id {
          assert init[j] == vlans[j];
        }
      }
      NetworkFileWritten(init, i);
    }
  }
}
