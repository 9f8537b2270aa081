# networkd-vlan-manager: the VlanManager model

This project models `VlanManager` from `vlan_manager/core.py` in Dafny, and proves properties of the model. `VlanManager` keeps a list of VLAN records: a numeric id, a CIDR, dhcp and nat flags, and any other keys the caller supplied. It persists that list to a JSON data file and derives two kinds of host configuration from it:

- **systemd-networkd files.** For every VLAN it writes a `.netdev` and a `.network` file into the network directory. It also writes a `vlan-<id>.conf` drop-in into the drop-in directory of the parent interface's `.network` file. It finds that file by scanning the directory for a `.network` file whose text contains `Name=<parent>` anywhere. The test is a substring test, so a file with `Name=br01` or `#Name=br0` also matches parent `br0`.
- **An nftables ruleset.** A table `inet vlan_mgmt` holds a forward chain and a postrouting chain, with one accept rule and one masquerade rule per NAT VLAN.

`apply_config` writes both, enables IPv4 forwarding through a sysctl file, and runs `sysctl`, `networkctl reload` and `nft -f`.

## Project layout

| file | module | contents |
|---|---|---|
| `results.dfy` | `Results` | `Option`, `Result`, `Outcome` |
| `text.dfy` | `Text` | `str(int)`, `"\n".join`, `split("\n")`, `startswith`, `endswith`, substring search, and a first-`key=` line reader |
| `records.dfy` | `Records` | The VLAN record, the checks `add_vlan` makes and the record it appends, and the filter `delete_vlan` applies |
| `unitfile.dfy` | `UnitFile` | Unit-file lines (sections, `Key=value` settings, blank lines), their rendering, and what a reader of the rendered text finds |
| `directory.dfy` | `Directory` | A directory as `os.listdir`, `open`, `os.remove` and `os.makedirs` see it: names in listing order and what each name holds |
| `nftables.dfy` | `Nftables` | The ruleset lines and text |
| `networkd.dfy` | `Networkd` | File names and contents; the parent scan; the cleanup; the write loop |
| `systemd.dfy` | `SystemdConfig` | The network directory with its sub-directories, and `generate_systemd_config` as a function of it |
| `core.dfy` | `Core` | The host state (class `Host`), class `VlanManager` and its methods, and the rest of `apply_config` |

The pure parts are functions, and lemmas prove their properties:

- the checks made on a record;
- the filter;
- file contents;
- ruleset lines;
- the effect of the cleanup and of the write loop on a directory.

The stateful parts are methods of `Core.VlanManager`:

- the record list is a `seq` field;
- the data file, the network directory, other files written and the commands run are fields of `Core.Host`;
- every `for` loop of the source is a `while` loop; the list comprehension of delete_vlan is the recursive function `Records.RemoveId`.

Each method's `ensures` ties the new state to the function that specifies it.

### Where the code and its tests disagree

The model follows `vlan_manager/core.py` in every case below. The upstream tests expect otherwise, and these expectations do not hold for this code. (Most of them are never reached: the `setUp` of tests/test_vlan_manager.py:19 and tests/test_dhcp.py:17 reads `Config.KEA_CONFIG_FILE`, while vlan_manager/config.py:11 defines `KEA_CONF_FILE`, so those tests stop with AttributeError first. Only tests/test_vlan_overlap.py reaches its assertions.)

- **File name prefix.** The code names unit files `10-vlan<id>.netdev` and `10-vlan<id>.network` (core.py:84, 96). tests/test_vlan_manager.py:81 and tests/test_dhcp.py:85 open `20-vlan<id>.*`.
- **DHCPServer.** The code writes `DHCPServer=yes` exactly when `dhcp` is truthy (core.py:92). tests/test_dhcp.py:88 expects `DHCPServer=no` for VLAN 30, which tests/test_dhcp.py:76 adds with `dhcp` set to true.
- **IPMasquerade and IPForward.** The code always writes `IPMasquerade=no` and `IPForward=yes` (core.py:93-94). tests/test_vlan_manager.py:95-96 expect them to follow the `nat` and `forwarding` flags.
- **Overlap rejection.** add_vlan makes no overlap check (core.py:33-56). tests/test_vlan_overlap.py:24-73 expect a ValueError mentioning "overlaps" for a CIDR that overlaps a stored one.
- **DHCP defaults and Kea.** add_vlan derives no `dhcp_gateway`, `dhcp_dns` or `dhcp_pools`, and the class has no `generate_kea_config` method. tests/test_dhcp.py:33-70 expect both.

One point is about the code alone. The `sysctl` call at core.py:184 runs with `check=False` and no handler of its own. A missing `sysctl` executable therefore makes `subprocess.run` raise, and the outer handler re-raises (core.py:196-198). The `networkctl` and `nft` calls are guarded against a missing program and a non-zero exit (core.py:186-194).

## Model

| member | source | states |
|---|---|---|
| Records.AddValidationOrder | vlan_manager/core.py:34-49 | The checks run in a fixed order. An id that does not parse, or falls outside 1..4094, is "Invalid VLAN ID". A duplicate id is reported before a bad CIDR. Success holds exactly when every check passes. |
| Records.AddStoresRecord | vlan_manager/core.py:51-55 | The appended record has the parsed integer id and the CIDR verbatim. dhcp and nat are coerced with bool(get(...)), so a missing key reads as false. The record's own id, cidr, dhcp and nat replace whatever the dictionary held under those keys. Every other key of the input is kept unchanged, and no other key is added. |
| Records.AddAdmits | vlan_manager/core.py:35-49 | An admitted record has an id in 1..4094 and a CIDR the address library accepts. |
| Records.AddPreservesStore | vlan_manager/core.py:41-55 | Adding to a store with distinct, admitted ids keeps it so, and afterwards exactly one record has the new id. |
| Records.AddTwiceRejected | vlan_manager/core.py:41-43 | Submitting the same input again after a success fails as a duplicate of that id. |
| Records.MessagesDistinct | vlan_manager/core.py:37-49 | The three ValueError messages differ, and the duplicate message identifies its id. |
| Records.IdCountZero | vlan_manager/core.py:41-43 | No record has the id exactly when the count of records with it is zero. |
| Records.RemoveIdMembers | vlan_manager/core.py:59 | A record survives delete exactly when str(id) differs from str(key), and the list never grows. |
| Records.RemoveIdAppend | vlan_manager/core.py:59 | The filter distributes over concatenation, so survivors keep their relative order. |
| Records.RemoveIdAbsent | vlan_manager/core.py:59 | Deleting a key no record renders to leaves the list unchanged. |
| Records.RemoveIdIdempotent | vlan_manager/core.py:58-59 | Deleting twice is the same as deleting once. |
| Records.RemoveIntKey | vlan_manager/core.py:59 | Deleting by an integer key removes exactly the records with that id. |
| Records.AddThenDelete | vlan_manager/core.py:51-59 | Deleting the id just added restores the list as it was before the add. |
| Records.UniqueCons | vlan_manager/core.py:59 | A record whose id is not among the others keeps the ids distinct when put in front. |
| Records.RemovePreservesStore | vlan_manager/core.py:58-59 | Deleting keeps every id distinct and every record admitted. |
| Text.DecimalStringInjective | vlan_manager/core.py:59 | str() of two integers is equal only when the integers are equal. This is what makes the string comparison in delete_vlan compare ids. |
| Text.DecimalStringNoNewline | vlan_manager/core.py:75 | str(id) has no line break, so `vlan<id>` fits on one line of a file. |
| Text.SplitJoin | vlan_manager/core.py:172 | Splitting "\n".join(lines) on line breaks gives the lines back when none of them contains one. |
| Text.JoinEndsWithLast | vlan_manager/core.py:172 | "\n".join(lines) ends with the last line. |
| Networkd.NetdevText | vlan_manager/core.py:77-83 | The .netdev text is, line by line, the f-string's text: `[NetDev]`, `Name=vlan<id>`, `Kind=vlan`, an empty line, `[VLAN]`, `Id=<id>`, each followed by a line break. |
| Networkd.NetworkText | vlan_manager/core.py:87-95 | The .network text is, line by line, the f-string's text: `[Match]`, `Name=vlan<id>`, an empty line, `[Network]`, `Address=<cidr>`, `DHCPServer=yes` or `no` by the dhcp flag, `IPMasquerade=no`, `IPForward=yes`, each followed by a line break. |
| Networkd.DropInText | vlan_manager/core.py:99-101 | The drop-in text is `[Network]` and `VLAN=vlan<id>`, each followed by a line break. |
| Networkd.NetdevSettings | vlan_manager/core.py:77-83 | The .netdev declares Name=vlan<id>, Kind=vlan and Id=<id>. |
| Networkd.NetworkSettings | vlan_manager/core.py:87-95 | The .network matches vlan<id>, carries the CIDR verbatim as Address, and has DHCPServer=yes exactly when dhcp is truthy. |
| Networkd.NetworkForwarding | vlan_manager/core.py:93-94 | IPMasquerade=no and IPForward=yes whatever nat is. |
| Networkd.DropInSettings | vlan_manager/core.py:99-101 | The drop-in sets VLAN=vlan<id>. |
| Networkd.NetdevReadBack | vlan_manager/core.py:77-85 | For every key, a reader of the written .netdev text takes its first `key=` line and finds exactly the setting of the file's line structure. |
| Networkd.NetworkReadBack | vlan_manager/core.py:87-97 | For every key, a reader of the written .network text finds exactly the setting of its line structure, provided the CIDR has no line break. |
| Networkd.DropInReadBack | vlan_manager/core.py:99-103 | For every key, a reader of the written drop-in text finds exactly the setting of its line structure. |
| Networkd.InterfaceNameNoNewline | vlan_manager/core.py:75 | The interface name vlan<id> has no line break. |
| Networkd.GeneratedNamesMatch | vlan_manager/core.py:124-139 | Every file name a run writes matches the pattern the next run's cleanup removes. |
| Networkd.NamesInjective | vlan_manager/core.py:84-102 | Distinct ids get distinct .netdev, .network and drop-in names, and no .netdev name is a .network name. |
| Networkd.DropInDirNotUnit | vlan_manager/core.py:68-96 | The drop-in directory name `<parent>.d` is never a .netdev or .network name. |
| Networkd.FirstMatchIsFirst | vlan_manager/core.py:110-120 | The scan returns the first listed name that is a readable .network file containing `Name=<iface>`. It returns nothing only when no listed name qualifies. Unreadable files and sub-directories are skipped. |
| Networkd.ParentConfigFileChoice | vlan_manager/core.py:105-122 | A missing directory gives `<iface>.network`. No match gives `10-<iface>.network`. Otherwise the result is the first qualifying listed name. |
| Networkd.PruneNamesEffect | vlan_manager/core.py:126-131 | The loop over the listing removes exactly the visited names that match the pattern and are not sub-directories, and keeps everything else. |
| Networkd.PruneEffect | vlan_manager/core.py:124-139 | Cleanup of a directory removes exactly the removable names that match the pattern. A sub-directory with such a name survives: os.remove raises and the error is swallowed. |
| Networkd.EmitVlanEffect | vlan_manager/core.py:74-103 | One iteration completes exactly when none of its three targets is a sub-directory. It then holds exactly its three files on top of what was there. |
| Networkd.EmitVlanFrame | vlan_manager/core.py:74-103 | Whatever the outcome, one iteration touches only its own three names, creates and removes no sub-directory in either directory, and keeps every entry listed. |
| Networkd.UnblockedStep | vlan_manager/core.py:73-103 | The loop is unblocked for a list exactly when it is unblocked for all but the last record and for the last record's three names. |
| Networkd.OverlayStep | vlan_manager/core.py:73-103 | Overlaying the files of a whole list is overlaying the last record's files on those of the rest. |
| Networkd.EmitAllFrame | vlan_manager/core.py:73-103 | Whatever the outcome, the loop changes only names it writes. |
| Networkd.EmitAllKeepsFolders | vlan_manager/core.py:73-103 | Whatever the outcome, the loop creates and replaces no sub-directory, and every entry stays listed. |
| Networkd.EmitAllOutcome | vlan_manager/core.py:73-103 | The loop runs to the end exactly when none of the names it writes is a sub-directory. |
| Networkd.EmitAllStops | vlan_manager/core.py:73-103 | Once an iteration raises, later records are never reached. |
| Networkd.EmitAllContents | vlan_manager/core.py:73-103 | After a full run, each directory holds the written files over what it held before. |
| Networkd.UnitFileOwner | vlan_manager/core.py:84-97 | Every file the loop writes into the network directory is the .netdev or .network of some record. |
| Networkd.DropInFileOwner | vlan_manager/core.py:102-103 | Every drop-in the loop writes belongs to some record. |
| Networkd.NetdevFileWritten | vlan_manager/core.py:84-85 | Every record's .netdev is written with the content for its id. |
| Networkd.DropInFileWritten | vlan_manager/core.py:102-103 | Every record's drop-in is written with the content for its id. |
| Networkd.NetworkFileWritten | vlan_manager/core.py:96-97 | The .network file of an id holds the last record with that id. |
| SystemdConfig.DropInDirNotGenerated | vlan_manager/core.py:68-71 | The drop-in directory's name never matches the unit cleanup pattern. |
| SystemdConfig.MakeDirsWF | vlan_manager/core.py:63-69 | Both os.makedirs calls keep the tree well formed. The drop-in directory becomes a sub-directory with unchanged contents, and nothing else changes. |
| SystemdConfig.GenerateUnfold | vlan_manager/core.py:62-103 | When the drop-in directory can be created, the call reaches the write loop and ends with the loop's result. |
| SystemdConfig.WriteStartEntries | vlan_manager/core.py:63-71 | After both makedirs calls and the cleanup, the network directory has lost exactly its removable generated unit files and has gained the drop-in directory. The drop-in directory has lost exactly its removable generated drop-ins. |
| SystemdConfig.WriteStartFolders | vlan_manager/core.py:63-71 | The write loop finds the same sub-directories as before, plus the drop-in directory. |
| SystemdConfig.UnitFilesGenerated | vlan_manager/core.py:84-102 | Every name the loop writes matches a cleanup pattern. |
| SystemdConfig.GenerateOutcome | vlan_manager/core.py:62-103 | The call raises at os.makedirs when the drop-in name holds a file. Otherwise it completes exactly when none of the names it writes is a sub-directory. |
| SystemdConfig.GenerateWrites | vlan_manager/core.py:73-103 | After a complete run, every record's .netdev and drop-in hold the rendered contents. The .network of an id holds the last record with that id. |
| SystemdConfig.GenerateNoStale | vlan_manager/core.py:71-103 | After a complete run, every generated file left in either directory belongs to a current record, so the files of deleted VLANs are gone. |
| SystemdConfig.GenerateKeepsOthers | vlan_manager/core.py:62-103 | Whatever the outcome, the network directory exists, and its hand-written files and every other sub-directory keep what they held. When the drop-in name is not a file, the drop-in directory exists afterwards and its non-generated drop-ins keep what they held. |
| SystemdConfig.GeneratePreservesWF | vlan_manager/core.py:62-103 | The directory tree stays well formed whatever the outcome. |
| Nftables.NatVlansIdempotent | vlan_manager/core.py:151-162 | Selecting the NAT VLANs twice is the same as selecting them once. |
| Nftables.ForwardRulesFollowNatVlans | vlan_manager/core.py:151-153 | The first loop emits exactly one accept rule per NAT VLAN, in list order. |
| Nftables.MasqueradeRulesFollowNatVlans | vlan_manager/core.py:160-162 | The second loop emits exactly one masquerade rule per NAT VLAN, in list order. |
| Nftables.Ruleset | vlan_manager/core.py:142-165 | The ruleset has 11 + 2k lines for k NAT VLANs. |
| Nftables.RulesetFixedLines | vlan_manager/core.py:142-165 | Lines 0-5 are the table declaration, deletion and reopening, the forward chain's head, its policy line and the established-traffic rule. Lines 6 + k to 8 + k, right after the k forward rules, close the forward chain and open the postrouting chain with its policy line. The two closing braces come last. |
| Nftables.RulesetForwardAt | vlan_manager/core.py:147-155 | Line 6 + j is the forward rule of the j-th NAT VLAN. |
| Nftables.RulesetMasqueradeAt | vlan_manager/core.py:157-164 | Line 9 + k + j is the masquerade rule of the j-th NAT VLAN. |
| Nftables.NonNatIgnored | vlan_manager/core.py:151-162 | VLANs without NAT contribute no lines. |
| Nftables.AppendNonNat | vlan_manager/core.py:151-162 | Adding a VLAN without NAT leaves the ruleset unchanged. |
| Nftables.RulesetNoNewline | vlan_manager/core.py:142-165 | No ruleset line has a line break when neither the WAN name nor any CIDR has one. |
| Nftables.RulesetTextLines | vlan_manager/core.py:171-172 | The file text splits back into exactly the 11 + 2k ruleset lines. |
| Nftables.RulesetTextEnd | vlan_manager/core.py:165-172 | The text ends with the table's closing brace, with no trailing line break. |
| Core.PathJoin | vlan_manager/core.py:169 | os.path.join puts exactly one "/" between a directory that does not end in "/" and the file name. |
| Core.NftablesPathNotSysctl | vlan_manager/core.py:169-181 | The include path is never the sysctl file, so the sysctl write cannot overwrite the ruleset. |
| Core.DeploySucceeds | vlan_manager/core.py:179-194 | After generation, apply succeeds exactly when both files can be written, sysctl can be launched, and networkctl and nft are not refused with PermissionError. Then the include file holds the ruleset and the sysctl file enables forwarding. sysctl, networkctl and nft ran in that order, with nft run on the path just written. |
| Core.DeployWritesBeforeRunning | vlan_manager/core.py:179-194 | A command runs only after both files are written. A failed write runs no command, and an unwritable include path writes nothing. When a program cannot be launched, it is the last command tried. |
| Core.DeployIgnoresToolFailures | vlan_manager/core.py:184-194 | A non-zero exit of any of the three programs, and a missing networkctl or nft, make no difference to the result. sysctl failing to launch, and a PermissionError from networkctl or nft, do. |
| Core.VlanManager.constructor | vlan_manager/core.py:11-13 | The list is what the data file holds; a missing or unloadable file gives the empty list. |
| Core.VlanManager.SaveVlans | vlan_manager/core.py:25-28 | The data file holds the list, and nothing else on the host changes. |
| Core.VlanManager.GetVlans | vlan_manager/core.py:30-31 | Returns the current list. |
| Core.VlanManager.AddVlan | vlan_manager/core.py:33-56 | On an error the list and the data file are unchanged and the error follows the check order. On success the coerced record is appended last and saved. |
| Core.VlanManager.DeleteVlan | vlan_manager/core.py:58-60 | The list becomes the filter's result, in the same order, and is saved. |
| Core.VlanManager.FindParentConfigFile | vlan_manager/core.py:105-122 | The early-return loop returns exactly the scan's choice, including both fallbacks. |
| Core.VlanManager.PruneLoop | vlan_manager/core.py:126-139 | The removal loop over one directory's listing yields exactly the pruned directory. |
| Core.VlanManager.CleanupConfigs | vlan_manager/core.py:124-139 | The network directory and the drop-in directory end up as the cleanup leaves them. Listing a drop-in name that is a file raises after the network directory has been pruned. |
| Core.VlanManager.WriteVlan | vlan_manager/core.py:74-103 | One iteration's three writes, stopping at the first that raises. |
| Core.VlanManager.WriteLoop | vlan_manager/core.py:73-103 | The write loop stops at the first failing iteration and otherwise runs over the whole list. |
| Core.VlanManager.GenerateSystemdConfig | vlan_manager/core.py:62-103 | The network directory ends up as the generation leaves it, and the method fails exactly when the generation does. No other host state changes. |
| Core.VlanManager.AppendForwardRules | vlan_manager/core.py:151-153 | The first loop appends exactly the forward rules. |
| Core.VlanManager.AppendMasqueradeRules | vlan_manager/core.py:160-162 | The second loop appends exactly the masquerade rules. |
| Core.VlanManager.GenerateNftablesConfig | vlan_manager/core.py:141-174 | The include file holds the "\n"-joined ruleset and its path is returned. An unwritable path raises and writes nothing. |
| Core.VlanManager.DeployConfig | vlan_manager/core.py:179-194 | The statements after generate_systemd_config leave the files, commands and outcome that Deploy describes. |
| Core.VlanManager.ApplyConfig | vlan_manager/core.py:176-198 | A generation failure is re-raised with no file written and no command run. Otherwise the rest proceeds as Deploy describes. |

## Left out

- **JSON I/O.** The JSON encoding and decoding is left out. The data file is missing, unloadable (open or json.load raises), or a stored list of records.
- Core.VlanManager.constructor: a data file that json.load parses but that is not a list of records (an object, a number, records without `id` or `cidr`) is kept as it is by the code, and later calls then fail on it. The model treats every loaded file as a list of well-typed records: integer ids and string CIDRs.
- **A failing save_vlans.** A save_vlans that raises (makedirs or open failing) is not modelled.
- **CIDR validation.** `ipaddress.ip_network(..., strict=False)` is a foreign library. Its verdict is the parameter `cidrValid`.
- **`int()` parsing.** The details of `int(vlan_data['id'])` are left out: whitespace, signs, floats, bools, and the uncaught KeyError for a missing id. The raw id only parses to an integer or fails to.
- Records.AddValidationOrder: a `vlan_data` without a `cidr` key makes `vlan_data['cidr']` raise KeyError at core.py:47, which `except ValueError` does not catch. The record type always has a CIDR, so this error path is not modelled.
- Core.VlanManager.AddVlan: the same missing-`cidr` KeyError, which leaves the list unchanged, is not modelled.
- **Aliasing.** get_vlans returns the list itself in Python, so later mutation by the caller is visible; the model returns a value. add_vlan mutates the caller's dictionary in place; the model builds a new record.
- Records.Truthy: a field value is a JSON null, bool, integer or string. Floats, lists and objects are not represented, so `bool(get('dhcp'))` on `0.0`, `[]` or `{}` (false in Python) is not modelled.
- **Logging.** The logger calls have no effect on state and are left out.
- **Paths outside the network directory.** A NETWORK_DIR that names a file, which makes os.makedirs raise, is left out, as is a parent interface name containing "/".
- Networkd.EmitAllOutcome: the only write failure modelled in the network directory is a name that is a sub-directory. os.makedirs (core.py:64, 69) and open(..., 'w') (core.py:84, 96, 102) can also raise PermissionError or another OSError on an unwritable NETWORK_DIR. "Exactly when" holds for the model only.
- Networkd.EmitVlanEffect: the same; a write into an unwritable directory is not modelled.
- SystemdConfig.GenerateOutcome: the same; the call can also raise at os.makedirs or open on an unwritable directory, which the model does not represent.
- Core.VlanManager.GenerateSystemdConfig: the same.
- **Listing order of new entries.** Names created during a run are listed last. Python's os.listdir order is unspecified.
- **Nested sub-directories.** Only the contents of the network directory's immediate sub-directories are tracked. Sub-directories inside the drop-in directory are entries whose contents are not modelled.
- Core.VlanManager.WriteLoop: written in one step. The write loop computes the directories on values, and generate_systemd_config stores them in the host in one assignment at the end, including when an iteration raises. Python writes each file as it goes. Nothing observes the host in between, so the final state and the outcome are the same.
- Core.VlanManager.GenerateNftablesConfig: assumed directory. os.makedirs of the nftables directory is assumed to succeed. Only the open call can fail, for a path that may not be written.
- Core.VlanManager.ApplyConfig: what is written to the host. The commands are argument vectors. How each program ends is the parameter `status`: it exits 0, exits non-zero, is not installed (FileNotFoundError) or may not be executed (PermissionError). The model records which commands ran, not their effect on the live system. The constant /etc/sysctl.d path is treated like any other path that may not be writable.
- **Config.** PARENT_INTERFACE, WAN_INTERFACE and NFTABLES_DIR are the fields of `Settings`, not environment lookups. NETWORK_DIR is the `network` field of `Host`.
- **Code outside core.py.** The Flask application, the dashboard verification script and the tests are not part of this model.
- **Behaviour the tests expect but the code lacks.** This covers overlap checks, DHCP defaults, Kea generation, `20-vlan` file names, `DHCPServer=no` for a VLAN with DHCP enabled, and IPMasquerade and IPForward following the flags. None of it is in `vlan_manager/core.py`; see the disagreements above.
