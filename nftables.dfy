/** The nftables ruleset that generate_nftables_config renders from the VLAN list. */
module Nftables {
  import opened Text
  import opened Records

  const TableName: string := "vlan_mgmt"

  /** The accept rule of the forward chain for one NAT VLAN. */
  function ForwardRule(v: Vlan, wan: string): string {
    "    iifname \"vlan" + DecimalString(v.id) + "\" oifname \"" + wan + "\" accept"
  }

  /** The masquerade rule of the postrouting chain for one NAT VLAN. */
  function MasqueradeRule(v: Vlan, wan: string): string {
    "    ip saddr " + v.cidr + " oifname \"" + wan + "\" masquerade"
  }

  /** The VLANs with a truthy nat flag, in list order. */
  function NatVlans(vlans: seq<Vlan>): (r: seq<Vlan>)
    ensures |r| <= |vlans|
    ensures forall v :: v in r <==> v in vlans && v.natEnabled
    decreases |vlans|
  {
    if vlans == [] then []
    else
      var init := NatVlans(vlans[..|vlans| - 1]);
      var last := vlans[|vlans| - 1];
      assert forall v :: v in vlans <==> v in vlans[..|vlans| - 1] || v == last;
      if last.natEnabled then init + [last] else init
  }

  /** The lines the first loop appends: one forward rule per NAT VLAN. */
  function ForwardRules(vlans: seq<Vlan>, wan: string): (r: seq<string>)
    ensures |r| == |NatVlans(vlans)|
    decreases |vlans|
  {
    if vlans == [] then []
    else
      var last := vlans[|vlans| - 1];
      ForwardRules(vlans[..|vlans| - 1], wan) + (if last.natEnabled then [ForwardRule(last, wan)] else [])
  }

  /** The lines the second loop appends: one masquerade rule per NAT VLAN. */
  function MasqueradeRules(vlans: seq<Vlan>, wan: string): (r: seq<string>)
    ensures |r| == |NatVlans(vlans)|
    decreases |vlans|
  {
    if vlans == [] then []
    else
      var last := vlans[|vlans| - 1];
      MasqueradeRules(vlans[..|vlans| - 1], wan) + (if last.natEnabled then [MasqueradeRule(last, wan)] else [])
  }

  // The fixed lines of the ruleset, in the order they are appended.
  const TableLine: string := "table inet vlan_mgmt"
  const DeleteTableLine: string := "delete table inet vlan_mgmt"
  const OpenTableLine: string := "table inet vlan_mgmt {"
  const ForwardChainLine: string := "  chain forward {"
  const ForwardPolicyLine: string := "    type filter hook forward" + " priority 0; policy accept;"
  const EstablishedLine: string := "    ct state established,related accept"
  const CloseChainLine: string := "  }"
  const PostroutingChainLine: string := "  chain postrouting {"
  const PostroutingPolicyLine: string := "    type nat hook postrouting" + " priority 100; policy accept;"
  const CloseTableLine: string := "}"

  const Header: seq<string> :=
    [TableLine, DeleteTableLine, OpenTableLine, ForwardChainLine, ForwardPolicyLine, EstablishedLine]
  const Middle: seq<string> := [CloseChainLine, PostroutingChainLine, PostroutingPolicyLine]
  const Trailer: seq<string> := [CloseChainLine, CloseTableLine]

  /** The lines generate_nftables_config joins with "\n". */
  function Ruleset(vlans: seq<Vlan>, wan: string): (r: seq<string>)
    ensures |r| == 11 + 2 * |NatVlans(vlans)|
  {
    Header + ForwardRules(vlans, wan) + Middle + MasqueradeRules(vlans, wan) + Trailer
  }

  /** The text written to the include file. */
  function RulesetText(vlans: seq<Vlan>, wan: string): string {
    Join(Ruleset(vlans, wan))
  }

  lemma {:induction false} NatVlansIdempotent(vlans: seq<Vlan>)
    ensures NatVlans(NatVlans(vlans)) == NatVlans(vlans)
    decreases |vlans|
  {
    if vlans != [] {
      var init := vlans[..|vlans| - 1];
      var last := vlans[|vlans| - 1];
      NatVlansIdempotent(init);
      var n := NatVlans(init);
      if last.natEnabled {
        var w := n + [last];
        assert w[..|w| - 1] == n;
      }
    }
  }

  /** The first loop emits exactly one accept rule per NAT VLAN, in list order. */
  lemma {:induction false} ForwardRulesFollowNatVlans(vlans: seq<Vlan>, wan: string)
    ensures |ForwardRules(vlans, wan)| == |NatVlans(vlans)|
    ensures forall j :: 0 <= j < |NatVlans(vlans)| ==> ForwardRules(vlans, wan)[j] == ForwardRule(NatVlans(vlans)[j], wan)
    decreases |vlans|
  {
    if vlans != [] {
      ForwardRulesFollowNatVlans(vlans[..|vlans| - 1], wan);
    }
  }

  /** The second loop emits exactly one masquerade rule per NAT VLAN, in list order. */
  lemma {:induction false} MasqueradeRulesFollowNatVlans(vlans: seq<Vlan>, wan: string)
    ensures |MasqueradeRules(vlans, wan)| == |NatVlans(vlans)|
    ensures forall j :: 0 <= j < |NatVlans(vlans)| ==> MasqueradeRules(vlans, wan)[j] == MasqueradeRule(NatVlans(vlans)[j], wan)
    decreases |vlans|
  {
    if vlans != [] {
      MasqueradeRulesFollowNatVlans(vlans[..|vlans| - 1], wan);
    }
  }

  /** Where each part of a five-part concatenation of lines sits. */
  lemma FrameLayout(h: seq<string>, f: seq<string>, mid: seq<string>, m: seq<string>, t: seq<string>)
    ensures var r, a, b, c, d := h + f + mid + m + t, |h|, |h| + |f|, |h| + |f| + |mid|, |h| + |f| + |mid| + |m|;
      && |r| == d + |t|
      && r[..a] == h && r[a..b] == f && r[b..c] == mid && r[c..d] == m && r[d..] == t
  {
    var r := h + f + mid + m + t;
    assert r == (((h + f) + mid) + m) + t;
  }

  /** The fixed lines: the table deleted and recreated first, then the forward chain with its
      policy and the established/related rule, the chain change after the forward rules with
      the postrouting policy, and the two closing braces last. */
  lemma RulesetFixedLines(vlans: seq<Vlan>, wan: string)
    ensures var r, k := Ruleset(vlans, wan), |NatVlans(vlans)|;
      && r[0] == TableLine && r[1] == DeleteTableLine && r[2] == OpenTableLine
      && r[3] == ForwardChainLine && r[4] == ForwardPolicyLine && r[5] == EstablishedLine
      && r[6 + k] == CloseChainLine && r[7 + k] == PostroutingChainLine && r[8 + k] == PostroutingPolicyLine
      && r[9 + 2 * k] == CloseChainLine && r[10 + 2 * k] == CloseTableLine
  {
    var k := |NatVlans(vlans)|;
    var f, m := ForwardRules(vlans, wan), MasqueradeRules(vlans, wan);
    assert |Header| == 6 && |Middle| == 3 && |Trailer| == 2;
    FrameLayout(Header, f, Middle, m, Trailer);
    var r := Ruleset(vlans, wan);
    var hd, md, tr := r[..6], r[6 + k..9 + k], r[9 + 2 * k..];
    assert hd == Header && md == Middle && tr == Trailer;
    assert r[0] == hd[0] && r[1] == hd[1] && r[2] == hd[2] && r[3] == hd[3] && r[4] == hd[4] && r[5] == hd[5];
    assert r[6 + k] == md[0] && r[7 + k] == md[1] && r[8 + k] == md[2];
    assert r[9 + 2 * k] == tr[0] && r[10 + 2 * k] == tr[1];
  }

  /** Line 6 + j is the forward rule of the j-th NAT VLAN. */
  lemma RulesetForwardAt(vlans: seq<Vlan>, wan: string, j: int)
    requires 0 <= j < |NatVlans(vlans)|
    ensures Ruleset(vlans, wan)[6 + j] == ForwardRule(NatVlans(vlans)[j], wan)
  {
    var k := |NatVlans(vlans)|;
    var f, m := ForwardRules(vlans, wan), MasqueradeRules(vlans, wan);
    ForwardRulesFollowNatVlans(vlans, wan);
    assert |Header| == 6 && |Middle| == 3;
    FrameLayout(Header, f, Middle, m, Trailer);
    var r := Ruleset(vlans, wan);
    assert r[6..6 + k] == f;
    assert r[6 + j] == f[j];
  }

  /** Line 9 + k + j, where k is the number of NAT VLANs, is the masquerade rule of the j-th
      NAT VLAN. */
  lemma RulesetMasqueradeAt(vlans: seq<Vlan>, wan: string, j: int)
    requires 0 <= j < |NatVlans(vlans)|
    ensures Ruleset(vlans, wan)[9 + |NatVlans(vlans)| + j] == MasqueradeRule(NatVlans(vlans)[j], wan)
  {
    var k := |NatVlans(vlans)|;
    var f, m := ForwardRules(vlans, wan), MasqueradeRules(vlans, wan);
    MasqueradeRulesFollowNatVlans(vlans, wan);
    assert |Header| == 6 && |Middle| == 3;
    FrameLayout(Header, f, Middle, m, Trailer);
    var r := Ruleset(vlans, wan);
    assert r[9 + k..9 + 2 * k] == m;
    assert r[9 + k + j] == m[j];
  }

  /** VLANs without NAT contribute no lines: the ruleset of the whole list is that of its NAT VLANs. */
  lemma {:induction false} NonNatIgnored(vlans: seq<Vlan>, wan: string)
    ensures Ruleset(vlans, wan) == Ruleset(NatVlans(vlans), wan)
  {
    ForwardRulesFollowNatVlans(vlans, wan);
    ForwardRulesFollowNatVlans(NatVlans(vlans), wan);
    MasqueradeRulesFollowNatVlans(vlans, wan);
    MasqueradeRulesFollowNatVlans(NatVlans(vlans), wan);
    NatVlansIdempotent(vlans);
    assert ForwardRules(vlans, wan) == ForwardRules(NatVlans(vlans), wan);
    assert MasqueradeRules(vlans, wan) == MasqueradeRules(NatVlans(vlans), wan);
  }

  /** Appending a VLAN without NAT leaves the ruleset as it was. */
  lemma AppendNonNat(vlans: seq<Vlan>, v: Vlan, wan: string)
    requires !v.natEnabled
    ensures Ruleset(vlans + [v], wan) == Ruleset(vlans, wan)
  {
    var w := vlans + [v];
    assert w[..|w| - 1] == vlans;
  }

  lemma FixedLinesNoNewline()
    ensures AllNoNewline(Header) && AllNoNewline(Middle) && AllNoNewline(Trailer)
  {
    TableLineNoNewline();
    DeleteTableLineNoNewline();
    OpenTableLineNoNewline();
    ForwardChainLineNoNewline();
    ForwardPolicyLineNoNewline();
    EstablishedLineNoNewline();
    CloseChainLineNoNewline();
    PostroutingChainLineNoNewline();
    PostroutingPolicyLineNoNewline();
    CloseTableLineNoNewline();
  }

  lemma TableLineNoNewline() ensures NoNewline(TableLine) { }
  lemma DeleteTableLineNoNewline() ensures NoNewline(DeleteTableLine) { }
  lemma OpenTableLineNoNewline() ensures NoNewline(OpenTableLine) { }
  lemma ForwardChainLineNoNewline() ensures NoNewline(ForwardChainLine) { }
  lemma ForwardPolicyLineNoNewline() ensures NoNewline(ForwardPolicyLine) {
    NoNewlineConcat("    type filter hook forward", " priority 0; policy accept;");
  }
  lemma EstablishedLineNoNewline() ensures NoNewline(EstablishedLine) { }
  lemma CloseChainLineNoNewline() ensures NoNewline(CloseChainLine) { }
  lemma PostroutingChainLineNoNewline() ensures NoNewline(PostroutingChainLine) { }
  lemma PostroutingPolicyLineNoNewline() ensures NoNewline(PostroutingPolicyLine) {
    NoNewlineConcat("    type nat hook postrouting", " priority 100; policy accept;");
  }
  lemma CloseTableLineNoNewline() ensures NoNewline(CloseTableLine) { }

  lemma RulesNoNewline(v: Vlan, wan: string)
    requires NoNewline(wan) && NoNewline(v.cidr)
    ensures NoNewline(ForwardRule(v, wan)) && NoNewline(MasqueradeRule(v, wan))
  {
    var id := DecimalString(v.id);
    DecimalStringNoNewline(v.id);
    NoNewlineConcat("    iifname \"vlan", id);
    NoNewlineConcat("    iifname \"vlan" + id, "\" oifname \"");
    NoNewlineConcat("    iifname \"vlan" + id + "\" oifname \"", wan);
    NoNewlineConcat("    iifname \"vlan" + id + "\" oifname \"" + wan, "\" accept");
    NoNewlineConcat("    ip saddr ", v.cidr);
    NoNewlineConcat("    ip saddr " + v.cidr, " oifname \"");
    NoNewlineConcat("    ip saddr " + v.cidr + " oifname \"", wan);
    NoNewlineConcat("    ip saddr " + v.cidr + " oifname \"" + wan, "\" masquerade");
  }

  lemma RulesetNoNewline(vlans: seq<Vlan>, wan: string)
    requires NoNewline(wan)
    requires forall i :: 0 <= i < |vlans| ==> NoNewline(vlans[i].cidr)
    ensures AllNoNewline(Ruleset(vlans, wan))
  {
    var nats := NatVlans(vlans);
    var f, m := ForwardRules(vlans, wan), MasqueradeRules(vlans, wan);
    ForwardRulesFollowNatVlans(vlans, wan);
    MasqueradeRulesFollowNatVlans(vlans, wan);
    forall j | 0 <= j < |nats| ensures NoNewline(f[j]) && NoNewline(m[j]) {
      assert nats[j] in vlans;
      var k :| 0 <= k < |vlans| && vlans[k] == nats[j];
      RulesNoNewline(nats[j], wan);
    }
    FixedLinesNoNewline();
    AllNoNewlineConcat(Header, f);
    AllNoNewlineConcat(Header + f, Middle);
    AllNoNewlineConcat(Header + f + Middle, m);
    AllNoNewlineConcat(Header + f + Middle + m, Trailer);
  }

  /** The text written ends with the closing brace of the table: no line break follows it. */
  lemma RulesetTextEnd(vlans: seq<Vlan>, wan: string)
    ensures var text := RulesetText(vlans, wan); |text| >= 1 && text[|text| - 1] == '}'
  {
    var r := Ruleset(vlans, wan);
    RulesetFixedLines(vlans, wan);
    JoinEndsWithLast(r);
    assert r[|r| - 1] == CloseTableLine;
  }

  /** The file text splits back into exactly the ruleset lines: the lines are joined with
      "\n" and no line break trails the last one. */
  lemma RulesetTextLines(vlans: seq<Vlan>, wan: string)
    requires NoNewline(wan)
    requires forall i :: 0 <= i < |vlans| ==> NoNewline(vlans[i].cidr)
    ensures Split(RulesetText(vlans, wan)) == Ruleset(vlans, wan)
    ensures |Split(RulesetText(vlans, wan))| == 11 + 2 * |NatVlans(vlans)|
  {
    RulesetNoNewline(vlans, wan);
    SplitJoin(Ruleset(vlans, wan));
  }
}
