/** The line structure of a systemd unit file: section headers, key=value settings and blank
    lines, rendered one per line, and what a reader that takes the first `key=` line of the text
    gets back from it. */
module UnitFile {
  import opened Results
  import opened Text

  /** The keys the generated files set. */
  datatype Key = Name | Kind | Id | Address | DHCPServer | IPMasquerade | IPForward | VLAN

  function KeyText(k: Key): string {
    match k
    case Name => "Name"
    case Kind => "Kind"
    case Id => "Id"
    case Address => "Address"
    case DHCPServer => "DHCPServer"
    case IPMasquerade => "IPMasquerade"
    case IPForward => "IPForward"
    case VLAN => "VLAN"
  }

  datatype Line = Section(name: string) | Setting(key: Key, value: string) | Blank

  function Render(l: Line): string {
    match l
    case Section(name) => "[" + name + "]"
    case Setting(key, value) => KeyText(key) + "=" + value
    case Blank => ""
  }

  function RenderAll(ls: seq<Line>): (r: seq<string>)
    ensures |r| == |ls|
    decreases |ls|
  {
    if ls == [] then [] else [Render(ls[0])] + RenderAll(ls[1..])
  }

  /** The file text: the rendered lines joined by line breaks, so a last blank line leaves
      the text ending in a line break. */
  function FileText(ls: seq<Line>): string {
    Join(RenderAll(ls))
  }

  /** Line i of the text is the rendering of line i of the structure. */
  lemma {:induction false} RenderAllAt(ls: seq<Line>)
    ensures forall i :: 0 <= i < |ls| ==> RenderAll(ls)[i] == Render(ls[i])
    decreases |ls|
  {
    if ls != [] {
      RenderAllAt(ls[1..]);
    }
  }

  /** The value of the first setting of key, looked up on the structure. */
  function SettingValue(ls: seq<Line>, key: Key): Option<string>
    decreases |ls|
  {
    if ls == [] then None
    else if ls[0].Setting? && ls[0].key == key then Some(ls[0].value)
    else SettingValue(ls[1..], key)
  }

  predicate NoEquals(s: string) {
    forall i :: 0 <= i < |s| ==> s[i] != '='
  }

  /** A key a reader can look up: not empty, not the start of a section header, no '=' and no
      line break. */
  predicate PlainKey(key: string) {
    |key| >= 1 && key[0] != '[' && NoEquals(key) && NoNewline(key)
  }

  lemma KeyTextPlain(k: Key)
    ensures PlainKey(KeyText(k))
  {
  }

  /** Different keys are spelled differently; spelled out by length, then by first letter. */
  lemma KeyTextInjective(a: Key, b: Key)
    requires a != b
    ensures KeyText(a) != KeyText(b)
  {
    var s, t := KeyText(a), KeyText(b);
    if |s| == |t| {
      assert s[0] != t[0];
    }
  }

  /** Lines that render to one line of text each. */
  ghost predicate ValidLines(ls: seq<Line>) {
    forall i :: 0 <= i < |ls| ==> match ls[i]
      case Section(name) => NoNewline(name)
      case Setting(_, value) => NoNewline(value)
      case Blank => true
  }

  lemma RenderNoNewline(l: Line)
    requires ValidLines([l])
    ensures NoNewline(Render(l))
  {
    assert [l][0] == l;
    match l
    case Section(name) =>
      NoNewlineConcat("[", name);
      NoNewlineConcat("[" + name, "]");
    case Setting(key, value) =>
      KeyTextPlain(key);
      NoNewlineConcat(KeyText(key), "=");
      NoNewlineConcat(KeyText(key) + "=", value);
    case Blank =>
  }

  lemma {:induction false} RenderAllNoNewline(ls: seq<Line>)
    requires ValidLines(ls)
    ensures AllNoNewline(RenderAll(ls))
    decreases |ls|
  {
    if ls != [] {
      assert ValidLines([ls[0]]) by {
        assert [ls[0]][0] == ls[0];
      }
      RenderNoNewline(ls[0]);
      assert ValidLines(ls[1..]) by {
        forall i | 0 <= i < |ls| - 1 ensures ls[1..][i] == ls[i + 1] { }
      }
      RenderAllNoNewline(ls[1..]);
      AllNoNewlineConcat([Render(ls[0])], RenderAll(ls[1..]));
    }
  }

  /** The text splits back into the rendered lines. */
  lemma FileTextLines(ls: seq<Line>)
    requires |ls| >= 1 && ValidLines(ls)
    ensures Split(FileText(ls)) == RenderAll(ls)
  {
    RenderAllNoNewline(ls);
    SplitJoin(RenderAll(ls));
  }

  /** A rendered line starts with `key=` exactly when it is a setting of that key. */
  lemma RenderedPrefix(l: Line, key: Key)
    ensures StartsWith(Render(l), KeyText(key) + "=") <==> l.Setting? && l.key == key
  {
    var p := KeyText(key) + "=";
    KeyTextPlain(key);
    match l
    case Section(name) =>
      DiffersAt(Render(l), p, 0);
    case Setting(k, value) =>
      var s, a, b := Render(l), KeyText(k), KeyText(key);
      KeyTextPlain(k);
      if |a| < |b| {
        assert s[|a|] == '=' && p[|a|] == b[|a|];
        DiffersAt(s, p, |a|);
      } else if |b| < |a| {
        assert s[|b|] == a[|b|] && p[|b|] == '=';
        DiffersAt(s, p, |b|);
      } else if k != key {
        KeyTextInjective(k, key);
        var i :| 0 <= i < |a| && a[i] != b[i];
        assert s[i] == a[i] && p[i] == b[i];
        DiffersAt(s, p, i);
      } else {
        assert s == p + value;
      }
    case Blank =>
  }

  /** Reading the rendered lines gives the value of the first setting of the key. */
  lemma {:induction false} LookupRendered(ls: seq<Line>, key: Key)
    requires ValidLines(ls)
    ensures Lookup(RenderAll(ls), KeyText(key)) == SettingValue(ls, key)
    decreases |ls|
  {
    if ls != [] {
      var r := RenderAll(ls);
      assert r[0] == Render(ls[0]) && r[1..] == RenderAll(ls[1..]);
      RenderedPrefix(ls[0], key);
      assert ValidLines(ls[1..]) by {
        forall i | 0 <= i < |ls| - 1 ensures ls[1..][i] == ls[i + 1] { }
      }
      LookupRendered(ls[1..], key);
      if ls[0].Setting? && ls[0].key == key {
        var k := KeyText(key);
        assert Render(ls[0]) == k + "=" + ls[0].value;
        assert Render(ls[0])[|k| + 1..] == ls[0].value;
      }
    }
  }

  /** The first setting of a key decides its value. */
  lemma {:induction false} SettingAt(ls: seq<Line>, key: Key, i: nat, value: string)
    requires i < |ls| && ls[i] == Setting(key, value)
    requires forall j :: 0 <= j < i ==> !(ls[j].Setting? && ls[j].key == key)
    ensures SettingValue(ls, key) == Some(value)
    decreases i
  {
    if i > 0 {
      SettingAt(ls[1..], key, i - 1, value);
    }
  }

  /** What a reader of the file text finds for a key. */
  lemma ReadBack(ls: seq<Line>, key: Key)
    requires |ls| >= 1 && ValidLines(ls)
    ensures Lookup(Split(FileText(ls)), KeyText(key)) == SettingValue(ls, key)
  {
    FileTextLines(ls);
    LookupRendered(ls, key);
  }
}
