/** String helpers shared by the record store and the renderers: Python's
    str(int), "\n".join, str.split("\n"), and the prefix, suffix and
    substring tests that the file-name patterns and the parent-interface scan use. */
module Text {
  import opened Results

  /** s.startswith(prefix) */
  predicate StartsWith(s: string, prefix: string) {
    prefix <= s
  }

  /** s.endswith(suffix) */
  predicate EndsWith(s: string, suffix: string) {
    |suffix| <= |s| && s[|s| - |suffix|..] == suffix
  }

  /** `sub in s` for two strings: sub occurs somewhere in s. */
  predicate Contains(s: string, sub: string)
    decreases |s|
  {
    sub <= s || (s != [] && Contains(s[1..], sub))
  }

  predicate NoNewline(s: string) {
    forall i :: 0 <= i < |s| ==> s[i] != '\n'
  }

  ghost predicate AllNoNewline(lines: seq<string>) {
    forall i :: 0 <= i < |lines| ==> NoNewline(lines[i])
  }

  lemma NoNewlineConcat(a: string, b: string)
    requires NoNewline(a) && NoNewline(b)
    ensures NoNewline(a + b)
  {
  }

  lemma AllNoNewlineConcat(a: seq<string>, b: seq<string>)
    requires AllNoNewline(a) && AllNoNewline(b)
    ensures AllNoNewline(a + b)
  {
  }

  predicate IsDigit(c: char) {
    '0' <= c <= '9'
  }

  function DigitChar(d: nat): (c: char)
    requires d < 10
    ensures IsDigit(c)
  {
    (48 + d) as char
  }

  /** Decimal digits of a natural number, most significant first, no leading zeros. */
  function Digits(n: nat): (r: string)
    ensures 1 <= |r|
    ensures (10 <= n) == (2 <= |r|)
    decreases n
  {
    if n < 10 then [DigitChar(n)] else Digits(n / 10) + [DigitChar(n % 10)]
  }

  /** Every character of the decimal digits is a digit. */
  lemma {:induction false} DigitsAreDigits(n: nat)
    ensures forall i :: 0 <= i < |Digits(n)| ==> IsDigit(Digits(n)[i])
    decreases n
  {
    if 10 <= n {
      DigitsAreDigits(n / 10);
      var d := Digits(n);
      assert forall i :: 0 <= i < |d| - 1 ==> d[i] == Digits(n / 10)[i];
    }
  }

  /** str(n) for a Python int. */
  function DecimalString(n: int): string {
    if n < 0 then "-" + Digits(-n) else Digits(n)
  }

  lemma {:induction false} DigitsInjective(a: nat, b: nat)
    requires Digits(a) == Digits(b)
    ensures a == b
    decreases a
  {
    if 10 <= a && 10 <= b {
      var da, db := Digits(a), Digits(b);
      assert da[..|da| - 1] == Digits(a / 10);
      assert db[..|db| - 1] == Digits(b / 10);
      DigitsInjective(a / 10, b / 10);
      assert DigitChar(a % 10) == da[|da| - 1] == db[|db| - 1] == DigitChar(b % 10);
    }
  }

  /** str(n) starts with a minus sign exactly for negative n. */
  lemma DecimalStringSign(n: int)
    ensures |DecimalString(n)| >= 1
    ensures (DecimalString(n)[0] == '-') == (n < 0)
  {
    if n >= 0 {
      DigitsAreDigits(n);
      assert IsDigit(Digits(n)[0]);
    }
  }

  /** Two integers render to the same decimal string only if they are equal. */
  lemma DecimalStringInjective(a: int, b: int)
    ensures DecimalString(a) == DecimalString(b) <==> a == b
  {
    DecimalStringSign(a);
    DecimalStringSign(b);
    if DecimalString(a) == DecimalString(b) {
      if a < 0 && b < 0 {
        assert Digits(-a) == DecimalString(a)[1..];
        assert Digits(-b) == DecimalString(b)[1..];
        DigitsInjective(-a, -b);
      } else if 0 <= a && 0 <= b {
        DigitsInjective(a, b);
      }
    }
  }

  /** str(n) never holds a line break, so it can sit inside one line of a file. */
  lemma DecimalStringNoNewline(n: int)
    ensures NoNewline(DecimalString(n))
  {
    var d := Digits(if n < 0 then -n else n);
    DigitsAreDigits(if n < 0 then -n else n);
    assert forall i :: 0 <= i < |d| ==> d[i] != '\n';
  }

  /** "\n".join(lines) */
  function Join(lines: seq<string>): string
    decreases |lines|
  {
    if |lines| == 0 then ""
    else if |lines| == 1 then lines[0]
    else lines[0] + "\n" + Join(lines[1..])
  }

  /** The joined text ends with the last line: nothing is appended after it. */
  lemma {:induction false} JoinEndsWithLast(lines: seq<string>)
    requires 1 <= |lines|
    ensures EndsWith(Join(lines), lines[|lines| - 1])
    decreases |lines|
  {
    if |lines| > 1 {
      var j, t := Join(lines[1..]), lines[|lines| - 1];
      assert lines[1..][|lines[1..]| - 1] == t;
      JoinEndsWithLast(lines[1..]);
      var s := lines[0] + "\n" + j;
      assert s[|s| - |t|..] == j[|j| - |t|..];
    }
  }

  /** One more line is joined on with a line break. */
  lemma {:induction false} JoinSnoc(lines: seq<string>, last: string)
    requires 1 <= |lines|
    ensures Join(lines + [last]) == Join(lines) + "\n" + last
    decreases |lines|
  {
    var all := lines + [last];
    if |lines| > 1 {
      assert all[1..] == lines[1..] + [last];
      JoinSnoc(lines[1..], last);
    }
  }

  /** "\n".join of seven lines, spelled out. */
  lemma JoinSeven(a0: string, a1: string, a2: string, a3: string, a4: string, a5: string, a6: string)
    ensures Join([a0, a1, a2, a3, a4, a5, a6])
      == a0 + "\n" + a1 + "\n" + a2 + "\n" + a3 + "\n" + a4 + "\n" + a5 + "\n" + a6
  {
    assert [a0] + [a1] == [a0, a1];
    JoinSnoc([a0], a1);
    assert [a0, a1] + [a2] == [a0, a1, a2];
    JoinSnoc([a0, a1], a2);
    assert [a0, a1, a2] + [a3] == [a0, a1, a2, a3];
    JoinSnoc([a0, a1, a2], a3);
    assert [a0, a1, a2, a3] + [a4] == [a0, a1, a2, a3, a4];
    JoinSnoc([a0, a1, a2, a3], a4);
    assert [a0, a1, a2, a3, a4] + [a5] == [a0, a1, a2, a3, a4, a5];
    JoinSnoc([a0, a1, a2, a3, a4], a5);
    assert [a0, a1, a2, a3, a4, a5] + [a6] == [a0, a1, a2, a3, a4, a5, a6];
    JoinSnoc([a0, a1, a2, a3, a4, a5], a6);
  }

  /** "\n".join of nine lines, spelled out. */
  lemma JoinNine(a0: string, a1: string, a2: string, a3: string, a4: string, a5: string, a6: string,
                 a7: string, a8: string)
    ensures Join([a0, a1, a2, a3, a4, a5, a6, a7, a8])
      == a0 + "\n" + a1 + "\n" + a2 + "\n" + a3 + "\n" + a4 + "\n" + a5 + "\n" + a6 + "\n" + a7 + "\n" + a8
  {
    JoinSeven(a0, a1, a2, a3, a4, a5, a6);
    assert [a0, a1, a2, a3, a4, a5, a6] + [a7] == [a0, a1, a2, a3, a4, a5, a6, a7];
    JoinSnoc([a0, a1, a2, a3, a4, a5, a6], a7);
    assert [a0, a1, a2, a3, a4, a5, a6, a7] + [a8] == [a0, a1, a2, a3, a4, a5, a6, a7, a8];
    JoinSnoc([a0, a1, a2, a3, a4, a5, a6, a7], a8);
  }

  /** s.split("\n"): the pieces between line breaks, always at least one. */
  function Split(s: string): (r: seq<string>)
    ensures 1 <= |r|
    decreases |s|
  {
    if s == [] then [""]
    else
      var rest := Split(s[1..]);
      if s[0] == '\n' then [""] + rest else [[s[0]] + rest[0]] + rest[1..]
  }

  lemma {:induction false} SplitOneLine(a: string)
    requires NoNewline(a)
    ensures Split(a) == [a]
    decreases |a|
  {
    if a != [] {
      SplitOneLine(a[1..]);
      assert [a[0]] + a[1..] == a;
    }
  }

  lemma {:induction false} SplitAfterLine(a: string, b: string)
    requires NoNewline(a)
    ensures Split(a + "\n" + b) == [a] + Split(b)
    decreases |a|
  {
    var s := a + "\n" + b;
    if a == [] {
      assert s[0] == '\n' && s[1..] == b;
    } else {
      assert s[1..] == a[1..] + "\n" + b;
      SplitAfterLine(a[1..], b);
      assert [a[0]] + a[1..] == a;
    }
  }

  /** Splitting the joined text gives the lines back, as long as none of them holds a
      line break; in particular the joined text has no trailing line break. */
  lemma {:induction false} SplitJoin(lines: seq<string>)
    requires 1 <= |lines|
    requires AllNoNewline(lines)
    ensures Split(Join(lines)) == lines
    decreases |lines|
  {
    if |lines| == 1 {
      SplitOneLine(lines[0]);
    } else {
      SplitAfterLine(lines[0], Join(lines[1..]));
      SplitJoin(lines[1..]);
    }
  }

  /** The value of the first `key=value` line, as a reader of a systemd unit file sees it. */
  function Lookup(lines: seq<string>, key: string): (r: Option<string>)
    ensures r.Some? ==> exists i :: 0 <= i < |lines| && lines[i] == key + "=" + r.value
    decreases |lines|
  {
    if lines == [] then None
    else if key + "=" <= lines[0] then
      assert lines[0] == key + "=" + lines[0][|key| + 1..];
      Some(lines[0][|key| + 1..])
    else Lookup(lines[1..], key)
  }

  /** A string does not start with a prefix it differs from at some position. */
  lemma DiffersAt(s: string, prefix: string, i: nat)
    requires i < |s| && i < |prefix| && s[i] != prefix[i]
    ensures !StartsWith(s, prefix)
  {
  }

  lemma StartsWithConcat(a: string, b: string)
    ensures StartsWith(a + b, a)
  {
    assert (a + b)[..|a|] == a;
  }

  lemma EndsWithConcat(a: string, b: string)
    ensures EndsWith(a + b, b)
  {
    assert (a + b)[|a|..] == b;
  }

  /** A common prefix and suffix can be cancelled. */
  lemma ConcatCancel(p: string, x: string, y: string, q: string)
    requires p + x + q == p + y + q
    ensures x == y
  {
    var s, t := p + x + q, p + y + q;
    assert |x| == |y|;
    assert x == s[|p|..|p| + |x|] && y == t[|p|..|p| + |y|];
  }
}
