/** The text keys hashed for the virtual nodes: the node ID, a '#', and a decimal index. */
module VirtualKeys {

  const VIRTUAL_NODES_PER_NODE: nat := 150

  function Digit(d: nat): (c: char)
    requires d < 10
    ensures '0' <= c <= '9' && c as nat - '0' as nat == d
  {
    ('0' as nat + d) as char
  }

  function Decimal(n: nat): (s: string)
    ensures |s| > 0
    ensures forall c | c in s :: '0' <= c <= '9'
  {
    if n < 10 then [Digit(n)] else Decimal(n / 10) + [Digit(n % 10)]
  }

  function VirtualKey(node: string, i: nat): string {
    node + "#" + Decimal(i)
  }

  /** The number a string of digits stands for; any other character counts as its offset from '0'. */
  function Value(s: string): int {
    if s == "" then 0 else Value(s[..|s| - 1]) * 10 + (s[|s| - 1] as int - '0' as int)
  }

  /** Decimal notation can be read back. */
  lemma {:induction false} DecimalRoundTrip(n: nat)
    ensures Value(Decimal(n)) == n
  {
    if n < 10 {
      assert Decimal(n)[..0] == "";
    } else {
      DecimalRoundTrip(n / 10);
      assert Decimal(n)[..|Decimal(n)| - 1] == Decimal(n / 10);
    }
  }

  lemma LastMark(node: string, i: nat)
    ensures var key := VirtualKey(node, i);
            && |node| < |key| && key[|node|] == '#'
            && forall k | |node| < k < |key| :: key[k] != '#'
  {
    var key := VirtualKey(node, i);
    forall k | |node| < k < |key| ensures key[k] != '#' {
      assert key[k] == Decimal(i)[k - |node| - 1] && key[k] in Decimal(i);
    }
  }

  /** No index contains a '#', so the last '#' splits a key: two virtual keys are equal only if both parts are. */
  lemma VirtualKeyInjective(a: string, i: nat, b: string, j: nat)
    requires VirtualKey(a, i) == VirtualKey(b, j)
    ensures a == b && i == j
  {
    var key := VirtualKey(a, i);
    LastMark(a, i);
    LastMark(b, j);
    assert |a| == |b|;
    assert a == key[..|a|] == b;
    assert Decimal(i) == key[|a| + 1..] == Decimal(j);
    DecimalRoundTrip(i);
    DecimalRoundTrip(j);
  }

  // ---------------------------------------------------------------------------------------------
  // What the texts are, read from outside
  // ---------------------------------------------------------------------------------------------

  /** `Value` reads decimal digits from left to right. */
  lemma ValueReads(s: string, c: char)
    ensures Value("") == 0
    ensures Value(s + [c]) == 10 * Value(s) + (c as int - '0' as int)
  {
    assert (s + [c])[..|s|] == s;
  }

  lemma {:induction false} DecimalLeads(n: nat)
    ensures Decimal(n)[0] == '0' ==> |Decimal(n)| == 1
    ensures n > 0 ==> Decimal(n)[0] != '0'
  {
    if n >= 10 {
      DecimalLeads(n / 10);
      assert Decimal(n)[0] == Decimal(n / 10)[0];
    }
  }

  /** A virtual key begins with the node and a '#'; the rest is the index in decimal without leading zeros. */
  lemma KeyReadBack(node: string, i: nat)
    ensures var text := VirtualKey(node, i);
            && |text| > |node| + 1 && text[..|node| + 1] == node + "#"
            && (forall k | |node| + 1 <= k < |text| :: '0' <= text[k] <= '9')
            && (text[|node| + 1] == '0' ==> |text| == |node| + 2)
            && Value(text[|node| + 1..]) == i
  {
    var text := VirtualKey(node, i);
    assert text[|node| + 1..] == Decimal(i);
    forall k | |node| + 1 <= k < |text| ensures '0' <= text[k] <= '9' {
      assert text[k] == Decimal(i)[k - |node| - 1] && Decimal(i)[k - |node| - 1] in Decimal(i);
    }
    DecimalLeads(i);
    DecimalRoundTrip(i);
  }

  ghost predicate Digits(s: string) {
    s != "" && forall k | 0 <= k < |s| :: '0' <= s[k] <= '9'
  }

  lemma {:induction false} ValueNonNegative(s: string)
    requires forall k | 0 <= k < |s| :: '0' <= s[k] <= '9'
    ensures Value(s) >= 0
  {
    if s != "" {
      ValueNonNegative(s[..|s| - 1]);
    }
  }

  lemma {:induction false} ValueGrows(s: string)
    requires Digits(s) && s[0] != '0'
    ensures Value(s) >= 1
  {
    var init := s[..|s| - 1];
    if init != "" {
      ValueGrows(init);
    } else {
      assert Value(init) == 0;
    }
  }

  /** Without leading zeros there is only one way to write a number. */
  lemma {:induction false} DigitsUnique(s: string, t: string)
    requires Digits(s) && Digits(t) && (s[0] == '0' ==> |s| == 1) && (t[0] == '0' ==> |t| == 1)
    requires Value(s) == Value(t)
    ensures s == t
  {
    var s', t' := s[..|s| - 1], t[..|t| - 1];
    assert s == s' + [s[|s| - 1]] && t == t' + [t[|t| - 1]];
    assert s' == "" ==> Value(s') == 0;
    assert t' == "" ==> Value(t') == 0;
    if s' != "" {
      ValueGrows(s');
    }
    if t' != "" {
      ValueGrows(t');
    }
    assert Value(s') == Value(t');
    if s' != "" && t' != "" {
      DigitsUnique(s', t');
    }
  }

  /** ... so the description determines the key. */
  lemma KeyTextUnique(node: string, text: string)
    requires |text| > |node| + 1 && text[..|node| + 1] == node + "#"
    requires forall k | |node| + 1 <= k < |text| :: '0' <= text[k] <= '9'
    requires text[|node| + 1] == '0' ==> |text| == |node| + 2
    ensures Value(text[|node| + 1..]) >= 0
    ensures text == VirtualKey(node, Value(text[|node| + 1..]))
  {
    var digits := text[|node| + 1..];
    ValueNonNegative(digits);
    var i: nat := Value(digits);
    DecimalLeads(i);
    DecimalRoundTrip(i);
    assert forall k | 0 <= k < |Decimal(i)| :: Decimal(i)[k] in Decimal(i);
    DigitsUnique(digits, Decimal(i));
    assert text == text[..|node| + 1] + digits;
  }
}
