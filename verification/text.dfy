/**
 * Bytes, hexadecimal text and the composite entity ids of the subgraph.
 *
 * Text is a sequence of UTF-16 code units, which is what `length`, `slice`, `charCodeAt` and
 * `String.fromCharCode` work on; an entity id is such a text.
 */
module Text {

  datatype Option<+T> = None | Some(value: T)

  type Byte = n: nat | n < 0x100
  type Bytes = seq<Byte>
  type Bytes8 = b: Bytes | |b| == 8 witness [0, 0, 0, 0, 0, 0, 0, 0]
  type CodeUnit = n: nat | n < 0x1_0000
  type JsString = seq<CodeUnit>

  const DASH: CodeUnit := 0x2D
  const HEX_PREFIX: JsString := [0x30, 0x78]                           // 0x
  const REFUND: JsString := [0x72, 0x65, 0x66, 0x75, 0x6E, 0x64]       // refund

  // ----- hexadecimal and decimal text -----

  function HexDigit(n: nat): CodeUnit
    requires n < 16
  {
    if n < 10 then 0x30 + n else 0x57 + n
  }

  /** Two lower-case hexadecimal digits per byte. */
  function HexPairs(b: Bytes): JsString
  {
    if b == [] then [] else [HexDigit(b[0] / 16), HexDigit(b[0] % 16)] + HexPairs(b[1..])
  }

  /** `Bytes.toHex()`. */
  function ToHex(b: Bytes): JsString
  {
    HEX_PREFIX + HexPairs(b)
  }

  /** `String.toLowerCase()` on the Latin capitals; no other code unit occurs in the texts it is used on. */
  function ToLower(s: JsString): JsString
  {
    seq(|s|, i requires 0 <= i < |s| => if 0x41 <= s[i] <= 0x5A then s[i] + 0x20 else s[i])
  }

  /** `BigInt.toString()` of a non-negative number. */
  function Decimal(n: nat): JsString
  {
    if n < 10 then [0x30 + n] else Decimal(n / 10) + [0x30 + n % 10]
  }

  /** The code unit of a hexadecimal digit: 0-9, or a-f in lower case. */
  ghost predicate IsHexDigit(c: CodeUnit, n: nat)
  {
    (n < 10 && c == 0x30 + n) || (10 <= n < 16 && c == 0x61 + n - 10)
  }

  lemma {:induction false} HexPairsAt(b: Bytes, i: nat)
    requires i < |b|
    ensures |HexPairs(b)| == 2 * |b|
    ensures IsHexDigit(HexPairs(b)[2 * i], b[i] / 16) && IsHexDigit(HexPairs(b)[2 * i + 1], b[i] % 16)
  {
    HexPairsShape(b);
    if i > 0 {
      HexPairsAt(b[1..], i - 1);
      assert HexPairs(b)[2..] == HexPairs(b[1..]);
    }
  }

  /** Hexadecimal text is 0x and, byte by byte, the high digit before the low one. */
  lemma ToHexAt(b: Bytes, i: nat)
    requires i < |b|
    ensures |ToHex(b)| == 2 + 2 * |b| && ToHex(b)[0] == 0x30 && ToHex(b)[1] == 0x78
    ensures IsHexDigit(ToHex(b)[2 + 2 * i], b[i] / 16) && IsHexDigit(ToHex(b)[3 + 2 * i], b[i] % 16)
  {
    HexPairsAt(b, i);
  }

  /** The number that decimal text stands for. */
  ghost function ReadDecimal(s: JsString): int
  {
    if s == [] then 0 else
      var last: int := s[|s| - 1];
      10 * ReadDecimal(s[..|s| - 1]) + last - 0x30
  }

  /** Decimal text has digits only, no leading zero, and reads back as the number. */
  lemma {:induction false} DecimalReadsBack(n: nat)
    ensures ReadDecimal(Decimal(n)) == n
    ensures forall i :: 0 <= i < |Decimal(n)| ==> 0x30 <= Decimal(n)[i] <= 0x39
    ensures |Decimal(n)| > 0 && (n > 0 ==> Decimal(n)[0] != 0x30)
  {
    var s := Decimal(n);
    if n < 10 {
      assert s[..0] == [];
    } else {
      DecimalReadsBack(n / 10);
      assert s[..|s| - 1] == Decimal(n / 10);
    }
  }

  lemma {:induction false} HexPairsInjective(a: Bytes, b: Bytes)
    requires HexPairs(a) == HexPairs(b)
    ensures a == b
  {
    if a == [] || b == [] {
    } else {
      var x, y := HexPairs(a), HexPairs(b);
      assert x[0] == y[0] && x[1] == y[1];
      assert x[2..] == HexPairs(a[1..]) && y[2..] == HexPairs(b[1..]);
      HexPairsInjective(a[1..], b[1..]);
      assert a == [a[0]] + a[1..] && b == [b[0]] + b[1..];
    }
  }

  lemma ToHexInjective(a: Bytes, b: Bytes)
    requires ToHex(a) == ToHex(b)
    ensures a == b
  {
    assert ToHex(a)[2..] == HexPairs(a) && ToHex(b)[2..] == HexPairs(b);
    HexPairsInjective(a, b);
  }

  lemma {:induction false} DecimalInjective(a: nat, b: nat)
    requires Decimal(a) == Decimal(b)
    ensures a == b
  {
    var x, y := Decimal(a), Decimal(b);
    assert x[|x| - 1] == y[|y| - 1];
    DecimalNonEmpty(a / 10);
    DecimalNonEmpty(b / 10);
    if a >= 10 && b >= 10 {
      assert x[..|x| - 1] == Decimal(a / 10) && y[..|y| - 1] == Decimal(b / 10);
      DecimalInjective(a / 10, b / 10);
    }
  }

  lemma DecimalNonEmpty(a: nat)
    ensures |Decimal(a)| > 0
  {
  }

  ghost predicate DashFree(s: JsString)
  {
    DASH !in s
  }

  ghost predicate LowerHex(s: JsString)
  {
    forall i :: 0 <= i < |s| ==> 0x30 <= s[i] <= 0x39 || 0x61 <= s[i] <= 0x66
  }

  lemma {:induction false} HexPairsShape(b: Bytes)
    ensures |HexPairs(b)| == 2 * |b|
    ensures LowerHex(HexPairs(b))
  {
    if b != [] {
      HexPairsShape(b[1..]);
    }
  }

  lemma ToHexDashFree(b: Bytes)
    ensures DashFree(ToHex(b))
  {
    HexPairsShape(b);
  }

  lemma {:induction false} DecimalDashFree(n: nat)
    ensures DashFree(Decimal(n))
  {
    if n >= 10 {
      DecimalDashFree(n / 10);
    }
  }

  /** Lower-casing an address id changes nothing, so both spellings of a user id name one entity. */
  lemma ToHexIsLowerCase(b: Bytes)
    ensures ToLower(ToHex(b)) == ToHex(b)
  {
    HexPairsShape(b);
  }

  // ----- ids joined with dashes -----

  /** The parts concatenated with a dash between neighbours. */
  function Join(parts: seq<JsString>): JsString
    requires |parts| > 0
  {
    if |parts| == 1 then parts[0] else parts[0] + [DASH] + Join(parts[1..])
  }

  ghost predicate AllDashFree(parts: seq<JsString>)
  {
    forall i :: 0 <= i < |parts| ==> DashFree(parts[i])
  }

  lemma FirstDashAt(a: JsString, x: JsString)
    requires DashFree(a)
    ensures var s := a + [DASH] + x;
            s[|a|] == DASH && forall i :: 0 <= i < |a| ==> s[i] != DASH
  {
  }

  /** Two texts that agree have the same part before, and after, the first dash. */
  lemma FirstDash(a: JsString, b: JsString, x: JsString, y: JsString)
    requires DashFree(a) && DashFree(b)
    requires a + [DASH] + x == b + [DASH] + y
    ensures a == b && x == y
  {
    FirstDashAt(a, x);
    FirstDashAt(b, y);
    var s, t := a + [DASH] + x, b + [DASH] + y;
    assert |a| == |b|;
    assert a == s[..|a|] && b == t[..|a|];
    assert x == s[|a| + 1..] && y == t[|a| + 1..];
  }

  lemma JoinHasDash(parts: seq<JsString>)
    requires |parts| > 1
    ensures !DashFree(Join(parts))
  {
    assert Join(parts)[|parts[0]|] == DASH;
  }

  /** Dash-free parts can be read back from the joined id: equal ids have equal parts. */
  lemma {:induction false} JoinInjective(p: seq<JsString>, q: seq<JsString>)
    requires |p| > 0 && |q| > 0
    requires AllDashFree(p) && AllDashFree(q)
    requires Join(p) == Join(q)
    ensures p == q
  {
    if |p| > 1 {
      JoinHasDash(p);
    }
    if |q| > 1 {
      JoinHasDash(q);
    }
    if |p| > 1 {
      FirstDash(p[0], q[0], Join(p[1..]), Join(q[1..]));
      JoinInjective(p[1..], q[1..]);
      assert p == [p[0]] + p[1..] && q == [q[0]] + q[1..];
    }
  }

  // ----- the entity ids -----

  /** `getOrganizationIdString` and `getProfileIdString`: one code unit per byte. */
  function IdString(b: Bytes8): JsString
  {
    b
  }

  function MemberKey(organization: Bytes, member: Bytes): JsString
  {
    Join([ToHex(organization), ToHex(member)])
  }

  function ContributionKey(campaign: JsString, contributor: JsString, transaction: JsString): JsString
  {
    Join([campaign, contributor, transaction])
  }

  function RefundKey(campaign: JsString, contributor: JsString, transaction: JsString): JsString
  {
    Join([campaign, contributor, REFUND, transaction])
  }

  function DelegationKey(organization: Bytes, delegator: Bytes, delegatee: Bytes, timestamp: nat): JsString
  {
    Join([ToHex(organization), ToHex(delegator), ToHex(delegatee), Decimal(timestamp)])
  }

  lemma JoinTwo(a: JsString, b: JsString)
    ensures Join([a, b]) == a + [0x2D] + b
  {
    assert [a, b][1..] == [b];
  }

  lemma Regroup(a: JsString, b: JsString, c: JsString)
    ensures a + [0x2D] + (b + [0x2D] + c) == a + [0x2D] + b + [0x2D] + c
  {
  }

  lemma JoinThree(a: JsString, b: JsString, c: JsString)
    ensures Join([a, b, c]) == a + [0x2D] + b + [0x2D] + c
  {
    assert [a, b, c][1..] == [b, c];
    JoinTwo(b, c);
    Regroup(a, b, c);
  }

  lemma JoinFour(a: JsString, b: JsString, c: JsString, d: JsString)
    ensures Join([a, b, c, d]) == a + [0x2D] + b + [0x2D] + c + [0x2D] + d
  {
    assert [a, b, c, d][1..] == [b, c, d];
    JoinThree(b, c, d);
    Regroup(a, b + [0x2D] + c, d);
    Regroup(a, b, c);
  }

  /** The ids as text: the parts with "-", for refunds "-refund-", between them. */
  lemma KeyText(o: Bytes, m: Bytes, r: Bytes, t: nat, c: JsString, u: JsString, x: JsString)
    ensures MemberKey(o, m) == ToHex(o) + [0x2D] + ToHex(m)
    ensures DelegationKey(o, m, r, t) ==
            ToHex(o) + [0x2D] + ToHex(m) + [0x2D] + ToHex(r) + [0x2D] + Decimal(t)
    ensures ContributionKey(c, u, x) == c + [0x2D] + u + [0x2D] + x
    ensures RefundKey(c, u, x) ==
            c + [0x2D] + u + [0x2D, 0x72, 0x65, 0x66, 0x75, 0x6E, 0x64, 0x2D] + x
  {
    JoinTwo(ToHex(o), ToHex(m));
    JoinFour(ToHex(o), ToHex(m), ToHex(r), Decimal(t));
    JoinThree(c, u, x);
    JoinFour(c, u, REFUND, x);
    assert [0x2D] + REFUND + [0x2D] == [0x2D, 0x72, 0x65, 0x66, 0x75, 0x6E, 0x64, 0x2D];
  }

  lemma MemberKeyInjective(o: Bytes, m: Bytes, o': Bytes, m': Bytes)
    ensures MemberKey(o, m) == MemberKey(o', m') <==> o == o' && m == m'
  {
    if MemberKey(o, m) == MemberKey(o', m') {
      ToHexDashFree(o); ToHexDashFree(m); ToHexDashFree(o'); ToHexDashFree(m');
      var p, q := [ToHex(o), ToHex(m)], [ToHex(o'), ToHex(m')];
      JoinInjective(p, q);
      assert p[0] == q[0] && p[1] == q[1];
      ToHexInjective(o, o');
      ToHexInjective(m, m');
    }
  }

  lemma DelegationKeyInjective(o: Bytes, d: Bytes, e: Bytes, t: nat, o': Bytes, d': Bytes, e': Bytes, t': nat)
    ensures DelegationKey(o, d, e, t) == DelegationKey(o', d', e', t') <==> o == o' && d == d' && e == e' && t == t'
  {
    if DelegationKey(o, d, e, t) == DelegationKey(o', d', e', t') {
      ToHexDashFree(o); ToHexDashFree(d); ToHexDashFree(e); DecimalDashFree(t);
      ToHexDashFree(o'); ToHexDashFree(d'); ToHexDashFree(e'); DecimalDashFree(t');
      var p := [ToHex(o), ToHex(d), ToHex(e), Decimal(t)];
      var q := [ToHex(o'), ToHex(d'), ToHex(e'), Decimal(t')];
      JoinInjective(p, q);
      assert p[0] == q[0] && p[1] == q[1] && p[2] == q[2] && p[3] == q[3];
      ToHexInjective(o, o');
      ToHexInjective(d, d');
      ToHexInjective(e, e');
      DecimalInjective(t, t');
    }
  }

  lemma ContributionKeyInjective(c: JsString, u: JsString, t: JsString, c': JsString, u': JsString, t': JsString)
    requires AllDashFree([c, u, t]) && AllDashFree([c', u', t'])
    ensures ContributionKey(c, u, t) == ContributionKey(c', u', t') <==> c == c' && u == u' && t == t'
  {
    if ContributionKey(c, u, t) == ContributionKey(c', u', t') {
      var p, q := [c, u, t], [c', u', t'];
      JoinInjective(p, q);
      assert p[0] == q[0] && p[1] == q[1] && p[2] == q[2];
    }
  }

  lemma RefundKeyInjective(c: JsString, u: JsString, t: JsString, c': JsString, u': JsString, t': JsString)
    requires AllDashFree([c, u, t]) && AllDashFree([c', u', t'])
    ensures RefundKey(c, u, t) == RefundKey(c', u', t') <==> c == c' && u == u' && t == t'
  {
    if RefundKey(c, u, t) == RefundKey(c', u', t') {
      RefundPartsDashFree(c, u, t);
      RefundPartsDashFree(c', u', t');
      var p, q := [c, u, REFUND, t], [c', u', REFUND, t'];
      JoinInjective(p, q);
      assert p[0] == q[0] && p[1] == q[1] && p[3] == q[3];
    }
  }

  /** No refund record can ever be stored over a contribution record. */
  lemma RefundIsNotContribution(c: JsString, u: JsString, t: JsString, c': JsString, u': JsString, t': JsString)
    requires AllDashFree([c, u, t]) && AllDashFree([c', u', t'])
    ensures RefundKey(c, u, t) != ContributionKey(c', u', t')
  {
    if RefundKey(c, u, t) == ContributionKey(c', u', t') {
      RefundPartsDashFree(c, u, t);
      JoinInjective([c, u, REFUND, t], [c', u', t']);
      assert false;
    }
  }

  lemma RefundPartsDashFree(c: JsString, u: JsString, t: JsString)
    requires AllDashFree([c, u, t])
    ensures AllDashFree([c, u, REFUND, t])
  {
    assert [c, u, t][2] == t;
    var p := [c, u, REFUND, t];
    forall i | 0 <= i < |p|
      ensures DashFree(p[i])
    {
      assert i == 2 || p[i] in [c, u, t];
    }
  }
}
