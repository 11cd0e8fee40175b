/**
 * The text of subgraph.yaml as lines: data-source names, address lines, startBlock lines and all others, in any
 * order. The named patterns of packages/subgraph/scripts/update-addresses.js are shown to edit exactly one line.
 */
module ManifestLines {
  import opened Text
  import opened LinePatterns

  const NAME := "    name: "
  const ADDRESS := "      address: \""
  const START := "      startBlock:"

  // ----- documents -----

  datatype Kind = NameKind | AddressKind | StartKind | OtherKind

  /** A line of text, cut around the name, the address or the number it holds; any other line is all value. */
  datatype Line = Line(kind: Kind, before: string, value: string, after: string)

  type Document = seq<Line>

  function NameLine(x: string): Line
  {
    Line(NameKind, NAME, x, "")
  }

  function TextOf(l: Line): string
  {
    l.before + l.value + l.after
  }

  /** What follows the first line. */
  function Following(d: Document): string
    requires d != []
    decreases |d|, 0
  {
    if |d| == 1 then "" else "\n" + Render(d[1..])
  }

  /** The lines with line feeds between them. */
  function Render(d: Document): string
    decreases |d|, 1
  {
    if d == [] then "" else TextOf(d[0]) + Following(d)
  }

  ghost predicate AllDigits(s: string)
  {
    forall i :: 0 <= i < |s| ==> IsDigit(s[i])
  }

  ghost predicate AllSpaces(s: string)
  {
    forall i :: 0 <= i < |s| ==> IsSpace(s[i])
  }

  /** A startBlock prefix after which, spaces apart, something other than a digit stands on the same line. */
  ghost predicate NoNumber(text: string)
    requires START <= text
  {
    var t := text[|START|..];
    SpaceRun(t) < |t| && !IsDigit(t[SpaceRun(t)])
  }

  ghost predicate GoodLine(l: Line)
  {
    && OneLine(TextOf(l))
    && match l.kind
       case NameKind => l.before == NAME && l.after == ""
       case AddressKind => l.before == ADDRESS && '"' !in l.value && l.after != "" && l.after[0] == '"'
       case StartKind =>
         && START <= l.before && AllSpaces(l.before[|START|..]) && l.value != "" && AllDigits(l.value)
         && (l.after != "" ==> !IsDigit(l.after[0]))
       case OtherKind =>
         && l.before == l.after == "" && !(NAME <= l.value) && !(ADDRESS <= l.value)
         && (START <= l.value ==> NoNumber(l.value))
  }

  ghost predicate WellFormed(d: Document)
  {
    forall i :: 0 <= i < |d| ==> GoodLine(d[i])
  }

  // ----- every text is such a document -----

  /** The line stands alone: an opened address is closed, and a startBlock prefix is not followed by spaces only. */
  ghost predicate Closed(line: string)
  {
    && (ADDRESS <= line ==> '"' in line[|ADDRESS|..])
    && (START <= line ==> SpaceRun(line[|START|..]) < |line[|START|..]|)
  }

  /** Lines end in line feeds and stand alone. */
  ghost predicate Covered(s: string)
    decreases |s|
  {
    Closed(s[..Eol(s)]) && (Eol(s) < |s| ==> s[Eol(s)] == '\n' && Covered(s[Eol(s) + 1..]))
  }

  lemma Rejoin(s: string, i: nat, j: nat)
    requires i <= j <= |s|
    ensures s == s[..i] + s[i..j] + s[j..]
  {
  }

  lemma {:induction false} FirstQuote(t: string) returns (n: nat)
    requires '"' in t
    ensures n < |t| && t[n] == '"' && '"' !in t[..n]
  {
    if t[0] == '"' {
      n := 0;
    } else {
      var m := FirstQuote(t[1..]);
      n := m + 1;
      assert t[..n] == [t[0]] + t[1..][..m];
    }
  }

  lemma AddressText(s: string) returns (l: Line)
    requires OneLine(s) && ADDRESS <= s && '"' in s[|ADDRESS|..]
    ensures GoodLine(l) && TextOf(l) == s
  {
    var a := |ADDRESS|;
    var n := FirstQuote(s[a..]);
    Rejoin(s, a, a + n);
    assert s[a..a + n] == s[a..][..n] && s[a + n..][0] == s[a..][n];
    l := Line(AddressKind, s[..a], s[a..a + n], s[a + n..]);
  }

  lemma SliceOfDrop(t: string, w: nat, n: nat)
    requires w + n <= |t|
    ensures t[w..w + n] == t[w..][..n] && (w + n < |t| ==> t[w + n] == t[w..][n])
  {
  }

  lemma DigitsOf(s: string)
    ensures AllDigits(s[..DigitRun(s)]) && (DigitRun(s) < |s| ==> !IsDigit(s[DigitRun(s)]))
  {
    DigitRunIs(s);
  }

  lemma SpacesOf(s: string)
    ensures AllSpaces(s[..SpaceRun(s)]) && (SpaceRun(s) < |s| ==> !IsSpace(s[SpaceRun(s)]))
  {
    SpaceRunIs(s);
  }

  /** Spaces and then digits, neither of which need be there. */
  lemma SpacesAndDigits(t: string) returns (w: nat, n: nat)
    ensures w == SpaceRun(t) && w + n <= |t| && AllSpaces(t[..w]) && AllDigits(t[w..w + n])
    ensures w + n < |t| ==> !IsDigit(t[w + n])
  {
    w := SpaceRun(t);
    n := DigitRun(t[w..]);
    SpacesOf(t);
    DigitsOf(t[w..]);
    SliceOfDrop(t, w, n);
  }

  lemma StartText(s: string) returns (l: Line)
    requires OneLine(s) && Closed(s) && START <= s && !(NAME <= s) && !(ADDRESS <= s)
    ensures GoodLine(l) && TextOf(l) == s
  {
    var a, t := |START|, s[|START|..];
    var w, n := SpacesAndDigits(t);
    if n > 0 {
      Rejoin(s, a + w, a + w + n);
      assert s[a + w..a + w + n] == t[w..w + n] && s[..a + w][a..] == t[..w];
      assert s[a + w + n..] != "" ==> s[a + w + n..][0] == t[w + n];
      l := Line(StartKind, s[..a + w], s[a + w..a + w + n], s[a + w + n..]);
    } else {
      l := OtherLine(s);
    }
  }

  function OtherLine(s: string): (l: Line)
    ensures TextOf(l) == s
  {
    assert "" + s + "" == s;
    Line(OtherKind, "", s, "")
  }

  lemma NameText(s: string) returns (l: Line)
    requires OneLine(s) && NAME <= s
    ensures GoodLine(l) && TextOf(l) == s
  {
    l := NameLine(s[|NAME|..]);
    assert s == NAME + s[|NAME|..] + "";
  }

  lemma LineText(s: string) returns (l: Line)
    requires OneLine(s) && Closed(s)
    ensures GoodLine(l) && TextOf(l) == s
  {
    if NAME <= s {
      l := NameText(s);
    } else if ADDRESS <= s {
      l := AddressText(s);
    } else if START <= s {
      l := StartText(s);
    } else {
      l := OtherLine(s);
    }
  }

  lemma RenderCons(l: Line, tail: Document)
    requires tail != []
    ensures Render([l] + tail) == TextOf(l) + "\n" + Render(tail)
  {
    assert ([l] + tail)[1..] == tail;
    Associative(TextOf(l), "\n", Render(tail));
  }

  lemma RenderOne(l: Line)
    ensures Render([l]) == TextOf(l)
  {
    assert TextOf(l) + "" == TextOf(l);
  }

  lemma LineAbove(line: string, tail: Document) returns (d: Document)
    requires OneLine(line) && Closed(line) && WellFormed(tail) && tail != []
    ensures WellFormed(d) && d != [] && Render(d) == line + "\n" + Render(tail)
  {
    var l := LineText(line);
    RenderCons(l, tail);
    d := [l] + tail;
  }

  lemma LastLine(line: string) returns (d: Document)
    requires OneLine(line) && Closed(line)
    ensures WellFormed(d) && d != [] && Render(d) == line
  {
    var l := LineText(line);
    RenderOne(l);
    d := [l];
  }

  lemma CutAt(s: string, n: nat)
    requires n < |s| && s[n] == '\n'
    ensures s == s[..n] + "\n" + s[n + 1..]
  {
  }

  /** Every text whose lines end in line feeds and stand alone is the rendering of a well-formed document. */
  lemma {:induction false} EveryTextIsADocument(s: string) returns (d: Document)
    requires Covered(s)
    ensures WellFormed(d) && d != [] && Render(d) == s
    decreases |s|
  {
    var n := Eol(s);
    EolIs(s);
    if n == |s| {
      d := LastLine(s[..n]);
      assert s[..n] == s;
    } else {
      var tail := EveryTextIsADocument(s[n + 1..]);
      CutAt(s, n);
      d := LineAbove(s[..n], tail);
    }
  }

  // ----- lines a pattern can edit -----

  predicate Editable(k: Kind)
  {
    k.AddressKind? || k.StartKind?
  }

  function PrefixOf(k: Kind): string
    requires Editable(k)
  {
    if k.AddressKind? then ADDRESS else START
  }

  /** The pattern that writes `v` on the first line of the kind. */
  function PatternOf(k: Kind, v: string): Pattern
    requires Editable(k)
  {
    if k.AddressKind? then Quoted(ADDRESS, v) else Numbered(START, v)
  }

  /** The pattern that does so below the first line with the name. */
  function NamedPattern(x: string, k: Kind, v: string): Pattern
    requires Editable(k)
  {
    Named(NAME + x, PatternOf(k, v))
  }

  function SetTo(l: Line, v: string): Line
  {
    l.(value := v)
  }

  ghost predicate GoodValue(k: Kind, v: string)
  {
    if k.AddressKind? then OneLine(v) && '"' !in v else v != "" && AllDigits(v)
  }

  /** The line starts the data source `x`. */
  predicate Names(l: Line, x: string)
  {
    l.kind.NameKind? && l.value == x
  }

  /** The index of the first line of a kind, or the number of lines. */
  function First(d: Document, k: Kind): (j: nat)
    ensures j <= |d| && (j < |d| ==> d[j].kind == k) && (forall i :: 0 <= i < j ==> d[i].kind != k)
  {
    if d == [] || d[0].kind == k then 0 else 1 + First(d[1..], k)
  }

  /** Where the pattern for a data source lands: the first line of the kind below the first line with the name,
      or the number of lines. */
  function Land(d: Document, x: string, k: Kind): (j: nat)
    ensures j <= |d| && (j < |d| ==> d[j].kind == k)
  {
    if d == [] then 0
    else if Names(d[0], x) then 1 + First(d[1..], k)
    else 1 + Land(d[1..], x, k)
  }

  function SetAt(d: Document, j: nat, v: string): Document
  {
    if j < |d| then d[j := SetTo(d[j], v)] else d
  }

  // ----- one line under a pattern -----

  lemma DifferAt(want: string, s: string, i: nat)
    requires i < |want| && i < |s| && want[i] != s[i]
    ensures !(want <= s)
  {
  }

  ghost predicate EndsLine(rest: string)
  {
    rest == "" || rest[0] == '\n'
  }

  lemma DigitRunOf(a: string, rest: string)
    requires AllDigits(a) && (rest != "" ==> !IsDigit(rest[0]))
    ensures DigitRun(a + rest) == |a|
  {
    var s := a + rest;
    DigitRunIs(s);
    assert forall i :: 0 <= i < |a| ==> s[i] == a[i];
    assert rest != "" ==> s[|a|] == rest[0];
  }

  lemma SpaceRunOf(a: string, rest: string)
    requires AllSpaces(a) && rest != "" && !IsSpace(rest[0])
    ensures SpaceRun(a + rest) == |a|
  {
    var s := a + rest;
    SpaceRunIs(s);
    assert forall i :: 0 <= i < |a| ==> s[i] == a[i];
    assert s[|a|] == rest[0];
  }

  lemma UnquotedRunOf(a: string, rest: string)
    requires '"' !in a && rest != "" && rest[0] == '"'
    ensures UnquotedRun(a + rest) == |a|
  {
    var s := a + rest;
    UnquotedRunIs(s);
    assert forall i :: 0 <= i < |a| ==> s[i] == a[i];
    assert s[|a|] == '"';
  }

  lemma RegroupQuoted(prefix: string, value: string, after: string, rest: string)
    ensures prefix + value + after + rest == prefix + (value + (after + rest))
    ensures prefix + value + after + rest == prefix + value + (after + rest)
  {
  }

  lemma QuotedHere(prefix: string, value: string, after: string, v: string, rest: string)
    requires '"' !in value && after != "" && after[0] == '"'
    ensures At(Quoted(prefix, v), prefix + value + after + rest) == Some(prefix + v + after + rest)
  {
    var t := value + (after + rest);
    RegroupQuoted(prefix, value, after, rest);
    RegroupQuoted(prefix, v, after, rest);
    assert (prefix + t)[|prefix|..] == t;
    UnquotedRunOf(value, after + rest);
    assert t[|value|..] == after + rest;
  }

  lemma RegroupNumbered(prefix: string, gap: string, number: string, after: string, rest: string)
    ensures prefix + gap + number + after + rest == prefix + (gap + (number + (after + rest)))
    ensures prefix + gap + number + after + rest == prefix + gap + number + (after + rest)
  {
  }

  lemma NumberedRuns(gap: string, number: string, u: string)
    requires AllSpaces(gap) && number != "" && AllDigits(number) && (u != "" ==> !IsDigit(u[0]))
    ensures var t := gap + (number + u);
            && SpaceRun(t) == |gap| && t[..|gap|] == gap && t[|gap|..] == number + u
            && DigitRun(number + u) == |number| && t[|gap| + |number|..] == u
  {
    var t := gap + (number + u);
    assert IsDigit(number[0]);
    SpaceRunOf(gap, number + u);
    DigitRunOf(number, u);
    assert t[|gap|..] == number + u;
    assert t[|gap|..][|number|..] == u;
  }

  lemma NumberedAt(prefix: string, t: string, v: string)
    requires DigitRun(t[SpaceRun(t)..]) > 0
    ensures var w := SpaceRun(t);
            At(Numbered(prefix, v), prefix + t) == Some(prefix + t[..w] + v + t[w + DigitRun(t[w..])..])
  {
    assert (prefix + t)[|prefix|..] == t;
  }

  lemma NumberedHere(prefix: string, gap: string, number: string, after: string, v: string, rest: string)
    requires AllSpaces(gap) && number != "" && AllDigits(number) && EndsLine(rest)
    requires after != "" ==> !IsDigit(after[0])
    ensures At(Numbered(prefix, v), prefix + gap + number + after + rest) == Some(prefix + gap + v + after + rest)
  {
    var u := after + rest;
    RegroupNumbered(prefix, gap, number, after, rest);
    RegroupNumbered(prefix, gap, v, after, rest);
    NumberedRuns(gap, number, u);
    NumberedAt(prefix, gap + (number + u), v);
  }

  /** A pattern edits a line of its kind. */
  lemma EditHere(l: Line, v: string, rest: string)
    requires Editable(l.kind) && GoodLine(l) && EndsLine(rest)
    ensures At(PatternOf(l.kind, v), TextOf(l) + rest) == Some(TextOf(SetTo(l, v)) + rest)
  {
    if l.kind.AddressKind? {
      QuotedHere(ADDRESS, l.value, l.after, v, rest);
    } else {
      var gap := l.before[|START|..];
      assert l.before == START + gap;
      NumberedHere(START, gap, l.value, l.after, v, rest);
    }
  }

  lemma NoDigitBehind(t: string, rest: string)
    requires SpaceRun(t) < |t| && !IsDigit(t[SpaceRun(t)])
    ensures DigitRun((t + rest)[SpaceRun(t + rest)..]) == 0
  {
    var w := SpaceRun(t);
    SpacesOf(t);
    assert t + rest == t[..w] + (t[w..] + rest);
    SpaceRunOf(t[..w], t[w..] + rest);
    DigitRunIs((t + rest)[w..]);
    assert (t + rest)[w..][0] == t[w];
  }

  lemma NoNumberAt(prefix: string, t: string, v: string, rest: string)
    requires SpaceRun(t) < |t| && !IsDigit(t[SpaceRun(t)])
    ensures At(Numbered(prefix, v), prefix + t + rest).None?
  {
    Associative(prefix, t, rest);
    assert (prefix + (t + rest))[|prefix|..] == t + rest;
    NoDigitBehind(t, rest);
  }

  lemma NoPrefixAt(p: Pattern, s: string)
    requires (p.Quoted? || p.Numbered?) && !(p.prefix <= s)
    ensures At(p, s).None?
  {
  }

  lemma StartsWith(l: Line)
    ensures l.before <= TextOf(l)
    ensures l.before == l.after == "" ==> TextOf(l) == l.value
  {
    assert TextOf(l)[..|l.before|] == l.before;
  }

  lemma OtherPrefix(l: Line, k: Kind)
    requires Editable(k) && GoodLine(l) && l.kind != k
    requires !(l.kind.OtherKind? && START <= l.value && k.StartKind?)
    ensures !(PrefixOf(k) <= TextOf(l))
  {
    StartsWith(l);
    match l.kind
    case NameKind => DifferAt(PrefixOf(k), TextOf(l), 4);
    case AddressKind => DifferAt(START, TextOf(l), 6);
    case StartKind => DifferAt(ADDRESS, TextOf(l), 6);
    case OtherKind =>
  }

  lemma NoNumberHere(text: string, v: string, rest: string)
    requires START <= text && NoNumber(text)
    ensures At(Numbered(START, v), text + rest).None?
  {
    assert text == START + text[|START|..];
    NoNumberAt(START, text[|START|..], v, rest);
  }

  lemma NoPrefixHere(l: Line, k: Kind, rest: string)
    requires Editable(k) && GoodLine(l) && l.kind != k && EndsLine(rest)
    requires !(l.kind.OtherKind? && START <= l.value && k.StartKind?)
    ensures !(PrefixOf(k) <= TextOf(l) + rest)
  {
    OtherPrefix(l, k);
    assert OneLine(PrefixOf(k));
    WithinFirstLine(PrefixOf(k), TextOf(l), rest);
  }

  /** A pattern passes over a line of another kind. */
  lemma NotHere(l: Line, k: Kind, v: string, rest: string)
    requires Editable(k) && GoodLine(l) && l.kind != k && EndsLine(rest)
    ensures At(PatternOf(k, v), TextOf(l) + rest).None?
  {
    if l.kind.OtherKind? && START <= l.value && k.StartKind? {
      StartsWith(l);
      NoNumberHere(l.value, v, rest);
    } else {
      NoPrefixHere(l, k, rest);
      NoPrefixAt(PatternOf(k, v), TextOf(l) + rest);
    }
  }

  // ----- a document under a pattern -----

  /** The text after an edit of line `j`; None beyond the last line. */
  ghost function Outcome(d: Document, j: nat, v: string): Option<string>
  {
    if j < |d| then Some(Render(SetAt(d, j, v))) else None
  }

  lemma OutcomeCons(l: Line, tail: Document, j: nat, v: string)
    requires tail != []
    ensures Outcome([l] + tail, j + 1, v) == Prepend(TextOf(l) + "\n", Outcome(tail, j, v))
  {
    if j < |tail| {
      assert SetAt([l] + tail, j + 1, v) == [l] + SetAt(tail, j, v);
      RenderCons(l, SetAt(tail, j, v));
    }
  }

  /** A scan that passes over the first line goes on with the remaining ones. */
  lemma ScanOn(p: Pattern, l: Line, tail: Document, j: nat, v: string)
    requires GoodLine(l) && tail != [] && At(p, Render([l] + tail)).None?
    requires Scan(p, Render(tail)) == Outcome(tail, j, v)
    ensures Scan(p, Render([l] + tail)) == Outcome([l] + tail, j + 1, v)
  {
    RenderCons(l, tail);
    ScanNext(p, TextOf(l), '\n', Render(tail));
    OutcomeCons(l, tail, j, v);
  }

  lemma ScanOne(p: Pattern, l: Line)
    requires GoodLine(l)
    ensures Scan(p, Render([l])) == At(p, TextOf(l) + "")
  {
    RenderOne(l);
    ScanLast(p, TextOf(l));
    assert TextOf(l) + "" == TextOf(l);
  }

  lemma NothingInEmptyText(p: Pattern)
    requires p.Named? || ((p.Quoted? || p.Numbered?) && p.prefix != "")
    ensures Scan(p, "").None?
  {
    ScanLast(p, "");
  }

  lemma ScanEditsHere(d: Document, k: Kind, v: string)
    requires d != [] && GoodLine(d[0]) && d[0].kind == k && Editable(k)
    ensures Scan(PatternOf(k, v), Render(d)) == Outcome(d, 0, v)
  {
    EditHere(d[0], v, Following(d));
    ScanHere(PatternOf(k, v), Render(d));
    assert SetAt(d, 0, v)[1..] == d[1..];
    assert Following(SetAt(d, 0, v)) == Following(d);
  }

  /** The same, from the match at the line and what follows it. */
  lemma ScanPast(p: Pattern, l: Line, tail: Document, j: nat, v: string)
    requires GoodLine(l) && tail != [] && At(p, TextOf(l) + ("\n" + Render(tail))).None?
    requires Scan(p, Render(tail)) == Outcome(tail, j, v)
    ensures Scan(p, Render([l] + tail)) == Outcome([l] + tail, j + 1, v)
  {
    RenderCons(l, tail);
    Associative(TextOf(l), "\n", Render(tail));
    ScanOn(p, l, tail, j, v);
  }

  lemma ScanEditsLater(l: Line, tail: Document, k: Kind, v: string)
    requires Editable(k) && GoodLine(l) && tail != [] && l.kind != k
    requires Scan(PatternOf(k, v), Render(tail)) == Outcome(tail, First(tail, k), v)
    ensures Scan(PatternOf(k, v), Render([l] + tail)) == Outcome([l] + tail, First(tail, k) + 1, v)
  {
    NotHere(l, k, v, "\n" + Render(tail));
    ScanPast(PatternOf(k, v), l, tail, First(tail, k), v);
  }

  lemma ScanEditsNone(l: Line, k: Kind, v: string)
    requires Editable(k) && GoodLine(l) && l.kind != k
    ensures Scan(PatternOf(k, v), Render([l])).None?
  {
    NotHere(l, k, v, "");
    ScanOne(PatternOf(k, v), l);
  }

  lemma FirstCons(l: Line, tail: Document, k: Kind)
    ensures First([l] + tail, k) == if l.kind == k then 0 else 1 + First(tail, k)
  {
    assert ([l] + tail)[1..] == tail;
  }

  /** Without a name, a pattern edits the first line of its kind. */
  lemma {:induction false} ScanEditsFirst(d: Document, k: Kind, v: string)
    requires WellFormed(d) && Editable(k)
    ensures Scan(PatternOf(k, v), Render(d)) == Outcome(d, First(d, k), v)
  {
    if d == [] {
      NothingInEmptyText(PatternOf(k, v));
    } else {
      var l, tail := d[0], d[1..];
      assert d == [l] + tail;
      FirstCons(l, tail, k);
      if l.kind == k {
        ScanEditsHere(d, k, v);
      } else if tail == [] {
        ScanEditsNone(l, k, v);
      } else {
        ScanEditsFirst(tail, k, v);
        ScanEditsLater(l, tail, k, v);
      }
    }
  }

  /** The landing lies no higher than the first line of the kind. */
  lemma {:induction false} LandBelowFirst(d: Document, x: string, k: Kind)
    ensures First(d, k) <= Land(d, x, k)
  {
    if d != [] {
      LandBelowFirst(d[1..], x, k);
    }
  }

  lemma FirstLineOf(a: string, b: string, s: string, t: string)
    requires OneLine(a) && OneLine(b) && EndsLine(s) && EndsLine(t) && a + s == b + t
    ensures a == b && s == t
  {
    EolOf(a, s);
    EolOf(b, t);
    assert (a + s)[..|a|] == a && (b + t)[..|b|] == b;
    assert (a + s)[|a|..] == s && (b + t)[|b|..] == t;
  }

  lemma WholeFirstLine(want: string, line: string, rest: string)
    requires OneLine(want) && OneLine(line) && EndsLine(rest) && want + "\n" <= line + rest
    ensures line == want && rest != ""
  {
    var s := line + rest;
    var after := s[|want| + 1..];
    assert s == want + ("\n" + after);
    FirstLineOf(line, want, rest, "\n" + after);
  }

  lemma NameNotThere(head: string, inner: Pattern, s: string)
    requires !(head + "\n" <= s)
    ensures At(Named(head, inner), s).None?
  {
  }

  lemma NameIsText(l: Line, x: string)
    requires GoodLine(l)
    ensures Names(l, x) <==> TextOf(l) == NAME + x
  {
    StartsWith(l);
    assert NAME <= NAME + x && (NAME + x)[4] == 'n' && (NAME + x)[|NAME|..] == x;
    if l.kind.NameKind? {
      assert TextOf(l) == NAME + l.value && TextOf(l)[|NAME|..] == l.value;
    }
  }

  lemma NameIsOneLine(x: string)
    requires OneLine(x)
    ensures OneLine(NAME + x)
  {
    assert OneLine(NAME);
  }

  /** Only the line with the name, with a line below it, starts a match. */
  lemma NameMissing(l: Line, x: string, inner: Pattern, rest: string)
    requires GoodLine(l) && OneLine(x) && EndsLine(rest) && (Names(l, x) ==> rest == "")
    ensures At(Named(NAME + x, inner), TextOf(l) + rest).None?
  {
    if NAME + x + "\n" <= TextOf(l) + rest {
      NameIsOneLine(x);
      WholeFirstLine(NAME + x, TextOf(l), rest);
      NameIsText(l, x);
    } else {
      NameNotThere(NAME + x, inner, TextOf(l) + rest);
    }
  }

  lemma NamedAt(head: string, inner: Pattern, after: string)
    ensures At(Named(head, inner), head + "\n" + after) == Prepend(head + "\n", Scan(inner, after))
  {
    assert (head + "\n" + after)[|head| + 1..] == after;
  }

  lemma NamedHere(l: Line, inner: Pattern, tail: Document, j: nat, v: string)
    requires tail != [] && Scan(inner, Render(tail)) == Outcome(tail, j, v)
    ensures At(Named(TextOf(l), inner), Render([l] + tail)) == Outcome([l] + tail, j + 1, v)
  {
    RenderCons(l, tail);
    NamedAt(TextOf(l), inner, Render(tail));
    OutcomeCons(l, tail, j, v);
  }

  lemma LandCons(l: Line, tail: Document, x: string, k: Kind)
    ensures Land([l] + tail, x, k) == 1 + if Names(l, x) then First(tail, k) else Land(tail, x, k)
  {
    assert ([l] + tail)[1..] == tail;
  }

  lemma ScanAtName(l: Line, tail: Document, x: string, k: Kind, v: string)
    requires GoodLine(l) && Names(l, x) && WellFormed(tail) && tail != [] && Editable(k)
    requires Scan(NamedPattern(x, k, v), Render(tail)) == Outcome(tail, Land(tail, x, k), v)
    ensures Scan(NamedPattern(x, k, v), Render([l] + tail)) == Outcome([l] + tail, First(tail, k) + 1, v)
  {
    var p := NamedPattern(x, k, v);
    NameIsText(l, x);
    ScanEditsFirst(tail, k, v);
    NamedHere(l, PatternOf(k, v), tail, First(tail, k), v);
    if First(tail, k) < |tail| {
      ScanHere(p, Render([l] + tail));
    } else {
      LandBelowFirst(tail, x, k);
      ScanOn(p, l, tail, |tail|, v);
    }
  }

  lemma ScanPastLine(l: Line, tail: Document, x: string, k: Kind, v: string)
    requires GoodLine(l) && !Names(l, x) && tail != [] && OneLine(x) && Editable(k)
    requires Scan(NamedPattern(x, k, v), Render(tail)) == Outcome(tail, Land(tail, x, k), v)
    ensures Scan(NamedPattern(x, k, v), Render([l] + tail)) == Outcome([l] + tail, Land(tail, x, k) + 1, v)
  {
    NameMissing(l, x, PatternOf(k, v), "\n" + Render(tail));
    ScanPast(NamedPattern(x, k, v), l, tail, Land(tail, x, k), v);
  }

  /** For every well-formed document: the pattern for a data source edits exactly the line it lands on, and does not
      match when it lands nowhere. */
  lemma {:induction false} PatternEdits(d: Document, x: string, k: Kind, v: string)
    requires WellFormed(d) && OneLine(x) && Editable(k)
    ensures Scan(NamedPattern(x, k, v), Render(d)) == Outcome(d, Land(d, x, k), v)
  {
    if d == [] {
      NothingInEmptyText(NamedPattern(x, k, v));
    } else {
      var l, tail := d[0], d[1..];
      assert d == [l] + tail;
      LandCons(l, tail, x, k);
      if tail == [] {
        NameMissing(l, x, PatternOf(k, v), "");
        ScanOne(NamedPattern(x, k, v), l);
      } else {
        PatternEdits(tail, x, k, v);
        if Names(l, x) {
          ScanAtName(l, tail, x, k, v);
        } else {
          ScanPastLine(l, tail, x, k, v);
        }
      }
    }
  }

  // ----- edits keep the shape -----

  /** The same lines up to addresses and start blocks. */
  ghost predicate SameShape(d: Document, e: Document)
  {
    |e| == |d| && forall i :: 0 <= i < |d| ==> e[i] == if Editable(d[i].kind) then SetTo(d[i], e[i].value) else d[i]
  }

  lemma {:induction false} SameLandings(d: Document, e: Document, x: string, k: Kind)
    requires SameShape(d, e)
    ensures First(e, k) == First(d, k) && Land(e, x, k) == Land(d, x, k)
  {
    if d != [] {
      assert e[0].kind == d[0].kind && (Names(e[0], x) <==> Names(d[0], x));
      assert SameShape(d[1..], e[1..]);
      SameLandings(d[1..], e[1..], x, k);
    }
  }

  lemma PartsAreOneLine(l: Line)
    ensures OneLine(TextOf(l)) <==> OneLine(l.before) && OneLine(l.value) && OneLine(l.after)
  {
    var s := TextOf(l);
    assert s[..|l.before|] == l.before && s[|l.before|..|l.before| + |l.value|] == l.value;
    assert s[|l.before| + |l.value|..] == l.after;
  }

  lemma DigitsAreOneLine(v: string)
    requires AllDigits(v)
    ensures OneLine(v)
  {
  }

  lemma SetToIsGood(l: Line, v: string)
    requires GoodLine(l) && Editable(l.kind) && GoodValue(l.kind, v)
    ensures GoodLine(SetTo(l, v))
  {
    PartsAreOneLine(l);
    PartsAreOneLine(SetTo(l, v));
    if l.kind.StartKind? {
      DigitsAreOneLine(v);
    }
  }

  /** Documents of the same length that render to the same text have the same lines of text. */
  lemma {:induction false} RenderInjective(d: Document, e: Document)
    requires WellFormed(d) && WellFormed(e) && |d| == |e| && Render(d) == Render(e)
    ensures forall i :: 0 <= i < |d| ==> TextOf(d[i]) == TextOf(e[i])
  {
    if d != [] {
      FirstLineOf(TextOf(d[0]), TextOf(e[0]), Following(d), Following(e));
      if |d| > 1 {
        assert Following(d)[1..] == Render(d[1..]) && Following(e)[1..] == Render(e[1..]);
      }
      RenderInjective(d[1..], e[1..]);
      forall i | 0 <= i < |d|
        ensures TextOf(d[i]) == TextOf(e[i])
      {
        if i > 0 {
          assert d[i] == d[1..][i - 1] && e[i] == e[1..][i - 1];
        }
      }
    }
  }

  lemma SameTextSameValue(l: Line, v: string, w: string)
    requires TextOf(SetTo(l, v)) == TextOf(SetTo(l, w))
    ensures v == w
  {
    var s, n := TextOf(SetTo(l, v)), |l.before|;
    assert |v| == |w|;
    assert s[n..n + |v|] == v && s[n..n + |w|] == w;
  }
}
