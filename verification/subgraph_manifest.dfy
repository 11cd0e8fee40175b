/**
 * The loop of packages/subgraph/scripts/update-addresses.js that rewrites addresses and start blocks in
 * subgraph.yaml with regular expressions, against the update of the data sources one by one.
 */
module SubgraphManifest {
  import opened Text
  import opened LinePatterns
  import opened ManifestLines

  // ----- the loop -----

  datatype Target = Target(address: string, startBlock: string)

  /** A data source and what the deployment manifest has for it; None without an address. */
  datatype Entry = Entry(source: string, target: Option<Target>)

  function UpdateSource(yaml: string, source: string, t: Target): string
  {
    if Scan(NamedPattern(source, AddressKind, t.address), yaml).None? then yaml
    else Replace(NamedPattern(source, StartKind, t.startBlock),
                 Replace(NamedPattern(source, AddressKind, t.address), yaml))
  }

  function UpdateAll(yaml: string, entries: seq<Entry>): string
  {
    if entries == [] then yaml else
      var pre, e := UpdateAll(yaml, entries[..|entries| - 1]), entries[|entries| - 1];
      if e.target.None? then pre else UpdateSource(pre, e.source, e.target.value)
  }

  /** How many entries were applied rather than skipped. */
  function AppliedCount(yaml: string, entries: seq<Entry>): nat
  {
    if entries == [] then 0 else
      var pre, e := entries[..|entries| - 1], entries[|entries| - 1];
      var found := e.target.Some? &&
                   Scan(NamedPattern(e.source, AddressKind, e.target.value.address), UpdateAll(yaml, pre)).Some?;
      AppliedCount(yaml, pre) + if found then 1 else 0
  }

  /** A contract of the deployment manifest: its address, empty where there is none, and deploy block, if a number. */
  datatype Contract = Contract(address: string, deployBlock: Option<nat>)

  function NumberText(n: nat): string
  {
    if n < 10 then ["0123456789"[n]] else NumberText(n / 10) + ["0123456789"[n % 10]]
  }

  function EntryFor(source: string, manifestName: string, contracts: map<string, Contract>): Entry
  {
    if manifestName !in contracts || contracts[manifestName].address == "" then Entry(source, None) else
      var c := contracts[manifestName];
      Entry(source, Some(Target(c.address, NumberText(if c.deployBlock.Some? then c.deployBlock.value else 0))))
  }

  function EntriesFor(sourceMap: seq<(string, string)>, contracts: map<string, Contract>): seq<Entry>
  {
    seq(|sourceMap|, i requires 0 <= i < |sourceMap| => EntryFor(sourceMap[i].0, sourceMap[i].1, contracts))
  }

  method RewriteManifest(yaml: string, sourceMap: seq<(string, string)>, contracts: map<string, Contract>)
    returns (subgraphYaml: string, updated: nat, skipped: nat)
    ensures subgraphYaml == UpdateAll(yaml, EntriesFor(sourceMap, contracts))
    ensures updated == AppliedCount(yaml, EntriesFor(sourceMap, contracts)) && updated + skipped == |sourceMap|
  {
    subgraphYaml, updated, skipped := yaml, 0, 0;
    ghost var entries := EntriesFor(sourceMap, contracts);
    var i := 0;
    while i < |sourceMap|
      invariant 0 <= i <= |sourceMap|
      invariant subgraphYaml == UpdateAll(yaml, entries[..i])
      invariant updated == AppliedCount(yaml, entries[..i]) && updated + skipped == i
    {
      var sourceName, manifestName := sourceMap[i].0, sourceMap[i].1;
      assert entries[..i + 1][..i] == entries[..i];
      i := i + 1;
      if manifestName !in contracts || contracts[manifestName].address == "" {
        skipped := skipped + 1;
        continue;
      }
      var c := contracts[manifestName];
      var startBlock := if c.deployBlock.Some? then c.deployBlock.value else 0;
      var addrPattern := NamedPattern(sourceName, AddressKind, c.address);
      var startPattern := NamedPattern(sourceName, StartKind, NumberText(startBlock));
      if Scan(addrPattern, subgraphYaml).None? {
        skipped := skipped + 1;
        continue;
      }
      subgraphYaml := Replace(addrPattern, subgraphYaml);
      subgraphYaml := Replace(startPattern, subgraphYaml);
      updated := updated + 1;
    }
    assert entries[..i] == entries;
  }

  // ----- what the loop leaves -----

  function ValueFor(t: Target, k: Kind): string
  {
    if k.AddressKind? then t.address else t.startBlock
  }

  predicate Holds(l: Line)
  {
    Editable(l.kind)
  }

  ghost predicate GoodTarget(t: Target)
  {
    GoodValue(AddressKind, t.address) && GoodValue(StartKind, t.startBlock)
  }

  ghost predicate GoodEntries(entries: seq<Entry>)
  {
    forall i :: 0 <= i < |entries| && entries[i].target.Some? ==>
      OneLine(entries[i].source) && GoodTarget(entries[i].target.value)
  }

  /** The entry has a target and an address line stands below its name. */
  predicate Reaches(d: Document, e: Entry)
  {
    e.target.Some? && Land(d, e.source, AddressKind) < |d|
  }

  /** One of the entry's two patterns lands on line `j`. */
  predicate LandsOn(d: Document, e: Entry, j: nat)
    requires j < |d|
  {
    Reaches(d, e) && Holds(d[j]) && Land(d, e.source, d[j].kind) == j
  }

  /** What an entry writes on line `j`. */
  function Written(d: Document, e: Entry, j: nat): string
    requires j < |d| && e.target.Some?
  {
    ValueFor(e.target.value, d[j].kind)
  }

  /** The last entry that lands on line `j`. */
  function LastOn(d: Document, entries: seq<Entry>, j: nat): (r: Option<Entry>)
    requires j < |d|
    ensures r.Some? ==> r.value in entries && LandsOn(d, r.value, j)
    ensures r.None? ==> forall e :: e in entries ==> !LandsOn(d, e, j)
  {
    if entries == [] then None
    else if LandsOn(d, entries[|entries| - 1], j) then Some(entries[|entries| - 1])
    else
      assert forall e :: e in entries ==> e == entries[|entries| - 1] || e in entries[..|entries| - 1];
      LastOn(d, entries[..|entries| - 1], j)
  }

  /** Every line as the last entry landing on it leaves it; a line nothing lands on stays. */
  function AfterLoop(d: Document, entries: seq<Entry>): Document
  {
    seq(|d|, j requires 0 <= j < |d| =>
      var e := LastOn(d, entries, j);
      if e.Some? then SetTo(d[j], Written(d, e.value, j)) else d[j])
  }

  function AfterSource(d: Document, x: string, t: Target): Document
  {
    if Land(d, x, AddressKind) == |d| then d else
      SetAt(SetAt(d, Land(d, x, AddressKind), t.address), Land(d, x, StartKind), t.startBlock)
  }

  lemma AfterLoopIsGood(d: Document, entries: seq<Entry>)
    requires WellFormed(d) && GoodEntries(entries)
    ensures WellFormed(AfterLoop(d, entries)) && SameShape(d, AfterLoop(d, entries))
  {
    forall j | 0 <= j < |d|
      ensures GoodLine(AfterLoop(d, entries)[j])
    {
      var e := LastOn(d, entries, j);
      if e.Some? {
        SetToIsGood(d[j], Written(d, e.value, j));
      }
    }
  }

  lemma SetAtIsGood(d: Document, k: Kind, j: nat, v: string)
    requires WellFormed(d) && Editable(k) && GoodValue(k, v) && (j < |d| ==> d[j].kind == k)
    ensures WellFormed(SetAt(d, j, v)) && SameShape(d, SetAt(d, j, v))
  {
    if j < |d| {
      SetToIsGood(d[j], v);
    }
  }

  /** One turn of the loop, on every well-formed document. */
  lemma UpdateSourceEdits(d: Document, x: string, t: Target)
    requires WellFormed(d) && OneLine(x) && GoodTarget(t)
    ensures UpdateSource(Render(d), x, t) == Render(AfterSource(d, x, t))
  {
    var j := Land(d, x, AddressKind);
    PatternEdits(d, x, AddressKind, t.address);
    if j < |d| {
      var next := SetAt(d, j, t.address);
      SetAtIsGood(d, AddressKind, j, t.address);
      SameLandings(d, next, x, StartKind);
      PatternEdits(next, x, StartKind, t.startBlock);
    }
  }

  lemma LoopLine(d: Document, entries: seq<Entry>, j: nat)
    requires entries != [] && j < |d|
    ensures var pre, e := AfterLoop(d, entries[..|entries| - 1]), entries[|entries| - 1];
            AfterLoop(d, entries)[j] == if LandsOn(d, e, j) then SetTo(pre[j], Written(d, e, j)) else pre[j]
  {
  }

  lemma SourceLine(d: Document, x: string, t: Target, j: nat)
    requires j < |d|
    ensures AfterSource(d, x, t)[j] ==
            if Reaches(d, Entry(x, Some(t))) && Holds(d[j]) && Land(d, x, d[j].kind) == j
            then SetTo(d[j], ValueFor(t, d[j].kind)) else d[j]
  {
  }

  lemma AfterLoopStep(d: Document, entries: seq<Entry>)
    requires entries != []
    requires SameShape(d, AfterLoop(d, entries[..|entries| - 1]))
    ensures var pre, e := AfterLoop(d, entries[..|entries| - 1]), entries[|entries| - 1];
            AfterLoop(d, entries) == if e.target.None? then pre else AfterSource(pre, e.source, e.target.value)
  {
    var pre, e := AfterLoop(d, entries[..|entries| - 1]), entries[|entries| - 1];
    var next := if e.target.None? then pre else AfterSource(pre, e.source, e.target.value);
    forall j | 0 <= j < |d|
      ensures AfterLoop(d, entries)[j] == next[j]
    {
      LoopLine(d, entries, j);
      if e.target.Some? {
        SourceLine(pre, e.source, e.target.value, j);
        SameLandings(d, pre, e.source, AddressKind);
        SameLandings(d, pre, e.source, StartKind);
        assert pre[j].kind == d[j].kind;
      }
    }
    assert AfterLoop(d, entries) == next;
  }

  /** For every well-formed document and source map: the loop leaves each line to the last entry landing on it. */
  lemma {:induction false} LoopLeavesLast(d: Document, entries: seq<Entry>)
    requires WellFormed(d) && GoodEntries(entries)
    ensures UpdateAll(Render(d), entries) == Render(AfterLoop(d, entries))
  {
    if entries == [] {
      assert AfterLoop(d, entries) == d;
    } else {
      var pre, e := entries[..|entries| - 1], entries[|entries| - 1];
      LoopLeavesLast(d, pre);
      AfterLoopIsGood(d, pre);
      AfterLoopStep(d, entries);
      if e.target.Some? {
        UpdateSourceEdits(AfterLoop(d, pre), e.source, e.target.value);
      }
    }
  }

  /** The loop keeps the number of lines, every line that is not an address or startBlock line, and on those
      everything but the address or number. */
  lemma LoopKeepsOtherLines(d: Document, entries: seq<Entry>)
    requires WellFormed(d) && GoodEntries(entries)
    ensures exists after :: SameShape(d, after) && WellFormed(after) && UpdateAll(Render(d), entries) == Render(after)
  {
    LoopLeavesLast(d, entries);
    AfterLoopIsGood(d, entries);
  }

  lemma {:induction false} SameLastOn(d: Document, e: Document, entries: seq<Entry>, j: nat)
    requires SameShape(d, e) && j < |d|
    ensures LastOn(e, entries, j) == LastOn(d, entries, j)
  {
    if entries != [] {
      var last := entries[|entries| - 1];
      SameLandings(d, e, last.source, AddressKind);
      SameLandings(d, e, last.source, StartKind);
      SameLastOn(d, e, entries[..|entries| - 1], j);
    }
  }

  /** A second run changes nothing, whatever the first one wrote where. */
  lemma LoopTwice(d: Document, entries: seq<Entry>)
    requires WellFormed(d) && GoodEntries(entries)
    ensures UpdateAll(UpdateAll(Render(d), entries), entries) == UpdateAll(Render(d), entries)
  {
    var after := AfterLoop(d, entries);
    LoopLeavesLast(d, entries);
    AfterLoopIsGood(d, entries);
    LoopLeavesLast(after, entries);
    forall j | 0 <= j < |d|
      ensures AfterLoop(after, entries)[j] == after[j]
    {
      SameLastOn(d, after, entries, j);
    }
    assert AfterLoop(after, entries) == after;
  }

  ghost function ReachingCount(d: Document, entries: seq<Entry>): nat
  {
    if entries == [] then 0 else
      ReachingCount(d, entries[..|entries| - 1]) + if Reaches(d, entries[|entries| - 1]) then 1 else 0
  }

  /** The loop applies exactly the entries that have a target and an address line somewhere below their name. */
  lemma {:induction false} AppliedIsReaching(d: Document, entries: seq<Entry>)
    requires WellFormed(d) && GoodEntries(entries)
    ensures AppliedCount(Render(d), entries) == ReachingCount(d, entries)
  {
    if entries != [] {
      var pre, e := entries[..|entries| - 1], entries[|entries| - 1];
      AppliedIsReaching(d, pre);
      LoopLeavesLast(d, pre);
      AfterLoopIsGood(d, pre);
      if e.target.Some? {
        PatternEdits(AfterLoop(d, pre), e.source, AddressKind, e.target.value.address);
        SameLandings(d, AfterLoop(d, pre), e.source, AddressKind);
      }
    }
  }

  /** The same for every text whose lines end in line feeds and stand alone. */
  lemma LoopOnEveryText(s: string, entries: seq<Entry>)
    requires Covered(s) && GoodEntries(entries)
    ensures exists d :: WellFormed(d) && Render(d) == s && UpdateAll(s, entries) == Render(AfterLoop(d, entries))
                        && AppliedCount(s, entries) == ReachingCount(d, entries)
    ensures UpdateAll(UpdateAll(s, entries), entries) == UpdateAll(s, entries)
  {
    var d := EveryTextIsADocument(s);
    LoopLeavesLast(d, entries);
    LoopTwice(d, entries);
    AppliedIsReaching(d, entries);
  }

  // ----- the update of the data sources one by one -----

  type Plan = map<string, Target>

  /** What the entries ask for, the last one deciding for a repeated name. */
  function PlanOf(entries: seq<Entry>): Plan
  {
    if entries == [] then map[] else
      var pre, e := PlanOf(entries[..|entries| - 1]), entries[|entries| - 1];
      if e.target.None? then pre else pre[e.source := e.target.value]
  }

  predicate IsName(l: Line)
  {
    l.kind.NameKind?
  }

  ghost predicate Lists(d: Document, x: string)
  {
    exists i :: 0 <= i < |d| && Names(d[i], x)
  }

  /** The name above line `m`, unless a line of the kind comes first. */
  function NameAbove(d: Document, m: nat, k: Kind): Option<string>
    requires m <= |d|
  {
    if m == 0 then None
    else if IsName(d[m - 1]) then Some(d[m - 1].value)
    else if d[m - 1].kind == k then None
    else NameAbove(d, m - 1, k)
  }

  /** The data source whose own address or startBlock line, the first of its kind under the name, is line `j`. */
  function Holder(d: Document, j: nat): Option<string>
    requires j < |d|
  {
    if Holds(d[j]) then NameAbove(d, j, d[j].kind) else None
  }

  /** What line `j` should hold: the target of its data source, or what it holds already. */
  function Due(d: Document, plan: Plan, j: nat): string
    requires j < |d|
  {
    var x := Holder(d, j);
    if x.Some? && x.value in plan then ValueFor(plan[x.value], d[j].kind) else d[j].value
  }

  /** Each data source of the plan gets its address and block on its own lines; every other line stays. */
  function PerBlock(d: Document, plan: Plan): Document
  {
    seq(|d|, j requires 0 <= j < |d| => SetTo(d[j], Due(d, plan, j)))
  }

  ghost predicate DistinctNames(d: Document)
  {
    forall i, j :: 0 <= i < j < |d| && IsName(d[i]) && IsName(d[j]) ==> d[i].value != d[j].value
  }

  /** Lines strictly between two lines do not have the kind. */
  ghost predicate NoneBetween(d: Document, i: nat, j: nat, k: Kind)
  {
    i < j <= |d| && forall m :: i < m < j ==> d[m].kind != k
  }

  ghost predicate NoNameBetween(d: Document, i: nat, j: nat)
  {
    i < j <= |d| && forall m :: i < m < j ==> !IsName(d[m])
  }

  lemma {:induction false} LandIs(d: Document, i: nat, j: nat, k: Kind)
    requires DistinctNames(d) && NoneBetween(d, i, j, k) && j < |d| && IsName(d[i]) && d[j].kind == k
    ensures Land(d, d[i].value, k) == j
  {
    var tail := d[1..];
    if i > 0 {
      assert !Names(d[0], d[i].value);
      assert tail[i - 1] == d[i] && tail[j - 1] == d[j];
      assert NoneBetween(tail, i - 1, j - 1, k);
      LandIs(tail, i - 1, j - 1, k);
    } else {
      var n := First(tail, k);
      assert tail[j - 1] == d[j] && d[n + 1].kind == k;
    }
  }

  lemma {:induction false} LandFrom(d: Document, x: string, k: Kind) returns (i: nat)
    requires Land(d, x, k) < |d|
    ensures NoneBetween(d, i, Land(d, x, k), k) && Names(d[i], x)
  {
    var tail := d[1..];
    if Names(d[0], x) {
      i := 0;
      assert forall m :: 0 < m < Land(d, x, k) ==> d[m] == tail[m - 1];
    } else {
      var n := LandFrom(tail, x, k);
      i := n + 1;
      assert forall m :: i < m < Land(d, x, k) ==> d[m] == tail[m - 1];
    }
  }

  lemma {:induction false} NameAboveFrom(d: Document, m: nat, k: Kind) returns (i: nat)
    requires m <= |d| && NameAbove(d, m, k).Some?
    ensures NoneBetween(d, i, m, k) && NoNameBetween(d, i, m) && Names(d[i], NameAbove(d, m, k).value)
  {
    if IsName(d[m - 1]) {
      i := m - 1;
    } else {
      i := NameAboveFrom(d, m - 1, k);
    }
  }

  lemma {:induction false} NameAboveExists(d: Document, i: nat, m: nat, k: Kind)
    requires NoneBetween(d, i, m, k) && IsName(d[i])
    ensures NameAbove(d, m, k).Some?
    ensures DistinctNames(d) ==> (NameAbove(d, m, k) == Some(d[i].value) <==> NoNameBetween(d, i, m))
  {
    if i < m - 1 && !IsName(d[m - 1]) {
      NameAboveExists(d, i, m - 1, k);
    }
  }

  /** A line is its data source's own exactly when that source's pattern lands there. */
  lemma HolderLands(d: Document, j: nat)
    requires DistinctNames(d) && j < |d| && Holder(d, j).Some?
    ensures Land(d, Holder(d, j).value, d[j].kind) == j
  {
    var i := NameAboveFrom(d, j, d[j].kind);
    LandIs(d, i, j, d[j].kind);
  }

  /** Wherever a pattern lands, the line is the own line of some data source. */
  lemma LandingIsHeld(d: Document, x: string, k: Kind)
    requires Editable(k) && Land(d, x, k) < |d|
    ensures Holder(d, Land(d, x, k)).Some?
  {
    var i := LandFrom(d, x, k);
    NameAboveExists(d, i, Land(d, x, k), k);
  }

  // ----- the loop against the update one by one -----

  /** The last entry to land on line `j` is another source's and writes something else than is due there. */
  ghost predicate Clobbered(d: Document, entries: seq<Entry>, j: nat)
    requires j < |d|
  {
    var e := LastOn(d, entries, j);
    e.Some? && Holder(d, j) != Some(e.value.source) && Written(d, e.value, j) != Due(d, PlanOf(entries), j)
  }

  /** Line `j`, on which nothing lands, is the startBlock line of a listed source that the loop skips because no
      address line follows its name, and it does not hold the target's block yet. */
  ghost predicate Skipped(d: Document, entries: seq<Entry>, j: nat)
    requires j < |d|
  {
    && LastOn(d, entries, j).None? && d[j].kind.StartKind? && Holder(d, j).Some?
    && Land(d, Holder(d, j).value, AddressKind) == |d| && d[j].value != Due(d, PlanOf(entries), j)
  }

  lemma {:induction false} LastOwnIsPlanned(d: Document, entries: seq<Entry>, j: nat)
    requires j < |d| && LastOn(d, entries, j).Some?
    ensures var e := LastOn(d, entries, j).value;
            e.source in PlanOf(entries) && PlanOf(entries)[e.source] == e.target.value
  {
    var last := entries[|entries| - 1];
    if !LandsOn(d, last, j) {
      LastOwnIsPlanned(d, entries[..|entries| - 1], j);
    }
  }

  lemma {:induction false} PlannedEntry(entries: seq<Entry>, x: string)
    requires x in PlanOf(entries)
    ensures Entry(x, Some(PlanOf(entries)[x])) in entries
  {
    var pre, e := entries[..|entries| - 1], entries[|entries| - 1];
    if e.target.None? || e.source != x {
      PlannedEntry(pre, x);
    }
  }

  /** A line ends up as due exactly when it is neither clobbered nor skipped. */
  lemma LineRightIff(d: Document, entries: seq<Entry>, j: nat)
    requires DistinctNames(d) && j < |d| && Holds(d[j])
    ensures AfterLoop(d, entries)[j] == PerBlock(d, PlanOf(entries))[j] <==>
            !Clobbered(d, entries, j) && !Skipped(d, entries, j)
  {
    var plan, e := PlanOf(entries), LastOn(d, entries, j);
    if e.Some? {
      LastOwnIsPlanned(d, entries, j);
    } else if Holder(d, j).Some? && Holder(d, j).value in plan {
      var x := Holder(d, j).value;
      HolderLands(d, j);
      PlannedEntry(entries, x);
      assert !LandsOn(d, Entry(x, Some(plan[x])), j);
      assert SetTo(d[j], d[j].value) == d[j];
    }
  }

  lemma OnlyHeldLinesMove(d: Document, entries: seq<Entry>, plan: Plan, j: nat)
    requires j < |d| && !Holds(d[j])
    ensures AfterLoop(d, entries)[j] == PerBlock(d, plan)[j] == d[j]
  {
  }

  ghost predicate GoodPlan(plan: Plan)
  {
    forall x :: x in plan ==> GoodTarget(plan[x])
  }

  lemma PlanIsGood(entries: seq<Entry>)
    requires GoodEntries(entries)
    ensures GoodPlan(PlanOf(entries))
  {
    forall x | x in PlanOf(entries)
      ensures GoodTarget(PlanOf(entries)[x])
    {
      PlannedEntry(entries, x);
    }
  }

  lemma PerBlockIsGood(d: Document, plan: Plan)
    requires WellFormed(d) && GoodPlan(plan)
    ensures WellFormed(PerBlock(d, plan)) && SameShape(d, PerBlock(d, plan))
  {
    forall j | 0 <= j < |d|
      ensures GoodLine(PerBlock(d, plan)[j])
    {
      if Holds(d[j]) {
        PartsAreOneLine(d[j]);
        assert GoodValue(d[j].kind, Due(d, plan, j));
        SetToIsGood(d[j], Due(d, plan, j));
      }
    }
  }

  /** Documents of one shape render alike only if they are equal. */
  lemma SameRendering(d: Document, a: Document, b: Document)
    requires SameShape(d, a) && SameShape(d, b) && WellFormed(a) && WellFormed(b) && Render(a) == Render(b)
    ensures a == b
  {
    RenderInjective(a, b);
    forall j | 0 <= j < |d|
      ensures a[j] == b[j]
    {
      assert TextOf(a[j]) == TextOf(b[j]);
      if Holds(d[j]) {
        SameTextSameValue(d[j], a[j].value, b[j].value);
      }
    }
  }

  /** For every well-formed document with distinct names: the loop is the update one by one if and only if no line is
      clobbered and none is skipped. */
  lemma LoopIsPerBlockIff(d: Document, entries: seq<Entry>)
    requires WellFormed(d) && DistinctNames(d) && GoodEntries(entries)
    ensures UpdateAll(Render(d), entries) == Render(PerBlock(d, PlanOf(entries))) <==>
            forall j :: 0 <= j < |d| ==> !Clobbered(d, entries, j) && !Skipped(d, entries, j)
  {
    var after, wanted := AfterLoop(d, entries), PerBlock(d, PlanOf(entries));
    LoopLeavesLast(d, entries);
    AfterLoopIsGood(d, entries);
    PlanIsGood(entries);
    PerBlockIsGood(d, PlanOf(entries));
    forall j | 0 <= j < |d|
      ensures after[j] == wanted[j] <==> !Clobbered(d, entries, j) && !Skipped(d, entries, j)
    {
      if Holds(d[j]) {
        LineRightIff(d, entries, j);
      } else {
        OnlyHeldLinesMove(d, entries, PlanOf(entries), j);
        NothingLandsOnOthers(d, entries, j);
      }
    }
    if Render(after) == Render(wanted) {
      SameRendering(d, after, wanted);
    }
    if forall j :: 0 <= j < |d| ==> !Clobbered(d, entries, j) && !Skipped(d, entries, j) {
      assert after == wanted;
    }
  }

  lemma NothingLandsOnOthers(d: Document, entries: seq<Entry>, j: nat)
    requires j < |d| && !Holds(d[j])
    ensures LastOn(d, entries, j).None?
  {
  }

  // ----- the order of the map -----

  /** No two entries land on one line with different values. */
  ghost predicate Uncontested(d: Document, entries: seq<Entry>)
  {
    forall j, a, b :: 0 <= j < |d| && a in entries && b in entries && LandsOn(d, a, j) && LandsOn(d, b, j) ==>
      Written(d, a, j) == Written(d, b, j)
  }

  lemma SameEntries(entries: seq<Entry>, other: seq<Entry>)
    requires multiset(other) == multiset(entries)
    ensures forall e :: e in entries <==> e in other
    ensures GoodEntries(entries) ==> GoodEntries(other)
  {
    forall e
      ensures e in entries <==> e in other
    {
      assert e in entries <==> e in multiset(entries);
      assert e in other <==> e in multiset(other);
    }
    if GoodEntries(entries) {
      forall i | 0 <= i < |other| && other[i].target.Some?
        ensures OneLine(other[i].source) && GoodTarget(other[i].target.value)
      {
        assert other[i] in entries;
      }
    }
  }

  /** The entries with one of them moved to the end. */
  lemma MovedLast(entries: seq<Entry>, e: Entry) returns (other: seq<Entry>)
    requires e in entries
    ensures multiset(other) == multiset(entries) && other != [] && other[|other| - 1] == e
  {
    var i :| 0 <= i < |entries| && entries[i] == e;
    other := entries[..i] + entries[i + 1..] + [e];
    assert entries == entries[..i] + [e] + entries[i + 1..];
  }

  lemma LastLands(d: Document, entries: seq<Entry>, e: Entry, j: nat)
    requires j < |d| && entries != [] && entries[|entries| - 1] == e && LandsOn(d, e, j)
    ensures LastOn(d, entries, j) == Some(e)
  {
  }

  lemma UncontestedAnyOrder(d: Document, entries: seq<Entry>, other: seq<Entry>)
    requires Uncontested(d, entries) && multiset(other) == multiset(entries)
    ensures AfterLoop(d, other) == AfterLoop(d, entries)
  {
    SameEntries(entries, other);
    forall j | 0 <= j < |d|
      ensures AfterLoop(d, other)[j] == AfterLoop(d, entries)[j]
    {
      var a, b := LastOn(d, other, j), LastOn(d, entries, j);
      if a.Some? && b.Some? {
        assert Written(d, a.value, j) == Written(d, b.value, j);
      }
    }
  }

  ghost predicate AnyOrderSame(s: string, entries: seq<Entry>)
  {
    forall other :: multiset(other) == multiset(entries) ==> UpdateAll(s, other) == UpdateAll(s, entries)
  }

  lemma ContestShows(d: Document, entries: seq<Entry>, a: Entry, j: nat)
    requires WellFormed(d) && GoodEntries(entries) && AnyOrderSame(Render(d), entries)
    requires j < |d| && a in entries && LandsOn(d, a, j)
    ensures AfterLoop(d, entries)[j] == SetTo(d[j], Written(d, a, j))
  {
    var other := MovedLast(entries, a);
    SameEntries(entries, other);
    LastLands(d, other, a, j);
    LoopLeavesLast(d, entries);
    LoopLeavesLast(d, other);
    AfterLoopIsGood(d, entries);
    AfterLoopIsGood(d, other);
    assert UpdateAll(Render(d), other) == UpdateAll(Render(d), entries);
    SameRendering(d, AfterLoop(d, entries), AfterLoop(d, other));
  }

  /** For every well-formed document: the result is the same for every order of the map if and only if no line is
      contested. */
  lemma OrderDoesNotMatterIff(d: Document, entries: seq<Entry>)
    requires WellFormed(d) && GoodEntries(entries)
    ensures AnyOrderSame(Render(d), entries) <==> Uncontested(d, entries)
  {
    if Uncontested(d, entries) {
      forall other | multiset(other) == multiset(entries)
        ensures UpdateAll(Render(d), other) == UpdateAll(Render(d), entries)
      {
        SameEntries(entries, other);
        UncontestedAnyOrder(d, entries, other);
        LoopLeavesLast(d, entries);
        LoopLeavesLast(d, other);
      }
    }
    if AnyOrderSame(Render(d), entries) {
      forall j, a, b | 0 <= j < |d| && a in entries && b in entries && LandsOn(d, a, j) && LandsOn(d, b, j)
        ensures Written(d, a, j) == Written(d, b, j)
      {
        ContestShows(d, entries, a, j);
        ContestShows(d, entries, b, j);
      }
    }
  }

  ghost predicate DistinctSources(entries: seq<Entry>)
  {
    forall i, j :: 0 <= i < j < |entries| ==> entries[i].source != entries[j].source
  }

  lemma DistinctSourcesAgree(entries: seq<Entry>, a: Entry, b: Entry)
    requires DistinctSources(entries) && a in entries && b in entries && a.source == b.source
    ensures a == b
  {
    var i :| 0 <= i < |entries| && entries[i] == a;
    var j :| 0 <= j < |entries| && entries[j] == b;
    assert i == j;
  }

  lemma {:induction false} ListedIsPlanned(entries: seq<Entry>, e: Entry)
    requires e in entries && e.target.Some?
    ensures e.source in PlanOf(entries)
  {
    var pre, last := entries[..|entries| - 1], entries[|entries| - 1];
    if e != last {
      assert e in pre;
      ListedIsPlanned(pre, e);
    }
  }

  /** A map has one plan, whatever its order. */
  lemma SamePlan(entries: seq<Entry>, other: seq<Entry>)
    requires DistinctSources(entries) && forall e :: e in entries <==> e in other
    ensures PlanOf(entries) == PlanOf(other)
  {
    var p, q := PlanOf(entries), PlanOf(other);
    forall x
      ensures x in p <==> x in q
      ensures x in p && x in q ==> p[x] == q[x]
    {
      if x in p {
        PlannedEntry(entries, x);
        ListedIsPlanned(other, Entry(x, Some(p[x])));
      }
      if x in q {
        PlannedEntry(other, x);
        ListedIsPlanned(entries, Entry(x, Some(q[x])));
        if x in p {
          DistinctSourcesAgree(entries, Entry(x, Some(p[x])), Entry(x, Some(q[x])));
        }
      }
    }
  }

  /** Some entry, last or not, lands on line `j` of another source with something else than is due there. */
  ghost predicate Threatened(d: Document, entries: seq<Entry>, j: nat)
    requires j < |d|
  {
    exists e :: e in entries && LandsOn(d, e, j)
      && Holder(d, j) != Some(e.source) && Written(d, e, j) != Due(d, PlanOf(entries), j)
  }

  ghost predicate AnyOrderIsPerBlock(d: Document, entries: seq<Entry>)
  {
    forall other :: multiset(other) == multiset(entries) ==>
      UpdateAll(Render(d), other) == Render(PerBlock(d, PlanOf(entries)))
  }

  lemma SkippedAnyOrder(d: Document, entries: seq<Entry>, other: seq<Entry>, j: nat)
    requires j < |d| && PlanOf(other) == PlanOf(entries) && forall e :: e in entries <==> e in other
    ensures Skipped(d, other, j) <==> Skipped(d, entries, j)
  {
  }

  /** The loop is the update one by one for every order of the map if and only if no line is threatened and none is
      skipped. */
  lemma PerBlockInAnyOrderIff(d: Document, entries: seq<Entry>)
    requires WellFormed(d) && DistinctNames(d) && GoodEntries(entries) && DistinctSources(entries)
    ensures AnyOrderIsPerBlock(d, entries) <==>
            forall j :: 0 <= j < |d| ==> !Threatened(d, entries, j) && !Skipped(d, entries, j)
  {
    if forall j :: 0 <= j < |d| ==> !Threatened(d, entries, j) && !Skipped(d, entries, j) {
      forall other | multiset(other) == multiset(entries)
        ensures UpdateAll(Render(d), other) == Render(PerBlock(d, PlanOf(entries)))
      {
        UnthreatenedOrder(d, entries, other);
      }
    }
    if AnyOrderIsPerBlock(d, entries) {
      assert multiset(entries) == multiset(entries);
      LoopIsPerBlockIff(d, entries);
      forall j, e | 0 <= j < |d| && e in entries && LandsOn(d, e, j) && Holder(d, j) != Some(e.source)
        ensures Written(d, e, j) == Due(d, PlanOf(entries), j)
      {
        var other := MovedLast(entries, e);
        SameEntries(entries, other);
        SamePlan(entries, other);
        LoopIsPerBlockIff(d, other);
        LastLands(d, other, e, j);
        assert !Clobbered(d, other, j);
      }
    }
  }

  lemma UnthreatenedOrder(d: Document, entries: seq<Entry>, other: seq<Entry>)
    requires WellFormed(d) && DistinctNames(d) && GoodEntries(entries) && DistinctSources(entries)
    requires multiset(other) == multiset(entries)
    requires forall j :: 0 <= j < |d| ==> !Threatened(d, entries, j) && !Skipped(d, entries, j)
    ensures UpdateAll(Render(d), other) == Render(PerBlock(d, PlanOf(entries)))
  {
    SameEntries(entries, other);
    SamePlan(entries, other);
    forall j | 0 <= j < |d|
      ensures !Clobbered(d, other, j) && !Skipped(d, other, j)
    {
      SkippedAnyOrder(d, entries, other, j);
      assert !Threatened(d, entries, j);
    }
    LoopIsPerBlockIff(d, other);
  }

  // ----- sources with lines of their own -----

  /** Under the name on line `i`, before the next name, stands a line of the kind. */
  ghost predicate OwnLine(d: Document, i: nat, k: Kind)
  {
    exists j :: i < j < |d| && d[j].kind == k && NoNameBetween(d, i, j)
  }

  /** A pattern lands on its own source's line if and only if the source has one. */
  lemma OwnLineIff(d: Document, i: nat, k: Kind)
    requires DistinctNames(d) && Editable(k) && i < |d| && IsName(d[i])
    ensures var j := Land(d, d[i].value, k);
            OwnLine(d, i, k) <==> j < |d| && Holder(d, j) == Some(d[i].value)
  {
    var x := d[i].value;
    var j := Land(d, x, k);
    if OwnLine(d, i, k) {
      var n :| i < n < |d| && d[n].kind == k && NoNameBetween(d, i, n);
      var m := FirstBetween(d, i, n, k);
      LandIs(d, i, m, k);
      NameAboveExists(d, i, m, k);
    }
    if j < |d| && Holder(d, j) == Some(x) {
      var m := NameAboveFrom(d, j, k);
      assert m == i;
    }
  }

  lemma {:induction false} FirstBetween(d: Document, i: nat, n: nat, k: Kind) returns (m: nat)
    requires i < n < |d| && d[n].kind == k
    ensures i < m <= n && d[m].kind == k && NoneBetween(d, i, m, k)
    decreases n
  {
    if NoneBetween(d, i, n, k) {
      m := n;
    } else {
      var p :| i < p < n && d[p].kind == k;
      m := FirstBetween(d, i, p, k);
    }
  }

  /** The listed sources that occur have address and startBlock lines of their own, in either order. */
  ghost predicate HaveOwnLines(d: Document, entries: seq<Entry>)
  {
    forall i, e :: 0 <= i < |d| && e in entries && e.target.Some? && Names(d[i], e.source) ==>
      OwnLine(d, i, AddressKind) && OwnLine(d, i, StartKind)
  }

  lemma LandsIfListed(d: Document, x: string, k: Kind)
    ensures Land(d, x, k) < |d| ==> Lists(d, x)
  {
    if Land(d, x, k) < |d| {
      var i := LandFrom(d, x, k);
    }
  }

  lemma OwnLinesLand(d: Document, entries: seq<Entry>, e: Entry, k: Kind)
    requires DistinctNames(d) && HaveOwnLines(d, entries) && e in entries && e.target.Some? && Editable(k)
    ensures var j := Land(d, e.source, k);
            if Lists(d, e.source) then j < |d| && Holder(d, j) == Some(e.source) else j == |d|
  {
    LandsIfListed(d, e.source, k);
    if Lists(d, e.source) {
      var i :| 0 <= i < |d| && Names(d[i], e.source);
      assert OwnLine(d, i, k);
      OwnLineIff(d, i, k);
    }
  }

  /** If the listed sources have lines of their own, the loop is the update one by one for every order of the map. */
  lemma LoopIsPerBlockUpdate(d: Document, entries: seq<Entry>, other: seq<Entry>)
    requires WellFormed(d) && DistinctNames(d) && GoodEntries(entries) && HaveOwnLines(d, entries)
    requires DistinctSources(entries) && multiset(other) == multiset(entries)
    ensures UpdateAll(Render(d), other) == Render(PerBlock(d, PlanOf(entries)))
  {
    forall j | 0 <= j < |d|
      ensures !Threatened(d, entries, j) && !Skipped(d, entries, j)
    {
      forall e | e in entries && LandsOn(d, e, j)
        ensures Holder(d, j) == Some(e.source)
      {
        OwnLinesLand(d, entries, e, d[j].kind);
      }
      var x := Holder(d, j);
      if x.Some? && x.value in PlanOf(entries) {
        PlannedEntry(entries, x.value);
        var i := NameAboveFrom(d, j, d[j].kind);
        OwnLinesLand(d, entries, Entry(x.value, Some(PlanOf(entries)[x.value])), AddressKind);
      }
    }
    UnthreatenedOrder(d, entries, other);
  }

  /** The entries that have a target and name a data source of the document. */
  ghost function ListedCount(d: Document, entries: seq<Entry>): nat
  {
    if entries == [] then 0 else
      var pre, e := entries[..|entries| - 1], entries[|entries| - 1];
      ListedCount(d, pre) + if e.target.Some? && Lists(d, e.source) then 1 else 0
  }

  lemma {:induction false} ReachingIsListed(d: Document, entries: seq<Entry>)
    requires DistinctNames(d) && HaveOwnLines(d, entries)
    ensures ReachingCount(d, entries) == ListedCount(d, entries)
  {
    if entries != [] {
      var pre, e := entries[..|entries| - 1], entries[|entries| - 1];
      ReachingIsListed(d, pre);
      if e.target.Some? {
        OwnLinesLand(d, entries, e, AddressKind);
      }
    }
  }

  /** Then the loop applies exactly the entries that have a target and a data source in the document. */
  lemma AppliedIsListed(d: Document, entries: seq<Entry>)
    requires WellFormed(d) && DistinctNames(d) && GoodEntries(entries) && HaveOwnLines(d, entries)
    ensures AppliedCount(Render(d), entries) == ListedCount(d, entries)
  {
    AppliedIsReaching(d, entries);
    ReachingIsListed(d, entries);
  }

  // ----- sources without -----

  /** A listed source without a line of one kind: its pattern rewrites the own line of the first source below that has
      one, however many sources without one lie between. */
  lemma MissingLineClobbersNext(d: Document, i: nat, k: Kind, t: Target)
    requires WellFormed(d) && DistinctNames(d) && GoodTarget(t) && i < |d| && IsName(d[i]) && Editable(k)
    requires !OwnLine(d, i, k) && Land(d, d[i].value, k) < |d| && Reaches(d, Entry(d[i].value, Some(t)))
    ensures var x, j := d[i].value, Land(d, d[i].value, k);
            && Holder(d, j).Some? && Holder(d, j) != Some(x)
            && UpdateSource(Render(d), x, t) == Render(AfterSource(d, x, t))
            && AfterSource(d, x, t)[j] == SetTo(d[j], ValueFor(t, k))
  {
    OwnLineIff(d, i, k);
    LandingIsHeld(d, d[i].value, k);
    assert GoodLine(d[i]);
    PartsAreOneLine(d[i]);
    UpdateSourceEdits(d, d[i].value, t);
  }

  function AddressLine(address: string): Line
  {
    Line(AddressKind, ADDRESS, address, "\"")
  }

  function StartLine(number: string): Line
  {
    Line(StartKind, START + " ", number, "")
  }

  const BLANK := AddressLine("")
  const NO_BLOCK := StartLine("0")

  lemma NameLineIsGood(x: string)
    requires OneLine(x)
    ensures GoodLine(NameLine(x))
  {
    assert OneLine(NAME);
    PartsAreOneLine(NameLine(x));
  }

  lemma AddressLineIsGood(v: string)
    requires GoodValue(AddressKind, v)
    ensures GoodLine(AddressLine(v))
  {
    assert OneLine(ADDRESS);
    PartsAreOneLine(AddressLine(v));
  }

  lemma OneSpaceBehind()
    ensures OneLine(START + " ") && START <= START + " " && AllSpaces((START + " ")[|START|..])
  {
    assert OneLine(START);
    assert (START + " ")[|START|..] == " ";
  }

  lemma StartLineIsGood(v: string)
    requires GoodValue(StartKind, v)
    ensures GoodLine(StartLine(v))
  {
    DigitsAreOneLine(v);
    OneSpaceBehind();
    PartsAreOneLine(StartLine(v));
  }

  const LOPSIDED := [NameLine("A"), BLANK, NameLine("B"), BLANK, NO_BLOCK]
  const STACKED := [NameLine("A"), NameLine("B"), BLANK, NO_BLOCK]

  lemma ExamplesAreGood()
    ensures WellFormed(LOPSIDED) && WellFormed(STACKED) && OneLine("A") && OneLine("B")
  {
    NameLineIsGood("A");
    NameLineIsGood("B");
    AddressLineIsGood("");
    StartLineIsGood("0");
  }

  lemma ExamplesAreDistinct()
    ensures DistinctNames(LOPSIDED) && DistinctNames(STACKED)
  {
  }

  /** A source with an address and no startBlock line gets its address, and the next source gets its block. */
  lemma AddressWithoutStartBlock(t: Target)
    requires GoodTarget(t)
    ensures UpdateAll(Render(LOPSIDED), [Entry("A", Some(t))]) ==
            Render([NameLine("A"), AddressLine(t.address), NameLine("B"), BLANK, StartLine(t.startBlock)])
  {
    var e := Entry("A", Some(t));
    ExamplesAreGood();
    LopsidedLands();
    LoopLeavesLast(LOPSIDED, [e]);
    forall j | 0 <= j < 5
      ensures LastOn(LOPSIDED, [e], j) == if j == 1 || j == 4 then Some(e) else None
    {
      assert [e][..0] == [];
    }
    assert AfterLoop(LOPSIDED, [e]) ==
           [NameLine("A"), AddressLine(t.address), NameLine("B"), BLANK, StartLine(t.startBlock)];
  }

  lemma LopsidedLands()
    ensures Land(LOPSIDED, "A", AddressKind) == 1 && Land(LOPSIDED, "A", StartKind) == 4
  {
    ExamplesAreDistinct();
    LandIs(LOPSIDED, 0, 1, AddressKind);
    LandIs(LOPSIDED, 0, 4, StartKind);
  }

  lemma StackedLands(x: string, k: Kind)
    requires (x == "A" || x == "B") && Editable(k)
    ensures var j := if k.AddressKind? then 2 else 3; Land(STACKED, x, k) == j && Holder(STACKED, j) == Some("B")
  {
    var i, j := if x == "A" then 0 else 1, if k.AddressKind? then 2 else 3;
    ExamplesAreDistinct();
    LandIs(STACKED, i, j, k);
    NameAboveExists(STACKED, 1, j, k);
  }

  lemma StackedLast(a: Entry, b: Entry, j: nat)
    requires a.source in {"A", "B"} && b.source in {"A", "B"} && a.target.Some? && b.target.Some? && j < 4
    ensures LastOn(STACKED, [a, b], j) == if j < 2 then None else Some(b)
  {
    StackedLands(a.source, AddressKind);
    StackedLands(b.source, AddressKind);
    if j < 2 {
      NothingLandsOnOthers(STACKED, [a, b], j);
    } else {
      StackedLands(b.source, STACKED[j].kind);
      LastLands(STACKED, [a, b], b, j);
    }
  }

  lemma StackedRight(s: Target, t: Target)
    requires GoodTarget(s) && GoodTarget(t)
    ensures var entries := [Entry("A", Some(s)), Entry("B", Some(t))];
            UpdateAll(Render(STACKED), entries) == Render(PerBlock(STACKED, PlanOf(entries)))
  {
    var entries := [Entry("A", Some(s)), Entry("B", Some(t))];
    ExamplesAreGood();
    ExamplesAreDistinct();
    forall j | 0 <= j < |STACKED|
      ensures !Clobbered(STACKED, entries, j) && !Skipped(STACKED, entries, j)
    {
      StackedLast(entries[0], entries[1], j);
      if j >= 2 {
        StackedLands("B", STACKED[j].kind);
      }
    }
    LoopIsPerBlockIff(STACKED, entries);
  }

  /** With a source that has no lines of its own above one that has, the order of the map decides who wins. */
  lemma OrderDecides(s: Target, t: Target)
    requires GoodTarget(s) && GoodTarget(t) && s.address != t.address
    ensures var a, b := Entry("A", Some(s)), Entry("B", Some(t));
            && UpdateAll(Render(STACKED), [a, b]) == Render(PerBlock(STACKED, PlanOf([a, b])))
            && UpdateAll(Render(STACKED), [b, a]) != UpdateAll(Render(STACKED), [a, b])
  {
    var a, b := Entry("A", Some(s)), Entry("B", Some(t));
    var one, two := AfterLoop(STACKED, [a, b]), AfterLoop(STACKED, [b, a]);
    ExamplesAreGood();
    ExamplesAreDistinct();
    StackedRight(s, t);
    StackedLast(a, b, 2);
    StackedLast(b, a, 2);
    assert one[2].value == t.address && two[2].value == s.address;
    LoopLeavesLast(STACKED, [a, b]);
    LoopLeavesLast(STACKED, [b, a]);
    AfterLoopIsGood(STACKED, [a, b]);
    AfterLoopIsGood(STACKED, [b, a]);
    if Render(one) == Render(two) {
      SameRendering(STACKED, one, two);
    }
  }

  const HEADLESS := [NameLine("A"), NO_BLOCK]

  /** A source with a startBlock line and no address line after its name is skipped as a whole. */
  lemma StartBlockWithoutAddress(t: Target)
    requires GoodTarget(t)
    ensures UpdateAll(Render(HEADLESS), [Entry("A", Some(t))]) == Render(HEADLESS)
    ensures AppliedCount(Render(HEADLESS), [Entry("A", Some(t))]) == 0
  {
    var e := Entry("A", Some(t));
    NameLineIsGood("A");
    StartLineIsGood("0");
    assert !Reaches(HEADLESS, e);
    LoopLeavesLast(HEADLESS, [e]);
    assert AfterLoop(HEADLESS, [e]) == HEADLESS;
    AppliedIsReaching(HEADLESS, [e]);
    assert [e][..0] == [];
  }

  // ----- what the script writes -----

  /** The number that decimal text stands for. */
  ghost function ReadNumber(s: string): int
  {
    if s == "" then 0 else 10 * ReadNumber(s[..|s| - 1]) + (s[|s| - 1] as int - '0' as int)
  }

  lemma DigitChar(n: nat)
    requires n < 10
    ensures IsDigit("0123456789"[n]) && "0123456789"[n] as int - '0' as int == n
  {
  }

  /** Start blocks are written in digits that read back as the number. */
  lemma {:induction false} NumberReadsBack(n: nat)
    ensures NumberText(n) != "" && AllDigits(NumberText(n)) && ReadNumber(NumberText(n)) == n
  {
    var s := NumberText(n);
    DigitChar(n % 10);
    if n < 10 {
      assert s[..0] == "";
    } else {
      NumberReadsBack(n / 10);
      assert s[..|s| - 1] == NumberText(n / 10);
    }
  }

  /** Names and addresses are one line, addresses without a quote; no data source is listed twice. */
  ghost predicate GoodManifest(sourceMap: seq<(string, string)>, contracts: map<string, Contract>)
  {
    && (forall i :: 0 <= i < |sourceMap| ==> OneLine(sourceMap[i].0))
    && (forall i, j :: 0 <= i < j < |sourceMap| ==> sourceMap[i].0 != sourceMap[j].0)
    && (forall name :: name in contracts ==> OneLine(contracts[name].address) && '"' !in contracts[name].address)
  }

  /** Every listed source that occurs has address and startBlock lines of its own, in either order. */
  ghost predicate SourcesHaveLines(d: Document, sourceMap: seq<(string, string)>)
  {
    forall i, m :: 0 <= i < |d| && 0 <= m < |sourceMap| && Names(d[i], sourceMap[m].0) ==>
      OwnLine(d, i, AddressKind) && OwnLine(d, i, StartKind)
  }

  lemma EntriesAreGood(d: Document, sourceMap: seq<(string, string)>, contracts: map<string, Contract>)
    requires GoodManifest(sourceMap, contracts) && SourcesHaveLines(d, sourceMap)
    ensures var entries := EntriesFor(sourceMap, contracts);
            GoodEntries(entries) && DistinctSources(entries) && HaveOwnLines(d, entries)
  {
    forall i | 0 <= i < |sourceMap| && EntriesFor(sourceMap, contracts)[i].target.Some?
      ensures GoodTarget(EntriesFor(sourceMap, contracts)[i].target.value)
    {
      var c := contracts[sourceMap[i].1];
      NumberReadsBack(if c.deployBlock.Some? then c.deployBlock.value else 0);
    }
  }

  lemma PlanOfEntry(entries: seq<Entry>, m: nat)
    requires DistinctSources(entries) && m < |entries|
    ensures var e := entries[m];
            if e.target.Some? then e.source in PlanOf(entries) && PlanOf(entries)[e.source] == e.target.value
            else e.source !in PlanOf(entries)
  {
    var e := entries[m];
    assert e in entries;
    if e.target.Some? {
      ListedIsPlanned(entries, e);
    }
    if e.source in PlanOf(entries) {
      PlannedEntry(entries, e.source);
      DistinctSourcesAgree(entries, e, Entry(e.source, Some(PlanOf(entries)[e.source])));
    }
  }

  /** What line `j`, own to source `m` of the map, holds after the script. */
  ghost predicate Holding(after: Line, before: Line, contracts: map<string, Contract>, manifestName: string)
  {
    if manifestName !in contracts || contracts[manifestName].address == "" then after == before
    else if before.kind.AddressKind? then after.value == contracts[manifestName].address
    else
      && after.value != "" && AllDigits(after.value)
      && ReadNumber(after.value) ==
         (if contracts[manifestName].deployBlock.Some? then contracts[manifestName].deployBlock.value else 0)
  }

  /** For every document whose listed sources have lines of their own: the address of each listed source becomes its
      contract's address and its startBlock the deploy block, or 0 without one; a source whose contract is missing or
      has no address, and every other line, stays. */
  lemma ManifestReadsBack(d: Document, sourceMap: seq<(string, string)>, contracts: map<string, Contract>)
    returns (after: Document)
    requires WellFormed(d) && DistinctNames(d) && GoodManifest(sourceMap, contracts) && SourcesHaveLines(d, sourceMap)
    ensures UpdateAll(Render(d), EntriesFor(sourceMap, contracts)) == Render(after) && SameShape(d, after)
    ensures forall j, m :: 0 <= j < |d| && 0 <= m < |sourceMap| && Holder(d, j) == Some(sourceMap[m].0) ==>
              Holding(after[j], d[j], contracts, sourceMap[m].1)
    ensures forall j :: 0 <= j < |d| && (forall m :: 0 <= m < |sourceMap| ==> Holder(d, j) != Some(sourceMap[m].0)) ==>
              after[j] == d[j]
  {
    var entries := EntriesFor(sourceMap, contracts);
    var plan := PlanOf(entries);
    EntriesAreGood(d, sourceMap, contracts);
    LoopIsPerBlockUpdate(d, entries, entries);
    PlanIsGood(entries);
    PerBlockIsGood(d, plan);
    after := PerBlock(d, plan);
    forall j, m | 0 <= j < |d| && 0 <= m < |sourceMap| && Holder(d, j) == Some(sourceMap[m].0)
      ensures Holding(after[j], d[j], contracts, sourceMap[m].1)
    {
      PlanOfEntry(entries, m);
      if entries[m].target.Some? {
        var c := contracts[sourceMap[m].1];
        NumberReadsBack(if c.deployBlock.Some? then c.deployBlock.value else 0);
      }
    }
    forall j | 0 <= j < |d| && (forall m :: 0 <= m < |sourceMap| ==> Holder(d, j) != Some(sourceMap[m].0))
      ensures after[j] == d[j]
    {
      if Holder(d, j).Some? && Holder(d, j).value in plan {
        PlannedEntry(entries, Holder(d, j).value);
      }
    }
  }

  // ----- a text -----

  lemma NameTextIs()
    ensures TextOf(NameLine("A")) == "    name: A"
  {
  }

  lemma AddressTextIs()
    ensures TextOf(AddressLine("")) == "      address: \"\"" && TextOf(AddressLine("0x1")) == "      address: \"0x1\""
  {
  }

  lemma StartTextIs()
    ensures TextOf(StartLine("0")) == "      startBlock: 0" && TextOf(StartLine("7")) == "      startBlock: 7"
  {
  }

  lemma ThreeLines(a: Line, b: Line, c: Line)
    ensures Render([a, b, c]) == TextOf(a) + "\n" + (TextOf(b) + "\n" + TextOf(c))
  {
    RenderOne(c);
    RenderCons(b, [c]);
    RenderCons(a, [b, c]);
    assert [b] + [c] == [b, c] && [a] + [b, c] == [a, b, c];
  }

  lemma ExampleLoop()
    ensures UpdateAll(Render([NameLine("A"), BLANK, NO_BLOCK]), [Entry("A", Some(Target("0x1", "7")))]) ==
            Render([NameLine("A"), AddressLine("0x1"), StartLine("7")])
  {
    var d, e := [NameLine("A"), BLANK, NO_BLOCK], Entry("A", Some(Target("0x1", "7")));
    NameLineIsGood("A");
    AddressLineIsGood("");
    StartLineIsGood("0");
    LandIs(d, 0, 1, AddressKind);
    LandIs(d, 0, 2, StartKind);
    LoopLeavesLast(d, [e]);
    LastLands(d, [e], e, 1);
    LastLands(d, [e], e, 2);
    NothingLandsOnOthers(d, [e], 0);
    assert AfterLoop(d, [e]) == [NameLine("A"), AddressLine("0x1"), StartLine("7")];
  }

  /** An input as text, line by line, with what the loop makes of it. */
  lemma TextExample()
    ensures UpdateAll("    name: A" + "\n" + ("      address: \"\"" + "\n" + "      startBlock: 0"),
                      [Entry("A", Some(Target("0x1", "7")))])
         == "    name: A" + "\n" + ("      address: \"0x1\"" + "\n" + "      startBlock: 7")
  {
    NameTextIs();
    AddressTextIs();
    StartTextIs();
    ThreeLines(NameLine("A"), BLANK, NO_BLOCK);
    ThreeLines(NameLine("A"), AddressLine("0x1"), StartLine("7"));
    ExampleLoop();
  }
}
