/** `updateEnvContent` of scripts/update-contract-addresses.js: what it does to the lines of an env file. */
module EnvFile {
  import opened Text
  import opened LinePatterns

  datatype Entry = Entry(name: string, value: string)

  /** `NEXT_PUBLIC_<contract>_ADDRESS<suffix>`. */
  function EnvVar(contract: string, suffix: string): string
  {
    "NEXT_PUBLIC_" + contract + "_ADDRESS" + suffix
  }

  ghost predicate Plain(e: Entry)
  {
    OneLine(e.name) && '=' !in e.name && OneLine(e.value)
  }

  function NewLine(e: Entry): string
  {
    e.name + "=" + e.value
  }

  /** Replace the first line that binds the variable, or append a line. */
  function SetEntry(content: string, e: Entry): string
  {
    if Scan(Rule(e), content).Some? then Replace(Rule(e), content)
    else content + "\n" + NewLine(e)
  }

  function SetAll(content: string, entries: seq<Entry>): string
  {
    if entries == [] then content else SetEntry(SetAll(content, entries[..|entries| - 1]), entries[|entries| - 1])
  }

  method UpdateEnvContent(content: string, suffix: string, addresses: seq<(string, string)>)
    returns (updatedContent: string)
    ensures updatedContent == SetAll(content, Entries(suffix, addresses))
    ensures PlainAddresses(suffix, addresses) ==>
              forall i :: 0 <= i < |addresses| ==>
                Value(updatedContent, "NEXT_PUBLIC_" + addresses[i].0 + "_ADDRESS" + suffix) == Some(addresses[i].1)
    ensures PlainAddresses(suffix, addresses) ==>
              forall name: string :: '=' !in name && Unlisted(name, suffix, addresses) ==>
                Value(updatedContent, name) == Value(content, name)
  {
    updatedContent := content;
    var i := 0;
    while i < |addresses|
      invariant 0 <= i <= |addresses|
      invariant updatedContent == SetAll(content, Entries(suffix, addresses[..i]))
    {
      var envVar := EnvVar(addresses[i].0, suffix);
      var newLine := envVar + "=" + addresses[i].1;
      var regex := Binding(envVar, newLine);
      assert Entries(suffix, addresses[..i + 1])[..i] == Entries(suffix, addresses[..i]);
      if Scan(regex, updatedContent).Some? {
        updatedContent := Replace(regex, updatedContent);
      } else {
        updatedContent := updatedContent + ("\n" + newLine);
      }
      i := i + 1;
    }
    assert addresses[..i] == addresses;
    if PlainAddresses(suffix, addresses) {
      UpdateLaw(content, suffix, addresses);
    }
  }

  /** One-line contract names and addresses, the names distinct and without an equals sign. */
  ghost predicate PlainAddresses(suffix: string, addresses: seq<(string, string)>)
  {
    && OneLine(suffix) && '=' !in suffix
    && (forall i :: 0 <= i < |addresses| ==>
          OneLine(addresses[i].0) && '=' !in addresses[i].0 && OneLine(addresses[i].1))
    && (forall i, j :: 0 <= i < j < |addresses| ==> addresses[i].0 != addresses[j].0)
  }

  /** The name is not the variable of a listed contract. */
  ghost predicate Unlisted(name: string, suffix: string, addresses: seq<(string, string)>)
  {
    forall i :: 0 <= i < |addresses| ==> name != "NEXT_PUBLIC_" + addresses[i].0 + "_ADDRESS" + suffix
  }

  function Entries(suffix: string, addresses: seq<(string, string)>): seq<Entry>
  {
    seq(|addresses|, i requires 0 <= i < |addresses| => Entry(EnvVar(addresses[i].0, suffix), addresses[i].1))
  }

  // ----- the file as lines -----

  ghost function Lines(s: string): seq<string>
    decreases |s|
  {
    if Eol(s) == |s| then [s] else [s[..Eol(s)]] + Lines(s[Eol(s) + 1..])
  }

  ghost function Terminators(s: string): string
    decreases |s|
  {
    if Eol(s) == |s| then "" else [s[Eol(s)]] + Terminators(s[Eol(s) + 1..])
  }

  lemma SplitAt(head: string, c: char, rest: string)
    requires OneLine(head) && IsTerminator(c)
    ensures Lines(head + [c] + rest) == [head] + Lines(rest)
    ensures Terminators(head + [c] + rest) == [c] + Terminators(rest)
  {
    var s := head + [c] + rest;
    assert s == head + ([c] + rest);
    EolOf(head, [c] + rest);
    assert s[..|head|] == head && s[|head| + 1..] == rest;
  }

  lemma SplitNone(head: string)
    requires OneLine(head)
    ensures Lines(head) == [head] && Terminators(head) == ""
  {
    EolOf(head, "");
    assert head + "" == head && head[..|head|] == head;
  }

  /** A text is one line, or a line, a terminator and a shorter text. */
  lemma FirstLine(s: string) returns (head: string, c: char, rest: string)
    ensures OneLine(head) && (s == head || (IsTerminator(c) && s == head + [c] + rest && |rest| < |s|))
  {
    var n := Eol(s);
    EolIs(s);
    head := s[..n];
    if n == |s| {
      c, rest := '\n', "";
    } else {
      c, rest := s[n], s[n + 1..];
    }
  }

  ghost function Unsplit(lines: seq<string>, terminators: string): string
    requires |lines| == |terminators| + 1
  {
    if terminators == "" then lines[0] else lines[0] + [terminators[0]] + Unsplit(lines[1..], terminators[1..])
  }

  lemma UnsplitCons(head: string, lines: seq<string>, c: char, terminators: string)
    requires |lines| == |terminators| + 1
    ensures Unsplit([head] + lines, [c] + terminators) == head + [c] + Unsplit(lines, terminators)
  {
    assert ([head] + lines)[1..] == lines && ([c] + terminators)[1..] == terminators;
  }

  lemma {:induction false} UnsplitLines(s: string)
    ensures |Lines(s)| == |Terminators(s)| + 1
    ensures Unsplit(Lines(s), Terminators(s)) == s
    decreases |s|
  {
    var head, c, rest := FirstLine(s);
    if s == head {
      SplitNone(head);
    } else {
      UnsplitLines(rest);
      SplitAt(head, c, rest);
      UnsplitCons(head, Lines(rest), c, Terminators(rest));
    }
  }

  /** A text is determined by its lines and terminators. */
  lemma SameText(s: string, t: string)
    requires Lines(s) == Lines(t) && Terminators(s) == Terminators(t)
    ensures s == t
  {
    UnsplitLines(s);
    UnsplitLines(t);
  }

  ghost predicate Binds(line: string, name: string)
  {
    name + "=" <= line
  }

  /** The index of the first line that binds the name, or the number of lines. */
  ghost function FirstBinding(lines: seq<string>, name: string): (k: nat)
    ensures k <= |lines| && (k < |lines| ==> Binds(lines[k], name))
    ensures forall i :: 0 <= i < k ==> !Binds(lines[i], name)
  {
    if lines == [] || Binds(lines[0], name) then 0 else 1 + FirstBinding(lines[1..], name)
  }

  /** The value of the first line that binds the name. */
  ghost function Value(s: string, name: string): Option<string>
  {
    var lines := Lines(s);
    var k := FirstBinding(lines, name);
    if k < |lines| then Some(lines[k][|name| + 1..]) else None
  }

  ghost function SetLine(lines: seq<string>, e: Entry): seq<string>
  {
    var k := FirstBinding(lines, e.name);
    if k < |lines| then lines[k := NewLine(e)] else lines + [NewLine(e)]
  }

  lemma FirstBindingCons(head: string, lines: seq<string>, name: string)
    ensures FirstBinding([head] + lines, name) == if Binds(head, name) then 0 else 1 + FirstBinding(lines, name)
  {
    assert ([head] + lines)[1..] == lines;
  }

  lemma SetLineCons(head: string, lines: seq<string>, e: Entry)
    ensures SetLine([head] + lines, e) ==
            if Binds(head, e.name) then [NewLine(e)] + lines else [head] + SetLine(lines, e)
  {
    FirstBindingCons(head, lines, e.name);
  }

  lemma BindsFirstLine(head: string, c: char, rest: string, name: string)
    requires OneLine(name) && IsTerminator(c)
    ensures Binds(head + [c] + rest, name) <==> Binds(head, name)
  {
    WithinLine(name + "=", head, c, rest);
  }

  lemma NewLineIsPlain(e: Entry)
    requires Plain(e)
    ensures OneLine(NewLine(e)) && Binds(NewLine(e), e.name)
  {
  }

  function Rule(e: Entry): Pattern
  {
    Binding(e.name, NewLine(e))
  }

  /** The pattern replaces exactly the first binding line; it fails only when no line binds the name. */
  ghost predicate ReplacesLine(s: string, e: Entry)
  {
    var t := Scan(Rule(e), s);
    if FirstBinding(Lines(s), e.name) < |Lines(s)| then
      t.Some? && Lines(t.value) == SetLine(Lines(s), e) && Terminators(t.value) == Terminators(s)
    else t.None?
  }

  lemma ReplacedHere(head: string, c: char, rest: string, e: Entry)
    requires Plain(e) && OneLine(head) && IsTerminator(c) && Binds(head, e.name)
    ensures ReplacesLine(head + [c] + rest, e)
  {
    var s := head + [c] + rest;
    NewLineIsPlain(e);
    BindsFirstLine(head, c, rest, e.name);
    assert s == head + ([c] + rest);
    EolOf(head, [c] + rest);
    assert NewLine(e) + s[|head|..] == NewLine(e) + [c] + rest;
    SplitAt(head, c, rest);
    SplitAt(NewLine(e), c, rest);
    SetLineCons(head, Lines(rest), e);
    FirstBindingCons(head, Lines(rest), e.name);
  }

  lemma ReplacedLater(head: string, c: char, rest: string, e: Entry)
    requires Plain(e) && OneLine(head) && IsTerminator(c) && !Binds(head, e.name) && ReplacesLine(rest, e)
    ensures ReplacesLine(head + [c] + rest, e)
  {
    BindsFirstLine(head, c, rest, e.name);
    ScanNext(Rule(e), head, c, rest);
    SplitAt(head, c, rest);
    SetLineCons(head, Lines(rest), e);
    FirstBindingCons(head, Lines(rest), e.name);
    var t := Scan(Rule(e), rest);
    if t.Some? {
      SplitAt(head, c, t.value);
    }
  }

  lemma ReplacedInOneLine(head: string, e: Entry)
    requires Plain(e) && OneLine(head)
    ensures ReplacesLine(head, e)
  {
    NewLineIsPlain(e);
    ScanLast(Rule(e), head);
    EolOf(head, "");
    assert head + "" == head && NewLine(e) + head[|head|..] == NewLine(e);
    SplitNone(head);
    SplitNone(NewLine(e));
    FirstBindingCons(head, [], e.name);
    SetLineCons(head, [], e);
    assert [head] + [] == [head];
  }

  lemma {:induction false} ReplacedLine(s: string, e: Entry)
    requires Plain(e)
    ensures ReplacesLine(s, e)
    decreases |s|
  {
    var head, c, rest := FirstLine(s);
    if s == head {
      ReplacedInOneLine(s, e);
    } else if Binds(head, e.name) {
      ReplacedHere(head, c, rest, e);
    } else {
      ReplacedLine(rest, e);
      ReplacedLater(head, c, rest, e);
    }
  }

  /** `t` has one line more than `s`, at the end. */
  ghost predicate Extends(s: string, t: string, line: string)
  {
    Lines(t) == Lines(s) + [line] && Terminators(t) == Terminators(s) + ['\n']
  }

  lemma Regroup(head: string, c: char, rest: string, line: string)
    ensures head + [c] + rest + "\n" + line == head + [c] + (rest + "\n" + line)
  {
  }

  lemma ExtendsBehind(head: string, c: char, rest: string, next: string, line: string)
    requires OneLine(head) && IsTerminator(c) && Extends(rest, next, line)
    ensures Extends(head + [c] + rest, head + [c] + next, line)
  {
    SplitAt(head, c, rest);
    SplitAt(head, c, next);
    Associative([head], Lines(rest), [line]);
    Associative([c], Terminators(rest), ['\n']);
  }

  lemma {:induction false} AppendedLine(s: string, line: string)
    requires OneLine(line)
    ensures Extends(s, s + "\n" + line, line)
    decreases |s|
  {
    var head, c, rest := FirstLine(s);
    if s == head {
      SplitNone(line);
      SplitNone(s);
      SplitAt(s, '\n', line);
    } else {
      AppendedLine(rest, line);
      ExtendsBehind(head, c, rest, rest + "\n" + line, line);
      Regroup(head, c, rest, line);
    }
  }

  /** One entry changes the file's lines exactly as `SetLine`: only the first binding, or one line more. */
  lemma SetEntryLines(s: string, e: Entry)
    requires Plain(e)
    ensures Lines(SetEntry(s, e)) == SetLine(Lines(s), e)
    ensures Terminators(SetEntry(s, e)) == if Value(s, e.name).Some? then Terminators(s) else Terminators(s) + "\n"
  {
    ReplacedLine(s, e);
    NewLineIsPlain(e);
    if FirstBinding(Lines(s), e.name) == |Lines(s)| {
      AppendedLine(s, NewLine(e));
    }
  }

  /** A line cannot bind two names that contain no equals sign. */
  lemma BindsOne(line: string, a: string, b: string)
    requires Binds(line, a) && Binds(line, b) && '=' !in a && '=' !in b
    ensures a == b
  {
    assert line[|a|] == '=' && line[|b|] == '=';
    assert forall i :: 0 <= i < |a| ==> line[i] == a[i];
    assert forall i :: 0 <= i < |b| ==> line[i] == b[i];
    assert |a| == |b|;
  }

  lemma FirstBindingUnique(lines: seq<string>, name: string, k: nat)
    requires k < |lines| && Binds(lines[k], name) && forall i :: 0 <= i < k ==> !Binds(lines[i], name)
    ensures FirstBinding(lines, name) == k
  {
  }

  lemma NoBinding(lines: seq<string>, name: string)
    requires forall i :: 0 <= i < |lines| ==> !Binds(lines[i], name)
    ensures FirstBinding(lines, name) == |lines|
  {
  }

  /** Setting a line makes it the first binding of its variable and moves no other variable's first binding. */
  lemma SetLineBindings(lines: seq<string>, e: Entry, other: string)
    requires Plain(e) && '=' !in other && other != e.name
    ensures var next, k, j := SetLine(lines, e), FirstBinding(lines, e.name), FirstBinding(lines, other);
            && FirstBinding(next, e.name) == k < |next| && next[k] == NewLine(e)
            && FirstBinding(next, other) == (if j < |lines| then j else |next|)
            && (j < |lines| ==> next[j] == lines[j])
  {
    var next, k, j := SetLine(lines, e), FirstBinding(lines, e.name), FirstBinding(lines, other);
    FirstBindingUnique(next, e.name, k);
    if Binds(NewLine(e), other) {
      BindsOne(NewLine(e), e.name, other);
    }
    if k < |lines| && Binds(lines[k], other) {
      BindsOne(lines[k], e.name, other);
    }
    if j < |lines| {
      FirstBindingUnique(next, other, j);
    } else {
      NoBinding(next, other);
    }
  }

  /** After setting an entry its variable reads back as the new value, and every other variable as before. */
  lemma SetEntryValues(s: string, e: Entry, other: string)
    requires Plain(e) && '=' !in other && other != e.name
    ensures Value(SetEntry(s, e), e.name) == Some(e.value)
    ensures Value(SetEntry(s, e), other) == Value(s, other)
  {
    SetEntryLines(s, e);
    SetLineBindings(Lines(s), e, other);
    assert NewLine(e)[|e.name| + 1..] == e.value;
  }

  /** Setting a variable to the value it has changes nothing. */
  lemma SetEntryIdle(s: string, e: Entry)
    requires Plain(e) && Value(s, e.name) == Some(e.value)
    ensures SetEntry(s, e) == s
  {
    SetEntryLines(s, e);
    var lines := Lines(s);
    var k := FirstBinding(lines, e.name);
    assert lines[k] == lines[k][..|e.name| + 1] + lines[k][|e.name| + 1..];
    assert lines[k] == NewLine(e);
    SameText(SetEntry(s, e), s);
  }

  // ----- the whole update -----

  ghost predicate PlainEntries(entries: seq<Entry>)
  {
    && (forall i :: 0 <= i < |entries| ==> Plain(entries[i]))
    && (forall i, j :: 0 <= i < j < |entries| ==> entries[i].name != entries[j].name)
  }

  lemma PlainPrefix(entries: seq<Entry>)
    requires PlainEntries(entries) && entries != []
    ensures PlainEntries(entries[..|entries| - 1]) && Plain(entries[|entries| - 1])
    ensures forall i :: 0 <= i < |entries| - 1 ==> entries[i].name != entries[|entries| - 1].name
  {
  }

  lemma EnvVarInjective(a: string, b: string, suffix: string)
    requires EnvVar(a, suffix) == EnvVar(b, suffix)
    ensures a == b
  {
    var p := |"NEXT_PUBLIC_"|;
    assert |a| == |b|;
    assert EnvVar(a, suffix)[p..p + |a|] == a && EnvVar(b, suffix)[p..p + |b|] == b;
  }

  /** Addresses keyed by distinct plain contract names make plain entries with distinct variables. */
  lemma EntriesArePlain(suffix: string, addresses: seq<(string, string)>)
    requires PlainAddresses(suffix, addresses)
    ensures PlainEntries(Entries(suffix, addresses))
  {
    var entries := Entries(suffix, addresses);
    forall i | 0 <= i < |entries|
      ensures Plain(entries[i])
    {
      assert OneLine("NEXT_PUBLIC_") && OneLine("_ADDRESS");
    }
    forall i, j | 0 <= i < j < |entries|
      ensures entries[i].name != entries[j].name
    {
      if entries[i].name == entries[j].name {
        EnvVarInjective(addresses[i].0, addresses[j].0, suffix);
      }
    }
  }

  /** After the update every listed variable reads back as its address. */
  lemma {:induction false} SetAllReadsBack(s: string, entries: seq<Entry>, i: nat)
    requires PlainEntries(entries) && i < |entries|
    ensures Value(SetAll(s, entries), entries[i].name) == Some(entries[i].value)
  {
    var pre, e := entries[..|entries| - 1], entries[|entries| - 1];
    PlainPrefix(entries);
    if i == |entries| - 1 {
      SetEntryValues(SetAll(s, pre), e, e.name + "_");
    } else {
      SetAllReadsBack(s, pre, i);
      SetEntryValues(SetAll(s, pre), e, entries[i].name);
    }
  }

  /** The update leaves the value of every other variable alone. */
  lemma {:induction false} SetAllKeepsOthers(s: string, entries: seq<Entry>, name: string)
    requires PlainEntries(entries) && '=' !in name && forall i :: 0 <= i < |entries| ==> entries[i].name != name
    ensures Value(SetAll(s, entries), name) == Value(s, name)
  {
    if entries != [] {
      var pre, e := entries[..|entries| - 1], entries[|entries| - 1];
      PlainPrefix(entries);
      SetAllKeepsOthers(s, pre, name);
      SetEntryValues(SetAll(s, pre), e, name);
    }
  }

  lemma {:induction false} SetAllIdle(s: string, entries: seq<Entry>)
    requires PlainEntries(entries)
    requires forall i :: 0 <= i < |entries| ==> Value(s, entries[i].name) == Some(entries[i].value)
    ensures SetAll(s, entries) == s
  {
    if entries != [] {
      PlainPrefix(entries);
      SetAllIdle(s, entries[..|entries| - 1]);
      SetEntryIdle(s, entries[|entries| - 1]);
    }
  }

  /** Running the update twice is running it once. */
  lemma SetAllTwice(s: string, entries: seq<Entry>)
    requires PlainEntries(entries)
    ensures SetAll(SetAll(s, entries), entries) == SetAll(s, entries)
  {
    forall i | 0 <= i < |entries|
      ensures Value(SetAll(s, entries), entries[i].name) == Some(entries[i].value)
    {
      SetAllReadsBack(s, entries, i);
    }
    SetAllIdle(SetAll(s, entries), entries);
  }

  ghost predicate BindsAny(line: string, entries: seq<Entry>)
  {
    exists i :: 0 <= i < |entries| && Binds(line, entries[i].name)
  }

  /** The lines that bind none of the listed variables, in order. */
  ghost function OtherLines(lines: seq<string>, entries: seq<Entry>): seq<string>
  {
    if lines == [] then []
    else (if BindsAny(lines[0], entries) then [] else [lines[0]]) + OtherLines(lines[1..], entries)
  }

  lemma OtherLinesCons(head: string, lines: seq<string>, entries: seq<Entry>)
    ensures OtherLines([head] + lines, entries) ==
            (if BindsAny(head, entries) then [] else [head]) + OtherLines(lines, entries)
  {
    assert ([head] + lines)[1..] == lines;
  }

  lemma {:induction false} OtherLinesAfterSetLine(lines: seq<string>, entries: seq<Entry>, e: Entry)
    requires BindsAny(NewLine(e), entries)
    requires forall line :: Binds(line, e.name) ==> BindsAny(line, entries)
    ensures OtherLines(SetLine(lines, e), entries) == OtherLines(lines, entries)
  {
    if lines == [] {
      assert SetLine(lines, e) == [NewLine(e)] + [];
      OtherLinesCons(NewLine(e), [], entries);
    } else {
      var head, rest := lines[0], lines[1..];
      assert lines == [head] + rest;
      SetLineCons(head, rest, e);
      OtherLinesCons(head, rest, entries);
      OtherLinesCons(NewLine(e), rest, entries);
      OtherLinesCons(head, SetLine(rest, e), entries);
      if !Binds(head, e.name) {
        OtherLinesAfterSetLine(rest, entries, e);
      }
    }
  }

  /** Every line that binds none of the listed variables survives, unchanged and in order. */
  lemma {:induction false} SetAllKeepsOtherLines(s: string, entries: seq<Entry>, all: seq<Entry>)
    requires PlainEntries(entries) && forall i :: 0 <= i < |entries| ==> entries[i] in all
    ensures OtherLines(Lines(SetAll(s, entries)), all) == OtherLines(Lines(s), all)
  {
    if entries != [] {
      var pre, e := entries[..|entries| - 1], entries[|entries| - 1];
      PlainPrefix(entries);
      SetAllKeepsOtherLines(s, pre, all);
      SetEntryLines(SetAll(s, pre), e);
      NewLineIsPlain(e);
      assert entries[|entries| - 1] in all;
      var i :| 0 <= i < |all| && all[i] == e;
      forall line | Binds(line, e.name)
        ensures BindsAny(line, all)
      {
        assert Binds(line, all[i].name);
      }
      OtherLinesAfterSetLine(Lines(SetAll(s, pre)), all, e);
    }
  }

  lemma ListedReadsBack(content: string, suffix: string, addresses: seq<(string, string)>, i: nat)
    requires PlainAddresses(suffix, addresses) && i < |addresses|
    ensures Value(SetAll(content, Entries(suffix, addresses)),
                  "NEXT_PUBLIC_" + addresses[i].0 + "_ADDRESS" + suffix) == Some(addresses[i].1)
  {
    EntriesArePlain(suffix, addresses);
    SetAllReadsBack(content, Entries(suffix, addresses), i);
  }

  lemma OthersStay(content: string, suffix: string, addresses: seq<(string, string)>, name: string)
    requires PlainAddresses(suffix, addresses) && '=' !in name && Unlisted(name, suffix, addresses)
    ensures Value(SetAll(content, Entries(suffix, addresses)), name) == Value(content, name)
  {
    EntriesArePlain(suffix, addresses);
    forall i | 0 <= i < |addresses|
      ensures Entries(suffix, addresses)[i].name != name
    {
    }
    SetAllKeepsOthers(content, Entries(suffix, addresses), name);
  }

  /** For every content and every map from plain contract names to addresses: each contract's variable reads back its
      address, and every other variable reads as before. */
  lemma UpdateLaw(content: string, suffix: string, addresses: seq<(string, string)>)
    requires PlainAddresses(suffix, addresses)
    ensures var after := SetAll(content, Entries(suffix, addresses));
            && (forall i :: 0 <= i < |addresses| ==>
                  Value(after, "NEXT_PUBLIC_" + addresses[i].0 + "_ADDRESS" + suffix) == Some(addresses[i].1))
            && (forall name: string :: '=' !in name && Unlisted(name, suffix, addresses) ==>
                  Value(after, name) == Value(content, name))
  {
    forall i | 0 <= i < |addresses|
      ensures Value(SetAll(content, Entries(suffix, addresses)),
                    "NEXT_PUBLIC_" + addresses[i].0 + "_ADDRESS" + suffix) == Some(addresses[i].1)
    {
      ListedReadsBack(content, suffix, addresses, i);
    }
    forall name: string | '=' !in name && Unlisted(name, suffix, addresses)
      ensures Value(SetAll(content, Entries(suffix, addresses)), name) == Value(content, name)
    {
      OthersStay(content, suffix, addresses, name);
    }
  }
}
