/**
 * The multi-line regular expressions of the two address-update scripts, as functions on text: what
 * `replace` makes of the first match, or None where `test` is false.
 *
 * Every pattern starts with `^`, so a match can only begin at a line start; the lazy `[\s\S]*?^` of the
 * data-source patterns likewise resumes at line starts only. Lines are tried in order, and a line where
 * the rest of the pattern fails is passed over.
 */
module LinePatterns {
  import opened Text

  /** The characters after which `^` and before which `$` match in multi-line mode. */
  predicate IsTerminator(c: char)
  {
    c == '\n' || c == '\r' || c == '\U{2028}' || c == '\U{2029}'
  }

  ghost predicate OneLine(s: string)
  {
    forall i :: 0 <= i < |s| ==> !IsTerminator(s[i])
  }

  /** The length of the first line. */
  function Eol(s: string): (n: nat)
    ensures n <= |s|
  {
    if s == "" || IsTerminator(s[0]) then 0 else 1 + Eol(s[1..])
  }

  lemma {:induction false} EolIs(s: string)
    ensures OneLine(s[..Eol(s)]) && (Eol(s) < |s| ==> IsTerminator(s[Eol(s)]))
  {
    if s != "" && !IsTerminator(s[0]) {
      EolIs(s[1..]);
      assert s[..Eol(s)] == [s[0]] + s[1..][..Eol(s[1..])];
    }
  }

  predicate IsDigit(c: char)
  {
    '0' <= c <= '9'
  }

  /** `\s`. */
  predicate IsSpace(c: char)
  {
    || '\t' <= c <= '\r' || c == ' ' || c == '\U{A0}' || c == '\U{1680}' || '\U{2000}' <= c <= '\U{200A}'
    || c == '\U{2028}' || c == '\U{2029}' || c == '\U{202F}' || c == '\U{205F}' || c == '\U{3000}' || c == '\U{FEFF}'
  }

  /** The lengths of the longest prefixes matched by `\d*`, `\s*` and `[^"]*`. */
  function DigitRun(s: string): (n: nat)
    ensures n <= |s|
  {
    if s != "" && IsDigit(s[0]) then 1 + DigitRun(s[1..]) else 0
  }

  function SpaceRun(s: string): (n: nat)
    ensures n <= |s|
  {
    if s != "" && IsSpace(s[0]) then 1 + SpaceRun(s[1..]) else 0
  }

  function UnquotedRun(s: string): (n: nat)
    ensures n <= |s|
  {
    if s != "" && s[0] != '"' then 1 + UnquotedRun(s[1..]) else 0
  }

  lemma {:induction false} DigitRunIs(s: string)
    ensures var n := DigitRun(s);
            (forall i :: 0 <= i < n ==> IsDigit(s[i])) && (n < |s| ==> !IsDigit(s[n]))
  {
    if s != "" && IsDigit(s[0]) {
      DigitRunIs(s[1..]);
    }
  }

  lemma {:induction false} SpaceRunIs(s: string)
    ensures var n := SpaceRun(s);
            (forall i :: 0 <= i < n ==> IsSpace(s[i])) && (n < |s| ==> !IsSpace(s[n]))
  {
    if s != "" && IsSpace(s[0]) {
      SpaceRunIs(s[1..]);
    }
  }

  lemma {:induction false} UnquotedRunIs(s: string)
    ensures var n := UnquotedRun(s);
            (forall i :: 0 <= i < n ==> s[i] != '"') && (n < |s| ==> s[n] == '"')
  {
    if s != "" && s[0] != '"' {
      UnquotedRunIs(s[1..]);
    }
  }

  /** A pattern together with what replaces its match:
      Binding: `^name=.*$`; Quoted: `^prefix[^"]*"`; Numbered: `^prefix\s*\d+`;
      Named: `^head\n[\s\S]*?` followed by another pattern. */
  datatype Pattern =
    | Binding(name: string, line: string)
    | Quoted(prefix: string, value: string)
    | Numbered(prefix: string, value: string)
    | Named(head: string, inner: Pattern)

  /** The match, if any, that begins at the start of `r`: `r` with the match replaced. */
  function At(p: Pattern, r: string): Option<string>
    decreases p, |r|, 0
  {
    match p
    case Binding(name, line) =>
      if name + "=" <= r then Some(line + r[Eol(r)..]) else None
    case Quoted(prefix, value) =>
      if !(prefix <= r) then None else
        var t := r[|prefix|..];
        if UnquotedRun(t) == |t| then None else Some(prefix + value + t[UnquotedRun(t)..])
    case Numbered(prefix, value) =>
      if !(prefix <= r) then None else
        var t := r[|prefix|..];
        var w := SpaceRun(t);
        var d := DigitRun(t[w..]);
        if d == 0 then None else Some(prefix + t[..w] + value + t[w + d..])
    case Named(head, inner) =>
      if head + "\n" <= r then Prepend(head + "\n", Scan(inner, r[|head| + 1..])) else None
  }

  function Prepend(head: string, t: Option<string>): Option<string>
  {
    if t.Some? then Some(head + t.value) else None
  }

  /** The first match at a line start of `s`: `s` with that match replaced. */
  function Scan(p: Pattern, s: string): Option<string>
    decreases p, |s|, 1
  {
    if At(p, s).Some? then At(p, s)
    else if Eol(s) == |s| then None
    else Prepend(s[..Eol(s) + 1], Scan(p, s[Eol(s) + 1..]))
  }

  /** `text.replace(pattern, replacement)`: the text itself when nothing matches. */
  function Replace(p: Pattern, s: string): string
  {
    if Scan(p, s).Some? then Scan(p, s).value else s
  }

  lemma Associative<T>(a: seq<T>, b: seq<T>, c: seq<T>)
    ensures a + b + c == a + (b + c)
  {
  }

  /** The end of the first line is determined by a one-line head and a terminator, or the end, after it. */
  lemma {:induction false} EolOf(head: string, rest: string)
    requires OneLine(head) && (rest == "" || IsTerminator(rest[0]))
    ensures Eol(head + rest) == |head|
  {
    if head == "" {
      assert head + rest == rest;
    } else {
      EolOf(head[1..], rest);
      assert (head + rest)[1..] == head[1..] + rest;
    }
  }

  /** Where the first line does not match, the scan goes on behind it. */
  lemma ScanNext(p: Pattern, line: string, c: char, rest: string)
    requires OneLine(line) && IsTerminator(c) && At(p, line + [c] + rest).None?
    ensures Scan(p, line + [c] + rest) == Prepend(line + [c], Scan(p, rest))
  {
    var s := line + [c] + rest;
    assert s == line + ([c] + rest);
    EolOf(line, [c] + rest);
    assert s[..|line| + 1] == line + [c] && s[|line| + 1..] == rest;
  }

  lemma ScanHere(p: Pattern, s: string)
    requires At(p, s).Some?
    ensures Scan(p, s) == At(p, s)
  {
  }

  lemma ScanLast(p: Pattern, line: string)
    requires OneLine(line)
    ensures Scan(p, line) == At(p, line)
  {
    EolOf(line, "");
    assert line + "" == line;
  }

  /** A one-line prefix of a text is a prefix of its first line. */
  lemma WithinFirstLine(want: string, line: string, rest: string)
    requires OneLine(want) && (rest == "" || IsTerminator(rest[0]))
    ensures want <= line + rest <==> want <= line
  {
    var s := line + rest;
    if want <= s {
      assert forall i :: 0 <= i < |want| ==> want[i] == s[i];
      assert rest != "" ==> s[|line|] == rest[0];
      assert |want| <= |line|;
      assert want == s[..|want|] == line[..|want|];
    }
  }

  lemma WithinLine(want: string, head: string, c: char, rest: string)
    requires OneLine(want) && IsTerminator(c)
    ensures want <= head + [c] + rest <==> want <= head
  {
    Associative(head, [c], rest);
    WithinFirstLine(want, head, [c] + rest);
  }
}
