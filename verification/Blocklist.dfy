/** The guardian host blocklist (crates/bulwark-net/src/blocklist.rs): a line parser that
    builds an exact set and a suffix list, against a specification that reads the text line
    by line and compares dot-separated labels. */
module Blocklist {
  import opened Base
  import opened Text

  datatype HostBlocklist = HostBlocklist(exact: set<string>, suffixes: seq<string>)

  datatype Rule = Exact(host: string) | Suffix(apex: string)

  // ----- Reading hosts and entries -----

  function NonEmpty(s: string): Option<string> {
    if s == [] then None else Some(s)
  }

  /** The address between brackets, or the host before a single port. */
  function HostPart(h: string): string {
    if h != [] && h[0] == '[' then Before(h[1..], ']')
    else if Count(h, ':') == 1 then Before(h, ':')
    else h
  }

  /** Strip brackets or one port, trailing dots and letter case; nothing may remain. */
  function Normalize(host: string): Option<string> {
    NonEmpty(Lower(TrimEndMatches(HostPart(Trim(host)), '.')))
  }

  /** What follows the first `://`, or everything. */
  function AfterScheme(s: string): string {
    var r := SplitScheme(s);
    if r.Some? then r.value else s
  }

  function SplitScheme(s: string): Option<string> {
    if |s| < 3 then None
    else if s[0] == ':' && s[1] == '/' && s[2] == '/' then Some(s[3..])
    else SplitScheme(s[1..])
  }

  /** The entry on one line: no comment, no scheme, no path. */
  function EntryOf(line: string): string {
    Trim(Before(AfterScheme(Trim(Before(line, '#'))), '/'))
  }

  function RuleOfEntry(entry: string): Option<Rule> {
    if entry == [] then None
    else if |entry| >= 2 && entry[0] == '*' && entry[1] == '.' then
      var apex := Normalize(entry[2..]);
      if apex.Some? then Some(Suffix(apex.value)) else None
    else if entry[0] == '.' then
      var apex := Normalize(entry[1..]);
      if apex.Some? then Some(Suffix(apex.value)) else None
    else
      var host := Normalize(entry);
      if host.Some? then Some(Exact(host.value)) else None
  }

  /** The rule one line stands for, if any. */
  function RuleOf(line: string): Option<Rule> {
    RuleOfEntry(EntryOf(line))
  }

  // ----- Sorting and deduplicating the suffixes -----

  /** `str` order: by scalar value, a prefix first. */
  predicate AtMost(a: string, b: string) {
    a == [] || (b != [] && (a[0] < b[0] || (a[0] == b[0] && AtMost(a[1..], b[1..]))))
  }

  function InsertInOrder(x: string, s: seq<string>): seq<string> {
    if s == [] || AtMost(x, s[0]) then [x] + s else [s[0]] + InsertInOrder(x, s[1..])
  }

  function SortStrings(s: seq<string>): seq<string> {
    if s == [] then [] else InsertInOrder(Last(s), SortStrings(Front(s)))
  }

  /** `dedup`: of neighbours that are equal only one stays. */
  function DedupNeighbours(s: seq<string>): seq<string> {
    if |s| < 2 then s
    else if s[0] == s[1] then DedupNeighbours(s[1..])
    else [s[0]] + DedupNeighbours(s[1..])
  }

  // ----- Parsing and matching -----

  function ExactHosts(lines: seq<string>): set<string> {
    if lines == [] then {}
    else
      var r := RuleOf(Last(lines));
      ExactHosts(Front(lines)) + if r.Some? && r.value.Exact? then {r.value.host} else {}
  }

  function SuffixApexes(lines: seq<string>): seq<string> {
    if lines == [] then []
    else
      var r := RuleOf(Last(lines));
      SuffixApexes(Front(lines)) + if r.Some? && r.value.Suffix? then [r.value.apex] else []
  }

  function ParsedFrom(text: string): HostBlocklist {
    HostBlocklist(ExactHosts(Lines(text)), DedupNeighbours(SortStrings(SuffixApexes(Lines(text)))))
  }

  method Parse(text: string) returns (r: HostBlocklist)
    ensures r == ParsedFrom(text)
  {
    var exact: set<string>, suffixes: seq<string> := {}, [];
    var lines := Lines(text);
    for i := 0 to |lines|
      invariant exact == ExactHosts(lines[..i]) && suffixes == SuffixApexes(lines[..i])
    {
      assert Front(lines[..i + 1]) == lines[..i];
      var entry := Trim(Before(lines[i], '#'));
      if entry == [] {
        assert RuleOf(lines[i]).None? by { EmptyEntry(); }
        continue;
      }
      entry := AfterScheme(entry);
      entry := Trim(Before(entry, '/'));
      if entry == [] {
        continue;
      }
      if |entry| >= 2 && entry[0] == '*' && entry[1] == '.' {
        var apex := Normalize(entry[2..]);
        if apex.Some? {
          suffixes := suffixes + [apex.value];
        }
      } else if entry[0] == '.' {
        var apex := Normalize(entry[1..]);
        if apex.Some? {
          suffixes := suffixes + [apex.value];
        }
      } else {
        var host := Normalize(entry);
        if host.Some? {
          exact := exact + {host.value};
        }
      }
    }
    assert lines[..|lines|] == lines;
    r := HostBlocklist(exact, DedupNeighbours(SortStrings(suffixes)));
  }

  lemma EmptyEntry()
    ensures Trim(Before(AfterScheme([]), '/')) == []
  {
  }

  /** `h` is `apex`, or its bytes end with those of `apex` right behind a dot. */
  predicate EndsAtDot(h: string, apex: string) {
    var b, a := AsBytes(h), AsBytes(apex);
    h == apex || (|b| > |a| && b[|b| - |a|..] == a && b[|b| - |a| - 1] == '.' as int)
  }

  predicate IsBlocked(list: HostBlocklist, host: string) {
    if list.exact == {} && list.suffixes == [] then false
    else
      var h := Normalize(host);
      h.Some?
      && (h.value in list.exact || exists apex :: apex in list.suffixes && EndsAtDot(h.value, apex))
  }

  // ----- The line-by-line specification -----

  /** The dot-separated labels of a host. */
  function Labels(s: string): seq<string> {
    var first := Before(s, '.');
    BeforeFits(s, '.');
    if |first| == |s| then [first] else [first] + Labels(s[|first| + 1..])
  }

  predicate IsSuffix<T(==)>(a: seq<T>, b: seq<T>) {
    |a| <= |b| && b[|b| - |a|..] == a
  }

  /** An exact rule names the host itself; a suffix rule names the last labels of the host. */
  predicate Matches(rule: Rule, h: string) {
    match rule
    case Exact(host) => h == host
    case Suffix(apex) => IsSuffix(Labels(apex), Labels(h))
  }

  predicate LineMatches(line: string, h: string) {
    RuleOf(line).Some? && Matches(RuleOf(line).value, h)
  }

  predicate AnyLineMatches(lines: seq<string>, h: string) {
    lines != [] && (AnyLineMatches(Front(lines), h) || LineMatches(Last(lines), h))
  }

  /** Some line of the text has a rule that matches the host. */
  predicate BlockedByLines(lines: seq<string>, host: string) {
    Normalize(host).Some? && AnyLineMatches(lines, Normalize(host).value)
  }
}
