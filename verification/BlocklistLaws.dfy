/** The blocklist agrees with its line-by-line specification, for every text and host. */
module BlocklistLaws {
  import opened Base
  import opened Text
  import opened Blocklist
  import Utf8Laws

  // ----- A byte-level suffix behind a dot is a suffix of the labels -----

  /** Labels of a name in front of another. */
  lemma {:induction false} LabelsConcat(p: string, s: string)
    ensures Labels(p + "." + s) == Labels(p) + Labels(s)
    decreases |p|
  {
    var h, first := p + "." + s, Before(p, '.');
    BeforeConcat(p, s, '.');
    BeforeFits(p, '.');
    if |first| == |p| {
      assert h[|first| + 1..] == s;
    } else {
      LabelsConcat(p[|first| + 1..], s);
      assert h[|first| + 1..] == p[|first| + 1..] + "." + s;
    }
  }

  /** Joining the labels gives the name back. */
  function Join(labels: seq<string>): string
    requires labels != []
  {
    if |labels| == 1 then labels[0] else labels[0] + "." + Join(labels[1..])
  }

  lemma {:induction false} JoinLabels(s: string)
    ensures Labels(s) != [] && Join(Labels(s)) == s
    decreases |s|
  {
    var first := Before(s, '.');
    BeforeFits(s, '.');
    if |first| < |s| {
      var rest := s[|first| + 1..];
      JoinLabels(rest);
      assert Labels(s)[1..] == Labels(rest);
      assert s == first + "." + rest;
    }
  }

  lemma {:induction false} JoinConcat(a: seq<string>, b: seq<string>)
    requires a != [] && b != []
    ensures Join(a + b) == Join(a) + "." + Join(b)
  {
    if |a| == 1 {
      assert (a + b)[1..] == b;
    } else {
      JoinConcat(a[1..], b);
      assert (a + b)[1..] == a[1..] + b;
      assert a[0] + "." + (Join(a[1..]) + "." + Join(b)) == a[0] + "." + Join(a[1..]) + "." + Join(b);
    }
  }

  /** The test on characters. */
  predicate EndsBehindDot(h: string, apex: string) {
    h == apex || (|h| > |apex| && h[|h| - |apex|..] == apex && h[|h| - |apex| - 1] == '.')
  }

  /** Comparing bytes and byte lengths never finds an ending that is none of the characters. */
  lemma BytesEndLikeCharacters(h: string, apex: string)
    ensures EndsAtDot(h, apex) <==> EndsBehindDot(h, apex)
  {
    var b, a := AsBytes(h), AsBytes(apex);
    if EndsAtDot(h, apex) && h != apex {
      var i := Utf8Laws.AsciiByteIsCharacter(h, |b| - |a| - 1);
      Utf8Laws.AsBytesInjective(h[i + 1..], apex);
      assert |h| - |apex| == i + 1;
    }
    if EndsBehindDot(h, apex) && h != apex {
      var p := h[..|h| - |apex| - 1];
      assert h == p + ("." + apex);
      Utf8Laws.AsBytesConcat(p, "." + apex);
      Utf8Laws.AsBytesConcat(".", apex);
      assert AsBytes(".") == ['.' as int] + AsBytes([]);
      assert b == AsBytes(p) + ['.' as int] + a;
    }
  }

  /** The byte-level test behind a suffix rule decides exactly the label-wise one. */
  lemma SuffixTestIsLabelwise(h: string, apex: string)
    ensures EndsAtDot(h, apex) <==> IsSuffix(Labels(apex), Labels(h))
  {
    BytesEndLikeCharacters(h, apex);
    CharacterTestIsLabelwise(h, apex);
  }

  lemma CharacterTestIsLabelwise(h: string, apex: string)
    ensures EndsBehindDot(h, apex) <==> IsSuffix(Labels(apex), Labels(h))
  {
    JoinLabels(h);
    JoinLabels(apex);
    var lh, la := Labels(h), Labels(apex);
    if EndsBehindDot(h, apex) && h != apex {
      var p := h[..|h| - |apex| - 1];
      assert h == p + "." + apex;
      LabelsConcat(p, apex);
      assert lh[|lh| - |la|..] == la;
    }
    if IsSuffix(la, lh) && |la| < |lh| {
      var front := lh[..|lh| - |la|];
      assert lh == front + la;
      JoinConcat(front, la);
      var j := Join(front);
      assert h == j + "." + apex;
      assert h[|h| - |apex|..] == apex && h[|h| - |apex| - 1] == '.';
    }
    if IsSuffix(la, lh) && |la| == |lh| {
      assert lh == lh[0..] == la;
    }
  }

  // ----- Sorting and deduplication keep the elements -----

  lemma {:induction false} InsertElements(x: string, s: seq<string>, y: string)
    ensures y in InsertInOrder(x, s) <==> y == x || y in s
  {
    if s != [] { InsertElements(x, s[1..], y); }
  }

  lemma {:induction false} SortElements(s: seq<string>, y: string)
    ensures y in SortStrings(s) <==> y in s
  {
    if s != [] {
      assert s == Front(s) + [Last(s)];
      SortElements(Front(s), y);
      InsertElements(Last(s), SortStrings(Front(s)), y);
    }
  }

  lemma {:induction false} DedupElements(s: seq<string>, y: string)
    ensures y in DedupNeighbours(s) <==> y in s
  {
    if |s| >= 2 {
      DedupElements(s[1..], y);
      assert s == [s[0]] + s[1..];
    }
  }

  // ----- Agreement -----

  ghost predicate AnyEndsAtDot(apexes: seq<string>, h: string) {
    exists apex :: apex in apexes && EndsAtDot(h, apex)
  }

  lemma AnyEndsAtDotMore(apexes: seq<string>, last: string, h: string)
    ensures AnyEndsAtDot(apexes + [last], h) <==> AnyEndsAtDot(apexes, h) || EndsAtDot(h, last)
  {
    assert last in apexes + [last];
    forall a | a in apexes
      ensures a in apexes + [last]
    {
    }
  }

  lemma CanonicalSuffixes(apexes: seq<string>, h: string)
    ensures AnyEndsAtDot(DedupNeighbours(SortStrings(apexes)), h) <==> AnyEndsAtDot(apexes, h)
  {
    forall a
      ensures a in DedupNeighbours(SortStrings(apexes)) <==> a in apexes
    {
      DedupElements(SortStrings(apexes), a);
      SortElements(apexes, a);
    }
  }

  /** The two collections the parser fills hold a match exactly when some line does. */
  lemma {:induction false} CollectedMatches(lines: seq<string>, h: string)
    ensures AnyLineMatches(lines, h) <==> h in ExactHosts(lines) || AnyEndsAtDot(SuffixApexes(lines), h)
  {
    if lines != [] {
      CollectedMatches(Front(lines), h);
      var r := RuleOf(Last(lines));
      if r.Some? && r.value.Suffix? {
        SuffixTestIsLabelwise(h, r.value.apex);
        AnyEndsAtDotMore(SuffixApexes(Front(lines)), r.value.apex, h);
      }
    }
  }

  /** Parsing a text and asking about a host gives what reading the text line by line and
      comparing labels gives. */
  lemma BlocklistMeansItsLines(text: string, host: string)
    ensures IsBlocked(ParsedFrom(text), host) <==> BlockedByLines(Lines(text), host)
  {
    var n := Normalize(host);
    if n.Some? {
      CollectedMatches(Lines(text), n.value);
      CanonicalSuffixes(SuffixApexes(Lines(text)), n.value);
    }
  }

  // ----- Order and repetition never matter -----

  lemma {:induction false} AtMostTotal(a: string, b: string)
    ensures AtMost(a, b) || AtMost(b, a)
    ensures AtMost(a, b) && AtMost(b, a) ==> a == b
  {
    if a != [] && b != [] && a[0] == b[0] {
      AtMostTotal(a[1..], b[1..]);
      assert a == [a[0]] + a[1..] && b == [b[0]] + b[1..];
    }
  }

  lemma {:induction false} AtMostTransitive(a: string, b: string, c: string)
    requires AtMost(a, b) && AtMost(b, c)
    ensures AtMost(a, c)
  {
    if a != [] && a[0] == b[0] == c[0] { AtMostTransitive(a[1..], b[1..], c[1..]); }
  }

  /** In order, with repetitions allowed, from `lo` on. */
  predicate Ordered(s: seq<string>, lo: string) {
    s == [] || (AtMost(lo, s[0]) && Ordered(s[1..], s[0]))
  }

  lemma {:induction false} InsertOrdered(x: string, s: seq<string>, lo: string)
    requires Ordered(s, lo) && AtMost(lo, x)
    ensures Ordered(InsertInOrder(x, s), lo)
  {
    if s != [] {
      AtMostTotal(x, s[0]);
      if !AtMost(x, s[0]) { InsertOrdered(x, s[1..], s[0]); }
    }
  }

  lemma {:induction false} SortOrdered(s: seq<string>)
    ensures Ordered(SortStrings(s), "")
  {
    if s != [] {
      SortOrdered(Front(s));
      InsertOrdered(Last(s), SortStrings(Front(s)), "");
    }
  }

  /** In order and without repetitions, strictly above `lo` if there is one. */
  predicate Strict(s: seq<string>, lo: Option<string>) {
    s == [] || ((lo.Some? ==> AtMost(lo.value, s[0]) && lo.value != s[0]) && Strict(s[1..], Some(s[0])))
  }

  lemma {:induction false} DedupStrict(s: seq<string>, lo: string)
    requires Ordered(s, lo)
    ensures Strict(DedupNeighbours(s), None)
    ensures s != [] ==> DedupNeighbours(s) != [] && DedupNeighbours(s)[0] == s[0]
  {
    if |s| >= 2 { DedupStrict(s[1..], s[0]); }
  }

  lemma {:induction false} StrictAbove(s: seq<string>, lo: string, y: string)
    requires Strict(s, Some(lo)) && y in s
    ensures AtMost(lo, y) && lo != y
  {
    if y != s[0] {
      StrictAbove(s[1..], s[0], y);
      AtMostTransitive(lo, s[0], y);
      AtMostTotal(lo, s[0]);
      AtMostTotal(s[0], y);
    }
  }

  lemma HeadIsMember(s: seq<string>)
    ensures s != [] ==> s[0] in s
  {
  }

  /** A set of strings has only one strictly ordered listing. */
  lemma {:induction false} StrictUnique(a: seq<string>, b: seq<string>, lo: Option<string>, lo': Option<string>)
    requires Strict(a, lo) && Strict(b, lo')
    requires forall y :: y in a <==> y in b
    ensures a == b
  {
    HeadIsMember(a);
    HeadIsMember(b);
    if a != [] {
      assert b != [] && b[0] in a && a[0] in b;
      if a[0] != b[0] {
        StrictAbove(b[1..], b[0], a[0]);
        StrictAbove(a[1..], a[0], b[0]);
        AtMostTotal(a[0], b[0]);
      }
      forall y
        ensures y in a[1..] <==> y in b[1..]
      {
        TailMembers(a, y);
        TailMembers(b, y);
      }
      StrictUnique(a[1..], b[1..], Some(a[0]), Some(b[0]));
    }
  }

  lemma TailMembers(s: seq<string>, y: string)
    requires s != [] && Strict(s[1..], Some(s[0]))
    ensures y in s[1..] <==> y in s && y != s[0]
  {
    assert s == [s[0]] + s[1..];
    if s[0] in s[1..] { StrictAbove(s[1..], s[0], s[0]); }
  }

  lemma CanonicalUnique(a: seq<string>, b: seq<string>)
    requires forall y :: y in a <==> y in b
    ensures DedupNeighbours(SortStrings(a)) == DedupNeighbours(SortStrings(b))
  {
    SortOrdered(a);
    SortOrdered(b);
    DedupStrict(SortStrings(a), "");
    DedupStrict(SortStrings(b), "");
    forall y
      ensures y in DedupNeighbours(SortStrings(a)) <==> y in DedupNeighbours(SortStrings(b))
    {
      DedupElements(SortStrings(a), y);
      DedupElements(SortStrings(b), y);
      SortElements(a, y);
      SortElements(b, y);
    }
    StrictUnique(DedupNeighbours(SortStrings(a)), DedupNeighbours(SortStrings(b)), None, None);
  }

  function RuleSet(line: string): set<Rule> {
    if RuleOf(line).Some? then {RuleOf(line).value} else {}
  }

  /** The rules a list of lines stands for. */
  function Rules(lines: seq<string>): set<Rule> {
    if lines == [] then {}
    else Rules(Front(lines)) + RuleSet(Last(lines))
  }

  lemma {:induction false} RulesCollected(lines: seq<string>)
    ensures forall h :: h in ExactHosts(lines) <==> Exact(h) in Rules(lines)
    ensures forall a :: a in SuffixApexes(lines) <==> Suffix(a) in Rules(lines)
  {
    if lines != [] { RulesCollected(Front(lines)); }
  }

  /** Texts with the same rules parse to the same blocklist: the order of lines, repeated lines
      and lines without a rule never matter. */
  lemma SameRulesSameBlocklist(text: string, other: string)
    requires Rules(Lines(text)) == Rules(Lines(other))
    ensures ParsedFrom(text) == ParsedFrom(other)
  {
    RulesCollected(Lines(text));
    RulesCollected(Lines(other));
    CanonicalUnique(SuffixApexes(Lines(text)), SuffixApexes(Lines(other)));
    var a, b := ExactHosts(Lines(text)), ExactHosts(Lines(other));
    forall h
      ensures h in a <==> h in b
    {
      assert h in a <==> Exact(h) in Rules(Lines(text));
    }
  }

  // ----- Letter case never matters -----

  predicate IsLetter(c: char) {
    'A' <= c <= 'Z' || 'a' <= c <= 'z'
  }

  lemma {:induction false} LowerAt(s: string, i: nat)
    requires i <= |s|
    ensures |Lower(s)| == |s| && Lower(s)[i..] == Lower(s[i..]) && Lower(s)[..i] == Lower(s[..i])
    ensures i < |s| ==> Lower(s)[i] == LowerChar(s[i])
  {
    if s != [] && i > 0 {
      LowerAt(s[1..], i - 1);
      assert s[1..][i - 1..] == s[i..];
      assert s[..i][1..] == s[1..][..i - 1];
      assert Lower(s)[..i] == [LowerChar(s[0])] + Lower(s[1..])[..i - 1];
    } else if s != [] {
      LowerAt(s[1..], 0);
      assert Lower(s)[0..] == Lower(s) && s[0..] == s;
    }
  }

  lemma {:induction false} LowerTwice(s: string)
    ensures Lower(Lower(s)) == Lower(s)
  {
    if s != [] {
      LowerTwice(s[1..]);
      assert Lower(s)[1..] == Lower(s[1..]);
    }
  }

  lemma {:induction false} LowerBefore(s: string, c: char)
    requires !IsLetter(c)
    ensures Before(Lower(s), c) == Lower(Before(s, c)) && Count(Lower(s), c) == Count(s, c)
  {
    if s != [] {
      LowerBefore(s[1..], c);
      assert Lower(s)[1..] == Lower(s[1..]);
    }
  }

  lemma {:induction false} LowerTrimStart(s: string)
    ensures TrimStart(Lower(s)) == Lower(TrimStart(s))
  {
    if s != [] {
      LowerTrimStart(s[1..]);
      assert Lower(s)[1..] == Lower(s[1..]);
    }
  }

  lemma {:induction false} LowerTrimEnd(s: string, c: char)
    requires !IsLetter(c)
    ensures TrimEnd(Lower(s)) == Lower(TrimEnd(s))
    ensures TrimEndMatches(Lower(s), c) == Lower(TrimEndMatches(s, c))
  {
    if s != [] {
      LowerTrimEnd(s[..|s| - 1], c);
      LowerAt(s, |s| - 1);
    }
  }

  lemma LowerTrim(s: string)
    ensures Trim(Lower(s)) == Lower(Trim(s))
  {
    LowerTrimStart(s);
    LowerTrimEnd(TrimStart(s), '.');
  }

  lemma {:induction false} LowerSplitScheme(s: string)
    ensures SplitScheme(Lower(s)) == var r := SplitScheme(s); if r.Some? then Some(Lower(r.value)) else None
  {
    LowerAt(s, 0);
    if |s| >= 3 {
      LowerSplitScheme(s[1..]);
      LowerAt(s, 1);
      LowerAt(s, 2);
      LowerAt(s, 3);
    }
  }

  lemma LowerHostPart(h: string)
    ensures HostPart(Lower(h)) == Lower(HostPart(h))
  {
    LowerAt(h, 0);
    LowerBefore(h, ':');
    if h != [] {
      LowerAt(h, 1);
      LowerBefore(h[1..], ']');
    }
  }

  lemma LowerNormalize(s: string)
    ensures Normalize(Lower(s)) == Normalize(s)
  {
    LowerTrim(s);
    LowerHostPart(Trim(s));
    LowerTrimEnd(HostPart(Trim(s)), '.');
    LowerTwice(TrimEndMatches(HostPart(Trim(s)), '.'));
  }

  lemma LowerEntry(line: string)
    ensures EntryOf(Lower(line)) == Lower(EntryOf(line))
  {
    LowerBefore(line, '#');
    LowerTrim(Before(line, '#'));
    var entry := Trim(Before(line, '#'));
    LowerSplitScheme(entry);
    LowerBefore(AfterScheme(entry), '/');
    LowerTrim(Before(AfterScheme(entry), '/'));
  }

  /** A rule depends only on the leading marks of the entry and on what normalizing leaves. */
  lemma SameMarksSameRule(e: string, l: string)
    requires e != [] && |l| == |e| && (l[0] == '*' <==> e[0] == '*') && (l[0] == '.' <==> e[0] == '.')
    requires Normalize(l) == Normalize(e) && Normalize(l[1..]) == Normalize(e[1..])
    requires |e| >= 2 ==> (l[1] == '.' <==> e[1] == '.') && Normalize(l[2..]) == Normalize(e[2..])
    ensures RuleOfEntry(l) == RuleOfEntry(e)
  {
  }

  lemma LowerTail(e: string, k: nat)
    requires k <= |e|
    ensures |Lower(e)| == |e| && Normalize(Lower(e)[k..]) == Normalize(e[k..])
  {
    LowerAt(e, k);
    LowerNormalize(e[k..]);
  }

  lemma LowerMark(e: string, k: nat)
    requires k < |e|
    ensures |Lower(e)| == |e| && (Lower(e)[k] == '*' <==> e[k] == '*') && (Lower(e)[k] == '.' <==> e[k] == '.')
  {
    LowerAt(e, k);
  }

  lemma LowerRuleOfEntry(e: string, l: string)
    requires l == Lower(e)
    ensures RuleOfEntry(l) == RuleOfEntry(e)
  {
    if e != [] {
      LowerNormalize(e);
      LowerMark(e, 0);
      LowerTail(e, 1);
      if |e| >= 2 {
        LowerMark(e, 1);
        LowerTail(e, 2);
      }
      SameMarksSameRule(e, l);
    }
  }

  lemma LowerRule(line: string)
    ensures RuleOf(Lower(line)) == RuleOf(line)
  {
    LowerEntry(line);
    LowerRuleOfEntry(EntryOf(line), EntryOf(Lower(line)));
  }

  function LowerAll(lines: seq<string>): seq<string> {
    if lines == [] then [] else [Lower(lines[0])] + LowerAll(lines[1..])
  }

  /** A line without the carriage return that went with its line feed. */
  function Chomp(line: string): string {
    if line != [] && Last(line) == '\r' then Front(line) else line
  }

  lemma LowerChomp(line: string)
    ensures Chomp(Lower(line)) == Lower(Chomp(line))
  {
    LowerAt(line, 0);
    if line != [] { LowerAt(line, |line| - 1); }
  }

  lemma {:induction false} LowerLines(text: string)
    ensures Lines(Lower(text)) == LowerAll(Lines(text))
    decreases |text|
  {
    LowerAt(text, 0);
    if text != [] {
      var line := Before(text, '\n');
      BeforeFits(text, '\n');
      LowerBefore(text, '\n');
      LowerAt(line, 0);
      if |line| < |text| {
        var rest := text[|line| + 1..];
        LowerLines(rest);
        LowerAt(text, |line| + 1);
        LowerChomp(line);
        assert Lines(text) == [Chomp(line)] + Lines(rest);
        assert Lines(Lower(text)) == [Chomp(Lower(line))] + Lines(Lower(rest));
      } else {
        assert Lines(text) == [line] && [line][1..] == [];
      }
    }
  }

  lemma {:induction false} RulesFromFront(line: string, lines: seq<string>)
    ensures Rules([line] + lines) == RuleSet(line) + Rules(lines)
  {
    if lines != [] {
      var all := [line] + lines;
      RulesFromFront(line, Front(lines));
      assert Front(all) == [line] + Front(lines) && Last(all) == Last(lines);
      assert Rules(all) == Rules(Front(all)) + RuleSet(Last(all));
    } else {
      assert [line] + lines == [line] && Front([line]) == [];
    }
  }

  lemma {:induction false} RulesOfLowerAll(lines: seq<string>)
    ensures Rules(LowerAll(lines)) == Rules(lines)
  {
    if lines != [] {
      RulesOfLowerAll(lines[1..]);
      RulesFromFront(lines[0], lines[1..]);
      RulesFromFront(Lower(lines[0]), LowerAll(lines[1..]));
      LowerRule(lines[0]);
      assert lines == [lines[0]] + lines[1..];
    }
  }

  /** Texts, and hosts, that differ only in letter case are treated alike. */
  lemma LetterCaseNeverMatters(text: string, other: string, list: HostBlocklist, host: string, host': string)
    requires Lower(text) == Lower(other) && Lower(host) == Lower(host')
    ensures ParsedFrom(text) == ParsedFrom(other)
    ensures IsBlocked(list, host) == IsBlocked(list, host')
  {
    LowerNormalize(host);
    LowerNormalize(host');
    LowerLines(text);
    LowerLines(other);
    RulesOfLowerAll(Lines(text));
    RulesOfLowerAll(Lines(other));
    SameRulesSameBlocklist(text, other);
  }
}
