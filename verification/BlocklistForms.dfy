/** What the documented spellings of hosts and blocklist entries mean: the text forms a
    guardian writes, and the forms a host arrives in. */
module BlocklistForms {
  import opened Base
  import opened Text
  import opened Blocklist

  predicate NoSpace(s: string) {
    forall i :: 0 <= i < |s| ==> !IsWhitespace(s[i])
  }

  /** A name or address without brackets and without trailing dots. */
  predicate PlainHost(h: string) {
    h != [] && h[0] != '[' && Last(h) != '.' && NoSpace(h)
  }

  /** A host that cannot be taken for a suffix rule, a comment or a path. */
  predicate PlainEntry(h: string) {
    PlainHost(h) && h[0] !in {'.', '*'} && '#' !in h && '/' !in h
  }

  /** A name or IPv4 address (no colon) or an IPv6 address (several): a single colon marks a port. */
  predicate NoPort(h: string) {
    Count(h, ':') != 1
  }

  lemma NoSpaceIsTrimmed(s: string)
    requires NoSpace(s)
    ensures Trim(s) == s
  {
    TrimmedIsKept(s);
  }

  lemma {:induction false} CountAbsent(s: string, c: char)
    requires c !in s
    ensures Count(s, c) == 0
  {
    if s != [] { CountAbsent(s[1..], c); }
  }

  lemma {:induction false} CountConcat(a: string, b: string, c: char)
    ensures Count(a + b, c) == Count(a, c) + Count(b, c)
  {
    if a == [] {
      assert a + b == b;
    } else {
      assert (a + b)[1..] == a[1..] + b;
      CountConcat(a[1..], b, c);
    }
  }

  lemma LowerNonEmpty(h: string)
    requires h != []
    ensures Lower(h) != []
  {
  }

  // ----- The lines of a text -----

  /** The last line counts without a line feed behind it, and keeps a carriage return. */
  lemma LastLine(line: string)
    requires '\n' !in line
    ensures Lines(line) == if line == "" then [] else [line]
  {
    BeforeAbsent(line, '\n');
  }

  /** One step of the line splitter, up to the first line feed. */
  lemma LineStep(line: string, rest: string)
    requires '\n' !in line
    ensures Lines(line + "\n" + rest)
         == [if line != "" && Last(line) == '\r' then Front(line) else line] + Lines(rest)
  {
    LineBefore(line, rest);
    var s := line + "\n" + rest;
    assert s != [] && |s| > |line|;
  }

  /** A line feed ends a line, and takes one carriage return in front of it along. */
  lemma FirstLine(line: string, rest: string)
    requires '\n' !in line
    ensures line == "" || Last(line) != '\r' ==> Lines(line + "\n" + rest) == [line] + Lines(rest)
    ensures Lines((line + "\r") + "\n" + rest) == [line] + Lines(rest)
  {
    LineStep(line, rest);
    LineStep(line + "\r", rest);
    assert Front(line + "\r") == line;
  }

  lemma LineBefore(line: string, rest: string)
    requires '\n' !in line
    ensures Before(line + "\n" + rest, '\n') == line && (line + "\n" + rest)[|line| + 1..] == rest
  {
    BeforeConcat(line, rest, '\n');
    BeforeAbsent(line, '\n');
  }

  // ----- Hosts -----

  lemma DotsEnd(h: string, c: char)
    requires h != [] && Last(h) != c
    ensures TrimEndMatches(h, c) == h && TrimEndMatches(h + [c], c) == h
  {
    assert (h + [c])[..|h|] == h;
  }

  /** A host without a port stands for itself, IPv6 addresses included. */
  lemma PlainNormalizes(h: string)
    requires PlainHost(h) && NoPort(h)
    ensures Normalize(h) == Some(Lower(h)) && Normalize(h + ".") == Some(Lower(h))
  {
    NoSpaceIsTrimmed(h);
    NoSpaceIsTrimmed(h + ".");
    CountConcat(h, ".", ':');
    CountAbsent(".", ':');
    DotsEnd(h, '.');
    LowerNonEmpty(h);
  }

  /** A single port is cut off. */
  lemma PortIsCut(h: string, port: string)
    requires PlainHost(h) && ':' !in h && NoSpace(port) && ':' !in port
    ensures Normalize(h + ":" + port) == Some(Lower(h))
  {
    var s := h + ":" + port;
    NoSpaceIsTrimmed(s);
    CountAbsent(h, ':');
    CountAbsent(port, ':');
    CountConcat(h, ":" + port, ':');
    assert s == h + (":" + port) && (":" + port)[1..] == port;
    assert Count(s, ':') == 1;
    BeforeConcat(h, port, ':');
    BeforeAbsent(h, ':');
    DotsEnd(h, '.');
    LowerNonEmpty(h);
  }

  /** Brackets are opened, whatever address stands in them, and what follows them is cut off. */
  lemma BracketsAreOpened(a: string, rest: string)
    requires ']' !in a && NoSpace(a) && NoSpace(rest)
    ensures Normalize("[" + a + "]" + rest) == NonEmpty(Lower(TrimEndMatches(a, '.')))
    ensures a != [] && Last(a) != '.' ==> Normalize("[" + a + "]" + rest) == Some(Lower(a))
  {
    var t := "[" + a + "]" + rest;
    NoSpaceIsTrimmed(t);
    assert t[1..] == a + "]" + rest;
    BeforeConcat(a, rest, ']');
    BeforeAbsent(a, ']');
    if a != [] && Last(a) != '.' {
      DotsEnd(a, '.');
      LowerNonEmpty(a);
    }
  }

  // ----- Lines -----

  lemma {:induction false} NoScheme(s: string)
    requires '/' !in s
    ensures SplitScheme(s).None?
  {
    if |s| >= 3 { NoScheme(s[1..]); }
  }

  lemma {:induction false} SchemeSplits(scheme: string, rest: string)
    requires ':' !in scheme
    ensures SplitScheme(scheme + "://" + rest) == Some(rest)
  {
    var s := scheme + "://" + rest;
    if scheme == [] {
      assert s[3..] == rest;
    } else {
      assert s[1..] == scheme[1..] + "://" + rest;
      SchemeSplits(scheme[1..], rest);
    }
  }

  /** An entry without scheme, path or comment stands for itself; it may carry a port. */
  lemma BareEntry(e: string)
    requires NoSpace(e) && '#' !in e && '/' !in e
    ensures EntryOf(e) == e
  {
    BeforeAbsent(e, '#');
    NoSpaceIsTrimmed(e);
    NoScheme(e);
    BeforeAbsent(e, '/');
  }

  lemma ExactForm(h: string)
    requires PlainEntry(h) && NoPort(h)
    ensures RuleOf(h) == Some(Exact(Lower(h)))
  {
    BareEntry(h);
    PlainNormalizes(h);
  }

  lemma SuffixForm(mark: string, h: string)
    requires PlainEntry(h) && NoPort(h) && (mark == "*." || mark == ".")
    ensures RuleOf(mark + h) == Some(Suffix(Lower(h)))
  {
    BareEntry(mark + h);
    PlainNormalizes(h);
    assert (mark + h)[|mark|..] == h;
  }

  /** The exact form and the two suffix forms. */
  lemma RuleForms(h: string)
    requires PlainEntry(h) && NoPort(h)
    ensures RuleOf(h) == Some(Exact(Lower(h)))
    ensures RuleOf("*." + h) == Some(Suffix(Lower(h))) == RuleOf("." + h)
  {
    ExactForm(h);
    SuffixForm("*.", h);
    SuffixForm(".", h);
  }

  /** An address in brackets, with or without a port, is the exact entry of that address. */
  lemma BracketedEntry(a: string, rest: string)
    requires a != [] && Last(a) != '.' && NoSpace(a) && ']' !in a && '#' !in a && '/' !in a
    requires NoSpace(rest) && '#' !in rest && '/' !in rest
    ensures RuleOf("[" + a + "]" + rest) == Some(Exact(Lower(a)))
  {
    BareEntry("[" + a + "]" + rest);
    BracketsAreOpened(a, rest);
  }

  lemma {:induction false} TrimStartSpaceAfter(e: string)
    ensures TrimStart(e + " ") == if TrimStart(e) == [] then [] else TrimStart(e) + " "
  {
    if e == [] {
      assert e + " " == " " && " "[1..] == [];
    } else if IsWhitespace(e[0]) {
      assert (e + " ")[1..] == e[1..] + " ";
      TrimStartSpaceAfter(e[1..]);
    }
  }

  lemma TrimSpaceAfter(e: string)
    ensures Trim(e + " ") == Trim(e)
  {
    TrimStartSpaceAfter(e);
    var s := TrimStart(e) + " ";
    assert s[..|s| - 1] == TrimStart(e) && IsWhitespace(s[|s| - 1]);
  }

  /** A comment behind any entry (with scheme, path or port), with or without a space in front of
      it, changes nothing, and a line that is only a comment is no rule. */
  lemma CommentsAreIgnored(e: string, note: string)
    requires '#' !in e
    ensures RuleOf(e + "#" + note) == RuleOf(e) == RuleOf(e + " #" + note) && RuleOf("#" + note) == None
  {
    BeforeConcat(e, note, '#');
    var s := e + " ";
    assert e + " #" + note == s + "#" + note;
    BeforeConcat(s, note, '#');
    BeforeAbsent(s, '#');
    BeforeAbsent(e, '#');
    TrimSpaceAfter(e);
    EmptyEntry();
  }

  /** A pasted URL stands for its host and port, never for its scheme or path. */
  lemma PastedUrl(scheme: string, e: string, path: string)
    requires NoSpace(scheme) && ':' !in scheme && '#' !in scheme
    requires NoSpace(e) && '#' !in e && '/' !in e
    requires NoSpace(path) && '#' !in path
    ensures RuleOf(scheme + "://" + e + "/" + path) == RuleOf(e) == RuleOf(scheme + "://" + e)
  {
    var rest := e + "/" + path;
    var s, t := scheme + "://" + rest, scheme + "://" + e;
    assert s == scheme + "://" + e + "/" + path;
    BeforeAbsent(s, '#');
    BeforeAbsent(t, '#');
    NoSpaceIsTrimmed(s);
    NoSpaceIsTrimmed(t);
    SchemeSplits(scheme, rest);
    SchemeSplits(scheme, e);
    BeforeConcat(e, path, '/');
    BeforeAbsent(e, '/');
    NoSpaceIsTrimmed(e);
    BareEntry(e);
  }

  /** So a pasted URL with a port blocks the host. */
  lemma PastedUrlWithPort(scheme: string, h: string, port: string, path: string)
    requires NoSpace(scheme) && ':' !in scheme && '#' !in scheme
    requires PlainEntry(h) && ':' !in h && NoSpace(port) && ':' !in port && '#' !in port && '/' !in port
    requires NoSpace(path) && '#' !in path
    ensures RuleOf(scheme + "://" + (h + ":" + port) + "/" + path) == Some(Exact(Lower(h)))
  {
    var e := h + ":" + port;
    PastedUrl(scheme, e, path);
    BareEntry(e);
    PortIsCut(h, port);
  }
}
