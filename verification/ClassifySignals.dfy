/** What each signal of the flow classifier says by itself, and which of two signals wins. */
module ClassifySignals {
  import opened Base
  import opened Text
  import opened Classify
  import ClassifyLaws
  import Utf8Laws

  // ----- The stronger signal wins -----

  /** The strongest thing there is to say about an HTTP flow. */
  datatype Evidence =
    | ManifestBody(c: Classification)
    | Says(family: Family, signal: Signal)
    | LooksTextual
    | NoEvidence

  /** A manifest body, a declared type, a magic number, an extension, the look of HTML. */
  function StrongestOf(manifest: Option<Classification>, declared: Option<Family>, magic: Option<Family>,
                       extension: Option<Family>, html: bool): Evidence {
    if manifest.Some? then ManifestBody(manifest.value)
    else if declared.Some? then Says(declared.value, Declared)
    else if magic.Some? then Says(magic.value, Magic)
    else if extension.Some? then Says(extension.value, Extension)
    else if html then LooksTextual
    else NoEvidence
  }

  function Declares(ct: Option<string>): Option<Family> {
    if ct.Some? then DeclaredFamily(ct.value) else None
  }

  function Ends(path: Option<string>): Option<Family> {
    if path.Some? then ExtensionFamily(path.value) else None
  }

  function Strongest(channel: SourceChannel, path: Option<string>, ct: Option<string>, body: Bytes): Evidence {
    StrongestOf(SniffManifest(body, channel), Declares(ct), MagicFamily(body), Ends(path), HtmlLike(body))
  }

  function Concluded(channel: SourceChannel, e: Evidence): Classification {
    match e
    case ManifestBody(c) => c
    case Says(family, signal) => OfFamily(family, channel, signal)
    case LooksTextual => TextWeb(TextualDefault)
    case NoEvidence => Classification(UnspecifiedKind, channel, Other, NoSignal)
  }

  lemma EmptyPath()
    ensures ExtensionFamily("") == None
  {
    assert ExtensionOf("") == None;
  }

  /** A textual type is a declared signal, so the default only asks about the body. */
  lemma TextualIsDeclared(ct: string)
    requires IsTextualCt(ct)
    ensures DeclaredFamily(ct).Some?
  {
  }

  lemma FromAnswers(channel: SourceChannel, manifest: Option<Classification>, declared: Option<Family>,
                    magic: Option<Family>, extension: Option<Family>, textual: bool, html: bool)
    requires declared.None? ==> textual == html
    ensures HttpOf(channel, manifest, declared, magic, extension, textual)
         == Concluded(channel, StrongestOf(manifest, declared, magic, extension, html))
  {
  }

  lemma ByEvidence(channel: SourceChannel, path: Option<string>, ct: Option<string>, body: Bytes)
    ensures ClassifyHttp(channel, path, ct, body) == Concluded(channel, Strongest(channel, path, ct, body))
  {
    EmptyPath();
    if ct.Some? && IsTextualCt(ct.value) { TextualIsDeclared(ct.value); }
    FromAnswers(channel, SniffManifest(body, channel), Declares(ct), MagicFamily(body), Ends(path),
      (ct.Some? && IsTextualCt(ct.value)) || HtmlLike(body), HtmlLike(body));
  }

  // ----- Manifests -----

  function TrimBoms(s: string): string {
    if s != [] && s[0] == '\U{FEFF}' then TrimBoms(s[1..]) else s
  }

  lemma BlankOfWide(b: Bytes, v: int)
    requires |b| >= 3 && 0x800 <= v < 0x1_0000
    requires b[0] == 0xE0 + v / 4096 && b[1] == 0x80 + v / 64 % 64 && b[2] == 0x80 + v % 64
    ensures BlankWidth(b)
         == if 0x2000 <= v <= 0x200A || v in {0x1680, 0x2028, 0x2029, 0x202F, 0x205F, 0x3000} then 3 else 0
  {
    var b0: int, b1: int, b2: int := b[0], b[1], b[2];
    assert v == (b0 - 0xE0) * 4096 + (b1 - 0x80) * 64 + (b2 - 0x80);
  }

  lemma BlankOfNarrow(b: Bytes, v: int)
    requires |b| >= 2 && 0x80 <= v < 0x800 && b[0] == 0xC0 + v / 64 && b[1] == 0x80 + v % 64
    ensures BlankWidth(b) == if v == 0x85 || v == 0xA0 then 2 else 0
  {
  }

  /** The byte test for white space finds exactly the encoded white-space characters. */
  lemma BlankOfChar(c: char, rest: Bytes)
    ensures BlankWidth(Utf8(c) + rest) == if IsWhitespace(c) then Width(c) else 0
  {
    var b := Utf8(c) + rest;
    assert b[0] == Utf8(c)[0] && (|Utf8(c)| > 1 ==> b[1] == Utf8(c)[1]) && (|Utf8(c)| > 2 ==> b[2] == Utf8(c)[2]);
    if Width(c) == 2 {
      BlankOfNarrow(b, c as int);
    } else if Width(c) == 3 {
      BlankOfWide(b, c as int);
    }
  }

  lemma BomOfChar(c: char, rest: Bytes)
    ensures var b := Utf8(c) + rest;
            (|b| >= 3 && b[0] == 0xEF && b[1] == 0xBB && b[2] == 0xBF) <==> c == '\U{FEFF}'
  {
    var b, v := Utf8(c) + rest, c as int;
    assert b[0] == Utf8(c)[0] && (|Utf8(c)| > 1 ==> b[1] == Utf8(c)[1]) && (|Utf8(c)| > 2 ==> b[2] == Utf8(c)[2]);
    if Width(c) == 3 {
      var b0: int, b1: int, b2: int := b[0], b[1], b[2];
      assert v == (b0 - 0xE0) * 4096 + (b1 - 0x80) * 64 + (b2 - 0x80);
    }
  }

  /** Skipping blanks and byte-order marks on the bytes of a text is trimming the text. */
  lemma {:induction false} SkipBlankIsTrim(s: string)
    ensures SkipBlank(AsBytes(s)) == AsBytes(TrimStart(s))
  {
    if s != [] {
      var rest := AsBytes(s[1..]);
      BlankOfChar(s[0], rest);
      if IsWhitespace(s[0]) {
        SkipBlankIsTrim(s[1..]);
        assert AsBytes(s)[Width(s[0])..] == rest;
      }
    }
  }

  lemma {:induction false} SkipBomsIsTrim(s: string)
    ensures SkipBoms(AsBytes(s)) == AsBytes(TrimBoms(s))
  {
    if s != [] {
      var rest := AsBytes(s[1..]);
      BomOfChar(s[0], rest);
      if s[0] == '\U{FEFF}' {
        SkipBomsIsTrim(s[1..]);
        assert AsBytes(s)[3..] == rest;
      }
    }
  }

  predicate AsciiText(pattern: string) {
    forall i :: 0 <= i < |pattern| ==> pattern[i] < '\U{80}'
  }

  lemma {:induction false} AsciiPrefix(s: string, pattern: string)
    requires AsciiText(pattern)
    ensures HasAt(AsBytes(s), 0, pattern) <==> pattern <= s
  {
    if pattern != [] && s != [] {
      var rest := AsBytes(s[1..]);
      AsciiPrefix(s[1..], pattern[1..]);
      HasAtStep(Utf8(s[0]), rest, pattern);
      assert pattern <= s <==> pattern[0] == s[0] && pattern[1..] <= s[1..];
    }
  }

  lemma HasAtStep(first: Bytes, rest: Bytes, pattern: string)
    requires pattern != [] && first != [] && pattern[0] < '\U{80}' && (|first| > 1 ==> first[0] >= 0x80)
    ensures HasAt(first + rest, 0, pattern) <==> first[0] == pattern[0] as int && HasAt(rest, 0, pattern[1..])
  {
    var b := first + rest;
    if HasAt(b, 0, pattern) {
      assert b[0 + 0] == pattern[0] as int && |first| == 1;
      forall k | 0 <= k < |pattern[1..]| ensures rest[0 + k] == pattern[1..][k] as int {
        assert b[0 + (k + 1)] == pattern[k + 1] as int;
      }
    }
    if first[0] == pattern[0] as int && HasAt(rest, 0, pattern[1..]) {
      forall k | 0 <= k < |pattern| ensures b[0 + k] == pattern[k] as int {
        if k > 0 { assert rest[0 + (k - 1)] == pattern[1..][k - 1] as int; }
      }
    }
  }

  lemma HasAtShift(b: Bytes, i: nat, pattern: string)
    requires i <= |b|
    ensures HasAt(b, i, pattern) <==> HasAt(b[i..], 0, pattern)
  {
    if HasAt(b, i, pattern) {
      forall k | 0 <= k < |pattern| ensures b[i..][0 + k] == pattern[k] as int {
        assert b[i + k] == pattern[k] as int;
      }
    }
    if HasAt(b[i..], 0, pattern) {
      forall k | 0 <= k < |pattern| ensures b[i + k] == pattern[k] as int {
        assert b[i..][0 + k] == pattern[k] as int;
      }
    }
  }

  /** Where the bytes of a pattern are found in a text its characters stand. */
  lemma FoundInText(s: string, pattern: string, i: nat) returns (j: nat)
    requires AsciiText(pattern) && pattern != [] && HasAt(AsBytes(s), i, pattern)
    ensures j <= |s| && pattern <= s[j..]
  {
    var b := AsBytes(s);
    assert b[i + 0] == pattern[0] as int;
    j := Utf8Laws.AsciiByteIsCharacter(s, i);
    assert s[j..] == [s[j]] + s[j + 1..];
    assert b[i..] == [b[i]] + b[i + 1..];
    assert AsBytes(s[j..]) == b[i..];
    HasAtShift(b, i, pattern);
    AsciiPrefix(s[j..], pattern);
  }

  lemma StandsInBytes(s: string, pattern: string, j: nat)
    requires AsciiText(pattern) && j <= |s| && pattern <= s[j..]
    ensures Contains(AsBytes(s), pattern)
  {
    AsciiPrefix(s[j..], pattern);
    Utf8Laws.AsBytesConcat(s[..j], s[j..]);
    assert s == s[..j] + s[j..];
    var i := |AsBytes(s[..j])|;
    assert AsBytes(s)[i..] == AsBytes(s[j..]);
    HasAtShift(AsBytes(s), i, pattern);
  }

  /** Searching the bytes of a text for ASCII is searching its characters. */
  lemma ContainsIsSubstring(s: string, pattern: string)
    requires AsciiText(pattern) && pattern != []
    ensures Contains(AsBytes(s), pattern) <==> exists j :: 0 <= j <= |s| && pattern <= s[j..]
  {
    if Contains(AsBytes(s), pattern) {
      var i :| 0 <= i <= |AsBytes(s)| && HasAt(AsBytes(s), i, pattern);
      var j := FoundInText(s, pattern, i);
    }
    if j :| 0 <= j <= |s| && pattern <= s[j..] { StandsInBytes(s, pattern, j); }
  }

  /** Lowering the bytes of a text is lowering its letters. */
  lemma {:induction false} LowerBytesIsLower(s: string)
    ensures LowerBytes(AsBytes(s)) == AsBytes(Lower(s))
  {
    if s != [] {
      LowerBytesIsLower(s[1..]);
      var first, rest := Utf8(s[0]), AsBytes(s[1..]);
      assert LowerBytes(first + rest) == LowerBytes(first) + LowerBytes(rest);
      assert LowerBytes(first) == Utf8(LowerChar(s[0]));
    } else {
      assert LowerBytes([]) == [];
    }
  }

  /** The peeked part of a body behind its byte-order marks and leading white space. */
  function TrimmedPeek(body: Bytes): Bytes {
    SkipBlank(SkipBoms(Peek(body, 4096)))
  }

  /** An HLS playlist: the mark stands first, behind byte-order marks and white space. */
  predicate HlsBody(body: Bytes) {
    StartsWith(TrimmedPeek(body), "#EXTM3U")
  }

  lemma {:induction false} BlankFits(b: Bytes)
    ensures |SkipBlank(b)| <= |b|
  {
    if BlankWidth(b) > 0 { BlankFits(b[BlankWidth(b)..]); }
  }

  lemma {:induction false} BomsFit(b: Bytes)
    ensures |SkipBoms(b)| <= |b|
  {
    if |b| >= 3 { BomsFit(b[3..]); }
  }

  lemma BlankWidthOfCut(b: Bytes, n: nat)
    requires n <= |b|
    ensures BlankWidth(b[..n]) == if BlankWidth(b) <= n then BlankWidth(b) else 0
  {
  }

  /** Behind white space, the beginning of a body shows the mark exactly when the mark ends in it. */
  lemma {:induction false} BlankPeek(b: Bytes, n: nat)
    requires n <= |b|
    ensures StartsWith(SkipBlank(b[..n]), "#EXTM3U")
       <==> StartsWith(SkipBlank(b), "#EXTM3U") && |b| - |SkipBlank(b)| + 7 <= n
  {
    var w := BlankWidth(b);
    BlankWidthOfCut(b, n);
    if 0 < w <= n {
      BlankPeek(b[w..], n - w);
      assert b[..n][w..] == b[w..][..n - w];
    } else if n < w {
      BlankFits(b[w..]);
    } else {
      StartsEarly(b, n);
    }
  }

  lemma StartsEarly(b: Bytes, n: nat)
    requires n <= |b|
    ensures StartsWith(b[..n], "#EXTM3U") <==> StartsWith(b, "#EXTM3U") && 7 <= n
  {
    if n >= 7 { ClassifyLaws.SameEarly(b, n, 0, "#EXTM3U"); }
  }

  lemma {:induction false} BomPeek(b: Bytes, n: nat)
    requires n <= |b|
    ensures var k := |b| - |SkipBoms(b)|;
            if 0 <= k <= n then SkipBoms(b[..n]) == SkipBoms(b)[..n - k] else |SkipBoms(b[..n])| < 3
  {
    BomsFit(b);
    if |b| >= 3 && b[0] == 0xEF && b[1] == 0xBB && b[2] == 0xBF {
      BomsFit(b[3..]);
      if n >= 3 {
        BomPeek(b[3..], n - 3);
        assert b[..n][3..] == b[3..][..n - 3];
      }
    }
  }

  /** Cutting a body short hides the mark exactly when the mark does not end in what is left. */
  lemma CutShowsMark(b: Bytes, n: nat)
    requires n <= |b|
    ensures var rest := SkipBlank(SkipBoms(b));
            StartsWith(SkipBlank(SkipBoms(b[..n])), "#EXTM3U") <==> StartsWith(rest, "#EXTM3U") && |b| - |rest| + 7 <= n
  {
    var k := |b| - |SkipBoms(b)|;
    BomsFit(b);
    BomPeek(b, n);
    BlankFits(SkipBoms(b));
    if k <= n {
      BlankPeek(SkipBoms(b), n - k);
    } else {
      BlankFits(SkipBoms(b[..n]));
    }
  }

  /** The same of the whole body. */
  function TrimmedBody(body: Bytes): Bytes {
    SkipBlank(SkipBoms(body))
  }

  lemma MarkInPeek(b: Bytes)
    ensures HlsBody(b) <==> StartsWith(TrimmedBody(b), "#EXTM3U") && |b| - |TrimmedBody(b)| + 7 <= 4096
  {
    CutShowsMark(b, Min(4096, |b|));
    BomsFit(b);
    BlankFits(SkipBoms(b));
  }

  lemma TrimmedText(s: string)
    ensures TrimmedBody(AsBytes(s)) == AsBytes(TrimStart(TrimBoms(s)))
  {
    SkipBomsIsTrim(s);
    SkipBlankIsTrim(TrimBoms(s));
  }

  /** The body of a text is a playlist exactly when the text, without byte-order marks and leading
      white space, starts with the mark, and the mark ends within the first 4096 bytes. */
  lemma PlaylistText(s: string)
    ensures var rest := TrimStart(TrimBoms(s));
            HlsBody(AsBytes(s)) <==> "#EXTM3U" <= rest && |AsBytes(s)| - |AsBytes(rest)| + 7 <= 4096
  {
    MarkInPeek(AsBytes(s));
    TrimmedText(s);
    AsciiPrefix(TrimStart(TrimBoms(s)), "#EXTM3U");
  }

  lemma NothingToTrim()
    ensures TrimmedPeek([]) == []
  {
    assert Peek([], 4096) == [];
  }

  // ----- HTML -----

  /** The sniff accepts exactly a body whose first 512 bytes are an optional byte-order mark, any
      ASCII white space, and then one of the five marks in any letter case. */
  lemma HtmlLikeMeans(body: Bytes)
    ensures HtmlLike(body)
       <==> exists n :: 0 <= n <= |WithoutBom(Peek(body, 512))| && SpacesThenMark(WithoutBom(Peek(body, 512)), n)
  {
    SkipsToMark(WithoutBom(Peek(body, 512)));
  }

  predicate SpacesThenMark(b: Bytes, n: nat)
    requires n <= |b|
  {
    && (forall i :: 0 <= i < n ==> b[i] == 9 || b[i] == 10 || b[i] == 12 || b[i] == 13 || b[i] == 32)
    && var lower := LowerBytes(Peek(b[n..], 64));
       || StartsWith(lower, "<!doctype html") || StartsWith(lower, "<html") || StartsWith(lower, "<?xml")
       || StartsWith(lower, "<head") || StartsWith(lower, "<body")
  }

  lemma MarkIsNoSpace(b: Bytes)
    requires HtmlStart(b)
    ensures b != [] && !AsciiSpace(b[0])
  {
    var lower := LowerBytes(Peek(b, 64));
    assert lower != [] && lower[0 + 0] == '<' as int by {
      assert "<!doctype html"[0] == '<' && "<html"[0] == '<' && "<?xml"[0] == '<';
      assert "<head"[0] == '<' && "<body"[0] == '<';
    }
  }

  lemma {:induction false} SkipsToMark(b: Bytes)
    ensures HtmlStart(SkipAsciiSpace(b)) <==> exists n :: 0 <= n <= |b| && SpacesThenMark(b, n)
  {
    if b != [] && AsciiSpace(b[0]) {
      SkipsToMark(b[1..]);
      if n :| 0 <= n <= |b[1..]| && SpacesThenMark(b[1..], n) {
        assert b[1..][n..] == b[n + 1..];
        assert SpacesThenMark(b, n + 1);
      }
      if n :| 0 <= n <= |b| && SpacesThenMark(b, n) {
        assert b[0..] == b;
        if n == 0 { MarkIsNoSpace(b); }
        assert b[1..][n - 1..] == b[n..];
        assert SpacesThenMark(b[1..], n - 1);
      }
    } else {
      assert b[0..] == b;
      if HtmlStart(b) { assert SpacesThenMark(b, 0); }
      if n :| 0 <= n <= |b| && SpacesThenMark(b, n) {
        assert n == 0;
      }
    }
  }

  // ----- Extensions -----

  lemma {:induction false} AfterLastFound(p: string, c: char, t: string)
    requires c !in t
    ensures AfterLast(t, c).None? && AfterLast(p + [c] + t, c) == Some(t)
  {
    AfterLastAbsent(t, c);
    var s := p + [c] + t;
    if p == [] {
      assert s[1..] == t;
    } else {
      assert s[1..] == p[1..] + [c] + t;
      AfterLastFound(p[1..], c, t);
    }
  }

  lemma {:induction false} AfterLastAbsent(t: string, c: char)
    requires c !in t
    ensures AfterLast(t, c).None?
  {
    if t != [] { AfterLastAbsent(t[1..], c); }
  }

  predicate PlainPart(s: string) {
    '?' !in s && '#' !in s
  }

  lemma CutsTail(p: string, tail: string)
    requires PlainPart(p) && (tail == [] || tail[0] == '?' || tail[0] == '#')
    ensures Before(Before(p + tail, '?'), '#') == p
  {
    BeforeAbsent(p, '?');
    BeforeAbsent(p, '#');
    if tail == [] {
      assert p + tail == p;
    } else if tail[0] == '?' {
      assert p + tail == p + "?" + tail[1..];
      BeforeConcat(p, tail[1..], '?');
    } else {
      assert p + tail == p + "#" + tail[1..];
      FragmentFirst(p, tail[1..]);
    }
  }

  /** A query mark inside a fragment cuts nothing more off. */
  lemma FragmentFirst(p: string, rest: string)
    requires PlainPart(p)
    ensures Before(Before(p + "#" + rest, '?'), '#') == p
  {
    var s := p + "#" + rest;
    BeforeFits(s, '?');
    var q := Before(s, '?');
    BeforeReaches(p + "#", rest, '?');
    assert q == p + "#" + q[|p| + 1..];
    BeforeConcat(p, q[|p| + 1..], '#');
    BeforeAbsent(p, '#');
  }

  lemma {:induction false} BeforeReaches(p: string, rest: string, c: char)
    requires c !in p
    ensures p <= Before(p + rest, c)
  {
    if p != [] {
      assert (p + rest)[1..] == p[1..] + rest;
      BeforeReaches(p[1..], rest, c);
    }
  }

  /** The extension is what follows the last dot of the last path segment, in lower case;
      directories, query and fragment never matter. */
  lemma ExtensionIsLastSuffix(dir: string, name: string, ext: string, tail: string)
    requires PlainPart(dir) && PlainPart(name) && PlainPart(ext) && ext != []
    requires '/' !in name && '/' !in ext && '.' !in ext
    requires tail == [] || tail[0] == '?' || tail[0] == '#'
    ensures ExtensionOf(dir + "/" + (name + "." + ext) + tail) == Some(Lower(ext))
    ensures ExtensionOf(name + "." + ext + tail) == Some(Lower(ext))
  {
    var file := name + "." + ext;
    CutsTail(dir + "/" + file, tail);
    CutsTail(file, tail);
    AfterLastFound(dir, '/', file);
    AfterLastFound(name, '.', ext);
  }

  /** A dot in a directory name makes no extension. */
  lemma NoExtensionWithoutDot(dir: string, name: string, tail: string)
    requires PlainPart(dir) && PlainPart(name) && '/' !in name && '.' !in name
    requires tail == [] || tail[0] == '?' || tail[0] == '#'
    ensures ExtensionOf(dir + "/" + name + tail) == None
  {
    CutsTail(dir + "/" + name, tail);
    AfterLastFound(dir, '/', name);
    AfterLastAbsent(name, '.');
  }
}
