/** Laws of the flow classifier: kinds, channels and dispositions fit together; a bounded peek
    decides; letter case never matters. */
module ClassifyLaws {
  import opened Base
  import opened Text
  import opened Classify
  import BlocklistLaws

  // ----- Kind, channel and disposition -----

  /** How the parts of a classification of a flow on `channel` fit together. */
  predicate Coherent(channel: SourceChannel, c: Classification) {
    && (c.kind.VideoKind? <==> c.disposition.BufferSegment?)
    && (c.disposition.PassThrough? <==> c.kind.TextKind? || c.kind.ImageKind? || c.kind.AudioKind?)
    && (c.disposition.BufferSegment? ==> c.disposition.live == channel.LiveStream?)
    && (c.channel.LiveStream? <==>
          !c.kind.TextKind? && (channel.LiveStream? || c.disposition == Manifest(true)))
    && (c.kind.TextKind? ==> c.channel.Web?)
    && (c.disposition.Manifest? ==> c.channel.LiveStream? || c.channel.VideoStream?)
    && (c.kind.ImageKind? || c.kind.AudioKind? || c.disposition.Other? ==> c.channel == channel)
  }

  lemma ManifestCoherent(channel: SourceChannel, body: Bytes)
    ensures SniffManifest(body, channel).Some? ==> Coherent(channel, SniffManifest(body, channel).value)
  {
  }

  lemma HttpCoherent(channel: SourceChannel, manifest: Option<Classification>, declared: Option<Family>,
                     magic: Option<Family>, extension: Option<Family>, textual: bool)
    requires manifest.Some? ==> Coherent(channel, manifest.value)
    ensures Coherent(channel, HttpOf(channel, manifest, declared, magic, extension, textual))
  {
  }

  lemma ChunkCoherent(channel: SourceChannel, declared: Option<Family>, extension: Option<Family>,
                      magic: Option<Family>)
    ensures Coherent(channel, ChunkOf(channel, declared, extension, magic))
    ensures !ChunkOf(channel, declared, extension, magic).disposition.Other?
  {
  }

  /** For every flow: video is what is buffered, with the live budget exactly on a live channel;
      a live flow stays live unless it is text, and only a live manifest makes one live; and
      readable stream chunks are never waved through unseen. */
  lemma ClassificationCoherent(flow: CapturedFlow)
    ensures Coherent(flow.channel, ClassifyFlow(flow))
    ensures ClassifyFlow(flow).disposition.Other? ==> !flow.readable || flow.payload.Http?
  {
    match flow.payload {
      case Http(path, headers, body) =>
        var ct := ContentType(headers);
        ManifestCoherent(flow.channel, body);
        HttpCoherent(flow.channel, SniffManifest(body, flow.channel),
          if ct.Some? then DeclaredFamily(ct.value) else None, MagicFamily(body),
          ExtensionFamily(if path.Some? then path.value else ""),
          (ct.Some? && IsTextualCt(ct.value)) || HtmlLike(body));
      case StreamChunk(data, mime, url) =>
        ChunkCoherent(flow.channel, ChunkDeclared(mime),
          if url.Some? then ExtensionFamily(url.value) else None, MagicFamily(data));
    }
  }

  // ----- A bounded peek decides -----

  function CutTo(flow: CapturedFlow, n: nat): CapturedFlow {
    match flow.payload
    case Http(path, headers, body) => flow.(payload := Http(path, headers, Peek(body, n)))
    case StreamChunk(data, mime, url) => flow.(payload := StreamChunk(Peek(data, n), mime, url))
  }

  lemma SameEarly(b: Bytes, n: nat, i: nat, pattern: string)
    requires n <= |b| && i + |pattern| <= n
    ensures HasAt(b[..n], i, pattern) == HasAt(b, i, pattern)
  {
    forall k | 0 <= k < |pattern| ensures b[..n][i + k] == pattern[k] as int <==> b[i + k] == pattern[k] as int {}
  }

  lemma ImageMagicPeek(b: Bytes, n: nat)
    requires 189 <= n <= |b|
    ensures ImageMagic(b[..n]) == ImageMagic(b)
  {
    SameEarly(b, n, 1, "PNG");
    SameEarly(b, n, 0, "GIF87a");
    SameEarly(b, n, 0, "GIF89a");
    SameEarly(b, n, 0, "BM");
    SameEarly(b, n, 0, "RIFF");
    SameEarly(b, n, 8, "WEBP");
  }

  lemma BoxMagicPeek(b: Bytes, n: nat)
    requires 189 <= n <= |b|
    ensures BoxMagic(b[..n]) == BoxMagic(b) && AudioBrand(b[..n]) == AudioBrand(b)
  {
    SameEarly(b, n, 4, "ftyp");
    SameEarly(b, n, 4, "styp");
    SameEarly(b, n, 4, "moof");
    SameEarly(b, n, 4, "moov");
    SameEarly(b, n, 8, "M4A ");
    SameEarly(b, n, 8, "M4B ");
  }

  lemma OtherMagicPeek(b: Bytes, n: nat)
    requires 189 <= n <= |b|
    ensures AudioMagic(b[..n]) == AudioMagic(b) && Ebml(b[..n]) == Ebml(b)
    ensures TransportStream(b[..n]) == TransportStream(b)
    ensures (StartsWith(b[..n], "RIFF") && HasAt(b[..n], 8, "WAVE")) == (StartsWith(b, "RIFF") && HasAt(b, 8, "WAVE"))
  {
    SameEarly(b, n, 0, "ID3");
    SameEarly(b, n, 0, "OggS");
    SameEarly(b, n, 0, "fLaC");
    SameEarly(b, n, 0, "RIFF");
    SameEarly(b, n, 8, "WAVE");
  }

  lemma MagicPeek(b: Bytes, n: nat)
    requires 189 <= n <= |b|
    ensures MagicFamily(b[..n]) == MagicFamily(b)
  {
    ImageMagicPeek(b, n);
    BoxMagicPeek(b, n);
    OtherMagicPeek(b, n);
  }

  lemma PeekTwice(b: Bytes, n: nat, m: nat)
    requires m <= n <= |b|
    ensures Peek(b[..n], m) == Peek(b, m)
  {
  }

  /** The first 4096 bytes of a body, or 189 of a stream chunk, decide the classification;
      whatever more the interceptor captured changes nothing. */
  lemma PeekDecides(flow: CapturedFlow, n: nat)
    requires n >= if flow.payload.Http? then 4096 else 189
    ensures ClassifyFlow(CutTo(flow, n)) == ClassifyFlow(flow)
  {
    match flow.payload {
      case Http(path, headers, body) =>
        if n < |body| {
          MagicPeek(body, n);
          PeekTwice(body, n, 4096);
          PeekTwice(body, n, 512);
        } else {
          assert Peek(body, n) == body;
        }
      case StreamChunk(data, mime, url) =>
        if n < |data| { MagicPeek(data, n); } else { assert Peek(data, n) == data; }
    }
  }

  lemma NotAt(b: Bytes, i: nat, pattern: string, k: nat)
    requires k < |pattern| && i + k < |b| && b[i + k] != pattern[k] as int
    ensures !HasAt(b, i, pattern)
  {
  }

  lemma SyncByteOnly(b: Bytes)
    requires |b| >= 12 && b[0] == 0x47 && b[1] == 0 && b[4] == 0
    ensures MagicFamily(b) == if TransportStream(b) then Some(VideoFamily) else None
  {
    NotAt(b, 0, "GIF87a", 1);
    NotAt(b, 0, "GIF89a", 1);
    NotAt(b, 0, "BM", 0);
    NotAt(b, 0, "RIFF", 0);
    NotAt(b, 4, "ftyp", 0);
    NotAt(b, 4, "styp", 0);
    NotAt(b, 4, "moof", 0);
    NotAt(b, 4, "moov", 0);
    NotAt(b, 0, "ID3", 0);
    NotAt(b, 0, "OggS", 0);
    NotAt(b, 0, "fLaC", 0);
  }

  /** 188 bytes of a chunk do not decide: the second sync byte of a transport stream is the 189th. */
  lemma ShorterPeekMisleads(data: Bytes)
    requires |data| >= 189 && data[0] == 0x47 && data[1] == 0 && data[4] == 0 && data[188] != 0x47
    ensures var flow := CapturedFlow(1, Web, "", true, StreamChunk(data, None, None));
            ClassifyFlow(flow).channel == Web && ClassifyFlow(CutTo(flow, 188)).channel == VideoStream
  {
    SyncByteOnly(data);
    SyncByteOnly(Peek(data, 188));
  }

  // ----- Letter case never matters -----

  predicate SameLetters(a: Option<string>, b: Option<string>) {
    a.Some? == b.Some? && (a.Some? ==> Lower(a.value) == Lower(b.value))
  }

  /** The same flow, up to the letter case of declared types, paths and URLs. */
  predicate SameButCase(a: CapturedFlow, b: CapturedFlow) {
    && a.channel == b.channel && a.readable == b.readable
    && match a.payload
       case Http(path, headers, body) =>
         && b.payload.Http? && body == b.payload.bodyPeek && SameLetters(path, b.payload.path)
         && SameLetters(HeaderValue(headers, "content-type"), HeaderValue(b.payload.headers, "content-type"))
       case StreamChunk(data, mime, url) =>
         && b.payload.StreamChunk? && data == b.payload.data
         && SameLetters(mime, b.payload.mimeType) && SameLetters(url, b.payload.url)
  }

  lemma StripParamsCase(a: string, b: string)
    requires Lower(a) == Lower(b)
    ensures StripParams(a) == StripParams(b)
  {
    BlocklistLaws.LowerBefore(a, ';');
    BlocklistLaws.LowerBefore(b, ';');
    BlocklistLaws.LowerTrim(Before(a, ';'));
    BlocklistLaws.LowerTrim(Before(b, ';'));
  }

  lemma {:induction false} AfterLastCase(a: string, b: string, c: char)
    requires Lower(a) == Lower(b) && !BlocklistLaws.IsLetter(c)
    ensures SameLetters(AfterLast(a, c), AfterLast(b, c))
  {
    BlocklistLaws.LowerAt(a, 0);
    BlocklistLaws.LowerAt(b, 0);
    if a != [] {
      assert Lower(a)[1..] == Lower(a[1..]) && Lower(b)[1..] == Lower(b[1..]);
      AfterLastCase(a[1..], b[1..], c);
    }
  }

  lemma ExtensionCase(a: string, b: string)
    requires Lower(a) == Lower(b)
    ensures ExtensionOf(a) == ExtensionOf(b)
  {
    BlocklistLaws.LowerBefore(a, '?');
    BlocklistLaws.LowerBefore(b, '?');
    BlocklistLaws.LowerBefore(Before(a, '?'), '#');
    BlocklistLaws.LowerBefore(Before(b, '?'), '#');
    var p, q := Before(Before(a, '?'), '#'), Before(Before(b, '?'), '#');
    AfterLastCase(p, q, '/');
    var s, t := AfterLast(p, '/'), AfterLast(q, '/');
    SegmentCase(if s.Some? then s.value else p, if t.Some? then t.value else q);
  }

  lemma SegmentCase(s: string, t: string)
    requires Lower(s) == Lower(t)
    ensures var x, y := AfterLast(s, '.'), AfterLast(t, '.');
            SameLetters(x, y) && (x.Some? ==> (x.value == [] <==> y.value == []))
  {
    AfterLastCase(s, t, '.');
    var x, y := AfterLast(s, '.'), AfterLast(t, '.');
    if x.Some? {
      BlocklistLaws.LowerAt(x.value, 0);
      BlocklistLaws.LowerAt(y.value, 0);
    }
  }

  lemma FamilyCase(u: Option<string>, v: Option<string>)
    requires SameLetters(u, v)
    ensures u.Some? ==> ExtensionFamily(u.value) == ExtensionFamily(v.value)
    ensures ChunkDeclared(u) == ChunkDeclared(v)
  {
    if u.Some? {
      ExtensionCase(u.value, v.value);
      StripParamsCase(u.value, v.value);
    }
  }

  lemma ContentTypeCase(a: seq<Header>, b: seq<Header>)
    requires SameLetters(HeaderValue(a, "content-type"), HeaderValue(b, "content-type"))
    ensures ContentType(a) == ContentType(b)
  {
    var x, y := HeaderValue(a, "content-type"), HeaderValue(b, "content-type");
    if x.Some? { StripParamsCase(x.value, y.value); }
  }

  lemma LetterCaseNeverMatters(a: CapturedFlow, b: CapturedFlow)
    requires SameButCase(a, b)
    ensures ClassifyFlow(a) == ClassifyFlow(b)
  {
    match a.payload {
      case Http(path, headers, body) =>
        ContentTypeCase(headers, b.payload.headers);
        FamilyCase(path, b.payload.path);
      case StreamChunk(data, mime, url) =>
        FamilyCase(mime, b.payload.mimeType);
        FamilyCase(url, b.payload.url);
    }
  }
}
