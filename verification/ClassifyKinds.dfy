/** What a flow must say to be classified as video, image, audio, text or manifest: by the words of
    its declared type, the first bytes of its body, and the word behind the last dot of its path. */
module ClassifyKinds {
  import opened Base
  import opened Text
  import opened Classify
  import opened ClassifySignals
  import ClassifyLaws

  // ----- Declared types -----

  predicate ManifestWord(ct: string) {
    || ct == "application/vnd.apple.mpegurl" || ct == "application/x-mpegurl" || ct == "audio/mpegurl"
    || ct == "application/dash+xml"
  }

  predicate VideoWord(ct: string) {
    "video/" <= ct || ct == "application/mp4"
  }

  predicate AudioWord(ct: string) {
    "audio/" <= ct && ct != "audio/mpegurl"
  }

  predicate ImageWord(ct: string) {
    "image/" <= ct
  }

  predicate TextWord(ct: string) {
    "text/" <= ct || ct == "application/xhtml+xml" || ct == "application/json"
  }

  /** The types the classifier knows. */
  predicate KnownWord(ct: string) {
    ManifestWord(ct) || VideoWord(ct) || AudioWord(ct) || ImageWord(ct) || TextWord(ct)
  }

  lemma PrefixWord(ct: string)
    ensures "video/" <= ct ==> ct[0] == 'v'
    ensures "audio/" <= ct ==> ct[0] == 'a' && ct[1] == 'u'
    ensures "image/" <= ct ==> ct[0] == 'i'
    ensures "text/" <= ct ==> ct[0] == 't'
  {
  }

  /** Application types, told apart by length and the letter behind the slash. */
  lemma ApplicationWord(ct: string)
    ensures ct == "application/vnd.apple.mpegurl" ==> |ct| == 29 && ct[1] == 'p'
    ensures ct == "application/x-mpegurl" ==> |ct| == 21 && ct[1] == 'p' && ct[12] == 'x' && ct[13] == '-'
    ensures ct == "application/dash+xml" ==> |ct| == 20 && ct[1] == 'p'
    ensures ct == "application/mp4" ==> |ct| == 15 && ct[1] == 'p'
    ensures ct == "application/xhtml+xml" ==> |ct| == 21 && ct[1] == 'p' && ct[13] == 'h'
    ensures ct == "application/json" ==> |ct| == 16 && ct[1] == 'p'
    ensures "application/" <= ct ==> ct[0] == 'a' && ct[1] == 'p'
  {
  }

  lemma DeclaredByWord(ct: string)
    ensures DeclaredFamily(ct) == Some(PlaylistFamily) <==> ManifestWord(ct)
    ensures DeclaredFamily(ct) == Some(VideoFamily) <==> VideoWord(ct)
    ensures DeclaredFamily(ct) == Some(AudioFamily) <==> AudioWord(ct)
    ensures DeclaredFamily(ct) == Some(ImageFamily) <==> ImageWord(ct)
    ensures DeclaredFamily(ct) == Some(TextFamily) <==> TextWord(ct)
  {
    PrefixWord(ct);
    ApplicationWord(ct);
  }

  /** Where a name first stands among the headers, its value is the one that counts. */
  lemma {:induction false} FirstHeaderCounts(headers: seq<Header>, name: string, i: nat)
    requires i < |headers| && headers[i].name == name && forall k :: 0 <= k < i ==> headers[k].name != name
    ensures HeaderValue(headers, name) == Some(headers[i].value)
  {
    if i > 0 { FirstHeaderCounts(headers[1..], name, i - 1); }
  }

  /** A declared type is its lower-case word, whatever space surrounds it and whatever parameters follow. */
  lemma ParametersNeverMatter(headers: seq<Header>, i: nat, word: string, tail: string)
    requires i < |headers| && headers[i].name == "content-type" && headers[i].value == word + tail
    requires forall k :: 0 <= k < i ==> headers[k].name != "content-type"
    requires ';' !in word && (tail == [] || tail[0] == ';')
    ensures ContentType(headers) == Some(Lower(Trim(word)))
  {
    FirstHeaderCounts(headers, "content-type", i);
    BeforeAbsent(word, ';');
    if tail == [] {
      assert word + tail == word;
    } else {
      assert word + tail == word + [';'] + tail[1..];
      BeforeConcat(word, tail[1..], ';');
    }
  }

  // ----- First bytes -----

  /** JPEG, PNG, GIF, BMP or WEBP. */
  predicate PictureBytes(b: Bytes) {
    && |b| >= 4
    && (|| b[..3] == [0xFF, 0xD8, 0xFF] || b[..4] == [0x89, 0x50, 0x4E, 0x47] || StartsWith(b, "GIF87a")
        || StartsWith(b, "GIF89a") || StartsWith(b, "BM") || (StartsWith(b, "RIFF") && HasAt(b, 8, "WEBP")))
  }

  predicate WaveBytes(b: Bytes) {
    StartsWith(b, "RIFF") && HasAt(b, 8, "WAVE")
  }

  predicate Mp4Bytes(b: Bytes) {
    HasAt(b, 4, "ftyp") || HasAt(b, 4, "styp") || HasAt(b, 4, "moof") || HasAt(b, 4, "moov")
  }

  /** An audio brand counts only behind a whole box type. */
  predicate Mp4Audio(b: Bytes) {
    Mp4Bytes(b) && (HasAt(b, 8, "M4A ") || HasAt(b, 8, "M4B "))
  }

  /** A transport stream, or a WebM or Matroska file. */
  predicate StreamBytes(b: Bytes) {
    |b| >= 4 && ((b[0] == 0x47 && (|b| >= 189 ==> b[188] == 0x47)) || b[..4] == [0x1A, 0x45, 0xDF, 0xA3])
  }

  /** MP3, Ogg or FLAC. */
  predicate TuneBytes(b: Bytes) {
    && |b| >= 4
    && (StartsWith(b, "ID3") || (b[0] == 0xFF && b[1] >= 0xE0) || StartsWith(b, "OggS") || StartsWith(b, "fLaC"))
  }

  predicate SoundBytes(b: Bytes) {
    !PictureBytes(b)
    && (WaveBytes(b) || Mp4Audio(b) || (!Mp4Bytes(b) && !StreamBytes(b) && TuneBytes(b)))
  }

  predicate MovieBytes(b: Bytes) {
    !PictureBytes(b) && !WaveBytes(b) && !Mp4Audio(b) && (Mp4Bytes(b) || StreamBytes(b))
  }

  predicate NoSignature(b: Bytes) {
    !PictureBytes(b) && !SoundBytes(b) && !MovieBytes(b)
  }

  lemma ImageByBytes(b: Bytes)
    requires |b| >= 4
    ensures ImageMagic(b) <==> PictureBytes(b)
  {
    assert HasAt(b, 1, "PNG") <==> b[1] == 0x50 && b[2] == 0x4E && b[3] == 0x47 by {
      assert "PNG"[0] == 'P' && "PNG"[1] == 'N' && "PNG"[2] == 'G';
      if HasAt(b, 1, "PNG") {
        assert b[1 + 0] == 'P' as int && b[1 + 1] == 'N' as int && b[1 + 2] == 'G' as int;
      }
    }
  }

  lemma BoxTooShort(b: Bytes)
    ensures Mp4Bytes(b) ==> |b| >= 8 && b[5] != '4' as int
    ensures HasAt(b, 4, "M4A ") || HasAt(b, 4, "M4B ") ==> b[5] == '4' as int
  {
    if HasAt(b, 4, "ftyp") { assert b[4 + 1] == "ftyp"[1] as int; }
    if HasAt(b, 4, "styp") { assert b[4 + 1] == "styp"[1] as int; }
    if HasAt(b, 4, "moof") { assert b[4 + 1] == "moof"[1] as int; }
    if HasAt(b, 4, "moov") { assert b[4 + 1] == "moov"[1] as int; }
    if HasAt(b, 4, "M4A ") { assert b[4 + 1] == "M4A "[1] as int; }
    if HasAt(b, 4, "M4B ") { assert b[4 + 1] == "M4B "[1] as int; }
  }

  lemma SignedBy(b: Bytes)
    ensures MagicFamily(b) == Some(ImageFamily) <==> PictureBytes(b)
    ensures MagicFamily(b) == Some(AudioFamily) <==> SoundBytes(b)
    ensures MagicFamily(b) == Some(VideoFamily) <==> MovieBytes(b)
    ensures MagicFamily(b) != Some(PlaylistFamily) && MagicFamily(b) != Some(TextFamily)
  {
    BoxTooShort(b);
    if |b| >= 4 { ImageByBytes(b); }
  }

  // ----- Extensions -----

  const MANIFEST_WORDS := {"m3u8", "mpd"}
  const VIDEO_WORDS := {"ts", "m4s", "mp4", "m4v", "mov", "webm", "mkv"}
  const AUDIO_WORDS := {"mp3", "aac", "m4a", "ogg", "oga", "opus", "flac", "wav"}
  const IMAGE_WORDS := {"jpg", "jpeg", "png", "gif", "bmp", "webp", "avif", "tiff", "tif"}
  const TEXT_WORDS := {"html", "htm", "xhtml", "txt", "json"}

  predicate EndsIn(path: Option<string>, words: set<string>) {
    path.Some? && ExtensionOf(path.value).Some? && ExtensionOf(path.value).value in words
  }

  predicate EndsUnknown(path: Option<string>) {
    && !EndsIn(path, MANIFEST_WORDS) && !EndsIn(path, VIDEO_WORDS) && !EndsIn(path, AUDIO_WORDS)
    && !EndsIn(path, IMAGE_WORDS) && !EndsIn(path, TEXT_WORDS)
  }

  lemma EndsBy(path: Option<string>)
    ensures Ends(path) == Some(PlaylistFamily) <==> EndsIn(path, MANIFEST_WORDS)
    ensures Ends(path) == Some(VideoFamily) <==> EndsIn(path, VIDEO_WORDS)
    ensures Ends(path) == Some(AudioFamily) <==> EndsIn(path, AUDIO_WORDS)
    ensures Ends(path) == Some(ImageFamily) <==> EndsIn(path, IMAGE_WORDS)
    ensures Ends(path) == Some(TextFamily) <==> EndsIn(path, TEXT_WORDS)
  {
  }

  // ----- Manifest bodies -----

  predicate DashBody(body: Bytes) {
    var lower := LowerBytes(TrimmedPeek(body));
    Contains(lower, "<mpd") && (Contains(lower, "urn:mpeg:dash:schema:mpd") || Contains(lower, "dash"))
  }

  predicate ManifestBytes(body: Bytes) {
    HlsBody(body) || DashBody(body)
  }

  /** A manifest of a running broadcast: an HLS playlist marked as an event, or neither ended nor on
      demand; a DASH manifest of dynamic type. */
  predicate LiveManifest(body: Bytes) {
    if HlsBody(body) then
      var text := Peek(body, 4096);
      || Contains(text, "#EXT-X-PLAYLIST-TYPE:EVENT")
      || !(Contains(text, "#EXT-X-ENDLIST") || Contains(text, "#EXT-X-PLAYLIST-TYPE:VOD"))
    else
      var lower := LowerBytes(TrimmedPeek(body));
      DashBody(body) && (Contains(lower, "type=\"dynamic\"") || Contains(lower, "type='dynamic'"))
  }

  lemma SniffedWhen(body: Bytes, channel: SourceChannel)
    ensures var c := SniffManifest(body, channel);
            && (c.Some? <==> ManifestBytes(body))
            && (c.Some? ==>
                  && c.value.kind.UnspecifiedKind? && c.value.disposition == Manifest(LiveManifest(body))
                  && c.value.channel == if LiveManifest(body) || channel.LiveStream? then LiveStream else VideoStream)
  {
    NothingToTrim();
  }

  // ----- What a flow says -----

  /** The words of an HTTP flow, in the order they are asked for; the next counts only if none of
      those before says anything. */
  predicate HttpSays(flow: CapturedFlow, declared: bool, signed: bool, ended: bool)
    requires flow.payload.Http?
  {
    var ct := ContentType(flow.payload.headers);
    && !ManifestBytes(flow.payload.bodyPeek)
    && (declared
        || ((ct.None? || !KnownWord(ct.value)) && (signed || (NoSignature(flow.payload.bodyPeek) && ended))))
  }

  /** The same for a stream chunk, of whose declared types only video and audio count. */
  predicate ChunkSays(flow: CapturedFlow, declared: bool, ended: bool, signed: bool)
    requires flow.payload.StreamChunk?
  {
    var mime := flow.payload.mimeType;
    || declared
    || ((mime.None? || !("video/" <= StripParams(mime.value) || "audio/" <= StripParams(mime.value)))
        && (ended || (EndsUnknown(flow.payload.url) && signed)))
  }

  predicate Declares(ct: Option<string>, word: string -> bool) {
    ct.Some? && word(ct.value)
  }

  predicate SaysVideo(flow: CapturedFlow) {
    flow.readable &&
    match flow.payload
    case Http(path, headers, body) =>
      HttpSays(flow, Declares(ContentType(headers), VideoWord), MovieBytes(body), EndsIn(path, VIDEO_WORDS))
    case StreamChunk(data, mime, url) =>
      ChunkSays(flow, mime.Some? && "video/" <= StripParams(mime.value), EndsIn(url, VIDEO_WORDS),
                !PictureBytes(data) && !SoundBytes(data))
  }

  predicate SaysAudio(flow: CapturedFlow) {
    flow.readable &&
    match flow.payload
    case Http(path, headers, body) =>
      HttpSays(flow, Declares(ContentType(headers), AudioWord), SoundBytes(body), EndsIn(path, AUDIO_WORDS))
    case StreamChunk(data, mime, url) =>
      ChunkSays(flow, mime.Some? && "audio/" <= StripParams(mime.value), EndsIn(url, AUDIO_WORDS), SoundBytes(data))
  }

  predicate SaysImage(flow: CapturedFlow) {
    flow.readable &&
    match flow.payload
    case Http(path, headers, body) =>
      HttpSays(flow, Declares(ContentType(headers), ImageWord), PictureBytes(body), EndsIn(path, IMAGE_WORDS))
    case StreamChunk(data, mime, url) => ChunkSays(flow, false, EndsIn(url, IMAGE_WORDS), PictureBytes(data))
  }

  predicate SaysText(flow: CapturedFlow) {
    flow.readable &&
    match flow.payload
    case Http(path, headers, body) =>
      HttpSays(flow, Declares(ContentType(headers), TextWord), false,
               EndsIn(path, TEXT_WORDS) || (EndsUnknown(path) && HtmlLike(body)))
    case StreamChunk(_, _, url) => ChunkSays(flow, false, EndsIn(url, TEXT_WORDS), false)
  }

  predicate SaysManifest(flow: CapturedFlow) {
    flow.readable &&
    match flow.payload
    case Http(path, headers, body) =>
      || ManifestBytes(body)
      || HttpSays(flow, Declares(ContentType(headers), ManifestWord), false, EndsIn(path, MANIFEST_WORDS))
    case StreamChunk(_, _, url) => ChunkSays(flow, false, EndsIn(url, MANIFEST_WORDS), false)
  }

  /** A manifest body says itself whether it is live; any other manifest goes by its channel. */
  predicate SaysLive(flow: CapturedFlow) {
    if flow.payload.Http? && ManifestBytes(flow.payload.bodyPeek) then LiveManifest(flow.payload.bodyPeek)
    else flow.channel.LiveStream?
  }

  // ----- The classifier does what the flow says -----

  /** The classification is one of this family. */
  predicate IsOf(c: Classification, f: Family) {
    match f
    case PlaylistFamily => c.disposition.Manifest?
    case VideoFamily => c.kind.VideoKind?
    case AudioFamily => c.kind.AudioKind?
    case ImageFamily => c.kind.ImageKind?
    case TextFamily => c.kind.TextKind?
  }

  lemma HttpFamily(channel: SourceChannel, manifest: Option<Classification>, declared: Option<Family>,
                   magic: Option<Family>, extension: Option<Family>, html: bool, f: Family)
    requires manifest.Some? ==> manifest.value.kind.UnspecifiedKind? && manifest.value.disposition.Manifest?
    ensures IsOf(Concluded(channel, StrongestOf(manifest, declared, magic, extension, html)), f)
       <==> if manifest.Some? then f.PlaylistFamily?
            else declared == Some(f)
                 || (declared.None?
                     && (magic == Some(f)
                         || (magic.None?
                             && (extension == Some(f) || (extension.None? && html && f.TextFamily?)))))
  {
  }

  lemma ChunkFamily(channel: SourceChannel, declared: Option<Family>, extension: Option<Family>, magic: Option<Family>,
                    f: Family)
    requires declared.None? || declared.value.VideoFamily? || declared.value.AudioFamily?
    ensures IsOf(ChunkOf(channel, declared, extension, magic), f)
       <==> declared == Some(f)
            || (declared.None?
                && (extension == Some(f)
                    || (extension.None? && (magic == Some(f) || (magic.None? && f.VideoFamily?)))))
  {
  }

  /** What a flow says of a family. */
  predicate Says(flow: CapturedFlow, f: Family) {
    match f
    case PlaylistFamily => SaysManifest(flow)
    case VideoFamily => SaysVideo(flow)
    case AudioFamily => SaysAudio(flow)
    case ImageFamily => SaysImage(flow)
    case TextFamily => SaysText(flow)
  }

  lemma HttpIsOf(flow: CapturedFlow, f: Family)
    requires flow.readable && flow.payload.Http?
    ensures IsOf(ClassifyFlow(flow), f) <==> Says(flow, f)
  {
    var path, ct, body := flow.payload.path, ContentType(flow.payload.headers), flow.payload.bodyPeek;
    ByEvidence(flow.channel, path, ct, body);
    SniffedWhen(body, flow.channel);
    HttpFamily(flow.channel, SniffManifest(body, flow.channel), ClassifySignals.Declares(ct), MagicFamily(body),
      Ends(path), HtmlLike(body), f);
    if ct.Some? { DeclaredByWord(ct.value); }
    SignedBy(body);
    EndsBy(path);
  }

  lemma ChunkIsOf(flow: CapturedFlow, f: Family)
    requires flow.readable && flow.payload.StreamChunk?
    ensures IsOf(ClassifyFlow(flow), f) <==> Says(flow, f)
  {
    var data, mime, url := flow.payload.data, flow.payload.mimeType, flow.payload.url;
    ChunkFamily(flow.channel, ChunkDeclared(mime), Ends(url), MagicFamily(data), f);
    if mime.Some? { PrefixWord(StripParams(mime.value)); }
    SignedBy(data);
    EndsBy(url);
  }

  lemma IsOfExactly(flow: CapturedFlow, f: Family)
    ensures IsOf(ClassifyFlow(flow), f) <==> Says(flow, f)
  {
    if flow.readable {
      if flow.payload.Http? { HttpIsOf(flow, f); } else { ChunkIsOf(flow, f); }
    }
  }

  /** Every flow is classified as what it says, and as nothing else. */
  lemma KindExactly(flow: CapturedFlow)
    ensures var c := ClassifyFlow(flow);
            && (c.kind.VideoKind? <==> SaysVideo(flow)) && (c.kind.AudioKind? <==> SaysAudio(flow))
            && (c.kind.ImageKind? <==> SaysImage(flow)) && (c.kind.TextKind? <==> SaysText(flow))
            && (c.disposition.Manifest? <==> SaysManifest(flow))
  {
    IsOfExactly(flow, VideoFamily);
    IsOfExactly(flow, AudioFamily);
    IsOfExactly(flow, ImageFamily);
    IsOfExactly(flow, TextFamily);
    IsOfExactly(flow, PlaylistFamily);
  }

  lemma FromFamilies(channel: SourceChannel, e: Evidence)
    requires e.Says?
    ensures var c := Concluded(channel, e);
            && (c.disposition.Manifest? ==> c.disposition.live == channel.LiveStream?)
            && (!channel.LiveStream? ==> !c.channel.LiveStream?)
  {
  }

  /** A manifest is live exactly if it says so. */
  lemma LiveManifestExactly(flow: CapturedFlow)
    ensures ClassifyFlow(flow).disposition == Manifest(true) <==> SaysManifest(flow) && SaysLive(flow)
  {
    KindExactly(flow);
    if flow.readable && flow.payload.Http? {
      var path, ct, body := flow.payload.path, ContentType(flow.payload.headers), flow.payload.bodyPeek;
      ByEvidence(flow.channel, path, ct, body);
      SniffedWhen(body, flow.channel);
      var e := Strongest(flow.channel, path, ct, body);
      if e.Says? { FromFamilies(flow.channel, e); }
    }
  }

  /** A live flow stays live exactly unless it says it is text, and any other flow becomes live
      exactly when its body is the manifest of a running broadcast. */
  lemma LiveExactly(flow: CapturedFlow)
    ensures flow.channel.LiveStream? ==> (ClassifyFlow(flow).channel.LiveStream? <==> !SaysText(flow))
    ensures !flow.channel.LiveStream? ==>
              (ClassifyFlow(flow).channel.LiveStream?
               <==> flow.readable && flow.payload.Http? && LiveManifest(flow.payload.bodyPeek))
  {
    KindExactly(flow);
    ClassifyLaws.ClassificationCoherent(flow);
    LiveManifestExactly(flow);
  }
}
