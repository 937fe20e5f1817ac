/** Deterministic flow classification (crates/bulwark-flow/src/classify.rs): what a captured
    flow is, which channel it belongs to, and how the delay buffer should treat it. The
    free-text reason of a classification is kept as the signal it cites. */
module Classify {
  import opened Base
  import opened Text

  datatype MediaKind = UnspecifiedKind | TextKind | ImageKind | AudioKind | VideoKind

  datatype SourceChannel = UnspecifiedChannel | Web | VideoStream | LiveStream | OcrOnscreen | NotificationChannel

  datatype Disposition = PassThrough | Manifest(live: bool) | BufferSegment(live: bool) | Other

  datatype Signal = Unreadable | Body | Declared | Magic | Extension | TextualDefault | OpaqueChunk | NoSignal

  datatype Classification =
    Classification(kind: MediaKind, channel: SourceChannel, disposition: Disposition, signal: Signal)

  datatype Header = Header(name: string, value: string)

  datatype Payload =
    | Http(path: Option<string>, headers: seq<Header>, bodyPeek: Bytes)
    | StreamChunk(data: Bytes, mimeType: Option<string>, url: Option<string>)

  datatype CapturedFlow =
    CapturedFlow(flowId: nat, channel: SourceChannel, appOrHost: string, readable: bool, payload: Payload)

  // ----- Bytes against text patterns -----

  predicate HasAt(b: Bytes, i: nat, pattern: string) {
    i + |pattern| <= |b| && forall k :: 0 <= k < |pattern| ==> b[i + k] == pattern[k] as int
  }

  predicate StartsWith(b: Bytes, pattern: string) {
    HasAt(b, 0, pattern)
  }

  predicate Contains(b: Bytes, pattern: string) {
    exists i :: 0 <= i <= |b| && HasAt(b, i, pattern)
  }

  function LowerByte(b: byte): byte {
    if 65 <= b <= 90 then b + 32 else b
  }

  function LowerBytes(b: Bytes): Bytes {
    seq(|b|, i requires 0 <= i < |b| => LowerByte(b[i]))
  }

  function Peek(b: Bytes, n: nat): Bytes {
    b[..Min(n, |b|)]
  }

  /** How many bytes of UTF-8 white space (Unicode `White_Space`) a text starts with. */
  function BlankWidth(b: Bytes): nat {
    if |b| >= 1 && (9 <= b[0] <= 13 || b[0] == 32) then 1
    else if |b| >= 2 && b[0] == 0xC2 && (b[1] == 0x85 || b[1] == 0xA0) then 2
    else if |b| < 3 then 0
    else if b[0] == 0xE1 && b[1] == 0x9A && b[2] == 0x80 then 3
    else if b[0] == 0xE2 && b[1] == 0x80 && 0x80 <= b[2] <= 0x8A then 3
    else if b[0] == 0xE2 && b[1] == 0x80 && (b[2] == 0xA8 || b[2] == 0xA9 || b[2] == 0xAF) then 3
    else if b[0] == 0xE2 && b[1] == 0x81 && b[2] == 0x9F then 3
    else if b[0] == 0xE3 && b[1] == 0x80 && b[2] == 0x80 then 3
    else 0
  }

  function SkipBoms(b: Bytes): Bytes {
    if |b| >= 3 && b[0] == 0xEF && b[1] == 0xBB && b[2] == 0xBF then SkipBoms(b[3..]) else b
  }

  function SkipBlank(b: Bytes): Bytes {
    if BlankWidth(b) == 0 then b else SkipBlank(b[BlankWidth(b)..])
  }

  // ----- Channels -----

  predicate IsLive(channel: SourceChannel) {
    channel.LiveStream?
  }

  function PromoteVideo(channel: SourceChannel): SourceChannel {
    if channel.LiveStream? then LiveStream else VideoStream
  }

  function PromoteLiveOrVideo(channel: SourceChannel, live: bool): SourceChannel {
    if channel.LiveStream? || live then LiveStream else VideoStream
  }

  function TextWeb(signal: Signal): Classification {
    Classification(TextKind, Web, PassThrough, signal)
  }

  function Image(channel: SourceChannel, signal: Signal): Classification {
    Classification(ImageKind, channel, PassThrough, signal)
  }

  function Audio(channel: SourceChannel, signal: Signal): Classification {
    Classification(AudioKind, channel, PassThrough, signal)
  }

  function BufferedVideo(channel: SourceChannel, live: bool, signal: Signal): Classification {
    Classification(VideoKind, channel, BufferSegment(live), signal)
  }

  function ManifestOf(channel: SourceChannel, live: bool, signal: Signal): Classification {
    Classification(UnspecifiedKind, channel, Manifest(live), signal)
  }

  /** What a declared type, a magic number or an extension can say. */
  datatype Family = PlaylistFamily | VideoFamily | AudioFamily | ImageFamily | TextFamily

  function OfFamily(family: Family, channel: SourceChannel, signal: Signal): Classification {
    match family
    case PlaylistFamily => ManifestOf(PromoteVideo(channel), IsLive(channel), signal)
    case VideoFamily => BufferedVideo(PromoteVideo(channel), IsLive(channel), signal)
    case AudioFamily => Audio(channel, signal)
    case ImageFamily => Image(channel, signal)
    case TextFamily => TextWeb(signal)
  }

  // ----- Signals -----

  /** `strip_ct_params`: no parameters, no surrounding space, lower case. */
  function StripParams(ct: string): string {
    Lower(Trim(Before(ct, ';')))
  }

  function HeaderValue(headers: seq<Header>, name: string): Option<string> {
    if headers == [] then None
    else if headers[0].name == name then Some(headers[0].value)
    else HeaderValue(headers[1..], name)
  }

  function ContentType(headers: seq<Header>): Option<string> {
    var value := HeaderValue(headers, "content-type");
    if value.Some? then Some(StripParams(value.value)) else None
  }

  predicate IsTextualCt(ct: string) {
    ct == "application/xhtml+xml" || ct == "application/json" || "text/" <= ct
  }

  /** `classify_content_type`. */
  function DeclaredFamily(ct: string): Option<Family> {
    if ct == "application/vnd.apple.mpegurl" || ct == "application/x-mpegurl" || ct == "audio/mpegurl" then
      Some(PlaylistFamily)
    else if ct == "application/dash+xml" then Some(PlaylistFamily)
    else if "video/" <= ct || ct == "application/mp4" then Some(VideoFamily)
    else if "audio/" <= ct then Some(AudioFamily)
    else if "image/" <= ct then Some(ImageFamily)
    else if IsTextualCt(ct) then Some(TextFamily)
    else None
  }

  predicate HlsLive(text: Bytes) {
    || (!Contains(text, "#EXT-X-ENDLIST") && !Contains(text, "#EXT-X-PLAYLIST-TYPE:VOD"))
    || Contains(text, "#EXT-X-PLAYLIST-TYPE:EVENT")
  }

  predicate DashLive(lower: Bytes) {
    Contains(lower, "type=\"dynamic\"") || Contains(lower, "type='dynamic'")
  }

  /** An HLS or DASH manifest in the first 4096 bytes of the body, whatever was declared. */
  function SniffManifest(body: Bytes, channel: SourceChannel): Option<Classification> {
    if body == [] then None
    else
      var text := Peek(body, 4096);
      var trimmed := SkipBlank(SkipBoms(text));
      if StartsWith(trimmed, "#EXTM3U") then
        Some(ManifestOf(PromoteLiveOrVideo(channel, HlsLive(text)), HlsLive(text), Body))
      else
        var lower := LowerBytes(trimmed);
        if Contains(lower, "<mpd") && (Contains(lower, "urn:mpeg:dash:schema:mpd") || Contains(lower, "dash")) then
          Some(ManifestOf(PromoteLiveOrVideo(channel, DashLive(lower)), DashLive(lower), Body))
        else None
  }

  predicate ImageMagic(b: Bytes) {
    || (|b| >= 3 && b[0] == 0xFF && b[1] == 0xD8 && b[2] == 0xFF)
    || (|b| >= 1 && b[0] == 0x89 && HasAt(b, 1, "PNG"))
    || StartsWith(b, "GIF87a") || StartsWith(b, "GIF89a")
    || StartsWith(b, "BM")
    || (StartsWith(b, "RIFF") && HasAt(b, 8, "WEBP"))
  }

  predicate BoxMagic(b: Bytes) {
    HasAt(b, 4, "ftyp") || HasAt(b, 4, "styp") || HasAt(b, 4, "moof") || HasAt(b, 4, "moov")
  }

  predicate AudioBrand(b: Bytes) {
    var at := if |b| >= 12 then 8 else 4;
    HasAt(b, at, "M4A ") || HasAt(b, at, "M4B ")
  }

  predicate TransportStream(b: Bytes) {
    |b| >= 1 && b[0] == 0x47 && (|b| < 189 || b[188] == 0x47)
  }

  predicate Ebml(b: Bytes) {
    |b| >= 4 && b[0] == 0x1A && b[1] == 0x45 && b[2] == 0xDF && b[3] == 0xA3
  }

  predicate AudioMagic(b: Bytes) {
    || StartsWith(b, "ID3")
    || (|b| >= 2 && b[0] == 0xFF && b[1] >= 0xE0)
    || StartsWith(b, "OggS")
    || StartsWith(b, "fLaC")
  }

  /** `sniff_magic`: container and codec magic numbers, in the order they are tried. */
  function MagicFamily(b: Bytes): Option<Family> {
    if |b| < 4 then None
    else if ImageMagic(b) then Some(ImageFamily)
    else if StartsWith(b, "RIFF") && HasAt(b, 8, "WAVE") then Some(AudioFamily)
    else if BoxMagic(b) then Some(if AudioBrand(b) then AudioFamily else VideoFamily)
    else if TransportStream(b) || Ebml(b) then Some(VideoFamily)
    else if AudioMagic(b) then Some(AudioFamily)
    else None
  }

  /** Everything after the last `c`, if there is one. */
  function AfterLast(s: string, c: char): Option<string> {
    if s == [] then None
    else
      var rest := AfterLast(s[1..], c);
      if rest.Some? then rest else if s[0] == c then Some(s[1..]) else None
  }

  /** The lower-case extension of the last path segment, without query and fragment. */
  function ExtensionOf(path: string): Option<string> {
    var plain := Before(Before(path, '?'), '#');
    var segment := AfterLast(plain, '/');
    var ext := AfterLast(if segment.Some? then segment.value else plain, '.');
    if ext.None? || ext.value == [] then None else Some(Lower(ext.value))
  }

  const VIDEO_EXTENSIONS := ["ts", "m4s", "mp4", "m4v", "mov", "webm", "mkv"]
  const AUDIO_EXTENSIONS := ["mp3", "aac", "m4a", "ogg", "oga", "opus", "flac", "wav"]
  const IMAGE_EXTENSIONS := ["jpg", "jpeg", "png", "gif", "bmp", "webp", "avif", "tiff", "tif"]
  const TEXT_EXTENSIONS := ["html", "htm", "xhtml", "txt", "json"]

  /** `classify_extension`. */
  function ExtensionFamily(path: string): Option<Family> {
    var ext := ExtensionOf(path);
    if ext.None? then None
    else if ext.value == "m3u8" || ext.value == "mpd" then Some(PlaylistFamily)
    else if ext.value in VIDEO_EXTENSIONS then Some(VideoFamily)
    else if ext.value in AUDIO_EXTENSIONS then Some(AudioFamily)
    else if ext.value in IMAGE_EXTENSIONS then Some(ImageFamily)
    else if ext.value in TEXT_EXTENSIONS then Some(TextFamily)
    else None
  }

  predicate AsciiSpace(b: byte) {
    b == 9 || b == 10 || b == 12 || b == 13 || b == 32
  }

  function SkipAsciiSpace(b: Bytes): Bytes {
    if b != [] && AsciiSpace(b[0]) then SkipAsciiSpace(b[1..]) else b
  }

  predicate HtmlStart(b: Bytes) {
    var lower := LowerBytes(Peek(b, 64));
    || StartsWith(lower, "<!doctype html") || StartsWith(lower, "<html") || StartsWith(lower, "<?xml")
    || StartsWith(lower, "<head") || StartsWith(lower, "<body")
  }

  function WithoutBom(b: Bytes): Bytes {
    if |b| >= 3 && b[0] == 0xEF && b[1] == 0xBB && b[2] == 0xBF then b[3..] else b
  }

  predicate HtmlLike(body: Bytes) {
    HtmlStart(SkipAsciiSpace(WithoutBom(Peek(body, 512))))
  }

  method LooksLikeHtml(body: Bytes) returns (html: bool)
    ensures html == HtmlLike(body)
  {
    var s := Peek(body, 512);
    if |s| >= 3 && s[0] == 0xEF && s[1] == 0xBB && s[2] == 0xBF { s := s[3..]; }
    ghost var start := s;
    while s != [] && AsciiSpace(s[0])
      invariant SkipAsciiSpace(s) == SkipAsciiSpace(start)
      decreases |s|
    {
      s := s[1..];
    }
    html := HtmlStart(s);
  }

  // ----- The classifier -----

  /** Manifest body, declared type, magic number, extension: the first that says anything. */
  function HttpOf(channel: SourceChannel, manifest: Option<Classification>, declared: Option<Family>,
                  magic: Option<Family>, extension: Option<Family>, textual: bool): Classification {
    if manifest.Some? then manifest.value
    else if declared.Some? then OfFamily(declared.value, channel, Declared)
    else if magic.Some? then OfFamily(magic.value, channel, Magic)
    else if extension.Some? then OfFamily(extension.value, channel, Extension)
    else if textual then TextWeb(TextualDefault)
    else Classification(UnspecifiedKind, channel, Other, NoSignal)
  }

  function ClassifyHttp(channel: SourceChannel, path: Option<string>, ct: Option<string>, body: Bytes): Classification {
    var declared := if ct.Some? then DeclaredFamily(ct.value) else None;
    var extension := ExtensionFamily(if path.Some? then path.value else "");
    HttpOf(channel, SniffManifest(body, channel), declared, MagicFamily(body), extension,
           (ct.Some? && IsTextualCt(ct.value)) || HtmlLike(body))
  }

  /** Only `video/` and `audio/` count as declared for a chunk. */
  function ChunkDeclared(mime: Option<string>): Option<Family> {
    if mime.None? then None
    else
      var declared := StripParams(mime.value);
      if "video/" <= declared then Some(VideoFamily)
      else if "audio/" <= declared then Some(AudioFamily)
      else None
  }

  /** Declared type, extension, magic number; an opaque chunk is taken for video. A declared or
      opaque chunk keeps its channel as it is. */
  function ChunkOf(channel: SourceChannel, declared: Option<Family>, extension: Option<Family>, magic: Option<Family>)
    : Classification
  {
    if declared == Some(VideoFamily) then BufferedVideo(channel, IsLive(channel), Declared)
    else if declared.Some? then Audio(channel, Declared)
    else if extension.Some? then OfFamily(extension.value, channel, Extension)
    else if magic.Some? then OfFamily(magic.value, channel, Magic)
    else BufferedVideo(channel, IsLive(channel), OpaqueChunk)
  }

  function ClassifyChunk(channel: SourceChannel, data: Bytes, mime: Option<string>, url: Option<string>)
    : Classification
  {
    ChunkOf(channel, ChunkDeclared(mime), if url.Some? then ExtensionFamily(url.value) else None, MagicFamily(data))
  }

  function ClassifyFlow(flow: CapturedFlow): Classification {
    if !flow.readable then Classification(UnspecifiedKind, flow.channel, Other, Unreadable)
    else
      match flow.payload
      case Http(path, headers, body) => ClassifyHttp(flow.channel, path, ContentType(headers), body)
      case StreamChunk(data, mime, url) => ClassifyChunk(flow.channel, data, mime, url)
  }
}
