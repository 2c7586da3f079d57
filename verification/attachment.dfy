/**
 * The renderer itself: `build_attachment` picks one of four strategies from
 * the declared content type, and each strategy produces the ordered slot
 * bindings for its HTML template. The attachment is an immutable input, the
 * bytes `read()` would return are a parameter, and every result records
 * whether they were read.
 */
module Attachment {
  import opened Wrappers
  import opened Failures
  import opened Text
  import opened Base64
  import opened DataUri
  import opened FileSize
  import opened FileIcon

  /** Above this many bytes videos and generic files are linked, not inlined. */
  const InlineLimit: nat := 10 * 1024 * 1024

  /** An optional numeric attribute as `hasattr` sees it: missing, present but `None`, or a number. */
  datatype Dimension = Absent | Null | Val(n: int)

  /** The attachment's metadata as the chat platform declares it. */
  datatype Descriptor = Descriptor(
    contentType: Option<string>,
    filename: Option<string>,
    url: Option<string>,
    proxyUrl: Option<string>,
    size: nat,
    width: Dimension,
    height: Dimension)

  datatype Strategy = ImageStrategy | VideoStrategy | AudioStrategy | FileStrategy

  /** The four templates: `img_attachment`, `video_attachment`, `audio_attachment`, `msg_attachment`. */
  datatype Template = ImageTemplate | VideoTemplate | AudioTemplate | FileTemplate

  /** A value bound to a template slot, before the template turns it into text. */
  datatype SlotValue =
    | Str(text: string)
      /** Python's `None`, passed without `str()`. */
    | NoneValue
      /** An integer, printed by `str()`. */
    | Number(n: int)
    | IconValue(icon: Icon)
      /** A `get_file_size` label, printed with `%s`. */
    | FileSizeValue(fileSize: SizeLabel)
      /** The image strategy's label, printed with two decimals. */
    | ImageSizeValue(imageSize: SizeLabel)

  datatype Slot = Slot(name: string, value: SlotValue)

  /** The bindings handed to the template, and whether the attachment's bytes were read. */
  datatype Rendered = Rendered(template: Template, slots: seq<Slot>, didRead: bool)

  /** The slot names in binding order. */
  function Names(slots: seq<Slot>): (names: seq<string>)
    ensures |names| == |slots|
    ensures forall i :: 0 <= i < |slots| ==> names[i] == slots[i].name
  {
    if |slots| == 0 then [] else [slots[0].name] + Names(slots[1..])
  }

  /** Pairs each slot name with its value, in order. */
  function Bind(names: seq<string>, values: seq<SlotValue>): (slots: seq<Slot>)
    requires |names| == |values|
    ensures |slots| == |names| && Names(slots) == names
    ensures forall i :: 0 <= i < |slots| ==> slots[i].value == values[i]
  {
    var slots := seq(|names|, i requires 0 <= i < |names| => Slot(names[i], values[i]));
    assert Names(slots) == names;
    slots
  }

  const ImageSlots: seq<string> :=
    ["ATTACH_URL", "ATTACH_URL_THUMB", "ATTACH_NAME", "ATTACH_SIZE", "ATTACH_WIDTH", "ATTACH_HEIGHT"]
  const VideoSlots: seq<string> := ["ATTACH_URL"]
  const AudioSlots: seq<string> := ["ATTACH_ICON", "ATTACH_URL", "ATTACH_BYTES", "ATTACH_AUDIO", "ATTACH_FILE"]
  const FileSlots: seq<string> := ["ATTACH_ICON", "ATTACH_URL", "ATTACH_BYTES", "ATTACH_FILE"]

  /** The image template's bindings: the inline URL twice, then name, size and dimensions. */
  function ImageBindings(link: SlotValue, name: SlotValue, size: SlotValue, width: SlotValue, height: SlotValue): (slots: seq<Slot>)
    ensures Names(slots) == ImageSlots
    ensures slots[0].value == link && slots[1].value == link && slots[2].value == name
    ensures slots[3].value == size && slots[4].value == width && slots[5].value == height
  {
    var values := [link, link, name, size, width, height];
    var slots := Bind(ImageSlots, values);
    assert |slots| == 6 && slots[0].value == values[0] && slots[1].value == values[1];
    assert slots[2].value == values[2] && slots[3].value == values[3];
    assert slots[4].value == values[4] && slots[5].value == values[5];
    slots
  }

  /** The audio template's bindings: icon, URL, size, the URL again for the player, filename. */
  function AudioBindings(icon: SlotValue, link: SlotValue, size: SlotValue, name: SlotValue): (slots: seq<Slot>)
    ensures Names(slots) == AudioSlots
    ensures slots[0].value == icon && slots[1].value == link && slots[2].value == size
    ensures slots[3].value == link && slots[4].value == name
  {
    var values := [icon, link, size, link, name];
    var slots := Bind(AudioSlots, values);
    assert |slots| == 5 && slots[0].value == values[0] && slots[1].value == values[1];
    assert slots[2].value == values[2] && slots[3].value == values[3] && slots[4].value == values[4];
    slots
  }

  /** The generic file template's bindings: icon, URL, size, filename. */
  function FileBindings(icon: SlotValue, link: SlotValue, size: SlotValue, name: SlotValue): (slots: seq<Slot>)
    ensures Names(slots) == FileSlots
    ensures slots[0].value == icon && slots[1].value == link && slots[2].value == size && slots[3].value == name
  {
    var values := [icon, link, size, name];
    var slots := Bind(FileSlots, values);
    assert |slots| == 4 && slots[0].value == values[0] && slots[1].value == values[1];
    assert slots[2].value == values[2] && slots[3].value == values[3];
    slots
  }

  /** An attribute handed over without `str()`: `None` stays `None`. */
  function Raw(s: Option<string>): SlotValue {
    if s.Some? then Str(s.value) else NoneValue
  }

  /** `v` is a data URL that declares `mediaType` and carries exactly `data`. */
  ghost predicate Inlines(v: SlotValue, mediaType: string, data: seq<byte>) {
    v.Str? && Parse(v.text) == Some(DataUrl(mediaType, data))
  }

  /**
   * `build_attachment`'s choice: "image", then "video", then "audio" as a
   * substring of a present content type; anything else, a missing type
   * included, is a generic file.
   */
  function Dispatch(contentType: Option<string>): (s: Strategy)
    ensures s == ImageStrategy <==> contentType.Some? && Contains(contentType.value, "image")
    ensures s == VideoStrategy <==>
      contentType.Some? && !Contains(contentType.value, "image") && Contains(contentType.value, "video")
    ensures s == AudioStrategy <==>
      && contentType.Some? && !Contains(contentType.value, "image") && !Contains(contentType.value, "video")
      && Contains(contentType.value, "audio")
    ensures s == FileStrategy <==>
      || contentType.None?
      || (!Contains(contentType.value, "image") && !Contains(contentType.value, "video")
          && !Contains(contentType.value, "audio"))
  {
    if contentType.None? then FileStrategy
    else if Contains(contentType.value, "image") then ImageStrategy
    else if Contains(contentType.value, "video") then VideoStrategy
    else if Contains(contentType.value, "audio") then AudioStrategy
    else FileStrategy
  }

  function TemplateOf(s: Strategy): Template {
    match s
    case ImageStrategy => ImageTemplate
    case VideoStrategy => VideoTemplate
    case AudioStrategy => AudioTemplate
    case FileStrategy => FileTemplate
  }

  /**
   * `str(width)` / `str(height)` after the image strategy's `hasattr` check:
   * the default replaces only a missing attribute; a `None` one prints as "None".
   */
  function DimensionValue(d: Dimension, default: int): SlotValue {
    match d
    case Absent => Number(default)
    case Null => Str("None")
    case Val(n) => Number(n)
  }

  /** The image strategy's filename: a falsy one becomes "image.png". */
  function ImageName(filename: Option<string>): string {
    if Truthy(filename) then filename.value else "image.png"
  }

  /** The data URL `make_data_uri`'s last line builds, under the given declared type. */
  function InlineSlot(mediaType: string, data: seq<byte>): (v: SlotValue)
    ensures Inlines(v, mediaType, data)
  {
    Str(Build(mediaType, data))
  }

  /**
   * `image`: always reads; inlines the bytes under the raw declared type
   * (neither split at ';' nor given a charset); sizes the bytes actually read,
   * whatever size was declared.
   */
  function Image(d: Descriptor, data: seq<byte>): (r: Result<Rendered, Error>)
    ensures r.Success? && r.value.template == ImageTemplate && r.value.didRead
    ensures Names(r.value.slots) == ImageSlots
    ensures r.value.slots[0].value == r.value.slots[1].value
    ensures Inlines(r.value.slots[0].value, PyStr(d.contentType), data)
    ensures Truthy(d.filename) ==> r.value.slots[2].value == Str(d.filename.value)
    ensures !Truthy(d.filename) ==> r.value.slots[2].value == Str("image.png")
    ensures r.value.slots[3].value == ImageSizeValue(ImageSizeLabel(|data|))
    ensures d.width.Absent? ==> r.value.slots[4].value == Number(720)
    ensures d.width.Null? ==> r.value.slots[4].value == Str("None")
    ensures d.width.Val? ==> r.value.slots[4].value == Number(d.width.n)
    ensures d.height.Absent? ==> r.value.slots[5].value == Number(480)
    ensures d.height.Null? ==> r.value.slots[5].value == Str("None")
    ensures d.height.Val? ==> r.value.slots[5].value == Number(d.height.n)
  {
    var slots := ImageBindings(
      InlineSlot(PyStr(d.contentType), data),
      Str(ImageName(d.filename)),
      ImageSizeValue(ImageSizeLabel(|data|)),
      DimensionValue(d.width, 720),
      DimensionValue(d.height, 480));
    Success(Rendered(ImageTemplate, slots, true))
  }

  /**
   * Whether the strategy called `read()`. A rendering records it in `didRead`.
   * A failure records it through its error: `None.strip()` is raised inside
   * `make_data_uri`, after its bytes argument `await read()` has been
   * evaluated, while the size error is raised before the audio strategy's
   * read and on the file strategy's path that never reads (over 10 MiB).
   */
  predicate DidRead(r: Result<Rendered, Error>) {
    if r.Success? then r.value.didRead else r.error.NoneHasNoStrip?
  }

  /**
   * `video`: above the inline limit nothing is read and the slot links `url`
   * when it is truthy, else `proxy_url`; otherwise the bytes are read and
   * inlined through `make_data_uri`.
   */
  function Video(d: Descriptor, data: seq<byte>): (r: Result<Rendered, Error>)
    ensures r.Failure? <==> d.size <= InlineLimit && d.contentType.None?
    ensures r.Failure? ==> r.error == NoneHasNoStrip
    ensures r.Success? ==> r.value.template == VideoTemplate && Names(r.value.slots) == VideoSlots
    ensures r.Success? ==> (r.value.didRead <==> d.size <= InlineLimit)
    ensures DidRead(r) <==> d.size <= InlineLimit
    ensures r.Success? && r.value.didRead ==> Inlines(r.value.slots[0].value, MediaType(d.contentType.value), data)
    ensures d.size > InlineLimit && Truthy(d.url) ==> r.Success? && r.value.slots[0].value == Str(d.url.value)
    ensures d.size > InlineLimit && !Truthy(d.url) ==> r.Success? && r.value.slots[0].value == Raw(d.proxyUrl)
  {
    if d.size > InlineLimit then
      var link := if Truthy(d.url) then Str(d.url.value) else Raw(d.proxyUrl);
      Success(Rendered(VideoTemplate, Bind(VideoSlots, [link]), false))
    else
      var uri :- MakeDataUri(d.contentType, data);
      Success(Rendered(VideoTemplate, Bind(VideoSlots, [Str(uri)]), true))
  }

  /**
   * `audio`: formats the declared size first (which raises from 1 GiB on),
   * then always reads and inlines the bytes; the icon is the fixed audio one.
   */
  function Audio(d: Descriptor, data: seq<byte>): (r: Result<Rendered, Error>)
    ensures r.Failure? <==> d.size >= GiB || d.contentType.None?
    ensures d.size >= GiB ==> r.Failure? && r.error.SizeUnitOutOfRange?
    ensures d.size < GiB && d.contentType.None? ==> r == Failure(NoneHasNoStrip)
    ensures r.Success? ==> r.value.template == AudioTemplate && r.value.didRead && Names(r.value.slots) == AudioSlots
    ensures DidRead(r) <==> d.size < GiB
    ensures r.Success? ==> r.value.slots[0].value == IconValue(Icon.Audio)
    ensures r.Success? ==> r.value.slots[1].value == r.value.slots[3].value
    ensures r.Success? ==> Inlines(r.value.slots[1].value, MediaType(d.contentType.value), data)
    ensures r.Success? ==> r.value.slots[2].value == FileSizeValue(GetFileSize(d.size).value)
    ensures r.Success? ==> r.value.slots[4].value == Str(PyStr(d.filename))
  {
    var size :- GetFileSize(d.size);
    var uri :- MakeDataUri(d.contentType, data);
    Success(Rendered(AudioTemplate, AudioBindings(IconValue(Icon.Audio), Str(uri), FileSizeValue(size), Str(PyStr(d.filename))), true))
  }

  /**
   * `file`: the icon comes from the original `proxy_url` and filename; up to
   * the inline limit the bytes are read and inlined, above it `proxy_url` is
   * kept as it is; then the declared size is formatted.
   */
  function File(d: Descriptor, data: seq<byte>): (r: Result<Rendered, Error>)
    ensures r.Failure? <==> (d.size <= InlineLimit && d.contentType.None?) || d.size >= GiB
    ensures d.size <= InlineLimit && d.contentType.None? ==> r == Failure(NoneHasNoStrip)
    ensures d.size >= GiB ==> r.Failure? && r.error.SizeUnitOutOfRange?
    ensures r.Success? ==> r.value.template == FileTemplate && Names(r.value.slots) == FileSlots
    ensures r.Success? ==> (r.value.didRead <==> d.size <= InlineLimit)
    ensures DidRead(r) <==> d.size <= InlineLimit
    ensures r.Success? ==> r.value.slots[0].value == IconValue(GetFileIcon(d.proxyUrl, d.filename))
    ensures r.Success? && r.value.didRead ==> Inlines(r.value.slots[1].value, MediaType(d.contentType.value), data)
    ensures r.Success? && !r.value.didRead ==> r.value.slots[1].value == Raw(d.proxyUrl)
    ensures r.Success? ==> r.value.slots[2].value == FileSizeValue(GetFileSize(d.size).value)
    ensures r.Success? ==> r.value.slots[3].value == Str(PyStr(d.filename))
  {
    var icon := GetFileIcon(d.proxyUrl, d.filename);
    var link: SlotValue :-
      if d.size <= InlineLimit then
        match MakeDataUri(d.contentType, data)
        case Success(uri) => Success(Str(uri))
        case Failure(e) => Failure(e)
      else Success(Raw(d.proxyUrl));
    var size :- GetFileSize(d.size);
    Success(Rendered(FileTemplate, FileBindings(IconValue(icon), link, FileSizeValue(size), Str(PyStr(d.filename))), d.size <= InlineLimit))
  }

  /**
   * `build_attachment`, and `flow` which returns its result: the strategy
   * `Dispatch` picks, applied to the attachment.
   */
  function BuildAttachment(d: Descriptor, data: seq<byte>): (r: Result<Rendered, Error>)
    ensures r.Success? ==> r.value.template == TemplateOf(Dispatch(d.contentType))
    ensures r.Success? ==> (!r.value.didRead <==>
      d.size > InlineLimit && Dispatch(d.contentType) in {VideoStrategy, FileStrategy})
    ensures !DidRead(r) <==>
      || (d.size > InlineLimit && Dispatch(d.contentType) in {VideoStrategy, FileStrategy})
      || (d.size >= GiB && Dispatch(d.contentType) == AudioStrategy)
    ensures r.Failure? <==>
      || (Dispatch(d.contentType) == AudioStrategy && d.size >= GiB)
      || (Dispatch(d.contentType) == FileStrategy && (d.size >= GiB || (d.size <= InlineLimit && d.contentType.None?)))
  {
    match Dispatch(d.contentType)
    case ImageStrategy => Image(d, data)
    case VideoStrategy => Video(d, data)
    case AudioStrategy => Audio(d, data)
    case FileStrategy => File(d, data)
  }

  /** A video over the limit with a usable `url` is linked, never read. */
  lemma LargeVideoLinksUrl(d: Descriptor, data: seq<byte>)
    requires Dispatch(d.contentType) == VideoStrategy
    requires d.size == 11 * 1024 * 1024 && Truthy(d.url)
    ensures BuildAttachment(d, data) == Success(Rendered(VideoTemplate, [Slot("ATTACH_URL", Str(d.url.value))], false))
  {
    var r := BuildAttachment(d, data);
    assert r.value.slots == [Slot("ATTACH_URL", Str(d.url.value))];
  }

  /** An image without declared dimensions renders them as 720 by 480. */
  lemma ImageDefaultDimensions(d: Descriptor, data: seq<byte>)
    requires Dispatch(d.contentType) == ImageStrategy
    requires d.width.Absent? && d.height.Absent?
    ensures var r := BuildAttachment(d, data);
      r.Success? && r.value.slots[4] == Slot("ATTACH_WIDTH", Number(720)) && r.value.slots[5] == Slot("ATTACH_HEIGHT", Number(480))
  {
    var r := BuildAttachment(d, data);
    assert Names(r.value.slots)[4] == "ATTACH_WIDTH" && Names(r.value.slots)[5] == "ATTACH_HEIGHT";
  }

  /** A 2048-byte "audio/mpeg" clip shows 2 KB and its filename. */
  lemma AudioClipExample(d: Descriptor, data: seq<byte>)
    requires d.contentType == Some("audio/mpeg") && d.size == 2048 && d.filename == Some("clip.mp3")
    ensures var r := BuildAttachment(d, data);
      && r.Success? && r.value.template == AudioTemplate
      && r.value.slots[2].value == FileSizeValue(Scaled(KB, 200))
      && r.value.slots[4].value == Str("clip.mp3")
  {
    GetFileSizeExamples();
    AudioMpegDispatch(d.contentType.value);
  }

  /** "audio/mpeg" holds neither "image" nor "video", so it is rendered as audio. */
  lemma AudioMpegDispatch(ct: string)
    requires ct == "audio/mpeg"
    ensures Dispatch(Some(ct)) == AudioStrategy
  {
    NotContainsWithoutHead(ct, "video");
    AudioMpegNotImage(ct);
    assert IsPrefix("audio", ct);
  }

  /** Past its 'i' at index 3, "audio/mpeg" has no 'i' at all. */
  lemma AudioMpegNotImage(ct: string)
    requires ct == "audio/mpeg"
    ensures !Contains(ct, "image")
  {
    NotContainsWithoutHead(ct[4..], "image");
    assert ct[3..][1] == 'o';
    assert Contains(ct[3..], "image") == Contains(ct[4..], "image") by { assert ct[3..][1..] == ct[4..]; }
    assert Contains(ct[2..], "image") == Contains(ct[3..], "image") by { assert ct[2..][1..] == ct[3..]; }
    assert Contains(ct[1..], "image") == Contains(ct[2..], "image") by { assert ct[1..][1..] == ct[2..]; }
  }

  /** A file without a content type that is small enough to inline makes the renderer raise. */
  lemma UntypedSmallFileFails(d: Descriptor, data: seq<byte>)
    requires d.contentType.None? && d.size <= InlineLimit
    ensures BuildAttachment(d, data) == Failure(NoneHasNoStrip)
  {
  }
}
