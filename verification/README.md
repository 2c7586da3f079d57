# Attachment rendering in chat_exporter, modelled in Dafny

This project models how chat_exporter renders one message attachment into
the inputs of an HTML template (`chat_exporter/construct/assets/attachment.py`).
`build_attachment` looks at the declared content type. It picks one of four
strategies: image, video, audio or generic file. Each strategy produces the
ordered slot bindings for its template:

- the image strategy always reads the attachment's bytes, and the audio strategy reads them unless `get_file_size` has already raised;
- the video and file strategies read them only up to 10 MiB;
- whatever was read is inlined as a base64 `data:` URL through `make_data_uri`;
- the audio and file strategies format the declared size with `get_file_size`;
- the file strategy picks an icon with `get_file_icon`.

Modules, one file each:

- `wrappers.dfy`: `Option`, `Result`, and the two exceptions the source can raise.
- `text.dfy`: the few Python string operations the code uses (`in`, `strip`, `split(';')[0]`, `rsplit('.', 1)[-1]`, truthiness, `str(None)`).
- `base64.dfy`: the RFC 4648 encoder behind `b64encode`, plus a strict decoder as its inverse.
- `data_uri.dfy`: `make_data_uri`, the image strategy's hand-written URL, and a `data:` URL parser that checks both.
- `file_size.dfy`: `get_file_size` and the image strategy's KB/MB label.
- `file_icon.dfy`: `get_file_icon` and its five extension tables.
- `attachment.dfy`: dispatch and the four strategies.

The attachment is an immutable `Descriptor`. The bytes `read()` would return
are a parameter. Each strategy returns either `Rendered` (template, slot
bindings, and whether the bytes were read) or the exception the Python code
would raise.

## Behaviour worth knowing

- **Sizes of 1 GiB and more.** `get_file_size` has no clamp: from 1 GiB on it computes an index of 3 or more, and `size_name[i]` raises `IndexError` (attachment.py:109-113). `GetFileSize` fails with `SizeUnitOutOfRange`, so the audio and file strategies fail too.
- **Size text.** `get_file_size` prints `round(x, 2)` with `%s`, which gives "1.5 KB" (attachment.py:112-113). Only the image strategy uses `.2f` (attachment.py:41). The model keeps both labels as a unit and hundredths; the two text renderings are listed under Left out.
- **Missing content type.** `make_data_uri` calls `.strip()` on the content type (attachment.py:147), so a file of at most 10 MiB with no content type raises `AttributeError` (`NoneHasNoStrip`) after its bytes were read. Dispatch never sends an untyped attachment to the video or audio strategy, so only files reach this case.
- **Acrobat table.** `acrobat_types` is the plain string `"pdf"`, not a tuple (attachment.py:116), so `extension in acrobat_types` is a substring test. The extensions "", "p", "d", "f", "pd", "df" and "pdf" all get the acrobat icon, including the empty extension of a name that ends in '.'.
- **Image content type.** The image strategy writes the declared content type verbatim into its URL (attachment.py:36). It does no stripping, no `;` split and adds no charset, and it writes "None" for a missing one.

## Model

| member | source | states |
|---|---|---|
| Text.ContainsIffOccurs | chat_exporter/construct/assets/attachment.py:26-30 | Python's `sub in s` holds exactly when `sub` occurs at some position of `s` |
| Text.Strip | chat_exporter/construct/assets/attachment.py:147 | `strip()` leaves no whitespace at either end, and what it drops, on both sides, is whitespace only |
| Text.StripKeepsTrimmed | chat_exporter/construct/assets/attachment.py:147 | a string with no surrounding whitespace is unchanged by `strip()` |
| Text.BeforeFirst | chat_exporter/construct/assets/attachment.py:147 | `split(';')[0]` is a prefix without ';', followed by ';' unless it is the whole string |
| Text.AfterLast | chat_exporter/construct/assets/attachment.py:131 | `rsplit('.', 1)[-1]` is a suffix without '.', preceded by '.' unless it is the whole string |
| Text.AfterLastOfJoin | chat_exporter/construct/assets/attachment.py:131 | in `x + c + y` with no `c` in `y`, the text after the last `c` is exactly `y` |
| Base64.CharToIndex | chat_exporter/construct/assets/attachment.py:152 | every alphabet character maps back to the 6-bit value the RFC 4648 table gives it |
| Base64.IndexToCharInjective | chat_exporter/construct/assets/attachment.py:152 | the RFC 4648 alphabet table is one-to-one |
| Base64.EncodeLength | chat_exporter/construct/assets/attachment.py:152 | `b64encode` writes four characters for every started group of three bytes |
| Base64.EncodeIsPadded | chat_exporter/construct/assets/attachment.py:152 | `b64encode` output uses only the alphabet, with '=' only as one or two trailing pad characters |
| Base64.DecodeEncode | chat_exporter/construct/assets/attachment.py:152 | decoding the encoding of any bytes gives the same bytes back |
| Base64.TestVectors | chat_exporter/construct/assets/attachment.py:152 | the encoder gives the RFC 4648 section 10 outputs "", "Zg==", "Zm8=", "Zm9v", "Zm9vYg==", "Zm9vYmE=", "Zm9vYmFy" for "" to "foobar" |
| Base64.EncodeDecode | chat_exporter/construct/assets/attachment.py:152 | every text the strict decoder accepts is exactly the encoding of what it returns |
| DataUri.Build | chat_exporter/construct/assets/attachment.py:153 | the URL starts with "data:" and parses back to exactly the declared type and the bytes |
| DataUri.ParseIsBuild | chat_exporter/construct/assets/attachment.py:153 | every URL the parser accepts is exactly `"data:" + type + ";base64," + b64encode(bytes)` for what it parsed, so a built URL is that text and nothing else |
| DataUri.BeforeFirstOfJoin | chat_exporter/construct/assets/attachment.py:147 | `split(';')[0]` of an essence followed by ';'-parameters is the essence |
| DataUri.MediaTypeShape | chat_exporter/construct/assets/attachment.py:147-150 | the declared type keeps the stripped type's essence; the only thing ever added is ";charset=utf-8", exactly for "text/" types |
| DataUri.MediaTypeOfJoin | chat_exporter/construct/assets/attachment.py:147-150 | parameters after ';' are dropped, and "text/" essences get the UTF-8 charset |
| DataUri.MakeDataUri | chat_exporter/construct/assets/attachment.py:145-153 | fails exactly when the content type is missing; otherwise the URL parses back to the normalised type and exactly the given bytes |
| DataUri.PlainTextExample | chat_exporter/construct/assets/attachment.py:149-150 | "text/plain" is declared as "text/plain;charset=utf-8" |
| DataUri.ImageTypeExample | chat_exporter/construct/assets/attachment.py:147-150 | "image/png" passes through unchanged |
| FileSize.UnitIndex | chat_exporter/construct/assets/attachment.py:110 | the unit index brackets the size: 1024^i <= size < 1024^(i+1) |
| FileSize.UnitIndexUnique | chat_exporter/construct/assets/attachment.py:110 | the bracketing index is unique, so it is `floor(log_1024(size))` |
| FileSize.UnitAt | chat_exporter/construct/assets/attachment.py:109-113 | `size_name[i]` exists exactly for i < 3 and names the unit of power i |
| FileSize.RoundHalfEven | chat_exporter/construct/assets/attachment.py:112 | the result is the nearest integer to the quotient, ties going to the even one |
| FileSize.NearestTiesEvenUnique | chat_exporter/construct/assets/attachment.py:112 | at most one integer is nearest with ties to even, so the rounding is determined |
| FileSize.GetFileSize | chat_exporter/construct/assets/attachment.py:105-113 | 0 gives "0 bytes"; fails exactly from 1 GiB on, with an index of at least 3; otherwise the unit brackets the size and the magnitude is the size over that unit's power, rounded to hundredths |
| FileSize.GetFileSizeMagnitude | chat_exporter/construct/assets/attachment.py:110-112 | every label shows a magnitude from 1.00 to 1024.00 |
| FileSize.GetFileSizeLargestUnit | chat_exporter/construct/assets/attachment.py:110 | no larger unit would still show a magnitude of at least 1 |
| FileSize.GetFileSizeExamples | chat_exporter/construct/assets/attachment.py:105-113 | 1536 is 1.5 KB, 1572864 is 1.5 MB, 2048 is 2 KB, 1 GiB raises |
| FileSize.ImageSizeLabel | chat_exporter/construct/assets/attachment.py:39-41 | the image label is KB exactly below 1 MiB, otherwise MB, never bytes, with the magnitude rounded to hundredths |
| FileSize.ImageSizeBounds | chat_exporter/construct/assets/attachment.py:39-41 | a KB image label is at most 1024.00 and an MB one at least 1.00 |
| FileIcon.AcrobatExtensions | chat_exporter/construct/assets/attachment.py:116-133 | the acrobat test accepts exactly the seven substrings of "pdf", the empty one included |
| FileIcon.TablesDisjointFromAcrobat | chat_exporter/construct/assets/attachment.py:116-126 | no acrobat extension is in any other table |
| FileIcon.ExactTablesDisjoint | chat_exporter/construct/assets/attachment.py:117-126 | the four tuple tables share no entry |
| FileIcon.ClassifyExtensionIffInTable | chat_exporter/construct/assets/attachment.py:132-141 | the if/elif chain answers a category exactly when that category's table lists the extension, and answers nothing exactly when no table does |
| FileIcon.CaseSensitiveExamples | chat_exporter/construct/assets/attachment.py:116-141 | "Z" and "z" are separate archive entries, and "PDF" matches no table |
| FileIcon.IconOfFirstHit | chat_exporter/construct/assets/attachment.py:128-143 | the loop answers Unknown exactly when no candidate hits; otherwise its answer lists the extension of the first candidate that hits |
| FileIcon.GetFileIcon | chat_exporter/construct/assets/attachment.py:115-143 | the proxy URL decides when it hits, else the filename decides when it hits, else Unknown; never the audio icon |
| Attachment.Dispatch | chat_exporter/construct/assets/attachment.py:24-32 | each strategy is chosen exactly under its condition: image, then video, then audio as substrings, generic file otherwise or when the type is missing |
| Attachment.Image | chat_exporter/construct/assets/attachment.py:34-54 | never fails and always reads; both URL slots carry a data URL declaring the raw content type and holding exactly the bytes read; the filename, or "image.png" when it is falsy; the size label of the bytes read; width and height as given, "None" when `None`, and 720 and 480 only when the attribute is missing |
| Attachment.Video | chat_exporter/construct/assets/attachment.py:56-68 | reads exactly when the size is at most 10 MiB, failing or not, and then inlines exactly the bytes; above it links `url` when truthy, else the raw `proxy_url`; fails only for a small video with no content type |
| Attachment.Audio | chat_exporter/construct/assets/attachment.py:70-85 | fails exactly from 1 GiB on (size error first) or with no content type; reads exactly below 1 GiB, also when the missing type then raises; otherwise the audio icon, the same data URL in both URL slots holding exactly the bytes, the `get_file_size` label and the filename |
| Attachment.File | chat_exporter/construct/assets/attachment.py:87-103 | fails exactly for a small file with no content type or from 1 GiB on; reads exactly up to 10 MiB, also when the missing type then raises; the icon from `get_file_icon`; the URL inlines exactly the bytes when read, else is the raw `proxy_url` |
| Attachment.BuildAttachment | chat_exporter/construct/assets/attachment.py:20-32 | the template is the dispatched strategy's; a successful render leaves the bytes unread exactly for videos and files over 10 MiB; a call reads unless it is such a video or file or audio from 1 GiB on; the render fails exactly for audio from 1 GiB on and for files from 1 GiB on or small and untyped |
| Attachment.LargeVideoLinksUrl | chat_exporter/construct/assets/attachment.py:56-68 | an 11 MiB video with a usable `url` renders that URL without reading |
| Attachment.ImageDefaultDimensions | chat_exporter/construct/assets/attachment.py:42-52 | an image without dimensions renders width 720 and height 480 |
| Attachment.AudioMpegDispatch | chat_exporter/construct/assets/attachment.py:24-31 | "audio/mpeg" is dispatched to the audio strategy |
| Attachment.AudioClipExample | chat_exporter/construct/assets/attachment.py:70-85 | a 2048-byte "audio/mpeg" clip renders 2 KB and its filename |
| Attachment.UntypedSmallFileFails | chat_exporter/construct/assets/attachment.py:87-94 | a file with no content type and at most 10 MiB raises from `make_data_uri` |

## Left out

- `fill_out`, the HTML templates, `PARSE_MODE_NONE` and the guild are left out. The model stops at the ordered slot bindings handed to `fill_out`. `flow` returns what `build_attachment` leaves in `self.attachments`; here that is the `Rendered` value.
- `read()` is not modelled as I/O. It is async and performs network I/O. Its bytes are a parameter. `didRead` records whether a rendering called it, and `Attachment.DidRead` extends that to failures through the error raised. Failures of `read()` itself are not modelled.
- FileSize.GetFileSize: from 1 GiB on it always fails with `SizeUnitOutOfRange`. For sizes of 2^1024 bytes and more Python raises `OverflowError` first, in `math.pow` or in the division (attachment.py:111-112); that error is not distinguished.
- The model does not mutate the attachment. The source writes `proxy_url`, `filename`, `size`, `width` and `height` on the attachment object. The model returns the values those writes feed into the template instead.
- Icons are the `Icon` enumeration. The `DiscordUtils` icon strings are opaque assets from another module.
- FileSize.GetFileSize: states the label as a unit and a magnitude in hundredths, not the "%s %s" text. Python's `repr` of the rounded float (e.g. "1.5", "2.0") is not modelled.
- FileSize.ImageSizeLabel: states the unit and hundredths, not the `.2f` text "1.50 KB".
- FileSize.UnitIndex: `math.log` and `math.pow` are replaced by an exact integer floor-logarithm. The model assumes `math.log(n, 1024)` never rounds across an integer for the sizes the source sees.
- FileSize.RoundHalfEven: division and `round` are computed on the exact rational value. This equals the float computation while sizes are below 2^53, where `size / 1024^i` is exact.
- Sizes are natural numbers. The video strategy's `hasattr(size)` check is taken as always true.
- Base64 decoding is not part of the source. The strict decoder exists only as the inverse the encoder's and the data URL's round trips are stated with.
