/**
 * `data:` URLs as the renderer builds them (section 3 of RFC 2397, base64
 * form only): `make_data_uri` for videos, audio and files, and the bare
 * f-string the image strategy writes. `Parse` reads a URL back into its
 * declared type and payload; it inverts `Build`, in both directions.
 */
module DataUri {
  import opened Wrappers
  import opened Failures
  import opened Text
  import opened Base64

  const Scheme: string := "data:"
  const Base64Marker: string := ";base64"
  const TextPrefix: string := "text/"
  const Utf8Charset: string := ";charset=utf-8"

  /** What a `data:` URL carries: the declared media type and the decoded payload. */
  datatype DataUrl = DataUrl(mediaType: string, payload: seq<byte>)

  /** `"data:" + header + ";base64," + b64encode(data)`, with `header` written verbatim. */
  function Build(header: string, data: seq<byte>): (uri: string)
    ensures IsPrefix(Scheme, uri)
    ensures Parse(uri) == Some(DataUrl(header, data))
  {
    ParseJoin(header, data);
    Scheme + (header + Base64Marker + "," + Encode(data))
  }

  lemma PayloadHasNoComma(data: seq<byte>)
    ensures ',' !in Encode(data)
  {
    var payload := Encode(data);
    EncodeIsPadded(data);
    forall k | 0 <= k < |payload| ensures payload[k] != ',' {
      assert IsAlphabetChar(payload[k]) || payload[k] == '=';
    }
  }

  /** Reads a base64 `data:` URL: the payload follows the last ',', the header before it ends in ";base64". */
  function Parse(uri: string): Option<DataUrl> {
    if !IsPrefix(Scheme, uri) then None
    else
      match SplitHeader(uri[|Scheme|..])
      case None => None
      case Some(parts) =>
        match Decode(parts.1)
        case None => None
        case Some(bytes) => Some(DataUrl(parts.0, bytes))
  }

  /** Splits what follows "data:" into the media type and the base64 text, at the last ','. */
  function SplitHeader(rest: string): Option<(string, string)> {
    var payload := AfterLast(rest, ',');
    if |payload| == |rest| then None
    else
      var header := rest[..|rest| - |payload| - 1];
      var n := |header| - |Base64Marker|;
      if n < 0 || header[n..] != Base64Marker then None
      else Some((header[..n], payload))
  }

  lemma SplitHeaderOfJoin(header: string, payload: string)
    requires ',' !in payload
    ensures SplitHeader(header + Base64Marker + "," + payload) == Some((header, payload))
  {
    var rest := header + Base64Marker + "," + payload;
    assert rest == (header + Base64Marker) + [','] + payload;
    AfterLastOfJoin(header + Base64Marker, ',', payload);
    var h := rest[..|rest| - |payload| - 1];
    assert h == header + Base64Marker;
    assert h[|header|..] == Base64Marker;
    assert h[..|header|] == header;
  }

  lemma ParseOfScheme(rest: string)
    ensures Parse(Scheme + rest) == match SplitHeader(rest)
      case None => None
      case Some(parts) => (match Decode(parts.1)
        case None => None
        case Some(bytes) => Some(DataUrl(parts.0, bytes)))
  {
    assert (Scheme + rest)[|Scheme|..] == rest;
  }

  /** The parser splits a built URL back at the comma that ends the ";base64" marker. */
  lemma ParseJoin(header: string, data: seq<byte>)
    ensures Parse(Scheme + (header + Base64Marker + "," + Encode(data))) == Some(DataUrl(header, data))
  {
    var payload := Encode(data);
    var rest := header + Base64Marker + "," + payload;
    PayloadHasNoComma(data);
    SplitHeaderOfJoin(header, payload);
    DecodeEncode(data);
    ParseOfScheme(rest);
  }

  /** Whatever `SplitHeader` splits off is exactly the header, the ";base64," marker and the payload. */
  lemma SplitHeaderJoins(rest: string)
    requires SplitHeader(rest).Some?
    ensures var parts := SplitHeader(rest).value;
      rest == parts.0 + Base64Marker + "," + parts.1
  {
    var payload := AfterLast(rest, ',');
    var header := rest[..|rest| - |payload| - 1];
    var n := |header| - |Base64Marker|;
    assert header == header[..n] + Base64Marker;
    assert rest == header + [','] + payload;
  }

  /** Every URL the parser accepts is exactly the one `Build` writes for what it parsed. */
  lemma ParseIsBuild(uri: string)
    requires Parse(uri).Some?
    ensures uri == Build(Parse(uri).value.mediaType, Parse(uri).value.payload)
  {
    var rest := uri[|Scheme|..];
    var parts := SplitHeader(rest).value;
    SplitHeaderJoins(rest);
    EncodeDecode(parts.1);
    assert uri == Scheme + rest;
  }

  /**
   * The declared type `make_data_uri` writes: the whitespace-stripped content
   * type up to its first ';', followed by ";charset=utf-8" when that part
   * starts with "text/".
   */
  function MediaType(contentType: string): string {
    var base := BeforeFirst(Strip(contentType), ';');
    if IsPrefix(TextPrefix, base) then base + Utf8Charset else base
  }

  /**
   * What the declared type keeps and adds: its essence (the part before any ';')
   * is the stripped content type's essence, and the only thing ever appended is
   * the UTF-8 charset, exactly for "text/" types.
   */
  lemma MediaTypeShape(contentType: string)
    ensures var t := MediaType(contentType);
      && BeforeFirst(t, ';') == BeforeFirst(Strip(contentType), ';')
      && (IsPrefix(TextPrefix, t) ==> t == BeforeFirst(t, ';') + Utf8Charset)
      && (!IsPrefix(TextPrefix, t) ==> t == BeforeFirst(t, ';'))
  {
    var base := BeforeFirst(Strip(contentType), ';');
    if IsPrefix(TextPrefix, base) {
      CharsetKeepsEssence(base);
    } else {
      BeforeFirstOfJoin(base, []);
      assert base + [] == base;
    }
  }

  /** Appending the charset to a "text/" essence keeps both the essence and the "text/" prefix. */
  lemma CharsetKeepsEssence(base: string)
    requires ';' !in base && IsPrefix(TextPrefix, base)
    ensures BeforeFirst(base + Utf8Charset, ';') == base
    ensures IsPrefix(TextPrefix, base + Utf8Charset)
  {
    BeforeFirstOfJoin(base, Utf8Charset);
    assert (base + Utf8Charset)[..|TextPrefix|] == base[..|TextPrefix|];
  }

  /** `make_data_uri`: calling `.strip()` on a missing content type raises. */
  function MakeDataUri(contentType: Option<string>, data: seq<byte>): (r: Result<string, Error>)
    ensures r.Failure? <==> contentType.None?
    ensures r.Failure? ==> r.error == NoneHasNoStrip
    ensures r.Success? ==> Parse(r.value) == Some(DataUrl(MediaType(contentType.value), data))
  {
    if contentType.None? then Failure(NoneHasNoStrip)
    else Success(Build(MediaType(contentType.value), data))
  }

  /** A text with no ';' followed by one starting with ';' splits back at the join. */
  lemma {:induction false} BeforeFirstOfJoin(base: string, suffix: string)
    requires ';' !in base
    requires |suffix| == 0 || suffix[0] == ';'
    ensures BeforeFirst(base + suffix, ';') == base
    decreases |base|
  {
    var s := base + suffix;
    if |base| == 0 {
      assert s == suffix;
    } else {
      assert s[0] == base[0] && s[1..] == base[1..] + suffix;
      BeforeFirstOfJoin(base[1..], suffix);
      assert base == [base[0]] + base[1..];
    }
  }

  /**
   * A content type with no surrounding whitespace, made of an essence without
   * ';' and parameters starting at ';', is declared as its essence, plus the
   * UTF-8 charset for "text/" types.
   */
  lemma MediaTypeOfJoin(ct: string, essence: string, params: string)
    requires ct == essence + params && |essence| > 0
    requires ';' !in essence && (|params| == 0 || params[0] == ';')
    requires !IsSpace(ct[0]) && !IsSpace(ct[|ct| - 1])
    ensures MediaType(ct) == if IsPrefix(TextPrefix, essence) then essence + Utf8Charset else essence
  {
    StripKeepsTrimmed(ct);
    BeforeFirstOfJoin(essence, params);
  }

  /** A text type gets the UTF-8 charset. */
  lemma PlainTextExample(ct: string)
    requires ct == "text/plain"
    ensures MediaType(ct) == ct + ";charset=utf-8"
  {
    assert ct + [] == ct;
    MediaTypeOfJoin(ct, ct, []);
    assert IsPrefix(TextPrefix, ct);
  }

  /** Other types pass through unchanged. */
  lemma ImageTypeExample(ct: string)
    requires ct == "image/png"
    ensures MediaType(ct) == "image/png"
  {
    assert ct + [] == ct;
    MediaTypeOfJoin(ct, ct, []);
    assert ct[0] != TextPrefix[0];
  }
}
