/**
 * `get_file_icon`: the icon of a generic file, from the text after the last
 * '.' of its proxy URL or, failing that, of its filename, looked up in five
 * fixed, case-sensitive tables.
 */
module FileIcon {
  import opened Wrappers
  import opened Text

  /** The icon constants handed to the templates; the asset strings behind them are opaque. */
  datatype Icon = Acrobat | WebCode | Code | Document | Archive | Unknown | Audio

  /** Not a tuple but a plain string: `ext in AcrobatTypes` is a substring test. */
  const AcrobatTypes: string := "pdf"
  const WebcodeTypes: seq<string> := ["html", "htm", "css", "rss", "xhtml", "xml"]
  const CodeTypes: seq<string> := ["py", "cgi", "pl", "gadget", "jar", "msi", "wsf", "bat", "php", "js"]
  const DocumentTypes: seq<string> :=
    [ "txt", "doc", "docx", "rtf", "xls", "xlsx", "ppt", "pptx", "odt", "odp", "ods", "odg", "odf", "swx",
      "sxi", "sxc", "sxd", "stw" ]
  const ArchiveTypes: seq<string> :=
    [ "br", "rpm", "dcm", "epub", "zip", "tar", "rar", "gz", "bz2", "7x", "deb", "ar", "Z", "lzo", "lz", "lz4",
      "arj", "pkg", "z" ]

  /** Whether `ext` is listed for category `k`; only the five file categories have tables. */
  predicate InTable(k: Icon, ext: string) {
    match k
    case Acrobat => Contains(AcrobatTypes, ext)
    case WebCode => ext in WebcodeTypes
    case Code => ext in CodeTypes
    case Document => ext in DocumentTypes
    case Archive => ext in ArchiveTypes
    case _ => false
  }

  /** The if/elif chain of `get_file_icon` for one extension: the first table that lists it. */
  function ClassifyExtension(ext: string): Option<Icon> {
    if Contains(AcrobatTypes, ext) then Some(Acrobat)
    else if ext in WebcodeTypes then Some(WebCode)
    else if ext in CodeTypes then Some(Code)
    else if ext in DocumentTypes then Some(Document)
    else if ext in ArchiveTypes then Some(Archive)
    else None
  }

  /** The substring test makes every substring of "pdf", the empty one included, an acrobat extension. */
  lemma AcrobatExtensions(ext: string)
    ensures InTable(Acrobat, ext) <==> ext in ["", "p", "d", "f", "pd", "df", "pdf"]
  {
    if ext in ["", "p", "d", "f", "pd", "df", "pdf"] {
      SlicesAreAcrobat(ext);
    } else if InTable(Acrobat, ext) {
      AcrobatAreSlices(ext);
    }
  }

  lemma SlicesAreAcrobat(ext: string)
    requires ext in ["", "p", "d", "f", "pd", "df", "pdf"]
    ensures Contains(AcrobatTypes, ext)
  {
    ContainsIffOccurs(AcrobatTypes, ext);
    if ext == "" || ext == "p" || ext == "pd" || ext == "pdf" {
      assert OccursAt(AcrobatTypes, ext, 0);
    } else if ext == "d" || ext == "df" {
      assert OccursAt(AcrobatTypes, ext, 1);
    } else {
      assert OccursAt(AcrobatTypes, ext, 2);
    }
  }

  lemma AcrobatAreSlices(ext: string)
    requires Contains(AcrobatTypes, ext)
    ensures ext in ["", "p", "d", "f", "pd", "df", "pdf"]
  {
    ContainsIffOccurs(AcrobatTypes, ext);
    var i :| OccursAt(AcrobatTypes, ext, i);
    SlicesOfPdf(i, |ext|);
  }

  /** Every slice of "pdf". */
  lemma SlicesOfPdf(i: nat, n: nat)
    requires i + n <= |AcrobatTypes|
    ensures AcrobatTypes[i..i + n] in ["", "p", "d", "f", "pd", "df", "pdf"]
  {
    if n == 0 {
      assert AcrobatTypes[i..i] == "";
    } else if i == 0 && n == 1 {
      assert AcrobatTypes[0..1] == "p";
    } else if i == 0 && n == 2 {
      assert AcrobatTypes[0..2] == "pd";
    } else if i == 0 {
      assert AcrobatTypes[0..3] == "pdf";
    } else if i == 1 && n == 1 {
      assert AcrobatTypes[1..2] == "d";
    } else if i == 1 {
      assert AcrobatTypes[1..3] == "df";
    } else {
      assert AcrobatTypes[2..3] == "f";
    }
  }

  lemma TablesDisjointFromAcrobat(ext: string)
    ensures InTable(Acrobat, ext) ==> !InTable(WebCode, ext) && !InTable(Code, ext)
    ensures InTable(Acrobat, ext) ==> !InTable(Document, ext) && !InTable(Archive, ext)
  {
    AcrobatExtensions(ext);
  }

  /** The four exact tables share no entry. */
  lemma ExactTablesDisjoint(ext: string)
    ensures !(InTable(WebCode, ext) && InTable(Code, ext))
    ensures !(InTable(WebCode, ext) && InTable(Document, ext))
    ensures !(InTable(WebCode, ext) && InTable(Archive, ext))
    ensures !(InTable(Code, ext) && InTable(Document, ext))
    ensures !(InTable(Code, ext) && InTable(Archive, ext))
    ensures !(InTable(Document, ext) && InTable(Archive, ext))
  {
    DisjointWebCodeCode(ext);
    DisjointWebCodeDocument(ext);
    DisjointWebCodeArchive(ext);
    DisjointCodeDocument(ext);
    DisjointCodeArchive(ext);
    DisjointDocumentArchive(ext);
  }

  lemma DisjointWebCodeCode(ext: string)
    ensures !(InTable(WebCode, ext) && InTable(Code, ext))
  {
  }

  lemma DisjointWebCodeDocument(ext: string)
    ensures !(InTable(WebCode, ext) && InTable(Document, ext))
  {
  }

  lemma DisjointWebCodeArchive(ext: string)
    ensures !(InTable(WebCode, ext) && InTable(Archive, ext))
  {
  }

  lemma DisjointCodeDocument(ext: string)
    ensures !(InTable(Code, ext) && InTable(Document, ext))
  {
  }

  lemma DisjointCodeArchive(ext: string)
    ensures !(InTable(Code, ext) && InTable(Archive, ext))
  {
  }

  lemma DisjointDocumentArchive(ext: string)
    ensures !(InTable(Document, ext) && InTable(Archive, ext))
  {
  }

  /**
   * No extension is listed in two tables, so the order of the chain never
   * decides the category: the chain answers `k` exactly when `k`'s table lists
   * the extension, and answers nothing exactly when no table does.
   */
  lemma ClassifyExtensionIffInTable(ext: string, k: Icon)
    ensures ClassifyExtension(ext) == Some(k) <==> InTable(k, ext)
    ensures ClassifyExtension(ext).None? <==> forall j: Icon :: !InTable(j, ext)
  {
    TablesDisjointFromAcrobat(ext);
    ExactTablesDisjoint(ext);
    if ClassifyExtension(ext).Some? {
      assert InTable(ClassifyExtension(ext).value, ext);
    }
  }

  /** Matching is case-sensitive: "Z" and "z" are separate archive entries, and "PDF" is in no table. */
  lemma CaseSensitiveExamples()
    ensures InTable(Archive, "Z") && InTable(Archive, "z")
    ensures ClassifyExtension("PDF").None?
  {
    AcrobatExtensions("PDF");
  }

  /** `tmp.rsplit('.', 1)[-1]`: the text after the last '.', or the whole text when there is none. */
  function Extension(name: string): string {
    AfterLast(name, '.')
  }

  /** A candidate that decides the icon: present, non-empty and with an extension some table lists. */
  ghost predicate Hits(candidate: Option<string>) {
    Truthy(candidate) && exists k: Icon :: InTable(k, Extension(candidate.value))
  }

  /** The loop of `get_file_icon` over its candidates: skip falsy ones, return the first category found. */
  function IconOf(candidates: seq<Option<string>>): Icon
    decreases |candidates|
  {
    if |candidates| == 0 then Unknown
    else if !Truthy(candidates[0]) then IconOf(candidates[1..])
    else
      match ClassifyExtension(Extension(candidates[0].value))
      case Some(k) => k
      case None => IconOf(candidates[1..])
  }

  /**
   * First hit wins: the icon is `Unknown` exactly when no candidate hits;
   * otherwise it is listed for the first candidate that hits.
   */
  lemma {:induction false} IconOfFirstHit(candidates: seq<Option<string>>)
    ensures IconOf(candidates) == Unknown <==> forall i :: 0 <= i < |candidates| ==> !Hits(candidates[i])
    ensures forall i :: 0 <= i < |candidates| && Hits(candidates[i]) && (forall j :: 0 <= j < i ==> !Hits(candidates[j]))
              ==> InTable(IconOf(candidates), Extension(candidates[i].value))
    decreases |candidates|
  {
    if |candidates| > 0 {
      var c, rest := candidates[0], candidates[1..];
      IconOfFirstHit(rest);
      if Hits(c) {
        HitAtHead(candidates);
      } else {
        MissAtHead(candidates);
      }
      forall i | 1 <= i < |candidates| ensures candidates[i] == rest[i - 1] {}
      forall i | 0 <= i < |candidates| && Hits(candidates[i]) && (forall j :: 0 <= j < i ==> !Hits(candidates[j]))
        ensures InTable(IconOf(candidates), Extension(candidates[i].value))
      {
        if i > 0 {
          assert !Hits(c);
          assert Hits(rest[i - 1]);
          forall j | 0 <= j < i - 1 ensures !Hits(rest[j]) {
            assert rest[j] == candidates[j + 1];
          }
        }
      }
    }
  }

  /** A first candidate that hits decides the icon. */
  lemma HitAtHead(candidates: seq<Option<string>>)
    requires |candidates| > 0 && Hits(candidates[0])
    ensures InTable(IconOf(candidates), Extension(candidates[0].value))
    ensures IconOf(candidates) != Unknown
  {
    var e := Extension(candidates[0].value);
    ClassifyExtensionIffInTable(e, Unknown);
    ClassifyExtensionIffInTable(e, ClassifyExtension(e).value);
  }

  /** A first candidate that misses is skipped. */
  lemma MissAtHead(candidates: seq<Option<string>>)
    requires |candidates| > 0 && !Hits(candidates[0])
    ensures IconOf(candidates) == IconOf(candidates[1..])
  {
    if Truthy(candidates[0]) {
      ClassifyExtensionIffInTable(Extension(candidates[0].value), Unknown);
    }
  }

  /**
   * `get_file_icon`: the proxy URL decides when it hits, else the filename
   * decides when it hits, else the icon is `Unknown`.
   */
  function GetFileIcon(proxyUrl: Option<string>, filename: Option<string>): (r: Icon)
    ensures r != Audio
    ensures Hits(proxyUrl) ==> InTable(r, Extension(proxyUrl.value))
    ensures !Hits(proxyUrl) && Hits(filename) ==> InTable(r, Extension(filename.value))
    ensures !Hits(proxyUrl) && !Hits(filename) ==> r == Unknown
  {
    var candidates := [proxyUrl, filename];
    IconOfFirstHit(candidates);
    assert forall i :: 0 <= i < 2 ==> candidates[i] == if i == 0 then proxyUrl else filename;
    IconOf(candidates)
  }
}
