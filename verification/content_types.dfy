/** The media type the server attaches to a file of a video's HLS directory: the playlist, its
    MPEG-TS segments and the thumbnail. */
module ContentTypes {
  import opened Wrappers
  import Text

  const PLAYLIST_TYPE := "application/vnd.apple.mpegurl"
  const SEGMENT_TYPE := "video/mp2t"
  const JPEG_TYPE := "image/jpeg"
  const PNG_TYPE := "image/png"
  const OCTET_STREAM := "application/octet-stream"

  /** The suffix tests of `serveHlsFile`, in their order; the names are compared case-sensitively. */
  function HlsContentType(fileName: string): string {
    if Text.EndsWith(fileName, ".m3u8") then PLAYLIST_TYPE
    else if Text.EndsWith(fileName, ".ts") then SEGMENT_TYPE
    else if Text.EndsWith(fileName, ".jpg") || Text.EndsWith(fileName, ".jpeg") then JPEG_TYPE
    else if Text.EndsWith(fileName, ".png") then PNG_TYPE
    else OCTET_STREAM
  }

  /** The extension of a file name: the text after its last dot, if it has one. */
  function Extension(s: string): (r: Option<string>)
    ensures r.None? ==> '.' !in s
    ensures r.Some? ==> '.' !in r.value && Text.EndsWith(s, "." + r.value)
    decreases |s|
  {
    if s == [] then None
    else if s[|s| - 1] == '.' then Some([])
    else
      match Extension(s[..|s| - 1])
      case None => None
      case Some(e) =>
        var r := e + [s[|s| - 1]];
        assert s == s[..|s| - 1] + [s[|s| - 1]];
        Some(r)
  }

  /** A reference table from extension to media type, independent of the order of the tests. */
  function ByExtension(ext: Option<string>): string {
    if ext == Some("m3u8") then PLAYLIST_TYPE
    else if ext == Some("ts") then SEGMENT_TYPE
    else if ext == Some("jpg") || ext == Some("jpeg") then JPEG_TYPE
    else if ext == Some("png") then PNG_TYPE
    else OCTET_STREAM
  }

  /** A suffix check peels off one last character from each side. */
  lemma EndsWithSnoc(s: string, t: string)
    requires s != [] && t != []
    ensures Text.EndsWith(s, t)
        <==> Text.EndsWith(s[..|s| - 1], t[..|t| - 1]) && s[|s| - 1] == t[|t| - 1]
  {
    var s', t' := s[..|s| - 1], t[..|t| - 1];
    if |t| <= |s| {
      assert s[|s| - |t|..] == s'[|s'| - |t'|..] + [s[|s| - 1]];
      assert t == t' + [t[|t| - 1]];
    }
  }

  /** For a dot-free `e`, a name ends with `.e` exactly when `e` is its extension. */
  lemma {:induction false} EndsWithDotIff(s: string, e: string)
    requires '.' !in e
    ensures Text.EndsWith(s, "." + e) <==> Extension(s) == Some(e)
    decreases |s|
  {
    var t := "." + e;
    if s == [] {
    } else if s[|s| - 1] == '.' {
      if e != [] {
        EndsWithSnoc(s, t);
        assert t[|t| - 1] == e[|e| - 1];
      } else {
        assert s[|s| - 1..] == t;
      }
    } else if e == [] {
      EndsWithSnoc(s, t);
      assert t[|t| - 1] == '.';
    } else {
      var f := e[..|e| - 1];
      assert t[..|t| - 1] == "." + f && t[|t| - 1] == e[|e| - 1];
      assert e == f + [e[|e| - 1]];
      EndsWithSnoc(s, t);
      EndsWithDotIff(s[..|s| - 1], f);
    }
  }

  /** The suffix tests give exactly the media type the extension table gives. */
  lemma HlsContentTypeByExtension(fileName: string)
    ensures HlsContentType(fileName) == ByExtension(Extension(fileName))
  {
    SuffixIff(fileName, "m3u8", ".m3u8");
    SuffixIff(fileName, "ts", ".ts");
    SuffixIff(fileName, "jpg", ".jpg");
    SuffixIff(fileName, "jpeg", ".jpeg");
    SuffixIff(fileName, "png", ".png");
  }

  lemma SuffixIff(s: string, e: string, suffix: string)
    requires '.' !in e && suffix == "." + e
    ensures Text.EndsWith(s, suffix) <==> Extension(s) == Some(e)
  {
    EndsWithDotIff(s, e);
  }

  datatype HlsResponse =
    | NotFound                   // 404
    | Served(contentType: string)  // 200, the file as the body

  /** `serveHlsFile`: 404 when the file under the video's directory does not exist, otherwise the
      file with the media type of its extension. */
  function ServeHlsFile(fileExists: bool, fileName: string): (r: HlsResponse)
    ensures r.NotFound? <==> !fileExists
    ensures r.Served? ==> r.contentType == ByExtension(Extension(fileName))
  {
    HlsContentTypeByExtension(fileName);
    if !fileExists then NotFound else Served(HlsContentType(fileName))
  }

  /** The playlist, a segment and a thumbnail get their media types. */
  lemma PlaylistExample()
    ensures HlsContentType("index.m3u8") == PLAYLIST_TYPE
  {
    assert "index.m3u8"[5..] == ".m3u8";
  }

  lemma SegmentExample()
    ensures HlsContentType("segment_003.ts") == SEGMENT_TYPE
  {
    assert "segment_003.ts"[9..] != ".m3u8";
    assert "segment_003.ts"[11..] == ".ts";
  }

  lemma ThumbnailExample()
    ensures HlsContentType("thumbnail.jpg") == JPEG_TYPE
  {
    assert "thumbnail.jpg"[8..] != ".m3u8";
    assert "thumbnail.jpg"[10..] != ".ts";
    assert "thumbnail.jpg"[9..] == ".jpg";
  }

  /** Suffixes are compared case-sensitively ... */
  lemma UpperCaseExample()
    ensures HlsContentType("SEGMENT.TS") == OCTET_STREAM
  {
    var n := "SEGMENT.TS";
    assert n[5..] != ".m3u8" && n[7..] != ".ts" && n[6..] != ".jpg" && n[5..] != ".jpeg" && n[6..] != ".png";
  }

  /** ... and only the last extension counts. */
  lemma BackupExample()
    ensures HlsContentType("index.m3u8.bak") == OCTET_STREAM
  {
    var n := "index.m3u8.bak";
    assert n[9..] != ".m3u8" && n[11..] != ".ts" && n[10..] != ".jpg" && n[9..] != ".jpeg" && n[10..] != ".png";
  }
}
