/** The byte-range endpoint of the video server: reading the start of a `Range` request header,
    the chunk arithmetic, and the `Content-Range` header of the partial response, in the
    byte-range form of section 4.2 of RFC 7233. Reading and sending the bytes is not modelled;
    the file is known only by its length, and whether opening it fails is a parameter. */
module ByteRange {
  import opened Wrappers
  import Text
  import opened JavaLang
  import ContentTypes

  const BYTES_EQ := "bytes="

  /** A stored content type of null is served as a generic byte stream. */
  function ContentTypeOrDefault(stored: Option<string>): (t: string)
    ensures stored.None? ==> t == ContentTypes.OCTET_STREAM
    ensures stored.Some? ==> t == stored.value
  {
    stored.GetOr(ContentTypes.OCTET_STREAM)
  }

  /** The start of the range: every `bytes=` is deleted from the header, the result is split at
      '-' and its first piece is read with `Long.parseLong`. That first piece is the text before
      the first '-'. (When the text is nothing but dashes the split array is
      empty and indexing it throws instead; the text before the first '-' is then empty and
      fails to parse as well, so both exceptions are the one `None`.) */
  function ParseRangeStart(header: string): (r: Option<int>)
    ensures r.Some? ==> 0 <= r.value <= LONG_MAX
  {
    var spec := RemoveAll(header, BYTES_EQ);
    var first := spec[..Text.IndexOf(spec, '-')];
    var r := ParseLong(first);
    assert r.Some? ==> first[0] != '-';
    r
  }

  /** Deletion of `bytes=` cannot reach across a dash, so with no dash in `p` the start read
      from `bytes=` + p + `-` + tail is `p` with its own `bytes=` occurrences deleted. */
  lemma RangeStartOfPrefix(p: string, tail: string)
    requires '-' !in p
    ensures ParseRangeStart(BYTES_EQ + p + "-" + tail) == ParseLong(RemoveAll(p, BYTES_EQ))
  {
    var header := BYTES_EQ + p + "-" + tail;
    assert header[..|BYTES_EQ|] == BYTES_EQ;
    assert header[|BYTES_EQ|..] == p + ['-'] + tail;
    assert RemoveAll(header, BYTES_EQ) == RemoveAll(p + ['-'] + tail, BYTES_EQ);
    RemoveAllSplits(p, '-', tail, BYTES_EQ);
    var q := RemoveAll(p, BYTES_EQ);
    Text.SplitAtFirst(q, '-', RemoveAll(tail, BYTES_EQ));
  }

  /** `bytes=N-...` with N written in decimal starts at N, whatever follows the dash. */
  lemma RangeStartOfHeader(n: nat, tail: string)
    requires n <= LONG_MAX
    ensures ParseRangeStart(BYTES_EQ + Text.NatToString(n) + "-" + tail) == Some(n)
  {
    var digits := Text.NatToString(n);
    Text.NoNonDigit(digits, '-');
    Text.NoNonDigit(digits, 'b');
    RangeStartOfPrefix(digits, tail);
    RemoveAllAbsent(digits, BYTES_EQ);
    ParseLongOfToString(n);
  }

  /** Any end position in the header is ignored: only the text before the first dash counts. */
  lemma RangeEndIgnored(p: string, t1: string, t2: string)
    requires '-' !in p
    ensures ParseRangeStart(p + "-" + t1) == ParseRangeStart(p + "-" + t2)
  {
    RemoveAllSplits(p, '-', t1, BYTES_EQ);
    RemoveAllSplits(p, '-', t2, BYTES_EQ);
    var q := RemoveAll(p, BYTES_EQ);
    Text.SplitAtFirst(q, '-', RemoveAll(t1, BYTES_EQ));
    Text.SplitAtFirst(q, '-', RemoveAll(t2, BYTES_EQ));
  }

  /** A suffix range (`bytes=-N`, section 2.1 of RFC 7233) has no start and fails to parse. */
  lemma SuffixRangeFails(tail: string)
    ensures ParseRangeStart(BYTES_EQ + "-" + tail) == None
  {
    RangeStartOfPrefix([], tail);
    assert BYTES_EQ + [] + "-" + tail == BYTES_EQ + "-" + tail;
  }

  /** A start that still holds a character other than a digit or a sign once every `bytes=` is
      deleted from it (`5b`, `abc`, `1.5`) fails to parse. */
  lemma NonNumericStartFails(p: string, k: nat, tail: string)
    requires '-' !in p
    requires var q := RemoveAll(p, BYTES_EQ); k < |q| && !Text.IsDigit(q[k]) && q[k] != '+'
    ensures ParseRangeStart(BYTES_EQ + p + "-" + tail) == None
  {
    RangeStartOfPrefix(p, tail);
  }

  /** The end computation of `streamVideoRange`, in `long` arithmetic: the last byte of a chunk starting at `start`, clamped
      to the last byte of the file. */
  function RangeEndAsWritten(start: int, chunk: int, fileLength: int): int {
    var end := WrapLong(start + chunk - 1);
    if end >= fileLength then fileLength - 1 else end
  }

  /** For a start inside the file (and no overflow), the chunk ends at the earlier of its own
      last byte and the file's, so it holds between 1 and `chunk` bytes, all inside the file. */
  lemma RangeEndClamps(start: int, chunk: int, fileLength: int)
    requires 0 <= start < fileLength <= LONG_MAX
    requires 0 < chunk && start + chunk - 1 <= LONG_MAX
    ensures var end := RangeEndAsWritten(start, chunk, fileLength);
            && end == (if start + chunk - 1 < fileLength - 1 then start + chunk - 1 else fileLength - 1)
            && start <= end < fileLength
            && 1 <= end - start + 1 <= chunk
  {
  }

  /** The `Content-Range` value: `"bytes " + first + "-" + last + "/" + complete`. */
  function ContentRangeText(first: int, last: int, complete: int): string {
    "bytes " + Text.IntToString(first) + "-" + Text.IntToString(last) + "/" + Text.IntToString(complete)
  }

  /** A byte-range-resp of section 4.2 of RFC 7233 is valid when its last position is not before
      its first and lies inside the complete length. */
  predicate ValidByteRange(first: int, last: int, complete: int) {
    0 <= first <= last < complete
  }

  /** Cuts `bytes first-last/complete` into its three number fields, at the first dash after
      the unit and the first slash after that. */
  function ContentRangeFields(s: string): Option<(string, string, string)> {
    if !Text.StartsWith(s, "bytes ") then None
    else
      var rest := s[6..];
      var i := Text.IndexOf(rest, '-');
      if i == |rest| then None
      else
        var tail := rest[i + 1..];
        var j := Text.IndexOf(tail, '/');
        if j == |tail| then None
        else Some((rest[..i], tail[..j], tail[j + 1..]))
  }

  /** Reads a `Content-Range` value of the form `bytes first-last/complete` back into numbers. */
  function ParseContentRange(s: string): Option<(int, int, int)> {
    match ContentRangeFields(s)
    case None => None
    case Some((a, b, c)) =>
      match (ParseLong(a), ParseLong(b), ParseLong(c))
      case (Some(x), Some(y), Some(z)) => Some((x, y, z))
      case _ => None
  }

  /** The header text determines the three numbers it was written from. */
  lemma ContentRangeRoundTrip(first: nat, last: int, complete: nat)
    requires first <= LONG_MAX && IsLong(last) && complete <= LONG_MAX
    ensures ParseContentRange(ContentRangeText(first, last, complete)) == Some((first, last, complete))
  {
    var a, b, c := Text.IntToString(first), Text.IntToString(last), Text.IntToString(complete);
    Text.NoNonDigit(a, '-');
    Text.IntToStringChars(last, '/');
    CutFields(a, b, c);
    ParseLongOfToString(first);
    ParseLongOfToString(last);
    ParseLongOfToString(complete);
  }

  /** With no dash in the first field and no slash in the second, the fields are cut apart
      exactly where they were joined. */
  lemma CutFields(a: string, b: string, c: string)
    requires '-' !in a && '/' !in b
    ensures ContentRangeFields("bytes " + a + "-" + b + "/" + c) == Some((a, b, c))
  {
    var s := "bytes " + a + "-" + b + "/" + c;
    var tail := b + ['/'] + c;
    assert s == "bytes " + (a + ['-'] + tail);
    assert s[..6] == "bytes " && s[6..] == a + ['-'] + tail;
    Text.SplitAtFirst(a, '-', tail);
    Text.SplitAtFirst(b, '/', c);
  }

  /** Why a request ended in status 500. */
  datatype Failure =
    | MalformedRange     // NumberFormatException or ArrayIndexOutOfBoundsException, not caught
    | NegativeArraySize  // `new byte[(int) contentLength]` with a negative size, not caught
    | ReadFailed         // IOException opening or reading the file, caught

  datatype RangeResponse =
    | WholeFile(contentType: string, length: nat)                               // 200
    | PartialContent(contentType: string, contentRange: string, contentLength: int)  // 206
    | NotSatisfiable(contentRange: string)                                       // 416
    | ServerError(cause: Failure)                                                // 500

  function Status(r: RangeResponse): int {
    match r
    case WholeFile(_, _) => 200
    case PartialContent(_, _, _) => 206
    case NotSatisfiable(_) => 416
    case ServerError(_) => 500
  }

  /** `streamVideoRange` as written. Nothing checks the start against the file length: a start
      at the end of the file yields an empty 206 response whose `Content-Range` ends before it
      begins. A start up to 2^31 bytes past the end makes the array size negative; a start
      farther past can wrap the `int` cast to a non-negative size and is answered 206 with a
      negative `Content-Length`. */
  function StreamRangeAsWritten(stored: Option<string>, fileLength: nat, range: Option<string>,
                                chunk: int, openFails: bool): RangeResponse
    requires 0 < chunk <= INT_MAX && fileLength <= LONG_MAX
  {
    var contentType := ContentTypeOrDefault(stored);
    match range
    case None => WholeFile(contentType, fileLength)
    case Some(header) =>
      match ParseRangeStart(header)
      case None => ServerError(MalformedRange)
      case Some(start) => ServeFromAsWritten(contentType, fileLength, start, chunk, openFails)
  }

  /** `streamVideoRange` for a parsed start: the chunk's end, the array allocation and the response. */
  function ServeFromAsWritten(contentType: string, fileLength: nat, start: int, chunk: int,
                              openFails: bool): RangeResponse
  {
    var end := RangeEndAsWritten(start, chunk, fileLength);
    if openFails then ServerError(ReadFailed)
    else
      var contentLength := WrapLong(end - start + 1);
      if NarrowToInt(contentLength) < 0 then ServerError(NegativeArraySize)
      else PartialContent(contentType, ContentRangeText(start, end, fileLength), contentLength)
  }

  /** Without a `Range` header the whole file is sent with status 200. */
  lemma NoRangeServesWholeFile(stored: Option<string>, fileLength: nat, chunk: int, openFails: bool)
    requires 0 < chunk <= INT_MAX && fileLength <= LONG_MAX
    ensures StreamRangeAsWritten(stored, fileLength, None, chunk, openFails)
         == WholeFile(ContentTypeOrDefault(stored), fileLength)
    ensures StreamRange(stored, fileLength, None, chunk, openFails)
         == WholeFile(ContentTypeOrDefault(stored), fileLength)
  {
  }

  /** A start inside the file is served as written: status 206, between 1 and `chunk` bytes, and
      a valid `Content-Range` naming the first and last byte sent and the file length. */
  lemma AsWrittenInsideFile(stored: Option<string>, fileLength: nat, header: string, chunk: int)
    requires 0 < chunk <= INT_MAX && fileLength <= LONG_MAX
    requires ParseRangeStart(header).Some? && ParseRangeStart(header).value < fileLength
    requires ParseRangeStart(header).value + chunk - 1 <= LONG_MAX
    ensures var start := ParseRangeStart(header).value;
            var end := RangeEndAsWritten(start, chunk, fileLength);
            && StreamRangeAsWritten(stored, fileLength, Some(header), chunk, false)
               == PartialContent(ContentTypeOrDefault(stored), ContentRangeText(start, end, fileLength),
                                 end - start + 1)
            && ValidByteRange(start, end, fileLength)
            && 1 <= end - start + 1 <= chunk
  {
    var start := ParseRangeStart(header).value;
    RangeEndClamps(start, chunk, fileLength);
    var end := RangeEndAsWritten(start, chunk, fileLength);
    assert WrapLong(end - start + 1) == end - start + 1 by {
      assert IsLong(end - start + 1);
    }
    assert NarrowToInt(end - start + 1) == end - start + 1;
  }

  /** The defect: a start equal to the file length is answered 206 with no bytes and a
      `Content-Range` whose last byte precedes its first, which section 4.2 of RFC 7233 calls
      invalid. */
  lemma AsWrittenStartAtEnd(stored: Option<string>, fileLength: nat, chunk: int)
    requires 0 < chunk <= INT_MAX && fileLength <= LONG_MAX - INT_MAX
    ensures var header := BYTES_EQ + Text.NatToString(fileLength) + "-";
            && StreamRangeAsWritten(stored, fileLength, Some(header), chunk, false)
               == PartialContent(ContentTypeOrDefault(stored),
                                 ContentRangeText(fileLength, fileLength - 1, fileLength), 0)
            && !ValidByteRange(fileLength, fileLength - 1, fileLength)
  {
    var header := BYTES_EQ + Text.NatToString(fileLength) + "-";
    RangeStartOfHeader(fileLength, "");
    assert header + "" == header;
    assert ParseRangeStart(header) == Some(fileLength);
    assert RangeEndAsWritten(fileLength, chunk, fileLength) == fileLength - 1;
  }

  /** ... and a start just past the end fails with a negative array size. */
  lemma AsWrittenStartPastEnd(stored: Option<string>, fileLength: nat, start: nat, chunk: int)
    requires 0 < chunk <= INT_MAX && fileLength <= LONG_MAX - 2 * INT_MAX
    requires fileLength < start <= fileLength + INT_MAX
    ensures StreamRangeAsWritten(stored, fileLength, Some(BYTES_EQ + Text.NatToString(start) + "-"), chunk, false)
         == ServerError(NegativeArraySize)
  {
    var header := BYTES_EQ + Text.NatToString(start) + "-";
    RangeStartOfHeader(start, "");
    assert header + "" == header;
    assert ParseRangeStart(header) == Some(start);
    var end := RangeEndAsWritten(start, chunk, fileLength);
    assert end == fileLength - 1 by {
      assert IsLong(start + chunk - 1);
    }
    var contentLength := WrapLong(end - start + 1);
    assert contentLength == fileLength - start by {
      assert IsLong(end - start + 1);
    }
    assert NarrowToInt(contentLength) < 0 by {
      assert INT_MIN <= contentLength <= INT_MAX;
    }
  }

  /** Every start past the end whose chunk does not overflow: the `int` cast of the negative
      length decides. When it is negative the allocation fails; otherwise, as for a start
      2^32 bytes past the end, the response is 206 with the negative length and a
      `Content-Range` ending at the file's last byte. */
  lemma AsWrittenPastEnd(stored: Option<string>, fileLength: nat, header: string, chunk: int)
    requires 0 < chunk <= INT_MAX && fileLength <= LONG_MAX
    requires ParseRangeStart(header).Some? && ParseRangeStart(header).value > fileLength
    requires ParseRangeStart(header).value + chunk - 1 <= LONG_MAX
    ensures var start := ParseRangeStart(header).value;
            var r := StreamRangeAsWritten(stored, fileLength, Some(header), chunk, false);
            && (r == ServerError(NegativeArraySize) <==> NarrowToInt(fileLength - start) < 0)
            && (NarrowToInt(fileLength - start) >= 0 ==>
                  r == PartialContent(ContentTypeOrDefault(stored),
                                      ContentRangeText(start, fileLength - 1, fileLength),
                                      fileLength - start)
                  && r.contentLength < 0
                  && !ValidByteRange(start, fileLength - 1, fileLength))
  {
    var start := ParseRangeStart(header).value;
    assert RangeEndAsWritten(start, chunk, fileLength) == fileLength - 1 by {
      assert IsLong(start + chunk - 1);
    }
    assert WrapLong(fileLength - start) == fileLength - start by {
      assert IsLong(fileLength - start);
    }
  }

  /** A start exactly 2^32 bytes past the end, such as `Range: bytes=4294967306-` for a file
      of 10 bytes: the length -2^32 narrows to the `int` 0, no exception is thrown, and the
      answer is 206 with `Content-Length` -2^32 and a `Content-Range` that ends before it
      begins. */
  lemma AsWrittenWrappedLength(stored: Option<string>, fileLength: nat, chunk: int)
    requires 0 < chunk <= INT_MAX && fileLength + 0x1_0000_0000 + chunk - 1 <= LONG_MAX
    ensures var start := fileLength + 0x1_0000_0000;
            StreamRangeAsWritten(stored, fileLength, Some(BYTES_EQ + Text.NatToString(start) + "-"), chunk, false)
            == PartialContent(ContentTypeOrDefault(stored), ContentRangeText(start, fileLength - 1, fileLength),
                              -0x1_0000_0000)
  {
    var start := fileLength + 0x1_0000_0000;
    var header := BYTES_EQ + Text.NatToString(start) + "-";
    RangeStartOfHeader(start, "");
    assert header + "" == header;
    assert ParseRangeStart(header) == Some(start);
    assert NarrowToInt(fileLength - start) == 0 by {
      assert fileLength - start == -0x1_0000_0000;
    }
    AsWrittenPastEnd(stored, fileLength, header, chunk);
  }

  /** The decimal spelling of 2^32 + 10, one digit at a time. */
  lemma WrappedExampleDigits()
    ensures Text.NatToString(4294967306) == "4294967306"
  {
    assert Text.NatToString(4) == "4";
    assert Text.NatToString(42) == "42";
    assert Text.NatToString(429) == "429";
    assert Text.NatToString(4294) == "4294";
    assert Text.NatToString(42949) == "42949";
    assert Text.NatToString(429496) == "429496";
    assert Text.NatToString(4294967) == "4294967";
    assert Text.NatToString(42949673) == "42949673";
    assert Text.NatToString(429496730) == "429496730";
  }

  /** The instance for a file of 10 bytes, with the header written out. */
  lemma AsWrittenWrappedLengthExample(header: string)
    requires header == "bytes=4294967306-"
    ensures StreamRangeAsWritten(None, 10, Some(header), 1024, false)
         == PartialContent(ContentTypes.OCTET_STREAM, ContentRangeText(4294967306, 9, 10), -0x1_0000_0000)
  {
    WrappedExampleDigits();
    assert BYTES_EQ + Text.NatToString(4294967306) + "-" == header;
    AsWrittenWrappedLength(None, 10, 1024);
  }

  /** The unsatisfied-range form of section 4.4 of RFC 7233: "bytes", a star and the complete length. */
  function UnsatisfiedRangeText(complete: nat): string {
    "bytes */" + Text.NatToString(complete)
  }

  /** `streamVideoRange` with the start checked: a start at or past the end of the file is
      answered 416 with the unsatisfied-range header; otherwise the chunk is computed without
      overflow and served as before. */
  function StreamRange(stored: Option<string>, fileLength: nat, range: Option<string>,
                       chunk: int, openFails: bool): (r: RangeResponse)
    requires 0 < chunk <= INT_MAX && fileLength <= LONG_MAX
    ensures range.None? ==> r == WholeFile(ContentTypeOrDefault(stored), fileLength)
    ensures range.Some? && ParseRangeStart(range.value).None? ==> r == ServerError(MalformedRange)
    ensures range.Some? && ParseRangeStart(range.value).Some? ==>
      r == ServeFrom(ContentTypeOrDefault(stored), fileLength, ParseRangeStart(range.value).value, chunk, openFails)
  {
    var contentType := ContentTypeOrDefault(stored);
    match range
    case None => WholeFile(contentType, fileLength)
    case Some(header) =>
      match ParseRangeStart(header)
      case None => ServerError(MalformedRange)
      case Some(start) => ServeFrom(contentType, fileLength, start, chunk, openFails)
  }

  /** The checked handling of a parsed start. Every 206 it gives carries a valid byte range of
      between 1 and `chunk` bytes starting at `start`, and it gives 416 exactly when the start is
      not inside the file. */
  function ServeFrom(contentType: string, fileLength: nat, start: int, chunk: int,
                     openFails: bool): (r: RangeResponse)
    requires 0 < chunk && 0 <= start
    ensures start >= fileLength <==> r.NotSatisfiable?
    ensures r.NotSatisfiable? ==> r.contentRange == UnsatisfiedRangeText(fileLength)
    ensures start < fileLength && openFails ==> r == ServerError(ReadFailed)
    ensures start < fileLength && !openFails ==>
      && r.PartialContent? && r.contentType == contentType
      && exists last :: ValidByteRange(start, last, fileLength)
           && r.contentRange == ContentRangeText(start, last, fileLength)
           && r.contentLength == last - start + 1 <= chunk
    ensures start < fileLength && !openFails ==>
      r.contentLength == (if fileLength - start <= chunk then fileLength - start else chunk)
  {
    if start >= fileLength then NotSatisfiable(UnsatisfiedRangeText(fileLength))
    else
      var end := if fileLength - start <= chunk then fileLength - 1 else start + chunk - 1;
      if openFails then ServerError(ReadFailed)
      else
        var r := PartialContent(contentType, ContentRangeText(start, end, fileLength), end - start + 1);
        assert ValidByteRange(start, end, fileLength);
        r
  }

  /** The checked version agrees with the code wherever the code's answer is valid: for every
      start inside the file whose chunk does not overflow. */
  lemma ServeFromAgreesInsideFile(contentType: string, fileLength: nat, start: int, chunk: int, openFails: bool)
    requires 0 < chunk <= INT_MAX && fileLength <= LONG_MAX
    requires 0 <= start < fileLength && start + chunk - 1 <= LONG_MAX
    ensures ServeFrom(contentType, fileLength, start, chunk, openFails)
         == ServeFromAsWritten(contentType, fileLength, start, chunk, openFails)
  {
    RangeEndClamps(start, chunk, fileLength);
    var end := RangeEndAsWritten(start, chunk, fileLength);
    assert end == (if fileLength - start <= chunk then fileLength - 1 else start + chunk - 1);
    assert WrapLong(end - start + 1) == end - start + 1 by {
      assert IsLong(end - start + 1);
    }
    assert NarrowToInt(end - start + 1) == end - start + 1;
  }

  /** The same for whole requests: the two differ only for starts outside the file. */
  lemma StreamRangeAgreesInsideFile(stored: Option<string>, fileLength: nat, header: string, chunk: int, openFails: bool)
    requires 0 < chunk <= INT_MAX && fileLength <= LONG_MAX
    requires ParseRangeStart(header).Some? && ParseRangeStart(header).value < fileLength
    requires ParseRangeStart(header).value + chunk - 1 <= LONG_MAX
    ensures StreamRange(stored, fileLength, Some(header), chunk, openFails)
         == StreamRangeAsWritten(stored, fileLength, Some(header), chunk, openFails)
  {
    ServeFromAgreesInsideFile(ContentTypeOrDefault(stored), fileLength, ParseRangeStart(header).value, chunk, openFails);
  }

  /** The status codes of the code as written: 200 exactly without a `Range` header, 500 for an
      unparsable start or a failed read, and never 416. */
  lemma AsWrittenStatus(stored: Option<string>, fileLength: nat, range: Option<string>, chunk: int, openFails: bool)
    requires 0 < chunk <= INT_MAX && fileLength <= LONG_MAX
    ensures var r := StreamRangeAsWritten(stored, fileLength, range, chunk, openFails);
            && (Status(r) == 200 <==> range.None?)
            && (range.Some? && (ParseRangeStart(range.value).None? || openFails) ==> Status(r) == 500)
            && Status(r) != 416
  {
  }

  /** The status codes of the checked version: 200 without a header, 416 exactly for a parsed
      start at or past the end, 206 exactly for a start inside a readable file, and 500 otherwise. */
  lemma StreamRangeStatus(stored: Option<string>, fileLength: nat, range: Option<string>, chunk: int, openFails: bool)
    requires 0 < chunk <= INT_MAX && fileLength <= LONG_MAX
    ensures var r := StreamRange(stored, fileLength, range, chunk, openFails);
            var start := if range.Some? then ParseRangeStart(range.value) else None;
            && (Status(r) == 200 <==> range.None?)
            && (Status(r) == 416 <==> start.Some? && start.value >= fileLength)
            && (Status(r) == 206 <==> start.Some? && start.value < fileLength && !openFails)
            && (Status(r) == 500 <==>
                  range.Some? && (start.None? || (start.value < fileLength && openFails)))
  {
  }
}
