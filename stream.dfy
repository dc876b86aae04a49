/**
 * Video streaming with byte ranges: parsing the `Range` request header
 * (the `first-last` and `first-` forms of section 2.1 of RFC 7233), the
 * 404/416/206 decision, the `Content-Range` of section 4.2, and the chunked
 * reading of the requested bytes.  The file is its content (`None` when the
 * path does not exist); the response body is the list of chunks the
 * generator yields.
 */
module Stream {
  import opened Common

  newtype byte = x: int | 0 <= x < 256

  // ---------------------------------------------------------------------------
  // get_range_header
  // ---------------------------------------------------------------------------

  /** A parsed `first-last` or `first-` range. */
  datatype RangeSpec = RangeSpec(first: int, last: Option<int>)

  /** `unit, ranges = header.split("=")` ... `start, end = ...`: `None` where
      the source raises ValueError (a split that does not give exactly two
      pieces, or an integer that does not parse), `Some(None)` for a unit
      other than "bytes", which returns the whole file. */
  function ParseRangeSpec(header: string): Option<Option<RangeSpec>> {
    var parts := SplitOn(header, '=');
    if |parts| != 2 then None
    else if parts[0] != "bytes" then Some(None)
    else
      match ParseBounds(parts[1])
      case None => None
      case Some(spec) => Some(Some(spec))
  }

  /** `start_str, end_str = ranges.split("-")` and the two `int()` calls. */
  function ParseBounds(ranges: string): Option<RangeSpec> {
    var bounds := SplitOn(ranges, '-');
    if |bounds| != 2 then None
    else
      match ParseInt(bounds[0])
      case None => None
      case Some(first) =>
        if bounds[1] == [] then Some(RangeSpec(first, None))
        else
          match ParseInt(bounds[1])
          case None => None
          case Some(last) => Some(RangeSpec(first, Some(last)))
  }

  /** A parsed start never is negative: the start text holds no '-'. */
  lemma RangeSpecFirstNonNegative(header: string)
    requires ParseRangeSpec(header).Some? && ParseRangeSpec(header).value.Some?
    ensures ParseRangeSpec(header).value.value.first >= 0
  {
    var parts := SplitOn(header, '=');
    ParseBoundsFirstNonNegative(parts[1]);
  }

  lemma ParseBoundsFirstNonNegative(ranges: string)
    requires ParseBounds(ranges).Some?
    ensures ParseBounds(ranges).value.first >= 0
  {
    ParseIntNonNegative(SplitOn(ranges, '-')[0]);
  }

  /** `get_range_header` as written: `(0, size - 1)` for a missing or empty
      header, another unit or a parse failure; otherwise `(first, last)`, with
      `last` defaulting to `size - 1`. */
  function GetRangeHeaderAsWritten(header: Option<string>, size: int): (r: (int, int))
    ensures header.None? || header == Some("") ==> r.0 == 0 && r.1 == size - 1
  {
    if header.None? || header.value == [] then (0, size - 1)
    else
      match ParseRangeSpec(header.value)
      case None => (0, size - 1)
      case Some(None) => (0, size - 1)
      case Some(Some(spec)) => (spec.first, if spec.last.Some? then spec.last.value else size - 1)
  }

  /** `get_range_header` with a `first-last` range whose last position is
      below its first treated as invalid, as section 2.1 of RFC 7233 requires:
      the header is then ignored like any other malformed one. */
  function GetRangeHeader(header: Option<string>, size: int): (r: (int, int))
    ensures r.0 >= 0
    ensures header.None? || header == Some("") ==> r.0 == 0 && r.1 == size - 1
    ensures r.0 != 0 ==> r.1 >= r.0 || r.1 == size - 1
  {
    if header.None? || header.value == [] then (0, size - 1)
    else
      match ParseRangeSpec(header.value)
      case None => (0, size - 1)
      case Some(None) => (0, size - 1)
      case Some(Some(spec)) =>
        RangeSpecFirstNonNegative(header.value);
        if spec.last.Some? && spec.last.value < spec.first then (0, size - 1)
        else (spec.first, if spec.last.Some? then spec.last.value else size - 1)
  }

  /** The corrected parse differs from the code as written only on an
      inverted `first-last` range. */
  lemma GetRangeHeaderCorrectsOnlyInverted(header: Option<string>, size: int)
    ensures GetRangeHeader(header, size) != GetRangeHeaderAsWritten(header, size) ==>
      header.Some? && ParseRangeSpec(header.value).Some? && ParseRangeSpec(header.value).value.Some? &&
      var spec := ParseRangeSpec(header.value).value.value;
      spec.last.Some? && spec.last.value < spec.first
  {
  }

  /** After a successful corrected parse, an answer of 206 always has its
      start no later than its end. */
  lemma CorrectedRangeOrdered(header: Option<string>, size: int)
    ensures var r := GetRangeHeader(header, size);
      RangeStatus(r.0, r.1, size) == 206 ==> 0 <= r.0 <= r.1 < size
  {
    if header.Some? && header.value != [] && ParseRangeSpec(header.value).Some? && ParseRangeSpec(header.value).value.Some? {
      RangeSpecFirstNonNegative(header.value);
    }
  }

  // ---------------------------------------------------------------------------
  // The header forms
  // ---------------------------------------------------------------------------

  function FirstLastHeader(first: nat, last: nat): string {
    "bytes=" + NatToString(first) + "-" + NatToString(last)
  }

  function FirstOnlyHeader(first: nat): string {
    "bytes=" + NatToString(first) + "-"
  }

  /** A suffix range `bytes=-n`, which the code does not support. */
  function SuffixHeader(n: nat): string {
    "bytes=-" + NatToString(n)
  }

  lemma DigitsHaveNoSeparator(d: string)
    requires IsDigits(d)
    ensures '=' !in d && '-' !in d
  {
  }

  /** A `bytes=` header splits into the unit and the ranges text. */
  lemma ParseBytesHeader(ranges: string)
    requires '=' !in ranges
    ensures ParseRangeSpec("bytes=" + ranges) == if ParseBounds(ranges).Some? then Some(Some(ParseBounds(ranges).value)) else None
  {
    assert "bytes=" + ranges == "bytes" + ['='] + ranges;
    SplitOnSeparated("bytes", ranges, '=');
  }

  lemma ParseFirstLast(first: nat, last: nat)
    ensures ParseRangeSpec(FirstLastHeader(first, last)) == Some(Some(RangeSpec(first, Some(last))))
  {
    var a := NatToString(first);
    var b := NatToString(last);
    DigitsHaveNoSeparator(a);
    DigitsHaveNoSeparator(b);
    var ranges := a + ['-'] + b;
    assert FirstLastHeader(first, last) == "bytes=" + ranges;
    SplitOnSeparated(a, b, '-');
    assert SplitOn(b, '-') == [b];
    var bounds := SplitOn(ranges, '-');
    assert bounds == [a, b];
    ParseIntOfNatToString(first);
    ParseIntOfNatToString(last);
    assert ParseInt(bounds[0]) == Some(first) && ParseInt(bounds[1]) == Some(last) && bounds[1] != [];
    ParseBytesHeader(ranges);
  }

  lemma ParseFirstOnly(first: nat)
    ensures ParseRangeSpec(FirstOnlyHeader(first)) == Some(Some(RangeSpec(first, None)))
  {
    var a := NatToString(first);
    DigitsHaveNoSeparator(a);
    var ranges := a + ['-'] + [];
    assert FirstOnlyHeader(first) == "bytes=" + ranges;
    SplitOnSeparated(a, [], '-');
    ParseIntOfNatToString(first);
    assert ParseBounds(ranges) == Some(RangeSpec(first, None));
    ParseBytesHeader(ranges);
  }

  lemma ParseSuffix(n: nat)
    ensures ParseRangeSpec(SuffixHeader(n)).None?
  {
    var d := NatToString(n);
    DigitsHaveNoSeparator(d);
    var ranges := [] + ['-'] + d;
    assert SuffixHeader(n) == "bytes=" + ranges;
    SplitOnSeparated([], d, '-');
    assert Strip([]) == [];
    assert ParseBounds(ranges).None?;
    ParseBytesHeader(ranges);
  }

  /** `bytes=a-b` yields `(a, b)` (the corrected parse ignores it when b < a),
      `bytes=a-` yields `(a, size - 1)`, and the unsupported suffix form
      `bytes=-n` is ignored, giving the whole file. */
  lemma RangeHeaderForms(first: nat, last: nat, n: nat, size: int)
    ensures GetRangeHeaderAsWritten(Some(FirstLastHeader(first, last)), size) == (first, last)
    ensures GetRangeHeader(Some(FirstLastHeader(first, last)), size) == if last < first then (0, size - 1) else (first, last)
    ensures GetRangeHeaderAsWritten(Some(FirstOnlyHeader(first)), size) == (first, size - 1)
    ensures GetRangeHeader(Some(FirstOnlyHeader(first)), size) == (first, size - 1)
    ensures GetRangeHeaderAsWritten(Some(SuffixHeader(n)), size) == (0, size - 1)
    ensures GetRangeHeader(Some(SuffixHeader(n)), size) == (0, size - 1)
  {
    ParseFirstLast(first, last);
    ParseFirstOnly(first);
    ParseSuffix(n);
  }

  /** As written, an inverted range such as `bytes=10-5` on a 100-byte file
      passes the satisfiability test: the answer is 206 with a Content-Length
      of `last - first + 1`, zero or negative. */
  lemma InvertedRangeAsWritten(first: nat, last: nat, size: int)
    requires last < first < size
    ensures var r := GetRangeHeaderAsWritten(Some(FirstLastHeader(first, last)), size);
      RangeStatus(r.0, r.1, size) == 206 && r.1 - r.0 + 1 <= 0
  {
    RangeHeaderForms(first, last, 0, size);
  }

  // ---------------------------------------------------------------------------
  // file_iterator
  // ---------------------------------------------------------------------------

  /** The bytes the chunks carry, in order. */
  function Flatten(chunks: seq<seq<byte>>): seq<byte> {
    if chunks == [] then [] else Flatten(chunks[..|chunks| - 1]) + chunks[|chunks| - 1]
  }

  /** `f.read(n)` at offset `pos`: nothing at or past the end, the rest of the
      file for a negative `n`, otherwise up to `n` bytes. */
  function Read(data: seq<byte>, pos: int, n: int): (chunk: seq<byte>)
    requires pos >= 0
    ensures chunk != [] ==> pos < |data| && pos + |chunk| <= |data| && chunk == data[pos..pos + |chunk|]
    ensures n >= 0 ==> |chunk| <= n
    ensures pos < |data| && n > 0 ==> chunk != []
  {
    if pos >= |data| then [] else if n < 0 then data[pos..] else data[pos..Min(pos + n, |data|)]
  }

  /** Bytes `start` through `end` of `data`, clipped to its length. */
  function Window(data: seq<byte>, start: nat, end: int): seq<byte> {
    var lo := Min(start, |data|);
    data[lo..Max(lo, Min(end + 1, |data|))]
  }

  /** `file_iterator`: reads from `start` in chunks of at most `chunkSize`
      bytes until `end - start + 1` bytes are read or the file ends.  The
      chunks are non-empty and, for a positive chunk size, together are the
      bytes `start..end` that the file has. */
  method FileChunks(data: seq<byte>, start: nat, end: int, chunkSize: int) returns (chunks: seq<seq<byte>>)
    ensures forall k :: 0 <= k < |chunks| ==> |chunks[k]| > 0
    ensures chunkSize > 0 ==> Flatten(chunks) == Window(data, start, end)
    ensures chunkSize > 0 ==> forall k :: 0 <= k < |chunks| ==> |chunks[k]| <= chunkSize
  {
    var lo := Min(start, |data|);
    var pos := start;
    var remaining := end - start + 1;
    chunks := [];
    while remaining > 0
      invariant start <= pos && remaining == end + 1 - pos
      invariant lo + (pos - start) <= |data|
      invariant Flatten(chunks) == data[lo..lo + (pos - start)]
      invariant forall k :: 0 <= k < |chunks| ==> |chunks[k]| > 0
      invariant chunkSize > 0 ==> forall k :: 0 <= k < |chunks| ==> |chunks[k]| <= chunkSize
      invariant chunkSize > 0 ==> pos <= Max(start, end + 1)
      invariant chunks != [] ==> lo == start
      decreases remaining
    {
      var chunk := Read(data, pos, Min(chunkSize, remaining));
      if chunk == [] {
        break;
      }
      assert (chunks + [chunk])[..|chunks|] == chunks;
      chunks := chunks + [chunk];
      pos := pos + |chunk|;
      remaining := remaining - |chunk|;
    }
  }

  // ---------------------------------------------------------------------------
  // stream_video
  // ---------------------------------------------------------------------------

  datatype Response = Response(status: int, headers: seq<(string, string)>, body: seq<seq<byte>>)

  /** The generator's default chunk size. */
  const ChunkSize: int := 8192

  /** 416 when the start or the end lies past the file, 206 otherwise. */
  function RangeStatus(start: int, end: int, size: int): int {
    if start >= size || end >= size then 416 else 206
  }

  function ContentRange(start: int, end: int, size: int): string {
    "bytes " + IntToString(start) + "-" + IntToString(end) + "/" + IntToString(size)
  }

  function PartialHeaders(start: int, end: int, size: int): seq<(string, string)> {
    [("Content-Range", ContentRange(start, end, size)),
     ("Accept-Ranges", "bytes"),
     ("Content-Length", IntToString(end - start + 1)),
     ("Content-Type", "video/mp4")]
  }

  /** `stream_video`: 404 for a missing file; 416, whose Content-Range names only the size, when
      the range lies past the end (always so for an empty file); otherwise
      206, whose body is exactly bytes `start..end` of the file and whose
      Content-Length is the body's length. */
  method StreamVideo(file: Option<seq<byte>>, rangeHeader: Option<string>) returns (resp: Response)
    ensures file.None? ==> resp.status == 404 && resp.headers == [] && resp.body == []
    ensures file == Some([]) ==> resp.status == 416
    ensures file.Some? ==>
      var size := |file.value|;
      var r := GetRangeHeader(rangeHeader, size);
      (RangeStatus(r.0, r.1, size) == 416 ==>
        resp.status == 416 && resp.headers == [("Content-Range", "bytes */" + IntToString(size))] && resp.body == []) &&
      (RangeStatus(r.0, r.1, size) == 206 ==>
        resp.status == 206 && resp.headers == PartialHeaders(r.0, r.1, size) &&
        Flatten(resp.body) == file.value[r.0..r.1 + 1] && |Flatten(resp.body)| == r.1 - r.0 + 1 >= 1)
  {
    if file.None? {
      return Response(404, [], []);
    }
    var data := file.value;
    var size := |data|;
    var r := GetRangeHeader(rangeHeader, size);
    var start, end := r.0, r.1;
    if start >= size || end >= size {
      return Response(416, [("Content-Range", "bytes */" + IntToString(size))], []);
    }
    CorrectedRangeOrdered(rangeHeader, size);
    var chunks := FileChunks(data, start, end, ChunkSize);
    resp := Response(206, PartialHeaders(start, end, size), chunks);
  }
}
