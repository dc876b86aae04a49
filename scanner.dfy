/**
 * The media-library scanner: the `Series_SxxEyy_Title` file-name grammar,
 * the decision whether a file becomes library metadata, the path-keyed
 * upsert into the video table, the counters of a directory scan and the
 * file-watcher callbacks.  What the file system, the duration probe
 * (ffprobe) and the content hash report about a file is data carried by
 * each `FileEntry`.
 */
module Scanner {
  import opened Common
  import opened Models
  import opened Store

  // ---------------------------------------------------------------------------
  // File names
  // ---------------------------------------------------------------------------

  /** The extensions the library accepts, compared after lower-casing. */
  const SupportedExtensions: set<string> := {".mp4", ".mkv", ".avi", ".m4v", ".mov"}

  /** Position just after the last '/' of a path (0 when there is none). */
  function NameStart(path: string): (i: nat)
    ensures i <= |path|
    ensures forall k :: i <= k < |path| ==> path[k] != '/'
  {
    if path == [] then 0
    else if path[|path| - 1] == '/' then |path|
    else NameStart(path[..|path| - 1])
  }

  /** `Path(path).name`: the final component. */
  function Name(path: string): string {
    path[NameStart(path)..]
  }

  /** Index of the last '.' of a name, if any. */
  function LastDot(name: string): (r: Option<nat>)
    ensures r.Some? ==> (r.value < |name| && name[r.value] == '.' &&
      forall k :: r.value < k < |name| ==> name[k] != '.')
    ensures r.None? ==> forall k :: 0 <= k < |name| ==> name[k] != '.'
  {
    if name == [] then None
    else if name[|name| - 1] == '.' then Some(|name| - 1)
    else LastDot(name[..|name| - 1])
  }

  /** Where the suffix starts: at the last '.', unless that dot begins the
      name or ends it, in which case there is no suffix. */
  function SuffixStart(name: string): (i: nat)
    ensures i <= |name|
  {
    match LastDot(name)
    case Some(d) => if 0 < d < |name| - 1 then d else |name|
    case None => |name|
  }

  /** `Path(path).suffix`. */
  function Suffix(path: string): string {
    var name := Name(path);
    name[SuffixStart(name)..]
  }

  /** `Path(path).stem`. */
  function Stem(path: string): string {
    var name := Name(path);
    name[..SuffixStart(name)]
  }

  predicate IsSupported(path: string) {
    Lower(Suffix(path)) in SupportedExtensions
  }

  // ---------------------------------------------------------------------------
  // The pattern `(?P<series>.+?)_S(?P<season>\d+)E(?P<episode>\d+)(?:_(?P<title>.+))?`,
  // matched case-insensitively at the start of the stem.
  // ---------------------------------------------------------------------------

  /** Characters `S` matches case-insensitively (including the long s). */
  predicate IsS(c: char) { c == 'S' || c == 's' || c == 'ſ' }

  predicate IsE(c: char) { c == 'E' || c == 'e' }

  /** Length of the run of digits starting at `from`. */
  function DigitRun(s: string, from: nat): (n: nat)
    requires from <= |s|
    ensures from + n <= |s|
    ensures forall k :: from <= k < from + n ==> IsDigit(s[k])
    ensures from + n == |s| || !IsDigit(s[from + n])
    decreases |s| - from
  {
    if from < |s| && IsDigit(s[from]) then 1 + DigitRun(s, from + 1) else 0
  }

  /** Length of the run of characters other than a line break starting at `from`
      (what `.` may match). */
  function LineRun(s: string, from: nat): (n: nat)
    requires from <= |s|
    ensures from + n <= |s|
    ensures forall k :: from <= k < from + n ==> s[k] != '\n'
    ensures from + n == |s| || s[from + n] == '\n'
    decreases |s| - from
  {
    if from < |s| && s[from] != '\n' then 1 + LineRun(s, from + 1) else 0
  }

  /** The series group can end at `i`: `.+?` covers `stem[..i]` and
      `_S<digits>E<digits>` follows. */
  predicate MatchesAt(stem: string, i: nat) {
    1 <= i && i + 2 <= |stem| && LineRun(stem, 0) >= i &&
    stem[i] == '_' && IsS(stem[i + 1]) &&
    var d := DigitRun(stem, i + 2);
    d >= 1 && i + 2 + d < |stem| && IsE(stem[i + 2 + d]) &&
    DigitRun(stem, i + 3 + d) >= 1
  }

  /** The lazy series group tries the shortest prefix first. */
  function FirstMatch(stem: string, from: nat): (r: Option<nat>)
    requires from >= 1
    ensures r.Some? ==> (from <= r.value && MatchesAt(stem, r.value) &&
      forall k :: from <= k < r.value ==> !MatchesAt(stem, k))
    ensures r.None? ==> forall k :: from <= k ==> !MatchesAt(stem, k)
    decreases |stem| - from
  {
    if from + 2 > |stem| then None
    else if MatchesAt(stem, from) then Some(from)
    else FirstMatch(stem, from + 1)
  }

  /** What `parse_filename` returns on a match. */
  datatype ParsedName = ParsedName(series: string, season: nat, episodeCode: string, title: Option<string>)

  /** `S%02dE%02d`. */
  function EpisodeCode(season: nat, episode: nat): string {
    "S" + Pad2(season) + "E" + Pad2(episode)
  }

  /** `text.replace("_", " ").strip()`. */
  function Clean(text: string): string {
    Strip(ReplaceChar(text, '_', ' '))
  }

  /** Where the season digits end (the position of the `E`). */
  function SeasonEnd(stem: string, i: nat): (p: nat)
    requires i + 2 <= |stem|
    ensures p <= |stem|
  {
    i + 2 + DigitRun(stem, i + 2)
  }

  /** The digits of the season group. */
  function SeasonDigits(stem: string, i: nat): (d: string)
    requires i + 2 <= |stem|
    ensures forall k :: 0 <= k < |d| ==> IsDigit(d[k])
  {
    var d := stem[i + 2..SeasonEnd(stem, i)];
    assert forall k :: 0 <= k < |d| ==> d[k] == stem[i + 2 + k];
    d
  }

  /** Where the episode digits end. */
  function EpisodeEnd(stem: string, p: nat): (q: nat)
    requires p < |stem|
    ensures q <= |stem|
  {
    p + 1 + DigitRun(stem, p + 1)
  }

  /** The digits of the episode group. */
  function EpisodeDigits(stem: string, p: nat): (d: string)
    requires p < |stem|
    ensures forall k :: 0 <= k < |d| ==> IsDigit(d[k])
  {
    var d := stem[p + 1..EpisodeEnd(stem, p)];
    assert forall k :: 0 <= k < |d| ==> d[k] == stem[p + 1 + k];
    d
  }

  /** The optional `_(?P<title>.+)` group after the episode digits, as matched. */
  function TitleGroup(stem: string, q: nat): Option<string>
    requires q <= |stem|
  {
    if q + 1 < |stem| && stem[q] == '_' && LineRun(stem, q + 1) >= 1
    then Some(stem[q + 1..q + 1 + LineRun(stem, q + 1)])
    else None
  }

  /** `parse_filename` applied to the stem of a file name: None when the
      pattern does not match at the start of the stem. */
  function ParseStem(stem: string): (r: Option<ParsedName>)
    ensures r.Some? <==> exists i :: 1 <= i && MatchesAt(stem, i)
    ensures r.Some? ==> exists e: nat :: r.value.episodeCode == EpisodeCode(r.value.season, e)
  {
    match FirstMatch(stem, 1)
    case None => None
    case Some(i) =>
      var p := SeasonEnd(stem, i);
      Some(NameOf(stem[..i], SeasonDigits(stem, i), EpisodeDigits(stem, p), TitleGroup(stem, EpisodeEnd(stem, p))))
  }

  /** The parsed name built from the matched groups: cleaned series, numeric
      season, the episode code rebuilt from both numbers and the cleaned title. */
  function NameOf(series: string, sd: string, ed: string, title: Option<string>): ParsedName
    requires forall k :: 0 <= k < |sd| ==> IsDigit(sd[k])
    requires forall k :: 0 <= k < |ed| ==> IsDigit(ed[k])
  {
    var season := DigitsValue(sd);
    ParsedName(Clean(series), season, EpisodeCode(season, DigitsValue(ed)),
      match title case None => None case Some(t) => Some(Clean(t)))
  }

  function ParseFilename(path: string): (r: Option<ParsedName>)
    ensures r.Some? <==> exists i :: 1 <= i && MatchesAt(Stem(path), i)
    ensures r.Some? ==> exists e: nat :: r.value.episodeCode == EpisodeCode(r.value.season, e)
  {
    ParseStem(Stem(path))
  }

  // ---------------------------------------------------------------------------
  // Lemmas about the grammar
  // ---------------------------------------------------------------------------

  lemma {:induction false} DigitRunOfDigits(s: string, from: nat, n: nat)
    requires from + n <= |s|
    requires forall k :: from <= k < from + n ==> IsDigit(s[k])
    requires from + n == |s| || !IsDigit(s[from + n])
    ensures DigitRun(s, from) == n
    decreases n
  {
    if n > 0 {
      DigitRunOfDigits(s, from + 1, n - 1);
    }
  }

  lemma {:induction false} LineRunOf(s: string, from: nat, n: nat)
    requires from + n <= |s|
    requires forall k :: from <= k < from + n ==> s[k] != '\n'
    requires from + n == |s| || s[from + n] == '\n'
    ensures LineRun(s, from) == n
    decreases n
  {
    if n > 0 {
      LineRunOf(s, from + 1, n - 1);
    }
  }

  lemma {:induction false} LineRunAtLeast(s: string, from: nat, n: nat)
    requires from + n <= |s|
    requires forall k :: from <= k < from + n ==> s[k] != '\n'
    ensures LineRun(s, from) >= n
    decreases n
  {
    if n > 0 {
      LineRunAtLeast(s, from + 1, n - 1);
    }
  }

  /** A stem yields nothing exactly when `_S<digits>E<digits>` follows no
      non-empty single-line prefix of it. */
  lemma ParseStemNone(stem: string)
    ensures ParseStem(stem).None? <==> forall i :: !MatchesAt(stem, i)
  {
    var r := FirstMatch(stem, 1);
    if r.Some? {
      assert MatchesAt(stem, r.value);
    } else {
      forall i ensures !MatchesAt(stem, i) {
        assert i < 1 ==> !MatchesAt(stem, i);
      }
    }
  }

  /** In particular a stem without an underscore never matches. */
  lemma NoUnderscoreNoMatch(stem: string)
    requires forall k :: 0 <= k < |stem| ==> stem[k] != '_'
    ensures ParseStem(stem).None?
  {
    ParseStemNone(stem);
  }

  /** Formatting a name by the grammar and parsing it back gives the cleaned
      series, the season, the canonical upper-case episode code and the
      cleaned title, whichever case the `S` and `E` markers were written in,
      provided the lazy series group cannot stop earlier, that is no
      `_S<digits>E<digits>` starts inside the series. */
  lemma ParseStemRoundTrip(series: string, s: char, season: nat, e: char, episode: nat, title: string)
    requires |series| >= 1
    requires forall k :: 0 <= k < |series| ==> series[k] != '\n'
    requires forall k :: 0 <= k < |title| ==> title[k] != '\n'
    requires IsS(s) && IsE(e)
    requires forall k :: 1 <= k < |series| ==>
      !MatchesAt(series + "_" + [s] + Pad2(season) + [e] + Pad2(episode) + "_" + title, k)
    ensures var stem := series + "_" + [s] + Pad2(season) + [e] + Pad2(episode) + "_" + title;
      ParseStem(stem) == Some(ParsedName(Clean(series), season, EpisodeCode(season, episode),
        if title == [] then None else Some(Clean(title))))
  {
    var sd := Pad2(season);
    var ed := Pad2(episode);
    var stem := series + "_" + [s] + sd + [e] + ed + "_" + title;
    var i := |series|;
    var p := i + 2 + |sd|;
    var q := p + 1 + |ed|;
    ConcatLayout(stem, series, s, sd, e, ed, title, i, p, q);
    LayoutPositions(stem, i, p, q);
    ParseStemFromParts(stem, i, p, q, if title == [] then None else Some(title));
  }

  /** In particular the round trip holds for a series without an underscore,
      where no match can start. */
  lemma ParseStemRoundTripPlain(series: string, s: char, season: nat, e: char, episode: nat, title: string)
    requires |series| >= 1
    requires forall k :: 0 <= k < |series| ==> series[k] != '_' && series[k] != '\n'
    requires forall k :: 0 <= k < |title| ==> title[k] != '\n'
    requires IsS(s) && IsE(e)
    ensures var stem := series + "_" + [s] + Pad2(season) + [e] + Pad2(episode) + "_" + title;
      ParseStem(stem) == Some(ParsedName(Clean(series), season, EpisodeCode(season, episode),
        if title == [] then None else Some(Clean(title))))
  {
    var stem := series + "_" + [s] + Pad2(season) + [e] + Pad2(episode) + "_" + title;
    forall k | 1 <= k < |series| ensures !MatchesAt(stem, k) {
      assert stem[k] == series[k];
    }
    ParseStemRoundTrip(series, s, season, e, episode, title);
  }

  /** The positions of a stem assembled from its parts, stated character by character. */
  lemma ConcatLayout(stem: string, series: string, s: char, sd: string, e: char, ed: string, title: string,
                     i: nat, p: nat, q: nat)
    requires stem == series + "_" + [s] + sd + [e] + ed + "_" + title
    requires i == |series| && p == i + 2 + |sd| && q == p + 1 + |ed|
    requires 1 <= i && 1 <= |sd| && 1 <= |ed|
    requires forall k :: 0 <= k < |series| ==> series[k] != '\n'
    requires forall k :: 0 <= k < |title| ==> title[k] != '\n'
    requires forall k :: 0 <= k < |sd| ==> IsDigit(sd[k])
    requires forall k :: 0 <= k < |ed| ==> IsDigit(ed[k])
    requires IsS(s) && IsE(e)
    ensures stem[..i] == series && stem[i + 2..p] == sd && stem[p + 1..q] == ed && stem[q + 1..] == title
    ensures (forall k :: 0 <= k < i ==> stem[k] != '\n') &&
      stem[i] == '_' && IsS(stem[i + 1]) &&
      (forall k :: i + 2 <= k < p ==> IsDigit(stem[k])) &&
      IsE(stem[p]) &&
      (forall k :: p + 1 <= k < q ==> IsDigit(stem[k])) &&
      stem[q] == '_' &&
      (forall k :: q < k < |stem| ==> stem[k] != '\n')
  {
    forall k | 0 <= k < i ensures stem[k] == series[k] { }
    forall k | i + 2 <= k < p ensures stem[k] == sd[k - (i + 2)] { }
    forall k | p + 1 <= k < q ensures stem[k] == ed[k - (p + 1)] { }
    forall k | q < k < |stem| ensures stem[k] == title[k - (q + 1)] { }
  }

  /** Where the groups of a stem laid out as
      `series _ S digits E digits _ title` are found: the series ends at `i`,
      the `E` marker is at `p` and the underscore before the title at `q`. */
  lemma LayoutPositions(stem: string, i: nat, p: nat, q: nat)
    requires 1 <= i && i + 2 < p && p + 1 < q < |stem|
    requires forall k :: 0 <= k < i ==> stem[k] != '\n'
    requires forall k :: 1 <= k < i ==> !MatchesAt(stem, k)
    requires stem[i] == '_' && IsS(stem[i + 1])
    requires forall k :: i + 2 <= k < p ==> IsDigit(stem[k])
    requires IsE(stem[p])
    requires forall k :: p + 1 <= k < q ==> IsDigit(stem[k])
    requires stem[q] == '_'
    requires forall k :: q < k < |stem| ==> stem[k] != '\n'
    ensures FirstMatch(stem, 1) == Some(i)
    ensures SeasonEnd(stem, i) == p && EpisodeEnd(stem, p) == q
    ensures TitleGroup(stem, q) == if q + 1 < |stem| then Some(stem[q + 1..]) else None
  {
    DigitRunOfDigits(stem, i + 2, p - (i + 2));
    DigitRunOfDigits(stem, p + 1, q - (p + 1));
    assert SeasonEnd(stem, i) == p;
    assert EpisodeEnd(stem, p) == q;
    FirstMatchOfLayout(stem, i, p);
    TitleOfLayout(stem, q);
  }

  lemma ParseStemFromParts(stem: string, i: nat, p: nat, q: nat, title: Option<string>)
    requires FirstMatch(stem, 1) == Some(i)
    requires p < |stem| && SeasonEnd(stem, i) == p && EpisodeEnd(stem, p) == q
    requires TitleGroup(stem, q) == title
    ensures i + 2 <= p < q <= |stem|
    ensures SeasonDigits(stem, i) == stem[i + 2..p] && EpisodeDigits(stem, p) == stem[p + 1..q]
    ensures ParseStem(stem) == Some(NameOf(stem[..i], SeasonDigits(stem, i), EpisodeDigits(stem, p), title))
  {
    ParseStemAt(stem, i);
  }

  /** The first match of a laid-out stem is right after its series. */
  lemma FirstMatchOfLayout(stem: string, i: nat, p: nat)
    requires 1 <= i && i + 2 < p < |stem|
    requires forall k :: 0 <= k < i ==> stem[k] != '\n'
    requires forall k :: 1 <= k < i ==> !MatchesAt(stem, k)
    requires stem[i] == '_' && IsS(stem[i + 1])
    requires SeasonEnd(stem, i) == p && IsE(stem[p]) && DigitRun(stem, p + 1) >= 1
    ensures FirstMatch(stem, 1) == Some(i)
  {
    LineRunAtLeast(stem, 0, i);
    assert MatchesAt(stem, i);
    FirstMatchAt(stem, 1, i);
  }

  /** An underscore followed by a single line is the title group. */
  lemma TitleOfLayout(stem: string, q: nat)
    requires q < |stem| && stem[q] == '_'
    requires forall k :: q < k < |stem| ==> stem[k] != '\n'
    ensures TitleGroup(stem, q) == if q + 1 < |stem| then Some(stem[q + 1..]) else None
  {
    if q + 1 < |stem| {
      LineRunOf(stem, q + 1, |stem| - (q + 1));
      assert stem[q + 1..q + 1 + LineRun(stem, q + 1)] == stem[q + 1..];
    }
  }

  /** `ParseStem` once the end of the series group is known. */
  lemma ParseStemAt(stem: string, i: nat)
    requires FirstMatch(stem, 1) == Some(i)
    ensures i + 2 <= |stem| && SeasonEnd(stem, i) < |stem|
    ensures var p := SeasonEnd(stem, i);
      ParseStem(stem) == Some(NameOf(stem[..i], SeasonDigits(stem, i), EpisodeDigits(stem, p), TitleGroup(stem, EpisodeEnd(stem, p))))
  {
  }

  lemma FirstMatchAt(stem: string, from: nat, i: nat)
    requires 1 <= from <= i && MatchesAt(stem, i)
    requires forall k :: from <= k < i ==> !MatchesAt(stem, k)
    ensures FirstMatch(stem, from) == Some(i)
  {
    var r := FirstMatch(stem, from);
    assert r != None;
  }

  // ---------------------------------------------------------------------------
  // scan_file
  // ---------------------------------------------------------------------------

  /** A file as the scanner sees it: the path `rglob` yields, whether it is a
      regular file and still exists, its absolute path, the duration ffprobe
      reports for it (None when every probe attempt fails) and its content hash. */
  datatype FileEntry = FileEntry(
    path: string,
    isFile: bool,
    fileExists: bool,
    absolutePath: string,
    duration: Option<int>,
    contentHash: string)

  /** The metadata dict `scan_file` builds (its `disabled` entry is always False). */
  datatype Metadata = Metadata(
    series: string,
    season: nat,
    episodeCode: string,
    title: Option<string>,
    path: string,
    durationSeconds: int,
    fileHash: string)

  /** `scan_file`: None for an unsupported extension, a missing file, a name
      that does not parse, or a failed duration probe; otherwise the parsed
      name completed with the absolute path, the duration and the hash. */
  function ScanFile(f: FileEntry): (r: Option<Metadata>)
    ensures r.Some? <==>
      IsSupported(f.path) && f.fileExists && ParseFilename(f.path).Some? && f.duration.Some?
    ensures r.Some? ==>
      var name := ParseFilename(f.path).value;
      r.value.series == name.series && r.value.season == name.season &&
      r.value.episodeCode == name.episodeCode && r.value.title == name.title &&
      r.value.path == f.absolutePath && r.value.durationSeconds == f.duration.value &&
      r.value.fileHash == f.contentHash
  {
    if !IsSupported(f.path) then None
    else if !f.fileExists then None
    else
      match ParseFilename(f.path)
      case None => None
      case Some(name) =>
        match f.duration
        case None => None
        case Some(duration) =>
          Some(Metadata(name.series, name.season, name.episodeCode, name.title,
                        f.absolutePath, duration, f.contentHash))
  }

  // ---------------------------------------------------------------------------
  // upsert_video
  // ---------------------------------------------------------------------------

  /** The row `Video(**metadata)` inserts. */
  function NewVideo(id: int, m: Metadata, addedAt: int): Video {
    Video(id, m.series, m.season, m.episodeCode, m.title, m.path, m.durationSeconds, addedAt, false, Some(m.fileHash))
  }

  /** The row after `setattr` of every metadata key: id and `added_at` are kept. */
  function Overwrite(v: Video, m: Metadata): Video {
    v.(series := m.series, season := m.season, episodeCode := m.episodeCode, title := m.title,
       path := m.path, durationSeconds := m.durationSeconds, disabled := false, fileHash := Some(m.fileHash))
  }

  function IndexOfPath(videos: seq<Video>, path: string): (r: Option<nat>)
    ensures r.Some? ==> (r.value < |videos| && videos[r.value].path == path &&
      forall k :: 0 <= k < r.value ==> videos[k].path != path)
    ensures r.None? ==> forall k :: 0 <= k < |videos| ==> videos[k].path != path
  {
    if videos == [] then None
    else if videos[0].path == path then Some(0)
    else match IndexOfPath(videos[1..], path)
      case None => None
      case Some(k) => Some(k + 1)
  }

  /** The table after upserting `m` and whether `upsert_video` reports a change. */
  function Upsert(videos: seq<Video>, m: Metadata, newId: int, now: int): (r: (seq<Video>, bool))
    ensures |videos| <= |r.0| <= |videos| + 1
    ensures !r.1 ==> r.0 == videos
    ensures !r.1 <==> (IndexOfPath(videos, m.path).Some? &&
                       videos[IndexOfPath(videos, m.path).value].fileHash == Some(m.fileHash))
  {
    match IndexOfPath(videos, m.path)
    case None => (videos + [NewVideo(newId, m, now)], true)
    case Some(k) =>
      if videos[k].fileHash == Some(m.fileHash) then (videos, false)
      else (videos[k := Overwrite(videos[k], m)], true)
  }

  /** Upsert keys the table by path: afterwards exactly one row has the
      path, it carries the metadata, and every other row is unchanged. */
  lemma UpsertKeyedByPath(videos: seq<Video>, m: Metadata, newId: int, now: int)
    requires forall i, j :: 0 <= i < j < |videos| ==> videos[i].path != videos[j].path
    ensures var (after, _) := Upsert(videos, m, newId, now);
      (forall i, j :: 0 <= i < j < |after| ==> after[i].path != after[j].path) &&
      (exists k :: 0 <= k < |after| && after[k].path == m.path && after[k].fileHash == Some(m.fileHash)) &&
      (forall k :: 0 <= k < |videos| && videos[k].path != m.path ==> k < |after| && after[k] == videos[k])
  {
    var (after, _) := Upsert(videos, m, newId, now);
    match IndexOfPath(videos, m.path)
    case None =>
      assert after[|videos|].path == m.path;
    case Some(k) =>
      assert after[k].path == m.path;
  }

  /** Upserting the same metadata twice: the second call reports no change
      and leaves the table as the first call left it. */
  lemma UpsertIdempotent(videos: seq<Video>, m: Metadata, id1: int, now1: int, id2: int, now2: int)
    requires forall i, j :: 0 <= i < j < |videos| ==> videos[i].path != videos[j].path
    ensures var (once, _) := Upsert(videos, m, id1, now1);
      Upsert(once, m, id2, now2) == (once, false)
  {
    var (once, _) := Upsert(videos, m, id1, now1);
    match IndexOfPath(videos, m.path)
    case None =>
      IndexOfPathAt(once, m.path, |videos|);
    case Some(k) =>
      IndexOfPathAt(once, m.path, k);
  }

  lemma {:induction false} IndexOfPathAt(videos: seq<Video>, path: string, k: nat)
    requires k < |videos| && videos[k].path == path
    requires forall j :: 0 <= j < k ==> videos[j].path != path
    ensures IndexOfPath(videos, path) == Some(k)
  {
    if k > 0 {
      IndexOfPathAt(videos[1..], path, k - 1);
    }
  }

  /** A new path is inserted and reported; a known path with the same hash is
      reported unchanged; a known path with another hash is overwritten. */
  lemma UpsertCases(videos: seq<Video>, m: Metadata, newId: int, now: int)
    ensures var (after, changed) := Upsert(videos, m, newId, now);
      ((forall v :: v in videos ==> v.path != m.path) ==>
         changed && after == videos + [NewVideo(newId, m, now)]) &&
      ((exists v :: v in videos && v.path == m.path && v.fileHash == Some(m.fileHash) &&
         forall w :: w in videos && w.path == m.path ==> w == v) ==>
         !changed && after == videos) &&
      (forall k :: (0 <= k < |videos| && videos[k].path == m.path && videos[k].fileHash != Some(m.fileHash) &&
                    forall j :: 0 <= j < k ==> videos[j].path != m.path) ==>
         changed && after == videos[k := Overwrite(videos[k], m)] &&
         after[k].id == videos[k].id && after[k].addedAt == videos[k].addedAt && !after[k].disabled &&
         after[k].fileHash == Some(m.fileHash)) &&
      (!changed ==> after == videos)
  {
    match IndexOfPath(videos, m.path)
    case None =>
    case Some(k) =>
      assert videos[k] in videos;
      forall j | 0 <= j < |videos| && videos[j].path == m.path && (forall i :: 0 <= i < j ==> videos[i].path != m.path)
        ensures j == k
      {
        if j < k {
        } else if k < j {
        }
      }
  }

  /** The id counter after an upsert: only an insert takes an id. */
  function NextVideoId(videos: seq<Video>, m: Metadata, nextId: int): int {
    if IndexOfPath(videos, m.path).None? then nextId + 1 else nextId
  }

  method UpsertVideo(db: Database, m: Metadata, now: int) returns (changed: bool)
    requires db.Valid()
    modifies db
    ensures db.Valid()
    ensures (db.videos, changed) == Upsert(old(db.videos), m, old(db.nextVideoId), now)
    ensures db.nextVideoId == NextVideoId(old(db.videos), m, old(db.nextVideoId))
    ensures db.sessions == old(db.sessions) && db.plays == old(db.plays) && db.feedback == old(db.feedback)
  {
    var found := IndexOfPath(db.videos, m.path);
    match found
    case None =>
      var id := db.AddVideo(NewVideo(0, m, now));
      assert NewVideo(0, m, now).(id := id) == NewVideo(id, m, now);
      changed := true;
    case Some(k) =>
      if db.videos[k].fileHash == Some(m.fileHash) {
        changed := false;
      } else {
        UpsertKeyedByPath(db.videos, m, db.nextVideoId, now);
        db.videos := db.videos[k := Overwrite(db.videos[k], m)];
        changed := true;
      }
  }

  // ---------------------------------------------------------------------------
  // scan_directory and the watcher callbacks
  // ---------------------------------------------------------------------------

  datatype ScanSummary = ScanSummary(scanned: nat, added: nat, updated: nat, failed: nat)

  /** `scan_directory` only looks at regular files with a supported extension. */
  predicate Considered(f: FileEntry) { f.isFile && IsSupported(f.path) }

  /** A considered file for which `scan_file` gives nothing. */
  predicate ScanFails(f: FileEntry) {
    Considered(f) && ScanFile(f).None?
  }

  /** The `scanned` and `failed` counts `scan_directory` reaches over `files[n..]`. */
  function Tally(files: seq<FileEntry>, n: nat): (t: ScanSummary)
    ensures t.added == 0 && t.updated == 0 && t.failed <= t.scanned
    decreases |files| - n
  {
    if n >= |files| then ScanSummary(0, 0, 0, 0)
    else
      var rest := Tally(files, n + 1);
      rest.(scanned := rest.scanned + (if Considered(files[n]) then 1 else 0),
            failed := rest.failed + (if ScanFails(files[n]) then 1 else 0))
  }

  /** One pass of the `scan_directory` loop on a table and an id counter:
      a considered file that scans is upserted; the flag is the upsert's
      report of a change. */
  function ScanOne(videos: seq<Video>, f: FileEntry, nextId: int, now: int): (seq<Video>, bool) {
    if Considered(f) && ScanFile(f).Some? then Upsert(videos, ScanFile(f).value, nextId, now) else (videos, false)
  }

  /** The id counter after `ScanOne`. */
  function ScanNextId(videos: seq<Video>, f: FileEntry, nextId: int): int {
    if Considered(f) && ScanFile(f).Some? then NextVideoId(videos, ScanFile(f).value, nextId) else nextId
  }

  /** The table `scan_directory` leaves after `files[n..]`, and how many of
      those files it counts as added. */
  function ScanAll(videos: seq<Video>, files: seq<FileEntry>, n: nat, nextId: int, now: int): (seq<Video>, nat)
    decreases |files| - n
  {
    if n >= |files| then (videos, 0)
    else
      var (after, changed) := ScanOne(videos, files[n], nextId, now);
      var (final, added) := ScanAll(after, files, n + 1, ScanNextId(videos, files[n], nextId), now);
      (final, added + (if changed then 1 else 0))
  }

  /** One pass of the `scan_directory` loop: a considered file is scanned and,
      when that succeeds, upserted; `added` reports a changed row. */
  method ScanEntry(db: Database, f: FileEntry, now: int) returns (added: bool)
    requires db.Valid()
    modifies db
    ensures db.Valid()
    ensures added ==> Considered(f) && !ScanFails(f)
    ensures (db.videos, added) == ScanOne(old(db.videos), f, old(db.nextVideoId), now)
    ensures db.nextVideoId == ScanNextId(old(db.videos), f, old(db.nextVideoId))
    ensures db.sessions == old(db.sessions) && db.plays == old(db.plays) && db.feedback == old(db.feedback)
  {
    added := false;
    if Considered(f) {
      var metadata := ScanFile(f);
      if metadata.Some? {
        added := UpsertVideo(db, metadata.value, now);
      }
    }
  }

  /** `scan_directory`: every considered file is scanned; a file whose scan
      fails is counted as failed, one whose upsert reports a change as added;
      `updated` is never incremented.  The table is left as the upserts of the
      scanned files, in order, leave it. */
  method ScanDirectory(db: Database, files: seq<FileEntry>, now: int) returns (summary: ScanSummary)
    requires db.Valid()
    modifies db
    ensures db.Valid()
    ensures summary.scanned == Tally(files, 0).scanned && summary.failed == Tally(files, 0).failed &&
      summary.added + summary.failed <= summary.scanned && summary.updated == 0
    ensures (db.videos, summary.added) == ScanAll(old(db.videos), files, 0, old(db.nextVideoId), now)
    ensures db.sessions == old(db.sessions) && db.plays == old(db.plays) && db.feedback == old(db.feedback)
  {
    ghost var total := Tally(files, 0);
    ghost var final := ScanAll(db.videos, files, 0, db.nextVideoId, now);
    var scanned, added, failed, n := 0, 0, 0, 0;
    while n < |files|
      invariant db.Valid()
      invariant 0 <= n <= |files| && 0 <= added && added + failed <= scanned &&
        scanned + Tally(files, n).scanned == total.scanned && failed + Tally(files, n).failed == total.failed
      invariant ScanAll(db.videos, files, n, db.nextVideoId, now).0 == final.0
      invariant added + ScanAll(db.videos, files, n, db.nextVideoId, now).1 == final.1
      invariant db.sessions == old(db.sessions) && db.plays == old(db.plays) && db.feedback == old(db.feedback)
    {
      var changed := ScanEntry(db, files[n], now);
      scanned := scanned + (if Considered(files[n]) then 1 else 0);
      failed := failed + (if ScanFails(files[n]) then 1 else 0);
      added := added + (if changed then 1 else 0);
      n := n + 1;
    }
    summary := ScanSummary(scanned, added, 0, failed);
  }

  /** No two rows share a path. */
  ghost predicate PathsUnique(videos: seq<Video>) {
    forall i, j :: 0 <= i < j < |videos| ==> videos[i].path != videos[j].path
  }

  /** Some row has the path. */
  ghost predicate HasPath(videos: seq<Video>, path: string) {
    exists w :: w in videos && w.path == path
  }

  /** After a scan the table is still keyed by path, and every file that
      scanned has a row at its absolute path. */
  lemma {:induction false} ScanAllKeyed(videos: seq<Video>, files: seq<FileEntry>, n: nat, nextId: int, now: int)
    requires PathsUnique(videos)
    ensures var after := ScanAll(videos, files, n, nextId, now).0;
      PathsUnique(after) &&
      (forall v :: v in videos ==> HasPath(after, v.path)) &&
      (forall k :: n <= k < |files| && Considered(files[k]) && ScanFile(files[k]).Some? ==>
         HasPath(after, files[k].absolutePath))
    decreases |files| - n
  {
    if n < |files| {
      var mid := ScanOne(videos, files[n], nextId, now).0;
      var next := ScanNextId(videos, files[n], nextId);
      UpsertKeepsPaths(videos, files[n], nextId, now);
      ScanAllKeyed(mid, files, n + 1, next, now);
      ScanAllUnfold(videos, files, n, nextId, now);
      var after := ScanAll(mid, files, n + 1, next, now).0;
      forall v | v in videos ensures HasPath(after, v.path) {
        var u :| u in mid && u.path == v.path;
      }
      forall k | n <= k < |files| && Considered(files[k]) && ScanFile(files[k]).Some?
        ensures HasPath(after, files[k].absolutePath)
      {
        if k == n {
          var u :| u in mid && u.path == files[k].absolutePath;
        }
      }
    }
  }

  /** One step of `ScanAll`: the first file is scanned into the table the
      rest of the files are then scanned into. */
  lemma ScanAllUnfold(videos: seq<Video>, files: seq<FileEntry>, n: nat, nextId: int, now: int)
    requires n < |files|
    ensures ScanAll(videos, files, n, nextId, now).0 ==
      ScanAll(ScanOne(videos, files[n], nextId, now).0, files, n + 1, ScanNextId(videos, files[n], nextId), now).0
  {
  }

  /** One scan keeps the table keyed by path, keeps every path it held, and
      adds the scanned file's. */
  lemma UpsertKeepsPaths(videos: seq<Video>, f: FileEntry, nextId: int, now: int)
    requires PathsUnique(videos)
    ensures var after := ScanOne(videos, f, nextId, now).0;
      PathsUnique(after) &&
      (forall v :: v in videos ==> HasPath(after, v.path)) &&
      (Considered(f) && ScanFile(f).Some? ==> HasPath(after, f.absolutePath))
  {
    if Considered(f) && ScanFile(f).Some? {
      var m := ScanFile(f).value;
      UpsertKeyedByPath(videos, m, nextId, now);
      var after := ScanOne(videos, f, nextId, now).0;
      forall v | v in videos ensures HasPath(after, v.path) {
        var k :| 0 <= k < |videos| && videos[k] == v;
        if v.path != m.path {
          assert after[k] in after;
        } else {
          var j :| 0 <= j < |after| && after[j].path == m.path && after[j].fileHash == Some(m.fileHash);
          assert after[j] in after;
        }
      }
      var j :| 0 <= j < |after| && after[j].path == m.path && after[j].fileHash == Some(m.fileHash);
      assert after[j] in after;
    }
  }

  /** `on_created` / `on_modified`: directories and unsupported files are
      ignored; otherwise the file is scanned and upserted when it yields metadata. */
  method OnFileEvent(db: Database, isDirectory: bool, f: FileEntry, now: int)
    requires db.Valid()
    modifies db
    ensures db.Valid()
    ensures isDirectory || ScanFile(f).None? ==>
      db.videos == old(db.videos) && db.nextVideoId == old(db.nextVideoId)
    ensures !isDirectory && ScanFile(f).Some? ==>
      db.videos == Upsert(old(db.videos), ScanFile(f).value, old(db.nextVideoId), now).0
    ensures db.sessions == old(db.sessions) && db.plays == old(db.plays) && db.feedback == old(db.feedback)
  {
    if !isDirectory && IsSupported(f.path) {
      var metadata := ScanFile(f);
      if metadata.Some? {
        var _ := UpsertVideo(db, metadata.value, now);
      }
    }
  }
}
