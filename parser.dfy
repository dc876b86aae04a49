/**
 * The natural-language request parser: "tomorrow two bluey and peppa" becomes
 * a day offset and a list of (series, count) requests.  The keyword map of
 * the settings is a parameter, the distinct series names come from the video
 * table, and the fuzzy matcher (`difflib.get_close_matches` with n=1 and
 * cutoff 0.6) is an oracle that returns at most one string.
 */
module Parser {
  import opened Common
  import opened Models

  /** `get_close_matches(word, candidates, n=1, cutoff=0.6)`: no match or one string. */
  type FuzzyMatcher = (string, seq<string>) -> Option<string>

  // ---------------------------------------------------------------------------
  // Day keywords
  // ---------------------------------------------------------------------------

  /** The lowered text with the day keywords removed, and the day offset:
      1 after "tomorrow", reset to 0 if "today" occurs in what remains. */
  function ExtractDay(text: string): (r: (string, int))
    ensures |r.0| <= |text|
    ensures r.1 == 0 || r.1 == 1
  {
    var lowered := Lower(text);
    var (afterTomorrow, offset) :=
      if Contains(lowered, "tomorrow") then (RemoveAll(lowered, "tomorrow"), 1) else (lowered, 0);
    if Contains(afterTomorrow, "today") then (RemoveAll(afterTomorrow, "today"), 0)
    else (afterTomorrow, offset)
  }

  /** The offset is 1 exactly when "tomorrow" occurs and "today" does not
      survive its removal; otherwise 0. */
  lemma ExtractDayOffset(text: string)
    ensures var lowered := Lower(text);
      ExtractDay(text).1 == (if Contains(lowered, "tomorrow") &&
                                !Contains(RemoveAll(lowered, "tomorrow"), "today") then 1 else 0)
  {
    var lowered := Lower(text);
    if !Contains(lowered, "tomorrow") {
      RemoveAllAbsent(lowered, "tomorrow");
    }
  }

  // ---------------------------------------------------------------------------
  // re.split(r" and |,", text)
  // ---------------------------------------------------------------------------

  const AndSeparator: string := " and "

  /** Length of the separator starting at `i`: " and " is tried before ",". */
  function SeparatorAt(s: string, i: nat): (n: nat)
    requires i < |s|
    ensures n == 0 || n == 1 || n == |AndSeparator|
    ensures n == 1 ==> s[i] == ','
    ensures n == 0 ==> s[i] != ','
  {
    if i + |AndSeparator| <= |s| && s[i..i + |AndSeparator|] == AndSeparator then |AndSeparator|
    else if s[i] == ',' then 1
    else 0
  }

  /** The clauses of `s[start..]`, the current one having begun at `start`
      and the scan having reached `i`. */
  function SplitFrom(s: string, start: nat, i: nat): (parts: seq<string>)
    requires start <= i <= |s|
    ensures |parts| >= 1
    decreases |s| - i
  {
    if i == |s| then [s[start..]]
    else
      var n := SeparatorAt(s, i);
      if n == 0 then SplitFrom(s, start, i + 1)
      else [s[start..i]] + SplitFrom(s, i + n, i + n)
  }

  /** `re.split(r" and |,", s)`. */
  function SplitClauses(s: string): (parts: seq<string>)
    ensures |parts| >= 1
  {
    SplitFrom(s, 0, 0)
  }

  /** No clause holds a comma. */
  lemma {:induction false} SplitFromNoComma(s: string, start: nat, i: nat)
    requires start <= i <= |s|
    requires forall k :: start <= k < i ==> s[k] != ','
    ensures forall m :: 0 <= m < |SplitFrom(s, start, i)| ==> ',' !in SplitFrom(s, start, i)[m]
    decreases |s| - i
  {
    var parts := SplitFrom(s, start, i);
    if i == |s| {
      assert parts == [s[start..]];
      assert forall k :: 0 <= k < |s[start..]| ==> s[start..][k] == s[start + k];
    } else {
      var n := SeparatorAt(s, i);
      if n == 0 {
        SplitFromNoComma(s, start, i + 1);
      } else {
        SplitFromNoComma(s, i + n, i + n);
        var rest := SplitFrom(s, i + n, i + n);
        assert parts == [s[start..i]] + rest;
        assert forall k :: 0 <= k < |s[start..i]| ==> s[start..i][k] == s[start + k];
        forall m | 0 <= m < |parts| ensures ',' !in parts[m] {
          if m > 0 {
            assert parts[m] == rest[m - 1];
          }
        }
      }
    }
  }

  lemma SplitClausesNoComma(s: string)
    ensures forall m :: 0 <= m < |SplitClauses(s)| ==> ',' !in SplitClauses(s)[m]
  {
    SplitFromNoComma(s, 0, 0);
  }

  /** Text without a separator is a single clause. */
  lemma {:induction false} SplitFromNoSeparator(s: string, start: nat, i: nat)
    requires start <= i <= |s|
    requires forall k :: i <= k < |s| ==> SeparatorAt(s, k) == 0
    ensures SplitFrom(s, start, i) == [s[start..]]
    decreases |s| - i
  {
    if i < |s| {
      SplitFromNoSeparator(s, start, i + 1);
    }
  }

  // ---------------------------------------------------------------------------
  // _resolve_series
  // ---------------------------------------------------------------------------

  /** `SELECT DISTINCT series FROM videos`, in order of first appearance. */
  function AllSeries(videos: seq<Video>): (r: seq<string>)
    ensures forall s :: s in r <==> exists v :: v in videos && v.series == s
  {
    if videos == [] then []
    else
      var init := AllSeries(videos[..|videos| - 1]);
      var v := videos[|videos| - 1];
      assert videos == videos[..|videos| - 1] + [v];
      if v.series in init then init else init + [v.series]
  }

  function LowerAll(names: seq<string>): (r: seq<string>)
    ensures |r| == |names|
    ensures forall k :: 0 <= k < |names| ==> r[k] == Lower(names[k])
  {
    if names == [] then [] else [Lower(names[0])] + LowerAll(names[1..])
  }

  /** The first name whose lowered form is `key`. */
  function FirstLowerMatch(names: seq<string>, key: string): (r: Option<string>)
    ensures r.None? <==> forall k :: 0 <= k < |names| ==> Lower(names[k]) != key
    ensures r.Some? ==> r.value in names && Lower(r.value) == key
  {
    if names == [] then None
    else if Lower(names[0]) == key then Some(names[0])
    else
      var r := FirstLowerMatch(names[1..], key);
      assert forall k :: 1 <= k < |names| ==> names[k] == names[1..][k - 1];
      r
  }

  /** The name returned is the first one that matches. */
  lemma {:induction false} FirstLowerMatchIsFirst(names: seq<string>, key: string, j: nat)
    requires j < |names| && Lower(names[j]) == key
    requires forall k :: 0 <= k < j ==> Lower(names[k]) != key
    ensures FirstLowerMatch(names, key) == Some(names[j])
  {
    if j > 0 {
      assert forall k :: 0 <= k < j - 1 ==> names[1..][k] == names[k + 1];
      FirstLowerMatchIsFirst(names[1..], key, j - 1);
    }
  }

  /** `_resolve_series`: the keyword map first, then a case-insensitive exact
      match against the library's series, then the fuzzy match mapped back to
      the library's spelling. */
  function ResolveSeries(keyword: string, keywordMap: map<string, string>, allSeries: seq<string>,
                         fuzzy: FuzzyMatcher): (r: Option<string>)
    ensures Strip(keyword) in keywordMap ==> r == Some(keywordMap[Strip(keyword)])
    ensures r.Some? ==> r.value in keywordMap.Values || r.value in allSeries
    ensures r.Some? && Strip(keyword) !in keywordMap ==>
      Lower(r.value) == Strip(keyword) || Some(Lower(r.value)) == fuzzy(Strip(keyword), LowerAll(allSeries))
    ensures r.None? ==> (Strip(keyword) !in keywordMap &&
      forall k :: 0 <= k < |allSeries| ==> Lower(allSeries[k]) != Strip(keyword))
  {
    var key := Strip(keyword);
    if key in keywordMap then Some(keywordMap[key])
    else
      match FirstLowerMatch(allSeries, key)
      case Some(s) => Some(s)
      case None =>
        match fuzzy(key, LowerAll(allSeries))
        case None => None
        case Some(m) => FirstLowerMatch(allSeries, m)
  }

  // ---------------------------------------------------------------------------
  // Clauses
  // ---------------------------------------------------------------------------

  /** The count words one..ten. */
  function NumberWord(w: string): (r: Option<int>)
    ensures r.Some? ==> 1 <= r.value <= 10
  {
    if w == "one" then Some(1) else if w == "two" then Some(2) else if w == "three" then Some(3)
    else if w == "four" then Some(4) else if w == "five" then Some(5) else if w == "six" then Some(6)
    else if w == "seven" then Some(7) else if w == "eight" then Some(8) else if w == "nine" then Some(9)
    else if w == "ten" then Some(10) else None
  }

  /** The count and the series keyword of a stripped clause: a leading count
      word or digit string is the count and the other words the keyword;
      otherwise the count is 1 and the whole clause is the keyword. */
  function CountAndKeyword(part: string): (r: (int, string))
    ensures r.0 >= 0
  {
    var words := Words(part);
    if |words| > 0 && NumberWord(words[0]).Some? then (NumberWord(words[0]).value, JoinSpace(words[1..]))
    else if |words| > 0 && IsDigits(words[0]) then (DigitsValue(words[0]), JoinSpace(words[1..]))
    else (1, part)
  }

  /** A clause of space-separated words: a leading count word or digit string
      gives the count and the remaining words, re-joined, the keyword;
      otherwise the count is 1 and the keyword is the whole clause. */
  lemma CountAndKeywordOfWords(ws: seq<string>)
    requires |ws| > 0 && forall k :: 0 <= k < |ws| ==> IsWord(ws[k])
    ensures var r := CountAndKeyword(JoinSpace(ws));
      (NumberWord(ws[0]).Some? ==> r == (NumberWord(ws[0]).value, JoinSpace(ws[1..]))) &&
      (NumberWord(ws[0]).None? && IsDigits(ws[0]) ==> r == (DigitsValue(ws[0]), JoinSpace(ws[1..]))) &&
      (NumberWord(ws[0]).None? && !IsDigits(ws[0]) ==> r == (1, JoinSpace(ws)))
  {
    WordsOfJoin(ws);
  }

  /** The request one clause yields, or None when the clause is blank or its
      series cannot be resolved (an empty resolved name counts as unresolved). */
  function ClauseRequest(clause: string, keywordMap: map<string, string>, allSeries: seq<string>,
                         fuzzy: FuzzyMatcher): (r: Option<RequestItem>)
    ensures r.Some? ==> (Strip(clause) != [] && r.value.series != "" &&
      (r.value.series in keywordMap.Values || r.value.series in allSeries))
    ensures Strip(clause) != [] ==>
      var (count, keyword) := CountAndKeyword(Strip(clause));
      var name := ResolveSeries(keyword, keywordMap, allSeries, fuzzy);
      (name.Some? && name.value != "" <==> r.Some?) &&
      (r.Some? ==> r.value == RequestItem(name.value, count))
  {
    var part := Strip(clause);
    if part == [] then None
    else
      var (count, keyword) := CountAndKeyword(part);
      match ResolveSeries(keyword, keywordMap, allSeries, fuzzy)
      case Some(name) => if name != "" then Some(RequestItem(name, count)) else None
      case None => None
  }

  /** The requests of a list of clauses, in clause order. */
  function ClauseRequests(clauses: seq<string>, keywordMap: map<string, string>, allSeries: seq<string>,
                          fuzzy: FuzzyMatcher): seq<RequestItem>
  {
    if clauses == [] then []
    else
      var init := ClauseRequests(clauses[..|clauses| - 1], keywordMap, allSeries, fuzzy);
      match ClauseRequest(clauses[|clauses| - 1], keywordMap, allSeries, fuzzy)
      case Some(item) => init + [item]
      case None => init
  }

  /** Number of clauses that are not blank after stripping. */
  function NonBlank(clauses: seq<string>): nat {
    if clauses == [] then 0
    else NonBlank(clauses[..|clauses| - 1]) + (if Strip(clauses[|clauses| - 1]) != [] then 1 else 0)
  }

  /** At most one request per non-blank clause, each naming a non-empty series
      that is a keyword-map value or a library series. */
  lemma {:induction false} ClauseRequestsBound(clauses: seq<string>, keywordMap: map<string, string>,
                                               allSeries: seq<string>, fuzzy: FuzzyMatcher)
    ensures var rs := ClauseRequests(clauses, keywordMap, allSeries, fuzzy);
      |rs| <= NonBlank(clauses) &&
      forall k :: 0 <= k < |rs| ==> (rs[k].series != "" &&
        (rs[k].series in keywordMap.Values || rs[k].series in allSeries))
  {
    if clauses != [] {
      var init := clauses[..|clauses| - 1];
      ClauseRequestsBound(init, keywordMap, allSeries, fuzzy);
      var rs := ClauseRequests(clauses, keywordMap, allSeries, fuzzy);
      var ri := ClauseRequests(init, keywordMap, allSeries, fuzzy);
      var c := ClauseRequest(clauses[|clauses| - 1], keywordMap, allSeries, fuzzy);
      assert rs == if c.Some? then ri + [c.value] else ri;
    }
  }

  /** Requests follow clause order: the requests of two runs of clauses are
      the requests of the first followed by those of the second. */
  lemma {:induction false} ClauseRequestsAppend(a: seq<string>, b: seq<string>, keywordMap: map<string, string>,
                                                allSeries: seq<string>, fuzzy: FuzzyMatcher)
    ensures ClauseRequests(a + b, keywordMap, allSeries, fuzzy) ==
      ClauseRequests(a, keywordMap, allSeries, fuzzy) + ClauseRequests(b, keywordMap, allSeries, fuzzy)
  {
    if b == [] {
      assert a + b == a;
    } else {
      var b' := b[..|b| - 1];
      assert (a + b)[..|a + b| - 1] == a + b';
      assert (a + b)[|a + b| - 1] == b[|b| - 1];
      ClauseRequestsAppend(a, b', keywordMap, allSeries, fuzzy);
    }
  }

  // ---------------------------------------------------------------------------
  // parse
  // ---------------------------------------------------------------------------

  /** `RequestParser.parse`: the day offset, then one request per clause whose
      series resolves. */
  method Parse(text: string, keywordMap: map<string, string>, videos: seq<Video>, fuzzy: FuzzyMatcher)
    returns (daysOffset: int, requests: seq<RequestItem>)
    ensures daysOffset == ExtractDay(text).1
    ensures requests == ClauseRequests(SplitClauses(ExtractDay(text).0), keywordMap, AllSeries(videos), fuzzy)
  {
    var lowered := Lower(text);
    daysOffset := 0;
    if Contains(lowered, "tomorrow") {
      daysOffset := 1;
      lowered := RemoveAll(lowered, "tomorrow");
    }
    if Contains(lowered, "today") {
      daysOffset := 0;
      lowered := RemoveAll(lowered, "today");
    }
    var parts := SplitClauses(lowered);
    var allSeries := AllSeries(videos);
    requests := [];
    var i := 0;
    while i < |parts|
      invariant 0 <= i <= |parts|
      invariant requests == ClauseRequests(parts[..i], keywordMap, allSeries, fuzzy)
    {
      assert parts[..i + 1][..i] == parts[..i];
      var item := ClauseRequest(parts[i], keywordMap, allSeries, fuzzy);
      if item.Some? {
        requests := requests + [item.value];
      }
      i := i + 1;
    }
    assert parts[..i] == parts;
  }
}
