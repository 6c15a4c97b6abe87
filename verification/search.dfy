/**
 * The transcript search page (app/search/page.tsx): the state `runSearch`
 * moves through, the request it sends to the full-text search procedure,
 * and the strings the result list is rendered with.
 *
 * The asynchronous backend call is split out: `BeginSearch` is what happens
 * before the `await`, `CompleteSearch` what happens once the backend has
 * answered, and the answer itself is a parameter.
 */
module Search {
  import opened Wrappers
  import opened Database
  import opened Text
  import opened Numerals

  /** The page's `results`, `loading`, `searched` and `error` state. */
  datatype SearchState = SearchState(
    results: seq<SearchResult>,
    loading: bool,
    searched: bool,
    error: Option<string>)

  /** The state before any search has run. */
  const InitialState := SearchState([], false, false, None)

  /** How many rows the page asks the backend for. */
  const MatchCount := 50

  /** The arguments of the `search_segments_fulltext` procedure. */
  datatype SearchRequest = SearchRequest(
    queryText: string,
    matchCount: int,
    filterChamber: Option<Chamber>,
    filterDateFrom: Option<string>,
    filterDateTo: Option<string>)

  /** The backend's answer: rows (possibly `null`) or an error message. */
  datatype SearchOutcome = Rows(data: Option<seq<SearchResult>>) | Failed(message: string)

  /**
   * `runSearch` up to the backend call. A blank query empties the results
   * and resets `searched` without touching anything else and sends nothing;
   * any other query starts loading, clears the error and sends the trimmed
   * query with no chamber or date filter.
   */
  function BeginSearch(st: SearchState, q: string): (r: (SearchState, Option<SearchRequest>))
    ensures r.1.None? <==> IsBlank(q)
    ensures IsBlank(q) ==>
      && r.0.results == [] && !r.0.searched
      && r.0.loading == st.loading && r.0.error == st.error
    ensures !IsBlank(q) ==>
      && r.0.loading && r.0.error.None?
      && r.0.results == st.results && r.0.searched == st.searched
    ensures r.1.Some? ==>
      && TrimmedFrom(q, r.1.value.queryText) && |r.1.value.queryText| > 0
      && r.1.value.matchCount == 50
      && r.1.value.filterChamber.None?
      && r.1.value.filterDateFrom.None?
      && r.1.value.filterDateTo.None?
  {
    TrimEmptyIffBlank(q);
    if Trim(q) == "" then
      (st.(results := [], searched := false), None)
    else
      (st.(loading := true, error := None),
       Some(SearchRequest(Trim(q), MatchCount, None, None, None)))
  }

  /**
   * `runSearch` after the backend call: loading ends and the search counts
   * as done; an error is recorded and leaves the previous results in place,
   * rows replace the results (`null` meaning none).
   */
  function CompleteSearch(st: SearchState, outcome: SearchOutcome): (r: SearchState)
    ensures !r.loading && r.searched
    ensures outcome.Failed? ==> r.error == Some(outcome.message) && r.results == st.results
    ensures outcome.Rows? ==> r.error == st.error && r.results == outcome.data.GetOr([])
  {
    var done := st.(loading := false, searched := true);
    match outcome
    case Failed(message) => done.(error := Some(message))
    case Rows(data) => done.(results := data.GetOr([]))
  }

  /** One whole `runSearch(q)`, the backend answering `outcome` if asked. */
  function RunSearch(st: SearchState, q: string, outcome: SearchOutcome): (r: SearchState)
    ensures IsBlank(q) ==>
      && r.results == [] && !r.searched
      && r.loading == st.loading && r.error == st.error
    ensures !IsBlank(q) ==> !r.loading && r.searched
    ensures !IsBlank(q) && outcome.Failed? ==>
      r.error == Some(outcome.message) && r.results == st.results
    ensures !IsBlank(q) && outcome.Rows? ==>
      r.error.None? && r.results == outcome.data.GetOr([])
  {
    var (started, request) := BeginSearch(st, q);
    if request.None? then started else CompleteSearch(started, outcome)
  }

  /** The "Searching…" line. */
  predicate ShowsSpinner(st: SearchState)
  {
    st.loading
  }

  /** `!loading && searched && results.length === 0`: the "No results found" line. */
  predicate ShowsNoResults(st: SearchState)
  {
    !st.loading && st.searched && |st.results| == 0
  }

  /** `error && …`: the error line, shown only for a non-empty (truthy) message. */
  predicate ShowsError(st: SearchState)
  {
    st.error.Some? && st.error.value != ""
  }

  /** `!loading && results.length > 0`: the count and the result cards. */
  predicate ShowsResults(st: SearchState)
  {
    !st.loading && |st.results| > 0
  }

  /** "No results" and the result list never show together, in any state. */
  lemma NoResultsExcludesResults(st: SearchState)
    ensures !(ShowsNoResults(st) && ShowsResults(st))
  {
  }

  /** Before any search the page shows no spinner, error, results or "No results". */
  lemma ViewBeforeSearch()
    ensures !ShowsSpinner(InitialState) && !ShowsError(InitialState)
    ensures !ShowsNoResults(InitialState) && !ShowsResults(InitialState)
  {
  }

  /**
   * What the page shows once a search has run: after a blank query neither
   * "No results" nor results; after a real search no spinner, and "No
   * results" exactly when the search left the list empty; a failed search
   * with a non-empty message shows the error, beside any earlier results.
   */
  lemma ViewAfterSearch(st: SearchState, q: string, outcome: SearchOutcome)
    ensures var r := RunSearch(st, q, outcome);
      && (IsBlank(q) ==> !ShowsNoResults(r) && !ShowsResults(r))
      && (!IsBlank(q) ==> !ShowsSpinner(r) && (ShowsNoResults(r) <==> |r.results| == 0))
      && (!IsBlank(q) && outcome.Rows? ==> !ShowsError(r))
      && (!IsBlank(q) && outcome.Rows? && outcome.data.GetOr([]) == [] ==> ShowsNoResults(r))
      && (!IsBlank(q) && outcome.Failed? ==> (ShowsError(r) <==> outcome.message != ""))
      && (!IsBlank(q) && outcome.Failed? && |st.results| > 0 ==> ShowsResults(r))
  {
  }

  /** `{results.length} result{results.length !== 1 ? "s" : ""}`. */
  function ResultCountLabel(n: nat): (s: string)
    ensures |s| > |NatToString(n)| && s[..|NatToString(n)|] == NatToString(n)
    ensures s[|s| - 1] == 's' <==> n != 1
  {
    NatToString(n) + " result" + (if n != 1 then "s" else "")
  }

  /**
   * Reads a count label back: a numeral without leading zeros, then the noun,
   * which must agree with the number.
   */
  function ParseResultCountLabel(s: string): Option<nat>
  {
    if |s| > 8 && s[|s| - 8..] == " results" && IsNumeral(s[..|s| - 8])
       && ValueOf(s[..|s| - 8]) != 1 then
      Some(ValueOf(s[..|s| - 8]))
    else if |s| > 7 && s[|s| - 7..] == " result" && IsNumeral(s[..|s| - 7])
       && ValueOf(s[..|s| - 7]) == 1 then
      Some(1)
    else None
  }

  /** The label names its count, with the noun in the right number. */
  lemma ResultCountLabelRoundTrip(n: nat)
    ensures ParseResultCountLabel(ResultCountLabel(n)) == Some(n)
  {
    var d := NatToString(n);
    var s := ResultCountLabel(n);
    NatToStringRoundTrip(n);
    if n != 1 {
      assert s[..|s| - 8] == d && s[|s| - 8..] == " results";
    } else {
      assert s[..|s| - 7] == d && s[|s| - 7..] == " result";
    }
  }

  /** The reader accepts only labels the page writes: nothing else reads as a count. */
  lemma ParseResultCountLabelExact(s: string, n: nat)
    requires ParseResultCountLabel(s) == Some(n)
    ensures ResultCountLabel(n) == s
  {
    if |s| > 8 && s[|s| - 8..] == " results" && IsNumeral(s[..|s| - 8])
       && ValueOf(s[..|s| - 8]) != 1 {
      NumeralIsRendering(s[..|s| - 8]);
      assert s == s[..|s| - 8] + " results";
    } else {
      NumeralIsRendering(s[..|s| - 7]);
      assert s == s[..|s| - 7] + " result";
    }
  }

  /** The chamber badge: `chamber.charAt(0).toUpperCase() + chamber.slice(1)`. */
  function ChamberLabel(c: Chamber): (s: string)
    ensures |s| == |ChamberName(c)| && 'A' <= s[0] <= 'Z'
    ensures [LowerAscii(s[0])] + s[1..] == ChamberName(c)
  {
    CapitalizeRoundTrip(ChamberName(c));
    Capitalize(ChamberName(c))
  }

  /** The two chambers get different badges. */
  lemma ChamberLabelInjective(a: Chamber, b: Chamber)
    requires ChamberLabel(a) == ChamberLabel(b)
    ensures a == b
  {
    assert ChamberName(a) == [LowerAscii(ChamberLabel(a)[0])] + ChamberLabel(a)[1..];
  }

  /**
   * The "Jump to" link: `/session/${session_slug}?t=${start_seconds}`. For a
   * slug without `?`, `ParseJumpLink` recovers the slug and the start second
   * the link was built from.
   */
  function JumpLink(r: SearchResult): (link: string)
    ensures (forall k :: 0 <= k < |r.sessionSlug| ==> r.sessionSlug[k] != '?') ==>
      ParseJumpLink(link) == Some((r.sessionSlug, r.startSeconds))
  {
    SessionLinkParses(r.sessionSlug, r.startSeconds);
    "/session/" + r.sessionSlug + "?t=" + IntToString(r.startSeconds)
  }

  /** Position of the first `c` in `s`, or `|s|` when there is none. */
  function IndexOf(s: string, c: char): (i: nat)
    ensures i <= |s|
    ensures forall k :: 0 <= k < i ==> s[k] != c
    ensures i < |s| ==> s[i] == c
  {
    if |s| == 0 || s[0] == c then 0 else 1 + IndexOf(s[1..], c)
  }

  /**
   * Reads a session link back: the slug runs from after `/session/` to the
   * first `?`, and the query must be exactly `t=` and an integer.
   */
  function ParseJumpLink(link: string): Option<(string, int)>
  {
    var prefix := "/session/";
    if |link| < |prefix| || link[..|prefix|] != prefix then None
    else
      var rest := link[|prefix|..];
      var i := IndexOf(rest, '?');
      if |rest| - i < 3 || rest[i..i + 3] != "?t=" then None
      else match ParseInt(rest[i + 3..])
        case Some(t) => Some((rest[..i], t))
        case None => None
  }

  /**
   * A link the reader accepts, whose slug has no `?`, is exactly the link
   * `JumpLink` builds for that slug and second.
   */
  lemma ParseJumpLinkExact(link: string, slug: string, t: int)
    requires ParseJumpLink(link) == Some((slug, t))
    ensures forall k :: 0 <= k < |slug| ==> slug[k] != '?'
    ensures "/session/" + slug + "?t=" + IntToString(t) == link
  {
    var prefix := "/session/";
    var rest := link[|prefix|..];
    var i := IndexOf(rest, '?');
    assert link[..|prefix|] == prefix && rest[i..i + 3] == "?t=";
    var digits := rest[i + 3..];
    assert ParseInt(digits) == Some(t) && slug == rest[..i];
    ParseIntExact(digits, t);
    Reassemble(link, i);
  }

  /** A link cut at the prefix and at position `i` of the rest is the sum of its parts. */
  lemma Reassemble(link: string, i: nat)
    requires |link| >= 9 && link[..9] == "/session/"
    requires i + 3 <= |link| - 9 && link[9..][i..i + 3] == "?t="
    ensures link == "/session/" + link[9..][..i] + "?t=" + link[9..][i + 3..]
  {
    var rest := link[9..];
    assert rest == rest[..i] + rest[i..i + 3] + rest[i + 3..];
    assert link == link[..9] + rest;
  }

  /** A session link for a slug without `?` reads back as that slug and second. */
  lemma SessionLinkParses(slug: string, t: int)
    ensures (forall k :: 0 <= k < |slug| ==> slug[k] != '?') ==>
      ParseJumpLink("/session/" + slug + "?t=" + IntToString(t)) == Some((slug, t))
  {
    if forall k :: 0 <= k < |slug| ==> slug[k] != '?' {
      var digits := IntToString(t);
      var link := "/session/" + slug + "?t=" + digits;
      var rest := slug + "?t=" + digits;
      assert link == "/session/" + rest;
      assert link[|"/session/"|..] == rest;
      IndexOfFirst(slug, "?t=" + digits);
      assert rest == slug + ("?t=" + digits);
      assert rest[|slug|..|slug| + 3] == "?t=";
      assert rest[|slug| + 3..] == digits;
      assert rest[..|slug|] == slug;
      IntToStringRoundTrip(t);
    }
  }

  lemma IndexOfFirst(a: string, b: string)
    requires forall k :: 0 <= k < |a| ==> a[k] != '?'
    requires |b| > 0 && b[0] == '?'
    ensures IndexOf(a + b, '?') == |a|
  {
    assert (a + b)[|a|] == '?';
    assert forall k :: 0 <= k < |a| ==> (a + b)[k] == a[k];
  }
}
