/** `fetchChannelVideos`: the bounded pagination loop of the video fetch
    script. Each round asks the search endpoint for a page of video ids,
    asks the videos endpoint for their details, keeps the long-form videos
    and follows `nextPageToken`. The two endpoints are not called: the
    responses of round k are the k-th element of a sequence given as input,
    and a rejected request (a non-200 status or a network error) is a
    `Failure`. The result records the calls the loop makes. */
module Harvester {
  import opened Wrappers
  import opened Text
  import Duration
  import Classifier
  import Sequences

  /** A search response: `items` (the video ids) and `nextPageToken`, each
      possibly absent. */
  datatype SearchPage = SearchPage(items: Option<seq<string>>, nextPageToken: Option<string>)

  /** One element of a videos response: the fields of `id`, `snippet` and
      `contentDetails` the script reads. `publishedAt` is a timestamp. */
  datatype VideoDetails = VideoDetails(
    id: string, title: string, description: string, publishedAt: int, duration: string)

  datatype DetailsPage = DetailsPage(items: Option<seq<VideoDetails>>)

  /** Why `httpsGet` rejected: the status and body of a non-200 response,
      or status 0 for a network error. */
  datatype HttpError = HttpError(status: nat, body: string)

  /** The two responses of one round. */
  datatype Exchange = Exchange(
    search: Result<SearchPage, HttpError>, details: Result<DetailsPage, HttpError>)

  /** What the loop does, in order: a search request with its page token
      ("" for none), a details request with the comma-joined ids, or the
      one-second pause between rounds. */
  datatype Call = Search(token: string) | Details(ids: string) | Delay

  /** The record pushed for a kept video. */
  datatype VideoRecord = VideoRecord(
    id: string, title: string, description: string, youtubeId: string,
    category: string, duration: string, publishedAt: int)

  /** The harvested records, or the error that aborted the loop, together
      with the calls made up to that point. */
  datatype Harvest = Harvest(outcome: Result<seq<VideoRecord>, HttpError>, calls: seq<Call>)

  const MaxPages: nat := 10
  const ShortLimit: nat := 60
  const DescriptionLength: nat := 150
  const Placeholder: string := "Learn more about this topic"

  /** The responses of round `k`; past the end of `pages` the search comes
      back without items. */
  function ExchangeAt(pages: seq<Exchange>, k: nat): Exchange {
    if k < |pages| then pages[k]
    else Exchange(Success(SearchPage(None, None)), Success(DetailsPage(None)))
  }

  // ---------------------------------------------------------------------
  // The per-video filter and record.

  /** Shorts are the videos under a minute. */
  predicate IsLongForm(v: VideoDetails) {
    Duration.DurationInSeconds(v.duration) >= ShortLimit
  }

  /** The record built for `v`: both ids are the video id, the description
      is cut to 150 characters with a placeholder when that leaves nothing,
      the category comes from the title and the duration is displayed. */
  function BuildRecord(v: VideoDetails): (r: VideoRecord)
    ensures r.id == v.id && r.youtubeId == v.id && r.title == v.title && r.publishedAt == v.publishedAt
    ensures v.description == [] ==> r.description == Placeholder
    ensures v.description != [] ==> r.description <= v.description && |r.description| == Min(|v.description|, DescriptionLength)
    ensures r.category == Classifier.Categorize(v.title) && r.category in Classifier.VideoCategories[1..]
    ensures r.duration == Duration.FormatDuration(v.duration)
  {
    var cut := Prefix(v.description, DescriptionLength);
    VideoRecord(v.id, v.title, if cut == [] then Placeholder else cut, v.id,
                Classifier.Categorize(v.title), Duration.FormatDuration(v.duration), v.publishedAt)
  }

  function Min(a: nat, b: nat): nat {
    if a < b then a else b
  }

  /** The `for` loop over `videosData.items`: pushes a record for each
      long-form video, skips the shorts. */
  function KeepLongForm(items: seq<VideoDetails>): seq<VideoRecord> {
    Sequences.Collect(IsLongForm, BuildRecord, items)
  }

  /** The kept records are those of the long-form videos, one each, in
      their order. */
  lemma KeepLongFormSpec(items: seq<VideoDetails>)
    ensures KeepLongForm(items) == Sequences.Map(BuildRecord, Sequences.Filter(IsLongForm, items))
  {
    Sequences.CollectIsFilterMap(IsLongForm, BuildRecord, items);
  }

  /** How the records of a details response are built. The loop is
      written for any such rule; the script's rule is `DetailsRecords`. */
  type Build = DetailsPage -> seq<VideoRecord>

  /** `if (videosData.items) { for ... }`. */
  function DetailsRecords(details: DetailsPage): seq<VideoRecord> {
    if details.items.Some? then KeepLongForm(details.items.value) else []
  }

  /** The records round k contributes: those of its details when the search
      returned ids and both requests succeeded. */
  function PageRecords(ex: Exchange, build: Build): seq<VideoRecord> {
    if ex.search.Success? && ex.search.value.items.Some? && ex.search.value.items.value != []
       && ex.details.Success?
    then build(ex.details.value)
    else []
  }

  // ---------------------------------------------------------------------
  // The loop.

  /** `nextPageToken = searchData.nextPageToken || ''`. */
  function NextToken(page: SearchPage): string {
    page.nextPageToken.GetOr("")
  }

  /** The loop as written: round `k` (0-based, so `pageCount` is `k + 1`
      after the increment) with page token `token`, records `acc` and calls
      `calls` so far. An error rethrown by the `catch` ends the harvest. */
  function Loop(pages: seq<Exchange>, build: Build, token: string, k: nat, acc: seq<VideoRecord>, calls: seq<Call>): Harvest
    requires k < MaxPages
    decreases MaxPages - k
  {
    var ex := ExchangeAt(pages, k);
    var searched := calls + [Search(token)];
    match ex.search
    case Failure(e) => Harvest(Failure(e), searched)
    case Success(page) =>
      if page.items.None? || page.items.value == [] then Harvest(Success(acc), searched)
      else
        var detailed := searched + [Details(Join(page.items.value, ','))];
        match ex.details
        case Failure(e) => Harvest(Failure(e), detailed)
        case Success(details) =>
          var acc' := acc + build(details);
          var next := NextToken(page);
          if next != "" && k + 1 < MaxPages then
            Loop(pages, build, next, k + 1, acc', detailed + [Delay])
          else Harvest(Success(acc'), detailed)
  }

  /** `fetchChannelVideos()`: the loop from the first round, without a
      page token. */
  function FetchChannelVideos(pages: seq<Exchange>): Harvest {
    FetchWith(pages, DetailsRecords)
  }

  /** The loop from the first round with any record rule. */
  function FetchWith(pages: seq<Exchange>, build: Build): Harvest {
    Loop(pages, build, "", 0, [], [])
  }

  // ---------------------------------------------------------------------
  // An independent description of when the loop stops.

  /** Round `k` is followed by another: its search returned ids, its
      details request succeeded, there is a next page token and fewer than
      `MaxPages` rounds have run. */
  predicate Continues(pages: seq<Exchange>, k: nat) {
    var ex := ExchangeAt(pages, k);
    && k + 1 < MaxPages
    && ex.search.Success? && ex.search.value.items.Some? && ex.search.value.items.value != []
    && ex.details.Success?
    && NextToken(ex.search.value) != ""
  }

  /** The first round from `k` on that is not followed by another. */
  function LastRound(pages: seq<Exchange>, k: nat): (r: nat)
    requires k < MaxPages
    ensures k <= r < MaxPages && !Continues(pages, r)
    ensures forall j :: k <= j < r ==> Continues(pages, j)
    decreases MaxPages - k
  {
    if Continues(pages, k) then LastRound(pages, k + 1) else k
  }

  /** Round `k` aborts the harvest: one of its requests fails. */
  predicate Fails(ex: Exchange) {
    || ex.search.Failure?
    || (ex.search.value.items.Some? && ex.search.value.items.value != [] && ex.details.Failure?)
  }

  /** The records of rounds `k` up to, not including, `n`, in order. */
  function RecordsOf(pages: seq<Exchange>, build: Build, k: nat, n: nat): seq<VideoRecord>
    decreases n - k
  {
    if n <= k then [] else PageRecords(ExchangeAt(pages, k), build) + RecordsOf(pages, build, k + 1, n)
  }

  function CountSearches(calls: seq<Call>): nat {
    |Sequences.Filter((c: Call) => c.Search?, calls)|
  }

  function CountDelays(calls: seq<Call>): nat {
    |Sequences.Filter((c: Call) => c.Delay?, calls)|
  }

  /** Every pause is followed by a search: the loop pauses only when
      another round follows. */
  predicate DelaysPrecedeSearches(calls: seq<Call>) {
    forall i :: 0 <= i < |calls| && calls[i].Delay? ==> i + 1 < |calls| && calls[i + 1].Search?
  }

  lemma CountAppend(calls: seq<Call>, c: Call)
    ensures CountSearches(calls + [c]) == CountSearches(calls) + (if c.Search? then 1 else 0)
    ensures CountDelays(calls + [c]) == CountDelays(calls) + (if c.Delay? then 1 else 0)
  {
    Sequences.FilterAppend((c: Call) => c.Search?, calls, [c]);
    Sequences.FilterAppend((c: Call) => c.Delay?, calls, [c]);
  }

  /** The requests of round `k`: the search, then the details request
      when the search returned ids. */
  function RoundCalls(ex: Exchange, token: string): seq<Call> {
    if ex.search.Success? && ex.search.value.items.Some? && ex.search.value.items.value != [] then
      [Search(token), Details(Join(ex.search.value.items.value, ','))]
    else [Search(token)]
  }

  /** A round that is followed by another makes its requests, pauses and
      hands on the next page token and its records. */
  lemma LoopContinues(pages: seq<Exchange>, build: Build, token: string, k: nat, acc: seq<VideoRecord>, calls: seq<Call>)
    requires k < MaxPages && Continues(pages, k)
    ensures var ex := ExchangeAt(pages, k);
      Loop(pages, build, token, k, acc, calls)
        == Loop(pages, build, NextToken(ex.search.value), k + 1, acc + PageRecords(ex, build), calls + RoundCalls(ex, token) + [Delay])
  {
    var ex := ExchangeAt(pages, k);
    var ids := Join(ex.search.value.items.value, ',');
    assert calls + [Search(token)] + [Details(ids)] == calls + [Search(token), Details(ids)];
  }

  /** The last round makes its requests and, unless it fails, adds its
      records. */
  lemma LoopStops(pages: seq<Exchange>, build: Build, token: string, k: nat, acc: seq<VideoRecord>, calls: seq<Call>)
    requires k < MaxPages && !Continues(pages, k)
    ensures Loop(pages, build, token, k, acc, calls).calls == calls + RoundCalls(ExchangeAt(pages, k), token)
    ensures Loop(pages, build, token, k, acc, calls).outcome.Success? ==>
      Loop(pages, build, token, k, acc, calls).outcome.value == acc + PageRecords(ExchangeAt(pages, k), build)
  {
    var ex := ExchangeAt(pages, k);
    if ex.search.Success? && ex.search.value.items.Some? && ex.search.value.items.value != [] {
      var ids := Join(ex.search.value.items.value, ',');
      assert calls + [Search(token)] + [Details(ids)] == calls + [Search(token), Details(ids)];
    } else {
      EmptySuffix(acc);
    }
  }

  /** One search and no pause per round. */
  lemma RoundCallsCount(calls: seq<Call>, ex: Exchange, token: string)
    ensures CountSearches(calls + RoundCalls(ex, token)) == CountSearches(calls) + 1
    ensures CountDelays(calls + RoundCalls(ex, token)) == CountDelays(calls)
  {
    var r := RoundCalls(ex, token);
    CountAppend(calls, Search(token));
    if |r| == 2 {
      assert calls + r == calls + [Search(token)] + [r[1]];
      CountAppend(calls + [Search(token)], r[1]);
    }
  }

  /** The pause rule holds of `calls` except that it may end in a pause
      whose search is still to come. */
  predicate AwaitingSearch(calls: seq<Call>) {
    && (calls == [] || calls[|calls| - 1] == Delay)
    && forall i :: 0 <= i < |calls| - 1 && calls[i].Delay? ==> calls[i + 1].Search?
  }

  /** A round's requests answer the pending pause and add none. */
  lemma RoundAnswersPause(calls: seq<Call>, ex: Exchange, token: string)
    requires AwaitingSearch(calls)
    ensures DelaysPrecedeSearches(calls + RoundCalls(ex, token))
    ensures AwaitingSearch(calls + RoundCalls(ex, token) + [Delay])
  {
  }

  /** From round `k` on the loop makes one search per round up to the last
      round and pauses once between consecutive rounds, only there. */
  lemma {:induction false} LoopCalls(pages: seq<Exchange>, build: Build, token: string, k: nat, acc: seq<VideoRecord>, calls: seq<Call>)
    requires k < MaxPages && AwaitingSearch(calls)
    ensures CountSearches(Loop(pages, build, token, k, acc, calls).calls) == CountSearches(calls) + LastRound(pages, k) - k + 1
    ensures CountDelays(Loop(pages, build, token, k, acc, calls).calls) == CountDelays(calls) + LastRound(pages, k) - k
    ensures DelaysPrecedeSearches(Loop(pages, build, token, k, acc, calls).calls)
    decreases MaxPages - k
  {
    var ex := ExchangeAt(pages, k);
    RoundCallsCount(calls, ex, token);
    RoundAnswersPause(calls, ex, token);
    if Continues(pages, k) {
      var round := calls + RoundCalls(ex, token);
      LoopCalls(pages, build, NextToken(ex.search.value), k + 1, acc + PageRecords(ex, build), round + [Delay]);
      CallsContinue(pages, build, token, k, acc, calls);
    } else {
      LoopStops(pages, build, token, k, acc, calls);
    }
  }

  /** The requests of a round followed by another, given those from the
      next round on. */
  lemma CallsContinue(pages: seq<Exchange>, build: Build, token: string, k: nat, acc: seq<VideoRecord>, calls: seq<Call>)
    requires k < MaxPages && Continues(pages, k)
    requires var ex := ExchangeAt(pages, k);
      var round := calls + RoundCalls(ex, token);
      var c := Loop(pages, build, NextToken(ex.search.value), k + 1, acc + PageRecords(ex, build), round + [Delay]).calls;
      && CountSearches(round) == CountSearches(calls) + 1
      && CountDelays(round) == CountDelays(calls)
      && CountSearches(c) == CountSearches(round + [Delay]) + LastRound(pages, k + 1) - (k + 1) + 1
      && CountDelays(c) == CountDelays(round + [Delay]) + LastRound(pages, k + 1) - (k + 1)
      && DelaysPrecedeSearches(c)
    ensures CountSearches(Loop(pages, build, token, k, acc, calls).calls) == CountSearches(calls) + LastRound(pages, k) - k + 1
    ensures CountDelays(Loop(pages, build, token, k, acc, calls).calls) == CountDelays(calls) + LastRound(pages, k) - k
    ensures DelaysPrecedeSearches(Loop(pages, build, token, k, acc, calls).calls)
  {
    var ex := ExchangeAt(pages, k);
    LoopContinues(pages, build, token, k, acc, calls);
    CountAppend(calls + RoundCalls(ex, token), Delay);
  }

  /** The calls made so far are kept, and the next is the search with the
      current token. */
  lemma {:induction false} LoopFirstCall(pages: seq<Exchange>, build: Build, token: string, k: nat, acc: seq<VideoRecord>, calls: seq<Call>)
    requires k < MaxPages
    ensures |Loop(pages, build, token, k, acc, calls).calls| > |calls|
    ensures Loop(pages, build, token, k, acc, calls).calls[..|calls| + 1] == calls + [Search(token)]
    decreases MaxPages - k
  {
    var ex := ExchangeAt(pages, k);
    var round := calls + RoundCalls(ex, token);
    assert round[..|calls| + 1] == calls + [Search(token)];
    if Continues(pages, k) {
      LoopContinues(pages, build, token, k, acc, calls);
      var next := NextToken(ex.search.value);
      LoopFirstCall(pages, build, next, k + 1, acc + PageRecords(ex, build), round + [Delay]);
      PrefixOfPrefix(Loop(pages, build, token, k, acc, calls).calls, round + [Delay] + [Search(next)], |calls| + 1);
    } else {
      LoopStops(pages, build, token, k, acc, calls);
    }
  }

  lemma PrefixOfPrefix(a: seq<Call>, b: seq<Call>, n: nat)
    requires n <= |b| <= |a| && a[..|b|] == b
    ensures a[..n] == b[..n]
  {
    assert a[..n] == a[..|b|][..n];
  }

  /** From round `k` on the loop fails exactly when the last round
      fails. */
  lemma {:induction false} LoopFails(pages: seq<Exchange>, build: Build, token: string, k: nat, acc: seq<VideoRecord>, calls: seq<Call>)
    requires k < MaxPages
    ensures Loop(pages, build, token, k, acc, calls).outcome.Failure? <==> Fails(ExchangeAt(pages, LastRound(pages, k)))
    decreases MaxPages - k
  {
    var ex := ExchangeAt(pages, k);
    if Continues(pages, k) {
      LoopContinues(pages, build, token, k, acc, calls);
      LoopFails(pages, build, NextToken(ex.search.value), k + 1, acc + PageRecords(ex, build), calls + RoundCalls(ex, token) + [Delay]);
    }
  }

  /** When it succeeds, the loop from round `k` on adds the records of the
      rounds up to the last, in order. */
  lemma {:induction false} LoopRecords(pages: seq<Exchange>, build: Build, token: string, k: nat, acc: seq<VideoRecord>, calls: seq<Call>)
    requires k < MaxPages
    ensures Loop(pages, build, token, k, acc, calls).outcome.Success? ==>
      Loop(pages, build, token, k, acc, calls).outcome.value == acc + RecordsOf(pages, build, k, LastRound(pages, k) + 1)
    decreases MaxPages - k
  {
    if Continues(pages, k) {
      var ex := ExchangeAt(pages, k);
      LoopRecords(pages, build, NextToken(ex.search.value), k + 1, acc + PageRecords(ex, build), calls + RoundCalls(ex, token) + [Delay]);
      RecordsContinue(pages, build, token, k, acc, calls);
    } else {
      RecordsStop(pages, build, token, k, acc, calls);
    }
  }

  /** The records of a round followed by another, given those from the
      next round on. */
  lemma RecordsContinue(pages: seq<Exchange>, build: Build, token: string, k: nat, acc: seq<VideoRecord>, calls: seq<Call>)
    requires k < MaxPages && Continues(pages, k)
    requires var ex := ExchangeAt(pages, k);
      var o := Loop(pages, build, NextToken(ex.search.value), k + 1, acc + PageRecords(ex, build), calls + RoundCalls(ex, token) + [Delay]).outcome;
      o.Success? ==> o.value == acc + PageRecords(ex, build) + RecordsOf(pages, build, k + 1, LastRound(pages, k + 1) + 1)
    ensures Loop(pages, build, token, k, acc, calls).outcome.Success? ==>
      Loop(pages, build, token, k, acc, calls).outcome.value == acc + RecordsOf(pages, build, k, LastRound(pages, k) + 1)
  {
    var ex := ExchangeAt(pages, k);
    var last := LastRound(pages, k);
    var here := PageRecords(ex, build);
    var next := NextToken(ex.search.value);
    var calls' := calls + RoundCalls(ex, token) + [Delay];
    RecordsOfStep(pages, build, k, last + 1);
    LoopContinues(pages, build, token, k, acc, calls);
    Chain(Loop(pages, build, token, k, acc, calls).outcome, Loop(pages, build, next, k + 1, acc + here, calls').outcome,
          acc, here, RecordsOf(pages, build, k + 1, last + 1));
  }

  /** The records of the last round. */
  lemma RecordsStop(pages: seq<Exchange>, build: Build, token: string, k: nat, acc: seq<VideoRecord>, calls: seq<Call>)
    requires k < MaxPages && !Continues(pages, k)
    ensures Loop(pages, build, token, k, acc, calls).outcome.Success? ==>
      Loop(pages, build, token, k, acc, calls).outcome.value == acc + RecordsOf(pages, build, k, LastRound(pages, k) + 1)
  {
    var here := PageRecords(ExchangeAt(pages, k), build);
    RecordsOfStep(pages, build, k, k + 1);
    LoopStops(pages, build, token, k, acc, calls);
    assert RecordsOf(pages, build, k + 1, k + 1) == [];
    EmptySuffix(here);
  }

  /** Handing records on to a later round and adding them there agree. */
  lemma Chain(o: Result<seq<VideoRecord>, HttpError>, o': Result<seq<VideoRecord>, HttpError>,
              acc: seq<VideoRecord>, here: seq<VideoRecord>, later: seq<VideoRecord>)
    requires o == o'
    requires o'.Success? ==> o'.value == (acc + here) + later
    ensures o.Success? ==> o.value == acc + (here + later)
  {
  }

  lemma RecordsOfStep(pages: seq<Exchange>, build: Build, k: nat, n: nat)
    requires k < n
    ensures RecordsOf(pages, build, k, n) == PageRecords(ExchangeAt(pages, k), build) + RecordsOf(pages, build, k + 1, n)
  {
  }

  lemma EmptySuffix(r: seq<VideoRecord>)
    ensures r + [] == r
  {
  }

  /** The harvest makes between 1 and `MaxPages` searches, one per round
      up to the last, with one pause
      between consecutive searches and none after the last. The requests
      do not depend on how records are built. */
  lemma Pagination(pages: seq<Exchange>, build: Build)
    ensures 1 <= CountSearches(FetchWith(pages, build).calls) == LastRound(pages, 0) + 1 <= MaxPages
    ensures CountDelays(FetchWith(pages, build).calls) + 1 == CountSearches(FetchWith(pages, build).calls)
    ensures DelaysPrecedeSearches(FetchWith(pages, build).calls)
  {
    LoopCalls(pages, build, "", 0, [], []);
  }

  /** The first request is the search without a page token. */
  lemma FirstCallIsSearch(pages: seq<Exchange>, build: Build)
    ensures FetchWith(pages, build).calls != []
    ensures FetchWith(pages, build).calls[0] == Search("")
  {
    var calls := FetchWith(pages, build).calls;
    LoopFirstCall(pages, build, "", 0, [], []);
    assert calls[..1] == [] + [Search("")] == [Search("")];
    assert calls[0] == calls[..1][0];
  }

  /** The harvest fails exactly when the last round's requests fail, and
      otherwise holds the records of every round, in round order. */
  lemma HarvestedRecords(pages: seq<Exchange>, build: Build)
    ensures FetchWith(pages, build).outcome.Failure? <==> Fails(ExchangeAt(pages, LastRound(pages, 0)))
    ensures FetchWith(pages, build).outcome.Success? ==>
      FetchWith(pages, build).outcome.value == RecordsOf(pages, build, 0, LastRound(pages, 0) + 1)
  {
    LoopFails(pages, build, "", 0, [], []);
    LoopRecords(pages, build, "", 0, [], []);
    EmptyPrefix(RecordsOf(pages, build, 0, LastRound(pages, 0) + 1));
  }

  lemma EmptyPrefix(r: seq<VideoRecord>)
    ensures [] + r == r
  {
  }

  /** A search without items ends the harvest at once, after one call and
      with no records, whatever the other rounds hold. */
  lemma EmptyFirstPage(pages: seq<Exchange>, build: Build)
    requires pages != [] && pages[0].search.Success? && pages[0].search.value.items.GetOr([]) == []
    ensures FetchWith(pages, build) == Harvest(Success([]), [Search("")])
  {
  }

  function TwoRounds(ids1: seq<string>, ids2: seq<string>, token: string, v1: seq<VideoDetails>, v2: seq<VideoDetails>): seq<Exchange> {
    [Exchange(Success(SearchPage(Some(ids1), Some(token))), Success(DetailsPage(Some(v1)))),
     Exchange(Success(SearchPage(Some(ids2), None)), Success(DetailsPage(Some(v2))))]
  }

  /** Two rounds, the first with a next page token: the loop searches,
      fetches the details, pauses, searches with that token and fetches the
      details again. */
  lemma TwoPagesCalls(ids1: seq<string>, ids2: seq<string>, token: string, v1: seq<VideoDetails>, v2: seq<VideoDetails>, build: Build)
    requires ids1 != [] && ids2 != [] && token != ""
    ensures FetchWith(TwoRounds(ids1, ids2, token, v1, v2), build).calls
         == [Search(""), Details(Join(ids1, ',')), Delay, Search(token), Details(Join(ids2, ','))]
  {
    var pages := TwoRounds(ids1, ids2, token, v1, v2);
    var d1 := Details(Join(ids1, ','));
    var d2 := Details(Join(ids2, ','));
    assert Continues(pages, 0) && !Continues(pages, 1);
    LoopContinues(pages, build, "", 0, [], []);
    assert RoundCalls(pages[0], "") == [Search(""), d1];
    assert ExchangeAt(pages, 1) == pages[1];
    assert RoundCalls(pages[1], token) == [Search(token), d2];
    LoopStops(pages, build, token, 1, [] + PageRecords(pages[0], build), [] + [Search(""), d1] + [Delay]);
    FiveCalls(Search(""), d1, Search(token), d2);
  }

  lemma FiveCalls(a: Call, b: Call, c: Call, d: Call)
    ensures [] + [a, b] + [Delay] + [c, d] == [a, b, Delay, c, d]
  {
  }

  /** ... and holds the records of the first page followed by those of the
      second. */
  lemma TwoPagesRecords(ids1: seq<string>, ids2: seq<string>, token: string, v1: seq<VideoDetails>, v2: seq<VideoDetails>, build: Build)
    requires ids1 != [] && ids2 != [] && token != ""
    ensures FetchWith(TwoRounds(ids1, ids2, token, v1, v2), build).outcome
         == Success(build(DetailsPage(Some(v1))) + build(DetailsPage(Some(v2))))
  {
    var pages := TwoRounds(ids1, ids2, token, v1, v2);
    var kept1 := build(DetailsPage(Some(v1)));
    assert Continues(pages, 0) && !Continues(pages, 1);
    LoopContinues(pages, build, "", 0, [], []);
    assert PageRecords(pages[0], build) == kept1;
    EmptyPrefix(kept1);
    assert ExchangeAt(pages, 1) == pages[1];
    assert PageRecords(pages[1], build) == build(DetailsPage(Some(v2)));
    LoopStops(pages, build, token, 1, kept1, [] + RoundCalls(pages[0], "") + [Delay]);
    LoopFails(pages, build, token, 1, kept1, [] + RoundCalls(pages[0], "") + [Delay]);
  }

  /** With the script's rule, those are the long-form videos of each page. */
  lemma TwoPagesKept(ids1: seq<string>, ids2: seq<string>, token: string, v1: seq<VideoDetails>, v2: seq<VideoDetails>)
    requires ids1 != [] && ids2 != [] && token != ""
    ensures FetchChannelVideos(TwoRounds(ids1, ids2, token, v1, v2)).outcome
         == Success(KeepLongForm(v1) + KeepLongForm(v2))
  {
    TwoPagesRecords(ids1, ids2, token, v1, v2, DetailsRecords);
  }
}
