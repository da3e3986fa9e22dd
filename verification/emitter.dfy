/** `generateVideoDataFile` and `main` of the video fetch script: the
    harvest is sorted newest first, a per-category tally is printed in
    decreasing order of count, and an empty harvest writes nothing. The
    text of the generated file and the console output are not modelled;
    the sorted list and the tally are. */
module Emitter {
  import opened Wrappers
  import Sequences
  import EnvFile
  import Harvester

  type VideoRecord = Harvester.VideoRecord

  function PublishedAt(v: VideoRecord): int {
    v.publishedAt
  }

  /** `videos.sort((a, b) => new Date(b.publishedAt) - new Date(a.publishedAt))`. */
  function SortNewestFirst(videos: seq<VideoRecord>): seq<VideoRecord> {
    Sequences.SortDesc(videos, PublishedAt)
  }

  /** The emitted list is the harvest reordered, newest first, with videos
      published at the same time left in harvest order. */
  lemma NewestFirst(videos: seq<VideoRecord>, t: int)
    ensures multiset(SortNewestFirst(videos)) == multiset(videos)
    ensures forall i, j :: 0 <= i < j < |SortNewestFirst(videos)| ==>
      SortNewestFirst(videos)[i].publishedAt >= SortNewestFirst(videos)[j].publishedAt
    ensures Sequences.WithKey(SortNewestFirst(videos), PublishedAt, t) == Sequences.WithKey(videos, PublishedAt, t)
  {
    Sequences.SortDescStable(videos, PublishedAt, t);
  }

  // ---------------------------------------------------------------------
  // The category tally.

  /** One entry of `Object.entries(categoryStats)`. */
  datatype Stat = Stat(category: string, count: nat)

  /** The count the tally holds for `c`, 0 when it has no entry. */
  function CountOf(stats: seq<Stat>, c: string): nat {
    if stats == [] then 0
    else if stats[0].category == c then stats[0].count
    else CountOf(stats[1..], c)
  }

  predicate Listed(stats: seq<Stat>, c: string) {
    exists i :: 0 <= i < |stats| && stats[i].category == c
  }

  /** No category has two entries (object keys are unique). */
  predicate DistinctCategories(stats: seq<Stat>) {
    forall i, j :: 0 <= i < j < |stats| ==> stats[i].category != stats[j].category
  }

  function SumCounts(stats: seq<Stat>): nat {
    if stats == [] then 0 else stats[0].count + SumCounts(stats[1..])
  }

  /** `categoryStats[c] = (categoryStats[c] || 0) + 1`: the entry of `c`
      goes up by one, or a new entry with count 1 is added at the end
      (string keys keep insertion order). */
  function Bump(stats: seq<Stat>, c: string): (r: seq<Stat>)
    ensures |r| == |stats| || r == stats + [Stat(c, 1)]
    ensures !Listed(stats, c) ==> r == stats + [Stat(c, 1)]
    ensures Listed(stats, c) ==> |r| == |stats|
    ensures Listed(stats, c) && DistinctCategories(stats) ==>
      forall i :: 0 <= i < |r| ==> r[i] == if stats[i].category == c then Stat(c, stats[i].count + 1) else stats[i]
  {
    assert stats != [] ==> stats == [stats[0]] + stats[1..];
    if stats == [] then [Stat(c, 1)]
    else if stats[0].category == c then [Stat(c, stats[0].count + 1)] + stats[1..]
    else
      var rest := Bump(stats[1..], c);
      ListedCons(stats[0], stats[1..], c);
      DistinctTail(stats);
      [stats[0]] + rest
  }

  /** Dropping the first entry keeps the categories distinct. */
  lemma DistinctTail(stats: seq<Stat>)
    requires stats != []
    ensures DistinctCategories(stats) ==> DistinctCategories(stats[1..])
  {
    if DistinctCategories(stats) {
      forall i, j | 0 <= i < j < |stats[1..]|
        ensures stats[1..][i].category != stats[1..][j].category
      {
        assert stats[1..][i] == stats[i + 1] && stats[1..][j] == stats[j + 1];
      }
    }
  }

  /** Bumping `c` adds one to its count, one to the total, lists `c` and
      keeps the categories distinct and the counts positive. */
  lemma BumpSpec(stats: seq<Stat>, c: string, d: string)
    requires DistinctCategories(stats)
    ensures CountOf(Bump(stats, c), d) == CountOf(stats, d) + (if c == d then 1 else 0)
    ensures SumCounts(Bump(stats, c)) == SumCounts(stats) + 1
    ensures Listed(Bump(stats, c), d) <==> Listed(stats, d) || c == d
    ensures DistinctCategories(Bump(stats, c))
  {
    BumpCount(stats, c, d);
    BumpSum(stats, c);
    BumpListed(stats, c, d);
    BumpDistinct(stats, c);
  }

  lemma {:induction false} BumpCount(stats: seq<Stat>, c: string, d: string)
    ensures CountOf(Bump(stats, c), d) == CountOf(stats, d) + (if c == d then 1 else 0)
  {
    if stats != [] && stats[0].category != c {
      BumpCount(stats[1..], c, d);
    }
  }

  lemma {:induction false} BumpSum(stats: seq<Stat>, c: string)
    ensures SumCounts(Bump(stats, c)) == SumCounts(stats) + 1
  {
    if stats != [] && stats[0].category != c {
      BumpSum(stats[1..], c);
    }
  }

  lemma {:induction false} BumpListed(stats: seq<Stat>, c: string, d: string)
    ensures Listed(Bump(stats, c), d) <==> Listed(stats, d) || c == d
  {
    if stats == [] {
      assert Bump(stats, c)[0].category == c;
    } else {
      ListedCons(stats[0], stats[1..], d);
      assert [stats[0]] + stats[1..] == stats;
      if stats[0].category != c {
        BumpListed(stats[1..], c, d);
        ListedCons(stats[0], Bump(stats[1..], c), d);
      } else {
        ListedCons(Stat(c, stats[0].count + 1), stats[1..], d);
      }
    }
  }

  lemma {:induction false} BumpDistinct(stats: seq<Stat>, c: string)
    requires DistinctCategories(stats)
    ensures DistinctCategories(Bump(stats, c))
  {
    if stats != [] {
      var head := stats[0];
      var rest := stats[1..];
      forall e | Listed(rest, e) ensures e != head.category {
        var i :| 0 <= i < |rest| && rest[i].category == e;
        assert stats[i + 1] == rest[i];
      }
      if head.category != c {
        BumpDistinct(rest, c);
        forall e | Listed(Bump(rest, c), e) ensures e != head.category {
          BumpListed(rest, c, e);
        }
        DistinctCons(head, Bump(rest, c));
      } else {
        DistinctCons(Stat(c, head.count + 1), rest);
      }
    }
  }

  lemma ListedCons(x: Stat, rest: seq<Stat>, d: string)
    ensures Listed([x] + rest, d) <==> x.category == d || Listed(rest, d)
  {
    assert ([x] + rest)[0] == x;
    if Listed(rest, d) {
      var i :| 0 <= i < |rest| && rest[i].category == d;
      assert ([x] + rest)[i + 1] == rest[i];
    }
    if Listed([x] + rest, d) && x.category != d {
      var i :| 0 <= i < |[x] + rest| && ([x] + rest)[i].category == d;
      assert i != 0;
      assert rest[i - 1] == ([x] + rest)[i];
      assert 0 <= i - 1 < |rest| && rest[i - 1].category == d;
    }
  }

  lemma DistinctCons(x: Stat, rest: seq<Stat>)
    requires DistinctCategories(rest)
    requires forall e :: Listed(rest, e) ==> e != x.category
    ensures DistinctCategories([x] + rest)
  {
    forall i, j | 0 <= i < j < |[x] + rest|
      ensures ([x] + rest)[i].category != ([x] + rest)[j].category
    {
      if i == 0 {
        assert ([x] + rest)[j] == rest[j - 1];
        assert Listed(rest, rest[j - 1].category);
      }
    }
  }

  /** The `forEach` over the videos' categories, in order. */
  function Tally(categories: seq<string>): seq<Stat>
    decreases |categories|
  {
    if categories == [] then []
    else Bump(Tally(categories[..|categories| - 1]), categories[|categories| - 1])
  }

  /** The tally has one entry per category that occurs, holding the number
      of its occurrences, and the counts add up to the number of videos. */
  lemma {:induction false} TallySpec(categories: seq<string>, d: string)
    ensures DistinctCategories(Tally(categories))
    ensures CountOf(Tally(categories), d) == multiset(categories)[d]
    ensures Listed(Tally(categories), d) <==> d in categories
    ensures SumCounts(Tally(categories)) == |categories|
    decreases |categories|
  {
    if categories != [] {
      var init := categories[..|categories| - 1];
      var last := categories[|categories| - 1];
      assert categories == init + [last];
      TallySpec(init, d);
      BumpSpec(Tally(init), last, d);
    }
  }

  function Count(s: Stat): int {
    s.count
  }

  /** `Object.entries(categoryStats).sort((a, b) => b[1] - a[1])` over the
      categories of `videos`. */
  function CategoryStats(videos: seq<VideoRecord>): seq<Stat> {
    Sequences.SortDesc(Tally(Sequences.Map((v: VideoRecord) => v.category, videos)), Count)
  }

  /** The printed statistics: the tally's entries, largest count first,
      each category once with its number of videos, the counts adding up to
      the number of videos. */
  lemma CategoryStatsSpec(videos: seq<VideoRecord>)
    ensures var stats := CategoryStats(videos);
      var categories := Sequences.Map((v: VideoRecord) => v.category, videos);
      && Sequences.NonIncreasing(stats, Count)
      && multiset(stats) == multiset(Tally(categories))
      && SumCounts(stats) == |videos|
  {
    var categories := Sequences.Map((v: VideoRecord) => v.category, videos);
    TallySpec(categories, "");
    SumSort(Tally(categories));
  }

  /** Inserting an entry adds its count to the total. */
  lemma {:induction false} SumInsert(x: Stat, s: seq<Stat>)
    requires Sequences.NonIncreasing(s, Count)
    ensures SumCounts(Sequences.InsertDesc(x, s, Count)) == x.count + SumCounts(s)
  {
    if s != [] && Count(x) < Count(s[0]) {
      SumInsert(x, s[1..]);
      var t := Sequences.InsertDesc(x, s[1..], Count);
      assert ([s[0]] + t)[1..] == t;
    } else {
      assert ([x] + s)[1..] == s;
    }
  }

  /** Sorting the entries keeps the total. */
  lemma {:induction false} SumSort(s: seq<Stat>)
    ensures SumCounts(Sequences.SortDesc(s, Count)) == SumCounts(s)
  {
    if s != [] {
      SumSort(s[1..]);
      SumInsert(s[0], Sequences.SortDesc(s[1..], Count));
    }
  }

  // ---------------------------------------------------------------------
  // `main`.

  /** How a run ends: the process exits during start-up, the fetch
      throws, nothing was found, or the file is generated from the sorted
      videos and the statistics are printed. */
  datatype RunOutcome =
    | ConfigFailed(configError: EnvFile.ConfigError)
    | FetchFailed(httpError: Harvester.HttpError)
    | NoVideos
    | Generated(videos: seq<VideoRecord>, stats: seq<Stat>)

  /** The script end to end: `file` is the content of `.env` (or `None`),
      `env` the initial environment, `pages` the server's responses. */
  function Run(file: Option<string>, env: EnvFile.Env, pages: seq<Harvester.Exchange>): RunOutcome {
    match EnvFile.Startup(file, env)
    case Failure(e) => ConfigFailed(e)
    case Success(_) =>
      match Harvester.FetchChannelVideos(pages).outcome
      case Failure(e) => FetchFailed(e)
      case Success(videos) =>
        if |videos| == 0 then NoVideos
        else Generated(SortNewestFirst(videos), CategoryStats(SortNewestFirst(videos)))
  }

  /** `process.exit(1)` on the two failure paths, a normal end otherwise. */
  function ExitCode(o: RunOutcome): nat {
    if o.ConfigFailed? || o.FetchFailed? then 1 else 0
  }

  /** A file is written exactly when start-up and the fetch succeed with
      at least one video; an empty harvest ends normally without writing. */
  lemma RunWritesFile(file: Option<string>, env: EnvFile.Env, pages: seq<Harvester.Exchange>)
    ensures Run(file, env, pages).Generated?
        <==> EnvFile.Startup(file, env).Success?
             && Harvester.FetchChannelVideos(pages).outcome.Success?
             && Harvester.FetchChannelVideos(pages).outcome.value != []
    ensures Run(file, env, pages).NoVideos?
        ==> ExitCode(Run(file, env, pages)) == 0 && Harvester.FetchChannelVideos(pages).outcome == Success([])
  {
  }

  /** The process exits with status 1 exactly when start-up or the fetch
      fails. */
  lemma RunExitCode(file: Option<string>, env: EnvFile.Env, pages: seq<Harvester.Exchange>)
    ensures ExitCode(Run(file, env, pages)) == 1
        <==> EnvFile.Startup(file, env).Failure? || Harvester.FetchChannelVideos(pages).outcome.Failure?
  {
  }

  /** The file holds the harvest newest first, and the counts printed add
      up to its length. */
  lemma RunGenerated(file: Option<string>, env: EnvFile.Env, pages: seq<Harvester.Exchange>)
    requires Run(file, env, pages).Generated?
    ensures Harvester.FetchChannelVideos(pages).outcome.Success?
    ensures multiset(Run(file, env, pages).videos) == multiset(Harvester.FetchChannelVideos(pages).outcome.value)
    ensures Sequences.NonIncreasing(Run(file, env, pages).videos, PublishedAt)
    ensures SumCounts(Run(file, env, pages).stats) == |Run(file, env, pages).videos|
  {
    CategoryStatsSpec(Run(file, env, pages).videos);
  }
}
