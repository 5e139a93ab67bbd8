/** The request log: a bounded window of entries beside unbounded counters. */
module RequestLogging {

  datatype Log = Log(method_: string, path: string, statusCode: int, responseTime: real)

  // ---------------------------------------------------------------------------
  // What the logger should hold, as functions of the entries since the last clear
  // ---------------------------------------------------------------------------

  /** The last `n` entries; all of them when there are fewer, none when `n` is negative. */
  function LastN(history: seq<Log>, n: int): seq<Log> {
    if n <= 0 then [] else if |history| <= n then history else history[|history| - n..]
  }

  predicate Succeeded(log: Log) {
    200 <= log.statusCode < 400
  }

  function Outcomes(history: seq<Log>): (r: seq<bool>)
    ensures |r| == |history| && forall i :: 0 <= i < |r| ==> r[i] == Succeeded(history[i])
  {
    if history == [] then [] else Outcomes(history[..|history| - 1]) + [Succeeded(history[|history| - 1])]
  }

  function TotalTime(history: seq<Log>): real {
    if history == [] then 0.0 else TotalTime(history[..|history| - 1]) + history[|history| - 1].responseTime
  }

  /** `d` counts how often each key occurs, and holds no other key. */
  ghost predicate Tallies<K(!new)>(d: map<K, nat>, keys: seq<K>) {
    && (forall k :: k in d <==> k in keys)
    && (forall k :: k in d ==> d[k] == multiset(keys)[k])
  }

  function Methods(history: seq<Log>): (r: seq<string>)
    ensures |r| == |history| && forall i :: 0 <= i < |r| ==> r[i] == history[i].method_
  {
    if history == [] then [] else Methods(history[..|history| - 1]) + [history[|history| - 1].method_]
  }

  function Paths(history: seq<Log>): (r: seq<string>)
    ensures |r| == |history| && forall i :: 0 <= i < |r| ==> r[i] == history[i].path
  {
    if history == [] then [] else Paths(history[..|history| - 1]) + [history[|history| - 1].path]
  }

  /** Distributions are keyed by the decimal text of the status; keying by the
      number is the same up to that one-to-one renaming. */
  function Statuses(history: seq<Log>): (r: seq<int>)
    ensures |r| == |history| && forall i :: 0 <= i < |r| ==> r[i] == history[i].statusCode
  {
    if history == [] then [] else Statuses(history[..|history| - 1]) + [history[|history| - 1].statusCode]
  }

  function Bump<K>(d: map<K, nat>, k: K): map<K, nat> {
    d[k := (if k in d then d[k] else 0) + 1]
  }

  lemma BumpTallies<K(!new)>(d: map<K, nat>, keys: seq<K>, k: K)
    requires Tallies(d, keys)
    ensures Tallies(Bump(d, k), keys + [k])
  {
    assert k !in d ==> k !in multiset(keys);
  }

  // ---------------------------------------------------------------------------
  // The three distributions all add up to the number of entries
  // ---------------------------------------------------------------------------

  ghost function SumValues<K>(d: map<K, nat>): nat {
    if d == map[] then 0 else
    var k :| k in d;
    d[k] + SumValues(d - {k})
  }

  lemma {:induction false} SumValuesAt<K>(d: map<K, nat>, k: K)
    requires k in d
    ensures SumValues(d) == d[k] + SumValues(d - {k})
  {
    var first :| first in d && SumValues(d) == d[first] + SumValues(d - {first});
    if first != k {
      SumValuesAt(d - {first}, k);
      SumValuesAt(d - {k}, first);
      assert d - {first} - {k} == d - {k} - {first};
    }
  }

  lemma BumpSum<K>(d: map<K, nat>, k: K)
    ensures SumValues(Bump(d, k)) == SumValues(d) + 1
  {
    var d' := Bump(d, k);
    SumValuesAt(d', k);
    if k in d {
      SumValuesAt(d, k);
      assert d' - {k} == d - {k};
    } else {
      assert d' - {k} == d;
    }
  }

  function Tally<K(==)>(keys: seq<K>): map<K, nat> {
    if keys == [] then map[] else Bump(Tally(keys[..|keys| - 1]), keys[|keys| - 1])
  }

  lemma {:induction false} TallyTallies<K(!new)>(keys: seq<K>)
    ensures Tallies(Tally(keys), keys)
  {
    if keys != [] {
      var before := keys[..|keys| - 1];
      TallyTallies(before);
      BumpTallies(Tally(before), before, keys[|keys| - 1]);
      assert before + [keys[|keys| - 1]] == keys;
    }
  }

  lemma {:induction false} TallySum<K>(keys: seq<K>)
    ensures SumValues(Tally(keys)) == |keys|
  {
    if keys != [] {
      TallySum(keys[..|keys| - 1]);
      BumpSum(Tally(keys[..|keys| - 1]), keys[|keys| - 1]);
    }
  }

  lemma TallyExtend<K>(keys: seq<K>, k: K)
    ensures Tally(keys + [k]) == Bump(Tally(keys), k)
  {
    assert (keys + [k])[..|keys|] == keys;
  }

  // ---------------------------------------------------------------------------
  // The logger
  // ---------------------------------------------------------------------------

  datatype Stats = Stats(
    total: nat,
    successful: nat,
    failed: nat,
    totalTime: real,
    methods: map<string, nat>,
    statusCodes: map<int, nat>,
    endpoints: map<string, nat>)

  const NO_STATS := Stats(0, 0, 0, 0.0, map[], map[], map[])

  /** The statistics that describe a history. */
  ghost predicate Describes(stats: Stats, history: seq<Log>) {
    TotalsDescribe(stats, history) && TalliesDescribe(stats, history)
  }

  ghost predicate TotalsDescribe(stats: Stats, history: seq<Log>) {
    && stats.total == |history|
    && stats.successful == multiset(Outcomes(history))[true]
    && stats.failed == multiset(Outcomes(history))[false]
    && stats.totalTime == TotalTime(history)
  }

  ghost predicate TalliesDescribe(stats: Stats, history: seq<Log>) {
    && stats.methods == Tally(Methods(history))
    && stats.statusCodes == Tally(Statuses(history))
    && stats.endpoints == Tally(Paths(history))
  }

  lemma NoStatsDescribeNothing()
    ensures Describes(NO_STATS, [])
  {
  }

  function Recorded(stats: Stats, log: Log): Stats {
    Stats(
      stats.total + 1,
      stats.successful + if Succeeded(log) then 1 else 0,
      stats.failed + if Succeeded(log) then 0 else 1,
      stats.totalTime + log.responseTime,
      Bump(stats.methods, log.method_),
      Bump(stats.statusCodes, log.statusCode),
      Bump(stats.endpoints, log.path))
  }

  lemma DescribesExtended(stats: Stats, history: seq<Log>, log: Log)
    requires Describes(stats, history)
    ensures Describes(Recorded(stats, log), history + [log])
  {
    TotalsExtended(stats, history, log);
    TalliesExtended(stats, history, log);
  }

  lemma TotalsExtended(stats: Stats, history: seq<Log>, log: Log)
    requires TotalsDescribe(stats, history)
    ensures TotalsDescribe(Recorded(stats, log), history + [log])
  {
    var longer := history + [log];
    assert longer[..|history|] == history;
    assert Outcomes(longer) == Outcomes(history) + [Succeeded(log)];
  }

  lemma TalliesExtended(stats: Stats, history: seq<Log>, log: Log)
    requires TalliesDescribe(stats, history)
    ensures TalliesDescribe(Recorded(stats, log), history + [log])
  {
    var longer := history + [log];
    assert Methods(longer) == Methods(history) + [log.method_];
    assert Statuses(longer) == Statuses(history) + [log.statusCode];
    assert Paths(longer) == Paths(history) + [log.path];
    TallyExtend(Methods(history), log.method_);
    TallyExtend(Statuses(history), log.statusCode);
    TallyExtend(Paths(history), log.path);
  }

  /** The totals agree with each other and with every distribution, and each
      distribution counts exactly the values that occurred. */
  lemma Conservation(stats: Stats, history: seq<Log>)
    requires Describes(stats, history)
    ensures stats.total == stats.successful + stats.failed
    ensures stats.total == SumValues(stats.methods) == SumValues(stats.statusCodes) == SumValues(stats.endpoints)
    ensures Tallies(stats.methods, Methods(history))
    ensures Tallies(stats.statusCodes, Statuses(history))
    ensures Tallies(stats.endpoints, Paths(history))
  {
    SuccessesAndFailures(Outcomes(history));
    TallySum(Methods(history));
    TallySum(Statuses(history));
    TallySum(Paths(history));
    TallyTallies(Methods(history));
    TallyTallies(Statuses(history));
    TallyTallies(Paths(history));
  }

  /** The entries with a status from 200 to 399. */
  ghost function Successes(history: seq<Log>): set<nat> {
    set i: nat | i < |history| && 200 <= history[i].statusCode < 400
  }

  lemma {:induction false} OutcomesCountSuccesses(history: seq<Log>)
    ensures multiset(Outcomes(history))[true] == |Successes(history)|
    decreases |history|
  {
    if history != [] {
      var before, last := history[..|history| - 1], history[|history| - 1];
      assert history == before + [last];
      OutcomesCountSuccesses(before);
      OneMoreOutcome(before, last);
      OneMoreSuccess(before, last);
    }
  }

  lemma OneMoreOutcome(history: seq<Log>, log: Log)
    ensures multiset(Outcomes(history + [log]))[true] ==
            multiset(Outcomes(history))[true] + if 200 <= log.statusCode < 400 then 1 else 0
  {
    assert Outcomes(history + [log]) == Outcomes(history) + [Succeeded(log)];
  }

  lemma OneMoreSuccess(history: seq<Log>, log: Log)
    ensures |Successes(history + [log])| == |Successes(history)| + if 200 <= log.statusCode < 400 then 1 else 0
  {
    if 200 <= log.statusCode < 400 {
      assert Successes(history + [log]) == Successes(history) + {|history|};
    } else {
      assert Successes(history + [log]) == Successes(history);
    }
  }

  /** The successful requests are those with a status from 200 to 399, the failed ones
      all others. */
  lemma SuccessesByStatus(stats: Stats, history: seq<Log>)
    requires Describes(stats, history)
    ensures stats.successful == |Successes(history)| && stats.failed == |history| - |Successes(history)|
  {
    OutcomesCountSuccesses(history);
    SuccessesAndFailures(Outcomes(history));
  }

  lemma {:induction false} SuccessesAndFailures(outcomes: seq<bool>)
    ensures multiset(outcomes)[true] + multiset(outcomes)[false] == |outcomes|
  {
    if outcomes != [] {
      SuccessesAndFailures(outcomes[1..]);
      assert outcomes == [outcomes[0]] + outcomes[1..];
      assert outcomes[0] == true || outcomes[0] == false;
    }
  }

  lemma LastNExtended(history: seq<Log>, log: Log, n: int)
    ensures var window := LastN(history, n) + [log];
            LastN(history + [log], n) == if |window| > n then window[1..] else window
  {
  }

  class RequestLogger {
    const maxLogs: int
    var logs: seq<Log>
    var stats: Stats
    /** Everything logged since the last clear. */
    ghost var history: seq<Log>

    ghost predicate Valid()
      reads this
    {
      logs == LastN(history, maxLogs) && Describes(stats, history)
    }

    constructor (maxLogs: int)
      ensures Valid() && history == [] && this.maxLogs == maxLogs
    {
      NoStatsDescribeNothing();
      this.maxLogs := maxLogs;
      logs, stats, history := [], NO_STATS, [];
    }

    method AddLog(log: Log)
      requires Valid()
      modifies this
      ensures Valid() && history == old(history) + [log]
    {
      LastNExtended(history, log, maxLogs);
      logs := logs + [log];
      if |logs| > maxLogs {
        logs := logs[1..];
      }
      RecordStats(log);
      DescribesExtended(old(stats), history, log);
      history := history + [log];
    }

    /** The statistics part of adding an entry. */
    method RecordStats(log: Log)
      modifies this`stats
      ensures stats == Recorded(old(stats), log)
    {
      stats := stats.(total := stats.total + 1);
      if 200 <= log.statusCode < 400 {
        stats := stats.(successful := stats.successful + 1);
      } else {
        stats := stats.(failed := stats.failed + 1);
      }
      stats := stats.(totalTime := stats.totalTime + log.responseTime);
      stats := stats.(methods := Bump(stats.methods, log.method_));
      stats := stats.(statusCodes := Bump(stats.statusCodes, log.statusCode));
      stats := stats.(endpoints := Bump(stats.endpoints, log.path));
    }

    method ClearLogs()
      modifies this
      ensures Valid() && history == []
    {
      NoStatsDescribeNothing();
      logs, stats, history := [], NO_STATS, [];
    }

    /** Counting from the newest entry, the page runs from where `offset` points to
        where `offset + limit` points, newest first. */
    method GetLogs(limit: int, offset: int) returns (page: seq<Log>)
      ensures page == Page(logs, limit, offset)
      ensures offset >= 0 && limit >= 0 ==>
                && |page| == (if offset + limit <= |logs| then limit else if offset <= |logs| then |logs| - offset else 0)
                && forall i :: 0 <= i < |page| ==> page[i] == logs[|logs| - 1 - offset - i]
      ensures var first, end := Bound(offset, |logs|), Bound(offset + limit, |logs|);
              && PointsAt(offset, |logs|, first) && PointsAt(offset + limit, |logs|, end)
              && |page| == (if first <= end then end - first else 0)
              && forall i :: 0 <= i < |page| ==> page[i] == logs[|logs| - 1 - first - i]
    {
      page := Slice(Reversed(logs), offset, offset + limit);
    }
  }

  // ---------------------------------------------------------------------------
  // Paging
  // ---------------------------------------------------------------------------

  function Reversed(s: seq<Log>): (r: seq<Log>)
    ensures |r| == |s| && forall i :: 0 <= i < |s| ==> r[i] == s[|s| - 1 - i]
  {
    if s == [] then [] else Reversed(s[1..]) + [s[0]]
  }

  /** A Python slice bound: negative bounds count from the end, then clamp. */
  function Bound(i: int, n: nat): (b: nat)
    ensures b <= n
  {
    var j := if i < 0 then i + n else i;
    if j < 0 then 0 else if j > n then n else j
  }

  /** A bound within the list is a position, a negative one counts from the end, and
      one beyond either end is that end. */
  ghost predicate PointsAt(i: int, n: nat, position: nat) {
    && (0 <= i <= n ==> position == i)
    && (i > n ==> position == n)
    && (i < 0 <= n + i ==> position == n + i)
    && (n + i < 0 ==> position == 0)
  }

  function Slice(s: seq<Log>, lo: int, hi: int): seq<Log> {
    var a, b := Bound(lo, |s|), Bound(hi, |s|);
    if a <= b then s[a..b] else []
  }

  function Page(logs: seq<Log>, limit: int, offset: int): seq<Log> {
    Slice(Reversed(logs), offset, offset + limit)
  }

  /** The log endpoint caps the page size. */
  function EndpointPage(logs: seq<Log>, limit: int, offset: int): seq<Log> {
    Page(logs, if limit > 100 then 100 else limit, offset)
  }

  /** What a client reads that asks for pages from `offset` on, advancing by its own
      limit until it is past the last of `n` stored entries. */
  function ReadFrom(page: nat -> seq<Log>, n: nat, limit: nat, offset: nat): seq<Log>
    requires limit >= 1
    decreases n - offset
  {
    if offset >= n then [] else page(offset) + ReadFrom(page, n, limit, offset + limit)
  }

  function ReadPages(logs: seq<Log>, limit: nat): seq<Log>
    requires limit >= 1
  {
    ReadFrom((offset: nat) => EndpointPage(logs, limit, offset), |logs|, limit, 0)
  }

  /** A page of up to `size` entries of `all`. */
  ghost predicate IsPage(page: seq<Log>, all: seq<Log>, size: nat, offset: nat)
    requires offset <= |all|
  {
    page == all[offset..if offset + size < |all| then offset + size else |all|]
  }

  lemma EndpointPages(logs: seq<Log>, limit: nat, offset: nat)
    requires offset <= |logs|
    ensures IsPage(EndpointPage(logs, limit, offset), Reversed(logs), if limit > 100 then 100 else limit, offset)
  {
    SliceIsPage(Reversed(logs), if limit > 100 then 100 else limit, offset);
  }

  lemma SliceIsPage(all: seq<Log>, size: nat, offset: nat)
    requires offset <= |all|
    ensures IsPage(Slice(all, offset, offset + size), all, size, offset)
  {
  }

  /** Full pages add up to everything. */
  lemma {:induction false} FullPagesReadAll(page: nat -> seq<Log>, all: seq<Log>, limit: nat, offset: nat)
    requires limit >= 1 && offset <= |all|
    requires forall o: nat :: o <= |all| ==> IsPage(page(o), all, limit, o)
    ensures ReadFrom(page, |all|, limit, offset) == all[offset..]
    decreases |all| - offset
  {
    if offset < |all| {
      var next := offset + limit;
      assert IsPage(page(offset), all, limit, offset);
      if next < |all| {
        FullPagesReadAll(page, all, limit, next);
        assert all[offset..] == all[offset..next] + all[next..];
      } else {
        assert ReadFrom(page, |all|, limit, next) == [];
        assert all[offset..|all|] == all[offset..];
      }
    }
  }

  /** Pages that stay within the limit and the entries never add up to more. */
  lemma {:induction false} NoMoreThanStored(page: nat -> seq<Log>, n: nat, limit: nat, offset: nat)
    requires limit >= 1 && offset <= n
    requires forall o: nat :: o <= n ==> |page(o)| <= limit && o + |page(o)| <= n
    ensures |ReadFrom(page, n, limit, offset)| <= n - offset
    decreases n - offset
  {
    if offset + limit < n {
      NoMoreThanStored(page, n, limit, offset + limit);
    }
  }

  lemma CappedPagesMiss(page: nat -> seq<Log>, all: seq<Log>, limit: nat)
    requires |all| > 100 && limit > 100
    requires forall o: nat :: o <= |all| ==> IsPage(page(o), all, 100, o)
    ensures |ReadFrom(page, |all|, limit, 0)| < |all|
  {
    assert IsPage(page(0), all, 100, 0);
    forall o: nat | o <= |all| ensures |page(o)| <= limit && o + |page(o)| <= |all| {
      assert IsPage(page(o), all, 100, o);
    }
    if limit < |all| {
      NoMoreThanStored(page, |all|, limit, limit);
    } else {
      assert ReadFrom(page, |all|, limit, limit) == [];
    }
  }

  lemma OnePageReadsAll(page: nat -> seq<Log>, all: seq<Log>, limit: nat)
    requires |all| <= 100 < limit && IsPage(page(0), all, 100, 0)
    ensures ReadFrom(page, |all|, limit, 0) == all
  {
    assert ReadFrom(page, |all|, limit, limit) == [];
    assert all[0..|all|] == all;
  }

  /** Reading consecutive pages returns every stored entry once, newest first,
      exactly when the client's limit is within the endpoint's cap or one capped
      page already holds everything. */
  lemma PagesReadEverything(logs: seq<Log>, limit: nat)
    requires limit >= 1
    ensures ReadPages(logs, limit) == Reversed(logs) <==> limit <= 100 || |logs| <= 100
  {
    var all, size := Reversed(logs), if limit > 100 then 100 else limit;
    var page := (offset: nat) => EndpointPage(logs, limit, offset);
    forall o: nat | o <= |all| ensures IsPage(page(o), all, size, o) {
      EndpointPages(logs, limit, o);
    }
    if limit <= 100 {
      FullPagesReadAll(page, all, limit, 0);
      assert all[0..] == all;
    } else if |logs| <= 100 {
      OnePageReadsAll(page, all, limit);
    } else {
      CappedPagesMiss(page, all, limit);
    }
  }
}
