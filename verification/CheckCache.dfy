/** Checking a group of modules with a cache of check hashes, and reporting the
    diagnostics of all groups without repeats. The compiler is a function of the
    request: each request carries the response it would get. */
module CheckCache {
  import opened Basics
  import opened AmbientModules
  import opened Text

  datatype Mode = CheckAll | CheckLocal | CheckNone

  /** `key` is the text that identifies a positioned diagnostic across groups. */
  datatype Diagnostic = Diagnostic(
    missingSpecifier: Option<string>,
    key: Option<string>,
    isRemote: bool,
    includeWhenRemote: bool)

  datatype Response = Response(diagnostics: seq<Diagnostic>, ambientModules: seq<string>) | CompilerError

  datatype Request = Request(
    mode: Mode,
    reload: bool,
    hasRoots: bool,
    missing: seq<Diagnostic>,
    hash: Option<nat>,
    response: Response)

  datatype Outcome = Checked(diagnostics: seq<Diagnostic>) | Errored

  predicate ShouldInclude(mode: Mode, d: Diagnostic) {
    d.isRemote ==> mode == CheckAll && d.includeWhenRemote
  }

  function Included(mode: Mode, ds: seq<Diagnostic>): seq<Diagnostic> {
    if ds == [] then [] else (if ShouldInclude(mode, ds[0]) then [ds[0]] else []) + Included(mode, ds[1..])
  }

  /** A missing module that the program declares as ambient is no error. */
  predicate Waived(ambient: seq<string>, d: Diagnostic) {
    ambient != [] && d.missingSpecifier.Some? && RegexMatches(RegexOf(ambient), d.missingSpecifier.value)
  }

  function Unwaived(ambient: seq<string>, ds: seq<Diagnostic>): seq<Diagnostic> {
    if ds == [] then [] else (if Waived(ambient, ds[0]) then [] else [ds[0]]) + Unwaived(ambient, ds[1..])
  }

  /** A missing diagnostic is dropped exactly when an ambient name matches it. */
  lemma WaivedByName(ambient: seq<string>, d: Diagnostic)
    requires d.missingSpecifier.Some? && '\n' !in d.missingSpecifier.value
    ensures Waived(ambient, d) <==>
            exists i :: 0 <= i < |ambient| && WildcardMatches(TrimMatches(ambient[i], '"'), d.missingSpecifier.value)
  {
    if ambient != [] {
      RegexMeansNames(ambient, d.missingSpecifier.value);
    }
  }

  /** The outcome of a check that never consults the cache. */
  function Fresh(r: Request): Outcome {
    var missing := Included(r.mode, r.missing);
    if !r.hasRoots then Checked(missing)
    else if r.response.CompilerError? then Errored
    else Checked(Unwaived(r.response.ambientModules, missing) + Included(r.mode, r.response.diagnostics))
  }

  /** Whether a request may be answered from the cache, and whether checking it
      records its hash. */
  predicate Consults(r: Request) {
    r.hasRoots && !r.reload && r.hash.Some? && Included(r.mode, r.missing) == []
  }

  predicate Records(r: Request) {
    r.hasRoots && r.hash.Some? && Fresh(r) == Checked([])
  }

  /** The compiler itself finds nothing to report. */
  predicate Clean(r: Request) {
    r.response.Response? && Included(r.mode, r.response.diagnostics) == []
  }

  predicate Skips(cache: set<nat>, r: Request) {
    Consults(r) && r.hash.value in cache
  }

  function Answer(cache: set<nat>, r: Request): Outcome {
    if Skips(cache, r) then Checked([]) else Fresh(r)
  }

  function CacheAfter(cache: set<nat>, r: Request): set<nat> {
    if !Skips(cache, r) && Records(r) then cache + {r.hash.value} else cache
  }

  // ---------------------------------------------------------------------------
  // What a check answers, in terms of the request
  // ---------------------------------------------------------------------------

  /** A diagnostic of a remote module counts only when everything is checked and the
      diagnostic asks for it. */
  ghost predicate Counts(r: Request, d: Diagnostic) {
    !d.isRemote || (r.mode == CheckAll && d.includeWhenRemote)
  }

  /** One of the ambient names matches the specifier that is missing. */
  ghost predicate DeclaredAmbient(names: seq<string>, d: Diagnostic) {
    && d.missingSpecifier.Some?
    && exists i :: 0 <= i < |names| && WildcardMatchesInLine(TrimMatches(names[i], '"'), d.missingSpecifier.value)
  }

  /** A missing diagnostic that counts and is not excused by an ambient name. */
  ghost predicate StaysMissing(r: Request, d: Diagnostic)
    requires r.response.Response?
  {
    Counts(r, d) && !DeclaredAmbient(r.response.ambientModules, d)
  }

  /** The cache may answer: there are roots, no reload is asked for, the hash is known,
      and no missing diagnostic counts. */
  ghost predicate AnsweredByCache(cache: set<nat>, r: Request) {
    && r.hasRoots && !r.reload && r.hash.Some? && r.hash.value in cache
    && (forall d :: d in r.missing ==> !Counts(r, d))
  }

  /** `ds` are the missing diagnostics that stay missing, each as often as it was
      found, and then likewise those of the compiler that count. */
  ghost predicate ReportsBoth(r: Request, ds: seq<Diagnostic>)
    requires r.response.Response?
  {
    exists k: nat :: k <= |ds| && AreMissing(r, ds[..k]) && AreFound(r, ds[k..])
  }

  ghost predicate AreMissing(r: Request, ds: seq<Diagnostic>)
    requires r.response.Response?
  {
    forall d :: multiset(ds)[d] == if StaysMissing(r, d) then multiset(r.missing)[d] else 0
  }

  ghost predicate AreFound(r: Request, ds: seq<Diagnostic>)
    requires r.response.Response?
  {
    forall d :: multiset(ds)[d] == if Counts(r, d) then multiset(r.response.diagnostics)[d] else 0
  }

  /** There is nothing of either kind to report. */
  ghost predicate NothingToReport(r: Request)
    requires r.response.Response?
  {
    && (forall d :: d in r.missing ==> !StaysMissing(r, d))
    && (forall d :: d in r.response.diagnostics ==> !Counts(r, d))
  }

  lemma {:induction false} IncludedCounts(r: Request, ds: seq<Diagnostic>, d: Diagnostic)
    ensures multiset(Included(r.mode, ds))[d] == if Counts(r, d) then multiset(ds)[d] else 0
    decreases |ds|
  {
    if ds != [] {
      assert ds == [ds[0]] + ds[1..];
      IncludedCounts(r, ds[1..], d);
    }
  }

  lemma {:induction false} UnwaivedCounts(names: seq<string>, ds: seq<Diagnostic>, d: Diagnostic)
    ensures multiset(Unwaived(names, ds))[d] == if DeclaredAmbient(names, d) then 0 else multiset(ds)[d]
    decreases |ds|
  {
    if ds != [] {
      assert ds == [ds[0]] + ds[1..];
      UnwaivedCounts(names, ds[1..], d);
      WaivedIfDeclared(names, ds[0]);
    }
  }

  lemma WaivedIfDeclared(names: seq<string>, d: Diagnostic)
    ensures Waived(names, d) <==> DeclaredAmbient(names, d)
  {
    if names != [] && d.missingSpecifier.Some? {
      RegexMeansNamesInLine(names, d.missingSpecifier.value);
    }
  }

  lemma NoneIncluded(r: Request, ds: seq<Diagnostic>)
    ensures Included(r.mode, ds) == [] <==> forall d :: d in ds ==> !Counts(r, d)
  {
    var kept := Included(r.mode, ds);
    if kept != [] {
      IncludedCounts(r, ds, kept[0]);
      assert multiset(kept)[kept[0]] > 0;
      assert kept[0] in ds && Counts(r, kept[0]);
    } else {
      forall d | d in ds ensures !Counts(r, d) {
        IncludedCounts(r, ds, d);
        assert multiset(ds)[d] > 0;
      }
    }
  }

  lemma IncludedCons(mode: Mode, d: Diagnostic, ds: seq<Diagnostic>)
    ensures Included(mode, [d] + ds) == Included(mode, [d]) + Included(mode, ds)
  {
    assert ([d] + ds)[1..] == ds && [d][1..] == [];
  }

  /** Filtering keeps the order. */
  lemma {:induction false} IncludedInOrder(mode: Mode, a: seq<Diagnostic>, b: seq<Diagnostic>)
    ensures Included(mode, a + b) == Included(mode, a) + Included(mode, b)
    decreases |a|
  {
    if a == [] {
      assert a + b == b;
    } else {
      assert (a + b)[0] == a[0] && (a + b)[1..] == a[1..] + b;
      IncludedInOrder(mode, a[1..], b);
      Regroup(Included(mode, [a[0]]), Included(mode, a[1..]), Included(mode, b));
      IncludedCons(mode, a[0], a[1..]);
      IncludedCons(mode, a[0], a[1..] + b);
      assert [a[0]] + a[1..] == a && [a[0]] + (a[1..] + b) == a + b;
    }
  }

  lemma UnwaivedCons(names: seq<string>, d: Diagnostic, ds: seq<Diagnostic>)
    ensures Unwaived(names, [d] + ds) == Unwaived(names, [d]) + Unwaived(names, ds)
  {
    assert ([d] + ds)[1..] == ds && [d][1..] == [];
  }

  lemma {:induction false} UnwaivedInOrder(names: seq<string>, a: seq<Diagnostic>, b: seq<Diagnostic>)
    ensures Unwaived(names, a + b) == Unwaived(names, a) + Unwaived(names, b)
    decreases |a|
  {
    if a == [] {
      assert a + b == b;
    } else {
      assert (a + b)[0] == a[0] && (a + b)[1..] == a[1..] + b;
      UnwaivedInOrder(names, a[1..], b);
      Regroup(Unwaived(names, [a[0]]), Unwaived(names, a[1..]), Unwaived(names, b));
      UnwaivedCons(names, a[0], a[1..]);
      UnwaivedCons(names, a[0], a[1..] + b);
      assert [a[0]] + a[1..] == a && [a[0]] + (a[1..] + b) == a + b;
    }
  }

  /** What remains of the missing diagnostics when a check is made. */
  lemma MissingCounts(r: Request, d: Diagnostic)
    requires r.response.Response?
    ensures multiset(Unwaived(r.response.ambientModules, Included(r.mode, r.missing)))[d] ==
            if StaysMissing(r, d) then multiset(r.missing)[d] else 0
  {
    IncludedCounts(r, r.missing, d);
    UnwaivedCounts(r.response.ambientModules, Included(r.mode, r.missing), d);
  }

  lemma CheckReportsBoth(r: Request)
    requires r.hasRoots && r.response.Response?
    ensures Fresh(r).Checked? && ReportsBoth(r, Fresh(r).diagnostics)
  {
    var missing := Unwaived(r.response.ambientModules, Included(r.mode, r.missing));
    var found := Included(r.mode, r.response.diagnostics);
    var ds, k := missing + found, |missing|;
    assert ds[..k] == missing && ds[k..] == found;
    forall d ensures multiset(missing)[d] == if StaysMissing(r, d) then multiset(r.missing)[d] else 0 {
      MissingCounts(r, d);
    }
    forall d ensures multiset(found)[d] == if Counts(r, d) then multiset(r.response.diagnostics)[d] else 0 {
      IncludedCounts(r, r.response.diagnostics, d);
    }
    assert AreMissing(r, missing) && AreFound(r, found);
  }

  lemma EmptyMeansNothing(r: Request, ds: seq<Diagnostic>)
    requires r.response.Response? && ReportsBoth(r, ds)
    ensures ds == [] <==> NothingToReport(r)
  {
    var k: nat :| k <= |ds| && AreMissing(r, ds[..k]) && AreFound(r, ds[k..]);
    NoMissing(r, ds[..k]);
    NoneFound(r, ds[k..]);
    assert ds == [] <==> ds[..k] == [] && ds[k..] == [];
  }

  lemma NoMissing(r: Request, ds: seq<Diagnostic>)
    requires r.response.Response? && AreMissing(r, ds)
    ensures ds == [] <==> forall d :: d in r.missing ==> !StaysMissing(r, d)
  {
    if ds != [] {
      assert multiset(ds)[ds[0]] > 0;
      assert ds[0] in r.missing && StaysMissing(r, ds[0]);
    } else {
      forall d | d in r.missing ensures !StaysMissing(r, d) {
        assert multiset(r.missing)[d] > 0 && multiset(ds)[d] == 0;
      }
    }
  }

  lemma NoneFound(r: Request, ds: seq<Diagnostic>)
    requires r.response.Response? && AreFound(r, ds)
    ensures ds == [] <==> forall d :: d in r.response.diagnostics ==> !Counts(r, d)
  {
    if ds != [] {
      assert multiset(ds)[ds[0]] > 0;
      assert ds[0] in r.response.diagnostics && Counts(r, ds[0]);
    } else {
      forall d | d in r.response.diagnostics ensures !Counts(r, d) {
        assert multiset(r.response.diagnostics)[d] > 0 && multiset(ds)[d] == 0;
      }
    }
  }

  /** What comes of a request: the cache's answer, the missing diagnostics alone, an
      error, or both kinds of diagnostics; and the cache afterwards, which gains the
      hash exactly when a check finds nothing of either kind to report. */
  ghost predicate Answers(cache: set<nat>, r: Request, outcome: Outcome, after: set<nat>) {
    if !r.hasRoots then
      && outcome.Checked? && after == cache
      && forall d :: multiset(outcome.diagnostics)[d] == if Counts(r, d) then multiset(r.missing)[d] else 0
    else if AnsweredByCache(cache, r) then
      outcome == Checked([]) && after == cache
    else if r.response.CompilerError? then
      outcome == Errored && after == cache
    else
      && outcome.Checked? && ReportsBoth(r, outcome.diagnostics)
      && after == if r.hash.Some? && NothingToReport(r) then cache + {r.hash.value} else cache
  }

  lemma AnswerMeaning(cache: set<nat>, r: Request)
    ensures Answers(cache, r, Answer(cache, r), CacheAfter(cache, r))
  {
    NoneIncluded(r, r.missing);
    if !r.hasRoots {
      forall d ensures multiset(Included(r.mode, r.missing))[d] == if Counts(r, d) then multiset(r.missing)[d] else 0 {
        IncludedCounts(r, r.missing, d);
      }
    } else if r.response.Response? {
      CheckReportsBoth(r);
      EmptyMeansNothing(r, Fresh(r).diagnostics);
    }
  }

  class TypeChecker {
    var cache: set<nat>
    var seenDiagnostics: set<string>

    constructor (cache: set<nat>)
      ensures this.cache == cache && seenDiagnostics == {}
    {
      this.cache, seenDiagnostics := cache, {};
    }

    method CheckFolder(r: Request) returns (outcome: Outcome)
      modifies this`cache
      ensures outcome == Answer(old(cache), r)
      ensures cache == CacheAfter(old(cache), r)
      ensures Answers(old(cache), r, outcome, cache)
    {
      AnswerMeaning(cache, r);
      var missing := Included(r.mode, r.missing);
      if !r.hasRoots {
        return Checked(missing);
      }
      if !r.reload && missing == [] {
        if r.hash.Some? && r.hash.value in cache {
          return Checked([]);
        }
      }
      if r.response.CompilerError? {
        return Errored;
      }
      var diagnostics := Unwaived(r.response.ambientModules, missing);
      diagnostics := diagnostics + Included(r.mode, r.response.diagnostics);
      if diagnostics == [] && r.hash.Some? {
        cache := cache + {r.hash.value};
      }
      outcome := Checked(diagnostics);
    }

    /** The next group: checked, then stripped of diagnostics already shown. */
    method Next(r: Request) returns (outcome: Outcome)
      modifies this
      ensures cache == CacheAfter(old(cache), r)
      ensures match Answer(old(cache), r)
              case Errored => outcome == Errored && seenDiagnostics == old(seenDiagnostics)
              case Checked(ds) =>
                outcome == Checked(Shown(old(seenDiagnostics), ds)) && seenDiagnostics == SeenAfter(old(seenDiagnostics), ds)
    {
      outcome := CheckFolder(r);
      if outcome.Errored? {
        return;
      }
      var kept := Retain(outcome.diagnostics);
      outcome := Checked(kept);
    }

    /** Keeps the diagnostics whose key is new, and remembers their keys. */
    method Retain(ds: seq<Diagnostic>) returns (kept: seq<Diagnostic>)
      modifies this`seenDiagnostics
      ensures kept == Shown(old(seenDiagnostics), ds)
      ensures seenDiagnostics == SeenAfter(old(seenDiagnostics), ds)
    {
      kept := [];
      for i := 0 to |ds|
        invariant kept + Shown(seenDiagnostics, ds[i..]) == Shown(old(seenDiagnostics), ds)
        invariant SeenAfter(seenDiagnostics, ds[i..]) == SeenAfter(old(seenDiagnostics), ds)
      {
        var d := ds[i];
        assert ds[i..][0] == d && ds[i..][1..] == ds[i + 1..];
        if d.key.None? || d.key.value !in seenDiagnostics {
          kept := kept + [d];
        }
        if d.key.Some? {
          seenDiagnostics := seenDiagnostics + {d.key.value};
        }
      }
    }
  }

  // ---------------------------------------------------------------------------
  // Runs of checks against one cache
  // ---------------------------------------------------------------------------

  /** The cache after the requests, starting from an empty one. */
  function CacheAfterAll(rs: seq<Request>): set<nat> {
    if rs == [] then {} else CacheAfter(CacheAfterAll(rs[..|rs| - 1]), rs[|rs| - 1])
  }

  /** An earlier request of the run recorded this hash. */
  ghost predicate Recorded(rs: seq<Request>, hash: nat) {
    exists i :: 0 <= i < |rs| && Records(rs[i]) && rs[i].hash.value == hash
  }

  /** Whatever was skipped, the cache holds exactly the hashes of the requests whose
      own full check comes out clean. */
  lemma {:induction false} CacheHoldsRecorded(rs: seq<Request>)
    ensures forall h :: h in CacheAfterAll(rs) <==> Recorded(rs, h)
  {
    if rs != [] {
      var before, r := rs[..|rs| - 1], rs[|rs| - 1];
      CacheHoldsRecorded(before);
      forall h ensures h in CacheAfterAll(rs) <==> Recorded(rs, h) {
        if Recorded(before, h) {
          var i :| 0 <= i < |before| && Records(before[i]) && before[i].hash.value == h;
          assert rs[i] == before[i];
        }
        if Recorded(rs, h) {
          var i :| 0 <= i < |rs| && Records(rs[i]) && rs[i].hash.value == h;
          assert i < |before| ==> before[i] == rs[i];
        }
      }
    }
  }

  /** Every answer of the run, given the cache at that point, is the fresh one. */
  ghost predicate CacheIsInvisible(rs: seq<Request>) {
    forall j :: 0 <= j < |rs| ==> Answer(CacheAfterAll(rs[..j]), rs[j]) == Fresh(rs[j])
  }

  /** No request that may be skipped shares its hash with an earlier recorded one
      unless the compiler has nothing to report on it either. */
  ghost predicate Consistent(rs: seq<Request>) {
    forall i, j :: 0 <= i < j < |rs| && Records(rs[i]) && Consults(rs[j]) && rs[i].hash == rs[j].hash ==> Clean(rs[j])
  }

  lemma SkipAgreesIffClean(r: Request)
    requires Consults(r)
    ensures Fresh(r) == Checked([]) <==> Clean(r)
  {
    assert r.response.Response? ==> Unwaived(r.response.ambientModules, []) == [];
  }

  /** The cache never changes an answer exactly when no hash is shared by a clean
      request and an unclean one that may be skipped. */
  lemma InvisibleIffConsistent(rs: seq<Request>)
    ensures CacheIsInvisible(rs) <==> Consistent(rs)
  {
    forall j | 0 <= j < |rs|
      ensures Answer(CacheAfterAll(rs[..j]), rs[j]) == Fresh(rs[j]) <==>
              (Consults(rs[j]) && Recorded(rs[..j], rs[j].hash.value) ==> Clean(rs[j]))
    {
      CacheHoldsRecorded(rs[..j]);
      if Consults(rs[j]) {
        SkipAgreesIffClean(rs[j]);
      }
    }
    if Consistent(rs) {
      forall j | 0 <= j < |rs| && Consults(rs[j]) && Recorded(rs[..j], rs[j].hash.value) ensures Clean(rs[j]) {
        var i :| 0 <= i < j && Records(rs[..j][i]) && rs[..j][i].hash.value == rs[j].hash.value;
        assert rs[..j][i] == rs[i];
      }
    }
    if CacheIsInvisible(rs) {
      forall i, j | 0 <= i < j < |rs| && Records(rs[i]) && Consults(rs[j]) && rs[i].hash == rs[j].hash
        ensures Clean(rs[j])
      {
        assert rs[..j][i] == rs[i];
        assert Recorded(rs[..j], rs[j].hash.value);
      }
    }
  }

  /** Of two requests with one hash, either both check clean or neither does. */
  ghost predicate HashDetermines(rs: seq<Request>) {
    forall i, j :: 0 <= i < |rs| && 0 <= j < |rs| && rs[i].hash.Some? && rs[i].hash == rs[j].hash ==>
      (Clean(rs[i]) <==> Clean(rs[j]))
  }

  /** So if the hash determines whether a request checks clean, skipping on a cached hash
      gives every answer of a fresh check, even for hashes recorded while missing
      modules were waived. */
  lemma CacheAgreesWithChecking(rs: seq<Request>)
    requires HashDetermines(rs)
    ensures CacheIsInvisible(rs)
  {
    forall i, j | 0 <= i < j < |rs| && Records(rs[i]) && Consults(rs[j]) && rs[i].hash == rs[j].hash
      ensures Clean(rs[j])
    {
      assert Clean(rs[i]);
    }
    InvisibleIffConsistent(rs);
  }

  // ---------------------------------------------------------------------------
  // Reporting without repeats
  // ---------------------------------------------------------------------------

  predicate IsNew(seen: set<string>, d: Diagnostic) {
    d.key.None? || d.key.value !in seen
  }

  function SeeOne(seen: set<string>, d: Diagnostic): set<string> {
    if d.key.Some? then seen + {d.key.value} else seen
  }

  function Shown(seen: set<string>, ds: seq<Diagnostic>): seq<Diagnostic>
    decreases |ds|
  {
    if ds == [] then [] else
    (if IsNew(seen, ds[0]) then [ds[0]] else []) + Shown(SeeOne(seen, ds[0]), ds[1..])
  }

  function SeenAfter(seen: set<string>, ds: seq<Diagnostic>): set<string>
    decreases |ds|
  {
    if ds == [] then seen else SeenAfter(SeeOne(seen, ds[0]), ds[1..])
  }

  /** What is shown group by group. */
  function ShownByGroup(seen: set<string>, groups: seq<seq<Diagnostic>>): seq<Diagnostic>
    decreases |groups|
  {
    if groups == [] then [] else Shown(seen, groups[0]) + ShownByGroup(SeenAfter(seen, groups[0]), groups[1..])
  }

  function Flatten(groups: seq<seq<Diagnostic>>): seq<Diagnostic> {
    if groups == [] then [] else groups[0] + Flatten(groups[1..])
  }

  lemma {:induction false} ShownConcat(seen: set<string>, a: seq<Diagnostic>, b: seq<Diagnostic>)
    ensures Shown(seen, a + b) == Shown(seen, a) + Shown(SeenAfter(seen, a), b)
    decreases |a|
  {
    if a == [] {
      assert a + b == b;
    } else {
      assert (a + b)[1..] == a[1..] + b;
      ShownConcat(SeeOne(seen, a[0]), a[1..], b);
    }
  }

  /** Where the diagnostics are cut into groups makes no difference. */
  lemma {:induction false} GroupingIsIrrelevant(seen: set<string>, groups: seq<seq<Diagnostic>>)
    ensures ShownByGroup(seen, groups) == Shown(seen, Flatten(groups))
    decreases |groups|
  {
    if groups != [] {
      GroupingIsIrrelevant(SeenAfter(seen, groups[0]), groups[1..]);
      ShownConcat(seen, groups[0], Flatten(groups[1..]));
    }
  }

  lemma {:induction false} ShownAreNew(seen: set<string>, ds: seq<Diagnostic>)
    ensures forall d :: d in Shown(seen, ds) ==> d in ds && IsNew(seen, d)
    decreases |ds|
  {
    if ds != [] {
      ShownAreNew(SeeOne(seen, ds[0]), ds[1..]);
    }
  }

  /** No two diagnostics of the list share a key. */
  ghost predicate DistinctKeys(ds: seq<Diagnostic>) {
    forall i, j :: 0 <= i < j < |ds| && ds[i].key.Some? ==> ds[i].key != ds[j].key
  }

  lemma {:induction false} ShownHaveDistinctKeys(seen: set<string>, ds: seq<Diagnostic>)
    ensures DistinctKeys(Shown(seen, ds))
    decreases |ds|
  {
    if ds != [] {
      var tail := Shown(SeeOne(seen, ds[0]), ds[1..]);
      ShownHaveDistinctKeys(SeeOne(seen, ds[0]), ds[1..]);
      ShownAreNew(SeeOne(seen, ds[0]), ds[1..]);
      assert forall j :: 0 <= j < |tail| ==> tail[j] in tail;
    }
  }

  lemma {:induction false} NewIsShown(seen: set<string>, ds: seq<Diagnostic>, d: Diagnostic)
    requires d in ds && IsNew(seen, d)
    ensures exists e :: e in Shown(seen, ds) && e.key == d.key
    decreases |ds|
  {
    var seen' := SeeOne(seen, ds[0]);
    if d.key == ds[0].key {
      assert ds[0] in Shown(seen, ds);
    } else {
      NewIsShown(seen', ds[1..], d);
      var e :| e in Shown(seen', ds[1..]) && e.key == d.key;
      assert e in Shown(seen, ds);
    }
  }

  lemma {:induction false} SeenAfterHolds(seen: set<string>, ds: seq<Diagnostic>, key: string)
    ensures key in SeenAfter(seen, ds) <==> key in seen || exists i :: 0 <= i < |ds| && ds[i].key == Some(key)
    decreases |ds|
  {
    if ds != [] {
      SeenAfterHolds(SeeOne(seen, ds[0]), ds[1..], key);
      if i :| 0 <= i < |ds| && ds[i].key == Some(key) {
        assert i > 0 ==> ds[1..][i - 1] == ds[i];
      }
    }
  }

  /** The diagnostics without a key, and of each key the first, in their order. */
  function Firsts(ds: seq<Diagnostic>): seq<Diagnostic> {
    if ds == [] then [] else
    var before, d := ds[..|ds| - 1], ds[|ds| - 1];
    Firsts(before) + if d.key.None? || (forall i :: 0 <= i < |before| ==> before[i].key != d.key) then [d] else []
  }

  lemma {:induction false} ShownAreFirsts(ds: seq<Diagnostic>)
    ensures Shown({}, ds) == Firsts(ds)
    decreases |ds|
  {
    if ds != [] {
      var before, d := ds[..|ds| - 1], ds[|ds| - 1];
      assert ds == before + [d];
      ShownAreFirsts(before);
      ShownConcat({}, before, [d]);
      assert [d][1..] == [];
      if d.key.Some? {
        SeenAfterHolds({}, before, d.key.value);
      }
    }
  }

  lemma {:induction false} KeylessAreShown(ds: seq<Diagnostic>, d: Diagnostic)
    requires d.key.None?
    ensures multiset(Firsts(ds))[d] == multiset(ds)[d]
    decreases |ds|
  {
    if ds != [] {
      assert ds == ds[..|ds| - 1] + [ds[|ds| - 1]];
      KeylessAreShown(ds[..|ds| - 1], d);
    }
  }

  lemma {:induction false} FirstIsShown(ds: seq<Diagnostic>, i: nat)
    requires i < |ds| && (forall j :: 0 <= j < i ==> ds[j].key != ds[i].key)
    ensures ds[i] in Firsts(ds)
    decreases |ds|
  {
    if i < |ds| - 1 {
      FirstIsShown(ds[..|ds| - 1], i);
    }
  }

  /** One diagnostic of each key of `all` is shown. */
  lemma EveryKeyIsShown(all: seq<Diagnostic>)
    ensures forall d :: d in all ==> exists e :: e in Shown({}, all) && e.key == d.key
    ensures Shown({}, all) == [] <==> all == []
  {
    forall d | d in all ensures exists e :: e in Shown({}, all) && e.key == d.key {
      NewIsShown({}, all, d);
    }
    if all != [] {
      assert all[0] in all;
    }
  }

  /** The diagnostics shown are exactly those without a key and, of each key, the
      first one, in their order. */
  ghost predicate ShowsFirsts(shown: seq<Diagnostic>, all: seq<Diagnostic>) {
    && shown == Firsts(all)
    && (forall d: Diagnostic :: d.key.None? ==> multiset(shown)[d] == multiset(all)[d])
    && (forall i :: 0 <= i < |all| && (forall j :: 0 <= j < i ==> all[j].key != all[i].key) ==> all[i] in shown)
  }

  lemma FirstsAreShown(all: seq<Diagnostic>)
    ensures ShowsFirsts(Firsts(all), all)
  {
    forall d: Diagnostic | d.key.None? ensures multiset(Firsts(all))[d] == multiset(all)[d] {
      KeylessAreShown(all, d);
    }
    forall i | 0 <= i < |all| && (forall j :: 0 <= j < i ==> all[j].key != all[i].key) ensures all[i] in Firsts(all) {
      FirstIsShown(all, i);
    }
  }

  /** Over all groups no key is shown twice and no error disappears: one without a
      key is shown as often as it occurs, and one with a key is shown or the first
      with its key is. */
  lemma ReportIsFaithful(groups: seq<seq<Diagnostic>>)
    ensures var shown, all := ShownByGroup({}, groups), Flatten(groups);
            && DistinctKeys(shown)
            && (forall d :: d in shown ==> d in all)
            && (forall d :: d in all ==> exists e :: e in shown && e.key == d.key)
            && ShowsFirsts(shown, all)
            && (shown == [] <==> all == [])
  {
    var all := Flatten(groups);
    GroupingIsIrrelevant({}, groups);
    ShownAreNew({}, all);
    ShownHaveDistinctKeys({}, all);
    ShownAreFirsts(all);
    FirstsAreShown(all);
    EveryKeyIsShown(all);
  }
}
