/** Duplicating a provider: a fresh key for the copy, and room for it right after
    the original in the sort order. */
module ProviderCopying {
  import opened Basics

  // ---------------------------------------------------------------------------
  // Keys
  // ---------------------------------------------------------------------------

  function Digit(d: nat): char
    requires d < 10
  {
    ('0' as int + d) as char
  }

  function Decimal(n: nat): string {
    if n < 10 then [Digit(n)] else Decimal(n / 10) + [Digit(n % 10)]
  }

  function ReadDecimal(s: string): int {
    if s == "" then 0 else 10 * ReadDecimal(s[..|s| - 1]) + (s[|s| - 1] as int - '0' as int)
  }

  lemma {:induction false} DecimalReadsBack(n: nat)
    ensures ReadDecimal(Decimal(n)) == n
  {
    var s := Decimal(n);
    if n < 10 {
      assert s[..0] == "";
    } else {
      DecimalReadsBack(n / 10);
      assert s[..|s| - 1] == Decimal(n / 10);
    }
  }

  /** Digits only, without leading zeros. */
  lemma {:induction false} DecimalIsPlain(n: nat)
    ensures forall i :: 0 <= i < |Decimal(n)| ==> '0' <= Decimal(n)[i] <= '9'
    ensures Decimal(n) != "" && (Decimal(n)[0] == '0' ==> n == 0 && Decimal(n) == "0")
  {
    if n >= 10 {
      DecimalIsPlain(n / 10);
    }
  }

  function Candidate(base: string, k: nat): string {
    base + "-" + Decimal(k)
  }

  lemma CandidatesDiffer(base: string, k: nat, m: nat)
    requires Candidate(base, k) == Candidate(base, m)
    ensures k == m
  {
    var c := Candidate(base, k);
    assert c[|base| + 1..] == Decimal(k) && Candidate(base, m)[|base| + 1..] == Decimal(m);
    DecimalReadsBack(k);
    DecimalReadsBack(m);
  }

  /** A list that holds `n` different candidates is at least that long. */
  lemma {:induction false} Pigeonhole(base: string, keys: seq<string>, n: nat)
    requires forall k :: 2 <= k < 2 + n ==> Candidate(base, k) in keys
    ensures n <= |keys|
    decreases n
  {
    if n > 0 {
      var last := Candidate(base, 1 + n);
      var p :| 0 <= p < |keys| && keys[p] == last;
      var rest := keys[..p] + keys[p + 1..];
      forall k | 2 <= k < 1 + n ensures Candidate(base, k) in rest {
        var i :| 0 <= i < |keys| && keys[i] == Candidate(base, k);
        if i == p {
          CandidatesDiffer(base, k, 1 + n);
        }
        assert rest[if i < p then i else i - 1] == keys[i];
      }
      Pigeonhole(base, rest, n - 1);
    }
  }

  /** The numbers from 2 up to, but not including, `k` are taken. */
  ghost predicate TakenBefore(base: string, existing: seq<string>, k: nat) {
    forall m: nat :: 2 <= m < k ==> base + "-" + Decimal(m) in existing
  }

  /** The search always ends, and returns the first unused of `base`, `base-2`,
      `base-3` and so on. */
  method GenerateUniqueCopyKey(original: string, existing: seq<string>) returns (key: string)
    ensures key !in existing
    ensures var base := original + "-copy";
            || (key == base && base !in existing)
            || (base in existing &&
                exists k: nat :: 2 <= k <= |existing| + 2 && TakenBefore(base, existing, k) && key == base + "-" + Decimal(k))
  {
    var base := original + "-copy";
    if base !in existing {
      return base;
    }
    var counter := 2;
    while base + "-" + Decimal(counter) in existing
      invariant 2 <= counter <= |existing| + 2
      invariant TakenBefore(base, existing, counter)
      decreases |existing| + 2 - counter
    {
      forall k | 2 <= k < 2 + (counter - 1) ensures Candidate(base, k) in existing {
        assert base + "-" + Decimal(k) in existing;
      }
      Pigeonhole(base, existing, counter - 1);
      counter := counter + 1;
    }
    key := base + "-" + Decimal(counter);
  }

  // ---------------------------------------------------------------------------
  // Sort order
  // ---------------------------------------------------------------------------

  datatype Provider = Provider(id: string, sortIndex: Option<int>)

  datatype Update = Update(id: string, sortIndex: int)

  predicate DistinctIds(ps: seq<Provider>) {
    forall i, j :: 0 <= i < j < |ps| ==> ps[i].id != ps[j].id
  }

  predicate NeedsShift(p: Provider, original: Provider) {
    && original.sortIndex.Some? && p.sortIndex.Some?
    && p.sortIndex.value >= original.sortIndex.value + 1 && p.id != original.id
  }

  /** The index updates sent before the copy is added. */
  function Updates(ps: seq<Provider>, original: Provider): seq<Update> {
    if ps == [] then [] else
    (if NeedsShift(ps[0], original) then [Update(ps[0].id, ps[0].sortIndex.value + 1)] else [])
    + Updates(ps[1..], original)
  }

  /** What the backend does with the updates: each sets the index of its provider. */
  function Updated(p: Provider, updates: seq<Update>): Provider
    decreases |updates|
  {
    if updates == [] then p
    else Updated(if p.id == updates[0].id then p.(sortIndex := Some(updates[0].sortIndex)) else p, updates[1..])
  }

  /** The copy's index. */
  function CopyIndex(original: Provider): Option<int> {
    if original.sortIndex.Some? then Some(original.sortIndex.value + 1) else None
  }

  lemma {:induction false} UntouchedByUpdates(ps: seq<Provider>, original: Provider, p: Provider)
    requires forall i :: 0 <= i < |ps| ==> ps[i].id != p.id
    ensures Updated(p, Updates(ps, original)) == p
    decreases |ps|
  {
    if ps != [] {
      UntouchedByUpdates(ps[1..], original, p);
      assert NeedsShift(ps[0], original) ==> Updates(ps, original)[1..] == Updates(ps[1..], original);
      assert !NeedsShift(ps[0], original) ==> Updates(ps, original) == Updates(ps[1..], original);
    }
  }

  /** Through the list of updates, every provider behind the copy's place moves up
      by one, and no other provider moves. */
  lemma {:induction false} UpdatesShift(ps: seq<Provider>, original: Provider, i: nat)
    requires DistinctIds(ps) && i < |ps|
    ensures Updated(ps[i], Updates(ps, original)) ==
            if NeedsShift(ps[i], original) then ps[i].(sortIndex := Some(ps[i].sortIndex.value + 1)) else ps[i]
    decreases |ps|
  {
    var p, rest, us := ps[0], ps[1..], Updates(ps, original);
    assert NeedsShift(p, original) ==> us[0].id == p.id && us[1..] == Updates(rest, original);
    assert !NeedsShift(p, original) ==> us == Updates(rest, original);
    if i == 0 {
      var moved := if NeedsShift(p, original) then p.(sortIndex := Some(p.sortIndex.value + 1)) else p;
      UntouchedByUpdates(rest, original, moved);
    } else {
      assert rest[i - 1] == ps[i] && p.id != ps[i].id;
      UpdatesShift(rest, original, i - 1);
    }
  }

  /** The list after a duplication; `indexed` says whether the backend accepted the
      index updates. On a refusal nothing is added. */
  function Duplicated(ps: seq<Provider>, original: Provider, copyId: string, indexed: bool): seq<Provider> {
    var updates := Updates(ps, original);
    if updates != [] && !indexed then ps
    else UpdatedAll(ps, updates) + [Provider(copyId, CopyIndex(original))]
  }

  function UpdatedAll(ps: seq<Provider>, updates: seq<Update>): (r: seq<Provider>)
    ensures |r| == |ps| && forall i :: 0 <= i < |ps| ==> r[i] == Updated(ps[i], updates)
  {
    if ps == [] then [] else [Updated(ps[0], updates)] + UpdatedAll(ps[1..], updates)
  }

  ghost predicate Before(p: Provider, q: Provider) {
    p.sortIndex.Some? && q.sortIndex.Some? && p.sortIndex.value < q.sortIndex.value
  }

  /** A provider other than the original that stands behind the original. */
  ghost predicate StandsBehind(p: Provider, original: Provider) {
    p.id != original.id && Before(original, p)
  }

  lemma {:induction false} NoUpdatesIffNoneBehind(ps: seq<Provider>, original: Provider)
    ensures Updates(ps, original) == [] <==> forall i :: 0 <= i < |ps| ==> !StandsBehind(ps[i], original)
    decreases |ps|
  {
    if ps != [] {
      NoUpdatesIffNoneBehind(ps[1..], original);
      assert NeedsShift(ps[0], original) <==> StandsBehind(ps[0], original);
      assert forall i :: 1 <= i < |ps| ==> ps[i] == ps[1..][i - 1];
      if Updates(ps, original) != [] && !StandsBehind(ps[0], original) {
        var i :| 0 <= i < |ps[1..]| && StandsBehind(ps[1..][i], original);
        assert ps[i + 1] == ps[1..][i];
      }
    }
  }

  /** When providers stand behind the original and the backend refuses to move them,
      nothing is added. Otherwise exactly one provider is added, last in the list, with
      the new id and the index right behind the original's, if that has one. */
  lemma CopyIsAdded(ps: seq<Provider>, original: Provider, copyId: string, indexed: bool)
    ensures var r := Duplicated(ps, original, copyId, indexed);
            if !indexed && (exists i :: 0 <= i < |ps| && StandsBehind(ps[i], original)) then r == ps else
            && |r| == |ps| + 1
            && r[|ps|] == Provider(copyId, if original.sortIndex.Some? then Some(original.sortIndex.value + 1) else None)
  {
    NoUpdatesIffNoneBehind(ps, original);
  }

  /** Duplication keeps the relative order of all providers, leaves the original in
      place, and puts the copy alone in the slot right behind it. */
  lemma DuplicateKeepsOrder(ps: seq<Provider>, k: nat, copyId: string, i: nat, j: nat)
    requires DistinctIds(ps) && k < |ps| && i < |ps| && j < |ps|
    ensures var r := Duplicated(ps, ps[k], copyId, true);
            && |r| == |ps| + 1
            && r[k] == ps[k]
            && r[i].id == ps[i].id
            && (Before(r[i], r[j]) <==> Before(ps[i], ps[j]))
            && (ps[k].sortIndex.Some? ==>
                  && Before(r[k], r[|ps|]) && r[i].sortIndex != r[|ps|].sortIndex
                  && (Before(r[i], r[|ps|]) <==> Before(ps[i], ps[k]) || (ps[i].sortIndex == ps[k].sortIndex)))
  {
    UpdatesShift(ps, ps[k], i);
    UpdatesShift(ps, ps[k], j);
    UpdatesShift(ps, ps[k], k);
  }
}
