/** The two folds with which `getEmailStats` summarises the stored email records: a tally
    of records per domain and the latest update time. */
module EmailStats {
  import opened Wrappers
  import opened JsString

  /** A stored record, as far as the statistics read it: the email (the empty string when
      absent) and the time of its last update, if any, as an integer timestamp. */
  datatype EmailData = EmailData(email: string, lastUpdated: Option<int>)

  // ---------------------------------------------------------------------------
  // The domain tally.

  /** `email.split('@')[1] || 'unknown'`: the piece after the first '@' up to the next '@',
      or "unknown" when there is no '@' or that piece is empty. */
  function DomainKey(email: string): (key: string)
    ensures key != ""
    ensures '@' !in key
  {
    var parts := Split(email, '@');
    if |parts| > 1 && parts[1] != "" then parts[1] else "unknown"
  }

  /** Only records with a non-empty email are tallied. */
  predicate Tallied(r: EmailData) {
    r.email != ""
  }

  /** `acc[domain] = (acc[domain] || 0) + 1` for a tallied record; the tally unchanged
      otherwise. */
  function TallyStep(acc: map<string, int>, r: EmailData): map<string, int> {
    if Tallied(r) then
      var key := DomainKey(r.email);
      acc[key := (if key in acc then acc[key] else 0) + 1]
    else acc
  }

  /** The `domains` reduce, starting from `{}`, as a fold over ever longer prefixes. */
  function DomainTally(records: seq<EmailData>): map<string, int>
    decreases |records|
  {
    if records == [] then map[]
    else TallyStep(DomainTally(records[..|records| - 1]), records[|records| - 1])
  }

  /** The number of tallied records whose domain key is `key`. */
  function Occurrences(records: seq<EmailData>, key: string): nat
    decreases |records|
  {
    if records == [] then 0
    else
      var r := records[|records| - 1];
      Occurrences(records[..|records| - 1], key) + (if Tallied(r) && DomainKey(r.email) == key then 1 else 0)
  }

  /** The number of tallied records. */
  function TalliedCount(records: seq<EmailData>): nat
    decreases |records|
  {
    if records == [] then 0
    else TalliedCount(records[..|records| - 1]) + (if Tallied(records[|records| - 1]) then 1 else 0)
  }

  /** The sum of a map's values. */
  ghost function SumValues(m: map<string, int>): int
    decreases |m|
  {
    if m == map[] then 0
    else
      var k :| k in m;
      m[k] + SumValues(m - {k})
  }

  /** `domains`: the reduce, with the accumulator dictionary updated in place. */
  method CountDomains(records: seq<EmailData>) returns (domains: map<string, int>)
    ensures domains == DomainTally(records)
    ensures forall key :: key in domains <==> Occurrences(records, key) > 0
    ensures forall key :: key in domains ==> domains[key] == Occurrences(records, key)
    ensures SumValues(domains) == TalliedCount(records)
  {
    domains := map[];
    var i := 0;
    while i < |records|
      invariant 0 <= i <= |records|
      invariant domains == DomainTally(records[..i])
    {
      var r := records[i];
      if r.email != "" {
        var domain := DomainKey(r.email);
        domains := domains[domain := (if domain in domains then domains[domain] else 0) + 1];
      }
      assert records[..i + 1][..i] == records[..i];
      i := i + 1;
    }
    assert records[..i] == records;
    TallyCounts(records);
    TallySum(records);
  }

  /** The tally has exactly the keys of tallied records, and each key's count is the
      number of tallied records with that domain key. */
  lemma {:induction false} TallyCounts(records: seq<EmailData>)
    ensures forall key :: key in DomainTally(records) <==> Occurrences(records, key) > 0
    ensures forall key :: key in DomainTally(records) ==> DomainTally(records)[key] == Occurrences(records, key)
    decreases |records|
  {
    if records != [] {
      TallyCounts(records[..|records| - 1]);
    }
  }

  /** No record is tallied under the empty key, and every count is positive. */
  lemma TallyKeys(records: seq<EmailData>)
    ensures "" !in DomainTally(records)
    ensures forall key :: key in DomainTally(records) ==> DomainTally(records)[key] >= 1
  {
    TallyCounts(records);
  }

  /** Removing one key takes its value off the sum, whichever key the sum picked first. */
  lemma {:induction false} SumValuesRemove(m: map<string, int>, key: string)
    requires key in m
    ensures SumValues(m) == m[key] + SumValues(m - {key})
    decreases |m|
  {
    var k :| k in m && SumValues(m) == m[k] + SumValues(m - {k});
    if k != key {
      var rest := m - {k};
      assert |rest| < |m| by { assert rest.Keys == m.Keys - {k}; }
      SumValuesRemove(rest, key);
      var other := m - {key};
      assert |other| < |m| by { assert other.Keys == m.Keys - {key}; }
      SumValuesRemove(other, k);
      assert rest - {key} == other - {k};
    }
  }

  /** Setting one key's value changes the sum by the difference. */
  lemma SumValuesUpdate(m: map<string, int>, key: string, v: int)
    ensures SumValues(m[key := v]) == SumValues(m) - (if key in m then m[key] else 0) + v
  {
    SumValuesRemove(m[key := v], key);
    assert m[key := v] - {key} == m - {key};
    if key in m {
      SumValuesRemove(m, key);
    } else {
      assert m - {key} == m;
    }
  }

  /** The counts add up to the number of tallied records. */
  lemma {:induction false} TallySum(records: seq<EmailData>)
    ensures SumValues(DomainTally(records)) == TalliedCount(records)
    decreases |records|
  {
    if records != [] {
      var prefix := records[..|records| - 1];
      var r := records[|records| - 1];
      TallySum(prefix);
      if Tallied(r) {
        var acc := DomainTally(prefix);
        var key := DomainKey(r.email);
        SumValuesUpdate(acc, key, (if key in acc then acc[key] else 0) + 1);
      }
    }
  }

  // ---------------------------------------------------------------------------
  // The latest update.

  /** One step of the `lastUpdated` reduce: a record's timestamp replaces the running value
      when there is none yet or when it is strictly later. */
  function LatestStep(latest: Option<int>, r: EmailData): Option<int> {
    if r.lastUpdated.Some? then
      var timestamp := r.lastUpdated.value;
      if latest.None? || timestamp > latest.value then Some(timestamp) else latest
    else latest
  }

  /** The `lastUpdated` reduce, starting from `null`, over ever longer prefixes. */
  function LastUpdated(records: seq<EmailData>): Option<int>
    decreases |records|
  {
    if records == [] then None
    else LatestStep(LastUpdated(records[..|records| - 1]), records[|records| - 1])
  }

  /** Some record carries a timestamp. */
  predicate AnyTimestamp(records: seq<EmailData>) {
    exists r :: r in records && r.lastUpdated.Some?
  }

  /** `t` is a greatest timestamp of the records: one of them carries it, and none carries
      a later one. */
  predicate IsLatest(records: seq<EmailData>, t: int) {
    (exists r :: r in records && r.lastUpdated == Some(t))
    && forall r :: r in records && r.lastUpdated.Some? ==> r.lastUpdated.value <= t
  }

  /** The fold gives `null` exactly when no record has a timestamp, and otherwise the
      greatest timestamp. */
  lemma {:induction false} LastUpdatedIsLatest(records: seq<EmailData>)
    ensures LastUpdated(records).None? <==> !AnyTimestamp(records)
    ensures LastUpdated(records).Some? ==> IsLatest(records, LastUpdated(records).value)
    decreases |records|
  {
    if records != [] {
      var prefix := records[..|records| - 1];
      var r := records[|records| - 1];
      LastUpdatedIsLatest(prefix);
      assert records == prefix + [r];
      forall x | x in records ensures x in prefix || x == r { }
      if AnyTimestamp(prefix) {
        var x :| x in prefix && x.lastUpdated.Some?;
        assert x in records;
      }
      if LastUpdated(records).Some? {
        var t := LastUpdated(records).value;
        if LastUpdated(prefix).Some? && LastUpdated(prefix).value == t {
          var x :| x in prefix && x.lastUpdated == Some(t);
          assert x in records;
        } else {
          assert r.lastUpdated == Some(t);
        }
      }
    }
  }

  /** A greatest timestamp is unique. */
  lemma LatestUnique(records: seq<EmailData>, t: int, u: int)
    requires IsLatest(records, t) && IsLatest(records, u)
    ensures t == u
  {
    var x :| x in records && x.lastUpdated == Some(t);
    var y :| y in records && y.lastUpdated == Some(u);
  }

  /** The latest update does not depend on the order of the records. */
  lemma LastUpdatedOrderFree(records: seq<EmailData>, other: seq<EmailData>)
    requires multiset(records) == multiset(other)
    ensures LastUpdated(records) == LastUpdated(other)
  {
    LastUpdatedIsLatest(records);
    LastUpdatedIsLatest(other);
    assert forall r :: r in records <==> r in other by {
      forall r ensures r in records <==> r in other {
        assert r in records <==> r in multiset(records);
        assert r in other <==> r in multiset(other);
      }
    }
    if LastUpdated(records).Some? && LastUpdated(other).Some? {
      LatestUnique(records, LastUpdated(records).value, LastUpdated(other).value);
    }
  }

  // ---------------------------------------------------------------------------
  // The statistics object.

  /** `{ totalEmails, domains, lastUpdated }`. */
  datatype Stats = Stats(totalEmails: nat, domains: map<string, int>, lastUpdated: Option<int>)

  /** The statistics of a snapshot's records: their number, the domain tally and the latest
      update. */
  method ComputeStats(records: seq<EmailData>) returns (stats: Stats)
    ensures stats.totalEmails == |records|
    ensures stats.domains == DomainTally(records)
    ensures stats.lastUpdated == LastUpdated(records)
    ensures SumValues(stats.domains) <= stats.totalEmails
  {
    var domains := CountDomains(records);
    TalliedAtMostTotal(records);
    stats := Stats(|records|, domains, LastUpdated(records));
  }

  /** The tally never counts more records than the snapshot holds. */
  lemma {:induction false} TalliedAtMostTotal(records: seq<EmailData>)
    ensures TalliedCount(records) <= |records|
    decreases |records|
  {
    if records != [] {
      TalliedAtMostTotal(records[..|records| - 1]);
    }
  }
}
