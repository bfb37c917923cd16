/** The client-side status filter and the per-status counts
    (src/app/interview/hooks/useRecordFilter.ts). */
module RecordFilter {
  import opened RecordTypes

  /** `'all'` or one status. */
  datatype Filter = All | ByStatus(status: RecordStatus)

  /** The value the filter state starts with. */
  const InitialFilter: Filter := All

  predicate Matches(r: Record, f: Filter) {
    f.All? || r.status == f.status
  }

  /** `useRecordFilter`'s derived list: the input itself for `All`, otherwise
      `records.filter(record => record.status === filter)`. */
  function FilterRecords(rs: seq<Record>, f: Filter): (r: seq<Record>)
    ensures |r| <= |rs|
    ensures forall x :: x in r <==> x in rs && Matches(x, f)
  {
    if rs == [] then []
    else (if Matches(rs[0], f) then [rs[0]] else []) + FilterRecords(rs[1..], f)
  }

  /** `sub` is `s` with some elements dropped and the rest kept in order. */
  ghost predicate IsSubsequence(sub: seq<Record>, s: seq<Record>)
    decreases |s|
  {
    if s == [] then sub == []
    else
      IsSubsequence(sub, s[1..]) ||
      (sub != [] && sub[0] == s[0] && IsSubsequence(sub[1..], s[1..]))
  }

  /** The `'all'` filter leaves the list exactly as it was. */
  lemma {:induction false} FilterAllIsIdentity(rs: seq<Record>)
    ensures FilterRecords(rs, All) == rs
  {
    if rs != [] {
      FilterAllIsIdentity(rs[1..]);
    }
  }

  /** The filter starts as `'all'`, so the list is first shown whole; an empty
      list filters to an empty list. */
  lemma FilterInitialAndEmpty(rs: seq<Record>, f: Filter)
    ensures FilterRecords(rs, InitialFilter) == rs
    ensures FilterRecords([], f) == []
  {
    FilterAllIsIdentity(rs);
  }

  /** Filtering commutes with concatenation, so it keeps the input's order. */
  lemma {:induction false} FilterAppend(a: seq<Record>, b: seq<Record>, f: Filter)
    ensures FilterRecords(a + b, f) == FilterRecords(a, f) + FilterRecords(b, f)
  {
    if a == [] {
      assert a + b == b;
    } else {
      assert (a + b)[1..] == a[1..] + b;
      FilterAppend(a[1..], b, f);
    }
  }

  /** The filtered list is an order-preserving subsequence of the input. */
  lemma {:induction false} FilterIsSubsequence(rs: seq<Record>, f: Filter)
    ensures IsSubsequence(FilterRecords(rs, f), rs)
  {
    if rs != [] {
      FilterIsSubsequence(rs[1..], f);
      var tail := FilterRecords(rs[1..], f);
      if Matches(rs[0], f) {
        assert FilterRecords(rs, f) == [rs[0]] + tail;
        assert ([rs[0]] + tail)[1..] == tail;
      } else {
        assert FilterRecords(rs, f) == tail;
      }
    }
  }

  /** Per-status counters (`StatusCounts`). */
  datatype StatusCounts = StatusCounts(pending: nat, approved: nat, flagged: nat, needsRevision: nat) {
    /** `counts[status]` */
    function Get(s: RecordStatus): nat {
      match s
      case Pending => pending
      case Approved => approved
      case Flagged => flagged
      case NeedsRevision => needsRevision
    }

    /** `counts[status] += 1` */
    function Increment(s: RecordStatus): (c: StatusCounts)
      ensures c.Get(s) == Get(s) + 1
      ensures forall t :: t != s ==> c.Get(t) == Get(t)
    {
      match s
      case Pending => this.(pending := pending + 1)
      case Approved => this.(approved := approved + 1)
      case Flagged => this.(flagged := flagged + 1)
      case NeedsRevision => this.(needsRevision := needsRevision + 1)
    }

    function Total(): nat {
      pending + approved + flagged + needsRevision
    }
  }

  /** The zeroed counts the hook starts from. */
  const ZeroCounts: StatusCounts := StatusCounts(0, 0, 0, 0)

  /** Counts defined independently of any loop: one filter per status. */
  function CountsByFilter(rs: seq<Record>): (c: StatusCounts)
    ensures forall s :: c.Get(s) == |FilterRecords(rs, ByStatus(s))|
  {
    StatusCounts(
      |FilterRecords(rs, ByStatus(Pending))|,
      |FilterRecords(rs, ByStatus(Approved))|,
      |FilterRecords(rs, ByStatus(Flagged))|,
      |FilterRecords(rs, ByStatus(NeedsRevision))|)
  }

  /** The four per-status filters partition the list: their lengths sum to its length. */
  lemma {:induction false} CountsByFilterTotal(rs: seq<Record>)
    ensures CountsByFilter(rs).Total() == |rs|
  {
    if rs != [] {
      CountsByFilterTotal(rs[1..]);
    }
  }

  /** One more record lengthens its own status's filter result by one and no other. */
  lemma FilterSnocLength(rs: seq<Record>, r: Record, s: RecordStatus)
    ensures |FilterRecords(rs + [r], ByStatus(s))| == |FilterRecords(rs, ByStatus(s))| + (if r.status == s then 1 else 0)
  {
    FilterAppend(rs, [r], ByStatus(s));
  }

  /** One more record adds one to its own status's count and nothing else. */
  lemma CountsByFilterSnoc(rs: seq<Record>, r: Record)
    ensures CountsByFilter(rs + [r]) == CountsByFilter(rs).Increment(r.status)
  {
    FilterSnocLength(rs, r, Pending);
    FilterSnocLength(rs, r, Approved);
    FilterSnocLength(rs, r, Flagged);
    FilterSnocLength(rs, r, NeedsRevision);
  }

  /** The counts of a prefix one longer add the next record's status. */
  lemma CountsByFilterPrefix(rs: seq<Record>, i: nat)
    requires i < |rs|
    ensures CountsByFilter(rs[..i + 1]) == CountsByFilter(rs[..i]).Increment(rs[i].status)
  {
    assert rs[..i + 1] == rs[..i] + [rs[i]];
    CountsByFilterSnoc(rs[..i], rs[i]);
  }

  /** `useStatusCounts`: start every status at 0, then `forEach` record add 1 to
      its own status. The result is the filter length for every status, and the
      counts sum to the number of records. */
  method UseStatusCounts(records: seq<Record>) returns (counts: StatusCounts)
    ensures forall s :: counts.Get(s) == |FilterRecords(records, ByStatus(s))|
    ensures counts.Total() == |records|
  {
    counts := ZeroCounts;
    for i := 0 to |records|
      invariant counts == CountsByFilter(records[..i])
    {
      CountsByFilterPrefix(records, i);
      counts := counts.Increment(records[i].status);
    }
    assert records[..|records|] == records;
    CountsByFilterTotal(records);
  }
}
