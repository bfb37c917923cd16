/** The status summary's counting (src/app/interview/components/RecordSummary.tsx):
    a `reduce` fold into an initially empty status-to-count object, and the
    fixed order in which the four tiles are listed. */
module RecordSummary {
  import opened RecordTypes
  import opened RecordFilter

  /** The order the summary lists statuses in. */
  const Statuses: seq<RecordStatus> := [Pending, Approved, Flagged, NeedsRevision]

  /** `acc[status] ?? 0` */
  function CountOr0(acc: map<RecordStatus, nat>, s: RecordStatus): nat {
    if s in acc then acc[s] else 0
  }

  /** The reducer: `acc[record.status] = (acc[record.status] ?? 0) + 1`. */
  function Step(acc: map<RecordStatus, nat>, r: Record): (next: map<RecordStatus, nat>)
    ensures next.Keys == acc.Keys + {r.status}
    ensures CountOr0(next, r.status) == CountOr0(acc, r.status) + 1
    ensures forall s :: s != r.status ==> CountOr0(next, s) == CountOr0(acc, s)
  {
    acc[r.status := CountOr0(acc, r.status) + 1]
  }

  /** `records.reduce(Step, {})`, a left fold: the last record is folded in last. */
  function FoldCounts(rs: seq<Record>): (counts: map<RecordStatus, nat>)
    ensures forall s :: s in counts ==> counts[s] > 0
  {
    if rs == [] then map[]
    else Step(FoldCounts(rs[..|rs| - 1]), rs[|rs| - 1])
  }

  /** The fold's count for each status is the number of records with that status. */
  lemma {:induction false} FoldCountsMatchFilter(rs: seq<Record>, s: RecordStatus)
    ensures CountOr0(FoldCounts(rs), s) == |FilterRecords(rs, ByStatus(s))|
  {
    if rs != [] {
      var init, last := rs[..|rs| - 1], rs[|rs| - 1];
      FoldCountsMatchFilter(init, s);
      assert rs == init + [last];
      FilterAppend(init, [last], ByStatus(s));
      assert FilterRecords([last], ByStatus(s)) == if last.status == s then [last] else [];
    }
  }

  /** A status is a key of the fold's result exactly when some record has it;
      a status that never occurs is absent and so reads as 0. */
  lemma {:induction false} FoldCountsKeys(rs: seq<Record>, s: RecordStatus)
    ensures s in FoldCounts(rs) <==> exists j :: 0 <= j < |rs| && rs[j].status == s
    ensures s !in FoldCounts(rs) ==> CountOr0(FoldCounts(rs), s) == 0
  {
    if rs != [] {
      var init := rs[..|rs| - 1];
      FoldCountsKeys(init, s);
      if s in FoldCounts(init) {
        var j :| 0 <= j < |init| && init[j].status == s;
        assert rs[j] == init[j];
      }
      if j :| 0 <= j < |rs| && rs[j].status == s {
        if j < |init| {
          assert init[j] == rs[j];
        }
      }
    }
  }

  /** The fold and `useStatusCounts` report the same number for every status. */
  lemma FoldAgreesWithStatusCounts(rs: seq<Record>, s: RecordStatus)
    ensures CountOr0(FoldCounts(rs), s) == CountsByFilter(rs).Get(s)
  {
    FoldCountsMatchFilter(rs, s);
  }

  /** The tiles the summary shows: each status of `Statuses` with `counts[status] ?? 0`. */
  function SummaryTiles(rs: seq<Record>): (tiles: seq<(RecordStatus, nat)>)
    ensures |tiles| == |Statuses|
    ensures forall i :: 0 <= i < |tiles| ==> tiles[i].0 == Statuses[i]
  {
    var counts := FoldCounts(rs);
    seq(|Statuses|, i requires 0 <= i < |Statuses| => (Statuses[i], CountOr0(counts, Statuses[i])))
  }

  /** Each tile counts the records of its status, every status appears exactly
      once, and the tiles add up to the number of records. */
  lemma SummaryTilesCorrect(rs: seq<Record>)
    ensures forall i :: 0 <= i < 4 ==> SummaryTiles(rs)[i].1 == |FilterRecords(rs, ByStatus(Statuses[i]))|
    ensures SummaryTiles(rs)[0].1 + SummaryTiles(rs)[1].1 + SummaryTiles(rs)[2].1 + SummaryTiles(rs)[3].1 == |rs|
  {
    forall i | 0 <= i < 4
      ensures SummaryTiles(rs)[i].1 == |FilterRecords(rs, ByStatus(Statuses[i]))|
    {
      FoldCountsMatchFilter(rs, Statuses[i]);
    }
    CountsByFilterTotal(rs);
  }

  /** The summary lists each of the four statuses exactly once. */
  lemma StatusesListEachOnce()
    ensures |Statuses| == 4
    ensures forall i, j :: 0 <= i < j < |Statuses| ==> Statuses[i] != Statuses[j]
    ensures forall s: RecordStatus :: s in Statuses
  {
    forall s: RecordStatus ensures s in Statuses {
      match s
      case Pending => assert Statuses[0] == s;
      case Approved => assert Statuses[1] == s;
      case Flagged => assert Statuses[2] == s;
      case NeedsRevision => assert Statuses[3] == s;
    }
  }
}
