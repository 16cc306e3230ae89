/**
 * The final report of a run: how many archives were loaded, how many were
 * not, and which ones, in manifest order, with the status their load ended in.
 */
module Reports {
  import opened Manifest

  /** The final report: successful loads, everything else, and the others in manifest order with their load status. */
  datatype Report = Report(successes: nat, failures: nat, failed: seq<(string, Status)>)

  /** The records whose load did not succeed, in manifest order, with their load status. */
  function Failures(ks: seq<string>, m: map<string, FileRecord>): (f: seq<(string, Status)>)
    requires forall k :: k in ks ==> k in m
    ensures |f| <= |ks|
    ensures forall k, s :: (k, s) in f <==> k in ks && m[k].load == s && s != Success
  {
    if ks == [] then []
    else
      var f := Failures(ks[..|ks| - 1], m);
      var k := ks[|ks| - 1];
      if m[k].load == Success then f else f + [(k, m[k].load)]
  }

  function Successes(ks: seq<string>, m: map<string, FileRecord>): (n: nat)
    requires forall k :: k in ks ==> k in m
  {
    if ks == [] then 0
    else Successes(ks[..|ks| - 1], m) + (if m[ks[|ks| - 1]].load == Success then 1 else 0)
  }

  /** The report of a manifest's keys `ks`. */
  function ReportOf(ks: seq<string>, m: map<string, FileRecord>): Report
    requires forall k :: k in ks ==> k in m
  {
    Report(Successes(ks, m), |Failures(ks, m)|, Failures(ks, m))
  }

  /** Every record is counted exactly once, as a success or as a failure. */
  lemma {:induction false} ReportCountsAll(ks: seq<string>, m: map<string, FileRecord>)
    requires forall k :: k in ks ==> k in m
    ensures Successes(ks, m) + |Failures(ks, m)| == |ks|
    decreases |ks|
  {
    if ks != [] {
      ReportCountsAll(ks[..|ks| - 1], m);
    }
  }

  /** The failure list follows the manifest order. */
  lemma {:induction false} FailuresInOrder(ks: seq<string>, m: map<string, FileRecord>, i: nat, j: nat)
    requires Distinct(ks)
    requires forall k :: k in ks ==> k in m
    requires i < j < |Failures(ks, m)|
    ensures exists a, b :: 0 <= a < b < |ks| && ks[a] == Failures(ks, m)[i].0 && ks[b] == Failures(ks, m)[j].0
    decreases |ks|
  {
    var init := ks[..|ks| - 1];
    var f := Failures(init, m);
    assert Distinct(init);
    if j < |f| {
      FailuresInOrder(init, m, i, j);
      var a, b :| 0 <= a < b < |init| && init[a] == f[i].0 && init[b] == f[j].0;
      assert ks[a] == init[a] && ks[b] == init[b];
    } else {
      assert Failures(ks, m)[i] == f[i];
      assert f[i] in f;
      var a :| 0 <= a < |init| && init[a] == f[i].0;
      assert ks[a] == init[a];
    }
  }

  /** The counting loop of the report: the loads that succeeded, and the rest. */
  method CountLoads(ks: seq<string>, m: map<string, FileRecord>) returns (ok: nat, bad: nat)
    requires forall k :: k in ks ==> k in m
    ensures ok == Successes(ks, m) && ok + bad == |ks|
  {
    ok, bad := 0, 0;
    for i := 0 to |ks|
      invariant ok == Successes(ks[..i], m) && ok + bad == i
    {
      assert ks[..i + 1][..i] == ks[..i];
      if m[ks[i]].load == Success {
        ok := ok + 1;
      } else {
        bad := bad + 1;
      }
    }
    assert ks[..|ks|] == ks;
  }

  /** The detail loop of the report: every record whose load did not succeed, with its load status. */
  method ListFailures(ks: seq<string>, m: map<string, FileRecord>) returns (failed: seq<(string, Status)>)
    requires forall k :: k in ks ==> k in m
    ensures failed == Failures(ks, m)
  {
    failed := [];
    for i := 0 to |ks|
      invariant failed == Failures(ks[..i], m)
    {
      assert ks[..i + 1][..i] == ks[..i];
      if m[ks[i]].load != Success {
        failed := failed + [(ks[i], m[ks[i]].load)];
      }
    }
    assert ks[..|ks|] == ks;
  }

  /**
   * The final report: the count of successful loads, the count of the rest,
   * and the rest in manifest order with their load status.
   */
  method FinalReport(mv: ManifestValue) returns (rep: Report)
    requires WellFormed(mv)
    ensures rep.successes + rep.failures == |mv.order|
    ensures rep.failures == |rep.failed|
    ensures forall k, s :: (k, s) in rep.failed <==> k in mv.order && mv.records[k].load == s && s != Success
    ensures rep == ReportOf(mv.order, mv.records)
  {
    var ok, bad := CountLoads(mv.order, mv.records);
    ReportCountsAll(mv.order, mv.records);
    var failed: seq<(string, Status)> := [];
    if bad > 0 {
      failed := ListFailures(mv.order, mv.records);
    }
    rep := Report(ok, bad, failed);
  }
}
