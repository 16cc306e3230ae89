/**
 * How a phase walks the manifest: it visits the keys in insertion order,
 * applies its per-record rule to each record, and stops at the first
 * uncaught exception. Everything here holds for any per-record rule; the
 * rules of the four phases are in the Phases module.
 */
module Sweeps {
  import opened Manifest

  /** What a phase does with one record. */
  datatype Effect =
    | Skip                                                  // the gate is closed: nothing happens
    | Update(calls: seq<Action>, rec: FileRecord, save: bool) // the record is replaced; `save` writes the manifest
    | Crash(calls: seq<Action>)                             // an uncaught exception ends the run

  /** The record after `rule` has visited it (unchanged when skipped or crashed). */
  function Updated(rule: FileRecord -> Effect, r: FileRecord): FileRecord
  {
    if rule(r).Update? then rule(r).rec else r
  }

  /** The manifest part of a run's progress, the actions so far, and whether an exception ended it. */
  datatype Progress = Progress(records: map<string, FileRecord>, trace: seq<Action>, crashed: bool)

  /** The progress after the effect `e` on the record under `k`; a save writes the manifest as it is after the update. */
  function Take(prev: Progress, k: string, e: Effect): (next: Progress)
    requires k in prev.records
    ensures next.records.Keys == prev.records.Keys
    ensures next.crashed == e.Crash?
    ensures e.Skip? ==> next == prev.(crashed := false)
  {
    match e
    case Skip => Progress(prev.records, prev.trace, false)
    case Update(calls, rec, save) =>
      var records := prev.records[k := rec];
      Progress(records, prev.trace + calls + (if save then [Save(records)] else []), false)
    case Crash(calls) => Progress(prev.records, prev.trace + calls, true)
  }

  /** The rule visits the record under `k`. */
  function Visit(prev: Progress, k: string, rule: FileRecord -> Effect): (next: Progress)
    requires k in prev.records
    ensures next.records.Keys == prev.records.Keys
    ensures next.records == prev.records[k := Updated(rule, prev.records[k])]
  {
    Take(prev, k, rule(prev.records[k]))
  }

  /** A progress `s` continued after the actions `t0` of what ran before. */
  function Resumed(t0: seq<Action>, s: Progress): Progress
  {
    Progress(s.records, t0 + s.trace, s.crashed)
  }

  /** An effect does the same whatever actions came before it. */
  lemma TakeResumed(t0: seq<Action>, s: Progress, k: string, e: Effect)
    requires k in s.records
    ensures Take(Resumed(t0, s), k, e) == Resumed(t0, Take(s, k, e))
  {
    match e
    case Skip =>
    case Update(calls, rec, save) =>
      var tail := if save then [Save(s.records[k := rec])] else [];
      assert t0 + s.trace + calls + tail == t0 + (s.trace + calls + tail);
    case Crash(calls) =>
      assert t0 + s.trace + calls == t0 + (s.trace + calls);
  }

  /** A visit does the same whatever actions came before it. */
  lemma VisitResumed(t0: seq<Action>, s: Progress, k: string, rule: FileRecord -> Effect)
    requires k in s.records
    ensures Visit(Resumed(t0, s), k, rule) == Resumed(t0, Visit(s, k, rule))
  {
    TakeResumed(t0, s, k, rule(s.records[k]));
  }

  /**
   * The rule visiting the keys `ks` in order, starting from `m`: it stops at
   * the first crash. The key set never changes.
   */
  function Sweep(ks: seq<string>, m: map<string, FileRecord>, rule: FileRecord -> Effect): (r: Progress)
    requires forall k :: k in ks ==> k in m
    ensures r.records.Keys == m.Keys
    ensures forall k :: k in m && k !in ks ==> r.records[k] == m[k]
    decreases |ks|
  {
    if ks == [] then Progress(m, [], false)
    else
      var prev := Sweep(ks[..|ks| - 1], m, rule);
      if prev.crashed then prev else Visit(prev, ks[|ks| - 1], rule)
  }

  /** A sweep over a single key is one visit. */
  lemma SweepSingle(k: string, m: map<string, FileRecord>, rule: FileRecord -> Effect)
    requires k in m
    ensures Sweep([k], m, rule) == Visit(Progress(m, [], false), k, rule)
    ensures Sweep([k], m, rule).records == m[k := Updated(rule, m[k])]
    ensures Sweep([k], m, rule).crashed == rule(m[k]).Crash?
  {
    assert [k][..0] == [];
  }

  /** A sweep over a single key whose rule changes the record completes, with the record changed. */
  lemma SweepSingleMoves(k: string, r: FileRecord, rule: FileRecord -> Effect)
    requires Updated(rule, r) != r
    ensures !Sweep([k], map[k := r], rule).crashed
    ensures Sweep([k], map[k := r], rule).records == map[k := Updated(rule, r)]
  {
    SweepSingle(k, map[k := r], rule);
  }

  /** A sweep that has crashed visits no further key. */
  lemma SweepStopsAtCrash(ks: seq<string>, m: map<string, FileRecord>, rule: FileRecord -> Effect)
    requires ks != [] && forall k :: k in ks ==> k in m
    requires Sweep(ks[..|ks| - 1], m, rule).crashed
    ensures Sweep(ks, m, rule) == Sweep(ks[..|ks| - 1], m, rule)
  {
  }

  /** A sweep that has not crashed visits the next key. */
  lemma SweepVisitsNext(ks: seq<string>, m: map<string, FileRecord>, rule: FileRecord -> Effect)
    requires ks != [] && forall k :: k in ks ==> k in m
    requires !Sweep(ks[..|ks| - 1], m, rule).crashed
    ensures Sweep(ks, m, rule) == Visit(Sweep(ks[..|ks| - 1], m, rule), ks[|ks| - 1], rule)
  {
  }

  /** Once a sweep has crashed, the keys after the crash are never visited. */
  lemma {:induction false} SweepAfterCrash(ks: seq<string>, rest: seq<string>, m: map<string, FileRecord>,
                                           rule: FileRecord -> Effect)
    requires forall k :: k in ks + rest ==> k in m
    requires Sweep(ks, m, rule).crashed
    ensures Sweep(ks + rest, m, rule) == Sweep(ks, m, rule)
    decreases |rest|
  {
    if rest != [] {
      var all := ks + rest;
      assert all != [];
      assert all[..|all| - 1] == ks + rest[..|rest| - 1];
      SweepAfterCrash(ks, rest[..|rest| - 1], m, rule);
      SweepStopsAtCrash(all, m, rule);
    } else {
      assert ks + rest == ks;
    }
  }

  lemma PrefixOfPrefix(ks: seq<string>, n: nat, i: nat)
    requires i < n <= |ks|
    ensures ks[..n][..i] == ks[..i] && ks[..n][i] == ks[i]
  {
  }

  /** One more key visited. */
  lemma SweepExtend(ks: seq<string>, i: nat, m: map<string, FileRecord>, rule: FileRecord -> Effect)
    requires i < |ks| && forall k :: k in ks ==> k in m
    requires !Sweep(ks[..i], m, rule).crashed
    ensures Sweep(ks[..i + 1], m, rule) == Visit(Sweep(ks[..i], m, rule), ks[i], rule)
  {
    PrefixOfPrefix(ks, i + 1, i);
    SweepVisitsNext(ks[..i + 1], m, rule);
  }

  /** A sweep that crashed within a prefix of the keys ends as it was at that crash. */
  lemma SweepCrashedPrefix(ks: seq<string>, i: nat, m: map<string, FileRecord>, rule: FileRecord -> Effect)
    requires i <= |ks| && forall k :: k in ks ==> k in m
    requires Sweep(ks[..i], m, rule).crashed
    ensures Sweep(ks, m, rule) == Sweep(ks[..i], m, rule)
  {
    assert ks[..i] + ks[i..] == ks;
    SweepAfterCrash(ks[..i], ks[i..], m, rule);
  }

  /** Where a loop over the keys stops (at the end, or at a crash), the sweep is complete. */
  lemma SweepFinished(ks: seq<string>, i: nat, m: map<string, FileRecord>, rule: FileRecord -> Effect)
    requires i <= |ks| && forall k :: k in ks ==> k in m
    requires i == |ks| || Sweep(ks[..i], m, rule).crashed
    ensures Sweep(ks, m, rule) == Sweep(ks[..i], m, rule)
  {
    if i == |ks| {
      assert ks[..i] == ks;
    } else {
      SweepCrashedPrefix(ks, i, m, rule);
    }
  }

  /**
   * A sweep that runs to the end over distinct keys leaves every visited
   * record exactly as the rule says: records do not influence each other.
   */
  lemma {:induction false} SweepPointwise(ks: seq<string>, m: map<string, FileRecord>, rule: FileRecord -> Effect)
    requires Distinct(ks)
    requires forall k :: k in ks ==> k in m
    requires !Sweep(ks, m, rule).crashed
    ensures forall k :: k in ks ==> Sweep(ks, m, rule).records[k] == Updated(rule, m[k])
    decreases |ks|
  {
    if ks != [] {
      var init := ks[..|ks| - 1];
      var last := ks[|ks| - 1];
      assert Distinct(init);
      SweepPointwise(init, m, rule);
      assert last !in init;
      SweepVisitsNext(ks, m, rule);
      forall k | k in ks
        ensures Sweep(ks, m, rule).records[k] == Updated(rule, m[k])
      {
        if k != last {
          assert k in init;
        }
      }
    }
  }

  /** A sweep that first crashes at its last key crashed on that key's original record, and changed nothing there. */
  lemma SweepCrashesAtLast(ks: seq<string>, m: map<string, FileRecord>, rule: FileRecord -> Effect)
    requires Distinct(ks) && ks != []
    requires forall k :: k in ks ==> k in m
    requires !Sweep(ks[..|ks| - 1], m, rule).crashed && Sweep(ks, m, rule).crashed
    ensures rule(m[ks[|ks| - 1]]).Crash?
    ensures Sweep(ks, m, rule).records == Sweep(ks[..|ks| - 1], m, rule).records
  {
    var init := ks[..|ks| - 1];
    var last := ks[|ks| - 1];
    assert last !in init;
    SweepVisitsNext(ks, m, rule);
  }

  /** The position of the key at which a crashed sweep stopped. */
  function CrashAt(ks: seq<string>, m: map<string, FileRecord>, rule: FileRecord -> Effect): (i: nat)
    requires forall k :: k in ks ==> k in m
    requires Sweep(ks, m, rule).crashed
    ensures i < |ks|
    decreases |ks|
  {
    if Sweep(ks[..|ks| - 1], m, rule).crashed then CrashAt(ks[..|ks| - 1], m, rule) else |ks| - 1
  }

  /**
   * A crash at one record leaves the records as they were before that record
   * was visited: the sweep had not crashed before it, and that record's
   * original version is the one that crashed.
   */
  lemma {:induction false} SweepCrashKeepsPrefix(ks: seq<string>, m: map<string, FileRecord>, rule: FileRecord -> Effect)
    requires Distinct(ks)
    requires forall k :: k in ks ==> k in m
    requires Sweep(ks, m, rule).crashed
    ensures var i := CrashAt(ks, m, rule);
            && !Sweep(ks[..i], m, rule).crashed
            && rule(m[ks[i]]).Crash?
            && Sweep(ks, m, rule).records == Sweep(ks[..i], m, rule).records
    decreases |ks|
  {
    var init := ks[..|ks| - 1];
    if Sweep(init, m, rule).crashed {
      assert Distinct(init);
      SweepCrashKeepsPrefix(init, m, rule);
      SweepStopsAtCrash(ks, m, rule);
      PrefixOfPrefix(ks, |ks| - 1, CrashAt(init, m, rule));
    } else {
      SweepCrashesAtLast(ks, m, rule);
    }
  }

  /** In a sweep that did not crash, no visited record crashed. */
  lemma {:induction false} SweepNoCrashedVisit(ks: seq<string>, m: map<string, FileRecord>, rule: FileRecord -> Effect,
                                               k: string)
    requires Distinct(ks)
    requires forall k :: k in ks ==> k in m
    requires !Sweep(ks, m, rule).crashed
    requires k in ks
    ensures !rule(m[k]).Crash?
    decreases |ks|
  {
    var init := ks[..|ks| - 1];
    var last := ks[|ks| - 1];
    assert last !in init;
    assert Distinct(init);
    SweepVisitsNext(ks, m, rule);
    if k != last {
      assert k in init;
      SweepNoCrashedVisit(init, m, rule, k);
    }
  }

  /** A sweep whose rule skips every key leaves the manifest alone and does nothing. */
  lemma {:induction false} SweepAllSkip(ks: seq<string>, m: map<string, FileRecord>, rule: FileRecord -> Effect)
    requires forall k :: k in ks ==> k in m && rule(m[k]).Skip?
    ensures Sweep(ks, m, rule) == Progress(m, [], false)
    decreases |ks|
  {
    if ks != [] {
      SweepAllSkip(ks[..|ks| - 1], m, rule);
    }
  }

  /**
   * Every action of a sweep comes from a record whose rule did not skip it,
   * as that record was when the sweep began: a save, or one of its calls.
   */
  lemma {:induction false} SweepActsOnlyOnOpenGates(ks: seq<string>, m: map<string, FileRecord>,
                                                    rule: FileRecord -> Effect, a: Action)
    requires Distinct(ks)
    requires forall k :: k in ks ==> k in m
    requires a in Sweep(ks, m, rule).trace
    ensures exists k :: k in ks && !rule(m[k]).Skip? && (a.Save? || a in rule(m[k]).calls)
    decreases |ks|
  {
    var init, last := ks[..|ks| - 1], ks[|ks| - 1];
    assert forall j :: j in init ==> j in ks;
    assert Distinct(init);
    var prev := Sweep(init, m, rule);
    if a in prev.trace {
      SweepActsOnlyOnOpenGates(init, m, rule, a);
    } else {
      assert last !in init;
      assert prev.records[last] == m[last];
    }
  }

  /** A record the rule leaves alone stays as it was, however often the sweep passes its key. */
  lemma {:induction false} SweepKeepsSkipped(ks: seq<string>, m: map<string, FileRecord>, rule: FileRecord -> Effect,
                                             k: string)
    requires forall k :: k in ks ==> k in m
    requires k in m && rule(m[k]).Skip?
    ensures Sweep(ks, m, rule).records[k] == m[k]
    decreases |ks|
  {
    if ks != [] {
      var init := ks[..|ks| - 1];
      assert forall j :: j in init ==> j in ks;
      SweepKeepsSkipped(init, m, rule, k);
    }
  }

  /**
   * A record whose visit crashes makes the sweep crash, before or at its key,
   * and that record is left as it was.
   */
  lemma {:induction false} SweepCrashesOn(ks: seq<string>, m: map<string, FileRecord>, rule: FileRecord -> Effect,
                                          k: string)
    requires forall k :: k in ks ==> k in m
    requires k in ks && rule(m[k]).Crash?
    ensures Sweep(ks, m, rule).crashed && Sweep(ks, m, rule).records[k] == m[k]
    decreases |ks|
  {
    var init := ks[..|ks| - 1];
    assert forall j :: j in init ==> j in ks;
    if k in init {
      SweepCrashesOn(init, m, rule, k);
    } else {
      assert k == ks[|ks| - 1];
    }
  }

  /** A rule that, on a record it has visited without crashing, does nothing the second time. */
  ghost predicate SettlesAtOnce(rule: FileRecord -> Effect)
  {
    forall r :: !rule(r).Crash? ==> rule(Updated(rule, r)).Skip?
  }

  /** A sweep run twice in a row: the second run changes nothing and does nothing. */
  lemma {:induction false} SweepIdempotent(ks: seq<string>, m: map<string, FileRecord>, rule: FileRecord -> Effect)
    requires SettlesAtOnce(rule)
    requires Distinct(ks)
    requires forall k :: k in ks ==> k in m
    requires !Sweep(ks, m, rule).crashed
    ensures Sweep(ks, Sweep(ks, m, rule).records, rule) == Progress(Sweep(ks, m, rule).records, [], false)
  {
    var m1 := Sweep(ks, m, rule).records;
    SweepPointwise(ks, m, rule);
    forall k | k in ks
      ensures rule(m1[k]).Skip?
    {
      SweepNoCrashedVisit(ks, m, rule, k);
    }
    SweepAllSkip(ks, m1, rule);
  }

  /** A rule that never raises. */
  ghost predicate NeverCrashes(rule: FileRecord -> Effect)
  {
    forall r :: !rule(r).Crash?
  }

  /** A sweep whose rule never raises runs to the end. */
  lemma {:induction false} SweepNeverCrashes(ks: seq<string>, m: map<string, FileRecord>, rule: FileRecord -> Effect)
    requires NeverCrashes(rule)
    requires forall k :: k in ks ==> k in m
    ensures !Sweep(ks, m, rule).crashed
    decreases |ks|
  {
    if ks != [] {
      SweepNeverCrashes(ks[..|ks| - 1], m, rule);
    }
  }

  /** A rule that keeps the gating invariant of the record it visits. */
  ghost predicate KeepsConsistent(rule: FileRecord -> Effect)
  {
    forall r :: Consistent(r) ==> Consistent(Updated(rule, r))
  }

  /** A sweep whose rule keeps the gating invariant keeps it for every record. */
  lemma {:induction false} SweepPreservesConsistent(ks: seq<string>, m: map<string, FileRecord>,
                                                    rule: FileRecord -> Effect)
    requires KeepsConsistent(rule)
    requires forall k :: k in ks ==> k in m
    requires AllConsistent(m)
    ensures AllConsistent(Sweep(ks, m, rule).records)
    decreases |ks|
  {
    if ks != [] {
      var init := ks[..|ks| - 1];
      SweepPreservesConsistent(init, m, rule);
      if !Sweep(init, m, rule).crashed {
        SweepVisitsNext(ks, m, rule);
      }
    }
  }

  /** A rule that saves the manifest whenever it updates a record. */
  ghost predicate SavesEveryUpdate(rule: FileRecord -> Effect)
  {
    forall r :: rule(r).Update? ==> rule(r).save
  }

  /** A sweep whose rule saves every update ends by saving the manifest it leaves, whenever it did anything. */
  lemma {:induction false} LastSaveIsFinal(ks: seq<string>, m: map<string, FileRecord>, rule: FileRecord -> Effect)
    requires SavesEveryUpdate(rule)
    requires forall k :: k in ks ==> k in m
    requires !Sweep(ks, m, rule).crashed && Sweep(ks, m, rule).trace != []
    ensures Sweep(ks, m, rule).trace[|Sweep(ks, m, rule).trace| - 1] == Save(Sweep(ks, m, rule).records)
    decreases |ks|
  {
    var init := ks[..|ks| - 1];
    SweepVisitsNext(ks, m, rule);
    if rule(Sweep(init, m, rule).records[ks[|ks| - 1]]).Skip? {
      LastSaveIsFinal(init, m, rule);
    }
  }

  /** A rule that never changes a load status. */
  ghost predicate KeepsLoad(rule: FileRecord -> Effect)
  {
    forall r :: Updated(rule, r).load == r.load
  }

  /** A sweep whose rule never changes a load status leaves every load status as it was. */
  lemma {:induction false} SweepKeepsLoad(ks: seq<string>, m: map<string, FileRecord>, rule: FileRecord -> Effect)
    requires KeepsLoad(rule)
    requires forall k :: k in ks ==> k in m
    ensures forall k :: k in m ==> Sweep(ks, m, rule).records[k].load == m[k].load
    decreases |ks|
  {
    if ks != [] {
      var init := ks[..|ks| - 1];
      SweepKeepsLoad(init, m, rule);
      if !Sweep(init, m, rule).crashed {
        SweepVisitsNext(ks, m, rule);
      }
    }
  }
}
