/**
 * The planning phase: reuse the manifest of an interrupted run if there is
 * one, otherwise build a fresh manifest from the links of the month's
 * directory listing.
 */
module Planning {
  import opened Wrappers
  import opened Text
  import opened Manifest

  /** A link the planner keeps: an `href` attribute that is present and ends in ".zip". */
  predicate IsArchiveLink(href: Option<string>)
  {
    href.Some? && EndsWith(href.value, ".zip")
  }

  /** The record planned for a kept link. */
  function PlannedRecord(base: string, downloadsDir: string, href: string): FileRecord
  {
    NewRecord(base + href, Join(downloadsDir, href))
  }

  /**
   * The manifest built from the listing's links (`None` for an anchor without
   * `href`), in link order: each archive link is entered under its own text;
   * a repeated link keeps the place of its first occurrence.
   */
  function Planned(base: string, downloadsDir: string, hrefs: seq<Option<string>>): (mv: ManifestValue)
    ensures WellFormed(mv)
    ensures forall k :: k in mv.records ==> EndsWith(k, ".zip") && mv.records[k] == PlannedRecord(base, downloadsDir, k)
    ensures forall k :: k in mv.records <==> exists i :: 0 <= i < |hrefs| && hrefs[i] == Some(k) && IsArchiveLink(hrefs[i])
    decreases |hrefs|
  {
    if hrefs == [] then ManifestValue([], map[])
    else
      var prev := Planned(base, downloadsDir, hrefs[..|hrefs| - 1]);
      var h := hrefs[|hrefs| - 1];
      assert forall i :: 0 <= i < |hrefs| - 1 ==> hrefs[..|hrefs| - 1][i] == hrefs[i];
      if !IsArchiveLink(h) then prev
      else
        var order := if h.value in prev.records then prev.order else prev.order + [h.value];
        ManifestValue(order, prev.records[h.value := PlannedRecord(base, downloadsDir, h.value)])
  }

  /** What planning returns: the stored manifest, or the planned one, or nothing when the listing request failed. */
  function PlanResult(base: string, downloadsDir: string, stored: Option<ManifestValue>,
                      listing: Option<seq<Option<string>>>): Option<ManifestValue>
  {
    if stored.Some? then stored
    else if listing.None? then None
    else Some(Planned(base, downloadsDir, listing.value))
  }

  /**
   * Planning for the listing at `base`. `stored` is the manifest file of an
   * earlier run, if it exists; `listing` is the `href` of every anchor of the
   * listing page, or `None` when the request failed.
   */
  method Plan(base: string, downloadsDir: string, stored: Option<ManifestValue>,
              listing: Option<seq<Option<string>>>) returns (result: Option<ManifestValue>)
    ensures stored.Some? ==> result == stored
    ensures stored.None? ==> (result.Some? <==> listing.Some?)
    ensures stored.None? && listing.Some? ==> result == Some(Planned(base, downloadsDir, listing.value))
    ensures result == PlanResult(base, downloadsDir, stored, listing)
  {
    if stored.Some? {
      return stored;
    }
    if listing.None? {
      return None;
    }
    var hrefs := listing.value;
    var order: seq<string> := [];
    var records: map<string, FileRecord> := map[];
    var i := 0;
    while i < |hrefs|
      invariant 0 <= i <= |hrefs|
      invariant ManifestValue(order, records) == Planned(base, downloadsDir, hrefs[..i])
    {
      var href := hrefs[i];
      assert hrefs[..i + 1][..i] == hrefs[..i];
      if href.Some? && EndsWith(href.value, ".zip") {
        if href.value !in records {
          order := order + [href.value];
        }
        records := records[href.value := NewRecord(base + href.value, Join(downloadsDir, href.value))];
      }
      i := i + 1;
    }
    assert hrefs[..|hrefs|] == hrefs;
    return Some(ManifestValue(order, records));
  }

  /** The first position of `k` among the links, if it occurs. */
  function FirstLink(hrefs: seq<Option<string>>, k: string): (i: int)
    ensures -1 <= i < |hrefs|
    ensures i >= 0 ==> hrefs[i] == Some(k)
    ensures forall j :: 0 <= j < |hrefs| && (i == -1 || j < i) ==> hrefs[j] != Some(k)
  {
    if hrefs == [] then -1
    else
      var f := FirstLink(hrefs[..|hrefs| - 1], k);
      if f >= 0 then f
      else if hrefs[|hrefs| - 1] == Some(k) then |hrefs| - 1
      else -1
  }

  /** Planning one more link either keeps the key order or appends that link, new to the manifest. */
  lemma PlannedStep(base: string, downloadsDir: string, hrefs: seq<Option<string>>)
    requires hrefs != []
    ensures var prev := Planned(base, downloadsDir, hrefs[..|hrefs| - 1]);
            var order := Planned(base, downloadsDir, hrefs).order;
            || order == prev.order
            || (hrefs[|hrefs| - 1].Some? && hrefs[|hrefs| - 1].value !in prev.records &&
                order == prev.order + [hrefs[|hrefs| - 1].value])
  {
  }

  /** Planning one more link keeps the keys planned so far in place. */
  lemma PlannedKeepsEarlier(base: string, downloadsDir: string, hrefs: seq<Option<string>>, a: nat)
    requires hrefs != [] && a < |Planned(base, downloadsDir, hrefs[..|hrefs| - 1]).order|
    ensures a < |Planned(base, downloadsDir, hrefs).order|
    ensures Planned(base, downloadsDir, hrefs).order[a] == Planned(base, downloadsDir, hrefs[..|hrefs| - 1]).order[a]
  {
    PlannedStep(base, downloadsDir, hrefs);
  }

  /** A key that planning one more link appends is that link, and first occurs there. */
  lemma PlannedAppendsLast(base: string, downloadsDir: string, hrefs: seq<Option<string>>, b: nat)
    requires hrefs != []
    requires |Planned(base, downloadsDir, hrefs[..|hrefs| - 1]).order| <= b < |Planned(base, downloadsDir, hrefs).order|
    ensures FirstLink(hrefs, Planned(base, downloadsDir, hrefs).order[b]) == |hrefs| - 1
  {
    var init := hrefs[..|hrefs| - 1];
    var kb := Planned(base, downloadsDir, hrefs).order[b];
    PlannedStep(base, downloadsDir, hrefs);
    assert kb !in Planned(base, downloadsDir, init).records && hrefs[|hrefs| - 1] == Some(kb);
    FirstLinkAbsent(base, downloadsDir, init, kb);
  }

  /** The manifest lists its archives in the order they first appear in the listing. */
  lemma {:induction false} PlannedInFirstOccurrenceOrder(base: string, downloadsDir: string,
                                                          hrefs: seq<Option<string>>, a: nat, b: nat)
    requires a < b < |Planned(base, downloadsDir, hrefs).order|
    ensures var order := Planned(base, downloadsDir, hrefs).order;
            0 <= FirstLink(hrefs, order[a]) < FirstLink(hrefs, order[b])
    decreases |hrefs|
  {
    var init := hrefs[..|hrefs| - 1];
    var prev := Planned(base, downloadsDir, init).order;
    PlannedStep(base, downloadsDir, hrefs);
    PlannedKeepsEarlier(base, downloadsDir, hrefs, a);
    if b < |prev| {
      PlannedKeepsEarlier(base, downloadsDir, hrefs, b);
      PlannedInFirstOccurrenceOrder(base, downloadsDir, init, a, b);
    } else {
      FirstLinkPresent(base, downloadsDir, init, prev[a]);
      PlannedAppendsLast(base, downloadsDir, hrefs, b);
    }
  }

  /** A key the manifest lacks does not occur among the archive links. */
  lemma FirstLinkAbsent(base: string, downloadsDir: string, hrefs: seq<Option<string>>, k: string)
    requires EndsWith(k, ".zip") && k !in Planned(base, downloadsDir, hrefs).records
    ensures FirstLink(hrefs, k) == -1
  {
  }

  /** A key of the manifest occurs among the links. */
  lemma FirstLinkPresent(base: string, downloadsDir: string, hrefs: seq<Option<string>>, k: string)
    requires k in Planned(base, downloadsDir, hrefs).records
    ensures FirstLink(hrefs, k) >= 0
  {
    var i :| 0 <= i < |hrefs| && hrefs[i] == Some(k) && IsArchiveLink(hrefs[i]);
  }

  /** A freshly planned manifest satisfies the gating invariant. */
  lemma PlannedConsistent(base: string, downloadsDir: string, hrefs: seq<Option<string>>)
    ensures AllConsistent(Planned(base, downloadsDir, hrefs).records)
  {
    var mv := Planned(base, downloadsDir, hrefs);
    forall k | k in mv.records
      ensures Consistent(mv.records[k])
    {
      NewRecordConsistent(base + k, Join(downloadsDir, k));
    }
  }
}
