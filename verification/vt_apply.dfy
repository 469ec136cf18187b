// src/b9phish/vt_apply.py: the VirusTotal post-pass over stored alerts. The
// URLs of all alerts are gathered and de-duplicated for one lookup; the
// lookup's answer (a map from URL to detection counts) is an input here. Each
// alert with a flagged URL then gains the VT hit, the VT weight and a
// recomputed severity, in place.
module VtApply {
  import opened Utils
  import opened Rules

  /** The id the post-pass adds to an alert's hits. */
  const VtHit := "VT_MALICIOUS_URL"

  /** The default of `--weight`. */
  const DefaultVtWeight := 45

  // ---------------------------------------------------------------------------
  // _load_thresholds

  /** `_load_thresholds` on the `thresholds` section of the rules file (an
      empty map when the section is absent): 60 and 35 stand in for a missing
      `high` or `review`. */
  function LoadThresholds(thr: map<string, int>): (t: Thresholds)
    ensures "high" !in thr ==> t.high == 60
    ensures "high" in thr ==> t.high == thr["high"]
    ensures "review" !in thr ==> t.review == 35
    ensures "review" in thr ==> t.review == thr["review"]
  {
    Thresholds(if "high" in thr then thr["high"] else 60,
               if "review" in thr then thr["review"] else 35)
  }

  // ---------------------------------------------------------------------------
  // Alerts

  /** The part of an alert record the post-pass may change. */
  datatype AlertState = AlertState(ruleHits: seq<string>, score: int, severity: Severity)

  /** An alert record of alerts.json: its URLs (`indicators.urls`) are only
      read; its hits, score and severity are updated in place. */
  class Alert {
    const urls: seq<string>
    var ruleHits: seq<string>
    var score: int
    var severity: Severity

    constructor (urls: seq<string>, ruleHits: seq<string>, score: int, severity: Severity)
      ensures this.urls == urls && this.ruleHits == ruleHits
      ensures this.score == score && this.severity == severity
    {
      this.urls := urls;
      this.ruleHits := ruleHits;
      this.score := score;
      this.severity := severity;
    }

    function State(): AlertState
      reads this
    {
      AlertState(ruleHits, score, severity)
    }
  }

  // ---------------------------------------------------------------------------
  // Gathering and de-duplicating the URLs

  /** The URLs of all alerts, alert by alert, duplicates kept. */
  function AllUrls(alerts: seq<Alert>): (us: seq<string>)
    ensures forall i, u :: 0 <= i < |alerts| && u in alerts[i].urls ==> u in us
  {
    if alerts == [] then []
    else AllUrls(alerts[..|alerts| - 1]) + alerts[|alerts| - 1].urls
  }

  /** `list(dict.fromkeys(xs))`: the first occurrence of each element, in
      order. */
  function Dedup(xs: seq<string>): (d: seq<string>)
    ensures forall x :: x in d <==> x in xs
    ensures Distinct(d)
  {
    if xs == [] then []
    else
      var d := Dedup(xs[..|xs| - 1]);
      if xs[|xs| - 1] in d then d else d + [xs[|xs| - 1]]
  }

  /** The index of the first occurrence of `x` in `xs`. */
  function FirstIndex(xs: seq<string>, x: string): (i: nat)
    requires x in xs
    ensures i < |xs| && xs[i] == x && x !in xs[..i]
  {
    if xs[0] == x then 0 else 1 + FirstIndex(xs[1..], x)
  }

  /** A first occurrence inside a prefix is the first occurrence in the
      whole list. */
  lemma FirstIndexPrefix(xs: seq<string>, n: nat, x: string)
    requires n <= |xs| && x in xs[..n]
    ensures FirstIndex(xs, x) == FirstIndex(xs[..n], x) < n
  {
    var j := FirstIndex(xs[..n], x);
    assert xs[..n][..j] == xs[..j];
  }

  /** The elements of `d`, all of them in `xs`, appear in `d` in the order of
      their first occurrences in `xs`. */
  predicate InFirstOrder(xs: seq<string>, d: seq<string>) {
    forall i, j :: 0 <= i < j < |d| && d[i] in xs && d[j] in xs ==> FirstIndex(xs, d[i]) < FirstIndex(xs, d[j])
  }

  /** The de-duplicated list is ordered by first occurrence in the input. */
  lemma {:induction false} DedupKeepsFirst(xs: seq<string>)
    ensures InFirstOrder(xs, Dedup(xs))
  {
    if xs != [] {
      var n := |xs| - 1;
      var p := xs[..n];
      var dp := Dedup(p);
      DedupKeepsFirst(p);
      var d := Dedup(xs);
      forall i, j | 0 <= i < j < |d| && d[i] in xs && d[j] in xs
        ensures FirstIndex(xs, d[i]) < FirstIndex(xs, d[j])
      {
        assert d[i] == dp[i] && dp[i] in p;
        FirstIndexPrefix(xs, n, dp[i]);
        if j < |dp| {
          assert d[j] == dp[j] && dp[j] in p;
          FirstIndexPrefix(xs, n, dp[j]);
          assert FirstIndex(p, dp[i]) < FirstIndex(p, dp[j]);
        } else {
          assert d[j] == xs[n] && xs[n] !in p;
          assert FirstIndex(xs, xs[n]) == n;
        }
      }
    }
  }

  /** A list without duplicates is returned unchanged. */
  lemma {:induction false} DedupOfDistinct(xs: seq<string>)
    requires Distinct(xs)
    ensures Dedup(xs) == xs
  {
    if xs != [] {
      var n := |xs| - 1;
      assert Distinct(xs[..n]);
      DedupOfDistinct(xs[..n]);
      assert xs == xs[..n] + [xs[n]];
    }
  }

  /** The URL list sent to the lookup: every alert's URLs, each once, in
      order of first appearance. */
  method GatherUrls(alerts: seq<Alert>) returns (all: seq<string>)
    ensures all == Dedup(AllUrls(alerts))
  {
    all := [];
    for i := 0 to |alerts|
      invariant all == AllUrls(alerts[..i])
    {
      assert alerts[..i + 1][..i] == alerts[..i];
      all := all + alerts[i].urls;
    }
    assert alerts[..|alerts|] == alerts;
    all := Dedup(all);
  }

  // ---------------------------------------------------------------------------
  // Flagging

  /** `vt.get(u) or {}`: the detection counts of `u`, empty when the lookup
      has nothing for it. */
  function StatsOf(vt: map<string, map<string, int>>, u: string): map<string, int> {
    if u in vt then vt[u] else map[]
  }

  /** `stats.get(key, 0)` */
  function CountOf(stats: map<string, int>, key: string): int {
    if key in stats then stats[key] else 0
  }

  /** A URL is flagged by a positive malicious or suspicious count; one the
      lookup knows nothing about is never flagged. */
  predicate UrlFlagged(vt: map<string, map<string, int>>, u: string)
    ensures UrlFlagged(vt, u) ==> u in vt
  {
    CountOf(StatsOf(vt, u), "malicious") > 0 || CountOf(StatsOf(vt, u), "suspicious") > 0
  }

  /** Some URL of the alert is flagged. */
  predicate AnyFlagged(vt: map<string, map<string, int>>, urls: seq<string>) {
    exists k :: 0 <= k < |urls| && UrlFlagged(vt, urls[k])
  }

  /** The inner loop: scan the alert's URLs and stop at the first flagged
      one. */
  method IsFlagged(vt: map<string, map<string, int>>, urls: seq<string>) returns (flagged: bool)
    ensures flagged <==> AnyFlagged(vt, urls)
  {
    flagged := false;
    var k := 0;
    while k < |urls|
      invariant 0 <= k <= |urls|
      invariant !flagged
      invariant forall j :: 0 <= j < k ==> !UrlFlagged(vt, urls[j])
    {
      if UrlFlagged(vt, urls[k]) {
        flagged := true;
        break;
      }
      k := k + 1;
    }
  }

  // ---------------------------------------------------------------------------
  // Updating an alert

  /** `hits` with `h` appended unless it is already there. */
  function AddOnce(hits: seq<string>, h: string): (r: seq<string>)
    ensures h in r && hits <= r
    ensures multiset(r)[h] == if h in hits then multiset(hits)[h] else 1
    ensures forall x :: x != h ==> multiset(r)[x] == multiset(hits)[x]
  {
    if h in hits then hits else hits + [h]
  }

  /** What the post-pass does to a flagged alert. */
  function VtUpdate(s: AlertState, weight: int, t: Thresholds): (r: AlertState)
    ensures VtHit in r.ruleHits && s.ruleHits <= r.ruleHits
    ensures |r.ruleHits| == if VtHit in s.ruleHits then |s.ruleHits| else |s.ruleHits| + 1
    ensures r.score == s.score + weight
    ensures r.severity == SeverityOf(s.score + weight, t)
  {
    var score := s.score + weight;
    AlertState(AddOnce(s.ruleHits, VtHit), score, SeverityOf(score, t))
  }

  /** The VT hit is present exactly once after an update, provided it was
      not there twice already; the score rises by exactly `weight`; the
      severity is the engine's two-cut rule on the new score. */
  lemma VtUpdateEffect(s: AlertState, weight: int, t: Thresholds)
    requires multiset(s.ruleHits)[VtHit] <= 1
    ensures multiset(VtUpdate(s, weight, t).ruleHits)[VtHit] == 1
    ensures VtUpdate(s, weight, t).score == s.score + weight
    ensures VtUpdate(s, weight, t).severity == SeverityOf(s.score + weight, t)
  {
    assert VtHit in s.ruleHits <==> multiset(s.ruleHits)[VtHit] > 0;
  }

  /** Re-running the post-pass does not add the hit again, but adds the
      weight again. */
  lemma VtUpdateTwice(s: AlertState, weight: int, t: Thresholds)
    ensures VtUpdate(VtUpdate(s, weight, t), weight, t).ruleHits == VtUpdate(s, weight, t).ruleHits
    ensures VtUpdate(VtUpdate(s, weight, t), weight, t).score == s.score + 2 * weight
  {
  }

  /** With a non-negative weight, an alert whose severity matched its score
      never drops to a lower tier. */
  lemma VtUpdateNeverLowers(s: AlertState, weight: int, t: Thresholds)
    requires weight >= 0 && s.severity == SeverityOf(s.score, t)
    ensures Rank(s.severity) <= Rank(VtUpdate(s, weight, t).severity)
  {
    SeverityMonotone(s.score, s.score + weight, t);
  }

  /** With the default weight and the default thresholds, a flagged alert
      with a non-negative score is at least sent to review, and one that
      already scored 15 becomes high. */
  lemma DefaultWeightFlags(s: AlertState)
    requires s.score >= 0
    ensures VtUpdate(s, DefaultVtWeight, LoadThresholds(map[])).severity != Pass
    ensures VtUpdate(s, DefaultVtWeight, LoadThresholds(map[])).severity == High <==> s.score >= 15
  {
  }

  /** The number of alerts with a flagged URL. */
  function CountFlagged(alerts: seq<Alert>, vt: map<string, map<string, int>>): (n: nat)
    ensures n <= |alerts|
  {
    if alerts == [] then 0
    else CountFlagged(alerts[..|alerts| - 1], vt) + (if AnyFlagged(vt, alerts[|alerts| - 1].urls) then 1 else 0)
  }

  /** What the alert-update loop makes of one alert's state: the VT update
      when one of its URLs is flagged, the state as it was otherwise. */
  function Applied(s: AlertState, urls: seq<string>, vt: map<string, map<string, int>>,
                   weight: int, t: Thresholds): AlertState
  {
    if AnyFlagged(vt, urls) then VtUpdate(s, weight, t) else s
  }

  /** The alert-update loop of `main`: each flagged alert gets the VT hit
      (once), `weight` more score and the severity of its new score; every
      other alert is left as it was; `changed` counts the flagged alerts. */
  method ApplyVt(alerts: seq<Alert>, vt: map<string, map<string, int>>, weight: int, t: Thresholds)
    returns (changed: nat)
    requires forall i, j :: 0 <= i < j < |alerts| ==> alerts[i] != alerts[j]
    modifies set a | a in alerts
    ensures changed == CountFlagged(alerts, vt)
    ensures forall i :: 0 <= i < |alerts| ==>
      alerts[i].State() == Applied(old(alerts[i].State()), alerts[i].urls, vt, weight, t)
  {
    ghost var before := seq(|alerts|, k requires 0 <= k < |alerts| reads alerts => alerts[k].State());
    changed := 0;
    for i := 0 to |alerts|
      invariant changed == CountFlagged(alerts[..i], vt)
      invariant forall k :: 0 <= k < i ==> alerts[k].State() == Applied(before[k], alerts[k].urls, vt, weight, t)
      invariant forall k :: i <= k < |alerts| ==> alerts[k].State() == before[k]
    {
      assert alerts[..i + 1][..i] == alerts[..i];
      var flagged := UpdateAlert(alerts[i], vt, weight, t);
      if flagged {
        changed := changed + 1;
      }
    }
    assert alerts[..|alerts|] == alerts;
  }

  /** The body of the alert-update loop for one alert; `flagged` tells
      whether it was changed. */
  method UpdateAlert(a: Alert, vt: map<string, map<string, int>>, weight: int, t: Thresholds)
    returns (flagged: bool)
    modifies a
    ensures flagged <==> AnyFlagged(vt, a.urls)
    ensures a.State() == Applied(old(a.State()), a.urls, vt, weight, t)
  {
    flagged := IsFlagged(vt, a.urls);
    if flagged {
      if VtHit !in a.ruleHits {
        a.ruleHits := a.ruleHits + [VtHit];
      }
      a.score := a.score + weight;
      var score := a.score;
      if score >= t.high {
        a.severity := High;
      } else if score >= t.review {
        a.severity := Review;
      } else {
        a.severity := Pass;
      }
    }
  }
}
