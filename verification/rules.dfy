// src/b9phish/rules.py: the rule engine. The configuration is fixed when the
// engine is built; `Score` runs the rules in their fixed order over a feature
// bundle, and the combo rule and the two-cut severity come last.
module Rules {
  import opened Utils
  import opened Parse
  import opened Features

  // ---------------------------------------------------------------------------
  // Rule ids

  /** The rules `score` can report; `Id` is the string it reports. */
  datatype RuleId =
    | SpfFail | DkimFailOrNoDmarc | FromReplyToMismatch | LinkMismatch | IdnOrSuspiciousTld
    | DisplayNameImpersonation | DangerousAttachment | UrgencyBait | ReturnPathMismatch
    | MessageIdDomainMismatch | ShortenerOrRedirect | OAuthConsentPhish | PortProtocolOddity
    | UnicodeRloOrZw | ComboSenderMismatchAuth

  function Id(r: RuleId): string {
    match r
    case SpfFail => "SPF_FAIL"
    case DkimFailOrNoDmarc => "DKIM_FAIL_OR_NODMARC"
    case FromReplyToMismatch => "FROM_REPLYTO_MISMATCH"
    case LinkMismatch => "LINK_MISMATCH"
    case IdnOrSuspiciousTld => "IDN_OR_SUSPICIOUS_TLD"
    case DisplayNameImpersonation => "DISPLAY_NAME_IMPERSONATION"
    case DangerousAttachment => "DANGEROUS_ATTACHMENT"
    case UrgencyBait => "URGENCY_BAIT"
    case ReturnPathMismatch => "RETURN_PATH_MISMATCH"
    case MessageIdDomainMismatch => "MESSAGEID_DOMAIN_MISMATCH"
    case ShortenerOrRedirect => "SHORTENER_OR_REDIRECT"
    case OAuthConsentPhish => "OAUTH_CONSENT_PHISH"
    case PortProtocolOddity => "PORT_PROTOCOL_ODDITY"
    case UnicodeRloOrZw => "UNICODE_RLO_OR_ZW"
    case ComboSenderMismatchAuth => "COMBO_SENDER_MISMATCH_AUTH"
  }

  /** The fixed bonus of the combo rule. */
  const ComboBonus := 10

  /** The base rules in evaluation order (R1–R8, R10, then the rules marked
      "NEW"); the combo rule follows them. */
  const RuleIds: seq<RuleId> := [
    SpfFail, DkimFailOrNoDmarc, FromReplyToMismatch, LinkMismatch,
    IdnOrSuspiciousTld, DisplayNameImpersonation, DangerousAttachment,
    UrgencyBait, ReturnPathMismatch, MessageIdDomainMismatch,
    ShortenerOrRedirect, OAuthConsentPhish, PortProtocolOddity, UnicodeRloOrZw]

  /** The redirect hosts `score` lists for ShortenerOrRedirect. */
  const RedirectHosts: set<string> :=
    {"bit.ly", "t.co", "lnkd.in", "lnk.bio", "tinyurl.com", "goo.gl",
     "rebrand.ly", "bl.ink", "buff.ly", "shorturl.at", "s.id"}

  // ---------------------------------------------------------------------------
  // Configuration and verdict

  datatype Thresholds = Thresholds(high: int, review: int)

  datatype Severity = Pass | Review | High

  function Rank(s: Severity): nat {
    match s
    case Pass => 0
    case Review => 1
    case High => 2
  }

  datatype Verdict = Verdict(score: int, severity: Severity, hits: seq<RuleId>, reasons: seq<string>)

  /** `_w`: the configured weight of a rule, 0 for an id the weights omit. */
  function Weight(weights: map<string, int>, id: string): (w: int)
    ensures id !in weights ==> w == 0
    ensures id in weights ==> w == weights[id]
  {
    if id in weights then weights[id] else 0
  }

  /** `allowlists.get("domains", [])` */
  function AllowedDomains(allowlists: map<string, seq<string>>): seq<string> {
    if "domains" in allowlists then allowlists["domains"] else []
  }

  /** The two-cut severity: High from `high` up, else Review from `review`
      up, else Pass. */
  function SeverityOf(score: int, t: Thresholds): (s: Severity)
    ensures s == High <==> score >= t.high
    ensures s == Review <==> score < t.high && score >= t.review
    ensures s == Pass <==> score < t.high && score < t.review
  {
    if score >= t.high then High else if score >= t.review then Review else Pass
  }

  /** For fixed thresholds a larger score never gives a lower tier, whatever
      the order of the two cuts. */
  lemma SeverityMonotone(s1: int, s2: int, t: Thresholds)
    requires s1 <= s2
    ensures Rank(SeverityOf(s1, t)) <= Rank(SeverityOf(s2, t))
  {
  }

  // ---------------------------------------------------------------------------
  // The rule predicates

  /** Substring tests of R6 over a lower-cased text. */
  predicate MentionsBrand(s: string) {
    Contains(s, "microsoft") || Contains(s, "google") || Contains(s, "amazon")
  }

  /** `any(s["deceptive_keywords"] for s in url_signals)` */
  predicate AnyDeceptiveLink(sigs: seq<UrlSignal>) {
    exists k :: 0 <= k < |sigs| && sigs[k].deceptiveKeywords
  }

  /** `any(s["punycode"] or s["suspicious_tld"] for s in url_signals)` */
  predicate AnyIdnOrSuspiciousTld(sigs: seq<UrlSignal>) {
    exists k :: 0 <= k < |sigs| && (sigs[k].punycode || sigs[k].suspiciousTld)
  }

  /** The shortener test over `zip(urls, url_signals)`: a listed redirect host
      or a shortener signal, on the pairs both lists have. */
  predicate AnyRedirect(urls: seq<string>, sigs: seq<UrlSignal>) {
    exists k :: 0 <= k < |urls| && k < |sigs| && (SplitHost(urls[k]) in RedirectHosts || sigs[k].shortener)
  }

  /** An OAuth authorize path in some URL, case-insensitively. */
  predicate AnyOAuthConsent(urls: seq<string>) {
    exists k :: 0 <= k < |urls| && Contains(Lower(urls[k]), "oauth2/authorize")
  }

  /** An odd protocol, IP-literal host or non-standard port in some URL. */
  predicate AnyPortProtocolOddity(sigs: seq<UrlSignal>) {
    exists k :: 0 <= k < |sigs| && (sigs[k].oddProtocol || sigs[k].ipLiteral || sigs[k].nonStdPort)
  }

  /** Whether each base rule fires on `f` with the allowlisted domains
      `allow`, in the order of RuleIds. */
  function Fired(f: FeatureBundle, allow: seq<string>): (bs: seq<bool>)
    ensures |bs| == |RuleIds|
  {
    var fd := f.addresses.fromAddr.domain;
    var rd := f.addresses.replyTo.domain;
    var rp := f.addresses.returnPath.domain;
    var name := f.addresses.fromAddr.name;
    [ f.auth.spf == "fail",
      f.auth.dkim in {"fail", "none"} && f.auth.dmarc in {"none", "neutral"},
      fd != "" && rd != "" && fd != rd && rd !in allow,
      AnyDeceptiveLink(f.urlSignals),
      AnyIdnOrSuspiciousTld(f.urlSignals),
      |f.urlSignals| > 0 && name != "" && fd != "" && MentionsBrand(Lower(name)) && !MentionsBrand(Lower(fd)),
      |f.dangerousExt| > 0,
      f.flags.urgencyBait,
      rp != "" && fd != "" && rp != fd,
      f.senderSignals.messageIdMismatch,
      AnyRedirect(f.urls, f.urlSignals),
      AnyOAuthConsent(f.urls),
      AnyPortProtocolOddity(f.urlSignals),
      f.flags.unicodeAbuse ]
  }

  /** `[id]` when `c` holds, else nothing. */
  function When(c: bool, id: RuleId): seq<RuleId> {
    if c then [id] else []
  }

  /** The ids among the first `n` of `ids` whose flag in `bs` is set, in order. */
  function Select(ids: seq<RuleId>, bs: seq<bool>, n: nat): (r: seq<RuleId>)
    requires n <= |ids| == |bs|
    ensures |r| <= n
  {
    if n == 0 then [] else Select(ids, bs, n - 1) + When(bs[n - 1], ids[n - 1])
  }

  /** The base-rule hits: the ids of the rules that fire, in rule order. */
  function BaseHits(f: FeatureBundle, allow: seq<string>): seq<RuleId> {
    Select(RuleIds, Fired(f, allow), |RuleIds|)
  }

  /** An id is selected exactly when it sits at a flagged position among the
      first `n`. */
  lemma {:induction false} SelectMembers(ids: seq<RuleId>, bs: seq<bool>, n: nat, x: RuleId)
    requires n <= |ids| == |bs|
    ensures x in Select(ids, bs, n) <==> exists i :: 0 <= i < n && ids[i] == x && bs[i]
  {
    if n > 0 {
      SelectMembers(ids, bs, n - 1, x);
    }
  }

  /** Nothing is selected when no flag is set. */
  lemma {:induction false} SelectNone(ids: seq<RuleId>, bs: seq<bool>, n: nat)
    requires n <= |ids| == |bs|
    requires forall k :: 0 <= k < n ==> !bs[k]
    ensures Select(ids, bs, n) == []
  {
    if n > 0 {
      SelectNone(ids, bs, n - 1);
    }
  }

  /** Exactly the one id is selected when exactly its flag is set. */
  lemma {:induction false} SelectOnly(ids: seq<RuleId>, bs: seq<bool>, n: nat, i: nat)
    requires i < n <= |ids| == |bs| && bs[i]
    requires forall k :: 0 <= k < n && k != i ==> !bs[k]
    ensures Select(ids, bs, n) == [ids[i]]
  {
    if n - 1 == i {
      SelectNone(ids, bs, i);
    } else {
      SelectOnly(ids, bs, n - 1, i);
    }
  }

  /** A base rule is hit exactly when its flag is set; the combo id is never a
      base hit. */
  lemma RuleHit(bs: seq<bool>, i: nat)
    requires |bs| == |RuleIds| && i < |RuleIds|
    ensures RuleIds[i] in Select(RuleIds, bs, |RuleIds|) <==> bs[i]
    ensures ComboSenderMismatchAuth !in Select(RuleIds, bs, |RuleIds|)
  {
    SelectMembers(RuleIds, bs, |RuleIds|, RuleIds[i]);
    SelectMembers(RuleIds, bs, |RuleIds|, ComboSenderMismatchAuth);
  }

  /** Selecting from distinct ids keeps them distinct. */
  lemma {:induction false} SelectDistinct(ids: seq<RuleId>, bs: seq<bool>, n: nat)
    requires n <= |ids| == |bs| && Distinct(ids)
    ensures Distinct(Select(ids, bs, n))
  {
    if n > 0 {
      SelectDistinct(ids, bs, n - 1);
      SelectMembers(ids, bs, n - 1, ids[n - 1]);
    }
  }

  /** The condition of the combo rule, over the base hits. */
  predicate ComboFires(base: seq<RuleId>, auth: Auth) {
    (ReturnPathMismatch in base || FromReplyToMismatch in base || MessageIdDomainMismatch in base) &&
    (auth.spf in {"fail", "softfail"} || auth.dkim == "fail" || auth.dmarc in {"none", "reject"})
  }

  /** The combo condition for an authentication result whose DMARC value is
      one the parser can produce. */
  predicate ComboFiresWithoutReject(base: seq<RuleId>, auth: Auth) {
    (ReturnPathMismatch in base || FromReplyToMismatch in base || MessageIdDomainMismatch in base) &&
    (auth.spf in {"fail", "softfail"} || auth.dkim == "fail" || auth.dmarc == "none")
  }

  /** "reject" is not among the six results the parser knows, so for a parsed
      DMARC value the `reject` alternative of the combo is dead. */
  lemma ComboWithoutReject(base: seq<RuleId>, auth: Auth)
    requires auth.dmarc in AuthResults
    ensures auth.dmarc != "reject"
    ensures ComboFires(base, auth) <==> ComboFiresWithoutReject(base, auth)
  {
    assert "reject" !in AuthResults;
  }

  /** The base hits followed by the combo id when the combo rule fires on them. */
  function WithCombo(base: seq<RuleId>, auth: Auth): seq<RuleId> {
    base + When(ComboFires(base, auth), ComboSenderMismatchAuth)
  }

  /** All hits of `score`. */
  function ExpectedHits(f: FeatureBundle, allow: seq<string>): seq<RuleId> {
    WithCombo(BaseHits(f, allow), f.auth)
  }

  /** The combo id is reported exactly when a sender-mismatch rule (R3,
      Return-Path or Message-ID) fired together with an authentication
      failure, and then it is the last hit. */
  lemma ComboHit(bs: seq<bool>, auth: Auth)
    requires |bs| == |RuleIds|
    ensures var hits := WithCombo(Select(RuleIds, bs, |RuleIds|), auth);
      && (ComboSenderMismatchAuth in hits <==>
           (bs[2] || bs[8] || bs[9]) &&
           (auth.spf in {"fail", "softfail"} || auth.dkim == "fail" || auth.dmarc in {"none", "reject"}))
      && (ComboSenderMismatchAuth in hits ==> hits[|hits| - 1] == ComboSenderMismatchAuth)
  {
    RuleHit(bs, 2);
    RuleHit(bs, 8);
    RuleHit(bs, 9);
  }

  /** No id is reported twice. */
  lemma HitsDistinct(bs: seq<bool>, auth: Auth)
    requires |bs| == |RuleIds|
    ensures Distinct(WithCombo(Select(RuleIds, bs, |RuleIds|), auth))
  {
    SelectDistinct(RuleIds, bs, |RuleIds|);
    SelectMembers(RuleIds, bs, |RuleIds|, ComboSenderMismatchAuth);
  }

  /** A base rule is reported by `score` exactly when its condition holds. */
  lemma BaseRuleHit(f: FeatureBundle, allow: seq<string>, i: nat)
    requires i < |RuleIds|
    ensures RuleIds[i] in ExpectedHits(f, allow) <==> Fired(f, allow)[i]
  {
    RuleHit(Fired(f, allow), i);
  }

  /** The allowlist matters only through the Reply-To domain: when that
      domain is not listed, the hits are those of an empty allowlist. */
  lemma AllowlistOnlyExemptsReplyTo(f: FeatureBundle, allow: seq<string>)
    requires f.addresses.replyTo.domain !in allow
    ensures ExpectedHits(f, allow) == ExpectedHits(f, [])
  {
    assert Fired(f, allow) == Fired(f, []);
  }

  /** R3: reported exactly when both domains are known, they differ and the
      Reply-To domain is not allowlisted; never when the domains agree. */
  lemma FromReplyToHit(f: FeatureBundle, allow: seq<string>)
    ensures var fd := f.addresses.fromAddr.domain; var rd := f.addresses.replyTo.domain;
      FromReplyToMismatch in ExpectedHits(f, allow) <==> fd != "" && rd != "" && fd != rd && rd !in allow
  {
    BaseRuleHit(f, allow, 2);
  }

  /** R6: reported only for a message with links whose display name names a
      brand that its From domain does not. */
  lemma DisplayNameHit(f: FeatureBundle, allow: seq<string>)
    ensures var name := f.addresses.fromAddr.name; var fd := f.addresses.fromAddr.domain;
      DisplayNameImpersonation in ExpectedHits(f, allow) <==>
        |f.urlSignals| > 0 && name != "" && fd != "" && MentionsBrand(Lower(name)) && !MentionsBrand(Lower(fd))
  {
    BaseRuleHit(f, allow, 5);
  }

  /** R7: reported exactly when a dangerous attachment extension was found,
      and then only once, whatever the number of such attachments. */
  lemma DangerousAttachmentHit(f: FeatureBundle, allow: seq<string>)
    ensures DangerousAttachment in ExpectedHits(f, allow) <==> |f.dangerousExt| > 0
    ensures Distinct(ExpectedHits(f, allow))
  {
    BaseRuleHit(f, allow, 6);
    HitsDistinct(Fired(f, allow), f.auth);
  }

  /** With no Authentication-Results (all "none"), no From domain, no URLs,
      attachments or flags, only DKIM_FAIL_OR_NODMARC is reported. */
  lemma OnlyDkimFires(f: FeatureBundle, allow: seq<string>)
    requires f.auth == Auth("none", "none", "none")
    requires f.addresses.fromAddr.domain == "" && f.urls == [] && f.urlSignals == []
    requires f.dangerousExt == [] && !f.flags.urgencyBait && !f.flags.unicodeAbuse
    requires !f.senderSignals.messageIdMismatch
    ensures ExpectedHits(f, allow) == [DkimFailOrNoDmarc]
  {
    SelectOnly(RuleIds, Fired(f, allow), |RuleIds|, 1);
    assert [DkimFailOrNoDmarc][..0] == [];
  }

  /** The reason text appended with each id. */
  function Reason(id: RuleId, f: FeatureBundle): string {
    match id
    case SpfFail => "SPF authentication failed."
    case DkimFailOrNoDmarc => "DKIM failed or missing and DMARC not enforced."
    case FromReplyToMismatch =>
      MismatchReason(f.addresses.fromAddr.domain, f.addresses.replyTo.domain)
    case LinkMismatch => "Link host contains brand + action keywords (potential deception)."
    case IdnOrSuspiciousTld => "Internationalized domain or suspicious TLD detected."
    case DisplayNameImpersonation => "Display name references a brand but domain is unrelated."
    case DangerousAttachment =>
      "Dangerous attachment type: " + (if |f.dangerousExt| > 0 then f.dangerousExt[0] else "")
    case UrgencyBait => "Subject contains urgency or security-reset phrasing."
    case ReturnPathMismatch => "Return-Path domain differs from From domain."
    case MessageIdDomainMismatch => "Message-ID domain does not match From domain."
    case ShortenerOrRedirect => "Link uses a URL shortener/redirect service."
    case OAuthConsentPhish => "OAuth consent/authorize link present (possible app-grant phish)."
    case PortProtocolOddity => "Odd protocol/IP-literal or non-standard port in link."
    case UnicodeRloOrZw => "Subject contains RLO/zero-width obfuscation characters."
    case ComboSenderMismatchAuth => "Sender mismatch combined with auth failure."
  }

  /** The Reply-To reason names both domains, and the attachment reason
      names the first dangerous extension. */
  lemma ReasonMentions(id: RuleId, f: FeatureBundle)
    ensures id == FromReplyToMismatch ==>
      Contains(Reason(id, f), f.addresses.fromAddr.domain) && Contains(Reason(id, f), f.addresses.replyTo.domain)
    ensures id == DangerousAttachment && |f.dangerousExt| > 0 ==> Contains(Reason(id, f), f.dangerousExt[0])
  {
    match id
    case FromReplyToMismatch =>
      MismatchReasonNames(f.addresses.fromAddr.domain, f.addresses.replyTo.domain);
    case DangerousAttachment =>
      if |f.dangerousExt| > 0 {
        assert OccursAt(Reason(id, f), f.dangerousExt[0], 27);
      }
    case _ =>
  }

  function MismatchReason(fd: string, rd: string): string {
    "From domain (" + fd + ") differs from Reply-To (" + rd + ")."
  }

  lemma MismatchReasonNames(fd: string, rd: string)
    ensures Contains(MismatchReason(fd, rd), fd) && Contains(MismatchReason(fd, rd), rd)
  {
    var r := MismatchReason(fd, rd);
    assert r[13..13 + |fd|] == fd;
    assert OccursAt(r, fd, 13);
    assert r[38 + |fd|..38 + |fd| + |rd|] == rd;
    assert OccursAt(r, rd, 38 + |fd|);
  }

  /** One reason per hit, in the order of the hits. */
  function Reasons(hits: seq<RuleId>, f: FeatureBundle): (r: seq<string>)
    ensures |r| == |hits|
    ensures forall k :: 0 <= k < |hits| ==> r[k] == Reason(hits[k], f)
  {
    if hits == [] then [] else Reasons(hits[..|hits| - 1], f) + [Reason(hits[|hits| - 1], f)]
  }

  /** The running score and reasons of `score` agree with its hits so far. */
  ghost predicate Tallied(weights: map<string, int>, f: FeatureBundle,
                          score: int, hits: seq<RuleId>, reasons: seq<string>) {
    score == SumWeights(weights, hits) && reasons == Reasons(hits, f)
  }

  /** Sum of the configured weights of `ids`. */
  function SumWeights(weights: map<string, int>, ids: seq<RuleId>): int {
    if ids == [] then 0 else SumWeights(weights, ids[..|ids| - 1]) + Weight(weights, Id(ids[|ids| - 1]))
  }

  /** With no negative weight configured, no tally is negative, so neither
      is any score. */
  lemma {:induction false} SumWeightsNonNegative(weights: map<string, int>, ids: seq<RuleId>)
    requires forall id :: id in weights ==> weights[id] >= 0
    ensures SumWeights(weights, ids) >= 0
  {
    if ids != [] {
      SumWeightsNonNegative(weights, ids[..|ids| - 1]);
    }
  }

  /** `ids` without the occurrences of `x`. */
  function Without(ids: seq<RuleId>, x: RuleId): (r: seq<RuleId>)
    ensures x !in r
  {
    if ids == [] then [] else Without(ids[..|ids| - 1], x) + (if ids[|ids| - 1] == x then [] else [ids[|ids| - 1]])
  }

  lemma {:induction false} WithoutAbsent(ids: seq<RuleId>, x: RuleId)
    requires x !in ids
    ensures Without(ids, x) == ids
  {
    if ids != [] {
      WithoutAbsent(ids[..|ids| - 1], x);
    }
  }

  /** Recording one more hit keeps the tally. */
  lemma TallyStep(weights: map<string, int>, f: FeatureBundle,
                  score: int, hits: seq<RuleId>, reasons: seq<string>, x: RuleId)
    requires Tallied(weights, f, score, hits, reasons)
    ensures Tallied(weights, f, score + Weight(weights, Id(x)), hits + [x], reasons + [Reason(x, f)])
  {
    Snoc(hits, x);
  }

  /** Appending the combo id after a tally of base hits: the reasons still
      line up, and the weights summed are those of the base hits alone. */
  lemma ComboTally(weights: map<string, int>, f: FeatureBundle,
                   score: int, hits: seq<RuleId>, reasons: seq<string>)
    requires Tallied(weights, f, score, hits, reasons) && ComboSenderMismatchAuth !in hits
    ensures score == SumWeights(weights, Without(hits, ComboSenderMismatchAuth))
    ensures score == SumWeights(weights, Without(hits + [ComboSenderMismatchAuth], ComboSenderMismatchAuth))
    ensures reasons + [Reason(ComboSenderMismatchAuth, f)] == Reasons(hits + [ComboSenderMismatchAuth], f)
  {
    WithoutAbsent(hits, ComboSenderMismatchAuth);
    Snoc(hits, ComboSenderMismatchAuth);
    assert Without(hits + [ComboSenderMismatchAuth], ComboSenderMismatchAuth) == Without(hits, ComboSenderMismatchAuth);
  }

  /** Dropping the last element of `hits + [x]` gives back `hits`. */
  lemma Snoc(hits: seq<RuleId>, x: RuleId)
    ensures (hits + [x])[..|hits|] == hits && (hits + [x])[|hits|] == x
  {
  }


  /** The rule catalogue of `describe_rule`; it also describes the reserved
      rule NEW_DOMAIN_LOCAL, which `score` never reports. */
  const Catalogue: map<string, string> := map[
    "SPF_FAIL" := "SPF result is 'fail'.",
    "DKIM_FAIL_OR_NODMARC" := "DKIM failed or missing AND DMARC is not enforced.",
    "FROM_REPLYTO_MISMATCH" := "From domain differs from Reply-To domain (not on allowlist).",
    "LINK_MISMATCH" := "Deceptive link: brand+action keywords in host or anchor/host mismatch.",
    "IDN_OR_SUSPICIOUS_TLD" := "Punycode/IDN or TLD frequently abused by phishers.",
    "DISPLAY_NAME_IMPERSONATION" := "Display name claims a brand while domain is unrelated.",
    "DANGEROUS_ATTACHMENT" := "Attachment types commonly used for credential theft/malware.",
    "URGENCY_BAIT" := "Subject contains urgency/verification/reset bait.",
    "NEW_DOMAIN_LOCAL" := "Domain not seen locally in the last 90d (future: cache-based).",
    "RETURN_PATH_MISMATCH" := "Return-Path domain does not match From domain."]

  /** `d.get(rid, 'No description available')` */
  function CatalogueText(rid: string): string {
    if rid in Catalogue then Catalogue[rid] else "No description available"
  }

  // ---------------------------------------------------------------------------
  // The engine

  class RuleEngine {
    const weights: map<string, int>
    const thresholds: Thresholds
    const allowlists: map<string, seq<string>>

    /** `__init__`: the configuration is stored and never changed afterwards. */
    constructor (weights: map<string, int>, thresholds: Thresholds, allowlists: map<string, seq<string>>)
      ensures this.weights == weights && this.thresholds == thresholds && this.allowlists == allowlists
    {
      this.weights := weights;
      this.thresholds := thresholds;
      this.allowlists := allowlists;
    }

    /** The base rules R1–R8, R10 and the four later rules of `score`, taken
        in rule order with `fired` saying which of them fire: a rule that
        fires adds its weight, its id and its reason. */
    method TallyBaseRules(fired: seq<bool>, f: FeatureBundle) returns (score: int, hits: seq<RuleId>, reasons: seq<string>)
      requires |fired| == |RuleIds|
      ensures hits == Select(RuleIds, fired, |RuleIds|)
      ensures Tallied(weights, f, score, hits, reasons)
    {
      score, hits, reasons := 0, [], [];
      for k := 0 to |RuleIds|
        invariant hits == Select(RuleIds, fired, k)
        invariant Tallied(weights, f, score, hits, reasons)
      {
        assert Select(RuleIds, fired, k + 1) == hits + When(fired[k], RuleIds[k]);
        if fired[k] {
          var id := RuleIds[k];
          TallyStep(weights, f, score, hits, reasons, id);
          score := score + Weight(weights, Id(id));
          hits := hits + [id];
          reasons := reasons + [Reason(id, f)];
        }
      }
    }

    /** The combo rule and the severity cut of `score`, once the base rules
        have been tallied. */
    method Conclude(f: FeatureBundle, score: int, hits: seq<RuleId>, reasons: seq<string>) returns (v: Verdict)
      requires Tallied(weights, f, score, hits, reasons) && ComboSenderMismatchAuth !in hits
      ensures v.hits == WithCombo(hits, f.auth)
      ensures v.reasons == Reasons(v.hits, f)
      ensures v.score == SumWeights(weights, Without(v.hits, ComboSenderMismatchAuth)) +
                         (if ComboSenderMismatchAuth in v.hits then ComboBonus else 0)
      ensures v.severity == SeverityOf(v.score, thresholds)
    {
      var score, hits, reasons := score, hits, reasons;
      ComboTally(weights, f, score, hits, reasons);
      // Combo: a sender mismatch together with an authentication failure
      if ComboFires(hits, f.auth) {
        score := score + ComboBonus;
        hits := hits + [ComboSenderMismatchAuth];
        reasons := reasons + [Reason(ComboSenderMismatchAuth, f)];
      }
      var severity := if score >= thresholds.high then High
                      else if score >= thresholds.review then Review
                      else Pass;
      v := Verdict(score, severity, hits, reasons);
    }

    /** `score`. The hits are the ids of the rules that fire, in rule order,
        with the combo id last when it fires; one reason per hit; the score is
        the configured weight of every hit other than the combo, plus the
        combo's fixed 10 when it is present; the severity is the two-cut rule
        applied to that score. The engine's configuration is not modified. */
    method Score(f: FeatureBundle) returns (v: Verdict)
      ensures v.hits == ExpectedHits(f, AllowedDomains(allowlists))
      ensures |v.reasons| == |v.hits|
      ensures forall k :: 0 <= k < |v.hits| ==> v.reasons[k] == Reason(v.hits[k], f)
      ensures v.score == SumWeights(weights, Without(v.hits, ComboSenderMismatchAuth)) +
                         (if ComboSenderMismatchAuth in v.hits then ComboBonus else 0)
      ensures v.severity == SeverityOf(v.score, thresholds)
    {
      var fired := Fired(f, AllowedDomains(allowlists));
      var score, hits, reasons := TallyBaseRules(fired, f);
      RuleHit(fired, 0);
      v := Conclude(f, score, hits, reasons);
    }

    /** `describe_rule`: the id, its configured weight (0 when the weights
        omit it) and its catalogue text, or "No description available" for an
        id outside the catalogue. */
    function DescribeRule(rid: string): (r: string)
      ensures rid !in Catalogue ==>
        r == rid + " (weight " + IntToDecimal(Weight(weights, rid)) + "): " + "No description available"
      ensures rid !in weights ==> r == rid + " (weight " + IntToDecimal(0) + "): " + CatalogueText(rid)
    {
      rid + " (weight " + IntToDecimal(Weight(weights, rid)) + "): " + CatalogueText(rid)
    }

  }
}
