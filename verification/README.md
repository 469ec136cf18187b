# b9-phish signal extraction and rule scoring, in Dafny

This project models the core of b9-phish, a Gmail phishing triage tool. It covers the path from a message to a verdict:

- **Feature extraction** (`parse.py`, `utils.py`, `features.py`). A header map and a content string become a feature bundle:
  - the SPF, DKIM and DMARC results read loosely from `Authentication-Results`;
  - the From, Reply-To, Return-Path and Sender addresses and their domains;
  - the `http(s)://` URLs of the content, each with its per-URL signals;
  - the sender-mismatch booleans;
  - the subject flags.
- **Rule engine** (`rules.py`). A configured `RuleEngine` runs fourteen base rules in a fixed order over a bundle. Each rule that fires adds its configured weight, its id and a reason. The combo rule comes last and adds 10. Two thresholds then cut the total into High, Review or Pass.
- **VirusTotal post-pass** (`vt_apply.py`). Stored alerts are updated in place from a map of URL detection counts.

The files follow the source modules:

| file | module | models |
|---|---|---|
| `utils.dfy` | `Utils` | `utils.py`, plus the text primitives the other modules share: ASCII case folding, substring search, `split`/`strip`, urllib's scheme/netloc split and the two `https?://` scanners |
| `parse.dfy` | `Parse` | `parse.py`: `headers_to_dict` (a loop that fills a map), the Authentication-Results scan, the addresses |
| `features.dfy` | `Features` | `features.py`: `extract_urls`, `url_heuristics`, `sender_anomaly`, `_extract_common` and its two entry points |
| `rules.dfy` | `Rules` | `rules.py`: the class `RuleEngine`, whose configuration is immutable (`const` fields), the method `Score` and `DescribeRule` |
| `vt_apply.dfy` | `VtApply` | `vt_apply.py`: the class `Alert`, whose hits, score and severity are updated in place, the URL gathering and the update loop |
| `pipeline.dfy` | `Pipeline` | facts about `score` on bundles built by `_extract_common` |
| `samples.dfy` | `Samples` | the worked examples of `tests/test_features.py` and `tests/test_parse.py`, carried through the model. Each sample text is a constant built from pieces that spell out the test's string literal |

## How the model is built

- Two foreign calls are parameters of the model:
  - `email.utils.parseaddr` is `parseAddr: string -> Mailbox`;
  - tldextract's public-suffix lookup is `suffixOf: string -> string`.

  Every property is stated for all such functions.
- The VirusTotal lookup (`vt.check_urls`) is an input map from URL to detection counts.
- `score` is written in the source as fourteen `if` blocks that each append an id, a reason and a weight. The model keeps the rule order in a table, `Rules.RuleIds`. `Rules.Fired` holds each rule's condition as one flag per rule. The method `TallyBaseRules` walks the table with a loop whose invariant ties the running score, hits and reasons to the rules fired so far.
  - The ids are the datatype `Rules.RuleId`, and `Rules.Id` gives the wire string of each one.
  - R7's `for … break` over the attachment extensions fires at most once. Its condition is "the list is non-empty", and its reason names the first extension.
- Each verdict has a specification function: `Rules.ExpectedHits` gives the hits. The score is the sum of the weights of the non-combo hits, plus 10 when the combo id is present. The severity is `Rules.SeverityOf`.
- `FeatureBundle` fields that the source reads with `.get(…, default)` are always present in the model, holding the default value when the dict lacks them.
- A message without headers does not score 0. A missing Authentication-Results header parses as dkim=none and dmarc=none, and that fires DKIM_FAIL_OR_NODMARC (`Pipeline.EmptyMessageHits`).

## Model

| member | source | states |
|---|---|---|
| Utils.DomainFromEmail | src/b9phish/utils.py:21-22 | "" when there is no `@`; otherwise the lower-cased text after the last `@`; the result is lower-case and holds no `@` |
| Utils.ExtractDomains | src/b9phish/utils.py:25-27 | one entry per match of `https?://([^/\s]+)` |
| Utils.ExtractDomainsComplete | src/b9phish/utils.py:25-27 | no match is missed: every position where the pattern matches lies inside the match of some entry |
| Utils.ExtractDomainsKeepsEach | src/b9phish/utils.py:25-27 | a match at the start of the text or after whitespace gives its own entry, the lower-cased host that follows the scheme there |
| Utils.ExtractDomainsEntries | src/b9phish/utils.py:25-27 | one entry per `https?://` match, in order; each is the lower-cased, non-empty run after `//` with no `/` and no whitespace |
| Utils.HasPunycode | src/b9phish/utils.py:30-31 | true iff `xn--` occurs in the host, case-sensitively |
| Utils.SuspiciousTld | src/b9phish/utils.py:34-36 | false when the host has no public suffix; otherwise true iff the last label of the suffix is one of the twelve listed TLDs |
| Utils.Netloc | src/b9phish/utils.py:41 | the netloc of a clean URL holds no `/`, `?` or `#`; a non-empty one is the text after a `//` up to the first of them |
| Utils.UrlSplit | src/b9phish/utils.py:41 | the model's only raise condition (None) is a netloc with an unmatched `[` or `]`; otherwise the netloc is `Netloc(url)`, the scheme is lower-case with no `:`, and it is "" when the URL has no scheme |
| Utils.SplitHost | src/b9phish/utils.py:39-43 | the lower-cased netloc up to its first `:`; never holds `:` or an upper-case letter; "" when urllib raises; user information is kept |
| Utils.Matches | src/b9phish/features.py:66-67 | the `re.findall` scan: every match is one the pattern makes at its start, and the matches are disjoint and in text order |
| Utils.MatchesComplete | src/b9phish/features.py:66-67 | the scan misses no match: every position where the pattern matches lies inside a returned match |
| Utils.MatchesFindAt | src/b9phish/features.py:66-67 | a match at the start of the scan or after whitespace is returned exactly as the pattern makes it there |
| Utils.MatchesKeepBoth | src/b9phish/features.py:66-67 | two such matches are both returned, in text order, even when their texts are equal |
| Utils.MatchNeedsH | src/b9phish/features.py:66 | no match starts at a character other than `h`/`H` |
| Utils.MatchesSkip | src/b9phish/features.py:66-67 | no match starts in a stretch without `h`/`H` |
| Parse.HeadersToDict | src/b9phish/parse.py:6-13 | a dict comes back unchanged; from a list, the keys are exactly the records' names (missing ones read as ""), and each key holds the value of the last record with that name |
| Parse.PickFrom | src/b9phish/parse.py:22-24 | the result is always one of pass, fail, softfail, neutral, none, policy |
| Parse.PickIsFirstMatch | src/b9phish/parse.py:22-24 | the result comes from the first position where `token=` is followed by one of the six results |
| Parse.PickDefaultsToNone | src/b9phish/parse.py:22-24 | with no such position the result is "none" |
| Parse.ParseAuthenticationResults | src/b9phish/parse.py:16-26 | an empty header gives none/none/none; each of spf, dkim, dmarc is one of the six results |
| Parse.MailboxAddress | src/b9phish/parse.py:30-36 | name and email are those of parseaddr; the domain is the lower-cased text after the last `@` of the email, or "" |
| Parse.ReturnPathAddress | src/b9phish/parse.py:41-49 | empty name; the email is the header stripped of `<` and `>` at both ends; the domain is that of the stripped address, or "" when the header has no `@` |
| Parse.ExtractAddresses | src/b9phish/parse.py:29-52 | the four addresses and the raw Message-ID ("" when absent); every domain is lower-case |
| Features.ExtractUrls | src/b9phish/features.py:65-67 | one URL per match, each the text of its match; each starts with `http://` or `https://` in any case and holds no whitespace, `)`, `>` or `"` |
| Features.ExtractUrlsComplete | src/b9phish/features.py:65-67 | no URL is missed: every position where the pattern matches lies inside the match of some extracted URL |
| Features.ExtractUrlsKeepsEach | src/b9phish/features.py:65-67 | a URL at the start of the text or after whitespace is extracted as it stands, from that position |
| Features.ExtractUrlsKeepsRepeats | src/b9phish/features.py:65-67 | two such URLs are both extracted, in order, so a repeated URL comes out once per occurrence |
| Features.ExtractUrlsInTextOrder | src/b9phish/features.py:65-67 | the URLs are disjoint stretches of the text, in text order |
| Features.MatchIsUrlShaped | src/b9phish/features.py:66 | the text of a match has the http(s) prefix and only run characters |
| Features.PortOf | src/b9phish/features.py:73 | "" without a `:`; otherwise the netloc is its head, a `:` and the port |
| Features.ParsedSignals | src/b9phish/features.py:70-85 | odd_protocol iff scheme is data, file or javascript; non_std_port iff the netloc has a `:` and a port other than "", "80", "443"; long_subdomain iff the host has at least three dots; shortener iff the host is a listed shortener; punycode, suspicious_tld, ip_literal and deceptive_keywords are `HasPunycode`, `SuspiciousTld`, `IsDottedQuad` and `DeceptiveKeywords` of split_host's host |
| Features.IsDottedQuad | src/b9phish/features.py:79 | ip_literal: four `.`-separated groups of one to three digits; such a host has exactly three dots and only digits and dots |
| Features.DottedQuadOf | src/b9phish/features.py:79 | any four groups of one to three digits joined by dots match |
| Features.DottedQuadNoRange | src/b9phish/features.py:79 | no octet range check: `999.1.1.1` matches |
| Features.DottedQuadNeedsFour | src/b9phish/features.py:79 | `1.2.3`, with three groups, does not match |
| Features.DeceptiveKeywords | src/b9phish/features.py:81 | a match needs a brand and an action word, both inside the lower-cased host |
| Features.UrlHeuristicsAsWritten | src/b9phish/features.py:70-85 | raises (None) exactly when urllib cannot split the URL |
| Features.UrlHeuristics | src/b9phish/features.py:70-85 | the intended total version: all-false signals for an unsplittable URL, the as-written signals otherwise |
| Features.BracketUrlBreaksExtraction | src/b9phish/features.py:36-37 | `http://[x` is extracted as a URL, and url_heuristics raises on it |
| Features.UnclosedBracketUnsplittable | src/b9phish/utils.py:41 | an `http://` URL whose netloc opens a `[` and never closes it cannot be split |
| Features.SchemeNetloc | src/b9phish/utils.py:41 | for a URL starting `http://` or `https://` in any case, the scheme is `http` or `https` and the netloc is the text after `//` up to the first `/`, `?` or `#`; None exactly when that netloc has an unmatched bracket |
| Features.ExtractedUrlScheme | src/b9phish/features.py:83 | a URL with an http(s) prefix has scheme http or https |
| Features.ExtractedUrlIsNotOddProtocol | src/b9phish/features.py:83 | odd_protocol is false for every extracted URL |
| Features.MessageIdDomain | src/b9phish/features.py:94 | "" without `@`; otherwise the text after the last `@` with `>` stripped at both ends, so it holds no `@` and neither end is `>` |
| Features.SenderAnomaly | src/b9phish/features.py:88-103 | from_reply and returnpath mismatch iff both domains are non-empty and differ; messageid_mismatch iff the From domain and the Message-ID domain are non-empty and the first does not occur in the second (so only with an `@`); display_name_impersonation iff name and domain are non-empty and the lower-cased name does not occur in the lower-cased domain |
| Features.ExtractCommon | src/b9phish/features.py:33-62 | the URLs are `ExtractUrls` of the content, with one signal per URL, in order, from the corrected `UrlHeuristics`; auth is the parse of Authentication-Results; the addresses are `ExtractAddresses`; the sender signals are `SenderAnomaly` of them; the flags are `UrgentSubject` and `UnicodeAbuse` of the Subject; no dangerous extensions; the indicator domains are exactly the three address domains and the content domains |
| Features.UrlSignals | src/b9phish/features.py:37 | one signal per URL, the corrected heuristics of that URL |
| Features.SignalsAgree | src/b9phish/features.py:37 | where the as-written list exists, it equals the corrected one |
| Features.ExtractedUrlNeedsNoCleanup | src/b9phish/features.py:65-67 | an extracted URL is non-empty, starts above the space character and holds no tab, CR or LF, so urlsplit's input clean-up leaves it unchanged |
| Features.UrgentSubject | src/b9phish/features.py:41 | urgency_bait: a listed phrase, ignoring case, between word boundaries; it implies that the lower-cased subject contains a listed phrase |
| Features.UrgentWholeWord | src/b9phish/features.py:41 | a listed phrase in any letter case, with no word character right before or after it, makes the subject urgent |
| Features.UrgentExample | src/b9phish/features.py:41 | `Urgent: verify immediately` is urgent |
| Features.UrgentlyNotUrgent | src/b9phish/features.py:41 | `urgently` is not: the phrase must end at a word boundary |
| Features.UnicodeAbuse | src/b9phish/features.py:42 | unicode_abuse iff the subject holds U+202E, U+200B, U+200C or U+200D |
| Features.UrlSignalsAsWritten | src/b9phish/features.py:37 | the signal list as written: the extraction raises (None) exactly when some URL cannot be split; otherwise one signal per URL |
| Features.AsWrittenSignalsCorrected | src/b9phish/features.py:37 | where the as-written list exists, each entry is the corrected signal of its URL |
| Features.ExtractCommonAgrees | src/b9phish/features.py:33-62 | where the as-written extraction does not raise, `ExtractCommon` holds exactly its signals |
| Features.BracketUrlAbortsExtraction | src/b9phish/features.py:36-37 | on content `http://[x` the as-written extraction raises |
| Features.FromGmail | src/b9phish/features.py:19-23 | the bundle is `ExtractCommon` of the headers and `Content`: with headers_only only the snippet is scanned, for URLs and for domains; otherwise the text, or the snippet when the text is empty |
| Features.FromEml | src/b9phish/features.py:26-30 | the same content selection; the same bundle as FromGmail |
| Features.Content | src/b9phish/features.py:19-30 | the content handed to _extract_common: the snippet under headers_only, otherwise the text, or the snippet when the text is empty |
| Rules.Weight | src/b9phish/rules.py:16-17 | the configured weight, 0 for an id the weights omit |
| Rules.SeverityOf | src/b9phish/rules.py:181-185 | High iff score ≥ high; Review iff score < high and score ≥ review; Pass otherwise |
| Rules.SeverityMonotone | src/b9phish/rules.py:181-185 | for fixed thresholds a larger score never gives a lower tier |
| Rules.Fired | src/b9phish/rules.py:39-167 | one flag per base rule, in the order of `RuleIds`, each flag being that rule's condition as written in rules.py; `Rules.BaseRuleHit` ties each id to its flag; R3, R6, R7, the combo and the port rule have their own lemmas (`FromReplyToHit`, `DisplayNameHit`, `DangerousAttachmentHit`, `ComboHit`, `Pipeline.PortProtocolFromHostOnly`) |
| Rules.SelectMembers | src/b9phish/rules.py:39-167 | an id is a base hit iff it sits at a position whose rule fired |
| Rules.RuleHit | src/b9phish/rules.py:39-167 | each base rule is hit iff its flag is set; the combo id is never a base hit |
| Rules.SelectDistinct | src/b9phish/rules.py:39-167 | the base hits have no duplicates |
| Rules.HitsDistinct | src/b9phish/rules.py:39-180 | no id occurs twice in the hits |
| Rules.ComboHit | src/b9phish/rules.py:168-180 | the combo fires iff R3, Return-Path or Message-ID mismatch fired and spf ∈ {fail, softfail} or dkim = fail or dmarc ∈ {none, reject}; when present it is the last hit |
| Rules.ComboWithoutReject | src/b9phish/rules.py:173-176 | for a parsed DMARC value the `reject` alternative can never hold |
| Rules.BaseRuleHit | src/b9phish/rules.py:39-167 | a base rule's id is among the hits iff its condition holds on the bundle |
| Rules.AllowlistOnlyExemptsReplyTo | src/b9phish/rules.py:53-58 | the allowlist only matters when it lists the Reply-To domain |
| Rules.FromReplyToHit | src/b9phish/rules.py:53-58 | FROM_REPLYTO_MISMATCH iff both domains are non-empty, differ, and the Reply-To domain is not listed (case-sensitively) |
| Rules.DisplayNameHit | src/b9phish/rules.py:74-89 | DISPLAY_NAME_IMPERSONATION iff there are URL signals, a name and a domain, the lower-cased name names a brand and the lower-cased domain names none |
| Rules.DangerousAttachmentHit | src/b9phish/rules.py:91-97 | DANGEROUS_ATTACHMENT iff some dangerous extension is present, and only once |
| Rules.OnlyDkimFires | src/b9phish/rules.py:39-180 | with all-"none" auth and nothing else, the hits are exactly DKIM_FAIL_OR_NODMARC |
| Rules.SelectOnly | src/b9phish/rules.py:39-167 | with exactly one rule fired, the hits are that rule's id |
| Rules.Reasons | src/b9phish/rules.py:39-180 | one reason per hit, the reason of that hit |
| Rules.ReasonMentions | src/b9phish/rules.py:58-96 | the FROM_REPLYTO_MISMATCH reason names both domains; the DANGEROUS_ATTACHMENT reason names the first dangerous extension |
| Rules.MismatchReasonNames | src/b9phish/rules.py:58 | the text `From domain (fd) differs from Reply-To (rd).` contains `fd` and `rd` |
| Rules.SumWeightsNonNegative | src/b9phish/rules.py:16-17 | with no negative weight configured, a weight sum is never negative |
| Rules.WithoutAbsent | src/b9phish/rules.py:168-180 | removing an absent id changes nothing |
| Rules.TallyStep | src/b9phish/rules.py:39-167 | recording one more hit keeps score, hits and reasons in step |
| Rules.ComboTally | src/b9phish/rules.py:168-180 | appending the combo id keeps the reasons in step and adds no configured weight |
| Rules.RuleEngine.constructor | src/b9phish/rules.py:6-14 | stores the configuration; the fields are `const`, so `score` and `describe_rule` can never change it |
| Rules.RuleEngine.TallyBaseRules | src/b9phish/rules.py:39-167 | the hits are the fired rules in rule order; the score is their weight sum; one reason per hit |
| Rules.RuleEngine.Conclude | src/b9phish/rules.py:168-191 | adds the combo id, 10 and its reason exactly when the combo fires; severity by the two cuts |
| Rules.RuleEngine.Score | src/b9phish/rules.py:29-191 | hits = ExpectedHits; equal-length reasons, each that of its hit; score = weights of the non-combo hits + 10 iff the combo is present; severity = SeverityOf(score) |
| Rules.RuleEngine.DescribeRule | src/b9phish/rules.py:193-207 | an id outside the catalogue gets "No description available"; an id the weights omit shows weight 0 |
| VtApply.LoadThresholds | src/b9phish/vt_apply.py:8-11 | 60 and 35 for a missing high or review key, the configured values otherwise |
| VtApply.AllUrls | src/b9phish/vt_apply.py:61-64 | every URL of every alert is gathered |
| VtApply.Dedup | src/b9phish/vt_apply.py:65 | no duplicates, and exactly the input's elements |
| VtApply.DedupKeepsFirst | src/b9phish/vt_apply.py:65 | elements come out in the order of their first occurrence |
| VtApply.DedupOfDistinct | src/b9phish/vt_apply.py:65 | a list without duplicates is unchanged |
| VtApply.FirstIndexPrefix | src/b9phish/vt_apply.py:65 | a first occurrence inside a prefix is the first occurrence overall |
| VtApply.GatherUrls | src/b9phish/vt_apply.py:61-65 | the URL list is the de-duplicated concatenation of the alerts' URLs |
| VtApply.UrlFlagged | src/b9phish/vt_apply.py:74-76 | a URL missing from the results map is never flagged |
| VtApply.IsFlagged | src/b9phish/vt_apply.py:71-78 | flagged iff some URL has malicious > 0 or suspicious > 0 |
| VtApply.AddOnce | src/b9phish/vt_apply.py:80-81 | the hit is present afterwards, added only when absent; other ids keep their counts |
| VtApply.VtUpdate | src/b9phish/vt_apply.py:80-90 | the VT hit is present and the earlier hits are kept as a prefix; the list grows by one exactly when the hit was absent; the score rises by the weight; the severity is `SeverityOf` the new score |
| VtApply.VtUpdateEffect | src/b9phish/vt_apply.py:79-90 | the VT hit occurs exactly once; the score rises by exactly the weight; the severity is the engine's two-cut rule on the new score |
| VtApply.VtUpdateTwice | src/b9phish/vt_apply.py:79-90 | a second run adds no second hit but adds the weight again |
| VtApply.DefaultWeightFlags | src/b9phish/vt_apply.py:55 | with the default weight 45 and the default cuts 60/35, a flagged alert with a non-negative score is never Pass, and it is High iff it had at least 15 |
| VtApply.VtUpdateNeverLowers | src/b9phish/vt_apply.py:84-90 | with a non-negative weight a consistent alert never drops a tier |
| VtApply.CountFlagged | src/b9phish/vt_apply.py:91 | the count of flagged alerts is at most the number of alerts |
| VtApply.UpdateAlert | src/b9phish/vt_apply.py:70-91 | a flagged alert gets VtUpdate; any other alert is left as it was |
| VtApply.ApplyVt | src/b9phish/vt_apply.py:68-91 | each flagged alert gets VtUpdate, every other alert is left unchanged, and `changed` is the number of flagged alerts |
| Pipeline.NoDangerousAttachment | src/b9phish/features.py:46 | DANGEROUS_ATTACHMENT never fires on an extracted bundle |
| Pipeline.NoRejectFromExtractor | src/b9phish/rules.py:173-176 | an extracted DMARC result is never "reject" |
| Pipeline.UpperCaseAllowlistIgnored | src/b9phish/rules.py:55 | an allowlist whose entries all have an upper-case letter changes no verdict on an extracted bundle |
| Pipeline.PortProtocolFromHostOnly | src/b9phish/rules.py:155-162 | on an extracted bundle PORT_PROTOCOL_ODDITY fires iff some URL has an IP-literal host or a non-standard port |
| Pipeline.EmptyMessageHits | src/b9phish/features.py:33-62 | a message with no headers and no content gets exactly DKIM_FAIL_OR_NODMARC, scored at that rule's weight |
| Pipeline.EmptyBundle | src/b9phish/features.py:33-62 | the empty message's bundle has auth none/none/none, no From domain, no URL, no subject flag and no Message-ID mismatch |
| Samples.UrlMatchAt | src/b9phish/features.py:66 | at a lower-case `https://` followed by URL characters and then whitespace or the end, the pattern matches exactly that stretch |
| Samples.TwoUrls | src/b9phish/features.py:65-67 | a text of the form text, URL, whitespace and text, URL, then whitespace or the end, with no `h` outside the URLs, yields exactly those two URLs |
| Samples.HttpsHost | src/b9phish/utils.py:39-43 | a lower-case `https://`, a host of lower-case letters, digits, `.` and `-`, then a path or the end: scheme `https`, netloc and split_host both the host |
| Samples.FeatureTextUrls | tests/test_features.py:4-6 | the test's body text yields its two URLs, in order |
| Samples.UrlExtractAndHeuristics | tests/test_features.py:3-8 | two URLs; with the public suffix of `login.example.zip` read as `zip`, the first is flagged suspicious_tld and the second deceptive_keywords |
| Samples.ParseAuthResultsBasic | tests/test_parse.py:4-9 | the test's header parses as spf fail, dkim none, dmarc none |

## Left out

- I/O, configuration loading and the network: `RuleEngine.from_yaml`, the file open in `_load_thresholds`, the JSON and CSV writes of `vt_apply.py`, and the VirusTotal client `vt.py`. The configuration, the alert list and the lookup results are in-memory inputs.
- `parse.extract_text_from_payload`: MIME walking and HTML-to-text through BeautifulSoup/lxml. The content string is an input.
- `email.utils.parseaddr` and tldextract are not part of this model; they are the parameters `parseAddr` and `suffixOf`.
- Case handling in the model is ASCII-only: the model folds only `A`–`Z`, where Python's `str.lower()` and `re.I` also fold non-ASCII letters. The model's `\s` is the ASCII whitespace set plus the separators `str.isspace` accepts.
- `Features.UrgentSubject`: the model's `\w` (for the `\b` of src/b9phish/features.py:41) is ASCII letters, digits and `_`, where Python's is Unicode. A subject such as `éurgent` has no word boundary before `u` in Python but has one in the model.
- `Features.IsDottedQuad`: the model's `\d` (src/b9phish/features.py:79) is `0`–`9`, where Python's also accepts other decimal digits, such as Arabic-Indic ones. Python's `$` also matches before a final newline; `split_host` never returns a host ending in one for an extracted URL.
- `Features.ExtractCommon`: it and the entry points `FromGmail` and `FromEml` build the bundle with the corrected `UrlHeuristics`. As written, src/b9phish/features.py:37 raises on content holding a URL urllib cannot split. That as-written behaviour is `Features.UrlSignalsAsWritten` (`Features.BracketUrlAbortsExtraction` exhibits it), and `Features.ExtractCommonAgrees` shows that the two agree whenever the source does not raise.
- `Utils.UrlSplit` models only the part of `urllib.parse.urlsplit` the source uses: the scheme rule, the `//` netloc and the unmatched-bracket `ValueError`. The port range check belongs to the `.port` attribute, which the source never reads.
- Utils.Netloc: urlsplit's input clean-up is not modelled. Python strips leading C0 control characters and spaces and deletes tab, CR and LF anywhere before splitting. Its other `ValueError`s are not modelled either: the NFKC check of `_checknetloc` on non-ASCII netlocs, and, from Python 3.11.4, the `_check_bracketed_netloc` check, which raises for a bracketed host that is not an IP address (`http://[x]`). The clean-up is the identity on every extracted URL (`Features.ExtractedUrlNeedsNoCleanup`), so it can matter only for URL signals written into a bundle by hand. The two extra errors are absent from the model, which treats such URLs as splittable.
- The regular expressions are hand-written scanners for the patterns used. The model does not claim regex-engine equivalence beyond the contracts stated.
- `indicators.domains` is a set. The source builds it through a Python `set`, so its order is arbitrary.
- `thresholds` is a record with both cuts. The `KeyError` that `score` raises when the configuration lacks `high` or `review` is not modelled, and neither is the `int()` conversion of weights and alert scores.
- The alert dicts in `vt_apply.py` hold only what the post-pass reads or writes: the URLs, the hits, the score and the severity. A missing `rule_hits` list or `score` key is modelled as the empty list or 0 it defaults to. `VtApply.ApplyVt` requires the alert objects to be distinct, as `json.load` makes them.
- `Rules.RuleEngine.DescribeRule`: the weight is printed through `IntToDecimal`. Python's `str()` of a non-integer weight is not modelled.

## Findings

| source | as written | input that shows it | evidently intended | confidence | as-written member | corrected member |
|---|---|---|---|---|---|---|
| src/b9phish/features.py:72 | `url_heuristics` calls `urlparse` outside any `try`, although `split_host` (src/b9phish/utils.py:39-43) guards the same call. The `[^\s)>"]+` run of `extract_urls` admits `[`, so an extracted URL with an unmatched bracket makes `urlparse` raise `ValueError` and aborts the whole extraction. | content `http://[x` | a URL urllib cannot split yields all-false signals, as `split_host` (src/b9phish/utils.py:40-43) already does for the same call | high (not executed) | Features.UrlHeuristicsAsWritten, Features.UrlSignalsAsWritten, Features.BracketUrlBreaksExtraction, Features.BracketUrlAbortsExtraction | Features.UrlHeuristics |
