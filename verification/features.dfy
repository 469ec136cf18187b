// src/b9phish/features.py: URL discovery, per-URL heuristics, sender
// anomalies, subject flags and the feature bundle handed to the rule engine.
module Features {
  import opened Utils
  import opened Parse

  const DangerousExt: set<string> :=
    {".html", ".htm", ".shtml", ".lnk", ".iso", ".img", ".docm", ".xlsm", ".pptm",
     ".js", ".vbs", ".cmd", ".bat", ".scr", ".ps1", ".wsf", ".jar", ".rar", ".7z", ".zip"}

  const ShortenerHosts: set<string> :=
    {"bit.ly", "t.co", "lnkd.in", "lnk.bio", "tinyurl.com", "goo.gl",
     "rebrand.ly", "bl.ink", "buff.ly", "shorturl.at", "s.id"}

  // ---------------------------------------------------------------------------
  // extract_urls

  /** `u` begins with `http://` or `https://`, in any letter case. */
  predicate HasHttpScheme(u: string) {
    (|u| >= 7 && Lower(u[..7]) == "http://") || (|u| >= 8 && Lower(u[..8]) == "https://")
  }

  /** extract_urls: every match of `https?://[^\s)>"]+` (case-insensitive), in
      order of occurrence and with repetitions kept. Each URL is the text of a
      match, starts with an http(s) scheme and holds no whitespace, `)`, `>` or
      `"`. */
  function ExtractUrls(text: string): (urls: seq<string>)
    ensures |urls| == |Matches(text, 0, UrlRun)|
    ensures forall m :: 0 <= m < |urls| ==>
      urls[m] == text[Matches(text, 0, UrlRun)[m].start..Matches(text, 0, UrlRun)[m].end] && UrlShaped(urls[m])
  {
    var ms := Matches(text, 0, UrlRun);
    MatchesAreUrlShaped(text);
    seq(|ms|, m requires 0 <= m < |ms| => text[ms[m].start..ms[m].end])
  }

  /** What a URL returned by extract_urls looks like. */
  predicate UrlShaped(u: string) {
    HasHttpScheme(u) && forall c :: c in u ==> !IsSpace(c) && c != ')' && c != '>' && c != '"'
  }

  lemma MatchesAreUrlShaped(text: string)
    ensures forall m :: 0 <= m < |Matches(text, 0, UrlRun)| ==>
      var sp := Matches(text, 0, UrlRun)[m]; UrlShaped(text[sp.start..sp.end])
  {
    var ms := Matches(text, 0, UrlRun);
    forall m | 0 <= m < |ms| ensures UrlShaped(text[ms[m].start..ms[m].end]) {
      MatchIsUrlShaped(text, ms[m]);
    }
  }

  lemma MatchIsUrlShaped(text: string, sp: Span)
    requires IsMatch(text, sp, UrlRun)
    ensures UrlShaped(text[sp.start..sp.end])
  {
    var u := text[sp.start..sp.end];
    var n := sp.body - sp.start;
    assert u[..n] == text[sp.start..sp.body];
    forall c | c in u ensures !IsSpace(c) && c != ')' && c != '>' && c != '"' {
      var q :| 0 <= q < |u| && u[q] == c;
      if q >= n {
        assert InRun(text[sp.start + q], UrlRun);
      } else {
        assert LowerChar(c) == (if n == 8 then "https://" else "http://")[q];
      }
    }
  }

  /** The matches are disjoint and in text order, so the URLs come out in order
      of occurrence. */
  lemma ExtractUrlsInTextOrder(text: string, m: nat, m': nat)
    requires m < m' < |ExtractUrls(text)|
    ensures Matches(text, 0, UrlRun)[m].end <= Matches(text, 0, UrlRun)[m'].start
  {
  }

  /** extract_urls misses no match: wherever `https?://` and a non-empty run
      begin, some extracted URL is the text of a match covering that
      position. */
  lemma ExtractUrlsComplete(text: string, p: nat)
    requires p < |text| && MatchAt(text, p, UrlRun).Some?
    ensures exists m :: (0 <= m < |ExtractUrls(text)| &&
      var sp := Matches(text, 0, UrlRun)[m];
      sp.start <= p < sp.end && ExtractUrls(text)[m] == text[sp.start..sp.end])
  {
    var m := MatchesComplete(text, 0, UrlRun, p);
    assert m < |ExtractUrls(text)|;
  }

  /** A URL at the start of the text or after whitespace is extracted as it
      stands, from that very position. */
  lemma ExtractUrlsKeepsEach(text: string, p: nat)
    requires p < |text| && MatchAt(text, p, UrlRun).Some?
    requires p == 0 || IsSpace(text[p - 1])
    ensures exists m :: (0 <= m < |ExtractUrls(text)| && Matches(text, 0, UrlRun)[m].start == p &&
      ExtractUrls(text)[m] == text[p..MatchAt(text, p, UrlRun).value.end])
  {
    var sp := MatchAt(text, p, UrlRun).value;
    var m := MatchesFindAt(text, 0, UrlRun, p);
    assert ExtractUrls(text)[m] == text[p..sp.end];
  }

  /** Repeats are kept: the same URL written twice, each time at the start or
      after whitespace, is extracted twice, in that order. */
  lemma ExtractUrlsKeepsRepeats(text: string, p: nat, p': nat)
    requires p < p' < |text| && MatchAt(text, p, UrlRun).Some? && MatchAt(text, p', UrlRun).Some?
    requires p == 0 || IsSpace(text[p - 1])
    requires IsSpace(text[p' - 1])
    ensures exists m, m' :: (0 <= m < m' < |ExtractUrls(text)| &&
      ExtractUrls(text)[m] == text[p..MatchAt(text, p, UrlRun).value.end] &&
      ExtractUrls(text)[m'] == text[p'..MatchAt(text, p', UrlRun).value.end])
  {
    MatchesKeepBoth(text, UrlRun, p, p');
    var ms := Matches(text, 0, UrlRun);
    var m, m' :| 0 <= m < m' < |ms| && ms[m] == MatchAt(text, p, UrlRun).value && ms[m'] == MatchAt(text, p', UrlRun).value;
    var urls := ExtractUrls(text);
    assert urls[m] == text[ms[m].start..ms[m].end];
    assert urls[m'] == text[ms[m'].start..ms[m'].end];
  }

  // ---------------------------------------------------------------------------
  // url_heuristics

  datatype UrlSignal = UrlSignal(
    url: string,
    punycode: bool,
    suspiciousTld: bool,
    ipLiteral: bool,
    longSubdomain: bool,
    deceptiveKeywords: bool,
    shortener: bool,
    oddProtocol: bool,
    nonStdPort: bool)

  /** The port text: everything after the first `:` of the netloc, or "". */
  function PortOf(netloc: string): (port: string)
    ensures ':' !in netloc ==> port == ""
    ensures ':' in netloc ==> netloc == TakeUntil(netloc, {':'}) + ":" + port
  {
    var head := TakeUntil(netloc, {':'});
    if |head| == |netloc| then "" else netloc[|head| + 1..]
  }

  /** `^\d{1,3}(\.\d{1,3}){3}$`: four dot-separated groups of one to three
      digits, with no range check on their values. */
  predicate IsDottedQuad(host: string)
    ensures IsDottedQuad(host) ==> multiset(host)['.'] == 3
    ensures IsDottedQuad(host) ==> forall q :: 0 <= q < |host| ==> IsDigit(host[q]) || host[q] == '.'
  {
    var groups := SplitOn(host, '.');
    SplitOnCount(host, '.');
    if |groups| == 4 && DigitGroups(groups) then DigitsOrDots(host, groups); true else false
  }

  /** Every piece is one to three digits. */
  predicate DigitGroups(groups: seq<string>) {
    forall g :: 0 <= g < |groups| ==> 1 <= |groups[g]| <= 3 && forall k :: 0 <= k < |groups[g]| ==> IsDigit(groups[g][k])
  }

  lemma DigitsOrDots(host: string, groups: seq<string>)
    requires groups == SplitOn(host, '.') && DigitGroups(groups)
    ensures forall q :: 0 <= q < |host| ==> IsDigit(host[q]) || host[q] == '.'
  {
    forall q | 0 <= q < |host| && host[q] != '.' ensures IsDigit(host[q]) {
      SplitOnKeeps(host, '.', q);
      var g :| 0 <= g < |groups| && host[q] in groups[g];
      var k :| 0 <= k < |groups[g]| && groups[g][k] == host[q];
    }
  }

  /** Four groups of one to three digits, joined by dots, make an IP
      literal whatever their values: there is no 0-255 range check. */
  lemma DottedQuadOf(a: string, b: string, c: string, d: string)
    requires DigitGroups([a, b, c, d])
    ensures IsDottedQuad(a + "." + (b + "." + (c + "." + d)))
  {
    var gs := [a, b, c, d];
    assert gs[0] == a && gs[1] == b && gs[2] == c && gs[3] == d;
    NoDot(a);
    NoDot(b);
    NoDot(c);
    NoDot(d);
    SplitFour(a, b, c, d);
  }

  lemma NoDot(x: string)
    requires forall k :: 0 <= k < |x| ==> IsDigit(x[k])
    ensures '.' !in x
  {
  }

  lemma SplitFour(a: string, b: string, c: string, d: string)
    requires '.' !in a && '.' !in b && '.' !in c && '.' !in d
    ensures SplitOn(a + "." + (b + "." + (c + "." + d)), '.') == [a, b, c, d]
  {
    SplitThree(b, c, d);
    SplitOnLead(a, '.', b + "." + (c + "." + d));
  }

  lemma SplitThree(b: string, c: string, d: string)
    requires '.' !in b && '.' !in c && '.' !in d
    ensures SplitOn(b + "." + (c + "." + d), '.') == [b, c, d]
  {
    SplitOnWhole(d, '.');
    SplitOnLead(c, '.', d);
    SplitOnLead(b, '.', c + "." + d);
  }

  /** `999.1.1.1` is an IP literal. */
  lemma DottedQuadNoRange()
    ensures IsDottedQuad("999.1.1.1")
  {
    assert DigitGroups(["999", "1", "1", "1"]);
    DottedQuadOf("999", "1", "1", "1");
    JoinNoRange();
  }

  lemma JoinNoRange()
    ensures "999" + "." + ("1" + "." + ("1" + "." + "1")) == "999.1.1.1"
  {
  }

  /** `1.2.3`, with three groups, is not. */
  lemma DottedQuadNeedsFour()
    ensures !IsDottedQuad("1.2.3")
  {
    SplitOnWhole("3", '.');
    SplitOnLead("2", '.', "3");
    SplitOnLead("1", '.', "2.3");
    assert "1" + "." + "2.3" == "1.2.3" && "2" + "." + "3" == "2.3";
  }

  const Brands: seq<string> := ["microsoft", "google", "amazon", "okta", "docusign"]
  const Actions: seq<string> := ["support", "secure", "verify", "login", "authorize"]

  /** A brand at `i`, then `gap` (at most 20) characters other than `/`, then an
      action word. */
  predicate BrandThenAction(h: string, i: nat, gap: nat) {
    gap <= 20 &&
    exists b, a :: b in Brands && a in Actions && OccursAt(h, b, i) &&
                   OccursAt(h, a, i + |b| + gap) && '/' !in h[i + |b|..i + |b| + gap]
  }

  /** The `deceptive_keywords` search, case-insensitive. */
  predicate DeceptiveKeywords(host: string)
    ensures DeceptiveKeywords(host) ==>
      (exists b :: b in Brands && Contains(Lower(host), b)) && (exists a :: a in Actions && Contains(Lower(host), a))
  {
    exists i, gap :: 0 <= i <= |host| && 0 <= gap <= 20 && BrandThenAction(Lower(host), i, gap)
  }

  /** The signals of a URL that urllib could split. */
  function ParsedSignals(url: string, parts: UrlParts, suffixOf: string -> string): (s: UrlSignal)
    requires UrlSplit(url) == Some(parts)
    ensures s.url == url
    ensures s.oddProtocol <==> parts.scheme in {"data", "file", "javascript"}
    ensures s.nonStdPort <==> ':' in parts.netloc && PortOf(parts.netloc) !in {"", "80", "443"}
    ensures s.longSubdomain <==> multiset(SplitHost(url))['.'] >= 3
    ensures s.shortener <==> SplitHost(url) in ShortenerHosts
    ensures s.punycode == HasPunycode(SplitHost(url))
    ensures s.suspiciousTld == SuspiciousTld(SplitHost(url), suffixOf)
    ensures s.ipLiteral == IsDottedQuad(SplitHost(url))
    ensures s.deceptiveKeywords == DeceptiveKeywords(SplitHost(url))
  {
    var host := SplitHost(url);
    var port := PortOf(parts.netloc);
    UrlSignal(
      url,
      HasPunycode(host),
      SuspiciousTld(host, suffixOf),
      IsDottedQuad(host),
      multiset(host)['.'] >= 3,
      DeceptiveKeywords(host),
      host in ShortenerHosts,
      parts.scheme in {"data", "file", "javascript"},
      port != "" && port != "80" && port != "443")
  }

  /** url_heuristics AS WRITTEN: its own urlparse call is outside any `try`,
      so a URL whose netloc has an unmatched bracket raises (None here) and the
      whole extraction fails. */
  function UrlHeuristicsAsWritten(url: string, suffixOf: string -> string): (s: Option<UrlSignal>)
    ensures s.None? <==> UrlSplit(url).None?
  {
    match UrlSplit(url)
    case None => None
    case Some(parts) => Some(ParsedSignals(url, parts, suffixOf))
  }

  /** url_heuristics corrected: a URL urllib cannot split yields all-false
      signals instead of an exception, the way split_host already turns the
      same urlparse failure into "". */
  function UrlHeuristics(url: string, suffixOf: string -> string): (s: UrlSignal)
    ensures s.url == url
    ensures UrlSplit(url).None? ==>
      s == UrlSignal(url, false, false, false, false, false, false, false, false)
    ensures UrlSplit(url).Some? ==> UrlHeuristicsAsWritten(url, suffixOf) == Some(s)
  {
    match UrlSplit(url)
    case None => UrlSignal(url, false, false, false, false, false, false, false, false)
    case Some(parts) => ParsedSignals(url, parts, suffixOf)
  }

  /** The text extract_urls returns can make url_heuristics raise: an
      unmatched `[` is allowed inside a URL match. */
  lemma BracketUrlBreaksExtraction(suffixOf: string -> string)
    ensures ExtractUrls("http://[x") == ["http://[x"]
    ensures UrlHeuristicsAsWritten("http://[x", suffixOf).None?
    ensures UrlHeuristics("http://[x", suffixOf) == UrlSignal("http://[x", false, false, false, false, false, false, false, false)
  {
    BracketUrlExtracted();
    BracketUrlUnsplittable();
  }

  lemma BracketUrlExtracted()
    ensures ExtractUrls("http://[x") == ["http://[x"]
  {
    BracketUrlMatches();
    assert "http://[x"[0..9] == "http://[x";
  }

  lemma BracketUrlMatches()
    ensures Matches("http://[x", 0, UrlRun) == [Span(0, 7, 9)]
  {
    var t := "http://[x";
    HttpPrefix(t, "http://");
    assert Lower(t[..8])[4] == ':';
    assert SchemePrefixLen(t, 0) == 7;
    assert InRun(t[8], UrlRun) && InRun(t[7], UrlRun);
    assert RunEnd(t, 7, UrlRun) == 9;
    assert MatchAt(t, 0, UrlRun) == Some(Span(0, 7, 9));
  }

  lemma BracketUrlUnsplittable()
    ensures UrlSplit("http://[x").None?
  {
    var t := "http://[x";
    assert t[7..] == "[x";
    var rest := t[7..];
    assert rest[0] == '[' && rest[1] == 'x';
    UnclosedBracketUnsplittable(t);
  }

  /** An `http://` URL whose remainder opens a `[` and never closes it, with no
      `/`, `?` or `#` to end the netloc, is one urllib refuses. */
  lemma UnclosedBracketUnsplittable(u: string)
    requires |u| >= 7 && Lower(u[..7]) == "http://"
    requires '[' in u[7..] && ']' !in u[7..]
    requires '/' !in u[7..] && '?' !in u[7..] && '#' !in u[7..]
    ensures UrlSplit(u).None?
  {
    var rest := u[7..];
    WholeNetloc(rest);
    assert UnmatchedBracket(rest);
    SchemeNetloc(u, "http://");
  }

  /** Text without `/`, `?` or `#` is a netloc in full. */
  lemma WholeNetloc(rest: string)
    requires '/' !in rest && '?' !in rest && '#' !in rest
    ensures TakeUntil(rest, {'/', '?', '#'}) == rest
  {
    var netloc := TakeUntil(rest, {'/', '?', '#'});
    if |netloc| < |rest| {
      assert false;
    }
  }

  /** A URL starting with `http://` or `https://` in any case: urllib reads
      the scheme as `http` or `https`, and the netloc is the text after the
      `//` up to the first `/`, `?` or `#`. */
  lemma SchemeNetloc(u: string, p: string)
    requires p == "http://" || p == "https://"
    requires |u| >= |p| && Lower(u[..|p|]) == p
    ensures var netloc := TakeUntil(u[|p|..], {'/', '?', '#'});
      UrlSplit(u) == if UnmatchedBracket(netloc) then None else Some(UrlParts(p[..|p| - 3], netloc))
  {
    var n := |p| - 3;
    HttpPrefix(u, p);
    TakeUntilStopsAt(u, {':'}, n);
    assert HasScheme(u);
    if p == "https://" {
      assert p[..n] == "https";
      assert u[6..][..2] == "//";
      assert u[6..][2..] == u[8..];
    } else {
      assert p[..n] == "http";
      assert u[5..][..2] == "//";
      assert u[5..][2..] == u[7..];
    }
  }

  /** What a case-insensitive `http://` or `https://` prefix tells about the
      scheme urllib sees: letters up to a `:`. */
  lemma HttpPrefix(u: string, p: string)
    requires p == "http://" || p == "https://"
    requires |u| >= |p| && Lower(u[..|p|]) == p
    ensures u[|p| - 3] == ':' && u[|p| - 2] == '/' && u[|p| - 1] == '/'
    ensures forall k :: 0 <= k < |p| - 3 ==> IsAsciiLetter(u[k]) && u[k] != ':'
    ensures Lower(u[..|p| - 3]) == p[..|p| - 3]
  {
    var n := |p| - 3;
    forall k | 0 <= k < |p| ensures LowerChar(u[k]) == p[k] {
      assert Lower(u[..|p|])[k] == LowerChar(u[k]);
    }
    assert LowerChar(u[n]) == ':' && LowerChar(u[n + 1]) == '/' && LowerChar(u[n + 2]) == '/';
  }

  /** urllib reads the scheme of a URL extract_urls returns as http or https. */
  lemma ExtractedUrlScheme(u: string)
    requires HasHttpScheme(u)
    ensures UrlSplit(u).Some? ==> UrlSplit(u).value.scheme in {"http", "https"}
  {
    if |u| >= 8 && Lower(u[..8]) == "https://" {
      SchemeNetloc(u, "https://");
      assert "https://"[..5] == "https";
    } else {
      SchemeNetloc(u, "http://");
      assert "http://"[..4] == "http";
    }
  }

  /** A URL extract_urls returns starts with a letter and holds no space,
      tab, CR or LF, so urlsplit's clean-up of its input (stripping leading
      controls and spaces, deleting tabs and line breaks) leaves it as it is. */
  lemma ExtractedUrlNeedsNoCleanup(text: string, m: nat)
    requires m < |ExtractUrls(text)|
    ensures var u := ExtractUrls(text)[m];
      |u| > 0 && u[0] > ' ' && '\t' !in u && '\r' !in u && '\n' !in u
  {
    var u := ExtractUrls(text)[m];
    assert UrlShaped(u);
    assert IsAsciiLetter(u[0]) by {
      if |u| >= 8 && Lower(u[..8]) == "https://" {
        assert LowerChar(u[0]) == 'h';
      } else {
        assert LowerChar(u[0]) == Lower(u[..7])[0];
      }
    }
  }

  /** For any URL extract_urls returns, `odd_protocol` is never set. */
  lemma ExtractedUrlIsNotOddProtocol(text: string, m: nat, suffixOf: string -> string)
    requires m < |ExtractUrls(text)|
    ensures !UrlHeuristics(ExtractUrls(text)[m], suffixOf).oddProtocol
  {
    var u := ExtractUrls(text)[m];
    ExtractedUrlScheme(u);
    match UrlSplit(u)
    case None =>
    case Some(parts) =>
      assert UrlHeuristics(u, suffixOf) == ParsedSignals(u, parts, suffixOf);
  }

  lemma {:induction false} TakeUntilStopsAt(s: string, cs: set<char>, n: nat)
    requires n < |s| && s[n] in cs
    requires forall k :: 0 <= k < n ==> s[k] !in cs
    ensures |TakeUntil(s, cs)| == n
  {
    if n > 0 {
      TakeUntilStopsAt(s[1..], cs, n - 1);
    }
  }

  // ---------------------------------------------------------------------------
  // sender_anomaly

  datatype SenderSignals = SenderSignals(
    fromReplyMismatch: bool,
    returnPathMismatch: bool,
    messageIdMismatch: bool,
    displayNameImpersonation: bool)

  /** The Message-ID domain: the text after the last `@` with `>` stripped
      from both ends, or "" when the header has no `@`. */
  function MessageIdDomain(msgid: string): (d: string)
    ensures '@' !in msgid ==> d == ""
    ensures '@' in msgid ==> d == Strip(AfterLast(msgid, '@'), {'>'})
    ensures '@' !in d && (d != "" ==> d[0] != '>' && d[|d| - 1] != '>')
  {
    if '@' in msgid then
      var tail := AfterLast(msgid, '@');
      StrippedTail(tail);
      Strip(tail, {'>'})
    else ""
  }

  /** Stripping `>` from text after the last `@` leaves no `@` and no `>` at
      either end. */
  lemma StrippedTail(tail: string)
    requires '@' !in tail
    ensures var d := Strip(tail, {'>'});
      '@' !in d && (d != "" ==> d[0] != '>' && d[|d| - 1] != '>')
  {
    StripKeeps(tail, {'>'}, '@');
    StripEnds(tail, {'>'});
  }

  /** sender_anomaly. The mismatch flags compare non-empty domains; the
      Message-ID comparison is a substring test against a domain that is not
      lower-cased. */
  function SenderAnomaly(headers: map<string, string>, addrs: Addresses): (s: SenderSignals)
    ensures s.fromReplyMismatch <==>
      addrs.fromAddr.domain != "" && addrs.replyTo.domain != "" && addrs.fromAddr.domain != addrs.replyTo.domain
    ensures s.returnPathMismatch <==>
      addrs.fromAddr.domain != "" && addrs.returnPath.domain != "" && addrs.fromAddr.domain != addrs.returnPath.domain
    ensures s.messageIdMismatch ==> '@' in HeaderValue(headers, "Message-ID")
    ensures s.messageIdMismatch <==>
      var d := MessageIdDomain(HeaderValue(headers, "Message-ID"));
      addrs.fromAddr.domain != "" && d != "" && !Contains(d, addrs.fromAddr.domain)
    ensures s.displayNameImpersonation <==>
      addrs.fromAddr.name != "" && addrs.fromAddr.domain != "" &&
      !Contains(Lower(addrs.fromAddr.domain), Lower(addrs.fromAddr.name))
  {
    var fromName := addrs.fromAddr.name;
    var fromDomain := addrs.fromAddr.domain;
    var replyDomain := addrs.replyTo.domain;
    var returnPathDomain := addrs.returnPath.domain;
    var msgidDomain := MessageIdDomain(HeaderValue(headers, "Message-ID"));
    SenderSignals(
      fromDomain != "" && replyDomain != "" && fromDomain != replyDomain,
      fromDomain != "" && returnPathDomain != "" && fromDomain != returnPathDomain,
      fromDomain != "" && msgidDomain != "" && !Contains(msgidDomain, fromDomain),
      fromName != "" && fromDomain != "" && !Contains(Lower(fromDomain), Lower(fromName)))
  }

  // ---------------------------------------------------------------------------
  // Subject flags

  const UrgencyPhrases: seq<string> :=
    ["urgent", "verify immediately", "password", "suspend", "expired", "reset", "action required"]

  /** `\w` as the model reads it: ASCII letters, digits and `_`. */
  predicate IsWordChar(c: char) { IsAsciiLetter(c) || IsDigit(c) || c == '_' }

  predicate WordAt(s: string, i: int) { 0 <= i < |s| && IsWordChar(s[i]) }

  /** `\b` at position `i`. */
  predicate WordBoundary(s: string, i: int) { WordAt(s, i - 1) != WordAt(s, i) }

  /** The urgency-bait search: one of the phrases as a whole word, ignoring
      case. */
  predicate UrgentSubject(subject: string)
    ensures UrgentSubject(subject) ==> exists p :: p in UrgencyPhrases && Contains(Lower(subject), p)
  {
    exists i, p :: 0 <= i <= |subject| && p in UrgencyPhrases &&
      OccursAt(Lower(subject), p, i) && WordBoundary(subject, i) && WordBoundary(subject, i + |p|)
  }

  /** A listed phrase, in any letter case, with no word character right
      before or after it, makes a subject urgent. */
  lemma UrgentWholeWord(a: string, w: string, b: string)
    requires Lower(w) in UrgencyPhrases
    requires a == [] || !IsWordChar(a[|a| - 1])
    requires b == [] || !IsWordChar(b[0])
    ensures UrgentSubject(a + w + b)
  {
    var s := a + w + b;
    WordEnds(w);
    LowerInfix(a, w, b);
    assert s[|a|] == w[0] && s[|a| + |w| - 1] == w[|w| - 1];
    assert |a| > 0 ==> s[|a| - 1] == a[|a| - 1];
    assert |b| > 0 ==> s[|a| + |w|] == b[0];
    assert WordBoundary(s, |a|) && WordBoundary(s, |a| + |Lower(w)|);
  }

  /** Every phrase begins and ends with a letter, in any letter case. */
  lemma WordEnds(w: string)
    requires Lower(w) in UrgencyPhrases
    ensures |w| > 0 && IsWordChar(w[0]) && IsWordChar(w[|w| - 1])
  {
    var p := Lower(w);
    assert IsAsciiLetter(p[0]) && IsAsciiLetter(p[|p| - 1]);
  }

  /** Lower-casing keeps a piece of text where it is. */
  lemma LowerInfix(a: string, w: string, b: string)
    ensures OccursAt(Lower(a + w + b), Lower(w), |a|)
  {
    assert Lower(a + w + b)[|a|..|a| + |w|] == Lower(w);
  }

  /** "Urgent: verify immediately" is urgent. */
  lemma UrgentExample()
    ensures UrgentSubject("Urgent: verify immediately")
  {
    CapitalUrgent();
    JoinUrgent();
    UrgentWholeWord("", "Urgent", ": verify immediately");
  }

  lemma JoinUrgent()
    ensures "" + "Urgent" + ": verify immediately" == "Urgent: verify immediately"
  {
  }

  lemma CapitalUrgent()
    ensures Lower("Urgent") in UrgencyPhrases
  {
    assert Lower("Urgent") == "urgent";
  }

  /** "urgently" is not: the phrase must end at a word boundary. */
  lemma UrgentlyNotUrgent()
    ensures !UrgentSubject("urgently")
  {
    var s := "urgently";
    assert Lower(s) == s;
    forall i, p | 0 <= i <= |s| && p in UrgencyPhrases && OccursAt(s, p, i)
      ensures !WordBoundary(s, i + |p|)
    {
      UrgentlyHoldsOnlyUrgent(i, p);
    }
  }

  /** The only listed phrase inside `urgently` is `urgent`, at its start. */
  lemma UrgentlyHoldsOnlyUrgent(i: int, p: string)
    requires p in UrgencyPhrases && OccursAt("urgently", p, i)
    ensures i == 0 && |p| == 6
  {
    var s := "urgently";
    assert s[i..i + |p|][0] == s[i] == p[0];
    assert s[i..i + |p|][1] == s[i + 1] == p[1];
  }

  /** The right-to-left override and the three zero-width characters. */
  const AbuseChars: set<char> := {'\U{202E}', '\U{200B}', '\U{200C}', '\U{200D}'}

  predicate UnicodeAbuse(subject: string)
    ensures UnicodeAbuse(subject) <==>
      '\U{202E}' in subject || '\U{200B}' in subject || '\U{200C}' in subject || '\U{200D}' in subject
  {
    exists k :: 0 <= k < |subject| && subject[k] in AbuseChars
  }

  datatype Flags = Flags(urgencyBait: bool, unicodeAbuse: bool)

  // ---------------------------------------------------------------------------
  // The feature bundle

  /** The record _extract_common returns. `urls` holds the raw URL of each
      `{"raw": u}` entry; `dangerousExt` is `attachments.dangerous_ext`;
      `domains` is `indicators.domains`, a set. */
  datatype FeatureBundle = FeatureBundle(
    auth: Auth,
    addresses: Addresses,
    urls: seq<string>,
    urlSignals: seq<UrlSignal>,
    senderSignals: SenderSignals,
    dangerousExt: seq<string>,
    flags: Flags,
    domains: set<string>)

  /** `[url_heuristics(u) for u in urls]`, with the corrected heuristics. */
  function UrlSignals(urls: seq<string>, suffixOf: string -> string): (r: seq<UrlSignal>)
    ensures |r| == |urls| && forall k :: 0 <= k < |urls| ==> r[k] == UrlHeuristics(urls[k], suffixOf)
  {
    seq(|urls|, k requires 0 <= k < |urls| => UrlHeuristics(urls[k], suffixOf))
  }

  /** _extract_common. */
  function ExtractCommon(headers: map<string, string>, content: string,
                         parseAddr: string -> Mailbox, suffixOf: string -> string): (f: FeatureBundle)
    ensures f.urls == ExtractUrls(content)
    ensures |f.urlSignals| == |f.urls| &&
            forall k :: 0 <= k < |f.urls| ==> f.urlSignals[k] == UrlHeuristics(f.urls[k], suffixOf) && f.urlSignals[k].url == f.urls[k]
    ensures f.dangerousExt == []
    ensures f.auth.spf in AuthResults && f.auth.dkim in AuthResults && f.auth.dmarc in AuthResults
    ensures NoUpper(f.addresses.fromAddr.domain) && NoUpper(f.addresses.replyTo.domain) &&
            NoUpper(f.addresses.returnPath.domain)
    ensures f.addresses.fromAddr.domain in f.domains && f.addresses.replyTo.domain in f.domains &&
            f.addresses.returnPath.domain in f.domains
    ensures forall d :: d in ExtractDomains(content) ==> d in f.domains
    ensures f.urlSignals == UrlSignals(f.urls, suffixOf)
    ensures f.auth == ParseAuthenticationResults(HeaderValue(headers, "Authentication-Results"))
    ensures f.addresses == ExtractAddresses(headers, parseAddr)
    ensures f.senderSignals == SenderAnomaly(headers, f.addresses)
    ensures f.flags == Flags(UrgentSubject(HeaderValue(headers, "Subject")), UnicodeAbuse(HeaderValue(headers, "Subject")))
    ensures f.domains == {f.addresses.fromAddr.domain, f.addresses.replyTo.domain, f.addresses.returnPath.domain} +
                         set d | d in ExtractDomains(content)
  {
    var auth := ParseAuthenticationResults(HeaderValue(headers, "Authentication-Results"));
    var addrs := ExtractAddresses(headers, parseAddr);
    var urls := ExtractUrls(content);
    var urlSignals := seq(|urls|, k requires 0 <= k < |urls| => UrlHeuristics(urls[k], suffixOf));
    var senderSig := SenderAnomaly(headers, addrs);
    var subject := HeaderValue(headers, "Subject");
    var seenDomains := ExtractDomains(content);
    FeatureBundle(
      auth,
      addrs,
      urls,
      urlSignals,
      senderSig,
      [],
      Flags(UrgentSubject(subject), UnicodeAbuse(subject)),
      {addrs.fromAddr.domain, addrs.replyTo.domain, addrs.returnPath.domain} + set d | d in seenDomains)
  }

  /** `[url_heuristics(u) for u in urls]` in _extract_common AS WRITTEN:
      None, for the ValueError that aborts the whole extraction, exactly when
      some URL cannot be split; otherwise one signal per URL. */
  function UrlSignalsAsWritten(urls: seq<string>, suffixOf: string -> string): (r: Option<seq<UrlSignal>>)
    ensures r.None? <==> exists k :: 0 <= k < |urls| && UrlSplit(urls[k]).None?
    ensures r.Some? ==> |r.value| == |urls|
  {
    if exists k :: 0 <= k < |urls| && UrlSplit(urls[k]).None? then None
    else Some(seq(|urls|, k requires 0 <= k < |urls| => UrlHeuristicsAsWritten(urls[k], suffixOf).value))
  }

  /** Where the as-written list can be built, it holds the corrected signals. */
  lemma AsWrittenSignalsCorrected(urls: seq<string>, suffixOf: string -> string, k: nat)
    requires UrlSignalsAsWritten(urls, suffixOf).Some? && k < |urls|
    ensures UrlSignalsAsWritten(urls, suffixOf).value[k] == UrlHeuristics(urls[k], suffixOf)
  {
    assert UrlSplit(urls[k]).Some?;
  }

  /** The whole extraction, as written, fails on a body holding `http://[x`:
      the signal list of its URLs cannot be built. */
  lemma BracketUrlAbortsExtraction(suffixOf: string -> string)
    ensures UrlSignalsAsWritten(ExtractUrls("http://[x"), suffixOf).None?
  {
    BracketUrlBreaksExtraction(suffixOf);
    assert UrlSplit(ExtractUrls("http://[x")[0]).None?;
  }

  /** Where the as-written list can be built, the corrected extraction holds
      the very same signals. */
  lemma ExtractCommonAgrees(headers: map<string, string>, content: string,
                            parseAddr: string -> Mailbox, suffixOf: string -> string)
    requires UrlSignalsAsWritten(ExtractUrls(content), suffixOf).Some?
    ensures ExtractCommon(headers, content, parseAddr, suffixOf).urlSignals ==
            UrlSignalsAsWritten(ExtractUrls(content), suffixOf).value
  {
    SignalsAgree(ExtractUrls(content), suffixOf);
  }

  /** Where the as-written list can be built, it is the corrected list. */
  lemma SignalsAgree(urls: seq<string>, suffixOf: string -> string)
    requires UrlSignalsAsWritten(urls, suffixOf).Some?
    ensures UrlSignals(urls, suffixOf) == UrlSignalsAsWritten(urls, suffixOf).value
  {
    var r := UrlSignalsAsWritten(urls, suffixOf).value;
    forall k | 0 <= k < |r| ensures UrlSignals(urls, suffixOf)[k] == r[k] {
      AsWrittenSignalsCorrected(urls, suffixOf, k);
    }
  }

  /** A message as the Gmail fetcher or the .eml scanner hands it over; an
      absent `snippet` or `text` is "". */
  datatype MessageRecord = MessageRecord(headers: map<string, string>, snippet: string, text: string)

  /** extract_features_from_gmail: with `headersOnly` the body text is ignored
      and only the snippet is scanned for URLs; otherwise the text is scanned,
      or the snippet when the text is empty. */
  function FromGmail(meta: MessageRecord, headersOnly: bool,
                     parseAddr: string -> Mailbox, suffixOf: string -> string): (f: FeatureBundle)
    ensures headersOnly ==> f.urls == ExtractUrls(meta.snippet)
    ensures !headersOnly && meta.text != "" ==> f.urls == ExtractUrls(meta.text)
    ensures !headersOnly && meta.text == "" ==> f.urls == ExtractUrls(meta.snippet)
    ensures f.auth == ParseAuthenticationResults(HeaderValue(meta.headers, "Authentication-Results"))
    ensures f == ExtractCommon(meta.headers, Content(meta, headersOnly), parseAddr, suffixOf)
  {
    var snippet := meta.snippet;
    var text := if !headersOnly then meta.text else "";
    ExtractCommon(meta.headers, if text != "" then text else snippet, parseAddr, suffixOf)
  }

  /** The content both entry points hand to _extract_common: the snippet
      under headers_only, otherwise the text, or the snippet when the text
      is empty. The URLs and the content domains all come from it. */
  function Content(meta: MessageRecord, headersOnly: bool): (c: string)
    ensures headersOnly ==> c == meta.snippet
    ensures !headersOnly && meta.text != "" ==> c == meta.text
    ensures !headersOnly && meta.text == "" ==> c == meta.snippet
  {
    if !headersOnly && meta.text != "" then meta.text else meta.snippet
  }

  /** extract_features_from_eml: the same content selection. */
  function FromEml(rec: MessageRecord, headersOnly: bool,
                   parseAddr: string -> Mailbox, suffixOf: string -> string): (f: FeatureBundle)
    ensures headersOnly ==> f.urls == ExtractUrls(rec.snippet)
    ensures !headersOnly && rec.text != "" ==> f.urls == ExtractUrls(rec.text)
    ensures !headersOnly && rec.text == "" ==> f.urls == ExtractUrls(rec.snippet)
    ensures f == FromGmail(rec, headersOnly, parseAddr, suffixOf)
    ensures f == ExtractCommon(rec.headers, Content(rec, headersOnly), parseAddr, suffixOf)
  {
    var text := if headersOnly then "" else rec.text;
    var snippet := rec.snippet;
    ExtractCommon(rec.headers, if text != "" then text else snippet, parseAddr, suffixOf)
  }
}
