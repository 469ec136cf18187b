// String helpers of src/b9phish/utils.py, together with the text primitives
// the rest of the model shares: ASCII case folding, substring search, the
// `split`/`strip` shapes the source uses, the part of urllib's URL splitting
// the source relies on, and the two `https?://` scanners.
module Utils {

  datatype Option<T> = None | Some(value: T)

  /** No element occurs twice. */
  predicate Distinct<T(==)>(s: seq<T>) {
    forall i, j :: 0 <= i < j < |s| ==> s[i] != s[j]
  }

  // ---------------------------------------------------------------------------
  // Characters

  predicate IsUpper(c: char) { 'A' <= c <= 'Z' }

  predicate IsAsciiLetter(c: char) { 'a' <= c <= 'z' || 'A' <= c <= 'Z' }

  predicate IsDigit(c: char) { '0' <= c <= '9' }

  /** The characters Python's `\s` matches in a `str` pattern. */
  predicate IsSpace(c: char) {
    ('\t' <= c <= '\r') || ('\U{1C}' <= c <= '\U{1F}') || c == ' ' || c == '\U{85}' ||
    c == '\U{A0}' || c == '\U{1680}' || ('\U{2000}' <= c <= '\U{200A}') ||
    c == '\U{2028}' || c == '\U{2029}' || c == '\U{202F}' || c == '\U{205F}' || c == '\U{3000}'
  }

  function LowerChar(c: char): (d: char)
    ensures !IsUpper(d)
    ensures !IsUpper(c) ==> d == c
    ensures IsUpper(c) ==> 'a' <= d <= 'z'
  {
    if IsUpper(c) then (c as int + 32) as char else c
  }

  /** `str.lower()` on ASCII letters. */
  function Lower(s: string): (r: string)
    ensures |r| == |s|
    ensures forall i :: 0 <= i < |s| ==> r[i] == LowerChar(s[i])
  {
    seq(|s|, i requires 0 <= i < |s| => LowerChar(s[i]))
  }

  /** No ASCII upper-case letter occurs in `s`. */
  predicate NoUpper(s: string) {
    forall i :: 0 <= i < |s| ==> !IsUpper(s[i])
  }

  lemma LowerIsLower(s: string)
    ensures NoUpper(Lower(s))
  {
  }

  // ---------------------------------------------------------------------------
  // Substrings

  /** `t` occurs in `s` starting at index `i`. */
  predicate OccursAt(s: string, t: string, i: int) {
    0 <= i && i + |t| <= |s| && s[i..i + |t|] == t
  }

  /** Python's `t in s` on strings. */
  predicate Contains(s: string, t: string) {
    exists i :: 0 <= i <= |s| && OccursAt(s, t, i)
  }

  /** `t` occurs in any text that has it in the middle. */
  lemma ContainsInfix(a: string, t: string, b: string)
    ensures Contains(a + t + b, t)
  {
    assert OccursAt(a + t + b, t, |a|);
  }

  /** `s.split(c)[0]` generalised to a set of separators: the longest prefix of
      `s` holding none of `cs`. */
  function TakeUntil(s: string, cs: set<char>): (r: string)
    ensures |r| <= |s| && r == s[..|r|]
    ensures forall k :: 0 <= k < |r| ==> r[k] !in cs
    ensures |r| < |s| ==> s[|r|] in cs
  {
    if s == [] || s[0] in cs then [] else [s[0]] + TakeUntil(s[1..], cs)
  }

  /** `s.split(c)[-1]`: the longest suffix of `s` without `c`. */
  function AfterLast(s: string, c: char): (r: string)
    ensures |r| <= |s| && r == s[|s| - |r|..]
    ensures c !in r
    ensures |r| < |s| ==> s[|s| - |r| - 1] == c
  {
    if s == [] || s[|s| - 1] == c then [] else AfterLast(s[..|s| - 1], c) + [s[|s| - 1]]
  }

  /** `s.split(c)`: the pieces between occurrences of `c`, in order. */
  function SplitOn(s: string, c: char): (parts: seq<string>)
    ensures |parts| >= 1
    ensures forall k :: 0 <= k < |parts| ==> c !in parts[k]
    decreases |s|
  {
    var head := TakeUntil(s, {c});
    if |head| == |s| then [s] else [head] + SplitOn(s[|head| + 1..], c)
  }

  /** Text without the separator is one piece. */
  lemma SplitOnWhole(x: string, c: char)
    requires c !in x
    ensures SplitOn(x, c) == [x]
  {
    assert forall q :: 0 <= q < |x| ==> x[q] != c;
  }

  /** A piece without the separator, then the separator: that piece comes
      first and the rest is split on its own. */
  lemma SplitOnLead(x: string, c: char, rest: string)
    requires c !in x
    ensures SplitOn(x + [c] + rest, c) == [x] + SplitOn(rest, c)
  {
    var s := x + [c] + rest;
    assert forall q :: 0 <= q < |x| ==> s[q] == x[q] != c;
    TakeUntilAt(s, {c}, |x|);
    assert s[..|x|] == x;
    assert s[|x| + 1..] == rest;
  }

  /** TakeUntil stops at the first stop character. */
  lemma TakeUntilAt(s: string, cs: set<char>, n: nat)
    requires n < |s| && s[n] in cs
    requires forall k :: 0 <= k < n ==> s[k] !in cs
    ensures TakeUntil(s, cs) == s[..n]
  {
  }

  /** One piece more than there are separators. */
  lemma {:induction false} SplitOnCount(s: string, c: char)
    ensures multiset(s)[c] == |SplitOn(s, c)| - 1
    decreases |s|
  {
    var head := TakeUntil(s, {c});
    if |head| < |s| {
      SplitOnStep(s, c);
      SplitOnCount(s[|head| + 1..], c);
    } else {
      SplitOnLast(s, c);
    }
  }

  /** Splitting at the first separator removes one of them. */
  lemma SplitOnStep(s: string, c: char)
    requires |TakeUntil(s, {c})| < |s|
    ensures var head := TakeUntil(s, {c});
      SplitOn(s, c) == [head] + SplitOn(s[|head| + 1..], c) &&
      multiset(s)[c] == multiset(s[|head| + 1..])[c] + 1
  {
    var head := TakeUntil(s, {c});
    assert forall q :: 0 <= q < |head| ==> s[q] == head[q] && head[q] !in {c};
    CountAtFirst(s, c, |head|);
  }

  /** Cutting at the first separator at `n` leaves one separator fewer. */
  lemma CountAtFirst(s: string, c: char, n: nat)
    requires n < |s| && s[n] == c && forall q :: 0 <= q < n ==> s[q] != c
    ensures multiset(s)[c] == multiset(s[n + 1..])[c] + 1
  {
    assert multiset(s[..n])[c] == 0;
    assert s == s[..n] + [c] + s[n + 1..];
  }

  /** Text without a separator is one piece. */
  lemma SplitOnLast(s: string, c: char)
    requires |TakeUntil(s, {c})| == |s|
    ensures SplitOn(s, c) == [s] && multiset(s)[c] == 0
  {
    var head := TakeUntil(s, {c});
    assert forall q :: 0 <= q < |s| ==> s[q] != c by {
      assert s == head;
    }
  }

  /** The pieces hold every other character of the text. */
  lemma {:induction false} SplitOnKeeps(s: string, c: char, q: nat)
    requires q < |s| && s[q] != c
    ensures exists g :: 0 <= g < |SplitOn(s, c)| && s[q] in SplitOn(s, c)[g]
    decreases |s|
  {
    var head := TakeUntil(s, {c});
    var parts := SplitOn(s, c);
    if |head| == |s| {
      assert head == s && parts == [s];
      assert s[q] in parts[0];
    } else if q < |head| {
      assert parts == [head] + SplitOn(s[|head| + 1..], c);
      assert s[q] == head[q];
      assert s[q] in parts[0];
    } else {
      var rest := s[|head| + 1..];
      assert parts == [head] + SplitOn(rest, c);
      assert q != |head|;
      assert s[q] == rest[q - |head| - 1];
      SplitOnKeeps(rest, c, q - |head| - 1);
      var g :| 0 <= g < |SplitOn(rest, c)| && rest[q - |head| - 1] in SplitOn(rest, c)[g];
      assert s[q] in parts[g + 1];
    }
  }

  /** `s.lstrip(chars)`. */
  function StripLeft(s: string, cs: set<char>): (r: string)
    ensures |r| <= |s| && r == s[|s| - |r|..]
    ensures r != [] ==> r[0] !in cs
    ensures forall k :: 0 <= k < |s| - |r| ==> s[k] in cs
  {
    if s != [] && s[0] in cs then StripLeft(s[1..], cs) else s
  }

  /** `s.rstrip(chars)`. */
  function StripRight(s: string, cs: set<char>): (r: string)
    ensures |r| <= |s| && r == s[..|r|]
    ensures r != [] ==> r[|r| - 1] !in cs
    ensures forall k :: |r| <= k < |s| ==> s[k] in cs
  {
    if s != [] && s[|s| - 1] in cs then StripRight(s[..|s| - 1], cs) else s
  }

  /** `s.strip(chars)`. */
  function Strip(s: string, cs: set<char>): string {
    StripRight(StripLeft(s, cs), cs)
  }

  /** After stripping, neither end is a stripped character. */
  lemma StripEnds(s: string, cs: set<char>)
    ensures var r := Strip(s, cs); r != [] ==> r[0] !in cs && r[|r| - 1] !in cs
  {
    var l := StripLeft(s, cs);
    var r := StripRight(l, cs);
    if r != [] {
      assert r[0] == l[0];
    }
  }

  /** `lstrip` keeps every character outside the stripped set. */
  lemma StripLeftKeeps(s: string, cs: set<char>, c: char)
    requires c !in cs
    ensures c in StripLeft(s, cs) <==> c in s
  {
    var l := StripLeft(s, cs);
    var d := |s| - |l|;
    assert l == s[d..];
    if c in s {
      var k :| 0 <= k < |s| && s[k] == c;
      assert k >= d;
      assert l[k - d] == c;
    }
  }

  /** `rstrip` keeps every character outside the stripped set. */
  lemma StripRightKeeps(s: string, cs: set<char>, c: char)
    requires c !in cs
    ensures c in StripRight(s, cs) <==> c in s
  {
    var r := StripRight(s, cs);
    assert r == s[..|r|];
    if c in s {
      var k :| 0 <= k < |s| && s[k] == c;
      assert k < |r|;
      assert r[k] == c;
    }
  }

  /** Stripping never adds nor removes a character outside the stripped set. */
  lemma StripKeeps(s: string, cs: set<char>, c: char)
    requires c !in cs
    ensures c in Strip(s, cs) <==> c in s
  {
    StripLeftKeeps(s, cs, c);
    StripRightKeeps(StripLeft(s, cs), cs, c);
  }

  // ---------------------------------------------------------------------------
  // Decimal text of an integer (Python's `str(int)`)

  function DigitChar(d: nat): (c: char)
    requires d < 10
    ensures IsDigit(c)
  {
    ('0' as int + d) as char
  }

  function NatToDecimal(n: nat): (r: string)
    ensures |r| >= 1
    ensures forall k :: 0 <= k < |r| ==> IsDigit(r[k])
    decreases n
  {
    if n < 10 then [DigitChar(n)] else NatToDecimal(n / 10) + [DigitChar(n % 10)]
  }

  function IntToDecimal(i: int): string {
    if i < 0 then "-" + NatToDecimal(-i) else NatToDecimal(i)
  }

  // ---------------------------------------------------------------------------
  // utils.py

  const SusTlds: set<string> :=
    {"zip", "mov", "top", "xyz", "gq", "work", "country", "link", "click", "support", "online", "shop"}

  /** utils.domain_from_email: the lower-cased text after the last `@`, or "". */
  function DomainFromEmail(a: string): (r: string)
    ensures '@' !in a ==> r == ""
    ensures '@' in a ==> exists k :: 0 <= k < |a| && a[k] == '@' && '@' !in a[k + 1..] && r == Lower(a[k + 1..])
    ensures NoUpper(r) && '@' !in r
  {
    if '@' in a then Lower(AfterLast(a, '@')) else ""
  }

  /** utils.has_punycode: a case-sensitive search for the ACE prefix. */
  function HasPunycode(host: string): (r: bool)
    ensures r <==> exists i :: 0 <= i <= |host| && OccursAt(host, "xn--", i)
  {
    Contains(host, "xn--")
  }

  /** utils.suspicious_tld. `suffixOf` stands for the public-suffix lookup of
      tldextract: it maps a host to its public suffix, "" when there is none. */
  function SuspiciousTld(host: string, suffixOf: string -> string): (r: bool)
    ensures suffixOf(host) == "" ==> !r
    ensures r <==> AfterLast(suffixOf(host), '.') in SusTlds
  {
    var suffix := suffixOf(host);
    if suffix == "" then false else AfterLast(suffix, '.') in SusTlds
  }

  // ---------------------------------------------------------------------------
  // URL splitting: the scheme and netloc of urllib.parse.urlsplit

  datatype UrlParts = UrlParts(scheme: string, netloc: string)

  predicate IsSchemeChar(c: char) {
    IsAsciiLetter(c) || IsDigit(c) || c == '+' || c == '-' || c == '.'
  }

  /** urllib's check that rejects a netloc with an unmatched `[` or `]`. */
  predicate UnmatchedBracket(netloc: string) {
    ('[' in netloc && ']' !in netloc) || (']' in netloc && '[' !in netloc)
  }

  /** urllib reads a scheme: a letter, then scheme characters up to the first
      `:`. */
  predicate HasScheme(url: string) {
    var i := |TakeUntil(url, {':'})|;
    0 < i < |url| && IsAsciiLetter(url[0]) && forall k :: 0 <= k < i ==> IsSchemeChar(url[k])
  }

  /** The netloc of urlsplit's reading of an already clean URL: after the
      scheme and its `:` (if any), a `//` opens it and the first `/`, `?` or
      `#` ends it; "" without the `//`. urlsplit's removal of leading control
      characters and spaces and of tab, CR and LF is not modelled. */
  function Netloc(url: string): (n: string)
    ensures forall k :: 0 <= k < |n| ==> n[k] !in {'/', '?', '#'}
    ensures n != "" ==> exists j :: 2 <= j <= |url| && url[j - 2..j] == "//" && n == TakeUntil(url[j..], {'/', '?', '#'})
  {
    var rest := if HasScheme(url) then url[|TakeUntil(url, {':'})| + 1..] else url;
    if |rest| >= 2 && rest[..2] == "//" then
      assert url[|url| - |rest|..|url| - |rest| + 2] == rest[..2];
      assert url[|url| - |rest| + 2..] == rest[2..];
      TakeUntil(rest[2..], {'/', '?', '#'})
    else ""
  }

  /** The scheme and netloc urlsplit finds in `url`. None stands for its
      ValueError ("Invalid IPv6 URL"); the model's only raise condition is an
      unmatched bracket in the netloc. urllib's other ValueErrors (the NFKC
      netloc check, and the bracketed-host check of recent Python versions)
      are not modelled. */
  function UrlSplit(url: string): (p: Option<UrlParts>)
    ensures p.None? <==> UnmatchedBracket(Netloc(url))
    ensures p.Some? ==> p.value.netloc == Netloc(url)
    ensures p.Some? ==> ':' !in p.value.scheme && NoUpper(p.value.scheme)
    ensures p.Some? && !HasScheme(url) ==> p.value.scheme == ""
  {
    var i := |TakeUntil(url, {':'})|;
    var netloc := Netloc(url);
    LowerIsLower(url[..i]);
    if UnmatchedBracket(netloc) then None
    else Some(UrlParts(if HasScheme(url) then Lower(url[..i]) else "", netloc))
  }

  /** utils.split_host: the lower-cased netloc up to its first `:`, or "" when
      urllib raises. User information before an `@` is kept. */
  function SplitHost(url: string): (host: string)
    ensures ':' !in host && NoUpper(host)
    ensures UrlSplit(url).None? ==> host == ""
    ensures UrlSplit(url).Some? ==> host == Lower(TakeUntil(UrlSplit(url).value.netloc, {':'}))
  {
    match UrlSplit(url)
    case None => ""
    case Some(parts) =>
      var h := TakeUntil(parts.netloc, {':'});
      LowerIsLower(h);
      assert forall k :: 0 <= k < |h| ==> Lower(h)[k] != ':';
      Lower(h)
  }

  // ---------------------------------------------------------------------------
  // The `https?://…` scanners of re.findall, case-insensitive

  /** The character class after the scheme: `[^\s)>"]` in features.extract_urls,
      `[^/\s]` in utils.extract_domains. */
  datatype RunClass = UrlRun | HostRun

  predicate InRun(c: char, k: RunClass) {
    !IsSpace(c) && match k
      case UrlRun => c != ')' && c != '>' && c != '"'
      case HostRun => c != '/'
  }

  /** Length of a case-insensitive `https://` (8) or `http://` (7) at `i`, or 0. */
  function SchemePrefixLen(s: string, i: nat): (n: nat)
    ensures n == 0 || n == 7 || n == 8
    ensures n > 0 ==> i + n <= |s|
    ensures n == 8 ==> Lower(s[i..i + 8]) == "https://"
    ensures n == 7 ==> Lower(s[i..i + 7]) == "http://"
  {
    if i + 8 <= |s| && Lower(s[i..i + 8]) == "https://" then 8
    else if i + 7 <= |s| && Lower(s[i..i + 7]) == "http://" then 7
    else 0
  }

  /** End of the greedy run of class `k` that starts at `j`. */
  function RunEnd(s: string, j: nat, k: RunClass): (e: nat)
    requires j <= |s|
    ensures j <= e <= |s|
    ensures forall m :: j <= m < e ==> InRun(s[m], k)
    ensures e < |s| ==> !InRun(s[e], k)
    decreases |s| - j
  {
    if j < |s| && InRun(s[j], k) then RunEnd(s, j + 1, k) else j
  }

  /** One match: the scheme starts at `start`, the run at `body`, and the match
      ends before `end`. */
  datatype Span = Span(start: nat, body: nat, end: nat)

  /** `sp` is exactly what the pattern matches when tried at `sp.start`. */
  predicate IsMatch(s: string, sp: Span, k: RunClass) {
    sp.start < sp.body < sp.end <= |s| &&
    SchemePrefixLen(s, sp.start) == sp.body - sp.start &&
    RunEnd(s, sp.body, k) == sp.end
  }

  function MatchAt(s: string, i: nat, k: RunClass): (m: Option<Span>)
    requires i <= |s|
    ensures m.Some? ==> m.value.start == i && IsMatch(s, m.value, k)
    ensures m.None? ==> SchemePrefixLen(s, i) == 0 || RunEnd(s, i + SchemePrefixLen(s, i), k) == i + SchemePrefixLen(s, i)
  {
    var n := SchemePrefixLen(s, i);
    if n == 0 then None
    else
      var e := RunEnd(s, i + n, k);
      if e == i + n then None else Some(Span(i, i + n, e))
  }

  /** re.findall's left-to-right sequence of non-overlapping matches from `i`. */
  function Matches(s: string, i: nat, k: RunClass): (ms: seq<Span>)
    requires i <= |s|
    ensures forall m :: 0 <= m < |ms| ==> i <= ms[m].start && IsMatch(s, ms[m], k)
    ensures forall m, m' :: 0 <= m < m' < |ms| ==> ms[m].end <= ms[m'].start
    decreases |s| - i
  {
    if i == |s| then []
    else match MatchAt(s, i, k)
      case None => Matches(s, i + 1, k)
      case Some(sp) => [sp] + Matches(s, sp.end, k)
  }

  /** Two matches, each at the start or after whitespace, are both listed,
      in text order. */
  lemma MatchesKeepBoth(s: string, k: RunClass, p: nat, p': nat)
    requires p < p' < |s| && MatchAt(s, p, k).Some? && MatchAt(s, p', k).Some?
    requires p == 0 || IsSpace(s[p - 1])
    requires IsSpace(s[p' - 1])
    ensures exists m, m' :: (0 <= m < m' < |Matches(s, 0, k)| &&
      Matches(s, 0, k)[m] == MatchAt(s, p, k).value && Matches(s, 0, k)[m'] == MatchAt(s, p', k).value)
  {
    var m := MatchesFindAt(s, 0, k, p);
    var m' := MatchesFindAt(s, 0, k, p');
    MatchesInStartOrder(s, 0, k, m, m');
  }

  /** Matches are listed in the order they start. */
  lemma MatchesInStartOrder(s: string, i: nat, k: RunClass, m: nat, m': nat)
    requires i <= |s| && m < |Matches(s, i, k)| && m' < |Matches(s, i, k)|
    requires Matches(s, i, k)[m].start < Matches(s, i, k)[m'].start
    ensures m < m'
  {
    if m' < m {
      assert false;
    }
  }

  /** A match starts only at an `h` or `H`. */
  lemma MatchNeedsH(s: string, q: nat, k: RunClass)
    requires q < |s| && s[q] != 'h' && s[q] != 'H'
    ensures MatchAt(s, q, k) == None
  {
    assert SchemePrefixLen(s, q) == 0 by {
      if q + 7 <= |s| { assert Lower(s[q..q + 7])[0] == LowerChar(s[q]); }
      if q + 8 <= |s| { assert Lower(s[q..q + 8])[0] == LowerChar(s[q]); }
    }
  }

  /** No match starts where there is no `h`. */
  lemma {:induction false} MatchesSkip(s: string, i: nat, j: nat, k: RunClass)
    requires i <= j <= |s|
    requires forall p :: i <= p < j ==> s[p] != 'h' && s[p] != 'H'
    ensures Matches(s, i, k) == Matches(s, j, k)
    decreases j - i
  {
    if i < j {
      MatchNeedsH(s, i, k);
      MatchesSkip(s, i + 1, j, k);
    }
  }

  /** Every match `at` offers starts where it is asked for and ends after
      that, within `n`. */
  ghost predicate Matcher(n: nat, at: nat -> Option<Span>) {
    forall j: nat :: at(j).Some? ==> at(j).value.start == j < at(j).value.end <= n
  }

  /** The greedy left-to-right scan of re.findall over any matcher. */
  ghost function Scan(n: nat, at: nat -> Option<Span>, i: nat): seq<Span>
    requires i <= n && Matcher(n, at)
    decreases n - i
  {
    if i == n then []
    else match at(i)
      case None => Scan(n, at, i + 1)
      case Some(sp) => [sp] + Scan(n, at, sp.end)
  }

  /** The scan misses nothing: a position where `at` offers a match lies
      inside one of the spans returned. */
  lemma {:induction false} ScanComplete(n: nat, at: nat -> Option<Span>, i: nat, p: nat) returns (m: nat)
    requires i <= p < n && Matcher(n, at) && at(p).Some?
    ensures m < |Scan(n, at, i)| && Scan(n, at, i)[m].start <= p < Scan(n, at, i)[m].end
    decreases n - i
  {
    match at(i)
    case None =>
      m := ScanComplete(n, at, i + 1, p);
    case Some(sp) =>
      if p < sp.end {
        m := 0;
      } else {
        var m' := ScanComplete(n, at, sp.end, p);
        m := m' + 1;
        assert Scan(n, at, i)[m] == Scan(n, at, sp.end)[m'];
      }
  }

  /** A match that no earlier match runs past is returned as it is. */
  lemma {:induction false} ScanFindAt(n: nat, at: nat -> Option<Span>, i: nat, p: nat) returns (m: nat)
    requires i <= p < n && Matcher(n, at) && at(p).Some?
    requires forall j :: i <= j < p && at(j).Some? ==> at(j).value.end <= p
    ensures m < |Scan(n, at, i)| && Scan(n, at, i)[m] == at(p).value
    decreases n - i
  {
    match at(i)
    case None =>
      m := ScanFindAt(n, at, i + 1, p);
    case Some(sp) =>
      if p == i {
        m := 0;
      } else {
        var m' := ScanFindAt(n, at, sp.end, p);
        m := m' + 1;
        assert Scan(n, at, i)[m] == Scan(n, at, sp.end)[m'];
      }
  }

  /** MatchAt of one text and run class, as a matcher over positions. */
  function At(s: string, k: RunClass): nat -> Option<Span> {
    (j: nat) => if j <= |s| then MatchAt(s, j, k) else None
  }

  /** MatchAt offers only spans that start where asked and end within the text. */
  lemma AtMatcher(s: string, k: RunClass)
    ensures Matcher(|s|, At(s, k))
  {
  }

  /** Matches is the generic scan over MatchAt. */
  lemma {:induction false} MatchesIsScan(s: string, i: nat, k: RunClass)
    requires i <= |s|
    ensures Matcher(|s|, At(s, k)) && Matches(s, i, k) == Scan(|s|, At(s, k), i)
    decreases |s| - i
  {
    AtMatcher(s, k);
    if i < |s| {
      assert At(s, k)(i) == MatchAt(s, i, k);
      if MatchAt(s, i, k).None? {
        MatchesMiss(s, i, k);
        MatchesIsScan(s, i + 1, k);
      } else {
        MatchesHit(s, i, k);
        MatchesIsScan(s, MatchAt(s, i, k).value.end, k);
      }
    }
  }

  /** re.findall misses no match: every position where the pattern matches
      lies inside one of the returned matches. */
  lemma MatchesComplete(s: string, i: nat, k: RunClass, p: nat) returns (m: nat)
    requires i <= p < |s| && MatchAt(s, p, k).Some?
    ensures m < |Matches(s, i, k)| && Matches(s, i, k)[m].start <= p < Matches(s, i, k)[m].end
  {
    MatchesIsScan(s, i, k);
    m := ScanComplete(|s|, At(s, k), i, p);
  }

  /** No match at `i`: the scan moves on by one. */
  lemma MatchesMiss(s: string, i: nat, k: RunClass)
    requires i < |s| && MatchAt(s, i, k).None?
    ensures Matches(s, i, k) == Matches(s, i + 1, k)
  {
  }

  /** A match at `i` is listed first, and the scan resumes at its end. */
  lemma MatchesHit(s: string, i: nat, k: RunClass)
    requires i < |s| && MatchAt(s, i, k).Some?
    ensures Matches(s, i, k) == [MatchAt(s, i, k).value] + Matches(s, MatchAt(s, i, k).value.end, k)
  {
  }

  /** A match never spans whitespace: neither its scheme nor its run holds any. */
  lemma NoSpaceInMatch(s: string, sp: Span, k: RunClass, q: nat)
    requires IsMatch(s, sp, k) && sp.start <= q < sp.end
    ensures !IsSpace(s[q])
  {
    if q < sp.body {
      var n := sp.body - sp.start;
      var pre := if n == 8 then "https://" else "http://";
      assert Lower(s[sp.start..sp.body]) == pre;
      assert LowerChar(s[q]) == pre[q - sp.start];
      SchemeCharNotSpace(s[q], pre);
    }
  }

  /** No character of an `http://` or `https://` prefix, in any case, is
      whitespace. */
  lemma SchemeCharNotSpace(c: char, pre: string)
    requires pre == "https://" || pre == "http://"
    requires LowerChar(c) in pre
    ensures !IsSpace(c)
  {
  }

  /** A match that begins the scan or follows whitespace is returned as it
      is: no earlier match swallows it. */
  lemma MatchesFindAt(s: string, i: nat, k: RunClass, p: nat) returns (m: nat)
    requires i <= p < |s| && MatchAt(s, p, k).Some?
    requires p == i || IsSpace(s[p - 1])
    ensures m < |Matches(s, i, k)| && Matches(s, i, k)[m] == MatchAt(s, p, k).value
  {
    MatchesIsScan(s, i, k);
    NoMatchAcross(s, k, i, p);
    m := ScanFindAt(|s|, At(s, k), i, p);
  }

  /** No match that starts before `p` runs past it when `p` begins the scan
      or follows whitespace. */
  lemma NoMatchAcross(s: string, k: RunClass, i: nat, p: nat)
    requires i <= p < |s|
    requires p == i || IsSpace(s[p - 1])
    ensures forall j: nat :: i <= j < p && At(s, k)(j).Some? ==> At(s, k)(j).value.end <= p
  {
    forall j: nat | i <= j < p && At(s, k)(j).Some? ensures At(s, k)(j).value.end <= p {
      var sp := MatchAt(s, j, k).value;
      if sp.end > p {
        NoSpaceInMatch(s, sp, k, p - 1);
      }
    }
  }

  /** utils.extract_domains: the lower-cased host group of each match, in order. */
  function ExtractDomains(text: string): (ds: seq<string>)
    ensures |ds| == |Matches(text, 0, HostRun)|
  {
    var ms := Matches(text, 0, HostRun);
    seq(|ms|, m requires 0 <= m < |ms| => Lower(text[ms[m].body..ms[m].end]))
  }

  /** extract_domains misses no match: wherever `https?://` and a host run
      begin, some extracted domain comes from a match covering that position. */
  lemma ExtractDomainsComplete(text: string, p: nat)
    requires p < |text| && MatchAt(text, p, HostRun).Some?
    ensures exists m :: (0 <= m < |ExtractDomains(text)| &&
      Matches(text, 0, HostRun)[m].start <= p < Matches(text, 0, HostRun)[m].end)
  {
    var m := MatchesComplete(text, 0, HostRun, p);
    assert m < |ExtractDomains(text)|;
  }

  /** A match at the start of the text or after whitespace gives its own
      entry: the lower-cased host that follows the scheme there. */
  lemma ExtractDomainsKeepsEach(text: string, p: nat)
    requires p < |text| && MatchAt(text, p, HostRun).Some?
    requires p == 0 || IsSpace(text[p - 1])
    ensures var sp := MatchAt(text, p, HostRun).value;
      exists m :: 0 <= m < |ExtractDomains(text)| && ExtractDomains(text)[m] == Lower(text[sp.body..sp.end])
  {
    var sp := MatchAt(text, p, HostRun).value;
    var m := MatchesFindAt(text, 0, HostRun, p);
    assert ExtractDomains(text)[m] == Lower(text[sp.body..sp.end]);
  }

  /** Every extracted domain is the non-empty, lower-cased run after a
      `http(s)://` and holds no `/` and no whitespace. */
  lemma ExtractDomainsEntries(text: string, m: nat)
    requires m < |ExtractDomains(text)|
    ensures var d := ExtractDomains(text)[m];
      var sp := Matches(text, 0, HostRun)[m];
      d == Lower(text[sp.body..sp.end]) && d != "" && NoUpper(d) &&
      forall c :: c in d ==> c != '/' && !IsSpace(c)
  {
    var sp := Matches(text, 0, HostRun)[m];
    var run := text[sp.body..sp.end];
    var d := ExtractDomains(text)[m];
    LowerIsLower(run);
    forall c | c in d ensures c != '/' && !IsSpace(c) {
      var q :| 0 <= q < |d| && d[q] == c;
      assert InRun(run[q], HostRun);
    }
  }
}
