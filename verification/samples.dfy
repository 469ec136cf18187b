// The worked examples of tests/test_features.py and tests/test_parse.py,
// carried through the model. Each sample text is built from short pieces so
// that every fact about it is a fact about one piece.
module Samples {
  import opened Utils
  import opened Parse
  import opened Features

  // ---------------------------------------------------------------------------
  // Text built from pieces

  /** Dropping a leading piece. */
  lemma Lead(s: string, i: nat, p: string, r: string)
    requires i <= |s| && s[i..] == p + r
    ensures i + |p| <= |s| && s[i..i + |p|] == p && s[i + |p|..] == r
  {
    assert s[i..i + |p|] == (p + r)[..|p|];
    assert s[i + |p|..] == (p + r)[|p|..];
  }

  /** Lower-case letters, digits, `.` and `-`: what the sample hosts are made of. */
  predicate HostChar(c: char) {
    ('a' <= c <= 'z') || ('0' <= c <= '9') || c == '.' || c == '-'
  }

  predicate AllHost(s: string) {
    forall q :: 0 <= q < |s| ==> HostChar(s[q])
  }

  /** A host followed by a path of host characters and `/`. */
  predicate AllUrlBody(s: string) {
    forall q :: 0 <= q < |s| ==> HostChar(s[q]) || s[q] == '/'
  }

  lemma AllHostJoin(x: string, y: string)
    requires AllHost(x) && AllHost(y)
    ensures AllHost(x + y)
  {
    forall q | 0 <= q < |x + y| ensures HostChar((x + y)[q]) {
      if q >= |x| {
        assert (x + y)[q] == y[q - |x|];
      }
    }
  }

  lemma AllUrlBodyJoin(x: string, y: string)
    requires AllHost(x) && AllUrlBody(y)
    ensures AllUrlBody(x + y)
  {
    forall q | 0 <= q < |x + y| ensures HostChar((x + y)[q]) || (x + y)[q] == '/' {
      if q >= |x| {
        assert (x + y)[q] == y[q - |x|];
      }
    }
  }

  /** Text with no upper-case letter is its own lower-case form. */
  lemma LowerSame(s: string)
    requires NoUpper(s)
    ensures Lower(s) == s
  {
  }

  /** TakeUntil stops exactly where the first stop character is. */
  lemma {:induction false} TakeUntilBefore(x: string, y: string, cs: set<char>)
    requires forall q :: 0 <= q < |x| ==> x[q] !in cs
    requires y == [] || y[0] in cs
    ensures TakeUntil(x + y, cs) == x
  {
    if x != [] {
      assert (x + y)[0] == x[0];
      assert (x + y)[1..] == x[1..] + y;
      TakeUntilBefore(x[1..], y, cs);
    } else {
      assert x + y == y;
    }
  }

  /** AfterLast keeps the whole text when the separator is absent. */
  lemma AfterLastWhole(x: string, c: char)
    requires c !in x
    ensures AfterLast(x, c) == x
  {
    var r := AfterLast(x, c);
    assert forall q :: 0 <= q < |x| ==> x[q] != c;
    assert x[|x| - |r|..] == x[0..];
  }

  // ---------------------------------------------------------------------------
  // Scanning a sample for URLs

  /** No match starts inside a piece without `h`. */
  lemma SkipPiece(s: string, i: nat, p: string, k: RunClass)
    requires i + |p| <= |s| && s[i..i + |p|] == p
    requires 'h' !in p && 'H' !in p
    ensures forall q :: i <= q < i + |p| ==> MatchAt(s, q, k) == None
  {
    forall q | i <= q < i + |p| ensures MatchAt(s, q, k) == None {
      assert s[q] == p[q - i];
      MatchNeedsH(s, q, k);
    }
  }

  /** The scan passes over positions where nothing matches. */
  lemma {:induction false} ScanSkip(n: nat, at: nat -> Option<Span>, i: nat, j: nat)
    requires i <= j <= n && Matcher(n, at)
    requires forall q :: i <= q < j ==> at(q) == None
    ensures Scan(n, at, i) == Scan(n, at, j)
    decreases j - i
  {
    if i < j {
      ScanSkip(n, at, i + 1, j);
    }
  }

  /** The scan takes a match and goes on after it. */
  lemma ScanHit(n: nat, at: nat -> Option<Span>, i: nat, sp: Span)
    requires i < n && Matcher(n, at) && at(i) == Some(sp)
    ensures Scan(n, at, i) == [sp] + Scan(n, at, sp.end)
  {
  }

  /** A scan that meets exactly two matches. */
  lemma ScanTwo(n: nat, at: nat -> Option<Span>, sp1: Span, sp2: Span)
    requires Matcher(n, at) && sp1.end <= sp2.start < n
    requires at(sp1.start) == Some(sp1) && at(sp2.start) == Some(sp2)
    requires forall q :: 0 <= q < sp1.start ==> at(q) == None
    requires forall q :: sp1.end <= q < sp2.start ==> at(q) == None
    requires forall q :: sp2.end <= q < n ==> at(q) == None
    ensures Scan(n, at, 0) == [sp1, sp2]
  {
    ScanSkip(n, at, 0, sp1.start);
    ScanHit(n, at, sp1.start, sp1);
    ScanSkip(n, at, sp1.end, sp2.start);
    ScanHit(n, at, sp2.start, sp2);
    ScanSkip(n, at, sp2.end, n);
  }

  /** The same for re.findall over a text. */
  lemma MatchesTwo(s: string, k: RunClass, sp1: Span, sp2: Span)
    requires sp1.start <= sp1.end <= sp2.start < |s|
    requires MatchAt(s, sp1.start, k) == Some(sp1) && MatchAt(s, sp2.start, k) == Some(sp2)
    requires forall q :: 0 <= q < sp1.start ==> MatchAt(s, q, k) == None
    requires forall q :: sp1.end <= q < sp2.start ==> MatchAt(s, q, k) == None
    requires forall q :: sp2.end <= q < |s| ==> MatchAt(s, q, k) == None
    ensures Matches(s, 0, k) == [sp1, sp2]
  {
    AtMatcher(s, k);
    ScanTwo(|s|, At(s, k), sp1, sp2);
    MatchesIsScan(s, 0, k);
  }

  /** RunEnd is the first position, from `j`, outside the run class. */
  lemma RunEndAt(s: string, j: nat, e: nat, k: RunClass)
    requires j <= e <= |s|
    requires forall m :: j <= m < e ==> InRun(s[m], k)
    requires e == |s| || !InRun(s[e], k)
    ensures RunEnd(s, j, k) == e
  {
  }

  lemma HttpsAt(s: string, i: nat)
    requires i + 8 <= |s| && s[i..i + 8] == "https://"
    ensures SchemePrefixLen(s, i) == 8
  {
    LowerSame("https://");
  }

  /** The match at a lower-case `https://` followed by a URL body, then
      whitespace or the end. */
  lemma UrlMatchAt(s: string, i: nat, b: string)
    requires i + 8 + |b| <= |s| && s[i..i + 8 + |b|] == "https://" + b
    requires b != [] && AllUrlBody(b) && (i + 8 + |b| == |s| || IsSpace(s[i + 8 + |b|]))
    ensures MatchAt(s, i, UrlRun) == Some(Span(i, i + 8, i + 8 + |b|))
  {
    var e := i + 8 + |b|;
    assert s[i..i + 8] == s[i..e][..8];
    HttpsAt(s, i);
    forall m | i + 8 <= m < e ensures InRun(s[m], UrlRun) {
      assert s[m] == s[i..e][m - i] == b[m - i - 8];
    }
    RunEndAt(s, i + 8, e, UrlRun);
  }

  /** Two URLs, each after text without `h` and before whitespace or the end. */
  lemma TwoUrls(a: string, b1: string, c: string, b2: string, d: string)
    requires 'h' !in a && 'H' !in a && 'h' !in c && 'H' !in c && 'h' !in d && 'H' !in d
    requires b1 != [] && AllUrlBody(b1) && b2 != [] && AllUrlBody(b2)
    requires c != [] && IsSpace(c[0]) && (d == [] || IsSpace(d[0]))
    ensures ExtractUrls(a + (("https://" + b1) + (c + (("https://" + b2) + d)))) ==
      ["https://" + b1, "https://" + b2]
  {
    var s := a + (("https://" + b1) + (c + (("https://" + b2) + d)));
    var L := Layout(|a|, |a| + 8 + |b1|, |a| + 8 + |b1| + |c|, |a| + 8 + |b1| + |c| + 8 + |b2|);
    TwoUrlsLayout(s, a, b1, c, b2, d, L);
    TwoUrlsMatches(s, a, b1, c, b2, d, L);
    assert ExtractUrls(s)[0] == s[L.i1..L.e1];
    assert ExtractUrls(s)[1] == s[L.i2..L.e2];
  }

  /** Where the two URLs of a sample start and end. */
  datatype Layout = Layout(i1: nat, e1: nat, i2: nat, e2: nat)

  /** `s` is `a`, a URL, `c`, a URL and `d`, in that order, as `L` says. */
  predicate LaidOut(s: string, a: string, b1: string, c: string, b2: string, d: string, L: Layout) {
    L.i1 == |a| && L.e1 == L.i1 + 8 + |b1| && L.i2 == L.e1 + |c| && L.e2 == L.i2 + 8 + |b2| &&
    |s| == L.e2 + |d| && s[..L.i1] == a && s[L.i1..L.e1] == "https://" + b1 &&
    s[L.e1..L.i2] == c && s[L.i2..L.e2] == "https://" + b2 && s[L.e2..] == d
  }

  lemma TwoUrlsLayout(s: string, a: string, b1: string, c: string, b2: string, d: string, L: Layout)
    requires s == a + (("https://" + b1) + (c + (("https://" + b2) + d)))
    requires L.i1 == |a| && L.e1 == L.i1 + 8 + |b1| && L.i2 == L.e1 + |c| && L.e2 == L.i2 + 8 + |b2|
    ensures LaidOut(s, a, b1, c, b2, d, L)
  {
    var r1 := c + (("https://" + b2) + d);
    var r2 := ("https://" + b2) + d;
    assert s[0..] == s;
    Lead(s, 0, a, ("https://" + b1) + r1);
    Lead(s, L.i1, "https://" + b1, r1);
    Lead(s, L.e1, c, r2);
    Lead(s, L.i2, "https://" + b2, d);
  }

  lemma TwoUrlsMatches(s: string, a: string, b1: string, c: string, b2: string, d: string, L: Layout)
    requires LaidOut(s, a, b1, c, b2, d, L)
    requires 'h' !in a && 'H' !in a && 'h' !in c && 'H' !in c && 'h' !in d && 'H' !in d
    requires b1 != [] && AllUrlBody(b1) && b2 != [] && AllUrlBody(b2)
    requires c != [] && IsSpace(c[0]) && (d == [] || IsSpace(d[0]))
    ensures Matches(s, 0, UrlRun) == [Span(L.i1, L.i1 + 8, L.e1), Span(L.i2, L.i2 + 8, L.e2)]
  {
    TwoUrlsHits(s, a, b1, c, b2, d, L);
    TwoUrlsGaps(s, a, b1, c, b2, d, L);
    MatchesTwo(s, UrlRun, Span(L.i1, L.i1 + 8, L.e1), Span(L.i2, L.i2 + 8, L.e2));
  }

  lemma TwoUrlsHits(s: string, a: string, b1: string, c: string, b2: string, d: string, L: Layout)
    requires LaidOut(s, a, b1, c, b2, d, L)
    requires b1 != [] && AllUrlBody(b1) && b2 != [] && AllUrlBody(b2)
    requires c != [] && IsSpace(c[0]) && (d == [] || IsSpace(d[0]))
    ensures MatchAt(s, L.i1, UrlRun) == Some(Span(L.i1, L.i1 + 8, L.e1))
    ensures MatchAt(s, L.i2, UrlRun) == Some(Span(L.i2, L.i2 + 8, L.e2))
  {
    assert s[L.e1] == s[L.e1..L.i2][0];
    assert L.e2 < |s| ==> s[L.e2] == s[L.e2..][0];
    UrlMatchAt(s, L.i1, b1);
    UrlMatchAt(s, L.i2, b2);
  }

  lemma TwoUrlsGaps(s: string, a: string, b1: string, c: string, b2: string, d: string, L: Layout)
    requires LaidOut(s, a, b1, c, b2, d, L)
    requires 'h' !in a && 'H' !in a && 'h' !in c && 'H' !in c && 'h' !in d && 'H' !in d
    ensures forall q :: 0 <= q < L.i1 ==> MatchAt(s, q, UrlRun) == None
    ensures forall q :: L.e1 <= q < L.i2 ==> MatchAt(s, q, UrlRun) == None
    ensures forall q :: L.e2 <= q < |s| ==> MatchAt(s, q, UrlRun) == None
  {
    SkipPiece(s, 0, a, UrlRun);
    SkipPiece(s, L.e1, c, UrlRun);
    SkipPiece(s, L.e2, d, UrlRun);
  }

  // ---------------------------------------------------------------------------
  // The host of a URL

  /** What a host of lower-case letters, digits, `.` and `-` is free of. */
  lemma HostFacts(h: string)
    requires AllHost(h)
    ensures forall q :: 0 <= q < |h| ==> h[q] !in {'/', '?', '#'}
    ensures !UnmatchedBracket(h) && NoUpper(h) && Lower(h) == h
    ensures TakeUntil(h, {':'}) == h
  {
    forall q | 0 <= q < |h|
      ensures h[q] !in {'/', '?', '#'} && h[q] !in {':'} && !IsUpper(h[q]) && h[q] != '[' && h[q] != ']'
    {
      assert HostChar(h[q]);
    }
    TakeUntilBefore(h, [], {':'});
    assert h + [] == h;
  }

  /** A lower-case `https://`, a host, then the end or a path: urllib reads
      the scheme `https` and the host as the netloc. */
  lemma HttpsSplit(u: string, h: string, r: string)
    requires u == "https://" + (h + r)
    requires AllHost(h) && (r == [] || r[0] == '/')
    ensures UrlSplit(u) == Some(UrlParts("https", h))
  {
    assert u[0..] == u;
    Lead(u, 0, "https://", h + r);
    LowerSame("https://");
    SchemeNetloc(u, "https://");
    assert "https://"[..5] == "https";
    HostFacts(h);
    TakeUntilBefore(h, r, {'/', '?', '#'});
  }

  /** ... and split_host returns that host. */
  lemma HttpsHost(u: string, h: string, r: string)
    requires u == "https://" + (h + r)
    requires AllHost(h) && (r == [] || r[0] == '/')
    ensures UrlSplit(u) == Some(UrlParts("https", h))
    ensures SplitHost(u) == h
  {
    HttpsSplit(u, h, r);
    HostFacts(h);
  }

  // ---------------------------------------------------------------------------
  // tests/test_features.py

  const Host1 := "login.example.zip"
  const Host2 := "microsoft" + ("-" + ("support" + ("-verify" + ".example.com")))
  const Url1 := "https://" + (Host1 + "/reset")
  const Url2 := "https://" + (Host2 + "")
  const FeatureText := "Click " + (Url1 + (" and " + (Url2 + " now")))

  lemma Host1Chars()
    ensures AllHost(Host1) && AllUrlBody(Host1 + "/reset")
  {
    assert AllUrlBody("/reset");
    AllUrlBodyJoin(Host1, "/reset");
  }

  lemma Host2Chars()
    ensures AllHost(Host2) && AllUrlBody(Host2 + "")
  {
    assert AllHost("microsoft") && AllHost("-") && AllHost("support") && AllHost("-verify") && AllHost(".example.com");
    AllHostJoin("-verify", ".example.com");
    AllHostJoin("support", "-verify" + ".example.com");
    AllHostJoin("-", "support" + ("-verify" + ".example.com"));
    AllHostJoin("microsoft", "-" + ("support" + ("-verify" + ".example.com")));
    assert Host2 + "" == Host2;
  }

  /** The body text yields its two URLs, in order. */
  lemma FeatureTextUrls()
    ensures ExtractUrls(FeatureText) == [Url1, Url2]
  {
    Host1Chars();
    Host2Chars();
    TwoUrls("Click ", Host1 + "/reset", " and ", Host2 + "", " now");
  }

  /** With the public suffix of `login.example.zip` read as `zip`, the first
      URL is flagged for its TLD. */
  lemma Url1SuspiciousTld(suffixOf: string -> string)
    requires suffixOf(Host1) == "zip"
    ensures UrlHeuristics(Url1, suffixOf).suspiciousTld
  {
    Host1Chars();
    HttpsHost(Url1, Host1, "/reset");
    ZipSuspicious(Host1, suffixOf);
  }

  lemma ZipSuspicious(host: string, suffixOf: string -> string)
    requires suffixOf(host) == "zip"
    ensures SuspiciousTld(host, suffixOf)
  {
    AfterLastWhole("zip", '.');
  }

  /** `microsoft`, one `-`, then `support`. */
  lemma Host2Deceptive()
    ensures DeceptiveKeywords(Host2)
  {
    var h := Host2;
    Host2Chars();
    HostFacts(h);
    assert h[0..] == h;
    Lead(h, 0, "microsoft", "-" + ("support" + ("-verify" + ".example.com")));
    Lead(h, 9, "-", "support" + ("-verify" + ".example.com"));
    Lead(h, 10, "support", "-verify" + ".example.com");
    assert "microsoft" in Brands && "support" in Actions;
    assert OccursAt(h, "microsoft", 0) && OccursAt(h, "support", 0 + |"microsoft"| + 1);
    assert '/' !in h[9..10];
    assert BrandThenAction(Lower(h), 0, 1);
  }

  /** The second URL is flagged for a brand followed by an action word. */
  lemma Url2Deceptive(suffixOf: string -> string)
    ensures UrlHeuristics(Url2, suffixOf).deceptiveKeywords
  {
    Host2Chars();
    HttpsHost(Url2, Host2, "");
    Host2Deceptive();
  }

  /** test_url_extract_and_heuristics: the body yields two URLs; with the
      public suffix of `login.example.zip` read as `zip`, one of them is
      flagged for its TLD and one for deceptive keywords. */
  lemma UrlExtractAndHeuristics(suffixOf: string -> string)
    requires suffixOf(Host1) == "zip"
    ensures |ExtractUrls(FeatureText)| == 2
    ensures UrlHeuristics(ExtractUrls(FeatureText)[0], suffixOf).suspiciousTld
    ensures UrlHeuristics(ExtractUrls(FeatureText)[1], suffixOf).deceptiveKeywords
  {
    FeatureTextUrls();
    Url1SuspiciousTld(suffixOf);
    Url2Deceptive(suffixOf);
  }

  // ---------------------------------------------------------------------------
  // tests/test_parse.py

  /** The Authentication-Results header of the test, in pieces: `Ar(k)` is
      the header from its k-th piece on. */
  const Ar0 := "m" + Ar1
  const Ar1 := "x." + Ar2
  const Ar2 := "google.com; " + Ar3
  const Ar3 := "spf=" + Ar4
  const Ar4 := "fail" + Ar5
  const Ar5 := " (google.com: " + Ar6
  const Ar6 := "domain of spoofed" + Ar7
  const Ar7 := ".com does not " + Ar8
  const Ar8 := "designate 1.2.3.4" + Ar9
  const Ar9 := " as pe" + Ar10
  const Ar10 := "r" + Ar11
  const Ar11 := "mitted sender) " + Ar12
  const Ar12 := "smtp.mailfrom=" + Ar13
  const Ar13 := "spoofe" + Ar14
  const Ar14 := "d." + Ar15
  const Ar15 := "com; " + Ar16
  const Ar16 := "d" + Ar17
  const Ar17 := "kim=" + Ar18
  const Ar18 := "none" + Ar19
  const Ar19 := "; " + Ar20
  const Ar20 := "dm" + Ar21
  const Ar21 := "arc=" + Ar22
  const Ar22 := "none"
  const AuthHeader := Ar0

  /** Where the pieces of the header sit. */
  lemma AuthPieces1()
    ensures |AuthHeader| == 155
    ensures AuthHeader[0..1] == "m"
    ensures AuthHeader[1..3] == "x."
    ensures AuthHeader[3..15] == "google.com; "
    ensures AuthHeader[15..19] == "spf="
    ensures AuthHeader[19..23] == "fail"
    ensures AuthHeader[23..37] == " (google.com: "
    ensures AuthHeader[37..] == Ar6
  {
    assert AuthHeader[0..] == Ar0;
    Lead(AuthHeader, 0, "m", Ar1);
    Lead(AuthHeader, 1, "x.", Ar2);
    Lead(AuthHeader, 3, "google.com; ", Ar3);
    Lead(AuthHeader, 15, "spf=", Ar4);
    Lead(AuthHeader, 19, "fail", Ar5);
    Lead(AuthHeader, 23, " (google.com: ", Ar6);
  }

  lemma AuthPieces2()
    ensures |AuthHeader| == 155
    ensures AuthHeader[37..54] == "domain of spoofed"
    ensures AuthHeader[54..68] == ".com does not "
    ensures AuthHeader[68..85] == "designate 1.2.3.4"
    ensures AuthHeader[85..91] == " as pe"
    ensures AuthHeader[91..92] == "r"
    ensures AuthHeader[92..107] == "mitted sender) "
    ensures AuthHeader[107..] == Ar12
  {
    AuthPieces1();
    Lead(AuthHeader, 37, "domain of spoofed", Ar7);
    Lead(AuthHeader, 54, ".com does not ", Ar8);
    Lead(AuthHeader, 68, "designate 1.2.3.4", Ar9);
    Lead(AuthHeader, 85, " as pe", Ar10);
    Lead(AuthHeader, 91, "r", Ar11);
    Lead(AuthHeader, 92, "mitted sender) ", Ar12);
  }

  lemma AuthPieces3()
    ensures |AuthHeader| == 155
    ensures AuthHeader[107..121] == "smtp.mailfrom="
    ensures AuthHeader[121..127] == "spoofe"
    ensures AuthHeader[127..129] == "d."
    ensures AuthHeader[129..134] == "com; "
    ensures AuthHeader[134..135] == "d"
    ensures AuthHeader[135..139] == "kim="
    ensures AuthHeader[139..] == Ar18
  {
    AuthPieces2();
    Lead(AuthHeader, 107, "smtp.mailfrom=", Ar13);
    Lead(AuthHeader, 121, "spoofe", Ar14);
    Lead(AuthHeader, 127, "d.", Ar15);
    Lead(AuthHeader, 129, "com; ", Ar16);
    Lead(AuthHeader, 134, "d", Ar17);
    Lead(AuthHeader, 135, "kim=", Ar18);
  }

  lemma AuthPieces4()
    ensures |AuthHeader| == 155
    ensures AuthHeader[139..143] == "none"
    ensures AuthHeader[143..145] == "; "
    ensures AuthHeader[145..147] == "dm"
    ensures AuthHeader[147..151] == "arc="
    ensures AuthHeader[151..155] == "none"
  {
    AuthPieces3();
    Lead(AuthHeader, 139, "none", Ar19);
    Lead(AuthHeader, 143, "; ", Ar20);
    Lead(AuthHeader, 145, "dm", Ar21);
    Lead(AuthHeader, 147, "arc=", Ar22);
    assert "none" + [] == "none";
    Lead(AuthHeader, 151, "none", []);
  }

  /** Every piece of the header where it belongs. */
  predicate AuthLaidOut(v: string) {
    |v| == 155 &&
    v[0..1] == "m" && v[1..3] == "x." && v[3..15] == "google.com; " &&
    v[15..19] == "spf=" && v[19..23] == "fail" && v[23..37] == " (google.com: " &&
    v[37..54] == "domain of spoofed" && v[54..68] == ".com does not " && v[68..85] == "designate 1.2.3.4" &&
    v[85..91] == " as pe" && v[91..92] == "r" && v[92..107] == "mitted sender) " &&
    v[107..121] == "smtp.mailfrom=" && v[121..127] == "spoofe" && v[127..129] == "d." &&
    v[129..134] == "com; " && v[134..135] == "d" && v[135..139] == "kim=" &&
    v[139..143] == "none" && v[143..145] == "; " && v[145..147] == "dm" &&
    v[147..151] == "arc=" && v[151..155] == "none"
  }

  lemma AuthLayout()
    ensures AuthLaidOut(AuthHeader)
  {
    AuthPieces1();
    AuthPieces2();
    AuthPieces3();
    AuthPieces4();
  }

  /** No `token=` starts in [i, e) when, `n` characters in, the header never
      holds the n-th character of `token=`. */
  lemma NoPickBy(v: string, token: string, i: nat, e: nat, n: nat)
    requires n <= |token| && e + n <= |v|
    requires forall q :: i + n <= q < e + n ==> v[q] != (token + "=")[n]
    ensures forall q :: i <= q < e ==> !PickMatchesAt(v, token, q)
  {
    forall q | i <= q < e ensures !OccursAt(v, token + "=", q) {
      if q + |token| + 1 <= |v| {
        assert v[q..q + |token| + 1][n] == v[q + n];
      }
    }
  }

  lemma CharAbsent(v: string, i: nat, p: string, c: char)
    requires i + |p| <= |v| && v[i..i + |p|] == p && c !in p
    ensures forall q :: i <= q < i + |p| ==> v[q] != c
  {
    forall q | i <= q < i + |p| ensures v[q] != c {
      assert v[q] == p[q - i];
    }
  }

  lemma NoUpperPiece(v: string, i: nat, p: string)
    requires i + |p| <= |v| && v[i..i + |p|] == p && NoUpper(p)
    ensures forall q :: i <= q < i + |p| ==> !IsUpper(v[q])
  {
    forall q | i <= q < i + |p| ensures !IsUpper(v[q]) {
      assert v[q] == p[q - i];
    }
  }

  lemma Join(v: string, i: nat, j: nat, k: nat)
    requires i <= j <= k <= |v|
    ensures v[i..k] == v[i..j] + v[j..k]
  {
  }

  /** No `s` before `spf=`. */
  lemma AbsentS(v: string)
    requires AuthLaidOut(v)
    ensures forall q :: 0 <= q < 15 ==> v[q] != 's'
  {
    CharAbsent(v, 0, "m", 's');
    CharAbsent(v, 1, "x.", 's');
    CharAbsent(v, 3, "google.com; ", 's');
  }

  /** No `k` before `dkim=`. */
  lemma AbsentK(v: string)
    requires AuthLaidOut(v)
    ensures forall q :: 1 <= q < 135 ==> v[q] != 'k'
  {
    AbsentK1(v);
    AbsentK2(v);
    AbsentK3(v);
  }

  lemma AbsentK1(v: string)
    requires AuthLaidOut(v)
    ensures forall q :: 1 <= q < 54 ==> v[q] != 'k'
  {
    CharAbsent(v, 1, "x.", 'k');
    CharAbsent(v, 3, "google.com; ", 'k');
    CharAbsent(v, 15, "spf=", 'k');
    CharAbsent(v, 19, "fail", 'k');
    CharAbsent(v, 23, " (google.com: ", 'k');
    CharAbsent(v, 37, "domain of spoofed", 'k');
  }

  lemma AbsentK2(v: string)
    requires AuthLaidOut(v)
    ensures forall q :: 54 <= q < 121 ==> v[q] != 'k'
  {
    CharAbsent(v, 54, ".com does not ", 'k');
    CharAbsent(v, 68, "designate 1.2.3.4", 'k');
    CharAbsent(v, 85, " as pe", 'k');
    CharAbsent(v, 91, "r", 'k');
    CharAbsent(v, 92, "mitted sender) ", 'k');
    CharAbsent(v, 107, "smtp.mailfrom=", 'k');
  }

  lemma AbsentK3(v: string)
    requires AuthLaidOut(v)
    ensures forall q :: 121 <= q < 135 ==> v[q] != 'k'
  {
    CharAbsent(v, 121, "spoofe", 'k');
    CharAbsent(v, 127, "d.", 'k');
    CharAbsent(v, 129, "com; ", 'k');
    CharAbsent(v, 134, "d", 'k');
  }

  /** No `r` three places into a would-be `dmarc=` before 88. */
  lemma AbsentR(v: string)
    requires AuthLaidOut(v)
    ensures forall q :: 3 <= q < 91 ==> v[q] != 'r'
  {
    CharAbsent(v, 3, "google.com; ", 'r');
    CharAbsent(v, 15, "spf=", 'r');
    CharAbsent(v, 19, "fail", 'r');
    CharAbsent(v, 23, " (google.com: ", 'r');
    CharAbsent(v, 37, "domain of spoofed", 'r');
    CharAbsent(v, 54, ".com does not ", 'r');
    CharAbsent(v, 68, "designate 1.2.3.4", 'r');
    CharAbsent(v, 85, " as pe", 'r');
  }

  /** No `c` four places into a would-be `dmarc=` from 88 to 125. */
  lemma AbsentC(v: string)
    requires AuthLaidOut(v)
    ensures forall q :: 92 <= q < 129 ==> v[q] != 'c'
  {
    CharAbsent(v, 92, "mitted sender) ", 'c');
    CharAbsent(v, 107, "smtp.mailfrom=", 'c');
    CharAbsent(v, 121, "spoofe", 'c');
    CharAbsent(v, 127, "d.", 'c');
  }

  /** No `a` two places into a would-be `dmarc=` from 125 to 145. */
  lemma AbsentA(v: string)
    requires AuthLaidOut(v)
    ensures forall q :: 127 <= q < 147 ==> v[q] != 'a'
  {
    CharAbsent(v, 127, "d.", 'a');
    CharAbsent(v, 129, "com; ", 'a');
    CharAbsent(v, 134, "d", 'a');
    CharAbsent(v, 135, "kim=", 'a');
    CharAbsent(v, 139, "none", 'a');
    CharAbsent(v, 143, "; ", 'a');
    CharAbsent(v, 145, "dm", 'a');
  }

  /** `spf=fail` at 15. */
  lemma AuthSpf(v: string)
    requires AuthLaidOut(v)
    ensures PickFrom(v, "spf", 0) == "fail"
  {
    AbsentS(v);
    assert "spf" + "=" == "spf=";
    NoPickBy(v, "spf", 0, 15, 0);
    assert PickMatchesAt(v, "spf", 15);
    assert ResultAt(v, 19) == Some("fail");
    PickIsFirstMatch(v, "spf", 0, 15);
  }

  /** `dkim=none` at 134. */
  lemma AuthDkim(v: string)
    requires AuthLaidOut(v)
    ensures PickFrom(v, "dkim", 0) == "none"
  {
    AbsentK(v);
    assert "dkim" + "=" == "dkim=";
    NoPickBy(v, "dkim", 0, 134, 1);
    DkimAt(v);
    PickIsFirstMatch(v, "dkim", 0, 134);
  }

  lemma DkimAt(v: string)
    requires AuthLaidOut(v)
    ensures PickMatchesAt(v, "dkim", 134) && ResultAt(v, 139) == Some("none")
  {
    Join(v, 134, 135, 139);
    assert "d" + "kim=" == "dkim=";
    assert "dkim" + "=" == "dkim=";
    assert v[139] == v[139..143][0] && v[140] == v[139..143][1];
  }

  /** `dmarc=none` at 145; before it, every position misses an `r`, a `c` or
      an `a` where `dmarc=` would need one. */
  lemma AuthDmarc(v: string)
    requires AuthLaidOut(v)
    ensures PickFrom(v, "dmarc", 0) == "none"
  {
    assert "dmarc" + "=" == "dmarc=";
    AbsentR(v);
    NoPickBy(v, "dmarc", 0, 88, 3);
    AbsentC(v);
    NoPickBy(v, "dmarc", 88, 125, 4);
    AbsentA(v);
    NoPickBy(v, "dmarc", 125, 145, 2);
    DmarcAt(v);
    PickIsFirstMatch(v, "dmarc", 0, 145);
  }

  lemma DmarcAt(v: string)
    requires AuthLaidOut(v)
    ensures PickMatchesAt(v, "dmarc", 145) && ResultAt(v, 151) == Some("none")
  {
    Join(v, 145, 147, 151);
    assert "dm" + "arc=" == "dmarc=";
    assert "dmarc" + "=" == "dmarc=";
  }

  lemma AuthNoUpper(v: string)
    requires AuthLaidOut(v)
    ensures NoUpper(v)
  {
    AuthNoUpper1(v);
    AuthNoUpper2(v);
    AuthNoUpper3(v);
    AuthNoUpper4(v);
  }

  lemma AuthNoUpper1(v: string)
    requires AuthLaidOut(v)
    ensures forall q :: 0 <= q < 37 ==> !IsUpper(v[q])
  {
    NoUpperPiece(v, 0, "m");
    NoUpperPiece(v, 1, "x.");
    NoUpperPiece(v, 3, "google.com; ");
    NoUpperPiece(v, 15, "spf=");
    NoUpperPiece(v, 19, "fail");
    NoUpperPiece(v, 23, " (google.com: ");
  }

  lemma AuthNoUpper2(v: string)
    requires AuthLaidOut(v)
    ensures forall q :: 37 <= q < 107 ==> !IsUpper(v[q])
  {
    NoUpperPiece(v, 37, "domain of spoofed");
    NoUpperPiece(v, 54, ".com does not ");
    NoUpperPiece(v, 68, "designate 1.2.3.4");
    NoUpperPiece(v, 85, " as pe");
    NoUpperPiece(v, 91, "r");
    NoUpperPiece(v, 92, "mitted sender) ");
  }

  lemma AuthNoUpper3(v: string)
    requires AuthLaidOut(v)
    ensures forall q :: 107 <= q < 139 ==> !IsUpper(v[q])
  {
    NoUpperPiece(v, 107, "smtp.mailfrom=");
    NoUpperPiece(v, 121, "spoofe");
    NoUpperPiece(v, 127, "d.");
    NoUpperPiece(v, 129, "com; ");
    NoUpperPiece(v, 134, "d");
    NoUpperPiece(v, 135, "kim=");
  }

  lemma AuthNoUpper4(v: string)
    requires AuthLaidOut(v)
    ensures forall q :: 139 <= q < 155 ==> !IsUpper(v[q])
  {
    NoUpperPiece(v, 139, "none");
    NoUpperPiece(v, 143, "; ");
    NoUpperPiece(v, 145, "dm");
    NoUpperPiece(v, 147, "arc=");
    NoUpperPiece(v, 151, "none");
  }

  /** test_parse_auth_results_basic: spf fail, dkim none, dmarc none. */
  lemma ParseAuthResultsBasic()
    ensures ParseAuthenticationResults(AuthHeader) == Auth("fail", "none", "none")
  {
    var v := AuthHeader;
    AuthLayout();
    AuthNoUpper(v);
    LowerSame(v);
    AuthSpf(v);
    AuthDkim(v);
    AuthDmarc(v);
  }
}
