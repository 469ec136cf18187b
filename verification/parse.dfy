// src/b9phish/parse.py: header normalisation, the loose scan of the
// Authentication-Results header, and the four mailbox addresses.
module Parse {
  import opened Utils

  // ---------------------------------------------------------------------------
  // headers_to_dict

  /** One `{'name': …, 'value': …}` record as the Gmail API returns it; a
      missing key is None. */
  datatype HeaderEntry = HeaderEntry(name: Option<string>, value: Option<string>)

  /** The two shapes headers_to_dict accepts: a dict, or a list of records. */
  datatype HeaderSource = HeaderMap(fields: map<string, string>) | HeaderList(entries: seq<HeaderEntry>)

  /** `h.get("name", "")` */
  function EntryName(h: HeaderEntry): string {
    match h.name
    case Some(n) => n
    case None => ""
  }

  /** `h.get("value", "")` */
  function EntryValue(h: HeaderEntry): string {
    match h.value
    case Some(v) => v
    case None => ""
  }

  /** No later record of `es` carries the name of record `i`. */
  predicate LastWithName(es: seq<HeaderEntry>, i: int, n: int)
    requires 0 <= i < n <= |es|
  {
    forall j :: i < j < n ==> EntryName(es[j]) != EntryName(es[i])
  }

  /** A dict comes back as it is. From a list, the result has a key for every
      record's name, and each key holds the value of the LAST record with that
      name (later records overwrite earlier ones). */
  method HeadersToDict(src: HeaderSource) returns (out: map<string, string>)
    ensures src.HeaderMap? ==> out == src.fields
    ensures src.HeaderList? ==>
      forall k :: k in out <==> exists i :: 0 <= i < |src.entries| && EntryName(src.entries[i]) == k
    ensures src.HeaderList? ==>
      forall i :: 0 <= i < |src.entries| && LastWithName(src.entries, i, |src.entries|) ==>
        EntryName(src.entries[i]) in out && out[EntryName(src.entries[i])] == EntryValue(src.entries[i])
  {
    if src.HeaderMap? {
      return src.fields;
    }
    var es := src.entries;
    out := map[];
    for n := 0 to |es|
      invariant forall k :: k in out <==> exists i :: 0 <= i < n && EntryName(es[i]) == k
      invariant forall i :: 0 <= i < n && LastWithName(es, i, n) ==>
        EntryName(es[i]) in out && out[EntryName(es[i])] == EntryValue(es[i])
    {
      out := out[EntryName(es[n]) := EntryValue(es[n])];
      forall i | 0 <= i < n + 1 && LastWithName(es, i, n + 1)
        ensures EntryName(es[i]) in out && out[EntryName(es[i])] == EntryValue(es[i])
      {
        if i < n {
          assert LastWithName(es, i, n);
        }
      }
    }
  }

  /** `headers.get(key, "")` */
  function HeaderValue(headers: map<string, string>, key: string): string {
    if key in headers then headers[key] else ""
  }

  // ---------------------------------------------------------------------------
  // parse_authentication_results

  /** The alternatives of `(pass|fail|softfail|neutral|none|policy)`, in order. */
  const AuthResults: seq<string> := ["pass", "fail", "softfail", "neutral", "none", "policy"]

  datatype Auth = Auth(spf: string, dkim: string, dmarc: string)

  /** The first alternative that matches at `j`. */
  function ResultAt(v: string, j: int): (r: Option<string>)
    ensures r.Some? ==> r.value in AuthResults && OccursAt(v, r.value, j)
    ensures r.None? ==> forall t :: t in AuthResults ==> !OccursAt(v, t, j)
  {
    if OccursAt(v, "pass", j) then Some("pass")
    else if OccursAt(v, "fail", j) then Some("fail")
    else if OccursAt(v, "softfail", j) then Some("softfail")
    else if OccursAt(v, "neutral", j) then Some("neutral")
    else if OccursAt(v, "none", j) then Some("none")
    else if OccursAt(v, "policy", j) then Some("policy")
    else None
  }

  /** The pattern `token=(pass|…|policy)` matches at `i`. */
  predicate PickMatchesAt(v: string, token: string, i: int) {
    OccursAt(v, token + "=", i) && ResultAt(v, i + |token| + 1).Some?
  }

  /** The inner `pick` of parse_authentication_results: re.search from `i`. */
  function PickFrom(v: string, token: string, i: nat): (r: string)
    ensures r in AuthResults
    decreases |v| + 1 - i
  {
    if i > |v| then "none"
    else if PickMatchesAt(v, token, i) then ResultAt(v, i + |token| + 1).value
    else PickFrom(v, token, i + 1)
  }

  /** The search returns the result of the FIRST position where `token=` is
      followed by a known result. */
  lemma {:induction false} PickIsFirstMatch(v: string, token: string, i: nat, p: nat)
    requires i <= p && PickMatchesAt(v, token, p)
    requires forall q :: i <= q < p ==> !PickMatchesAt(v, token, q)
    ensures PickFrom(v, token, i) == ResultAt(v, p + |token| + 1).value
    decreases p - i
  {
    if i < p {
      PickIsFirstMatch(v, token, i + 1, p);
    }
  }

  /** With no such position the result is "none". */
  lemma {:induction false} PickDefaultsToNone(v: string, token: string, i: nat)
    requires forall q :: i <= q <= |v| ==> !PickMatchesAt(v, token, q)
    ensures PickFrom(v, token, i) == "none"
    decreases |v| + 1 - i
  {
    if i <= |v| {
      PickDefaultsToNone(v, token, i + 1);
    }
  }

  /** parse_authentication_results: all "none" for an empty header, otherwise a
      case-insensitive search per mechanism; every result is one of the six. */
  function ParseAuthenticationResults(value: string): (a: Auth)
    ensures value == "" ==> a == Auth("none", "none", "none")
    ensures a.spf in AuthResults && a.dkim in AuthResults && a.dmarc in AuthResults
  {
    if value == "" then Auth("none", "none", "none")
    else
      var v := Lower(value);
      Auth(PickFrom(v, "spf", 0), PickFrom(v, "dkim", 0), PickFrom(v, "dmarc", 0))
  }

  // ---------------------------------------------------------------------------
  // extract_addresses

  /** What email.utils.parseaddr returns: a display name and an address. */
  datatype Mailbox = Mailbox(name: string, email: string)

  datatype Address = Address(name: string, email: string, domain: string)

  datatype Addresses = Addresses(fromAddr: Address, replyTo: Address, returnPath: Address,
                                 sender: Address, messageId: string)

  /** The inner `addr(k)`; `parseAddr` stands for email.utils.parseaddr. */
  function MailboxAddress(headers: map<string, string>, key: string, parseAddr: string -> Mailbox): (a: Address)
    ensures a.name == parseAddr(HeaderValue(headers, key)).name
    ensures a.email == parseAddr(HeaderValue(headers, key)).email
    ensures a.domain == DomainFromEmail(a.email)
  {
    var mb := parseAddr(HeaderValue(headers, key));
    Address(mb.name, mb.email, if '@' in mb.email then Lower(AfterLast(mb.email, '@')) else "")
  }

  /** The Return-Path record: no display name, the header with `<` and `>`
      stripped from both ends, and the domain of that stripped address. */
  function ReturnPathAddress(headers: map<string, string>): (a: Address)
    ensures a.name == ""
    ensures a.email == Strip(HeaderValue(headers, "Return-Path"), {'<', '>'})
    ensures a.domain == DomainFromEmail(a.email)
  {
    var raw := HeaderValue(headers, "Return-Path");
    var email := Strip(raw, {'<', '>'});
    StripKeeps(raw, {'<', '>'}, '@');
    Address("", email, if '@' in raw then Lower(AfterLast(email, '@')) else "")
  }

  /** extract_addresses: every domain is lower-case (or empty). */
  function ExtractAddresses(headers: map<string, string>, parseAddr: string -> Mailbox): (addrs: Addresses)
    ensures addrs.fromAddr == MailboxAddress(headers, "From", parseAddr)
    ensures addrs.replyTo == MailboxAddress(headers, "Reply-To", parseAddr)
    ensures addrs.sender == MailboxAddress(headers, "Sender", parseAddr)
    ensures addrs.returnPath == ReturnPathAddress(headers)
    ensures addrs.messageId == HeaderValue(headers, "Message-ID")
    ensures NoUpper(addrs.fromAddr.domain) && NoUpper(addrs.replyTo.domain) &&
            NoUpper(addrs.returnPath.domain) && NoUpper(addrs.sender.domain)
  {
    Addresses(MailboxAddress(headers, "From", parseAddr),
              MailboxAddress(headers, "Reply-To", parseAddr),
              ReturnPathAddress(headers),
              MailboxAddress(headers, "Sender", parseAddr),
              HeaderValue(headers, "Message-ID"))
  }
}
