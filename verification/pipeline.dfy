// The extractor and the rule engine together: what `score` can and cannot
// report for a feature bundle built by _extract_common
// (src/b9phish/features.py) rather than one written by hand.
module Pipeline {
  import opened Utils
  import opened Parse
  import opened Features
  import opened Rules

  /** DANGEROUS_ATTACHMENT is never reported for an extracted message: the
      extractor always leaves the attachment list empty. */
  lemma NoDangerousAttachment(headers: map<string, string>, content: string,
                              parseAddr: string -> Mailbox, suffixOf: string -> string, allow: seq<string>)
    ensures DangerousAttachment !in ExpectedHits(ExtractCommon(headers, content, parseAddr, suffixOf), allow)
  {
    DangerousAttachmentHit(ExtractCommon(headers, content, parseAddr, suffixOf), allow);
  }

  /** The extractor never yields a DMARC result of "reject", so the combo's
      `dmarc in {"none", "reject"}` test is only ever met by "none". */
  lemma NoRejectFromExtractor(headers: map<string, string>, content: string,
                              parseAddr: string -> Mailbox, suffixOf: string -> string, base: seq<RuleId>)
    ensures var auth := ExtractCommon(headers, content, parseAddr, suffixOf).auth;
      auth.dmarc != "reject" &&
      (ComboFires(base, auth) <==> ComboFiresWithoutReject(base, auth))
  {
    ComboWithoutReject(base, ExtractCommon(headers, content, parseAddr, suffixOf).auth);
  }

  /** The extracted Reply-To domain is lower-case, so an allowlist entry with
      an upper-case letter never matches it: such an allowlist changes
      nothing. */
  lemma UpperCaseAllowlistIgnored(headers: map<string, string>, content: string,
                                  parseAddr: string -> Mailbox, suffixOf: string -> string, allow: seq<string>)
    requires forall a :: a in allow ==> !NoUpper(a)
    ensures var f := ExtractCommon(headers, content, parseAddr, suffixOf);
      ExpectedHits(f, allow) == ExpectedHits(f, [])
  {
    var f := ExtractCommon(headers, content, parseAddr, suffixOf);
    AllowlistOnlyExemptsReplyTo(f, allow);
  }

  /** For extracted URLs the protocol test never fires, so
      PORT_PROTOCOL_ODDITY comes only from an IP-literal host or a
      non-standard port. */
  lemma PortProtocolFromHostOnly(headers: map<string, string>, content: string,
                                 parseAddr: string -> Mailbox, suffixOf: string -> string, allow: seq<string>)
    ensures var f := ExtractCommon(headers, content, parseAddr, suffixOf);
      PortProtocolOddity in ExpectedHits(f, allow) <==>
        exists k :: 0 <= k < |f.urlSignals| && (f.urlSignals[k].ipLiteral || f.urlSignals[k].nonStdPort)
  {
    var f := ExtractCommon(headers, content, parseAddr, suffixOf);
    BaseRuleHit(f, allow, 12);
    forall k | 0 <= k < |f.urlSignals|
      ensures !f.urlSignals[k].oddProtocol
    {
      ExtractedUrlIsNotOddProtocol(content, k, suffixOf);
    }
  }

  /** A message with no headers and no content (parseaddr of "" giving an
      empty name and address) still trips DKIM_FAIL_OR_NODMARC: the missing
      Authentication-Results header reads as dkim=none and dmarc=none. Its
      score is that rule's weight. */
  lemma EmptyMessageHits(parseAddr: string -> Mailbox, suffixOf: string -> string,
                         allow: seq<string>, weights: map<string, int>)
    requires parseAddr("") == Mailbox("", "")
    ensures var hits := ExpectedHits(ExtractCommon(map[], "", parseAddr, suffixOf), allow);
      hits == [DkimFailOrNoDmarc] &&
      SumWeights(weights, Without(hits, ComboSenderMismatchAuth)) == Weight(weights, "DKIM_FAIL_OR_NODMARC")
  {
    var f := ExtractCommon(map[], "", parseAddr, suffixOf);
    EmptyBundle(parseAddr, suffixOf);
    OnlyDkimFires(f, allow);
    DkimAloneWeighs(weights);
  }

  lemma DkimAloneWeighs(weights: map<string, int>)
    ensures SumWeights(weights, Without([DkimFailOrNoDmarc], ComboSenderMismatchAuth)) ==
            Weight(weights, "DKIM_FAIL_OR_NODMARC")
  {
    WithoutAbsent([DkimFailOrNoDmarc], ComboSenderMismatchAuth);
    assert [DkimFailOrNoDmarc][..0] == [];
  }

  /** The bundle of the empty message: no URL, no sender domain, no subject
      flag, and dkim=none and dmarc=none. */
  lemma EmptyBundle(parseAddr: string -> Mailbox, suffixOf: string -> string)
    requires parseAddr("") == Mailbox("", "")
    ensures var f := ExtractCommon(map[], "", parseAddr, suffixOf);
      f.auth == Auth("none", "none", "none") &&
      f.addresses.fromAddr.domain == "" && f.urls == [] && f.urlSignals == [] &&
      !f.flags.urgencyBait && !f.flags.unicodeAbuse && !f.senderSignals.messageIdMismatch
  {
    var f := ExtractCommon(map[], "", parseAddr, suffixOf);
    assert f.urlSignals == [] && f.urls == [];
    assert f.addresses.fromAddr.domain == "";
    assert !f.flags.urgencyBait && !f.flags.unicodeAbuse;
    assert !f.senderSignals.messageIdMismatch;
    assert f.auth == Auth("none", "none", "none");
  }
}
