/** The classification gate: `ListManager.check_email` and `ListManager.check_ip`,
  * read against a snapshot of the five sets the loaders fill. */
module Gate {
  import opened Text

  /** The five sets of a `ListManager` at one moment. */
  datatype AggregatedLists = AggregatedLists(
    whitelistEmails: set<string>,
    whitelistDomains: set<string>,
    blacklistEmails: set<string>,
    blacklistDomains: set<string>,
    blacklistIps: set<string>)

  const NoLists := AggregatedLists({}, {}, {}, {}, {})

  /** Every set of `a` is contained in the corresponding set of `b`. */
  predicate Includes(a: AggregatedLists, b: AggregatedLists) {
    && a.whitelistEmails <= b.whitelistEmails
    && a.whitelistDomains <= b.whitelistDomains
    && a.blacklistEmails <= b.blacklistEmails
    && a.blacklistDomains <= b.blacklistDomains
    && a.blacklistIps <= b.blacklistIps
  }

  /** `(False, reason)`, `(True, reason)` and `(None, None)` of the source. */
  datatype Verdict = Unknown | Whitelisted(reason: string) | Blacklisted(reason: string)

  /** `address.lower().strip()`. */
  function NormalizeAddress(address: string): string {
    Strip(Lower(address))
  }

  /** `email.split('@')[1]`: the text between the first `@` and the next one. */
  function DomainOf(email: string): (d: string)
    requires '@' in email
    ensures '@' !in d
  {
    Before(After(email, '@'), '@')
  }

  lemma NormalizeKeepsAt(address: string)
    requires '@' in address
    ensures '@' in NormalizeAddress(address)
  {
    LowerKeepsChar(address, '@');
    StripChars(Lower(address));
  }

  /** The address matches a list by its exact form or, when it has one, by its domain. */
  predicate Matches(emails: set<string>, domains: set<string>, address: string)
    requires '@' in address
  {
    NormalizeKeepsAt(address);
    var email := NormalizeAddress(address);
    email in emails || (DomainOf(email) != [] && DomainOf(email) in domains)
  }

  predicate WhitelistMatch(lists: AggregatedLists, address: string) {
    '@' in address && Matches(lists.whitelistEmails, lists.whitelistDomains, address)
  }

  predicate BlacklistMatch(lists: AggregatedLists, address: string) {
    '@' in address && Matches(lists.blacklistEmails, lists.blacklistDomains, address)
  }

  /** `check_email`: whitelist before blacklist, exact address before domain, first match wins. */
  function CheckEmail(lists: AggregatedLists, address: string): (v: Verdict)
    ensures '@' !in address ==> v == Unknown
    ensures v.Whitelisted? <==> WhitelistMatch(lists, address)
    ensures v.Blacklisted? <==> !WhitelistMatch(lists, address) && BlacklistMatch(lists, address)
    ensures v.Whitelisted? && NormalizeAddress(address) in lists.whitelistEmails ==>
      v.reason == "Whitelist: " + address
    ensures v.Whitelisted? && NormalizeAddress(address) !in lists.whitelistEmails ==>
      '@' in NormalizeAddress(address) && v.reason == "Whitelist: @" + DomainOf(NormalizeAddress(address))
    ensures v.Blacklisted? && NormalizeAddress(address) in lists.blacklistEmails ==>
      v.reason == "Blacklist: " + address
    ensures v.Blacklisted? && NormalizeAddress(address) !in lists.blacklistEmails ==>
      '@' in NormalizeAddress(address) && v.reason == "Blacklist: @" + DomainOf(NormalizeAddress(address))
  {
    if address == [] || '@' !in address then Unknown
    else
      var email := NormalizeAddress(address);
      NormalizeKeepsAt(address);
      var domain := if '@' in email then DomainOf(email) else [];
      if email in lists.whitelistEmails then Whitelisted("Whitelist: " + address)
      else if domain != [] && domain in lists.whitelistDomains then Whitelisted("Whitelist: @" + domain)
      else if email in lists.blacklistEmails then Blacklisted("Blacklist: " + address)
      else if domain != [] && domain in lists.blacklistDomains then Blacklisted("Blacklist: @" + domain)
      else Unknown
  }

  /** A whitelisted address is never reported as spam, whatever the blacklists hold,
    * and it stays whitelisted when any of the lists grow. */
  lemma WhitelistWins(lists: AggregatedLists, grown: AggregatedLists, address: string)
    requires Includes(lists, grown)
    requires CheckEmail(lists, address).Whitelisted?
    ensures CheckEmail(grown, address).Whitelisted?
  {
    assert WhitelistMatch(lists, address);
    NormalizeKeepsAt(address);
    assert WhitelistMatch(grown, address);
  }

  /** Growing the lists can turn a blacklisted address into a whitelisted one,
    * but never into an unknown one. */
  lemma BlacklistedStaysListed(lists: AggregatedLists, grown: AggregatedLists, address: string)
    requires Includes(lists, grown)
    requires CheckEmail(lists, address).Blacklisted?
    ensures CheckEmail(grown, address) != Unknown
  {
    assert BlacklistMatch(lists, address);
    NormalizeKeepsAt(address);
    assert BlacklistMatch(grown, address);
  }

  /** `check_ip`: only the blacklisted IP set is consulted. */
  function CheckIp(lists: AggregatedLists, address: string): (v: Verdict)
    ensures !v.Whitelisted?
    ensures v.Blacklisted? <==> address != [] && Strip(address) in lists.blacklistIps
    ensures v.Blacklisted? ==> v.reason == "Blacklist IP: " + address
  {
    if address == [] then Unknown
    else if Strip(address) in lists.blacklistIps then Blacklisted("Blacklist IP: " + address)
    else Unknown
  }

  /** The IP check ignores both whitelists and the e-mail and domain blacklists. */
  lemma CheckIpOnlyReadsIps(a: AggregatedLists, b: AggregatedLists, address: string)
    requires a.blacklistIps == b.blacklistIps
    ensures CheckIp(a, address) == CheckIp(b, address)
  {
  }
}
