/** What the loaders of `ListManager` do to the lists, the metadata and the cache files,
  * as functions on a snapshot of that state. The class in module Manager is proved to
  * follow them. */
module Lists {
  import opened Wrappers
  import opened Text
  import opened Entries
  import opened Registry
  import opened Gate
  import opened Cache

  /** The outcome of `requests.get(url)` with `raise_for_status()`: the body split into
    * lines, or a `RequestException`. */
  datatype Fetch = Fetched(body: seq<string>) | Failed

  /** The state the loaders change: the five sets, the metadata and the cache directory
    * (one file of lines per source name). */
  datatype Store = Store(lists: AggregatedLists, metadata: Metadata, cacheFiles: map<string, seq<string>>)

  /** `entry.split('/')[0]` when the entry has a `/`, the entry itself otherwise. */
  function CidrBase(entry: string): (ip: string)
    ensures '/' !in ip
    ensures |ip| <= |entry| && ip == entry[..|ip|]
    ensures |ip| < |entry| ==> entry[|ip|] == '/'
  {
    if '/' in entry then Before(entry, '/') else entry
  }

  /** A CIDR block `address/prefix` is reduced to its network address; no containment test is made. */
  lemma CidrBaseOfBlock(address: string, prefix: string)
    requires '/' !in address
    ensures CidrBase(address + "/" + prefix) == address
  {
    BeforeFirst(address, '/', prefix);
  }

  /** The form in which an entry of a list of the given type is stored. */
  function Normalized(kind: ListKind, entry: string): string {
    match kind
    case Ip => entry
    case IpCidr => CidrBase(entry)
    case Domain => Lower(entry)
    case Email => Lower(entry)
  }

  /** The blacklist set a list of the given type feeds. */
  function Target(lists: AggregatedLists, kind: ListKind): set<string> {
    match kind
    case Ip => lists.blacklistIps
    case IpCidr => lists.blacklistIps
    case Domain => lists.blacklistDomains
    case Email => lists.blacklistEmails
  }

  /** The type dispatch of `_load_from_cache`, given the parsed entries of the file. */
  function Ingest(lists: AggregatedLists, kind: ListKind, entries: seq<string>): (r: AggregatedLists)
    ensures Target(r, kind) == Target(lists, kind) + set e | e in entries :: Normalized(kind, e)
    ensures r.whitelistEmails == lists.whitelistEmails && r.whitelistDomains == lists.whitelistDomains
    ensures !kind.Email? ==> r.blacklistEmails == lists.blacklistEmails
    ensures !kind.Domain? ==> r.blacklistDomains == lists.blacklistDomains
    ensures kind.Domain? || kind.Email? ==> r.blacklistIps == lists.blacklistIps
    ensures Includes(lists, r)
  {
    match kind
    case Ip => lists.(blacklistIps := lists.blacklistIps + set e | e in entries)
    case Domain => lists.(blacklistDomains := lists.blacklistDomains + set e | e in entries :: Lower(e))
    case Email => lists.(blacklistEmails := lists.blacklistEmails + set e | e in entries :: Lower(e))
    case IpCidr => lists.(blacklistIps := lists.blacklistIps + set e | e in entries :: CidrBase(e))
  }

  /** `_load_from_cache(cache_dir / f"{name}.txt", kind)`: nothing when there is no file. */
  function ReadCache(st: Store, name: string, kind: ListKind): (r: Store)
    ensures r.metadata == st.metadata && r.cacheFiles == st.cacheFiles
    ensures name !in st.cacheFiles ==> r == st
    ensures name in st.cacheFiles ==> r.lists == Ingest(st.lists, kind, ParseListFile(st.cacheFiles[name]))
  {
    if name in st.cacheFiles then st.(lists := Ingest(st.lists, kind, ParseListFile(st.cacheFiles[name])))
    else st
  }

  /** The metadata record a successful download writes. */
  function Record(s: Source, now: int): CacheRecord {
    CacheRecord(At(now), s.url, s.kind)
  }

  /** One iteration of the loop in `_load_external_blacklists`. */
  function Refresh(st: Store, s: Source, force: bool, now: int, interval: int, net: string -> Fetch): (r: Store)
    ensures Includes(st.lists, r.lists)
    ensures r.lists.whitelistEmails == st.lists.whitelistEmails
    ensures r.lists.whitelistDomains == st.lists.whitelistDomains
    // a disabled source is skipped
    ensures !s.enabled ==> r == st
    // a fresh cache is read without downloading and without touching metadata or files
    ensures s.enabled && !force && IsCacheValid(st.metadata, interval, s.name, now) ==>
      r == ReadCache(st, s.name, s.kind)
    // a download replaces the cache file and stamps the metadata with the current time
    ensures s.enabled && (force || !IsCacheValid(st.metadata, interval, s.name, now)) && net(s.url).Fetched? ==>
      && r.cacheFiles == st.cacheFiles[s.name := net(s.url).body]
      && r.metadata == st.metadata[s.name := Record(s, now)]
    // a failed download falls back to whatever cache file exists, and changes nothing else
    ensures s.enabled && (force || !IsCacheValid(st.metadata, interval, s.name, now)) && net(s.url).Failed? ==>
      r == ReadCache(st, s.name, s.kind)
    // no other source's metadata or cache file is touched
    ensures r.metadata == st.metadata || r.metadata == st.metadata[s.name := Record(s, now)]
    ensures r.cacheFiles == st.cacheFiles || r.cacheFiles == st.cacheFiles[s.name := net(s.url).body]
  {
    if !s.enabled then st
    else if !force && IsCacheValid(st.metadata, interval, s.name, now) then ReadCache(st, s.name, s.kind)
    else match net(s.url)
      case Fetched(body) =>
        var read := ReadCache(st.(cacheFiles := st.cacheFiles[s.name := body]), s.name, s.kind);
        read.(metadata := read.metadata[s.name := Record(s, now)])
      case Failed => ReadCache(st, s.name, s.kind)
  }

  /** The whole loop of `_load_external_blacklists`, over the sources in registry order. */
  function RefreshAll(st: Store, sources: seq<Source>, force: bool, now: int, interval: int, net: string -> Fetch): (r: Store)
    ensures Includes(st.lists, r.lists)
    ensures r.lists.whitelistEmails == st.lists.whitelistEmails
    ensures r.lists.whitelistDomains == st.lists.whitelistDomains
    ensures st.metadata.Keys <= r.metadata.Keys
    ensures st.cacheFiles.Keys <= r.cacheFiles.Keys
  {
    if sources == [] then st
    else Refresh(RefreshAll(st, sources[..|sources| - 1], force, now, interval, net), sources[|sources| - 1], force, now, interval, net)
  }

  /** Loading the registry in two parts is loading it at once. */
  lemma {:induction false} RefreshAllAppend(st: Store, a: seq<Source>, b: seq<Source>, force: bool, now: int, interval: int, net: string -> Fetch)
    ensures RefreshAll(st, a + b, force, now, interval, net) ==
      RefreshAll(RefreshAll(st, a, force, now, interval, net), b, force, now, interval, net)
  {
    if b != [] {
      var b' := b[..|b| - 1];
      assert (a + b)[..|a + b| - 1] == a + b';
      assert (a + b)[|a + b| - 1] == b[|b| - 1];
      RefreshAllAppend(st, a, b', force, now, interval, net);
    } else {
      assert a + b == a;
    }
  }

  /** The names of a sequence of sources. */
  function Names(sources: seq<Source>): set<string> {
    set s | s in sources :: s.name
  }

  /** Sources outside the registry keep their metadata and cache file. */
  lemma {:induction false} RefreshAllUntouched(st: Store, sources: seq<Source>, force: bool, now: int, interval: int, net: string -> Fetch, n: string)
    requires n !in Names(sources)
    ensures n in st.metadata ==> RefreshAll(st, sources, force, now, interval, net).metadata[n] == st.metadata[n]
    ensures n in RefreshAll(st, sources, force, now, interval, net).metadata ==> n in st.metadata
    ensures n in st.cacheFiles ==> RefreshAll(st, sources, force, now, interval, net).cacheFiles[n] == st.cacheFiles[n]
    ensures n in RefreshAll(st, sources, force, now, interval, net).cacheFiles ==> n in st.cacheFiles
  {
    if sources != [] {
      var init := sources[..|sources| - 1];
      assert forall s :: s in init ==> s in sources;
      assert sources[|sources| - 1] in sources;
      RefreshAllUntouched(st, init, force, now, interval, net, n);
    }
  }

  /** After a forced load every enabled source whose download succeeded carries the
    * current time, and so its cache counts as fresh for any positive interval. */
  lemma {:induction false} ForcedLoadStampsDownloads(st: Store, sources: seq<Source>, now: int, interval: int, net: string -> Fetch)
    ensures forall s :: s in sources && s.enabled && net(s.url).Fetched? ==>
      && s.name in RefreshAll(st, sources, true, now, interval, net).metadata
      && RefreshAll(st, sources, true, now, interval, net).metadata[s.name].lastUpdate == At(now)
      && (interval > 0 ==> IsCacheValid(RefreshAll(st, sources, true, now, interval, net).metadata, interval, s.name, now))
  {
    if sources != [] {
      var init := sources[..|sources| - 1];
      var last := sources[|sources| - 1];
      ForcedLoadStampsDownloads(st, init, now, interval, net);
      var mid := RefreshAll(st, init, true, now, interval, net);
      forall s | s in sources && s.enabled && net(s.url).Fetched?
        ensures s.name in RefreshAll(st, sources, true, now, interval, net).metadata
        ensures RefreshAll(st, sources, true, now, interval, net).metadata[s.name].lastUpdate == At(now)
      {
        if s != last {
          assert s in init by {
            var k :| 0 <= k < |sources| && sources[k] == s;
            assert k < |sources| - 1;
            assert init[k] == s;
          }
        }
      }
    }
  }

  /** With a fresh cache and no forced update the result does not depend on the
    * network: no download happens. */
  lemma FreshCacheSkipsDownload(st: Store, s: Source, now: int, interval: int, net1: string -> Fetch, net2: string -> Fetch)
    requires IsCacheValid(st.metadata, interval, s.name, now)
    ensures Refresh(st, s, false, now, interval, net1) == Refresh(st, s, false, now, interval, net2)
  {
  }

  /** A source that downloaded successfully is read from the bytes it just received. */
  lemma DownloadIsRead(st: Store, s: Source, force: bool, now: int, interval: int, net: string -> Fetch)
    requires s.enabled && (force || !IsCacheValid(st.metadata, interval, s.name, now))
    requires net(s.url).Fetched?
    ensures Refresh(st, s, force, now, interval, net).lists == Ingest(st.lists, s.kind, ParseListFile(net(s.url).body))
  {
  }

  /** `_load_local_whitelist` / `_load_local_blacklist` on the local file, if there is one. */
  function LocalLoad(lists: AggregatedLists, list: LocalList, file: Option<seq<string>>): (r: AggregatedLists)
    ensures Includes(lists, r)
    ensures r.blacklistIps == lists.blacklistIps
    ensures list == LocalWhitelist ==>
      r.blacklistEmails == lists.blacklistEmails && r.blacklistDomains == lists.blacklistDomains
    ensures list == LocalBlacklist ==>
      r.whitelistEmails == lists.whitelistEmails && r.whitelistDomains == lists.whitelistDomains
    ensures file.None? ==> r == lists
    ensures file.Some? && list == LocalWhitelist ==>
      && r.whitelistEmails == lists.whitelistEmails + EmailsOf(list, ParseListFile(file.value))
      && r.whitelistDomains == lists.whitelistDomains + DomainsOf(list, ParseListFile(file.value))
    ensures file.Some? && list == LocalBlacklist ==>
      && r.blacklistEmails == lists.blacklistEmails + EmailsOf(list, ParseListFile(file.value))
      && r.blacklistDomains == lists.blacklistDomains + DomainsOf(list, ParseListFile(file.value))
  {
    match file
    case None => lists
    case Some(lines) =>
      var entries := ParseListFile(lines);
      if list == LocalWhitelist then
        lists.(whitelistEmails := lists.whitelistEmails + EmailsOf(list, entries),
               whitelistDomains := lists.whitelistDomains + DomainsOf(list, entries))
      else
        lists.(blacklistEmails := lists.blacklistEmails + EmailsOf(list, entries),
               blacklistDomains := lists.blacklistDomains + DomainsOf(list, entries))
  }

  /** A line of a local file is loaded: the address or domain it is classified as lands
    * in that list's e-mail or domain set. */
  lemma LocalLoadLine(lists: AggregatedLists, list: LocalList, lines: seq<string>, i: nat)
    requires i < |lines| && CleanLine(lines[i]) != []
    ensures var k := Classify(list, CleanLine(lines[i]));
      var r := LocalLoad(lists, list, Some(lines));
      && (k.EmailEntry? ==> k.address in (if list == LocalWhitelist then r.whitelistEmails else r.blacklistEmails))
      && (k.DomainEntry? ==> k.domain in (if list == LocalWhitelist then r.whitelistDomains else r.blacklistDomains))
  {
    var e := CleanLine(lines[i]);
    var entries := ParseListFile(lines);
    ParseListFileMembers(lines, e);
    var j :| 0 <= j < |entries| && entries[j] == e;
    var k := Classify(list, e);
    if k.EmailEntry? {
      EmailsOfMembers(list, entries, k.address);
    }
    if k.DomainEntry? {
      DomainsOfMembers(list, entries, k.domain);
    }
  }

  /** An `@domain` line whose domain is a valid entry is a valid entry itself. */
  lemma AtDomainLine(domain: string)
    requires IsEntry(domain)
    ensures IsEntry(['@'] + domain) && (['@'] + domain)[1..] == domain
  {
    var line := ['@'] + domain;
    assert line[|line| - 1] == domain[|domain| - 1];
    assert forall c :: c in line ==> c == '@' || c in domain;
  }

  /** Such a file parses to its two lines, read as that address and that domain. */
  lemma WhitelistLines(email: string, domain: string)
    requires IsEntry(email) && |email| <= MaxEntryLength && Lower(email) == email
    requires email[0] != '@' && Count(email, '@') == 1
    requires IsEntry(domain) && |domain| < MaxEntryLength && Lower(domain) == domain
    requires ' ' !in domain
    ensures ParseListFile([email, ['@'] + domain]) == [email, ['@'] + domain]
    ensures Classify(LocalWhitelist, email) == EmailEntry(email)
    ensures Classify(LocalWhitelist, ['@'] + domain) == DomainEntry(domain)
  {
    var line := ['@'] + domain;
    AtDomainLine(domain);
    EntryRoundTrip(email);
    EntryRoundTrip(line);
    ParseListFileAppend([email], [line]);
    assert [email] + [line] == [email, line];
    ClassifyAccepts(LocalWhitelist, email);
    StripStripped(domain);
    ClassifyAccepts(LocalWhitelist, line);
  }

  /** A whitelist file holding an address and an `@domain` line adds exactly that
    * address and that domain to empty lists. */
  lemma WhitelistFile(email: string, domain: string)
    requires IsEntry(email) && |email| <= MaxEntryLength && Lower(email) == email
    requires email[0] != '@' && Count(email, '@') == 1
    requires IsEntry(domain) && |domain| < MaxEntryLength && Lower(domain) == domain
    requires ' ' !in domain
    ensures LocalLoad(NoLists, LocalWhitelist, Some([email, ['@'] + domain]))
      == NoLists.(whitelistEmails := {email}, whitelistDomains := {domain})
  {
    WhitelistLines(email, domain);
    OfPair(LocalWhitelist, email, ['@'] + domain);
  }

  /** With that file loaded, the gate whitelists the address itself, every other address
    * of the domain by the domain, and leaves an address matching neither unclassified
    * (the lower-case addresses `ok@trusted.com`, `user@bigcorp.com` and `x@unknown.com`
    * against the lines `ok@trusted.com` and `@bigcorp.com`). */
  lemma WhitelistFileVerdicts(email: string, domain: string, address: string)
    requires IsEntry(email) && |email| <= MaxEntryLength && Lower(email) == email
    requires email[0] != '@' && Count(email, '@') == 1
    requires IsEntry(domain) && |domain| < MaxEntryLength && Lower(domain) == domain
    requires ' ' !in domain
    requires '@' in address
    ensures '@' in NormalizeAddress(address)
    ensures var lists := LocalLoad(NoLists, LocalWhitelist, Some([email, ['@'] + domain]));
      && (NormalizeAddress(address) == email ==> CheckEmail(lists, address) == Whitelisted("Whitelist: " + address))
      && (NormalizeAddress(address) != email && DomainOf(NormalizeAddress(address)) == domain ==>
            CheckEmail(lists, address) == Whitelisted("Whitelist: @" + domain))
      && (NormalizeAddress(address) != email && DomainOf(NormalizeAddress(address)) != domain ==>
            CheckEmail(lists, address) == Unknown)
  {
    WhitelistFile(email, domain);
    NormalizeKeepsAt(address);
    var lists := NoLists.(whitelistEmails := {email}, whitelistDomains := {domain});
    var v := CheckEmail(lists, address);
    if NormalizeAddress(address) == email {
      assert v.Whitelisted?;
    } else if DomainOf(NormalizeAddress(address)) == domain {
      assert v.Whitelisted?;
    } else {
      assert !WhitelistMatch(lists, address) && !BlacklistMatch(lists, address);
    }
  }

  /** Comment lines of a list file, one per text. */
  function Comments(texts: seq<string>): (lines: seq<string>)
    ensures |lines| == |texts|
    ensures forall i :: 0 <= i < |lines| ==> lines[i] == "# " + texts[i]
  {
    seq(|texts|, i requires 0 <= i < |texts| => "# " + texts[i])
  }

  /** The file written when a local list does not exist. */
  function Template(list: LocalList): seq<string> {
    match list
    case LocalWhitelist =>
      Comments(["Whitelist - Eine E-Mail oder Domain pro Zeile", "Beispiel:", "trusted@example.com", "example.com"])
    case LocalBlacklist =>
      Comments(["Blacklist - Eine E-Mail oder Domain pro Zeile", "Beispiel:", "spam@example.com", "spammer-domain.com"])
  }

  /** The template holds only comments: loading it on the next start adds nothing. */
  lemma TemplateIsEmpty(list: LocalList)
    ensures ParseListFile(Template(list)) == []
  {
    var t := Template(list);
    forall i | 0 <= i < |t| ensures t[i] != [] && t[i][0] == '#' {
    }
    CommentsOnly(t);
  }

  /** The counts `get_stats` reports, and the cache section without the directory. */
  datatype Stats = Stats(
    whitelistEmails: nat, whitelistDomains: nat, whitelistTotal: nat,
    blacklistEmails: nat, blacklistDomains: nat, blacklistIps: nat, blacklistTotal: nat,
    sources: set<string>, lastUpdates: map<string, Stamp>)

  /** `get_stats`. */
  function StatsOf(st: Store): (s: Stats)
    ensures s.whitelistTotal == s.whitelistEmails + s.whitelistDomains
    ensures s.blacklistTotal == s.blacklistEmails + s.blacklistDomains + s.blacklistIps
    ensures s.whitelistEmails == |st.lists.whitelistEmails| && s.whitelistDomains == |st.lists.whitelistDomains|
    ensures s.blacklistEmails == |st.lists.blacklistEmails| && s.blacklistDomains == |st.lists.blacklistDomains|
    ensures s.blacklistIps == |st.lists.blacklistIps|
    ensures s.sources == st.metadata.Keys == s.lastUpdates.Keys
    ensures forall n :: n in s.lastUpdates ==> s.lastUpdates[n] == st.metadata[n].lastUpdate
  {
    var l := st.lists;
    Stats(|l.whitelistEmails|, |l.whitelistDomains|, |l.whitelistEmails| + |l.whitelistDomains|,
          |l.blacklistEmails|, |l.blacklistDomains|, |l.blacklistIps|,
          |l.blacklistEmails| + |l.blacklistDomains| + |l.blacklistIps|,
          st.metadata.Keys, map n | n in st.metadata :: st.metadata[n].lastUpdate)
  }

  lemma SubsetSize<T>(a: set<T>, b: set<T>)
    requires a <= b
    ensures |a| <= |b|
  {
    assert b == a + (b - a);
  }

  /** Growing lists never lower a count. */
  lemma StatsMonotone(st1: Store, st2: Store)
    requires Includes(st1.lists, st2.lists)
    ensures StatsOf(st1).whitelistTotal <= StatsOf(st2).whitelistTotal
    ensures StatsOf(st1).blacklistTotal <= StatsOf(st2).blacklistTotal
  {
    SubsetSize(st1.lists.whitelistEmails, st2.lists.whitelistEmails);
    SubsetSize(st1.lists.whitelistDomains, st2.lists.whitelistDomains);
    SubsetSize(st1.lists.blacklistEmails, st2.lists.blacklistEmails);
    SubsetSize(st1.lists.blacklistDomains, st2.lists.blacklistDomains);
    SubsetSize(st1.lists.blacklistIps, st2.lists.blacklistIps);
  }
}
