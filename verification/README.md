# Ollama Spam Guard: allow/deny lists and account configuration, in Dafny

Ollama Spam Guard sorts incoming mail in IMAP accounts. Before it asks a language
model, it consults allow and deny lists. This project models that list engine
(`ListManager` in `src/list_manager.py`), the command-line list editor
(`manage_lists.py`) and the account loader of `src/config.py`. It then proves what
these components promise.

The model is split into these modules:

- **Text**: the Python string operations the tools rely on, on `seq<char>`:
  - `strip` (with `str.isspace` code points) and `split(c)[0]`;
  - `lower` (ASCII letters only), `count` and `str(n)`;
  - the code-point order `sorted` uses.
- **Entries**: `_parse_list_file` and the per-entry branches shared by the two local
  loaders (`_load_local_whitelist`, `_load_local_blacklist`).
- **Yaml**: the values `yaml.safe_load` returns, with `in`, `get` and truthiness.
- **Registry**: `load_blacklist_sources`, the validation of the configured external
  deny lists.
- **Gate**: the queries `check_email` and `check_ip`, on a snapshot of the five sets.
- **Cache**: the per-source metadata, `_is_cache_valid` and `_get_cache_age`.
- **Lists**: the loaders as functions of a `Store`. A `Store` holds:
  - the five sets;
  - `metadata.json`;
  - the cache directory, as a map from source name to the lines of its file.

  Lists also holds `get_stats`.
- **Manager**: the class `ListManager`. Its five set fields, its metadata and its
  files are changed in place by methods with loops. Each method is proved to
  produce the state the matching function in Lists describes.
- **ManageLists**: `get_entries_only`, `add_entry`, `remove_entry` and `show_list` on a
  list file, which is modelled as its sequence of lines.
- **Config**: `load_accounts_from_yaml` after the YAML parse, and the `USE_LISTS`
  and `FORCE_LIST_UPDATE` switches.

The outside world is passed in as parameters:

- Time is an integer number of seconds, one `now` per call.
- A stored `last_update` is a `Stamp`: either a point in time, or a value
  `datetime.fromisoformat` rejects.
- The network is a function from URL to `Fetched(lines)` or `Failed`.
- The parsed registry is a sequence of name/value pairs, in file order.
- Environment variables are `Option<string>` values.

## Model

| member | source | states |
|---|---|---|
| Entries.CleanLine | src/list_manager.py:488 | a cleaned line holds no `#` and has no surrounding whitespace |
| Entries.CleanEntry | src/list_manager.py:488 | cleaning a text that is already an entry returns it unchanged |
| Entries.CleanLineIdempotent | src/list_manager.py:488 | cleaning twice is cleaning once |
| Entries.ParseListFile | src/list_manager.py:486-490 | the parser returns at most one entry per line |
| Entries.ParseListFileMembers | src/list_manager.py:486-490 | a text is returned exactly when some line cleans to it and it is non-empty |
| Entries.ParseListFileEntries | src/list_manager.py:486-490 | every returned entry is non-empty, `#`-free and stripped |
| Entries.ParseListFileAppend | src/list_manager.py:486-490 | parsing keeps file order: the parse of two joined files is the concatenation of their parses |
| Entries.ParseListFileIdempotent | src/list_manager.py:486-490 | parsing the parser's output gives it back |
| Entries.EntryRoundTrip | src/list_manager.py:486-490 | a valid entry written as its own line is read back unchanged |
| Entries.CommentsOnly | src/list_manager.py:486-490 | a file whose lines all start with `#` yields no entry |
| Entries.Classify | src/list_manager.py:274-305 | the whitelist loader's branches for one entry, in order (the blacklist loader at src/list_manager.py:339-361 skips the `@domain` branch); its verdicts are stated by the two lemmas below |
| Entries.ClassifyFacts | src/list_manager.py:274-305 | per entry: an empty or over-long entry is rejected; an accepted address has exactly one `@` and is lower case; an accepted domain is non-empty, lower case and space-free; only the whitelist ignores a bare `@` |
| Entries.ClassifyAccepts | src/list_manager.py:274-305 | conversely, for an entry of 1 to 255 characters: one `@` gives the lowercased address, several `@` are rejected, no `@` and no space gives the lowercased domain, no `@` with a space is rejected; a whitelist `@x` line is ignored, rejected or read as the domain `x` as `x` is empty, has a space, or neither |
| Entries.AtPrefixedEntry | src/list_manager.py:281-289 | the whitelist reads `@x` as the domain `x`, lowercased; the blacklist reads the same line as an e-mail address |
| Entries.EmailsOfMembers | src/list_manager.py:297 | a local list adds an address iff some entry is classified as that address |
| Entries.DomainsOfMembers | src/list_manager.py:288 | a local list adds a domain iff some entry is classified as that domain |
| Entries.LocalEntriesWellFormed | src/list_manager.py:339-361 | every address a local list adds has one `@` and is lower case; every domain is non-empty, lower case and space-free; blacklist domains hold no `@` |
| Manager.CollectLocal | src/list_manager.py:272-305 | the loader loop adds exactly the classified addresses and domains and counts exactly the rejected entries |
| Manager.ListManager.LoadLocalWhitelist | src/list_manager.py:255-318 | with a file, only the whitelist sets grow, by the file's addresses and domains; without one, the template is written and nothing is added |
| Manager.ListManager.LoadLocalBlacklist | src/list_manager.py:320-374 | the same for the blacklist, which has no `@domain` form |
| Lists.LocalLoad | src/list_manager.py:268-305 | with a file, its list's e-mail and domain sets grow by exactly the addresses and domains its entries are classified as, and the other list and the IP set stay as they were; without a file nothing changes |
| Lists.LocalLoadLine | src/list_manager.py:268-305 | every line whose entry is classified as an address or a domain puts it into its list's matching set |
| Lists.Template | src/list_manager.py:265 | the text written for a missing whitelist (and, at src/list_manager.py:330, blacklist): four comment lines |
| Lists.WhitelistFile | src/list_manager.py:268-305 | a whitelist file holding an address and an `@domain` line adds exactly that address and that domain |
| Lists.WhitelistFileVerdicts | src/list_manager.py:520-545 | with that file loaded, the address is whitelisted by itself, any other address of the domain by `@domain`, and an address matching neither gets no verdict |
| Lists.TemplateIsEmpty | src/list_manager.py:265 | the template written for a missing local list contains only comments, so it adds no entry |
| Yaml.Get | src/list_manager.py:107 | `get` finds a value exactly when the key is present, and the value is one stored under that key |
| Yaml.Missing | src/list_manager.py:98 | the missing fields are exactly the required fields the mapping lacks |
| Registry.KindOf | src/list_manager.py:121-123 | each of `ip`, `ip_cidr`, `domain`, `email`, and only that string, maps to its list type |
| Registry.CheckSource | src/list_manager.py:88-137 | the validation of one `name: config` pair, in the loader's order; stated by the lemmas below |
| Registry.SourceEnabled | src/list_manager.py:129-134 | `enabled` defaults to true and any non-boolean value becomes false; stated by Registry.CheckSourceKeeps |
| Registry.CheckSourceAccepts | src/list_manager.py:88-137 | a source is kept iff its config is a mapping with `url`, `type` and `description`, the url is a string starting with `http://` or `https://`, and the type is known |
| Registry.CheckSourceKeeps | src/list_manager.py:130-137 | a kept source carries its own name, url, type and description; it is enabled iff `enabled` is absent or `True` |
| Registry.CheckAll | src/list_manager.py:88-137 | no more sources come out than were configured |
| Registry.CheckAllMembers | src/list_manager.py:88-137 | a source is kept iff some configured pair validates to it |
| Registry.CheckAllAppend | src/list_manager.py:88-137 | validation keeps registry order and treats each source on its own |
| Registry.LoadBlacklistSources | src/list_manager.py:71-82 | an empty or non-mapping registry yields no source |
| Registry.LoadedSourcesAreConfigured | src/list_manager.py:88-137 | every loaded source is the validated form of a configured entry under the same name (result keys are a subset of the registry's keys) |
| Lists.CidrBase | src/list_manager.py:463-470 | an `ip_cidr` entry is cut before its first `/`; the result is a `/`-free prefix of the entry |
| Lists.CidrBaseOfBlock | src/list_manager.py:466-467 | `a/p` with a `/`-free `a` is reduced to `a`: the prefix length is dropped, no containment test is made |
| Lists.Ingest | src/list_manager.py:455-470 | the set matching the type grows by exactly the normalised entries; every other set is unchanged |
| Lists.ReadCache | src/list_manager.py:451-470 | without a cache file nothing changes; with one, its parsed entries are ingested |
| Manager.ListManager.LoadFromCache | src/list_manager.py:443-470 | the object's new state is the state described by ReadCache |
| Manager.ListManager.AddCidrBases | src/list_manager.py:463-470 | the CIDR loop adds exactly the entries' network addresses to the IP set and changes no other field |
| Manager.CidrBasesAll | src/list_manager.py:463-470 | the loop's running set over all entries equals the set of their network addresses |
| Cache.IsCacheValid | src/list_manager.py:591-608 | fresh iff there is metadata with a readable stamp and `now - stamp < interval` |
| Cache.FreshnessBoundaries | src/list_manager.py:606 | half an interval after an update the cache is fresh; two intervals after, it is stale |
| Cache.RecordedIsFresh | src/list_manager.py:423-427 | a record stamped at `t` is fresh exactly while `now - t < interval` |
| Cache.AgeOf | src/list_manager.py:623-636 | days and hours are shown iff the age is at least a day; every unit is the floor of the age in that unit and below its bound |
| Cache.Render | src/list_manager.py:629-636 | a rendered age is non-empty and ends in `h` or `m` |
| Cache.CacheAge | src/list_manager.py:610-638 | `unbekannt` iff there is no readable stamp; otherwise the rendered floor-divided age |
| Lists.Refresh | src/list_manager.py:395-441 | per source: a disabled source is skipped; a fresh cache is read without fetching; a fetch replaces the file and stamps `now`; a failed fetch falls back to the cache; no other source's metadata or file changes; no set shrinks |
| Lists.RefreshAll | src/list_manager.py:395-441 | the loop over the registry never shrinks a set or forgets a metadata key or cache file, and leaves the whitelists alone |
| Lists.RefreshAllAppend | src/list_manager.py:395-441 | loading the registry in two parts equals loading it at once (registry order) |
| Lists.RefreshAllUntouched | src/list_manager.py:395-441 | sources outside the registry keep their metadata and cache file |
| Lists.ForcedLoadStampsDownloads | src/list_manager.py:673-676 | after a forced load, every enabled source whose fetch succeeded is stamped `now` and counts as fresh |
| Lists.FreshCacheSkipsDownload | src/list_manager.py:399-404 | with a fresh cache and no forced update the outcome does not depend on the network |
| Lists.DownloadIsRead | src/list_manager.py:410-418 | a fetched body is what gets ingested |
| Manager.ListManager.LoadExternalBlacklists | src/list_manager.py:376-441 | the object's new state is RefreshAll over the registry; the local files are untouched |
| Manager.ListManager.LoadAllLists | src/list_manager.py:232-253 | both local loads, then the external load; every set is a superset of its old value; a missing local file is replaced by its template and an existing one is kept |
| Manager.ListManager.ForceUpdate | src/list_manager.py:673-676 | a forced external load; no set shrinks; the local list files stay as they were |
| Manager.ListManager.constructor | src/list_manager.py:200-226 | all five sets start empty, the metadata is the stored one or empty, and the interval is the given number of hours (24 by default) in seconds |
| Gate.CheckEmail | src/list_manager.py:520-545 | no `@` gives no verdict. Whitelisted iff the address or its domain is whitelisted; blacklisted iff not whitelisted and the address or its domain is blacklisted. The reason names the original address for an exact match and `@domain` otherwise |
| Gate.NormalizeAddress | src/list_manager.py:523 | `lower().strip()` of the address; its `@` is kept (Gate.NormalizeKeepsAt) |
| Gate.DomainOf | src/list_manager.py:524 | `split('@')[1]` holds no `@` |
| Gate.NormalizeKeepsAt | src/list_manager.py:523-524 | `lower().strip()` keeps the `@` of an address |
| Gate.WhitelistWins | src/list_manager.py:526-533 | a whitelisted address stays whitelisted when any list grows, whatever the blacklists hold |
| Gate.BlacklistedStaysListed | src/list_manager.py:535-542 | growing lists never turn a blacklisted address into an unknown one |
| Manager.ListManager.CheckEmail | src/list_manager.py:502-545 | `check_email` on the object's current five sets, stated by Gate.CheckEmail |
| Manager.ListManager.CheckIp | src/list_manager.py:547-566 | `check_ip` on the object's current IP set, stated by Gate.CheckIp |
| Gate.CheckIp | src/list_manager.py:557-566 | never whitelisted; blacklisted iff the input is non-empty and its stripped form is in the IP set, with reason `Blacklist IP: <input>` |
| Gate.CheckIpOnlyReadsIps | src/list_manager.py:557-566 | the IP verdict depends on the IP set alone |
| Lists.StatsOf | src/list_manager.py:644-671 | each of the five counts is the size of its set, and the totals are their sums; the sources are the metadata keys, each with its stored stamp |
| Manager.ListManager.GetStats | src/list_manager.py:644-671 | `get_stats` of the object's current state, stated by Lists.StatsOf |
| Lists.StatsMonotone | src/list_manager.py:651-662 | growing lists never lower a total |
| ManageLists.EntrySet | manage_lists.py:49-56 | the set `get_entries_only` builds; stated by the lemmas below |
| ManageLists.EntrySetSnoc | manage_lists.py:52-55 | one more line adds its cleaned, lowercased text if non-empty |
| ManageLists.EntrySetMembers | manage_lists.py:49-56 | an entry is listed iff some line cleans to a non-empty text that lowercases to it |
| ManageLists.EntrySetIsParsed | manage_lists.py:49-56 | the editor's entry set is the engine's parse of the same lines, lowercased |
| ManageLists.EntrySetHasNoHash | manage_lists.py:53 | no listed entry contains `#` |
| ManageLists.NoEntries | manage_lists.py:49-56 | comment and blank lines list nothing |
| ManageLists.GetEntriesOnly | manage_lists.py:49-56 | the loop builds exactly the entry set |
| ManageLists.EnsureFile | manage_lists.py:29-33 | an existing file is left as it is; a missing one is created with a header that lists no entry |
| ManageLists.Normalize | manage_lists.py:63 | a normalised entry is stripped, already lower case, and no longer than the input |
| ManageLists.AppendLine | manage_lists.py:84-86 | appending keeps every earlier line and adds exactly one line equal to the entry |
| ManageLists.AppendAsWritten | manage_lists.py:85-86 | on a file that ends with a line break the entry becomes a new last line after the unchanged old lines; otherwise every line but the last is unchanged and the last is extended by the entry |
| ManageLists.AppendAgreesWhenTerminated | manage_lists.py:85-86 | on a file that ends with a line break both appends agree |
| ManageLists.AppendMergesIntoLastLine | manage_lists.py:85-86 | file `a.de` with no final line break, then `add b.de`: the file becomes the single line `a.deb.de`, and neither entry is listed |
| ManageLists.AppendedIsListed | manage_lists.py:74-86 | after an append, the entry set is the old set plus the entry, unless the entry holds `#` |
| ManageLists.AppendedIsLoaded | manage_lists.py:84-86 | the engine's loader then reads the old entries followed by the new one |
| ManageLists.AddEntry | manage_lists.py:58-92 | an empty or over-long entry is refused and the file stays as it was; a listed entry leaves the file as `ensure_file_exists` leaves it; otherwise the entry is written in append mode; on a file that ends with a line break it becomes a line of its own and is listed afterwards |
| ManageLists.AddTwice | manage_lists.py:74-86 | a second add of a listed entry changes nothing; after a first add to a file that ends with a line break, the second add finds the entry and changes nothing |
| ManageLists.AddTwiceUnended | manage_lists.py:74-86 | on the file `a.de` with no final line break, adding `b.de` twice appends it twice: the file ends as `a.deb.de` and `b.de` |
| ManageLists.Kept | manage_lists.py:112-117 | the filter keeps at most as many lines as there are |
| ManageLists.KeptOnlyOthers | manage_lists.py:112-117 | every kept line is a line of the file that does not clean to the entry |
| ManageLists.KeptKeepsOthers | manage_lists.py:112-117 | every line that does not clean to the entry is kept (comments, blanks and other entries) |
| ManageLists.KeptAppend | manage_lists.py:112-117 | the filter keeps the original relative order |
| ManageLists.KeptSnoc | manage_lists.py:112-117 | one more line is kept unless it cleans to the entry |
| ManageLists.KeptEntries | manage_lists.py:112-120 | removing drops exactly the entry from the entry set |
| ManageLists.KeptFull | manage_lists.py:112-125 | keeping as many lines as there are means keeping all of them |
| ManageLists.KeptAbsent | manage_lists.py:104-106 | an entry that is not listed matches no line |
| ManageLists.Written | manage_lists.py:120 | the rewritten file holds exactly the kept lines (comments and blank lines included), or one empty line when none is kept, ends with a line break, and lists the same entries |
| ManageLists.DropMatching | manage_lists.py:109-117 | the loop returns exactly the kept lines; `removed` holds iff some line was dropped |
| ManageLists.RemoveEntry | manage_lists.py:94-125 | an unlisted entry leaves the file as it is; otherwise the kept lines are written back and the entry is no longer listed; the "not found" branch is unreachable |
| ManageLists.InsertSorted | manage_lists.py:144-145 | inserting adds exactly one element |
| ManageLists.InsertSortedSorted | manage_lists.py:144-145 | inserting a new element into a strictly sorted sequence keeps it strictly sorted |
| ManageLists.SortSet | manage_lists.py:144-145 | `sorted` of a set is strictly increasing and holds each element exactly once |
| ManageLists.SplitSize | manage_lists.py:144-157 | the e-mail and domain groups together have the size of the set |
| ManageLists.ShowList | manage_lists.py:127-161 | e-mails are exactly the listed entries with `@`, domains exactly those without; each group is sorted; the total is the sum of both |
| Text.Strip | src/list_manager.py:488 | `strip()`: the result has no surrounding whitespace and is no longer than the input |
| Text.Lower | manage_lists.py:63 | `lower()`: the result has the input's length |
| Text.StripChars | src/list_manager.py:488 | `strip` keeps every non-whitespace character and adds none |
| Text.StripSlice | src/list_manager.py:488 | `strip` cuts whitespace from the two ends only: the result is a contiguous slice of the input with only whitespace before and after it |
| Text.Count | src/list_manager.py:292 | `str.count`: no larger than the length, and zero exactly when the character is absent |
| Text.Before | src/list_manager.py:488 | `split(c)[0]` is the `c`-free prefix up to the first `c` |
| Text.LowerChars | manage_lists.py:63 | `lower` works character by character |
| Text.DecimalRoundTrip | src/list_manager.py:629 | the digits printed for a count read back as that count |
| Text.LexLessTransitive | manage_lists.py:144 | the order `sorted` uses is transitive |
| Text.LexLessTotal | manage_lists.py:144 | and total on distinct strings |
| Config.LoadAccounts | src/config.py:39-58 | an empty document or one without `accounts` is refused; a loaded result is non-empty, and every account in it is an enabled mapping with all six required fields (Config.Iterated is the `for acc in` of line 44) |
| Config.MentionsAccounts | src/config.py:39 | `'accounts' in data`: a key test on a mapping, an element test on a list, a substring test on a string; other values raise |
| Yaml.Truthy | src/config.py:39 | Python truth value of a loaded value (`if not data`, and `enabled` at line 45): `None`, `False`, `0` and empty strings, lists and mappings are false |
| Config.EnabledFlag | src/config.py:45 | `acc.get('enabled', False)` as a truth value; a non-mapping raises |
| Config.LoadAccountsOfNonList | src/config.py:43-49 | `accounts` holding a non-empty mapping or string raises (its keys or characters have no `get`), an empty one gives "no active account", and any other non-list raises |
| Config.EnabledAccounts | src/config.py:43-46 | the filter succeeds iff every account is a mapping (others raise) |
| Config.EnabledAccountsMembers | src/config.py:43-46 | the filter keeps exactly the accounts whose `enabled` is truthy; a missing `enabled` excludes |
| Config.EnabledAccountsAppend | src/config.py:43-46 | the filter keeps the original order |
| Config.EnabledAccountsSkip | src/config.py:43-46 | a disabled account drops out of the filter |
| Config.DisabledAccountIgnored | src/config.py:43-56 | inserting a disabled account, complete or not, changes nothing: disabled accounts are never checked |
| Config.FirstIncomplete | src/config.py:52-56 | the validation loop stops at the first account that lacks a field |
| Config.Validate | src/config.py:52-56 | validation passes iff no enabled account lacks a field |
| Config.SelectAccounts | src/config.py:43-58 | a selected account comes from the document, is enabled and is complete |
| Config.SelectAccountsOutcome | src/config.py:43-58 | over a list of mappings: loads iff some account is enabled and all enabled ones are complete; yields exactly the enabled ones; no enabled account raises the "no active account" error |
| Config.FirstIncompleteReported | src/config.py:52-56 | the error names the first enabled account that lacks a field, with its missing fields |
| Config.LoadAccountsOfList | src/config.py:39-46 | a document whose `accounts` key holds a list goes on to the selection |
| Config.EnvFlag | src/config.py:90 | `os.getenv(name, default).lower() == 'true'`, stated by Config.EnvFlagSpelling |
| Config.UseLists | src/config.py:90 | `USE_LISTS`, default `true` |
| Config.ForceListUpdate | src/config.py:103 | `FORCE_LIST_UPDATE`, default `false` |
| Config.EnvFlagSpelling | src/config.py:90 | a set variable switches on iff it spells `true` in any letter case; an unset one takes its default |
| Config.FlagDefaults | src/config.py:103 | `USE_LISTS` is on and `FORCE_LIST_UPDATE` off by default; `TRUE` and `True` switch on, `1` and `yes` do not |

## Left out

- Network, YAML and JSON I/O: `requests.get`, `yaml.safe_load`, and reading and writing `metadata.json` are inputs and outputs of the model. Parse errors are folded into "no document" (`None`) or an unreadable stamp.
- Logging and `print` diagnostics, and the `new_entries` counter of `_load_external_blacklists`: output only.
- The singleton `get_list_manager` and the registry loaded at import time: the registry is passed to the loaders explicitly.
- Directory creation and the cache directory path, including the `directory` entry of `get_stats`.
- A local list or cache file that exists but cannot be read or decoded (the loaders catch the exception and go on): a file is either present with its lines or absent.
- A failing `write_text` of the cache file: it would propagate out of the loader and is not modelled.
- `load_blacklist_sources` creating the registry file from its example: the registry document is an input.
- The file reads and writes of `manage_lists.py` and its argparse `main`: a list file is its sequence of lines plus whether its text ends with a line break.
- The env-var reads and `load_dotenv` of `src/config.py`. So are the non-boolean settings there (`LIMIT`, `DAYS_BACK`, `LIST_UPDATE_INTERVAL` and so on), whose `int()` parse is not modelled.
- Mail classification, IMAP, the language model and the benchmark scripts are not part of this model.
- Text.Lower: maps only the ASCII letters, where Python's `str.lower` also maps non-ASCII upper-case letters.
- Cache.IsCacheValid: time has a resolution of one second and one `now` serves a whole load, where Python reads the clock (with microseconds) at each call.
- Cache.CacheAge: the stamp is already parsed. ISO-8601 parsing is abstracted to `At(seconds)` or `Unreadable`, and timezone-aware stamps are not distinguished.
- Lists.StatsOf: shows the parsed stamp of each source where Python shows the raw `last_update` text (or `unknown` when the key is absent).
- Yaml.Get: returns the first binding of a key, where PyYAML keeps the last of duplicate keys. Documents are assumed to hold no duplicate keys.
- Lists.Refresh: a response body is given already split into lines. A body with line breaks inside an entry, or `\r` line ends, is not distinguished from its `splitlines()` result.
- Config.LoadAccounts: the `TypeError` and `AttributeError` Python raises on a document of the wrong shape are one error, `Malformed`.
- Yaml.Value: floats, dates, timestamps and non-string mapping keys have no form of their own, so a registry or account document using them is not represented (this concerns Registry and Config alike).
- ManageLists.AddTwice: requires the raw entry to hold no `#`. An entry with `#` is appended, but it is read back cut at the `#`, so a second add appends it again (ManageLists.AppendedIsListed states that such an entry is not listed). After a first add to a file without a final line break it promises nothing: the entry may have been merged into the last line (ManageLists.AddTwiceUnended).

## Where the code differs from its documentation

The model follows the code:

- `check_email` puts the address exactly as received into the reason of an exact match, not its lowercased form.
- A local whitelist e-mail entry may contain spaces. Only domain entries are checked for spaces.
- A whitelist line `@a@b` is accepted as the domain `a@b`.

## Findings

| source | as written | input that shows it | evidently intended | confidence | as-written member | corrected member |
|---|---|---|---|---|---|---|
| manage_lists.py:85-86 | `add_entry` opens the file in append mode and writes `entry + "\n"` without checking that the file ends with a line break | a list file whose text is `a.de` with no final line break, then `add b.de`: the file becomes `a.deb.de` | the entry is added as a line of its own and becomes listed, and the earlier entries stay listed | not executed | ManageLists.AppendMergesIntoLastLine | ManageLists.AppendedIsListed |

ManageLists.AddEntry follows the code as written (ManageLists.AppendAsWritten). On a file that ends with a line break it coincides with the corrected append ManageLists.AppendLine (ManageLists.AppendAgreesWhenTerminated), and its contract states the entry is then listed.
