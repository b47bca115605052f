/** The entry parser shared by every list file (`ListManager._parse_list_file`)
  * and the classification of the entries of the two local lists
  * (`_load_local_whitelist`, `_load_local_blacklist`). */
module Entries {
  import opened Text

  /** `line.split('#')[0].strip()`: the line without its comment and surrounding whitespace. */
  function CleanLine(line: string): (r: string)
    ensures '#' !in r
    ensures IsStripped(r)
  {
    var b := Before(line, '#');
    StripAbsent(b, '#');
    Strip(b)
  }

  /** What the parser can return: non-empty, no comment marker, no surrounding whitespace. */
  predicate IsEntry(e: string) {
    e != [] && '#' !in e && IsStripped(e)
  }

  /** Cleaning an entry gives the entry back; in particular cleaning is idempotent. */
  lemma CleanEntry(e: string)
    requires '#' !in e && IsStripped(e)
    ensures CleanLine(e) == e
  {
    var b := Before(e, '#');
    assert forall i :: 0 <= i < |e| ==> e[i] != '#';
    assert b == e;
    StripStripped(e);
  }

  lemma CleanLineIdempotent(line: string)
    ensures CleanLine(CleanLine(line)) == CleanLine(line)
  {
    CleanEntry(CleanLine(line));
  }

  /** `_parse_list_file` over the file's lines: the cleaned lines that are not empty, in file order. */
  function ParseListFile(lines: seq<string>): (entries: seq<string>)
    ensures |entries| <= |lines|
  {
    if lines == [] then []
    else
      var c := CleanLine(lines[0]);
      (if c == [] then [] else [c]) + ParseListFile(lines[1..])
  }

  /** A file whose every line starts with `#` yields no entry. */
  lemma {:induction false} CommentsOnly(lines: seq<string>)
    requires forall i :: 0 <= i < |lines| ==> lines[i] != [] && lines[i][0] == '#'
    ensures ParseListFile(lines) == []
  {
    if lines != [] {
      assert Before(lines[0], '#') == [];
      assert Strip([]) == [];
      CommentsOnly(lines[1..]);
    }
  }

  /** An entry comes out of the parser exactly when some line cleans to it. */
  lemma {:induction false} ParseListFileMembers(lines: seq<string>, e: string)
    ensures e in ParseListFile(lines) <==>
      e != [] && exists i :: 0 <= i < |lines| && CleanLine(lines[i]) == e
  {
    if lines != [] {
      var tail := lines[1..];
      var c := CleanLine(lines[0]);
      var head: seq<string> := if c == [] then [] else [c];
      assert ParseListFile(lines) == head + ParseListFile(tail);
      ParseListFileMembers(tail, e);
      assert (exists i :: 0 <= i < |lines| && CleanLine(lines[i]) == e) <==>
        c == e || exists j :: 0 <= j < |tail| && CleanLine(tail[j]) == e
      by {
        forall j | 0 <= j < |tail| ensures CleanLine(tail[j]) == CleanLine(lines[j + 1]) {
        }
      }
    }
  }

  /** Every parsed entry is non-empty, holds no `#` and has no surrounding whitespace. */
  lemma {:induction false} ParseListFileEntries(lines: seq<string>)
    ensures forall e :: e in ParseListFile(lines) ==> IsEntry(e)
  {
    if lines != [] {
      ParseListFileEntries(lines[1..]);
    }
  }

  /** The parser keeps file order: parsing two files one after the other is parsing them joined. */
  lemma {:induction false} ParseListFileAppend(a: seq<string>, b: seq<string>)
    ensures ParseListFile(a + b) == ParseListFile(a) + ParseListFile(b)
  {
    if a == [] {
      assert a + b == b;
    } else {
      assert (a + b)[0] == a[0] && (a + b)[1..] == a[1..] + b;
      ParseListFileAppend(a[1..], b);
    }
  }

  /** Re-parsing the parser's own output changes nothing. */
  lemma {:induction false} ParseListFileIdempotent(lines: seq<string>)
    ensures ParseListFile(ParseListFile(lines)) == ParseListFile(lines)
  {
    if lines != [] {
      var c := CleanLine(lines[0]);
      var head: seq<string> := if c == [] then [] else [c];
      var rest := ParseListFile(lines[1..]);
      assert ParseListFile(lines) == head + rest;
      ParseListFileAppend(head, rest);
      ParseListFileIdempotent(lines[1..]);
      if c != [] {
        EntryRoundTrip(c);
      }
    }
  }

  /** A valid entry written as a line of its own is read back unchanged. */
  lemma EntryRoundTrip(e: string)
    requires IsEntry(e)
    ensures ParseListFile([e]) == [e]
  {
    CleanEntry(e);
    assert [e][1..] == [];
  }

  /** Entries longer than this are rejected by both local loaders. */
  const MaxEntryLength: nat := 255

  /** The two user-maintained lists; only the whitelist knows the `@domain` form. */
  datatype LocalList = LocalWhitelist | LocalBlacklist

  datatype Problem = EmptyOrTooLong | SeveralAts | DomainWithSpace

  /** How a loader files one parsed entry. `Ignored` is a whitelist line that is a bare `@`. */
  datatype Classified =
    | EmailEntry(address: string)
    | DomainEntry(domain: string)
    | Invalid(problem: Problem)
    | Ignored

  /** The branches of the local loaders for one entry, in their order. */
  function Classify(list: LocalList, entry: string): Classified
  {
    if entry == [] || |entry| > MaxEntryLength then Invalid(EmptyOrTooLong)
    else if list == LocalWhitelist && entry[0] == '@' then
      var domain := Strip(entry[1..]);
      if domain == [] then Ignored
      else if ' ' in domain then Invalid(DomainWithSpace)
      else DomainEntry(Lower(domain))
    else if '@' in entry then
      if Count(entry, '@') != 1 then Invalid(SeveralAts)
      else EmailEntry(Lower(entry))
    else if ' ' in entry then Invalid(DomainWithSpace)
    else DomainEntry(Lower(entry))
  }

  /** What each verdict of the loaders guarantees: an address has one `@` and a domain
    * no space, both are lower case and fit the length limit; only an empty or
    * over-long entry is refused as such, and only the whitelist ignores a line. */
  lemma ClassifyFacts(list: LocalList, entry: string)
    ensures var k := Classify(list, entry);
      k.EmailEntry? ==>
        && Count(k.address, '@') == 1 && 0 < |k.address| <= MaxEntryLength
        && Lower(k.address) == k.address && k.address == Lower(entry)
    ensures var k := Classify(list, entry);
      k.DomainEntry? ==>
        && k.domain != [] && ' ' !in k.domain && |k.domain| <= MaxEntryLength
        && Lower(k.domain) == k.domain
    ensures var k := Classify(list, entry);
      k.DomainEntry? && (list == LocalBlacklist || !(entry != [] && entry[0] == '@')) ==>
        '@' !in k.domain && k.domain == Lower(entry)
    ensures Classify(list, entry).Ignored? ==> list == LocalWhitelist
    ensures (entry == [] || |entry| > MaxEntryLength) <==> Classify(list, entry) == Invalid(EmptyOrTooLong)
  {
    if entry == [] || |entry| > MaxEntryLength {
    } else if list == LocalWhitelist && entry[0] == '@' {
      var domain := Strip(entry[1..]);
      LowerIdempotent(domain);
      LowerKeepsChar(domain, ' ');
    } else if '@' in entry {
      LowerIdempotent(entry);
      CountLower(entry, '@');
    } else {
      LowerIdempotent(entry);
      LowerKeepsChar(entry, ' ');
      LowerKeepsChar(entry, '@');
    }
  }

  /** The converse of `ClassifyFacts`: every entry of acceptable length gets the verdict
    * its `@` count and spaces call for. */
  lemma ClassifyAccepts(list: LocalList, entry: string)
    requires 0 < |entry| <= MaxEntryLength
    ensures !(list == LocalWhitelist && entry[0] == '@') && Count(entry, '@') == 1 ==>
      Classify(list, entry) == EmailEntry(Lower(entry))
    ensures !(list == LocalWhitelist && entry[0] == '@') && Count(entry, '@') > 1 ==>
      Classify(list, entry) == Invalid(SeveralAts)
    ensures '@' !in entry && ' ' !in entry ==> Classify(list, entry) == DomainEntry(Lower(entry))
    ensures '@' !in entry && ' ' in entry ==> Classify(list, entry) == Invalid(DomainWithSpace)
    ensures list == LocalWhitelist && entry[0] == '@' ==>
      var domain := Strip(entry[1..]);
      && (domain == [] ==> Classify(list, entry) == Ignored)
      && (domain != [] && ' ' in domain ==> Classify(list, entry) == Invalid(DomainWithSpace))
      && (domain != [] && ' ' !in domain ==> Classify(list, entry) == DomainEntry(Lower(domain)))
  {
  }

  /** The whitelist reads `@example.com` as a domain; the blacklist reads the same line as an e-mail address. */
  lemma AtPrefixedEntry(entry: string)
    requires 1 < |entry| <= MaxEntryLength && entry[0] == '@' && Count(entry, '@') == 1
    requires ' ' !in entry && !IsSpace(entry[1])
    ensures Classify(LocalWhitelist, entry) == DomainEntry(Lower(Strip(entry[1..])))
    ensures Classify(LocalBlacklist, entry) == EmailEntry(Lower(entry))
  {
    var domain := Strip(entry[1..]);
    assert entry[1] in entry[1..];
    assert Count(entry[1..], '@') == 0;
    StripChars(entry[1..]);
    assert entry[1] in domain;
    assert forall c :: c in domain ==> c in entry;
  }

  /** What a single entry adds to the e-mail and to the domain set. */
  function EntryEmails(list: LocalList, entry: string): set<string> {
    var k := Classify(list, entry);
    if k.EmailEntry? then {k.address} else {}
  }

  function EntryDomains(list: LocalList, entry: string): set<string> {
    var k := Classify(list, entry);
    if k.DomainEntry? then {k.domain} else {}
  }

  /** The addresses a list's entries add to its e-mail set. */
  function EmailsOf(list: LocalList, entries: seq<string>): set<string> {
    if entries == [] then {}
    else EmailsOf(list, entries[..|entries| - 1]) + EntryEmails(list, entries[|entries| - 1])
  }

  /** The domains a list's entries add to its domain set. */
  function DomainsOf(list: LocalList, entries: seq<string>): set<string> {
    if entries == [] then {}
    else DomainsOf(list, entries[..|entries| - 1]) + EntryDomains(list, entries[|entries| - 1])
  }

  /** Two entries add what each of them adds. */
  lemma OfPair(list: LocalList, x: string, y: string)
    ensures EmailsOf(list, [x, y]) == EntryEmails(list, x) + EntryEmails(list, y)
    ensures DomainsOf(list, [x, y]) == EntryDomains(list, x) + EntryDomains(list, y)
  {
    assert [x, y][..1] == [x] && [x][..0] == [];
    var none: set<string> := {};
    assert EmailsOf(list, [x]) == none + EntryEmails(list, x);
    assert DomainsOf(list, [x]) == none + EntryDomains(list, x);
  }

  /** The loaders' `invalid_count`: how many entries were reported and skipped. */
  function RejectedCount(list: LocalList, entries: seq<string>): nat {
    if entries == [] then 0
    else
      RejectedCount(list, entries[..|entries| - 1])
      + (if Classify(list, entries[|entries| - 1]).Invalid? then 1 else 0)
  }

  /** Every address a local list contributes has exactly one `@` and is lower case;
    * every domain is non-empty, lower case and free of spaces. */
  lemma {:induction false} LocalEntriesWellFormed(list: LocalList, entries: seq<string>)
    ensures forall a :: a in EmailsOf(list, entries) ==> Count(a, '@') == 1 && Lower(a) == a
    ensures forall d :: d in DomainsOf(list, entries) ==> d != [] && ' ' !in d && Lower(d) == d
    ensures list == LocalBlacklist ==> forall d :: d in DomainsOf(list, entries) ==> '@' !in d
  {
    if entries != [] {
      LocalEntriesWellFormed(list, entries[..|entries| - 1]);
      ClassifyFacts(list, entries[|entries| - 1]);
    }
  }

  /** An address is added exactly when some entry is classified as that address. */
  lemma {:induction false} EmailsOfMembers(list: LocalList, entries: seq<string>, a: string)
    ensures a in EmailsOf(list, entries) <==>
      exists i :: 0 <= i < |entries| && Classify(list, entries[i]) == EmailEntry(a)
  {
    if entries != [] {
      var init := entries[..|entries| - 1];
      EmailsOfMembers(list, init, a);
      assert forall i :: 0 <= i < |init| ==> init[i] == entries[i];
    }
  }

  /** A domain is added exactly when some entry is classified as that domain. */
  lemma {:induction false} DomainsOfMembers(list: LocalList, entries: seq<string>, d: string)
    ensures d in DomainsOf(list, entries) <==>
      exists i :: 0 <= i < |entries| && Classify(list, entries[i]) == DomainEntry(d)
  {
    if entries != [] {
      var init := entries[..|entries| - 1];
      DomainsOfMembers(list, init, d);
      assert forall i :: 0 <= i < |init| ==> init[i] == entries[i];
    }
  }
}
