/** The command-line list editor `manage_lists.py`: a list file is the sequence of its
  * lines, and `add`, `remove` and `show` work on that sequence. */
module ManageLists {
  import opened Wrappers
  import opened Text
  import opened Entries

  datatype ListName = Whitelist | Blacklist

  /** `file_path.stem` of `whitelist.txt` / `blacklist.txt`. */
  function Stem(name: ListName): string {
    match name
    case Whitelist => "whitelist"
    case Blacklist => "blacklist"
  }

  /** A list file: its lines as `splitlines()` returns them, and whether its text ends
    * with a line break (an empty file has nothing to continue and counts as ended). */
  datatype ListFile = ListFile(lines: seq<string>, terminated: bool)

  /** `get_entries_only`: the lower-cased, comment-free, trimmed, non-empty lines. */
  function EntrySet(lines: seq<string>): set<string> {
    if lines == [] then {}
    else
      var c := CleanLine(lines[|lines| - 1]);
      EntrySet(lines[..|lines| - 1]) + (if c != [] then {Lower(c)} else {})
  }

  lemma EntrySetSnoc(lines: seq<string>, l: string)
    ensures EntrySet(lines + [l]) == EntrySet(lines) + (if CleanLine(l) != [] then {Lower(CleanLine(l))} else {})
  {
    assert (lines + [l])[..|lines|] == lines;
  }

  /** An entry is listed exactly when some line cleans to a non-empty text that lowers to it. */
  lemma {:induction false} EntrySetMembers(lines: seq<string>, x: string)
    ensures x in EntrySet(lines) <==> exists l :: l in lines && CleanLine(l) != [] && Lower(CleanLine(l)) == x
  {
    if lines != [] {
      var init := lines[..|lines| - 1];
      EntrySetMembers(init, x);
      assert lines == init + [lines[|lines| - 1]];
    }
  }

  /** The editor's entry set is the engine's parse of the same lines, lower-cased. */
  lemma EntrySetIsParsed(lines: seq<string>)
    ensures EntrySet(lines) == set e | e in ParseListFile(lines) :: Lower(e)
  {
    forall e | e in ParseListFile(lines) ensures Lower(e) in EntrySet(lines) {
      ParseListFileMembers(lines, e);
      var i :| 0 <= i < |lines| && CleanLine(lines[i]) == e;
      assert lines[i] in lines;
      EntrySetMembers(lines, Lower(e));
    }
    forall x | x in EntrySet(lines) ensures x in set e | e in ParseListFile(lines) :: Lower(e) {
      EntrySetMembers(lines, x);
      var l :| l in lines && CleanLine(l) != [] && Lower(CleanLine(l)) == x;
      var i :| 0 <= i < |lines| && lines[i] == l;
      ParseListFileMembers(lines, CleanLine(l));
    }
  }

  /** No entry of a list file contains `#`. */
  lemma {:induction false} EntrySetHasNoHash(lines: seq<string>)
    ensures forall e :: e in EntrySet(lines) ==> '#' !in e
  {
    if lines != [] {
      EntrySetHasNoHash(lines[..|lines| - 1]);
      LowerKeepsChar(CleanLine(lines[|lines| - 1]), '#');
    }
  }

  /** Lines that clean to nothing (comments, blank lines) list no entry. */
  lemma {:induction false} NoEntries(lines: seq<string>)
    requires forall l :: l in lines ==> CleanLine(l) == []
    ensures EntrySet(lines) == {}
  {
    if lines != [] {
      var init := lines[..|lines| - 1];
      assert forall l :: l in init ==> l in lines;
      assert lines[|lines| - 1] in lines;
      NoEntries(init);
    }
  }

  /** The loop of `get_entries_only`. */
  method GetEntriesOnly(lines: seq<string>) returns (entries: set<string>)
    ensures entries == EntrySet(lines)
  {
    entries := {};
    var i := 0;
    while i < |lines|
      invariant 0 <= i <= |lines|
      invariant entries == EntrySet(lines[..i])
    {
      var cleaned := CleanLine(lines[i]);
      assert lines[..i + 1] == lines[..i] + [lines[i]];
      EntrySetSnoc(lines[..i], lines[i]);
      if cleaned != [] {
        entries := entries + {Lower(cleaned)};
      }
      i := i + 1;
    }
    assert lines[..i] == lines;
  }

  /** `ensure_file_exists`: a missing file is created with a two-line header and a blank line. */
  function EnsureFile(name: ListName, file: Option<ListFile>): (f: ListFile)
    ensures file.Some? ==> f == file.value
    ensures file.None? ==> f.terminated && EntrySet(f.lines) == {}
  {
    match file
    case Some(existing) => existing
    case None =>
      var header := ["# " + Stem(name), "# Eine E-Mail oder Domain pro Zeile", ""];
      assert Before(header[0], '#') == [] && Before(header[1], '#') == [] && Before(header[2], '#') == [];
      assert Strip([]) == [];
      NoEntries(header);
      ListFile(header, true)
  }

  /** `entry.strip().lower()`. */
  function Normalize(raw: string): (entry: string)
    ensures IsStripped(entry) && Lower(entry) == entry
    ensures |entry| <= |raw|
  {
    var s := Strip(raw);
    LowerStripped(s);
    LowerIdempotent(s);
    Lower(s)
  }

  /** Appending a line to a file that ends with a line break: every earlier line stays,
    * and the new line follows them. */
  function AppendLine(f: ListFile, entry: string): (g: ListFile)
    ensures |g.lines| == |f.lines| + 1 && g.lines[..|f.lines|] == f.lines && g.lines[|f.lines|] == entry
    ensures g.terminated
  {
    ListFile(f.lines + [entry], true)
  }

  /** The file's text ends with a line break, or is empty. */
  predicate Ended(f: ListFile) {
    f.terminated || f.lines == []
  }

  /** `open(path, 'a').write(f"{entry}\n")` as the code does it: without a final line
    * break in the file, the text lands at the end of the last line. */
  function AppendAsWritten(f: ListFile, entry: string): (g: ListFile)
    ensures g.terminated
    ensures Ended(f) ==> g.lines == f.lines + [entry]
    ensures !Ended(f) ==>
      && |g.lines| == |f.lines|
      && g.lines[..|f.lines| - 1] == f.lines[..|f.lines| - 1]
      && g.lines[|f.lines| - 1] == f.lines[|f.lines| - 1] + entry
  {
    if f.terminated || f.lines == [] then ListFile(f.lines + [entry], true)
    else ListFile(f.lines[..|f.lines| - 1] + [f.lines[|f.lines| - 1] + entry], true)
  }

  /** On a file that ends with a line break both appends agree. */
  lemma AppendAgreesWhenTerminated(f: ListFile, entry: string)
    requires Ended(f)
    ensures AppendAsWritten(f, entry) == AppendLine(f, entry)
  {
  }

  /** The appended entry is lost when the last line has no line break: `a.de` followed
    * by `add b.de` leaves the single line `a.deb.de`, so neither entry is listed. */
  lemma AppendMergesIntoLastLine()
    ensures AppendAsWritten(ListFile(["a.de"], false), "b.de").lines == ["a.de" + "b.de"]
    ensures "b.de" !in EntrySet(AppendAsWritten(ListFile(["a.de"], false), "b.de").lines)
    ensures "a.de" !in EntrySet(AppendAsWritten(ListFile(["a.de"], false), "b.de").lines)
  {
    var merged := "a.de" + "b.de";
    assert AppendAsWritten(ListFile(["a.de"], false), "b.de").lines == [merged];
    assert merged[0] == 'a' && merged[|merged| - 1] == 'e';
    assert '#' !in "a.de" && '#' !in "b.de";
    CleanEntry(merged);
    EntrySetSnoc([], merged);
    assert [] + [merged] == [merged];
  }

  /** An appended entry is listed afterwards, unless it holds `#`, which cuts it off. */
  lemma AppendedIsListed(f: ListFile, entry: string)
    requires entry != [] && IsStripped(entry) && Lower(entry) == entry
    ensures '#' !in entry ==> EntrySet(AppendLine(f, entry).lines) == EntrySet(f.lines) + {entry}
    ensures '#' in entry ==> entry !in EntrySet(AppendLine(f, entry).lines)
  {
    EntrySetSnoc(f.lines, entry);
    EntrySetHasNoHash(AppendLine(f, entry).lines);
    if '#' !in entry {
      CleanEntry(entry);
    }
  }

  /** What the engine's loader reads after an `add`: the old entries and then the new one. */
  lemma AppendedIsLoaded(f: ListFile, entry: string)
    requires IsEntry(entry)
    ensures ParseListFile(AppendLine(f, entry).lines) == ParseListFile(f.lines) + [entry]
  {
    ParseListFileAppend(f.lines, [entry]);
    EntryRoundTrip(entry);
  }

  datatype AddOutcome = EmptyEntry | TooLong | AlreadyListed | Added

  /** `add_entry`: the new file, or `file` itself when the entry is refused
    * (`sys.exit(1)` before the file is touched). The entry is written in append mode,
    * so on a file without a final line break it continues the last line. */
  method AddEntry(name: ListName, file: Option<ListFile>, raw: string) returns (outcome: AddOutcome, result: Option<ListFile>)
    ensures outcome == EmptyEntry <==> Normalize(raw) == []
    ensures outcome == TooLong <==> |Normalize(raw)| > MaxEntryLength
    ensures outcome == EmptyEntry || outcome == TooLong ==> result == file
    ensures outcome == AlreadyListed <==>
      0 < |Normalize(raw)| <= MaxEntryLength && Normalize(raw) in EntrySet(EnsureFile(name, file).lines)
    ensures outcome == AlreadyListed ==> result == Some(EnsureFile(name, file))
    ensures outcome == Added ==> result == Some(AppendAsWritten(EnsureFile(name, file), Normalize(raw)))
    ensures outcome == Added && Ended(EnsureFile(name, file)) ==>
      result == Some(AppendLine(EnsureFile(name, file), Normalize(raw)))
    ensures outcome == Added && Ended(EnsureFile(name, file)) && '#' !in Normalize(raw) ==>
      EntrySet(result.value.lines) == EntrySet(EnsureFile(name, file).lines) + {Normalize(raw)}
  {
    var entry := Normalize(raw);
    if entry == [] {
      return EmptyEntry, file;
    }
    if |entry| > MaxEntryLength {
      return TooLong, file;
    }
    var f := EnsureFile(name, file);
    var existing := GetEntriesOnly(f.lines);
    if entry in existing {
      return AlreadyListed, Some(f);
    }
    if Ended(f) {
      AppendAgreesWhenTerminated(f, entry);
      AppendedIsListed(f, entry);
    }
    return Added, Some(AppendAsWritten(f, entry));
  }

  /** Adding the same entry twice to a file that ends with a line break: the second call
    * finds it and leaves the file as the first call left it. A file that already lists
    * the entry is never touched. */
  method AddTwice(name: ListName, file: Option<ListFile>, raw: string)
    returns (first: AddOutcome, second: AddOutcome, after: Option<ListFile>, again: Option<ListFile>)
    requires '#' !in raw
    ensures first == AlreadyListed ==> second == AlreadyListed && again == after
    ensures first == Added && Ended(EnsureFile(name, file)) ==> second == AlreadyListed && again == after
    ensures first == EmptyEntry || first == TooLong ==> second == first && again == file
  {
    first, after := AddEntry(name, file, raw);
    if first == AlreadyListed || (first == Added && Ended(EnsureFile(name, file))) {
      StripAbsent(raw, '#');
      LowerKeepsChar(Strip(raw), '#');
      assert EnsureFile(name, after) == after.value;
    }
    second, again := AddEntry(name, after, raw);
  }

  /** `b.de` is its own normal form. */
  lemma SampleEntry()
    ensures Normalize("b.de") == "b.de"
  {
    var e := "b.de";
    assert e[0] == 'b' && e[|e| - 1] == 'e' && !IsSpace('b') && !IsSpace('e');
    StripStripped(e);
    LowerNoUpper(e);
  }

  /** The file `a.de` lists just `a.de`. */
  lemma SampleFile()
    ensures EntrySet(["a.de"]) == {"a.de"}
  {
    var e := "a.de";
    assert e[0] == 'a' && e[|e| - 1] == 'e' && !IsSpace('a') && !IsSpace('e') && '#' !in e;
    CleanEntry(e);
    LowerNoUpper(e);
    EntrySetSnoc([], e);
    assert [] + [e] == [e];
  }

  /** On the file `a.de` without a final line break, `add b.de` does not list `b.de`,
    * so a second `add b.de` appends it again, this time on a line of its own. */
  method AddTwiceUnended() returns (first: AddOutcome, second: AddOutcome, again: Option<ListFile>)
    ensures first == Added && second == Added
    ensures again == Some(ListFile(["a.de" + "b.de", "b.de"], true))
  {
    var after;
    AppendMergesIntoLastLine();
    SampleEntry();
    SampleFile();
    first, after := AddEntry(Whitelist, Some(ListFile(["a.de"], false)), "b.de");
    assert after == Some(ListFile(["a.de" + "b.de"], true));
    assert "b.de" !in EntrySet(["a.de" + "b.de"]);
    second, again := AddEntry(Whitelist, after, "b.de");
    assert ["a.de" + "b.de"] + ["b.de"] == ["a.de" + "b.de", "b.de"];
  }

  /** The lines `remove_entry` keeps: those that do not clean to `entry`, in order. */
  function Kept(lines: seq<string>, entry: string): (kept: seq<string>)
    ensures |kept| <= |lines|
  {
    if lines == [] then []
    else
      var last := lines[|lines| - 1];
      Kept(lines[..|lines| - 1], entry) + (if Lower(CleanLine(last)) == entry then [] else [last])
  }

  /** Every kept line is a line of the file that does not clean to `entry`. */
  lemma {:induction false} KeptOnlyOthers(lines: seq<string>, entry: string)
    ensures forall l :: l in Kept(lines, entry) ==> l in lines && Lower(CleanLine(l)) != entry
  {
    if lines != [] {
      var init := lines[..|lines| - 1];
      KeptOnlyOthers(init, entry);
      assert forall l :: l in init ==> l in lines;
    }
  }

  /** Filtering distributes over concatenation, so the kept lines keep their order. */
  lemma {:induction false} KeptAppend(a: seq<string>, b: seq<string>, entry: string)
    ensures Kept(a + b, entry) == Kept(a, entry) + Kept(b, entry)
  {
    if b == [] {
      assert a + b == a;
    } else {
      var b' := b[..|b| - 1];
      assert (a + b)[..|a + b| - 1] == a + b';
      assert (a + b)[|a + b| - 1] == b[|b| - 1];
      KeptAppend(a, b', entry);
    }
  }

  /** Every line that does not clean to `entry` is kept. */
  lemma {:induction false} KeptKeepsOthers(lines: seq<string>, entry: string)
    ensures forall l :: l in lines && Lower(CleanLine(l)) != entry ==> l in Kept(lines, entry)
  {
    if lines != [] {
      var init := lines[..|lines| - 1];
      KeptKeepsOthers(init, entry);
      assert lines == init + [lines[|lines| - 1]];
    }
  }

  /** Removing drops exactly `entry` from the entry set. */
  lemma {:induction false} KeptEntries(lines: seq<string>, entry: string)
    ensures EntrySet(Kept(lines, entry)) == EntrySet(lines) - {entry}
  {
    if lines != [] {
      var init := lines[..|lines| - 1];
      var last := lines[|lines| - 1];
      KeptEntries(init, entry);
      var c := CleanLine(last);
      assert EntrySet(lines) == EntrySet(init) + (if c != [] then {Lower(c)} else {});
      if Lower(c) != entry {
        assert Kept(lines, entry) == Kept(init, entry) + [last];
        EntrySetSnoc(Kept(init, entry), last);
      } else {
        assert Kept(lines, entry) == Kept(init, entry);
      }
    }
  }

  /** Keeping as many lines as there are means keeping all of them. */
  lemma {:induction false} KeptFull(lines: seq<string>, entry: string)
    requires |Kept(lines, entry)| == |lines|
    ensures Kept(lines, entry) == lines
  {
    if lines != [] {
      KeptFull(lines[..|lines| - 1], entry);
    }
  }

  /** When nothing cleans to a non-empty `entry`, every line is kept. */
  lemma {:induction false} KeptAbsent(lines: seq<string>, entry: string)
    requires entry != [] && entry !in EntrySet(lines)
    ensures Kept(lines, entry) == lines
  {
    if lines != [] {
      var init := lines[..|lines| - 1];
      var last := lines[|lines| - 1];
      assert lines == init + [last];
      EntrySetSnoc(init, last);
      KeptAbsent(init, entry);
    }
  }

  /** `write_text('\n'.join(lines) + '\n')` read back with `splitlines()`. */
  function Written(lines: seq<string>): (f: ListFile)
    ensures f.terminated && EntrySet(f.lines) == EntrySet(lines)
    ensures lines != [] ==> f.lines == lines
    ensures lines == [] ==> f.lines == [""]
  {
    if lines == [] then
      assert Before("", '#') == [] && Strip([]) == [];
      NoEntries([""]);
      ListFile([""], true)
    else ListFile(lines, true)
  }

  datatype RemoveOutcome = NotListed | Removed | NotFound

  /** One more line: kept unless it cleans to `entry`. */
  lemma KeptSnoc(lines: seq<string>, i: nat, entry: string)
    requires i < |lines|
    ensures Kept(lines[..i + 1], entry) ==
      Kept(lines[..i], entry) + (if Lower(CleanLine(lines[i])) == entry then [] else [lines[i]])
  {
    assert lines[..i + 1][..i] == lines[..i] && lines[..i + 1][i] == lines[i];
  }

  /** The loop of `remove_entry`: the lines kept, and whether any line was dropped. */
  method DropMatching(lines: seq<string>, entry: string) returns (kept: seq<string>, removed: bool)
    ensures kept == Kept(lines, entry)
    ensures removed <==> |kept| < |lines|
  {
    kept := [];
    removed := false;
    var i := 0;
    while i < |lines|
      invariant 0 <= i <= |lines|
      invariant kept == Kept(lines[..i], entry)
      invariant removed <==> |kept| < i
    {
      var line := lines[i];
      KeptSnoc(lines, i, entry);
      if Lower(CleanLine(line)) == entry {
        removed := true;
      } else {
        kept := kept + [line];
      }
      i := i + 1;
    }
    assert lines[..i] == lines;
  }

  /** `remove_entry`: the file after the call (created when it was missing). */
  method RemoveEntry(name: ListName, file: Option<ListFile>, raw: string) returns (outcome: RemoveOutcome, result: ListFile)
    ensures outcome == NotListed <==> Normalize(raw) !in EntrySet(EnsureFile(name, file).lines)
    ensures outcome == NotListed ==> result == EnsureFile(name, file)
    ensures outcome != NotFound
    ensures outcome == Removed ==>
      && result == Written(Kept(EnsureFile(name, file).lines, Normalize(raw)))
      && EntrySet(result.lines) == EntrySet(EnsureFile(name, file).lines) - {Normalize(raw)}
  {
    var entry := Normalize(raw);
    var f := EnsureFile(name, file);
    var existing := GetEntriesOnly(f.lines);
    if entry !in existing {
      return NotListed, f;
    }
    var newLines, removed := DropMatching(f.lines, entry);
    KeptEntries(f.lines, entry);
    if !removed {
      KeptFull(f.lines, entry);
    }
    result := Written(newLines);
    outcome := if removed then Removed else NotFound;
  }

  /** Inserts `x` into a strictly sorted sequence that lacks it. */
  function InsertSorted(r: seq<string>, x: string): (r': seq<string>)
    ensures |r'| == |r| + 1
    ensures forall y :: y in r' <==> y in r || y == x
  {
    if r == [] then [x]
    else if LexLess(x, r[0]) then [x] + r
    else [r[0]] + InsertSorted(r[1..], x)
  }

  /** A sorted sequence stays sorted under a smaller first element. */
  lemma SortedCons(a: string, t: seq<string>)
    requires StrictlySorted(t)
    requires forall y :: y in t ==> LexLess(a, y)
    ensures StrictlySorted([a] + t)
  {
    var r := [a] + t;
    forall i, j | 0 <= i < j < |r| ensures LexLess(r[i], r[j]) {
      assert r[j] == t[j - 1];
      if i > 0 {
        assert r[i] == t[i - 1];
      }
    }
  }

  lemma {:induction false} InsertSortedSorted(r: seq<string>, x: string)
    requires StrictlySorted(r) && x !in r
    ensures StrictlySorted(InsertSorted(r, x))
  {
    if r == [] {
    } else if LexLess(x, r[0]) {
      forall y | y in r ensures LexLess(x, y) {
        var k :| 0 <= k < |r| && r[k] == y;
        if k > 0 {
          LexLessTransitive(x, r[0], y);
        }
      }
      SortedCons(x, r);
    } else {
      assert r[0] in r;
      LexLessTotal(x, r[0]);
      var tail := r[1..];
      assert StrictlySorted(tail) by {
        forall i, j | 0 <= i < j < |tail| ensures LexLess(tail[i], tail[j]) {
          assert tail[i] == r[i + 1] && tail[j] == r[j + 1];
        }
      }
      assert x !in tail;
      InsertSortedSorted(tail, x);
      forall y | y in InsertSorted(tail, x) ensures LexLess(r[0], y) {
        if y != x {
          var k :| 0 <= k < |tail| && tail[k] == y;
          assert r[k + 1] == y;
        }
      }
      SortedCons(r[0], InsertSorted(tail, x));
    }
  }

  /** `sorted(...)` of the elements of a set: strictly increasing, each element once. */
  method SortSet(s: set<string>) returns (r: seq<string>)
    ensures StrictlySorted(r)
    ensures forall x :: x in r <==> x in s
    ensures |r| == |s|
  {
    r := [];
    var remaining := s;
    while remaining != {}
      invariant remaining <= s
      invariant StrictlySorted(r)
      invariant forall x :: x in r <==> x in s && x !in remaining
      invariant |r| + |remaining| == |s|
      decreases |remaining|
    {
      var x :| x in remaining;
      InsertSortedSorted(r, x);
      r := InsertSorted(r, x);
      remaining := remaining - {x};
    }
  }

  /** What `show_list` prints: the e-mail entries, the domain entries, the total. */
  datatype Listing = Listing(emails: seq<string>, domains: seq<string>, total: nat)

  /** Splitting a set by a test splits its size. */
  lemma SplitSize(s: set<string>)
    ensures |set e | e in s && '@' in e| + |set e | e in s && '@' !in e| == |s|
  {
    var a := set e | e in s && '@' in e;
    var b := set e | e in s && '@' !in e;
    assert s == a + b && a !! b;
  }

  /** `show_list`, with the file as it is afterwards (created when it was missing). */
  method ShowList(name: ListName, file: Option<ListFile>) returns (listing: Listing, f: ListFile)
    ensures f == EnsureFile(name, file)
    ensures StrictlySorted(listing.emails) && StrictlySorted(listing.domains)
    ensures forall e :: e in listing.emails <==> e in EntrySet(f.lines) && '@' in e
    ensures forall e :: e in listing.domains <==> e in EntrySet(f.lines) && '@' !in e
    ensures listing.total == |EntrySet(f.lines)| == |listing.emails| + |listing.domains|
  {
    f := EnsureFile(name, file);
    var entries := GetEntriesOnly(f.lines);
    var emails := SortSet(set e | e in entries && '@' in e);
    var domains := SortSet(set e | e in entries && '@' !in e);
    SplitSize(entries);
    listing := Listing(emails, domains, |entries|);
  }
}
