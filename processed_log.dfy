/**
 * `log.txt`, the list of downloaded listing pages. The scraper appends one
 * `path,timestamp` line per saved page; the two bots read it back keeping
 * only recent, well-formed lines, and the CSV extractor reads every line and
 * raises on a malformed one.
 *
 * File contents are given after Python's universal-newline translation.
 * Time stamps are opaque strings; `parse` stands for `strptime(...).timestamp()`
 * and returns `None` where that raises.
 */
module ProcessedLog {
  import opened Wrappers
  import opened Text

  /** Seconds in three days: the age limit of the reply bot. */
  const JobsMaxAge: int := 86400 * 3

  // ---------------------------------------------------------------- writing

  /** One entry of the log: the saved page's path and the time it was saved. */
  function Entry(path: string, stamp: string): string
  {
    path + "," + stamp
  }

  /** The line the scraper's `update_log` appends. */
  function LogLine(path: string, stamp: string): string
  {
    Entry(path, stamp) + "\n"
  }

  /** The log after appending one line per entry to an empty file, oldest first. */
  function Log(entries: seq<(string, string)>): string
    decreases |entries|
  {
    if entries == [] then ""
    else
      var last := entries[|entries| - 1];
      Log(entries[..|entries| - 1]) + LogLine(last.0, last.1)
  }

  /** The entry texts of `entries`, one per line. */
  function EntryLines(entries: seq<(string, string)>): (lines: seq<string>)
    ensures |lines| == |entries|
    ensures forall i :: 0 <= i < |entries| ==> lines[i] == Entry(entries[i].0, entries[i].1)
  {
    seq(|entries|, i requires 0 <= i < |entries| => Entry(entries[i].0, entries[i].1))
  }

  /** The characters `str.splitlines` breaks at (after newline translation `\r` cannot occur). */
  predicate IsLineBreak(c: char)
  {
    c == '\n' || c == '\r' || c as int in {0x0B, 0x0C, 0x1C, 0x1D, 0x1E, 0x85, 0x2028, 0x2029}
  }

  /** A field that survives the round trip: no comma and no line break. */
  predicate PlainField(s: string)
  {
    forall i :: 0 <= i < |s| ==> s[i] != ',' && !IsLineBreak(s[i])
  }

  predicate PlainEntries(entries: seq<(string, string)>)
  {
    forall i :: 0 <= i < |entries| ==> PlainField(entries[i].0) && PlainField(entries[i].1)
  }

  /** A plain entry splits back into its path and its time stamp. */
  lemma {:induction false} EntryFields(path: string, stamp: string)
    requires PlainField(path) && PlainField(stamp)
    ensures Split(Entry(path, stamp), ',') == [path, stamp]
  {
    assert path + "," + stamp == path + [','] + stamp;
    SplitAround(path, stamp, ',');
    SplitWithoutSeparator(path, ',');
    SplitWithoutSeparator(stamp, ',');
  }

  // ---------------------------------------------------------------- reading with an age limit

  /**
   * What one line contributes to the bots' `load_files`: its path when it has
   * exactly two comma-separated fields, its time parses, and it is at most
   * `maxAge` seconds older than `now`; nothing otherwise.
   */
  function FreshPath(line: string, now: int, parse: string -> Option<int>, maxAge: int): Option<string>
  {
    var fields := Split(line, ',');
    if |fields| != 2 then None
    else match parse(fields[1])
      case None => None
      case Some(t) => if now - t <= maxAge then Some(fields[0]) else None
  }

  /** The paths the kept lines contribute, in file order. */
  function FreshPaths(lines: seq<string>, now: int, parse: string -> Option<int>, maxAge: int): seq<string>
    decreases |lines|
  {
    if lines == [] then []
    else
      var earlier := FreshPaths(lines[..|lines| - 1], now, parse, maxAge);
      match FreshPath(lines[|lines| - 1], now, parse, maxAge)
      case None => earlier
      case Some(p) => earlier + [p]
  }

  /**
   * `load_files` of the reply bot (with `maxAge` = `JobsMaxAge`) and of the
   * digest bot (with the configured age): split the log on newlines and keep
   * the fresh, well-formed lines; any other line is skipped.
   */
  method LoadFreshFiles(content: string, now: int, parse: string -> Option<int>, maxAge: int)
    returns (files: seq<string>)
    ensures files == FreshPaths(Split(content, '\n'), now, parse, maxAge)
  {
    var lines := Split(content, '\n');
    files := [];
    for i := 0 to |lines|
      invariant files == FreshPaths(lines[..i], now, parse, maxAge)
    {
      assert lines[..i + 1][..i] == lines[..i];
      var fields := Split(lines[i], ',');
      if |fields| == 2 {
        var stamp := parse(fields[1]);
        if stamp.Some? && now - stamp.value <= maxAge {
          files := files + [fields[0]];
        }
      }
    }
    assert lines[..|lines|] == lines;
  }

  /** A path is loaded exactly when some line contributes it. */
  lemma {:induction false} FreshPathsMembership(lines: seq<string>, now: int, parse: string -> Option<int>, maxAge: int, p: string)
    ensures p in FreshPaths(lines, now, parse, maxAge)
      <==> exists i :: 0 <= i < |lines| && FreshPath(lines[i], now, parse, maxAge) == Some(p)
    decreases |lines|
  {
    if lines != [] {
      var init := lines[..|lines| - 1];
      FreshPathsMembership(init, now, parse, maxAge, p);
      if p in FreshPaths(lines, now, parse, maxAge) && p !in FreshPaths(init, now, parse, maxAge) {
        assert FreshPath(lines[|lines| - 1], now, parse, maxAge) == Some(p);
      }
      if exists i :: 0 <= i < |lines| && FreshPath(lines[i], now, parse, maxAge) == Some(p) {
        var i :| 0 <= i < |lines| && FreshPath(lines[i], now, parse, maxAge) == Some(p);
        if i < |lines| - 1 {
          assert init[i] == lines[i];
        }
      }
    }
  }

  /** Lines are read in file order: the paths of a longer file extend those of its first part. */
  lemma {:induction false} FreshPathsAppend(a: seq<string>, b: seq<string>, now: int, parse: string -> Option<int>, maxAge: int)
    ensures FreshPaths(a + b, now, parse, maxAge) == FreshPaths(a, now, parse, maxAge) + FreshPaths(b, now, parse, maxAge)
    decreases |b|
  {
    if b == [] {
      assert a + b == a;
    } else {
      var b' := b[..|b| - 1];
      FreshPathsAppend(a, b', now, parse, maxAge);
      assert (a + b)[..|a + b| - 1] == a + b';
    }
  }

  /** The log of plain entries splits on newlines into the entries, then whatever follows. */
  lemma {:induction false} LogSplits(entries: seq<(string, string)>, tail: string)
    requires PlainEntries(entries)
    ensures Split(Log(entries) + tail, '\n') == EntryLines(entries) + Split(tail, '\n')
    decreases |entries|
  {
    if entries == [] {
      assert Log(entries) + tail == tail;
      assert EntryLines(entries) + Split(tail, '\n') == Split(tail, '\n');
    } else {
      var init, e := LastEntry(entries, tail);
      var rest := e + "\n" + tail;
      LogSplits(init, rest);
      EntrySplits(e, tail);
      Regroup(Split(Log(entries) + tail, '\n'), EntryLines(init), Split(rest, '\n'), e, Split(tail, '\n'), EntryLines(entries));
    }
  }

  /** The lines of a log whose last entry is `e`, regrouped; stated apart to keep the induction steps small. */
  lemma {:induction false} Regroup(whole: seq<string>, initLines: seq<string>, restLines: seq<string>, e: string,
                                   tailLines: seq<string>, lines: seq<string>)
    requires whole == initLines + restLines
    requires restLines == [e] + tailLines
    requires lines == initLines + [e]
    ensures whole == lines + tailLines
  {
    assert initLines + ([e] + tailLines) == (initLines + [e]) + tailLines;
  }

  /** Takes the last entry off a log: what remains is plain, and the log ends with that entry's line. */
  lemma {:induction false} LastEntry(entries: seq<(string, string)>, tail: string) returns (init: seq<(string, string)>, e: string)
    requires PlainEntries(entries) && entries != []
    ensures init == entries[..|entries| - 1] && PlainEntries(init)
    ensures e == Entry(entries[|entries| - 1].0, entries[|entries| - 1].1)
    ensures forall i :: 0 <= i < |e| ==> !IsLineBreak(e[i])
    ensures Log(entries) + tail == Log(init) + (e + "\n" + tail)
    ensures EntryLines(entries) == EntryLines(init) + [e]
  {
    init := entries[..|entries| - 1];
    var last := entries[|entries| - 1];
    e := Entry(last.0, last.1);
    forall i | 0 <= i < |init| ensures PlainField(init[i].0) && PlainField(init[i].1) {
      assert init[i] == entries[i];
    }
    assert PlainField(last.0) && PlainField(last.1);
  }

  /** An entry line without a line break ends exactly at its newline. */
  lemma {:induction false} EntrySplits(e: string, tail: string)
    requires forall i :: 0 <= i < |e| ==> !IsLineBreak(e[i])
    ensures Split(e + "\n" + tail, '\n') == [e] + Split(tail, '\n')
  {
    assert '\n' !in e;
    SplitWithoutSeparator(e, '\n');
    assert e + "\n" + tail == e + ['\n'] + tail;
    SplitAround(e, tail, '\n');
  }

  /** On a log of plain entries, a line is loaded exactly when its time stamp is fresh. */
  lemma {:induction false} FreshEntry(path: string, stamp: string, now: int, parse: string -> Option<int>, maxAge: int)
    requires PlainField(path) && PlainField(stamp)
    ensures FreshPath(Entry(path, stamp), now, parse, maxAge)
      == if parse(stamp).Some? && now - parse(stamp).value <= maxAge then Some(path) else None
  {
    EntryFields(path, stamp);
  }

  /**
   * Appending the scraper's line for a saved page to a log of plain entries
   * makes the bots load exactly that path in addition, and last, when its
   * time is fresh, and nothing new otherwise.
   */
  lemma {:induction false} SavedPageLoaded(entries: seq<(string, string)>, path: string, stamp: string,
                                           now: int, parse: string -> Option<int>, maxAge: int)
    requires PlainEntries(entries) && PlainField(path) && PlainField(stamp)
    ensures Log(entries + [(path, stamp)]) == Log(entries) + LogLine(path, stamp)
    ensures FreshPaths(Split(Log(entries + [(path, stamp)]), '\n'), now, parse, maxAge)
      == FreshPaths(Split(Log(entries), '\n'), now, parse, maxAge)
         + (if parse(stamp).Some? && now - parse(stamp).value <= maxAge then [path] else [])
  {
    var more := entries + [(path, stamp)];
    assert more[..|more| - 1] == entries;
    assert PlainEntries(more) by {
      forall i | 0 <= i < |more| ensures PlainField(more[i].0) && PlainField(more[i].1) {
        if i < |entries| {
          assert more[i] == entries[i];
        }
      }
    }
    LogSplits(entries, "");
    LogSplits(more, "");
    assert Log(entries) + "" == Log(entries);
    assert Log(more) + "" == Log(more);
    assert EntryLines(more) == EntryLines(entries) + [Entry(path, stamp)];
    assert Split("", '\n') == [""];
    FreshPathsAppend(EntryLines(entries), [""], now, parse, maxAge);
    FreshPathsAppend(EntryLines(more), [""], now, parse, maxAge);
    FreshPathsAppend(EntryLines(entries), [Entry(path, stamp)], now, parse, maxAge);
    assert FreshPaths([""], now, parse, maxAge) == [] by {
      assert [""][..0] == [];
    }
    assert FreshPaths([Entry(path, stamp)], now, parse, maxAge)
      == (if parse(stamp).Some? && now - parse(stamp).value <= maxAge then [path] else []) by {
      assert [Entry(path, stamp)][..0] == [];
      FreshEntry(path, stamp, now, parse, maxAge);
    }
  }

  // ---------------------------------------------------------------- reading every line

  /** `s.splitlines()`: the text between line breaks; a final break does not start another line. */
  function Lines(s: string): (lines: seq<string>)
    ensures forall i, j :: 0 <= i < |lines| && 0 <= j < |lines[i]| ==> !IsLineBreak(lines[i][j])
    decreases |s|
  {
    if s == [] then []
    else if IsLineBreak(s[0]) then [""] + Lines(s[1..])
    else
      var rest := Lines(s[1..]);
      if rest == [] then [[s[0]]] else [[s[0]] + rest[0]] + rest[1..]
  }

  /** A line break right after a piece without one ends exactly that line. */
  lemma {:induction false} LinesAround(a: string, t: string)
    requires forall i :: 0 <= i < |a| ==> !IsLineBreak(a[i])
    ensures Lines(a + "\n" + t) == [a] + Lines(t)
    decreases |a|
  {
    if a == [] {
      assert a + "\n" + t == ['\n'] + t;
      assert (['\n'] + t)[1..] == t;
    } else {
      assert (a + "\n" + t)[1..] == a[1..] + "\n" + t;
      LinesAround(a[1..], t);
      assert [a[0]] + a[1..] == a;
    }
  }

  /** The pairs the CSV extractor's `load_files` reads, or the error it raises on a line without exactly two fields. */
  function AllEntries(lines: seq<string>): Result<seq<(string, string)>>
  {
    if forall i :: 0 <= i < |lines| ==> |Split(lines[i], ',')| == 2 then
      Success(seq(|lines|, i requires 0 <= i < |lines| && |Split(lines[i], ',')| == 2 =>
        (Split(lines[i], ',')[0], Split(lines[i], ',')[1])))
    else Failure(ValueError)
  }

  /** `load_files` of the CSV extractor: one pair per line, in file order; a malformed line raises. */
  method LoadAllFiles(content: string) returns (r: Result<seq<(string, string)>>)
    ensures r == AllEntries(Lines(content))
  {
    var lines := Lines(content);
    var pairs: seq<(string, string)> := [];
    for i := 0 to |lines|
      invariant forall j :: 0 <= j < i ==> |Split(lines[j], ',')| == 2
      invariant |pairs| == i
      invariant forall j :: 0 <= j < i ==> pairs[j] == (Split(lines[j], ',')[0], Split(lines[j], ',')[1])
    {
      var fields := Split(lines[i], ',');
      if |fields| != 2 {
        return Failure(ValueError);
      }
      pairs := pairs + [(fields[0], fields[1])];
    }
    assert pairs == seq(|lines|, i requires 0 <= i < |lines| && |Split(lines[i], ',')| == 2 =>
      (Split(lines[i], ',')[0], Split(lines[i], ',')[1]));
    r := Success(pairs);
  }

  /** Each pair read by the CSV extractor joins back into its line. */
  lemma {:induction false} AllEntriesRejoin(lines: seq<string>, i: int)
    requires AllEntries(lines).Success? && 0 <= i < |lines|
    ensures |AllEntries(lines).value| == |lines|
    ensures Entry(AllEntries(lines).value[i].0, AllEntries(lines).value[i].1) == lines[i]
  {
    var fields := Split(lines[i], ',');
    JoinSplit(lines[i], ',');
    assert fields[1..] == [fields[1]];
    assert Join(fields, ',') == fields[0] + [','] + fields[1];
  }

  /** Everything the scraper wrote is read back by the CSV extractor, entry for entry. */
  lemma {:induction false} LogReadBack(entries: seq<(string, string)>)
    requires PlainEntries(entries)
    ensures Lines(Log(entries)) == EntryLines(entries)
    ensures AllEntries(Lines(Log(entries))) == Success(entries)
    decreases |entries|
  {
    LogLines(entries, "");
    assert Log(entries) + "" == Log(entries);
    assert EntryLines(entries) + Lines("") == EntryLines(entries);
    var lines := EntryLines(entries);
    forall i | 0 <= i < |lines| ensures Split(lines[i], ',') == [entries[i].0, entries[i].1] {
      EntryFields(entries[i].0, entries[i].1);
    }
    assert AllEntries(lines).value == entries by {
      forall i | 0 <= i < |lines| ensures AllEntries(lines).value[i] == entries[i] {
        assert Split(lines[i], ',') == [entries[i].0, entries[i].1];
      }
    }
  }

  lemma {:induction false} LogLines(entries: seq<(string, string)>, tail: string)
    requires PlainEntries(entries)
    ensures Lines(Log(entries) + tail) == EntryLines(entries) + Lines(tail)
    decreases |entries|
  {
    if entries == [] {
      assert Log(entries) + tail == tail;
      assert EntryLines(entries) + Lines(tail) == Lines(tail);
    } else {
      var init, e := LastEntry(entries, tail);
      var rest := e + "\n" + tail;
      LogLines(init, rest);
      LinesAround(e, tail);
      Regroup(Lines(Log(entries) + tail), EntryLines(init), Lines(rest), e, Lines(tail), EntryLines(entries));
    }
  }
}
