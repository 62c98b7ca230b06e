/**
 * The CSV extractor: every page listed in the log becomes one row of
 * sixteen fields (date, cleaned offer name, salary, working hours, one flag
 * per weekday, days worked, state and municipality) below a header row.
 * A page any of whose lookups or conversions fails gives no row.
 */
module Records {
  import opened Wrappers
  import opened Text
  import opened Numbers
  import opened Accents
  import opened ProcessedLog
  import opened Listings

  // ---------------------------------------------------------------- the offer name

  /** The words dropped from an offer name: "a", "de", "en" and the words `isdigit` accepts. */
  predicate StopWord(w: string)
  {
    w == "a" || w == "de" || w == "en" || IsDigitWord(w)
  }

  /** The words that are not stop words, in order. */
  function KeptWords(words: seq<string>): (r: seq<string>)
    ensures |r| <= |words|
    ensures forall i :: 0 <= i < |r| ==> !StopWord(r[i])
    decreases |words|
  {
    if words == [] then []
    else
      var earlier := KeptWords(words[..|words| - 1]);
      var w := words[|words| - 1];
      if StopWord(w) then earlier else earlier + [w]
  }

  /** The kept words keep their order and repetitions: the filter works word by word. */
  lemma {:induction false} KeptWordsAppend(a: seq<string>, b: seq<string>)
    ensures KeptWords(a + b) == KeptWords(a) + KeptWords(b)
    decreases |b|
  {
    if b == [] {
      assert a + b == a;
    } else {
      var init := b[..|b| - 1];
      KeptWordsAppend(a, init);
      assert (a + b)[..|a + b| - 1] == a + init;
      assert (a + b)[|a + b| - 1] == b[|b| - 1];
    }
  }

  /** One word is kept exactly when it is not a stop word. */
  lemma {:induction false} KeptWordsSingle(w: string)
    ensures KeptWords([w]) == if StopWord(w) then [] else [w]
  {
    assert [w][..0] == [];
  }

  /** The name text the words are taken from: before the first '-', lower-cased, stripped. */
  function NameText(raw: string): string
  {
    Strip(Lower(First(raw, '-')))
  }

  /** The offer column: the name's words without stop words, joined by single spaces, without accents. */
  function OfferName(raw: string): string
  {
    Unaccent(Join(KeptWords(Split(NameText(raw), ' ')), ' '))
  }

  /** The loop of `parse_file` that collects the words of the name, then `clean_word`. */
  method CleanName(raw: string) returns (r: string)
    ensures r == OfferName(raw)
  {
    var name := Strip(Lower(First(raw, '-')));
    var words := Split(name, ' ');
    var kept: seq<string> := [];
    for i := 0 to |words|
      invariant kept == KeptWords(words[..i])
    {
      assert words[..i + 1][..i] == words[..i];
      if !StopWord(words[i]) {
        kept := kept + [words[i]];
      }
    }
    assert words[..|words|] == words;
    r := CleanWord(Join(kept, ' '));
  }

  /** Exactly the words that are not stop words are kept. */
  lemma {:induction false} KeptWordsMembers(words: seq<string>)
    ensures forall w :: w in KeptWords(words) <==> w in words && !StopWord(w)
    decreases |words|
  {
    if words != [] {
      var init := words[..|words| - 1];
      KeptWordsMembers(init);
      assert words == init + [words[|words| - 1]];
    }
  }

  /**
   * Before the accents are removed, the words of the cleaned name are exactly
   * the kept words: the single spaces of the join separate them again.
   */
  lemma {:induction false} KeptWordsRejoin(raw: string)
    requires |KeptWords(Split(NameText(raw), ' '))| >= 1
    ensures Split(Join(KeptWords(Split(NameText(raw), ' ')), ' '), ' ') == KeptWords(Split(NameText(raw), ' '))
  {
    var words := Split(NameText(raw), ' ');
    var kept := KeptWords(words);
    KeptWordsMembers(words);
    forall i | 0 <= i < |kept| ensures ' ' !in kept[i] {
      assert kept[i] in words;
    }
    SplitJoin(kept, ' ');
  }

  // ---------------------------------------------------------------- hours

  /** An `HH:MM` text as the integer `HHMM`: `int(text.replace(":", ""))`. */
  function ClockValue(text: string): Option<int>
  {
    ParseInt(RemoveChar(text, ':'))
  }

  /**
   * Hundredths of hours between two `HHMM` values, across midnight when the
   * end is not after the start; equal times count as a whole day.
   */
  function Elapsed(start: int, end: int): (r: int)
    ensures start < end ==> r == end - start
    ensures start >= end ==> r == end + 2400 - start
    ensures 0 <= start <= 2359 && 0 <= end <= 2359 ==> 1 <= r <= 2400
    ensures start == end ==> r == 2400
  {
    if start >= end then (end + 2400) - start else end - start
  }

  /** `hours_worked`: the elapsed hundredths divided by 100. */
  function HoursWorked(start: int, end: int): real
  {
    Elapsed(start, end) as real / 100.0
  }

  /** The shift "08:00 - 02:00" of the job site: its pieces read as 800 and 200, eighteen hours across midnight. */
  lemma {:induction false} OvernightShift(hours: string)
    requires hours == "08:00 - 02:00"
    ensures |Split(hours, ' ')| == 3
    ensures ClockValue(Split(hours, ' ')[0]) == Some(800) && ClockValue(Split(hours, ' ')[2]) == Some(200)
    ensures HoursWorked(800, 200) == 18.0
  {
    var start := ['0', '8'] + ":" + ['0', '0'];
    var end := ['0', '2'] + ":" + ['0', '0'];
    assert hours == start + [' '] + "-" + [' '] + end;
    ShiftPieces(start, "-", end);
    ClockReading('0', '8', '0', '0');
    ClockReading('0', '2', '0', '0');
  }

  lemma {:induction false} ShiftPieces(a: string, b: string, c: string)
    requires ' ' !in a && ' ' !in b && ' ' !in c
    ensures Split(a + [' '] + b + [' '] + c, ' ') == [a, b, c]
  {
    assert a + [' '] + b + [' '] + c == a + [' '] + (b + [' '] + c);
    SplitAround(a, b + [' '] + c, ' ');
    SplitAround(b, c, ' ');
    SplitWithoutSeparator(a, ' ');
    SplitWithoutSeparator(b, ' ');
    SplitWithoutSeparator(c, ' ');
  }

  /** An `HH:MM` text of four digits reads as the number `HHMM`. */
  lemma {:induction false} ClockReading(h1: char, h2: char, m1: char, m2: char)
    requires IsAsciiDigit(h1) && IsAsciiDigit(h2) && IsAsciiDigit(m1) && IsAsciiDigit(m2)
    ensures ClockValue([h1, h2] + ":" + [m1, m2])
      == Some(1000 * DigitValue(h1) + 100 * DigitValue(h2) + 10 * DigitValue(m1) + DigitValue(m2))
  {
    var digits := [h1, h2, m1, m2];
    assert RemoveChar([h1, h2] + ":" + [m1, m2], ':') == digits by {
      ColonRemoved([h1, h2], [m1, m2]);
    }
    assert Val(digits) == 1000 * DigitValue(h1) + 100 * DigitValue(h2) + 10 * DigitValue(m1) + DigitValue(m2) by {
      FourDigits(h1, h2, m1, m2);
    }
    ClockDigits([h1, h2] + ":" + [m1, m2], digits);
  }

  lemma {:induction false} ColonRemoved(hh: string, mm: string)
    requires ':' !in hh && ':' !in mm
    ensures RemoveChar(hh + ":" + mm, ':') == hh + mm
  {
    assert RemoveChar(":", ':') == [] by {
      assert ":"[1..] == [];
    }
    assert RemoveChar(hh + ":", ':') == hh by {
      RemoveCharAppend(hh, ":", ':');
      RemoveCharAbsent(hh, ':');
    }
    assert RemoveChar(hh + ":" + mm, ':') == hh + mm by {
      RemoveCharAppend(hh + ":", mm, ':');
      RemoveCharAbsent(mm, ':');
    }
  }

  lemma {:induction false} FourDigits(a: char, b: char, c: char, d: char)
    requires IsAsciiDigit(a) && IsAsciiDigit(b) && IsAsciiDigit(c) && IsAsciiDigit(d)
    ensures Val([a, b, c, d]) == 1000 * DigitValue(a) + 100 * DigitValue(b) + 10 * DigitValue(c) + DigitValue(d)
  {
    assert Val([a]) == DigitValue(a) by {
      assert [a][..0] == [];
    }
    assert Val([a, b]) == 10 * DigitValue(a) + DigitValue(b) by {
      assert [a, b][..1] == [a];
    }
    assert Val([a, b, c]) == 100 * DigitValue(a) + 10 * DigitValue(b) + DigitValue(c) by {
      assert [a, b, c][..2] == [a, b];
    }
    assert [a, b, c, d][..3] == [a, b, c];
  }

  /** A clock text whose colon-free form is all digits reads as those digits. */
  lemma {:induction false} ClockDigits(text: string, digits: string)
    requires RemoveChar(text, ':') == digits
    requires |digits| > 0 && AllDigits(digits)
    ensures ClockValue(text) == Some(Val(digits))
  {
    assert IsAsciiDigit(digits[0]) && IsAsciiDigit(digits[|digits| - 1]);
    StripNoOp(digits);
    assert Strip(digits) == digits;
    assert ParseInt(digits) == Some(Val(digits));
    assert ClockValue(text) == ParseInt(digits);
  }

  // ---------------------------------------------------------------- weekdays

  /** 1 when the abbreviation occurs in the working-days text, else 0. */
  function Flag(days: string, abbreviation: string): (r: int)
    ensures r == 1 <==> Contains(days, abbreviation)
    ensures r == 0 <==> !Contains(days, abbreviation)
  {
    if Contains(days, abbreviation) then 1 else 0
  }

  /** `days_worked`: the sum of the seven flags. */
  function DaysWorked(days: string): (r: int)
    ensures 0 <= r <= 7
    ensures r == 7 <==> (Contains(days, "L") && Contains(days, "Ma") && Contains(days, "Mi")
                         && Contains(days, "J") && Contains(days, "V") && Contains(days, "S") && Contains(days, "D"))
    ensures r == 0 <==> (!Contains(days, "L") && !Contains(days, "Ma") && !Contains(days, "Mi")
                         && !Contains(days, "J") && !Contains(days, "V") && !Contains(days, "S") && !Contains(days, "D"))
  {
    Flag(days, "L") + Flag(days, "Ma") + Flag(days, "Mi") + Flag(days, "J")
    + Flag(days, "V") + Flag(days, "S") + Flag(days, "D")
  }

  /** Monday to Friday is five days. */
  lemma {:induction false} WeekdaysOnly(days: string)
    requires days == "L Ma Mi J V"
    ensures DaysWorked(days) == 5
  {
    assert Contains(days, "L") by {
      assert days == "" + "L" + " Ma Mi J V";
      ContainsInfix("", "L", " Ma Mi J V");
    }
    assert Contains(days, "Ma") by {
      assert days == "L " + "Ma" + " Mi J V";
      ContainsInfix("L ", "Ma", " Mi J V");
    }
    assert Contains(days, "Mi") by {
      assert days == "L Ma " + "Mi" + " J V";
      ContainsInfix("L Ma ", "Mi", " J V");
    }
    assert Contains(days, "J") by {
      assert days == "L Ma Mi " + "J" + " V";
      ContainsInfix("L Ma Mi ", "J", " V");
    }
    assert Contains(days, "V") by {
      assert days == "L Ma Mi J " + "V" + "";
      ContainsInfix("L Ma Mi J ", "V", "");
    }
    assert !Contains(days, "S") by {
      NotIn(days, 'S');
    }
    assert !Contains(days, "D") by {
      NotIn(days, 'D');
    }
  }

  /** A one-letter abbreviation occurs only where its letter does. */
  lemma {:induction false} NotIn(s: string, c: char)
    requires c !in s
    ensures !Contains(s, [c])
    decreases |s|
  {
    if s != [] {
      assert s[0] != c;
      NotIn(s[1..], c);
    }
  }

  // ---------------------------------------------------------------- location

  /** `state, municipality = location.split(",")`, each stripped; anything but two pieces fails. */
  function StateAndMunicipality(location: string): (r: Option<(string, string)>)
    ensures r.Some? <==> |Split(location, ',')| == 2
    ensures r.Some? ==> r.value == (Strip(Split(location, ',')[0]), Strip(Split(location, ',')[1]))
  {
    var parts := Split(location, ',');
    if |parts| == 2 then Some((Strip(parts[0]), Strip(parts[1]))) else None
  }

  /** A location written as "state, municipality" reads back as its two stripped parts. */
  lemma {:induction false} LocationRoundTrip(state: string, municipality: string)
    requires ',' !in state && ',' !in municipality
    ensures StateAndMunicipality(state + ", " + municipality) == Some((Strip(state), Strip(" " + municipality)))
    ensures Strip(" " + municipality) == Strip(municipality)
  {
    assert state + ", " + municipality == state + [','] + (" " + municipality);
    SplitWithoutSeparator(state, ',');
    SplitWithoutSeparator(" " + municipality, ',');
    SplitAround(state, " " + municipality, ',');
    assert (" " + municipality)[1..] == municipality;
  }

  // ---------------------------------------------------------------- the record

  /** The sixteen values `parse_file` appends, in column order. */
  datatype Record = Record(
    date: string, offer: string, salary: int,
    startHour: int, endHour: int, hoursWorked: real,
    monday: int, tuesday: int, wednesday: int, thursday: int, friday: int, saturday: int, sunday: int,
    daysWorked: int, state: string, municipality: string)

  /**
   * `parse_file` of the extractor: the record of a page, or nothing when a
   * lookup finds no text, the salary or an hour does not convert, the
   * hours text has fewer than three pieces or the location does not split
   * into two.
   */
  function ExtractRecord(page: Page, date: string): (r: Option<Record>)
    ensures r.Some? <==>
      page.salary.Some? && CleanSalary(page.salary.value).Some?
      && page.name.Some?
      && page.hours.Some? && |Split(page.hours.value, ' ')| >= 3
      && ClockValue(Split(page.hours.value, ' ')[0]).Some?
      && ClockValue(Split(page.hours.value, ' ')[2]).Some?
      && page.workDays.Some?
      && page.location.Some? && |Split(page.location.value, ',')| == 2
    ensures r.Some? ==>
      r.value.date == date
      && r.value.offer == OfferName(page.name.value)
      && Some(r.value.salary) == CleanSalary(page.salary.value)
      && Some(r.value.startHour) == ClockValue(Split(page.hours.value, ' ')[0])
      && Some(r.value.endHour) == ClockValue(Split(page.hours.value, ' ')[2])
      && r.value.hoursWorked == HoursWorked(r.value.startHour, r.value.endHour)
      && r.value.monday == Flag(page.workDays.value, "L") && r.value.tuesday == Flag(page.workDays.value, "Ma")
      && r.value.wednesday == Flag(page.workDays.value, "Mi") && r.value.thursday == Flag(page.workDays.value, "J")
      && r.value.friday == Flag(page.workDays.value, "V") && r.value.saturday == Flag(page.workDays.value, "S")
      && r.value.sunday == Flag(page.workDays.value, "D")
      && r.value.daysWorked == DaysWorked(page.workDays.value)
      && Some((r.value.state, r.value.municipality)) == StateAndMunicipality(page.location.value)
  {
    if page.salary.None? || CleanSalary(page.salary.value).None? || page.name.None? || page.hours.None? then None
    else
      var hours := Split(page.hours.value, ' ');
      if |hours| < 3 || ClockValue(hours[0]).None? || ClockValue(hours[2]).None? then None
      else if page.workDays.None? || page.location.None? then None
      else match StateAndMunicipality(page.location.value)
        case None => None
        case Some(place) =>
          var start := ClockValue(hours[0]).value;
          var end := ClockValue(hours[2]).value;
          var days := page.workDays.value;
          Some(Record(date, OfferName(page.name.value), CleanSalary(page.salary.value).value,
            start, end, HoursWorked(start, end),
            Flag(days, "L"), Flag(days, "Ma"), Flag(days, "Mi"), Flag(days, "J"),
            Flag(days, "V"), Flag(days, "S"), Flag(days, "D"),
            DaysWorked(days), place.0, place.1))
  }

  /** `parse_file` step by step, in the order of its statements. */
  method ParseRecord(page: Page, date: string) returns (r: Option<Record>)
    ensures r == ExtractRecord(page, date)
  {
    if page.salary.None? {
      return None;
    }
    var salary := CleanSalary(page.salary.value);
    if salary.None? || page.name.None? {
      return None;
    }
    var offer := CleanName(page.name.value);
    if page.hours.None? {
      return None;
    }
    var shift := ReadShift(page.hours.value);
    if shift.None? {
      return None;
    }
    var (start, end, worked) := shift.value;
    if page.workDays.None? {
      return None;
    }
    var days := ReadWeekdays(page.workDays.value);
    if page.location.None? {
      return None;
    }
    var parts := Split(page.location.value, ',');
    if |parts| != 2 {
      return None;
    }
    r := Some(Record(date, offer, salary.value, start, end, worked,
      days[0], days[1], days[2], days[3], days[4], days[5], days[6],
      days[7], Strip(parts[0]), Strip(parts[1])));
  }

  /**
   * The hours of `parse_file`: the first and third space-separated pieces
   * as `HHMM` numbers and the hours between them, or nothing when a piece
   * is missing or does not convert.
   */
  method ReadShift(hoursText: string) returns (r: Option<(int, int, real)>)
    ensures var hours := Split(hoursText, ' ');
      r.Some? <==> |hours| >= 3 && ClockValue(hours[0]).Some? && ClockValue(hours[2]).Some?
    ensures r.Some? ==>
      var hours := Split(hoursText, ' ');
      r.value == (ClockValue(hours[0]).value, ClockValue(hours[2]).value,
                  HoursWorked(ClockValue(hours[0]).value, ClockValue(hours[2]).value))
  {
    var hours := Split(hoursText, ' ');
    if |hours| < 3 {
      return None;
    }
    var start := ClockValue(hours[0]);
    var end := ClockValue(hours[2]);
    if start.None? || end.None? {
      return None;
    }
    var worked: real;
    if start.value >= end.value {
      worked := ((end.value + 2400) - start.value) as real / 100.0;
    } else {
      worked := (end.value - start.value) as real / 100.0;
    }
    r := Some((start.value, end.value, worked));
  }

  /** The seven weekday flags of `parse_file`, Monday first, followed by their sum. */
  method ReadWeekdays(days: string) returns (r: seq<int>)
    ensures |r| == 8
    ensures r[0] == Flag(days, "L") && r[1] == Flag(days, "Ma") && r[2] == Flag(days, "Mi")
    ensures r[3] == Flag(days, "J") && r[4] == Flag(days, "V") && r[5] == Flag(days, "S")
    ensures r[6] == Flag(days, "D") && r[7] == DaysWorked(days)
  {
    var monday := if Contains(days, "L") then 1 else 0;
    var tuesday := if Contains(days, "Ma") then 1 else 0;
    var wednesday := if Contains(days, "Mi") then 1 else 0;
    var thursday := if Contains(days, "J") then 1 else 0;
    var friday := if Contains(days, "V") then 1 else 0;
    var saturday := if Contains(days, "S") then 1 else 0;
    var sunday := if Contains(days, "D") then 1 else 0;
    var worked := monday + tuesday + wednesday + thursday + friday + saturday + sunday;
    r := [monday, tuesday, wednesday, thursday, friday, saturday, sunday, worked];
  }

  // ---------------------------------------------------------------- the CSV rows

  /** One CSV cell: the writer prints text, integers and floats. */
  datatype Cell = Str(text: string) | Num(number: int) | Float(amount: real)

  /** The header row the main block puts first. */
  const HeaderRow: seq<Cell> := [
    Str("date"), Str("offer"), Str("salary"), Str("start_hour"), Str("end_hour"), Str("hours_worked"),
    Str("monday"), Str("tuesday"), Str("wednesday"), Str("thursday"), Str("friday"),
    Str("saturday"), Str("sunday"), Str("days_worked"), Str("state"), Str("municipality")]

  /** The cells of a record in header order. */
  function Fields(r: Record): (cells: seq<Cell>)
    ensures |cells| == |HeaderRow|
    ensures cells[0] == Str(r.date) && cells[1] == Str(r.offer) && cells[2] == Num(r.salary)
    ensures cells[3] == Num(r.startHour) && cells[4] == Num(r.endHour) && cells[5] == Float(r.hoursWorked)
    ensures cells[6] == Num(r.monday) && cells[7] == Num(r.tuesday) && cells[8] == Num(r.wednesday)
    ensures cells[9] == Num(r.thursday) && cells[10] == Num(r.friday) && cells[11] == Num(r.saturday)
    ensures cells[12] == Num(r.sunday) && cells[13] == Num(r.daysWorked)
    ensures cells[14] == Str(r.state) && cells[15] == Str(r.municipality)
  {
    [Str(r.date), Str(r.offer), Num(r.salary), Num(r.startHour), Num(r.endHour), Float(r.hoursWorked)]
    + [Num(r.monday), Num(r.tuesday), Num(r.wednesday), Num(r.thursday), Num(r.friday), Num(r.saturday), Num(r.sunday)]
    + [Num(r.daysWorked), Str(r.state), Str(r.municipality)]
  }

  /** The row one page adds: its fields, or none when the page is skipped. */
  function PageRows(page: Page, date: string): (rows: seq<seq<Cell>>)
    ensures |rows| <= 1
    ensures forall i :: 0 <= i < |rows| ==> |rows[i]| == |HeaderRow|
  {
    match ExtractRecord(page, date)
    case None => []
    case Some(r) => [Fields(r)]
  }

  /** A page gives a row exactly when its record can be extracted, and the row holds that record's fields. */
  lemma {:induction false} PageRowOfRecord(page: Page, date: string)
    ensures |PageRows(page, date)| == 1 <==> ExtractRecord(page, date).Some?
    ensures ExtractRecord(page, date).Some? ==> PageRows(page, date) == [Fields(ExtractRecord(page, date).value)]
    ensures ExtractRecord(page, date).None? ==> PageRows(page, date) == []
  {
  }

  /** The rows of the listed pages, in log order; `pageOf` gives the lookups of the page saved under a path. */
  function RecordRows(entries: seq<(string, string)>, pageOf: string -> Page): seq<seq<Cell>>
    decreases |entries|
  {
    if entries == [] then []
    else
      var e := entries[|entries| - 1];
      RecordRows(entries[..|entries| - 1], pageOf) + PageRows(pageOf(e.0), e.1)
  }

  /** At most one row per log line, every row as wide as the header. */
  lemma {:induction false} RecordRowsShape(entries: seq<(string, string)>, pageOf: string -> Page)
    ensures |RecordRows(entries, pageOf)| <= |entries|
    ensures forall i :: 0 <= i < |RecordRows(entries, pageOf)| ==> |RecordRows(entries, pageOf)[i]| == |HeaderRow|
    decreases |entries|
  {
    if entries != [] {
      var n := |entries| - 1;
      RecordRowsShape(entries[..n], pageOf);
      var earlier := RecordRows(entries[..n], pageOf);
      var more := PageRows(pageOf(entries[n].0), entries[n].1);
      forall i | 0 <= i < |earlier + more| ensures |(earlier + more)[i]| == |HeaderRow| {
        if i >= |earlier| {
          assert (earlier + more)[i] == more[i - |earlier|];
        }
      }
    }
  }

  lemma {:induction false} RecordRowsStep(entries: seq<(string, string)>, pageOf: string -> Page, i: nat)
    requires i < |entries|
    ensures RecordRows(entries[..i + 1], pageOf) == RecordRows(entries[..i], pageOf) + PageRows(pageOf(entries[i].0), entries[i].1)
  {
    assert entries[..i + 1][..i] == entries[..i];
  }

  /** What the extractor writes for a log, or the exception `load_files` raises on a malformed line. */
  function DataRows(content: string, pageOf: string -> Page): Result<seq<seq<Cell>>>
  {
    match AllEntries(Lines(content))
    case Failure(e) => Failure(e)
    case Success(entries) => Success([HeaderRow] + RecordRows(entries, pageOf))
  }

  /** The main block's `master_list`: the header row, then one row per page that could be read. */
  class Extraction {
    var rows: seq<seq<Cell>>

    /** The header row comes first and every row has the header's sixteen columns. */
    predicate Valid()
      reads this
    {
      WellShaped(rows)
    }

    constructor ()
      ensures rows == [HeaderRow] && Valid()
    {
      rows := [HeaderRow];
    }

    /** `parse_file(file_name, file_date)`: one more row, or none. */
    method ParseFile(page: Page, date: string)
      requires Valid()
      modifies this
      ensures rows == old(rows) + PageRows(page, date)
      ensures Valid()
    {
      var r := ParseRecord(page, date);
      if r.Some? {
        rows := rows + [Fields(r.value)];
      }
      WellShapedAppend(old(rows), PageRows(page, date));
    }

    /** The pages of the log one after the other. */
    method ParseFiles(entries: seq<(string, string)>, pageOf: string -> Page)
      requires Valid()
      modifies this
      ensures rows == old(rows) + RecordRows(entries, pageOf)
      ensures Valid()
    {
      for i := 0 to |entries|
        invariant rows == old(rows) + RecordRows(entries[..i], pageOf)
        invariant Valid()
      {
        RecordRowsStep(entries, pageOf, i);
        ParseFile(pageOf(entries[i].0), entries[i].1);
      }
      assert entries[..|entries|] == entries;
    }
  }

  /** The header row first, then rows as wide as the header. */
  predicate WellShaped(rows: seq<seq<Cell>>)
  {
    |rows| >= 1 && rows[0] == HeaderRow && forall i :: 0 <= i < |rows| ==> |rows[i]| == |HeaderRow|
  }

  /** Appending rows as wide as the header keeps a table well shaped. */
  lemma {:induction false} WellShapedAppend(rows: seq<seq<Cell>>, more: seq<seq<Cell>>)
    requires WellShaped(rows)
    requires forall i :: 0 <= i < |more| ==> |more[i]| == |HeaderRow|
    ensures WellShaped(rows + more)
  {
    forall i | 0 <= i < |rows + more| ensures |(rows + more)[i]| == |HeaderRow| {
      if i >= |rows| {
        assert (rows + more)[i] == more[i - |rows|];
      }
    }
  }

  /** The main block: load the log, then extract every listed page below the header row. */
  method Extract(content: string, pageOf: string -> Page) returns (r: Result<seq<seq<Cell>>>)
    ensures r == DataRows(content, pageOf)
  {
    var entries := LoadAllFiles(content);
    if entries.Failure? {
      return Failure(entries.error);
    }
    var extraction := new Extraction();
    extraction.ParseFiles(entries.value, pageOf);
    r := Success(extraction.rows);
  }

  /** The header row comes first and every row has sixteen fields. */
  lemma {:induction false} DataRowsShape(content: string, pageOf: string -> Page)
    ensures DataRows(content, pageOf).Success? ==>
      var rows := DataRows(content, pageOf).value;
      |rows| >= 1 && rows[0] == HeaderRow && (forall i :: 0 <= i < |rows| ==> |rows[i]| == 16)
  {
    if DataRows(content, pageOf).Success? {
      var entries := AllEntries(Lines(content)).value;
      RecordRowsShape(entries, pageOf);
      WellShapedAppend([HeaderRow], RecordRows(entries, pageOf));
    }
  }

  /** A log the scraper wrote, with plain paths and stamps, is read back whole: one row per readable page, in log order. */
  lemma {:induction false} ScrapedLogExtracted(entries: seq<(string, string)>, pageOf: string -> Page)
    requires PlainEntries(entries)
    ensures DataRows(Log(entries), pageOf) == Success([HeaderRow] + RecordRows(entries, pageOf))
  {
    LogReadBack(entries);
  }
}
