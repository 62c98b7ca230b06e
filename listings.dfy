/**
 * The listing tuple both bots build from a saved page, the way they show it
 * in a Markdown table row, and the salary sort they apply to `master_list`.
 */
module Listings {
  import opened Wrappers
  import opened Text
  import opened Numbers

  /**
   * The texts the XPath lookups of `parse_file` find on a page; `None` where a
   * lookup finds no element (the `[0]` index raises) or the element has no
   * text. The bots keep a name or location element without text as `None`
   * in the tuple; this model drops that page like one missing the element.
   */
  datatype Page = Page(
    salary: Option<string>,
    name: Option<string>,
    location: Option<string>,
    ogUrl: Option<string>,
    hours: Option<string>,
    workDays: Option<string>)

  /** The `(salary, name, location, url)` tuple of `master_list`. */
  datatype Listing = Listing(salary: int, name: string, location: string, url: string)

  /** `url.replace("x//", "x/")`: the doubled slash after the site's `.mx` is collapsed. */
  function CleanUrl(url: string): string
  {
    ReplaceAll(url, "x//", "x/")
  }

  /**
   * The bots' `parse_file` after reading the page: the cleaned salary, the
   * name, the location and the cleaned URL, or nothing when any lookup or
   * the salary conversion raises.
   */
  function ExtractListing(p: Page): (r: Option<Listing>)
    ensures r.Some? <==> p.salary.Some? && CleanSalary(p.salary.value).Some?
                         && p.name.Some? && p.location.Some? && p.ogUrl.Some?
    ensures r.Some? ==> r.value.name == p.name.value && r.value.location == p.location.value
    ensures r.Some? ==> Some(r.value.salary) == CleanSalary(p.salary.value)
    ensures r.Some? ==> r.value.url == CleanUrl(p.ogUrl.value) && |r.value.url| <= |p.ogUrl.value|
  {
    if p.salary.None? then None
    else match CleanSalary(p.salary.value)
      case None => None
      case Some(salary) =>
        if p.name.None? || p.location.None? || p.ogUrl.None? then None
        else Some(Listing(salary, p.name.value, p.location.value, CleanUrl(p.ogUrl.value)))
  }

  /** A page that shows a salary as a table row does is read back with that salary. */
  lemma {:induction false} ShownSalaryExtracted(p: Page, n: int)
    requires p.salary == Some("$" + Thousands(n))
    requires p.name.Some? && p.location.Some? && p.ogUrl.Some?
    ensures ExtractListing(p).Some? && ExtractListing(p).value.salary == n
  {
    SalaryRoundTrip(n);
  }

  /** A URL without the doubled slash is kept as it is. */
  lemma {:induction false} CleanUrlKeeps(url: string)
    requires !Contains(url, "x//")
    ensures CleanUrl(url) == url
  {
  }

  // ---------------------------------------------------------------- a table row

  /**
   * The offer: the text before the first '-', title-cased, then stripped.
   * Up to case it is that text stripped; its case is title case.
   */
  function Offer(name: string): (r: string)
    ensures '-' !in r
    ensures r == [] || (!IsSpace(r[0]) && !IsSpace(r[|r| - 1]))
    ensures TitleCased(r)
    ensures Lower(r) == Strip(Lower(First(name, '-')))
  {
    var first := First(name, '-');
    TitleKeepsChar(first, '-');
    StripTrims(Title(first));
    StripKeepsOut(Title(first), '-');
    StripTitled(Title(first));
    StripLower(Title(first));
    Strip(Title(first))
  }

  /**
   * The company: the text after the last '-', stripped; "S/N" when it
   * mentions "sin nombre" in any case, otherwise that text title-cased.
   */
  function Company(name: string): (r: string)
    ensures '-' !in r
    ensures Contains(Lower(Strip(Last(name, '-'))), "sin nombre") ==> r == "S/N"
    ensures !Contains(Lower(Strip(Last(name, '-'))), "sin nombre") ==>
      TitleCased(r) && Lower(r) == Lower(Strip(Last(name, '-')))
  {
    var company := Strip(Last(name, '-'));
    StripKeepsOut(Last(name, '-'), '-');
    if Contains(Lower(company), "sin nombre") then "S/N"
    else
      TitleKeepsChar(company, '-');
      Title(company)
  }

  /** `"[{}]({}) | {} | ${:,} | {}\n".format(offer, url, company, salary, location)`. */
  function RenderRow(offer: string, url: string, company: string, salary: int, location: string): string
  {
    "[" + offer + "](" + url + ") | " + company + " | $" + Thousands(salary) + " | " + location + "\n"
  }

  /** The table row of a listing. */
  function Row(l: Listing): string
  {
    RenderRow(Offer(l.name), l.url, Company(l.name), l.salary, l.location)
  }

  /** The table header both bots write above the rows. */
  const TableHeader: string := "Oferta | Empresa | Salario Neto Mensual | Ubicación\n--|--|--|--\n"

  /** The rows of the listings, in order. */
  function Rows(ls: seq<Listing>): string
    decreases |ls|
  {
    if ls == [] then "" else Rows(ls[..|ls| - 1]) + Row(ls[|ls| - 1])
  }

  lemma {:induction false} RowsAppend(ls: seq<Listing>, l: Listing)
    ensures Rows(ls + [l]) == Rows(ls) + Row(l)
  {
    assert (ls + [l])[..|ls|] == ls;
  }

  /** A row shows the listing's salary in a form the salary cleaning reads back exactly. */
  lemma {:induction false} RowShowsSalary(l: Listing)
    ensures Contains(Row(l), "$" + Thousands(l.salary))
    ensures CleanSalary("$" + Thousands(l.salary)) == Some(l.salary)
  {
    RenderedSalary(Offer(l.name), l.url, Company(l.name), l.salary, l.location);
    SalaryRoundTrip(l.salary);
  }

  lemma {:induction false} RenderedSalary(offer: string, url: string, company: string, salary: int, location: string)
    ensures Contains(RenderRow(offer, url, company, salary, location), "$" + Thousands(salary))
  {
    var before := "[" + offer + "](" + url + ") | " + company + " | ";
    var after := " | " + location + "\n";
    assert RenderRow(offer, url, company, salary, location) == before + ("$" + Thousands(salary)) + after;
    ContainsInfix(before, "$" + Thousands(salary), after);
  }

  // ---------------------------------------------------------------- sorting by salary

  /** Salaries never increase along the list. */
  predicate NonIncreasing(s: seq<Listing>)
  {
    forall i, j :: 0 <= i < j < |s| ==> s[i].salary >= s[j].salary
  }

  /** Puts `x` before the first listing that does not pay more, so that it precedes equal salaries. */
  function Insert(x: Listing, s: seq<Listing>): (r: seq<Listing>)
    ensures |r| == |s| + 1
    ensures multiset(r) == multiset(s) + multiset{x}
    decreases |s|
  {
    if s == [] || s[0].salary <= x.salary then [x] + s
    else
      assert s == [s[0]] + s[1..];
      [s[0]] + Insert(x, s[1..])
  }

  /**
   * `master_list.sort(reverse=True, key=lambda tup: tup[0])`: highest salary
   * first; listings with equal salaries keep their order (the sort is stable).
   */
  function SortBySalary(s: seq<Listing>): (r: seq<Listing>)
    ensures |r| == |s|
    decreases |s|
  {
    if s == [] then [] else Insert(s[0], SortBySalary(s[1..]))
  }

  lemma {:induction false} InsertSorted(x: Listing, s: seq<Listing>)
    requires NonIncreasing(s)
    ensures NonIncreasing(Insert(x, s))
    decreases |s|
  {
    if s != [] && s[0].salary > x.salary {
      InsertSorted(x, s[1..]);
      var r := Insert(x, s[1..]);
      forall k | 0 <= k < |r| ensures r[k].salary <= s[0].salary {
        assert r[k] in multiset(r);
        assert r[k] in multiset(s[1..]) + multiset{x};
        if r[k] in multiset(s[1..]) {
          var m :| 0 <= m < |s[1..]| && s[1..][m] == r[k];
          assert s[m + 1] == r[k];
        }
      }
    }
  }

  /** The sorted list has salaries in non-increasing order. */
  lemma {:induction false} SortedBySalary(s: seq<Listing>)
    ensures NonIncreasing(SortBySalary(s))
    decreases |s|
  {
    if s != [] {
      SortedBySalary(s[1..]);
      InsertSorted(s[0], SortBySalary(s[1..]));
    }
  }

  /** Sorting neither loses nor adds listings. */
  lemma {:induction false} SortPermutes(s: seq<Listing>)
    ensures multiset(SortBySalary(s)) == multiset(s)
    decreases |s|
  {
    if s != [] {
      SortPermutes(s[1..]);
      assert s == [s[0]] + s[1..];
    }
  }

  /** The listings paying exactly `v`, in their order. */
  function WithSalary(s: seq<Listing>, v: int): seq<Listing>
    decreases |s|
  {
    if s == [] then []
    else (if s[0].salary == v then [s[0]] else []) + WithSalary(s[1..], v)
  }

  lemma {:induction false} WithSalaryInsert(x: Listing, s: seq<Listing>, v: int)
    ensures WithSalary(Insert(x, s), v) == (if x.salary == v then [x] else []) + WithSalary(s, v)
    decreases |s|
  {
    if s == [] || s[0].salary <= x.salary {
      assert ([x] + s)[1..] == s;
    } else {
      WithSalaryInsert(x, s[1..], v);
      assert ([s[0]] + Insert(x, s[1..]))[1..] == Insert(x, s[1..]);
    }
  }

  /** The sort is stable: listings with the same salary keep their relative order. */
  lemma {:induction false} SortStable(s: seq<Listing>, v: int)
    ensures WithSalary(SortBySalary(s), v) == WithSalary(s, v)
    decreases |s|
  {
    if s != [] {
      SortStable(s[1..], v);
      WithSalaryInsert(s[0], SortBySalary(s[1..]), v);
    }
  }

  // ---------------------------------------------------------------- master_list

  /** The listings read from the given pages, in page order; pages that fail are skipped. */
  function Extracted(pages: seq<Page>): seq<Listing>
    decreases |pages|
  {
    if pages == [] then []
    else
      var earlier := Extracted(pages[..|pages| - 1]);
      match ExtractListing(pages[|pages| - 1])
      case None => earlier
      case Some(l) => earlier + [l]
  }

  /** The bots' global `master_list`, filled by `parse_file` and sorted before use. */
  class MasterList {
    var items: seq<Listing>

    constructor ()
      ensures items == []
    {
      items := [];
    }

    /** `parse_file`: append the page's listing, or nothing when the page cannot be read. */
    method ParseFile(page: Page)
      modifies this
      ensures items == old(items) + (match ExtractListing(page) case None => [] case Some(l) => [l])
    {
      var l := ExtractListing(page);
      if l.Some? {
        items := items + [l.value];
      }
    }

    /** The main block: parse every page listed by `load_files`, one after the other. */
    method ParseFiles(pages: seq<Page>)
      modifies this
      ensures items == old(items) + Extracted(pages)
    {
      for i := 0 to |pages|
        invariant items == old(items) + Extracted(pages[..i])
      {
        assert pages[..i + 1][..i] == pages[..i];
        ParseFile(pages[i]);
      }
      assert pages[..|pages|] == pages;
    }

    /** The in-place sort by salary, highest first. */
    method SortBySalaryInPlace()
      modifies this
      ensures items == SortBySalary(old(items))
      ensures NonIncreasing(items) && multiset(items) == multiset(old(items))
    {
      SortedBySalary(items);
      SortPermutes(items);
      items := SortBySalary(items);
    }
  }
}
