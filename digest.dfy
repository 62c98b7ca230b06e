/**
 * The digest post: the listings of the last three days, highest salary
 * first, those below a salary floor left out, rows appended while the
 * message is still within the size budget, then the footer.
 */
module Digest {
  import opened Text
  import opened Listings

  /** Listings paying less than this are not posted. */
  const MinSalaryThreshold: int := 8000

  /** A row is appended only while the message is at most this long, to stay under the 40000-character post limit. */
  const SizeBudget: nat := 39000

  /** The three fixed lines the message starts with: the age note, the update note and the table header. */
  const DigestHeader: string :=
    "Las ofertas aqui presentes no son mayores a 3 días.\n\n"
    + "Se actualiza cada 15 minutos. Ordenado por Salario Neto Mensual (MXN).\n\n"
    + TableHeader

  /** The footer; `stamp` is the current time as `%d-%m-%Y ^a ^las ^%H:%M:%S` formats it. */
  function DigestFooter(stamp: string): string
  {
    "\n*****\n^Última ^actualización: ^" + stamp + " ^|\n"
    + "        ^[Ayuda](https://redd.it/93au4i) ^|\n"
    + "        ^[Contacto](https://www.reddit.com/message/compose/?to=agent_phantom) ^|\n"
    + "        ^[GitHub](https://git.io/fNoyw)"
  }

  /** The listings at or above the salary floor, in their order. */
  function Qualifying(s: seq<Listing>): (r: seq<Listing>)
    ensures |r| <= |s|
    ensures forall i :: 0 <= i < |r| ==> r[i].salary >= MinSalaryThreshold
    decreases |s|
  {
    if s == [] then []
    else
      var earlier := Qualifying(s[..|s| - 1]);
      var l := s[|s| - 1];
      if l.salary >= MinSalaryThreshold then earlier + [l] else earlier
  }

  /** Exactly the listings at or above the floor qualify. */
  lemma {:induction false} QualifyingMembers(s: seq<Listing>)
    ensures forall l :: l in Qualifying(s) <==> l in s && l.salary >= MinSalaryThreshold
    decreases |s|
  {
    if s != [] {
      var init := s[..|s| - 1];
      QualifyingMembers(init);
      assert s == init + [s[|s| - 1]];
    }
  }

  /** The qualifying listings keep their order and repetitions: the filter works listing by listing. */
  lemma {:induction false} QualifyingAppend(a: seq<Listing>, b: seq<Listing>)
    ensures Qualifying(a + b) == Qualifying(a) + Qualifying(b)
    decreases |b|
  {
    if b == [] {
      assert a + b == a;
    } else {
      var init := b[..|b| - 1];
      QualifyingAppend(a, init);
      assert (a + b)[..|a + b| - 1] == a + init;
      assert (a + b)[|a + b| - 1] == b[|b| - 1];
    }
  }

  /** One listing qualifies exactly when it pays at least the floor. */
  lemma {:induction false} QualifyingSingle(l: Listing)
    ensures Qualifying([l]) == if l.salary >= MinSalaryThreshold then [l] else []
  {
    assert [l][..0] == [];
  }

  /** The rows `render` gives for the listings, in order. */
  function Rendered(render: Listing -> string, ls: seq<Listing>): string
    decreases |ls|
  {
    if ls == [] then "" else Rendered(render, ls[..|ls| - 1]) + render(ls[|ls| - 1])
  }

  /** With the table's own row format these are the table rows. */
  lemma {:induction false} RenderedRows(ls: seq<Listing>)
    ensures Rendered(Row, ls) == Rows(ls)
    decreases |ls|
  {
    if ls != [] {
      RenderedRows(ls[..|ls| - 1]);
    }
  }

  /**
   * The listings `prepare_post` turns into rows below `header`, each row as
   * `render` writes it: the qualifying ones, each while the message is
   * within the budget.
   */
  function Shown(header: string, render: Listing -> string, s: seq<Listing>): seq<Listing>
    decreases |s|
  {
    if s == [] then []
    else
      var earlier := Shown(header, render, s[..|s| - 1]);
      var l := s[|s| - 1];
      if l.salary >= MinSalaryThreshold && |header + Rendered(render, earlier)| <= SizeBudget
      then earlier + [l] else earlier
  }

  /** The posted message for listings already in salary order. */
  function Post(s: seq<Listing>, stamp: string): string
  {
    DigestHeader + Rows(Shown(DigestHeader, Row, s)) + DigestFooter(stamp)
  }

  /**
   * `prepare_post`: sort `master_list` in place, then append the row of each
   * listing at or above the floor while the message is within the budget,
   * then the footer.
   */
  method PreparePost(master: MasterList, stamp: string) returns (message: string)
    modifies master
    ensures master.items == SortBySalary(old(master.items))
    ensures message == Post(master.items, stamp)
  {
    master.SortBySalaryInPlace();
    message := AppendRows(DigestHeader, master.items);
    message := message + DigestFooter(stamp);
  }

  /** The loop of `prepare_post`: starting from `header`, a row per qualifying listing while the message is within the budget. */
  method AppendRows(header: string, items: seq<Listing>) returns (message: string)
    ensures message == header + Rows(Shown(header, Row, items))
  {
    message := header;
    for i := 0 to |items|
      invariant message == header + Rendered(Row, Shown(header, Row, items[..i]))
    {
      var l := items[i];
      ShownStep(header, Row, items, i);
      if l.salary >= MinSalaryThreshold {
        if |message| <= SizeBudget {
          message := message + Row(l);
        }
      }
    }
    assert items[..|items|] == items;
    RenderedRows(Shown(header, Row, items));
  }

  lemma {:induction false} ShownStep(header: string, render: Listing -> string, s: seq<Listing>, i: nat)
    requires i < |s|
    ensures var earlier := Shown(header, render, s[..i]);
      if s[i].salary >= MinSalaryThreshold && |header + Rendered(render, earlier)| <= SizeBudget
      then header + Rendered(render, Shown(header, render, s[..i + 1]))
        == header + Rendered(render, earlier) + render(s[i])
      else Shown(header, render, s[..i + 1]) == earlier
  {
    var prefix := s[..i + 1];
    assert prefix[..|prefix| - 1] == s[..i] && prefix[|prefix| - 1] == s[i];
    var earlier := Shown(header, render, s[..i]);
    if s[i].salary >= MinSalaryThreshold && |header + Rendered(render, earlier)| <= SizeBudget {
      assert Shown(header, render, prefix) == earlier + [s[i]];
      assert (earlier + [s[i]])[..|earlier|] == earlier;
      AppendAssoc(header, Rendered(render, earlier), render(s[i]));
    }
  }

  /**
   * The rows are a prefix of the qualifying listings, and a qualifying
   * listing is left out only once the message has outgrown the budget.
   */
  predicate PrefixUntilFull(header: string, render: Listing -> string, s: seq<Listing>)
  {
    var shown := Shown(header, render, s);
    var q := Qualifying(s);
    |shown| <= |q| && shown == q[..|shown|]
    && (|shown| < |q| ==> |header + Rendered(render, shown)| > SizeBudget)
  }

  /**
   * The rows are a prefix of the qualifying listings: a qualifying listing
   * is left out only once the message has grown past the budget, and then,
   * the message only growing, every later one is left out too.
   */
  lemma {:induction false} ShownPrefix(header: string, render: Listing -> string, s: seq<Listing>)
    ensures PrefixUntilFull(header, render, s)
    decreases |s|
  {
    if s != [] {
      var init := s[..|s| - 1];
      ShownPrefix(header, render, init);
      ShownPrefixStep(header, render, init, s[|s| - 1]);
      assert init + [s[|s| - 1]] == s;
    }
  }

  lemma {:induction false} ShownPrefixStep(header: string, render: Listing -> string, init: seq<Listing>, l: Listing)
    requires PrefixUntilFull(header, render, init)
    ensures PrefixUntilFull(header, render, init + [l])
  {
    var s := init + [l];
    assert s[..|s| - 1] == init && s[|s| - 1] == l;
    var q := Qualifying(init);
    var earlier := Shown(header, render, init);
    if l.salary >= MinSalaryThreshold && |header + Rendered(render, earlier)| <= SizeBudget {
      assert Shown(header, render, s) == earlier + [l];
      assert Qualifying(s) == q + [l];
      assert earlier == q;
      assert (q + [l])[..|q| + 1] == q + [l];
    } else if l.salary >= MinSalaryThreshold {
      assert Shown(header, render, s) == earlier;
      assert Qualifying(s) == q + [l];
      assert (q + [l])[..|earlier|] == q[..|earlier|];
    } else {
      assert Shown(header, render, s) == earlier;
      assert Qualifying(s) == q;
    }
  }

  /** Before the footer the message exceeds the budget by at most the length of its last row. */
  predicate OverByOneRow(header: string, render: Listing -> string, s: seq<Listing>)
  {
    var shown := Shown(header, render, s);
    |header + Rendered(render, shown)| <= SizeBudget + (if shown == [] then 0 else |render(shown[|shown| - 1])|)
  }

  lemma {:induction false} ShownWithinBudget(header: string, render: Listing -> string, s: seq<Listing>)
    requires |header| <= SizeBudget
    ensures OverByOneRow(header, render, s)
    decreases |s|
  {
    if s != [] {
      var init := s[..|s| - 1];
      ShownWithinBudget(header, render, init);
      BudgetStep(header, render, init, s[|s| - 1]);
      assert init + [s[|s| - 1]] == s;
    }
  }

  lemma {:induction false} BudgetStep(header: string, render: Listing -> string, init: seq<Listing>, l: Listing)
    requires OverByOneRow(header, render, init)
    ensures OverByOneRow(header, render, init + [l])
  {
    var s := init + [l];
    assert s[..|s| - 1] == init && s[|s| - 1] == l;
    var earlier := Shown(header, render, init);
    if l.salary >= MinSalaryThreshold && |header + Rendered(render, earlier)| <= SizeBudget {
      assert Shown(header, render, s) == earlier + [l];
      assert (earlier + [l])[..|earlier|] == earlier;
    } else {
      assert Shown(header, render, s) == earlier;
    }
  }

  /** Qualifying listings of a sorted list are sorted. */
  lemma {:induction false} QualifyingSorted(s: seq<Listing>)
    requires NonIncreasing(s)
    ensures NonIncreasing(Qualifying(s))
    decreases |s|
  {
    if s != [] {
      var init := s[..|s| - 1];
      var l := s[|s| - 1];
      assert NonIncreasing(init);
      QualifyingSorted(init);
      var q := Qualifying(init);
      QualifyingMembers(init);
      forall x | x in q ensures x.salary >= l.salary {
        var m :| 0 <= m < |init| && init[m] == x;
      }
    }
  }

  /**
   * What `prepare_post` posts: the three header lines, the rows of the first
   * `n` listings at or above the floor in descending salary order, and the
   * footer, where fewer than all of them are shown only when the message
   * had outgrown the budget.
   */
  lemma {:induction false} DigestContents(items: seq<Listing>, stamp: string) returns (n: nat)
    ensures n <= |Qualifying(SortBySalary(items))|
    ensures Post(SortBySalary(items), stamp)
      == DigestHeader + Rows(Qualifying(SortBySalary(items))[..n]) + DigestFooter(stamp)
    ensures NonIncreasing(Qualifying(SortBySalary(items))[..n])
    ensures n < |Qualifying(SortBySalary(items))| ==>
      |DigestHeader + Rows(Qualifying(SortBySalary(items))[..n])| > SizeBudget
  {
    var sorted := SortBySalary(items);
    var header := DigestHeader;
    ShownPrefix(header, Row, sorted);
    assert PrefixUntilFull(header, Row, sorted);
    var shown := Shown(header, Row, sorted);
    RenderedRows(shown);
    SortedBySalary(items);
    QualifyingSorted(sorted);
    n := |shown|;
  }

  /** Before the footer the posted message is at most the budget plus the length of its last row. */
  lemma {:induction false} DigestWithinBudget(items: seq<Listing>)
    ensures var shown := Shown(DigestHeader, Row, SortBySalary(items));
      |DigestHeader + Rows(shown)| <= SizeBudget + (if shown == [] then 0 else |Row(shown[|shown| - 1])|)
  {
    var header := DigestHeader;
    var sorted := SortBySalary(items);
    assert |header| <= SizeBudget;
    ShownWithinBudget(header, Row, sorted);
    assert OverByOneRow(header, Row, sorted);
    RenderedRows(Shown(header, Row, sorted));
  }
}
