/**
 * The scraper: one folder per Mexican state, named by the state's number;
 * for each state the detail links of its listings page are followed, and a
 * listing page is saved, with one line appended to the log, only when its
 * file is not in the state's folder yet.
 *
 * The network is replaced by its inputs: the links found on a state's
 * listings page, the text fetched for a URL, and the time stamp read when a
 * page is saved. Folders are keyed by the state number: `./states/1` and
 * `./states/1/` name the same directory.
 */
module Scraper {
  import opened Wrappers
  import opened Text
  import opened Numbers
  import opened ProcessedLog

  const BaseUrl: string := "https://www.empleo.gob.mx"
  const RootFolder: string := "./states/"

  /** The part of every state slug between the state number and the state's name. */
  const SlugMiddle: string := "-busqueda-de-ofertas-de-empleo-en-"

  /** The states' names as the slugs spell them, in the order of their numbers 1 to 32. */
  const StateNames: seq<string> := [
    "aguascalientes", "baja-california", "baja-california-sur", "campeche", "coahuila",
    "colima", "chiapas", "chihuahua", "ciudad-de-mexico", "durango", "guanajuato",
    "guerrero", "hidalgo", "jalisco", "mexico", "michoacan", "morelos", "nayarit",
    "nuevo-leon", "oaxaca", "puebla", "queretaro", "quintana-roo", "san-luis-potosi",
    "sinaloa", "sonora", "tabasco", "tamaulipas", "tlaxcala", "veracruz", "yucatan",
    "zacatecas"]

  /** `STATES_URLS`: the slug of state `k + 1` is its number, the fixed middle and its name. */
  function StateSlugs(): (slugs: seq<string>)
    ensures |slugs| == 32
    ensures forall k :: 0 <= k < 32 ==> slugs[k] == Digits(k + 1) + SlugMiddle + StateNames[k]
  {
    seq(32, k requires 0 <= k < 32 => Digits(k + 1) + SlugMiddle + StateNames[k])
  }

  /** `state.split("-")[0]`: the folder of a state. */
  function FolderName(slug: string): string
  {
    First(slug, '-')
  }

  /** `BASE_URL + "/" + state_url`: the state's listings page. */
  function StateListingsUrl(slug: string): string
  {
    BaseUrl + "/" + slug
  }

  /** `ROOT_FOLDER + state_url.split("-")[0] + "/"`: where the state's pages are saved. */
  function StateFolder(slug: string): string
  {
    RootFolder + FolderName(slug) + "/"
  }

  /** Only these anchors are job listings. */
  predicate IsDetailLink(href: string)
  {
    Contains(href, "detalleoferta")
  }

  /** `href.split("=")[-1]`: the listing id, what follows the last '=' of the link (all of it without one). */
  function ListingId(href: string): (id: string)
    ensures '=' !in id
    ensures |id| <= |href| && href[|href| - |id|..] == id
    ensures |id| < |href| ==> href[|href| - |id| - 1] == '='
    ensures '=' !in href ==> id == href
  {
    Last(href, '=')
  }

  /** The file a listing is saved to. */
  function FileName(href: string): string
  {
    ListingId(href) + ".html"
  }

  /** `BASE_URL + href`: the listing page. */
  function ListingUrl(href: string): string
  {
    BaseUrl + href
  }

  /** The folder of state `k + 1` is named by its number. */
  lemma {:induction false} FolderOfState(k: nat)
    requires k < 32
    ensures FolderName(StateSlugs()[k]) == Digits(k + 1)
  {
    var n := Digits(k + 1);
    var rest := SlugMiddle[1..] + StateNames[k];
    assert StateSlugs()[k] == n + ['-'] + rest;
    SplitAround(n, rest, '-');
    NoDashInDigits(n);
    SplitWithoutSeparator(n, '-');
  }

  lemma {:induction false} NoDashInDigits(s: string)
    requires AllDigits(s)
    ensures '-' !in s
  {
    forall i | 0 <= i < |s| ensures s[i] != '-' {
      assert IsAsciiDigit(s[i]);
    }
  }

  /** The 32 state folders are "1" to "32", all different. */
  lemma {:induction false} FoldersDistinct(j: nat, k: nat)
    requires j < 32 && k < 32 && j != k
    ensures FolderName(StateSlugs()[j]) != FolderName(StateSlugs()[k])
  {
    FolderOfState(j);
    FolderOfState(k);
    ValDigits(j + 1);
    ValDigits(k + 1);
  }

  // ---------------------------------------------------------------- one state

  /** A listing page saved: its file name, the link it came from and the time stamp logged for it. */
  datatype Save = Save(name: string, href: string, stamp: string)

  /** The file names the saves write. */
  function Names(saves: seq<Save>): set<string>
  {
    set s | s in saves :: s.name
  }

  /**
   * The pages `download_state` saves, in link order, when the folder already
   * holds `present`: one per detail link whose file is neither present nor
   * saved from an earlier link. `clock(i)` is the time read for link `i`.
   */
  function Saves(present: set<string>, hrefs: seq<string>, clock: nat -> string): seq<Save>
    decreases |hrefs|
  {
    if hrefs == [] then []
    else
      var i := |hrefs| - 1;
      var earlier := Saves(present, hrefs[..i], clock);
      var href := hrefs[i];
      if IsDetailLink(href) && FileName(href) !in present + Names(earlier)
      then earlier + [Save(FileName(href), href, clock(i))]
      else earlier
  }

  /** The log entries of the saves: the page's path in the state's folder and its time stamp. */
  function SaveEntries(folder: string, saves: seq<Save>): (entries: seq<(string, string)>)
    ensures |entries| == |saves|
    ensures forall i :: 0 <= i < |saves| ==> entries[i] == (folder + saves[i].name, saves[i].stamp)
  {
    seq(|saves|, i requires 0 <= i < |saves| => (folder + saves[i].name, saves[i].stamp))
  }

  /** No two saves write the same file. */
  predicate DistinctNames(saves: seq<Save>)
  {
    forall i, j :: 0 <= i < j < |saves| ==> saves[i].name != saves[j].name
  }

  /** None of the saves writes a file the folder already held. */
  predicate NewNames(present: set<string>, saves: seq<Save>)
  {
    forall i :: 0 <= i < |saves| ==> saves[i].name !in present
  }

  /**
   * Each file is written at most once: the saved names are new to the folder
   * and pairwise different, even when the page links a listing twice.
   */
  lemma {:induction false} SavesFresh(present: set<string>, hrefs: seq<string>, clock: nat -> string)
    ensures NewNames(present, Saves(present, hrefs, clock))
    ensures DistinctNames(Saves(present, hrefs, clock))
    decreases |hrefs|
  {
    if hrefs != [] {
      var i := |hrefs| - 1;
      SavesFresh(present, hrefs[..i], clock);
      var earlier := Saves(present, hrefs[..i], clock);
      var href := hrefs[i];
      if IsDetailLink(href) && FileName(href) !in present + Names(earlier) {
        var saves := earlier + [Save(FileName(href), href, clock(i))];
        assert Saves(present, hrefs, clock) == saves;
        forall j, k | 0 <= j < k < |saves| ensures saves[j].name != saves[k].name {
          if k == |earlier| {
            assert earlier[j] in earlier;
          }
        }
      }
    }
  }

  /** One more link: it is saved exactly when it is a detail link whose file is not there yet. */
  lemma {:induction false} SavesStep(present: set<string>, hrefs: seq<string>, clock: nat -> string, i: nat)
    requires i < |hrefs|
    ensures Saves(present, hrefs[..i + 1], clock)
      == if IsDetailLink(hrefs[i]) && FileName(hrefs[i]) !in present + Names(Saves(present, hrefs[..i], clock))
         then Saves(present, hrefs[..i], clock) + [Save(FileName(hrefs[i]), hrefs[i], clock(i))]
         else Saves(present, hrefs[..i], clock)
  {
    assert hrefs[..i + 1][..i] == hrefs[..i];
  }

  /** Every save comes from a detail link of the page and is named by the link's id. */
  lemma {:induction false} SavesFromDetailLinks(present: set<string>, hrefs: seq<string>, clock: nat -> string)
    ensures var saves := Saves(present, hrefs, clock);
      forall s :: s in saves ==> s.href in hrefs && IsDetailLink(s.href) && s.name == FileName(s.href)
    decreases |hrefs|
  {
    if hrefs != [] {
      var i := |hrefs| - 1;
      SavesFromDetailLinks(present, hrefs[..i], clock);
    }
  }

  /** After the state is done, the file of every detail link is in the folder. */
  lemma {:induction false} SavesComplete(present: set<string>, hrefs: seq<string>, clock: nat -> string)
    ensures forall h :: h in hrefs && IsDetailLink(h) ==> FileName(h) in present + Names(Saves(present, hrefs, clock))
    decreases |hrefs|
  {
    if hrefs != [] {
      var i := |hrefs| - 1;
      SavesComplete(present, hrefs[..i], clock);
      var earlier := Saves(present, hrefs[..i], clock);
      assert Names(earlier) <= Names(Saves(present, hrefs, clock));
      assert forall h :: h in hrefs ==> h in hrefs[..i] || h == hrefs[i];
    }
  }

  /** Appending lines to a log written entry by entry gives the log of all the entries. */
  lemma {:induction false} LogAppend(entries: seq<(string, string)>, more: seq<(string, string)>)
    ensures Log(entries + more) == Log(entries) + Log(more)
    decreases |more|
  {
    if more == [] {
      assert entries + more == entries;
    } else {
      var init := more[..|more| - 1];
      var last := more[|more| - 1];
      LogAppend(entries, init);
      assert (entries + more)[..|entries + more| - 1] == entries + init;
      AppendAssoc(Log(entries), Log(init), LogLine(last.0, last.1));
    }
  }

  /**
   * The saved pages are read back by the CSV extractor: when the log was
   * written entry by entry and every path and time stamp is plain, after a
   * state the log reads back as the old entries followed by the new ones.
   */
  lemma {:induction false} LoggedSavesReadBack(entries: seq<(string, string)>, folder: string, saves: seq<Save>)
    requires PlainEntries(entries) && PlainEntries(SaveEntries(folder, saves))
    ensures AllEntries(Lines(Log(entries) + Log(SaveEntries(folder, saves))))
      == Success(entries + SaveEntries(folder, saves))
  {
    var more := SaveEntries(folder, saves);
    LogAppend(entries, more);
    assert PlainEntries(entries + more) by {
      forall i | 0 <= i < |entries + more|
        ensures PlainField((entries + more)[i].0) && PlainField((entries + more)[i].1)
      {
        if i >= |entries| {
          assert (entries + more)[i] == more[i - |entries|];
        }
      }
    }
    LogReadBack(entries + more);
  }

  // ---------------------------------------------------------------- the saved pages

  /** The paths of the saved pages in the state's folder. */
  function Paths(folder: string, saves: seq<Save>): set<string>
  {
    set i | 0 <= i < |saves| :: folder + saves[i].name
  }

  /** The pages after the saves are written one after the other, later writes winning. */
  function Stored(pages: map<string, string>, folder: string, saves: seq<Save>, fetch: string -> string): map<string, string>
    decreases |saves|
  {
    if saves == [] then pages
    else
      var last := saves[|saves| - 1];
      Stored(pages, folder, saves[..|saves| - 1], fetch)[folder + last.name := fetch(ListingUrl(last.href))]
  }

  lemma {:induction false} StoredStep(pages: map<string, string>, folder: string, saves: seq<Save>, save: Save, fetch: string -> string)
    ensures Stored(pages, folder, saves + [save], fetch)
      == Stored(pages, folder, saves, fetch)[folder + save.name := fetch(ListingUrl(save.href))]
  {
    assert (saves + [save])[..|saves|] == saves;
  }

  lemma {:induction false} PrefixInjective(p: string, a: string, b: string)
    requires a != b
    ensures p + a != p + b
  {
    assert (p + a)[|p|..] == a;
    assert (p + b)[|p|..] == b;
  }

  /**
   * When no file is written twice, every saved page holds the text fetched
   * for its link, the folder gains exactly the saved paths, and every other
   * page is left as it was.
   */
  lemma {:induction false} StoredPages(pages: map<string, string>, folder: string, saves: seq<Save>, fetch: string -> string)
    requires DistinctNames(saves)
    ensures forall i :: 0 <= i < |saves| ==>
      folder + saves[i].name in Stored(pages, folder, saves, fetch)
      && Stored(pages, folder, saves, fetch)[folder + saves[i].name] == fetch(ListingUrl(saves[i].href))
    ensures forall p :: p in Stored(pages, folder, saves, fetch) <==> p in pages || p in Paths(folder, saves)
    ensures forall p :: p in pages && p !in Paths(folder, saves) ==> Stored(pages, folder, saves, fetch)[p] == pages[p]
    decreases |saves|
  {
    if saves != [] {
      var n := |saves| - 1;
      var init := saves[..n];
      var last := saves[n];
      assert saves == init + [last];
      StoredPages(pages, folder, init, fetch);
      StoredStep(pages, folder, init, last, fetch);
      forall i | 0 <= i < n ensures folder + init[i].name != folder + last.name {
        PrefixInjective(folder, init[i].name, last.name);
      }
      PathsStep(folder, init, last);
    }
  }

  lemma {:induction false} PathsStep(folder: string, saves: seq<Save>, save: Save)
    ensures Paths(folder, saves + [save]) == Paths(folder, saves) + {folder + save.name}
  {
    var all := saves + [save];
    forall p ensures p in Paths(folder, all) <==> p in Paths(folder, saves) + {folder + save.name} {
      if p in Paths(folder, all) {
        var i :| 0 <= i < |all| && p == folder + all[i].name;
        if i < |saves| {
          assert p == folder + saves[i].name;
        }
      }
      if p in Paths(folder, saves) {
        var i :| 0 <= i < |saves| && p == folder + saves[i].name;
        assert p == folder + all[i].name;
      }
      if p == folder + save.name {
        assert p == folder + all[|saves|].name;
      }
    }
  }

  // ---------------------------------------------------------------- the scraper's state

  /** The set of the slugs' folders. */
  function FolderNames(slugs: seq<string>): set<string>
  {
    set j | 0 <= j < |slugs| :: FolderName(slugs[j])
  }

  lemma {:induction false} FolderNamesStep(slugs: seq<string>, k: nat)
    requires k < |slugs|
    ensures FolderNames(slugs[..k + 1]) == FolderNames(slugs[..k]) + {FolderName(slugs[k])}
  {
    forall f ensures f in FolderNames(slugs[..k + 1]) <==> f in FolderNames(slugs[..k]) + {FolderName(slugs[k])} {
      if f in FolderNames(slugs[..k + 1]) {
        var j :| 0 <= j < k + 1 && f == FolderName(slugs[..k + 1][j]);
        if j < k {
          assert f == FolderName(slugs[..k][j]);
        }
      }
      if f in FolderNames(slugs[..k]) {
        var j :| 0 <= j < k && f == FolderName(slugs[..k][j]);
        assert f == FolderName(slugs[..k + 1][j]);
      }
      if f == FolderName(slugs[k]) {
        assert f == FolderName(slugs[..k + 1][k]);
      }
    }
  }

  /** Every folder of `before` is still there, with at least the files it had. */
  predicate Grown(before: map<string, set<string>>, after: map<string, set<string>>)
  {
    forall f :: f in before ==> f in after && before[f] <= after[f]
  }

  /** The state's folder holds the file of every detail link of its listings page. */
  predicate Complete(folders: map<string, set<string>>, slug: string, hrefs: seq<string>)
  {
    FolderName(slug) in folders
    && forall h :: h in hrefs && IsDetailLink(h) ==> FileName(h) in folders[FolderName(slug)]
  }

  lemma {:induction false} CompleteGrows(before: map<string, set<string>>, after: map<string, set<string>>, slug: string, hrefs: seq<string>)
    requires Complete(before, slug, hrefs) && Grown(before, after)
    ensures Complete(after, slug, hrefs)
  {
    assert before[FolderName(slug)] <= after[FolderName(slug)];
  }

  /**
   * Since `before` and `pagesBefore`: no saved page is lost, and every file a
   * folder lists that it did not list before is a saved page under its path.
   */
  predicate SavedSince(before: map<string, set<string>>, pagesBefore: map<string, string>,
                       folders: map<string, set<string>>, pages: map<string, string>)
  {
    (forall p :: p in pagesBefore ==> p in pages)
    && forall f, n :: f in folders && n in folders[f] && !(f in before && n in before[f]) ==>
      RootFolder + f + "/" + n in pages
  }

  /** Downloading one state keeps `SavedSince`: each new file of its folder is a stored page. */
  lemma {:induction false} StateSaved(before: map<string, set<string>>, pagesBefore: map<string, string>,
                                      folders: map<string, set<string>>, pages: map<string, string>,
                                      slug: string, hrefs: seq<string>, fetch: string -> string, clock: nat -> string)
    requires SavedSince(before, pagesBefore, folders, pages)
    requires FolderName(slug) in folders
    ensures var f := FolderName(slug);
      var saves := Saves(folders[f], hrefs, clock);
      SavedSince(before, pagesBefore, folders[f := folders[f] + Names(saves)], Stored(pages, StateFolder(slug), saves, fetch))
  {
    var f := FolderName(slug);
    var saves := Saves(folders[f], hrefs, clock);
    var after := folders[f := folders[f] + Names(saves)];
    var stored := Stored(pages, StateFolder(slug), saves, fetch);
    SavesFresh(folders[f], hrefs, clock);
    StoredPages(pages, StateFolder(slug), saves, fetch);
    forall g, n | g in after && n in after[g] && !(g in before && n in before[g])
      ensures RootFolder + g + "/" + n in stored
    {
      if g == f && n in Names(saves) {
        var i :| 0 <= i < |saves| && saves[i].name == n;
        assert StateFolder(slug) + saves[i].name in Paths(StateFolder(slug), saves);
      } else {
        assert n in folders[g];
      }
    }
  }

  /** The state folders with the names of their files, the saved pages and `log.txt`. */
  class Scraper {
    var folders: map<string, set<string>>
    var pages: map<string, string>
    var log: string

    constructor (folders: map<string, set<string>>, pages: map<string, string>, log: string)
      ensures this.folders == folders && this.pages == pages && this.log == log
    {
      this.folders := folders;
      this.pages := pages;
      this.log := log;
    }

    /** `create_folders`: a folder for every state; one that exists keeps its files. */
    method CreateFolders()
      modifies this
      ensures forall k :: 0 <= k < 32 ==> FolderName(StateSlugs()[k]) in folders
      ensures forall f :: f in folders <==> f in old(folders) || f in FolderNames(StateSlugs())
      ensures forall f :: f in old(folders) ==> folders[f] == old(folders)[f]
      ensures forall f :: f in folders && f !in old(folders) ==> folders[f] == {}
      ensures pages == old(pages) && log == old(log)
    {
      AddFolders(StateSlugs());
    }

    /** `os.makedirs(folder_path, exist_ok=True)` for the folder of every slug, in order. */
    method AddFolders(slugs: seq<string>)
      modifies this
      ensures forall j :: 0 <= j < |slugs| ==> FolderName(slugs[j]) in folders
      ensures forall f :: f in folders <==> f in old(folders) || f in FolderNames(slugs)
      ensures forall f :: f in old(folders) ==> folders[f] == old(folders)[f]
      ensures forall f :: f in folders && f !in old(folders) ==> folders[f] == {}
      ensures pages == old(pages) && log == old(log)
    {
      assert FolderNames(slugs[..0]) == {};
      for k := 0 to |slugs|
        invariant forall j :: 0 <= j < k ==> FolderName(slugs[j]) in folders
        invariant forall f :: f in folders <==> f in old(folders) || f in FolderNames(slugs[..k])
        invariant forall f :: f in old(folders) ==> folders[f] == old(folders)[f]
        invariant forall f :: f in folders && f !in old(folders) ==> folders[f] == {}
        invariant pages == old(pages) && log == old(log)
      {
        FolderNamesStep(slugs, k);
        var folder := FolderName(slugs[k]);
        if folder !in folders {
          folders := folders[folder := {}];
        }
      }
      assert slugs[..|slugs|] == slugs;
    }

    /** `update_log`: one line with the page's path and the time stamp, appended. */
    method UpdateLog(path: string, stamp: string)
      modifies this
      ensures log == old(log) + LogLine(path, stamp)
      ensures folders == old(folders) && pages == old(pages)
    {
      log := log + LogLine(path, stamp);
    }

    /** Writing one listing page into the state's folder, then logging it. */
    method SaveListing(stateFolder: string, folder: string, fileName: string, text: string, stamp: string)
      requires folder in folders
      modifies this
      ensures pages == old(pages)[stateFolder + fileName := text]
      ensures folders == old(folders)[folder := old(folders)[folder] + {fileName}]
      ensures log == old(log) + LogLine(stateFolder + fileName, stamp)
    {
      pages := pages[stateFolder + fileName := text];
      folders := folders[folder := folders[folder] + {fileName}];
      UpdateLog(stateFolder + fileName, stamp);
    }

    /**
     * `download_state`: for every detail link on the state's listings page
     * whose file is not in the state's folder, fetch the listing, save it and
     * log it. The folder must exist, as `os.listdir` requires.
     */
    method DownloadState(slug: string, hrefs: seq<string>, fetch: string -> string, clock: nat -> string)
      requires FolderName(slug) in folders
      modifies this
      ensures folders == old(folders)[FolderName(slug) :=
        old(folders)[FolderName(slug)] + Names(Saves(old(folders)[FolderName(slug)], hrefs, clock))]
      ensures log == old(log) + Log(SaveEntries(StateFolder(slug), Saves(old(folders)[FolderName(slug)], hrefs, clock)))
      ensures pages == Stored(old(pages), StateFolder(slug), Saves(old(folders)[FolderName(slug)], hrefs, clock), fetch)
    {
      var folder := FolderName(slug);
      var stateFolder := RootFolder + folder + "/";
      ghost var present := folders[folder];
      ghost var saves: seq<Save> := [];
      assert hrefs[..0] == [];
      assert present + Names(saves) == present;
      assert old(folders)[folder := present] == old(folders);
      assert log + Log(SaveEntries(stateFolder, [])) == log;
      for i := 0 to |hrefs|
        invariant saves == Saves(present, hrefs[..i], clock)
        invariant folders == old(folders)[folder := present + Names(saves)]
        invariant log == old(log) + Log(SaveEntries(stateFolder, saves))
        invariant pages == Stored(old(pages), stateFolder, saves, fetch)
      {
        SavesStep(present, hrefs, clock, i);
        saves := VisitLink(old(folders), old(pages), old(log), folder, stateFolder, present, saves, hrefs[i], fetch, clock(i));
      }
      assert hrefs[..|hrefs|] == hrefs;
    }

    /**
     * One anchor of the state's listings page: a detail link whose file is not
     * in the folder is fetched, saved and logged; any other link changes nothing.
     */
    method VisitLink(ghost folders0: map<string, set<string>>, ghost pages0: map<string, string>, ghost log0: string,
                     folder: string, stateFolder: string, ghost present: set<string>, ghost saves: seq<Save>,
                     href: string, fetch: string -> string, stamp: string)
      returns (ghost next: seq<Save>)
      requires folders == folders0[folder := present + Names(saves)]
      requires log == log0 + Log(SaveEntries(stateFolder, saves))
      requires pages == Stored(pages0, stateFolder, saves, fetch)
      modifies this
      ensures next == if IsDetailLink(href) && FileName(href) !in present + Names(saves)
                      then saves + [Save(FileName(href), href, stamp)] else saves
      ensures folders == folders0[folder := present + Names(next)]
      ensures log == log0 + Log(SaveEntries(stateFolder, next))
      ensures pages == Stored(pages0, stateFolder, next, fetch)
    {
      next := saves;
      if IsDetailLink(href) {
        var fileName := ListingId(href) + ".html";
        if fileName !in folders[folder] {
          var text := fetch(BaseUrl + href);
          ghost var save := Save(fileName, href, stamp);
          ghost var prev := folders;
          SaveListing(stateFolder, folder, fileName, text, stamp);
          SaveEntriesStep(stateFolder, saves, save);
          StoredStep(pages0, stateFolder, saves, save, fetch);
          AppendAssoc(log0, Log(SaveEntries(stateFolder, saves)), LogLine(stateFolder + fileName, stamp));
          assert folders == prev[folder := prev[folder] + {fileName}];
          assert prev[folder] + {fileName} == present + Names(saves + [save]) by {
            NamesStep(saves, save);
          }
          UpdateTwice(folders0, folder, present + Names(saves), present + Names(saves + [save]));
          next := saves + [save];
        }
      }
    }

    /** The main block: create the folders, then download every state in order. */
    method Scrape(hrefsOf: string -> seq<string>, fetch: string -> string, clock: string -> nat -> string)
      modifies this
      ensures forall k :: 0 <= k < 32 ==> Complete(folders, StateSlugs()[k], hrefsOf(StateSlugs()[k]))
      ensures Grown(old(folders), folders)
      ensures SavedSince(old(folders), old(pages), folders, pages)
      ensures old(log) <= log
    {
      CreateFolders();
      DownloadAll(StateSlugs(), hrefsOf, fetch, clock);
    }

    /** `download_state` for each slug in turn; a later state never removes an earlier state's files. */
    method DownloadAll(slugs: seq<string>, hrefsOf: string -> seq<string>, fetch: string -> string, clock: string -> nat -> string)
      requires forall j :: 0 <= j < |slugs| ==> FolderName(slugs[j]) in folders
      modifies this
      ensures forall j :: 0 <= j < |slugs| ==> Complete(folders, slugs[j], hrefsOf(slugs[j]))
      ensures Grown(old(folders), folders)
      ensures SavedSince(old(folders), old(pages), folders, pages)
      ensures old(log) <= log
    {
      for k := 0 to |slugs|
        invariant forall j :: 0 <= j < |slugs| ==> FolderName(slugs[j]) in folders
        invariant forall j :: 0 <= j < k ==> Complete(folders, slugs[j], hrefsOf(slugs[j]))
        invariant Grown(old(folders), folders)
        invariant SavedSince(old(folders), old(pages), folders, pages)
        invariant old(log) <= log
      {
        ghost var before := folders;
        ghost var pagesBefore := pages;
        ghost var logBefore := log;
        var slug := slugs[k];
        StateSaved(old(folders), old(pages), before, pagesBefore, slug, hrefsOf(slug), fetch, clock(slug));
        DownloadState(slug, hrefsOf(slug), fetch, clock(slug));
        StateDone(before, slugs, hrefsOf, clock(slug), k);
        assert logBefore <= log;
      }
    }
  }

  /**
   * After state `k` is downloaded, its folder is complete, the states before
   * it stay complete and every folder keeps its files.
   */
  lemma {:induction false} StateDone(before: map<string, set<string>>, slugs: seq<string>, hrefsOf: string -> seq<string>, clock: nat -> string, k: nat)
    requires k < |slugs|
    requires forall j :: 0 <= j < |slugs| ==> FolderName(slugs[j]) in before
    requires forall j :: 0 <= j < k ==> Complete(before, slugs[j], hrefsOf(slugs[j]))
    ensures var f := FolderName(slugs[k]);
      var after := before[f := before[f] + Names(Saves(before[f], hrefsOf(slugs[k]), clock))];
      Grown(before, after)
      && (forall j :: 0 <= j < |slugs| ==> FolderName(slugs[j]) in after)
      && (forall j :: 0 <= j <= k ==> Complete(after, slugs[j], hrefsOf(slugs[j])))
  {
    var f := FolderName(slugs[k]);
    var after := before[f := before[f] + Names(Saves(before[f], hrefsOf(slugs[k]), clock))];
    SavesComplete(before[f], hrefsOf(slugs[k]), clock);
    assert Grown(before, after);
    forall j | 0 <= j < k ensures Complete(after, slugs[j], hrefsOf(slugs[j])) {
      CompleteGrows(before, after, slugs[j], hrefsOf(slugs[j]));
    }
  }

  lemma {:induction false} NamesStep(saves: seq<Save>, save: Save)
    ensures Names(saves + [save]) == Names(saves) + {save.name}
  {
  }

  lemma {:induction false} UpdateTwice(m: map<string, set<string>>, k: string, a: set<string>, b: set<string>)
    ensures m[k := a][k := b] == m[k := b]
  {
  }

  lemma {:induction false} SaveEntriesStep(folder: string, saves: seq<Save>, save: Save)
    ensures Log(SaveEntries(folder, saves + [save])) == Log(SaveEntries(folder, saves)) + LogLine(folder + save.name, save.stamp)
  {
    var all := SaveEntries(folder, saves + [save]);
    assert all[..|all| - 1] == SaveEntries(folder, saves);
  }
}
