# mexican-jobs-2018 in Dafny

A model of the scraping and Reddit-bot scripts of the mexican-jobs-2018
project, with proofs of what their string and list logic guarantees.

The scripts:

- **scraper** — downloads new job listings from the Mexican federal job site.
  - It has one folder per state, named by the state's number.
  - It saves a listing page only when its file is not yet in the state's folder.
  - It appends one `path,timestamp` line to `log.txt` per saved page.
- **reply bot** (`comments_bot.py`) — answers `!empleos` comments.
  - It reads the recent pages listed in `log.txt` into `master_list` and sorts them by salary.
  - It parses the command's location, minimum, maximum and tag.
  - It answers with a Markdown table of at most ten matching listings, or a fixed "no jobs" message.
  - It logs every answered comment's id, so each comment is answered once.
- **digest bot** (`post_bot.py`) — builds one Markdown post.
  - It keeps the listings paying at least 8000.
  - It orders them by salary and adds rows while the message is at most 39000 characters.
  - It ends the post with a footer.
- **CSV extractor** (`step2.py`) — turns every page listed in the log into a 16-column record.
  - The columns are the date, the cleaned offer name, the salary, the start and end hours, the hours worked, seven weekday flags, the days worked, the state and the municipality.

## Modules

| module | file | models |
|---|---|---|
| `Wrappers` | `wrappers.dfy` | `Option`, `Result`, and the two exceptions the scripts let escape (`ValueError`, `KeyError`) |
| `Text` | `text.dfy` | the Python string operations the scripts use: `split`, `join`, `in`, `replace`, `lower`, `title`, `strip`, `isdigit` |
| `Numbers` | `numbers.dfy` | `int()`, `int(float())`, the salary cleaning and the `{:,}` format |
| `Accents` | `accents.dfy` | `clean_word`, which appears in three scripts |
| `ProcessedLog` | `processed_log.dfy` | the `log.txt` line format and the three `load_files` |
| `Listings` | `listings.dfy` | both bots' `parse_file`, `master_list`, the row format and the salary sort |
| `Responder` | `responder.dfy` | the reply bot: command parsing, `filter_posts`, the comments log, a whole run |
| `Digest` | `digest.dfy` | the digest bot's `prepare_post` |
| `Records` | `records.dfy` | the CSV extractor's `parse_file`, the records and the rows written |
| `Scraper` | `scraper.dfy` | `create_folders`, `download_state`, `update_log` and the main loop |

Exceptions:
- An exception that ends a script is a `Result.Failure`:
  - `int()` on a malformed salary token in a command;
  - the missing `location` key in `filter_posts`;
  - a malformed line in the extractor's `load_files`.
- An exception swallowed for one page or line is `Option.None`, and the item is skipped.

Inputs and outputs:
- An XPath lookup is an `Option<string>` field of `Listings.Page`.
- A time stamp is an opaque string. `strptime(...).timestamp()` is a parameter `parse: string -> Option<int>`.
- The current time and the formatted footer stamp are parameters.
- The site's pages and links, the fetched texts and the comments of the Reddit threads are all inputs.

Where the code and the project's description differ, the model follows the code:
- **The reply bot's filters are not simply ANDed.** The first branch whose parameters are truthy decides. A minimum salary of 0, or none, switches off the maximum and the tag too (`Responder.FitsFlat`).
- **The link test matches the code.** A detail link contains `detalleoferta`, as the code tests, not `detallesoferta` as its comment says.

## Model

| member | source | states |
|---|---|---|
| Accents.Unaccent | scripts/comments_bot.py:18-19 | same length; no accented vowel left; every other character kept in place |
| Accents.CleanWord | scripts/comments_bot.py:275-293 | the ten `replace` calls in list order compute `Unaccent` |
| Accents.MarksPaired | scripts/comments_bot.py:17-19 | the two lists have equal length; each accented vowel maps to its plain vowel of the same case, which is not itself replaced |
| Accents.UnaccentIdempotent | scripts/comments_bot.py:290-293 | cleaning twice is cleaning once |
| Accents.UnaccentLowerCommute | scripts/comments_bot.py:190 | `clean_word(x.lower())` equals `clean_word(x).lower()`, so query and listing are normalised alike |
| Accents.UnaccentKeepsOccurrence | scripts/comments_bot.py:190 | an occurrence of a word in a text survives cleaning both |
| Text.Split | scripts/comments_bot.py:44 | `split` gives at least one piece, none holding the separator |
| Text.First | scripts/post_bot.py:101 | `split(sep)[0]` is the prefix before the first separator, or the whole text without one |
| Text.Last | scripts/post_bot.py:102 | `split(sep)[-1]` is the suffix after the last separator, or the whole text without one |
| Text.Title | scripts/post_bot.py:101 | `title()` gives a title-cased text (a cased character is upper case exactly after an uncased one) equal to the input up to case |
| Text.StripLower | scripts/step2.py:52 | `strip` and `lower` commute |
| Text.StripTitled | scripts/post_bot.py:101 | stripping a title-cased text keeps it title-cased |
| Text.SplitJoin | scripts/step2.py:56-60 | joining the pieces of a split gives the text back |
| Text.JoinSplit | scripts/step2.py:56-60 | splitting words without the separator that were joined by it gives the words back |
| Text.RemoveChar | scripts/comments_bot.py:75 | `replace(c, "")` leaves no `c` and never lengthens the text |
| Text.StripNoOp | scripts/post_bot.py:101 | `strip` keeps a text without white space at its ends unchanged |
| Text.LowerIdempotent | scripts/post_bot.py:104 | lower-casing twice is lower-casing once |
| Numbers.ParseIntDecimal | scripts/comments_bot.py:125 | `int(str(n)) == n` |
| Numbers.ParseIntRejects | scripts/comments_bot.py:132-137 | a character that is not white space, a sign or a digit makes `int()` raise |
| Numbers.Grouped | scripts/comments_bot.py:225 | `{:,}` writes digits and commas only, starting and ending with a digit; a character is a comma exactly when it is a multiple of four places from the end; no leading zero except for 0 itself |
| Numbers.GroupedStep | scripts/comments_bot.py:225 | a comma and one more group of three digits keep every fourth character from the end a comma and no other |
| Numbers.DigitsLeading | scripts/comments_bot.py:225 | `str(n)` starts with '0' exactly when n is 0 |
| Numbers.DigitsShort | scripts/comments_bot.py:225 | below 1000, `str(n)` has at most three digits, so the leading group needs no comma |
| Numbers.Ungrouped | scripts/comments_bot.py:225 | removing the commas of `{:,}` gives back the decimal digits of the number |
| Numbers.SalaryRoundTrip | scripts/comments_bot.py:75 | the salary cleaning reads the `$` and `{:,}` text a row shows back as that salary |
| Numbers.SalaryTruncates | scripts/comments_bot.py:75 | a fraction after the amount is dropped: `int(float())` truncates |
| Numbers.TruncatedSigned | scripts/step2.py:49 | `int(float(s))` of a signed digit string is its value |
| Numbers.TruncatedSignedFraction | scripts/step2.py:49 | `int(float(s))` of a signed decimal keeps the integer part, toward zero |
| Numbers.CleanSalaryDecimal | scripts/step2.py:49 | cleaning `str(n)` gives `n` |
| ProcessedLog.EntryFields | scripts/scraper.py:118 | a line written for a path and stamp without comma or newline splits back on ',' into exactly those two fields |
| ProcessedLog.LoadFreshFiles | scripts/comments_bot.py:31-55 | the loop returns the paths the fresh lines contribute, in file order |
| ProcessedLog.FreshPathsMembership | scripts/comments_bot.py:41-53 | a path is loaded iff some line splits into exactly two fields, its stamp parses and its age is at most the limit |
| ProcessedLog.FreshPathsAppend | scripts/post_bot.py:29-41 | lines are read in order: the paths of `a + b` are those of `a` followed by those of `b` |
| ProcessedLog.FreshEntry | scripts/post_bot.py:32-38 | a written line is loaded exactly when its stamp parses and is fresh |
| ProcessedLog.LogSplits | scripts/comments_bot.py:41 | the scraper's log splits on newlines into its entry lines, then what follows |
| ProcessedLog.SavedPageLoaded | scripts/scraper.py:116-118 | appending a line keeps the earlier log; the bots then load the new path iff its stamp is fresh |
| ProcessedLog.Lines | scripts/step2.py:23 | `splitlines` pieces contain no line break |
| ProcessedLog.LinesAround | scripts/step2.py:23 | a line followed by a newline is exactly one piece of `splitlines` |
| ProcessedLog.LoadAllFiles | scripts/step2.py:16-27 | the extractor's loop returns one pair per line in order, or raises on the first line without exactly two fields |
| ProcessedLog.AllEntriesRejoin | scripts/step2.py:24-25 | every pair read joins back into its line |
| ProcessedLog.LogReadBack | scripts/step2.py:23-25 | the extractor reads a log the scraper wrote back as exactly the entries written |
| ProcessedLog.LogLines | scripts/step2.py:23 | the scraper's log splits into lines as its entries, then what follows |
| Listings.ExtractListing | scripts/post_bot.py:59-79 | all or nothing: a listing iff every lookup has text and the salary converts; its fields are the cleaned salary, the name, the location and the page's `og:url` with every "x//" collapsed to "x/" (`CleanUrl`), so no longer than it |
| Listings.ShownSalaryExtracted | scripts/comments_bot.py:72-75 | a page showing `$` and a grouped salary is read with that salary |
| Listings.CleanUrlKeeps | scripts/comments_bot.py:83-84 | a URL without `x//` is kept |
| Listings.Offer | scripts/post_bot.py:101 | the offer is title-cased, equals the text before the first '-' stripped up to case, holds no '-' and has no white space at its ends |
| Listings.Company | scripts/post_bot.py:102-107 | "S/N" when the stripped text after the last '-' mentions "sin nombre" in any case, otherwise that text title-cased (title case, equal to it up to case); never a '-' |
| Listings.RowShowsSalary | scripts/comments_bot.py:225-226 | a row shows `$` and the grouped salary, which the salary cleaning reads back |
| Listings.Insert | scripts/comments_bot.py:310 | inserting adds exactly one listing |
| Listings.SortedBySalary | scripts/comments_bot.py:310 | the sorted list has non-increasing salaries |
| Listings.SortPermutes | scripts/comments_bot.py:310 | sorting is a permutation |
| Listings.SortStable | scripts/comments_bot.py:310 | listings with equal salaries keep their relative order |
| Listings.MasterList.ParseFile | scripts/comments_bot.py:58-87 | `master_list` gains the page's listing, or nothing |
| Listings.MasterList.ParseFiles | scripts/comments_bot.py:302-307 | `master_list` gains the listings of the pages in order |
| Listings.MasterList.SortBySalaryInPlace | scripts/post_bot.py:90 | the list is replaced by its sorted permutation |
| Responder.NonEmpty | scripts/comments_bot.py:112 | exactly the non-empty pieces are kept |
| Responder.NonEmptyAppend | scripts/comments_bot.py:112 | dropping empty pieces works piece by piece, keeping the order and repetitions of the rest |
| Responder.NonEmptySingle | scripts/comments_bot.py:112 | one piece is kept iff it is not empty |
| Responder.Tokens | scripts/comments_bot.py:111-112 | tokens are non-empty and hold no space |
| Responder.TokensAppend | scripts/comments_bot.py:111-112 | the tokens of two texts joined by a space are those of the first, then those of the second |
| Responder.TokensOfWord | scripts/comments_bot.py:111-112 | a text without spaces is one token, or none when empty |
| Responder.TokensOfWords | scripts/comments_bot.py:111-112 | words joined by single spaces tokenise back into those words |
| Responder.ParseCommand | scripts/comments_bot.py:118-145 | raises `ValueError` iff the minimum (3 to 5 tokens) or the five-token maximum is not an integer; no parameter outside 2 to 5 tokens; otherwise the location is the key of the second token, the minimum `int` of the third (absent with 2 tokens), no maximum or tag with 2 or 3 tokens, with 4 the fourth token is the maximum when an integer and the tag otherwise, with 5 the maximum and the tag are the fourth and fifth |
| Responder.ParseParameters | scripts/comments_bot.py:114-145 | the branching on the token count computes `ParseCommand` |
| Responder.KeyIdempotent | scripts/comments_bot.py:119-120 | normalising a normalised word changes nothing |
| Responder.FullCommandRoundTrip | scripts/comments_bot.py:139-145 | a five-token command built from values reads back as those values |
| Responder.FourthToken | scripts/comments_bot.py:127-137 | with four tokens an integer fourth token is the maximum, any other is the tag |
| Responder.FitsFlat | scripts/comments_bot.py:204-221 | with a truthy minimum a listing fits iff it is in the location and meets the minimum, and the maximum and tag when truthy; otherwise iff it is in the location |
| Responder.FoundByLocation | scripts/comments_bot.py:190 | a listing whose location contains the query word, in any case and accents, is found |
| Responder.Selected | scripts/comments_bot.py:187 | never more than `MAX_JOBS` = 10 rows |
| Responder.Matching | scripts/comments_bot.py:190-221 | every listing that fits, and only those |
| Responder.MatchingAppend | scripts/comments_bot.py:190-221 | matching works listing by listing: list order and repetitions are kept |
| Responder.MatchingSingle | scripts/comments_bot.py:190-221 | one listing matches iff it fits |
| Responder.SelectedFirstMatches | scripts/comments_bot.py:181-228 | the rows are the first ten matching listings, or all of them |
| Responder.SelectedFit | scripts/comments_bot.py:187-228 | every row is a listing of the list that fits |
| Responder.SelectedComplete | scripts/comments_bot.py:181-228 | with fewer than ten rows no matching listing is missing |
| Responder.NothingSelected | scripts/comments_bot.py:150-151 | the count is 0 iff no listing fits |
| Responder.SelectedSorted | scripts/comments_bot.py:181 | rows from the sorted list come out in non-increasing salary order |
| Responder.MatchingSorted | scripts/comments_bot.py:181 | matches of a sorted list are sorted |
| Responder.FilterPosts | scripts/comments_bot.py:158-238 | `KeyError` iff the location is missing and the list is non-empty; otherwise the header, the selected rows and the footer, with the count equal to the rows added |
| Responder.Matches | scripts/comments_bot.py:184-221 | the branch cascade for one listing decides `Fits` |
| Responder.ReplyBot.LoadLog | scripts/comments_bot.py:241-258 | the lines of the log, or none when it is missing, in which case an empty log is created |
| Responder.ReplyBot.UpdateLog | scripts/comments_bot.py:261-272 | the id and a newline are appended, nothing else changes |
| Responder.ReplyBot.LoadComments | scripts/comments_bot.py:90-155 | the replies posted, the log appended to and the exception raised are those of `Answers` on the loaded log |
| Responder.HandleComment | scripts/comments_bot.py:105-155 | one comment: skipped, answered with `ReplyText`, or the exception |
| Responder.RespondReply | scripts/comments_bot.py:147-155 | a new comment with the trigger and a good command gets the table, or the no-jobs message |
| Responder.RespondCrash | scripts/comments_bot.py:122-147 | a malformed minimum, or a missing location with listings present, raises |
| Responder.AnswersStayCrashed | scripts/comments_bot.py:102-155 | after an exception the later comments change nothing |
| Responder.RespondAnswersNew | scripts/comments_bot.py:105-108 | only a comment whose id is not logged and whose body holds `!empleos` is answered |
| Responder.RepliesAreNew | scripts/comments_bot.py:102-108 | every reply of a run answers a new comment with the trigger |
| Responder.LogAfterReplies | scripts/comments_bot.py:271-272 | the log's lines after a run are the old ones, then one id per reply, then the final empty piece |
| Responder.ProcessedAfterRun | scripts/comments_bot.py:252-254 | the next run's processed ids are the old ones, the ids just answered and "" |
| Responder.QuietRerun | scripts/comments_bot.py:105 | comments already answered are skipped by a later run |
| Responder.AnsweredOnce | scripts/comments_bot.py:100-155 | rerunning on the same comments after a run without exception answers nothing |
| Responder.CrashPoint | scripts/comments_bot.py:102-155 | a run that raised ran normally up to one comment, which raised |
| Responder.CrashRepeats | scripts/comments_bot.py:100-155 | after a run that raised, the next run on the same comments raises the same exception and posts nothing |
| Digest.Qualifying | scripts/post_bot.py:95 | only listings paying at least `MIN_SALARY_THRESHOLD` = 8000 |
| Digest.QualifyingAppend | scripts/post_bot.py:92-95 | the filter works listing by listing: `master_list` order and repetitions are kept |
| Digest.QualifyingSingle | scripts/post_bot.py:95 | one listing qualifies iff it pays at least 8000 |
| Digest.QualifyingMembers | scripts/post_bot.py:94-95 | a listing qualifies iff it is in the list and pays at least 8000 |
| Digest.PreparePost | scripts/post_bot.py:82-118 | `master_list` becomes its salary sort; the message is `Post` of it |
| Digest.AppendRows | scripts/post_bot.py:92-110 | the loop appends the rows of `Shown` |
| Digest.ShownPrefix | scripts/post_bot.py:97-110 | the rows shown are a prefix of the qualifying listings; every listing left out came while the message was over budget |
| Digest.ShownWithinBudget | scripts/post_bot.py:98-110 | the message before the footer exceeds 39000 by at most its last row |
| Digest.QualifyingSorted | scripts/post_bot.py:90-95 | qualifying listings of a sorted list are sorted |
| Digest.DigestContents | scripts/post_bot.py:85-118 | the post is the three fixed lines, the rows of the first `n` qualifying listings in sorted order and the footer; a cut happens only past the budget |
| Digest.DigestWithinBudget | scripts/post_bot.py:98-110 | for any list, the posted message before the footer is at most 39000 plus one row |
| Records.KeptWords | scripts/step2.py:56-58 | no stop word survives, and no word is added |
| Records.KeptWordsAppend | scripts/step2.py:56-58 | the filter works word by word: order and repetitions are kept |
| Records.KeptWordsSingle | scripts/step2.py:57-58 | one word is kept iff it is not a stop word |
| Records.CleanName | scripts/step2.py:52-60 | the word loop and `clean_word` compute `OfferName` |
| Records.KeptWordsMembers | scripts/step2.py:56-58 | a word is kept iff it is in the name and is not "a", "de", "en" or all digits |
| Records.KeptWordsRejoin | scripts/step2.py:56-60 | the kept words, rejoined by spaces, split back into those words |
| Records.Elapsed | scripts/step2.py:65-71 | `end - start` when start < end, else `end + 2400 - start`; equal times give 2400; for HHMM values from 0 to 2359 the result is from 1 to 2400 |
| Records.OvernightShift | scripts/step2.py:62-71 | "08:00 - 02:00" reads as 800 and 200, 18 hours across midnight |
| Records.ClockReading | scripts/step2.py:65-66 | an `HH:MM` text of four digits reads as the number HHMM |
| Records.ClockDigits | scripts/step2.py:65-66 | a clock text whose colon-free form is digits reads as their value |
| Records.Flag | scripts/step2.py:76-82 | 1 iff the abbreviation occurs in the days text, else 0 |
| Records.DaysWorked | scripts/step2.py:84-85 | from 0 to 7; 7 iff every abbreviation occurs, 0 iff none does |
| Records.WeekdaysOnly | scripts/step2.py:76-85 | "L Ma Mi J V" gives 5 |
| Records.StateAndMunicipality | scripts/step2.py:90-93 | a pair iff the location has exactly two comma pieces; the stripped pieces |
| Records.LocationRoundTrip | scripts/step2.py:90-93 | "state, municipality" reads back as the two stripped parts |
| Records.ExtractRecord | scripts/step2.py:43-96 | all or nothing: a record iff every lookup and conversion succeeds, the hours have at least three pieces and the location exactly two; its fields are the cleaned values |
| Records.ParseRecord | scripts/step2.py:40-96 | `parse_file` statement by statement computes `ExtractRecord` |
| Records.ReadShift | scripts/step2.py:62-71 | the start, end and hours worked, or nothing when the hours text does not convert |
| Records.ReadWeekdays | scripts/step2.py:73-85 | the seven flags, Monday first, then their sum |
| Records.Fields | scripts/step2.py:92-93 | sixteen cells, in header order |
| Records.PageRows | scripts/step2.py:92-96 | at most one row per page, as wide as the header |
| Records.PageRowOfRecord | scripts/step2.py:92-96 | a page gives a row iff its record is extracted, and the row is that record's fields |
| Records.RecordRowsShape | scripts/step2.py:127-129 | at most one row per log line, each as wide as the header |
| Records.Extraction.constructor | scripts/step2.py:123-125 | the table starts with the header row alone |
| Records.Extraction.ParseFile | scripts/step2.py:30-96 | the page's row is appended, or nothing; the table stays well shaped |
| Records.Extraction.ParseFiles | scripts/step2.py:127-129 | the rows of the pages are appended in log order; the table stays well shaped |
| Records.Extract | scripts/step2.py:120-132 | the rows written, or the exception raised by `load_files` |
| Records.DataRowsShape | scripts/step2.py:124-132 | the header row comes first and every row has sixteen fields |
| Records.ScrapedLogExtracted | scripts/step2.py:23-25 | a log the scraper wrote is extracted whole: the header row, then one row per readable page in log order |
| Scraper.StateSlugs | scripts/scraper.py:13-46 | 32 slugs, the slug of state k + 1 being its number, the fixed middle and its name |
| Scraper.ListingId | scripts/scraper.py:89 | the id is the suffix of the link after its last '=', the whole link without one |
| Scraper.FolderOfState | scripts/scraper.py:62 | the folder of state k + 1 is its number |
| Scraper.FoldersDistinct | scripts/scraper.py:56-63 | the 32 folders are all different |
| Scraper.SavesFresh | scripts/scraper.py:93-99 | no saved file was in the folder, and no file is written twice even when linked twice |
| Scraper.SavesFromDetailLinks | scripts/scraper.py:86-90 | every save comes from a link of the page containing `detalleoferta` and is named by its id |
| Scraper.SavesComplete | scripts/scraper.py:86-99 | afterwards the file of every detail link is in the folder |
| Scraper.LogAppend | scripts/scraper.py:116-118 | appending lines keeps the earlier log: the log of `a + b` is that of `a` then that of `b` |
| Scraper.LoggedSavesReadBack | scripts/scraper.py:116-118 | after a state the log reads back as the old entries, then the new ones |
| Scraper.StoredPages | scripts/scraper.py:97-100 | every saved page holds the text fetched for its link; only the saved paths are added; other pages are unchanged |
| Scraper.Scraper.CreateFolders | scripts/scraper.py:56-63 | a folder for every state; existing folders keep their files; new ones are empty |
| Scraper.Scraper.AddFolders | scripts/scraper.py:61-63 | the folder of every slug exists; nothing else is added or changed |
| Scraper.Scraper.UpdateLog | scripts/scraper.py:106-118 | one line `path,stamp` is appended |
| Scraper.Scraper.SaveListing | scripts/scraper.py:97-102 | the page is written, its file joins the folder and one line is logged |
| Scraper.Scraper.DownloadState | scripts/scraper.py:66-103 | the folder gains the names of `Saves`, the log their lines in order, the pages their texts |
| Scraper.Scraper.VisitLink | scripts/scraper.py:86-103 | one anchor: a new detail link is saved and logged; any other anchor changes nothing |
| Scraper.Scraper.Scrape | scripts/scraper.py:121-132 | afterwards every state's folder holds the file of every detail link of its page; no folder loses files; no saved page is lost and every file a folder gained is a saved page under its path; the log only grows |
| Scraper.Scraper.DownloadAll | scripts/scraper.py:130-132 | each state in turn; later states never remove earlier states' files; every file a folder gained is a saved page and no saved page is lost |
| Scraper.StateSaved | scripts/scraper.py:86-100 | downloading one state keeps every newly listed file backed by a saved page: the state's new files are the stored paths |
| Scraper.StateDone | scripts/scraper.py:130-132 | after state k its folder is complete and earlier states stay complete |

## Left out

- HTTP: the session, retries, timeouts and `time.sleep`. A state's listing page is the list of its anchors' `href`s; a fetched page is `fetch(url)`.
- HTML parsing: BeautifulSoup and the lxml XPath lookups. Each lookup is the text found, or `None` when no element is found or the element has no text.
- Listings.ExtractListing: the bots' `parse_file` does not reject a name or location element without text. It appends `None` in that field, and `prepare_post` then raises at `name.split`, a `None` location prints as "None", and `filter_posts` raises at `location.lower()`. The model drops such a page instead, as it does for a missing element, so those later failures are not modelled.
- Listings.MasterList.ParseFile: inherits the same difference; such a page adds nothing to `master_list` here.
- The Reddit client: `praw` login, submissions, `comment.reply` and `submission.edit`.
  - The comments of all configured submissions are one sequence.
  - A reply is recorded in a sequence.
  - `update_post` is not modelled beyond producing the message.
- Threads and the thread pool. The pages are parsed one after the other, in log order.
  - Concurrent appends to `master_list` could interleave in another order.
  - An exception in a reply-bot thread skips that page, as `None` does here.
- Clocks: `datetime.now`, `DELTA_HOURS` and the footer's date formatting are parameters.
- `strptime(...).timestamp()` is a parameter, including its rejection of stamps whose microseconds were 0.
- Floating point:
  - `float()` accepts a sign, digits and an optional fraction. Exponents, `inf`, `nan` and underscores are not modelled.
  - Precision loss on very large salaries is not modelled.
  - `hours_worked` is an exact `real`.
- Unicode case mapping: `lower`, `title` and `isdigit` are modelled for the Basic Latin and Latin-1 letters À–Þ and à–þ (without × and ÷). Everything else is treated as uncased, including the Latin-1 letters ß, µ, ÿ, ª and º that Python treats as cased: Python's `'ßa'.title()` is "Ssa" and `'ªb'.title()` is "ªb", the model gives "ßA" and "ªB".
- White space: `strip` and `split` see Basic Latin and Latin-1 white space only; the other Unicode spaces (such as U+2009 and U+3000) that Python's `strip()` also removes are not modelled.
- `int()` and `float()` accept ASCII digits only; Python also accepts other Unicode decimal digits and underscores between digits.
- File contents are taken after newline translation.
- Folder paths: folders are keyed by the state's number, so the trailing '/' of `state_folder` is not modelled.
- `os.listdir` on a missing folder: `DownloadState` requires the folder to exist, which `CreateFolders` guarantees for every state.
- An anchor without an `href` raises `KeyError` in the scraper. This is not modelled: anchors are given as their `href`s.
- `StateListingsUrl` and `ListingUrl` are the two URL formats. They have no contract of their own.
- `clean_word` is modelled once for its three copies.
- `step3.py` (plotting) is not part of this model.
- Scraper.Scraper.Scrape: states that the log only grows, not the exact lines of all 32 states. It also does not state which text each saved page holds, or that a folder gains no file beyond its links' files. `DownloadState` states both for one state (with `StoredPages` and `SavesComplete`).
- Scraper.Scraper.DownloadAll: states that the log only grows and that every new file is a saved page, for the same reason; the texts of the pages and the exact contents of each folder are stated per state by `DownloadState`.
