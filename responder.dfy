/**
 * The reply bot: it reads the `!empleos` command of a comment, filters the
 * sorted listings with it, answers with a Markdown table of at most ten
 * rows, and records the comment's id so that it answers each comment once.
 *
 * The Reddit client is replaced by its inputs and effects: the comments are
 * a sequence of `(id, body)` pairs and the replies the bot posts are
 * collected in a sequence.
 */
module Responder {
  import opened Wrappers
  import opened Text
  import opened Numbers
  import opened Accents
  import opened Listings

  /** The word a comment must contain to be answered. */
  const Trigger: string := "!empleos"

  /** At most this many rows, to stay under the comment size limit. */
  const MaxJobs: nat := 10

  const NoJobsMessage: string := "Lo siento. No pude encontrar ofertas con los parámetros especificados."

  // ---------------------------------------------------------------- the command

  /** The `parameters` dictionary: an absent key is `None`. */
  datatype Params = Params(location: Option<string>, minimum: Option<int>, maximum: Option<int>, tag: Option<string>)

  /** The non-empty pieces, in order. */
  function NonEmpty(parts: seq<string>): (r: seq<string>)
    ensures forall i :: 0 <= i < |r| ==> r[i] != "" && r[i] in parts
    ensures forall x :: x in parts && x != "" ==> x in r
    decreases |parts|
  {
    if parts == [] then []
    else (if parts[0] == "" then [] else [parts[0]]) + NonEmpty(parts[1..])
  }

  /**
   * Dropping empty pieces keeps the order and the repetitions of the others:
   * it works piece by piece.
   */
  lemma {:induction false} NonEmptyAppend(a: seq<string>, b: seq<string>)
    ensures NonEmpty(a + b) == NonEmpty(a) + NonEmpty(b)
    decreases |a|
  {
    if a == [] {
      assert a + b == b;
    } else {
      assert (a + b)[1..] == a[1..] + b;
      NonEmptyAppend(a[1..], b);
    }
  }

  /** One piece is kept exactly when it is not empty. */
  lemma {:induction false} NonEmptySingle(x: string)
    ensures NonEmpty([x]) == if x == "" then [] else [x]
  {
    assert [x][1..] == [];
  }

  /** The comment body split on single spaces, without the empty pieces. */
  function Tokens(body: string): (ts: seq<string>)
    ensures forall i :: 0 <= i < |ts| ==> ts[i] != "" && ' ' !in ts[i]
  {
    NonEmpty(Split(body, ' '))
  }

  /** A space between two texts separates their tokens: the tokens of the whole are those of the first, then those of the second. */
  lemma {:induction false} TokensAppend(a: string, b: string)
    ensures Tokens(a + " " + b) == Tokens(a) + Tokens(b)
  {
    SplitAround(a, b, ' ');
    NonEmptyAppend(Split(a, ' '), Split(b, ' '));
  }

  /** A text without spaces is one token, or none when it is empty. */
  lemma {:induction false} TokensOfWord(w: string)
    requires ' ' !in w
    ensures Tokens(w) == if w == "" then [] else [w]
  {
    SplitWithoutSeparator(w, ' ');
    NonEmptySingle(w);
  }

  /** How a location or a tag is compared: `clean_word(token).lower()`. */
  function Key(token: string): string
  {
    Lower(Unaccent(token))
  }

  /**
   * The parameters read from the tokens: location, then minimum salary, then
   * maximum salary or tag, then tag. `int()` on the minimum (and on the
   * maximum with five tokens) raises when the token is not an integer; with
   * four tokens a fourth token that is not an integer is the tag.
   */
  function ParseCommand(ts: seq<string>): (r: Result<Params>)
    ensures r.Failure? <==> (3 <= |ts| <= 5 && ParseInt(ts[2]).None?) || (|ts| == 5 && ParseInt(ts[3]).None?)
    ensures r.Failure? ==> r.error == ValueError
    ensures !(2 <= |ts| <= 5) ==> r == Success(Params(None, None, None, None))
    ensures r.Success? && 2 <= |ts| <= 5 ==> r.value.location == Some(Key(ts[1]))
    ensures r.Success? && |ts| == 2 ==> r.value.minimum.None?
    ensures r.Success? && 3 <= |ts| <= 5 ==> r.value.minimum == ParseInt(ts[2])
    ensures r.Success? && (|ts| == 2 || |ts| == 3) ==> r.value.maximum.None? && r.value.tag.None?
    ensures r.Success? && |ts| == 4 ==>
      if ParseInt(ts[3]).Some? then r.value.maximum == ParseInt(ts[3]) && r.value.tag.None?
      else r.value.maximum.None? && r.value.tag == Some(Key(ts[3]))
    ensures r.Success? && |ts| == 5 ==> r.value.maximum == ParseInt(ts[3]) && r.value.tag == Some(Key(ts[4]))
  {
    if |ts| < 2 || |ts| > 5 then Success(Params(None, None, None, None))
    else
      var location := Some(Key(ts[1]));
      if |ts| == 2 then Success(Params(location, None, None, None))
      else match ParseInt(ts[2])
        case None => Failure(ValueError)
        case Some(minimum) =>
          if |ts| == 3 then Success(Params(location, Some(minimum), None, None))
          else if |ts| == 4 then
            match ParseInt(ts[3])
            case Some(maximum) => Success(Params(location, Some(minimum), Some(maximum), None))
            case None => Success(Params(location, Some(minimum), None, Some(Key(ts[3]))))
          else
            match ParseInt(ts[3])
            case None => Failure(ValueError)
            case Some(maximum) => Success(Params(location, Some(minimum), Some(maximum), Some(Key(ts[4]))))
  }

  /** The parsing branch of `load_comments`, token by token as the source does it. */
  method ParseParameters(ts: seq<string>) returns (r: Result<Params>)
    ensures r == ParseCommand(ts)
  {
    if |ts| < 2 || |ts| > 5 {
      return Success(Params(None, None, None, None));
    }
    var cleaned := CleanWord(ts[1]);
    var location := Some(Lower(cleaned));
    if |ts| == 2 {
      return Success(Params(location, None, None, None));
    }
    var minimum := ParseInt(ts[2]);
    if minimum.None? {
      return Failure(ValueError);
    }
    if |ts| == 3 {
      return Success(Params(location, minimum, None, None));
    }
    var maximum := ParseInt(ts[3]);
    if |ts| == 4 {
      if maximum.Some? {
        return Success(Params(location, minimum, maximum, None));
      }
      var tag := CleanWord(ts[3]);
      return Success(Params(location, minimum, None, Some(Lower(tag))));
    }
    if maximum.None? {
      return Failure(ValueError);
    }
    var tag := CleanWord(ts[4]);
    r := Success(Params(location, minimum, maximum, Some(Lower(tag))));
  }

  /** Spaces in the body only separate tokens: words joined by spaces read back as those words. */
  lemma {:induction false} TokensOfWords(words: seq<string>)
    requires |words| >= 1
    requires forall i :: 0 <= i < |words| ==> words[i] != "" && ' ' !in words[i]
    ensures Tokens(Join(words, ' ')) == words
  {
    SplitJoin(words, ' ');
    AllNonEmpty(words);
  }

  lemma {:induction false} AllNonEmpty(parts: seq<string>)
    requires forall i :: 0 <= i < |parts| ==> parts[i] != ""
    ensures NonEmpty(parts) == parts
    decreases |parts|
  {
    if parts != [] {
      AllNonEmpty(parts[1..]);
      assert [parts[0]] + parts[1..] == parts;
    }
  }

  /** Normalising a normalised word changes nothing. */
  lemma {:induction false} KeyIdempotent(w: string)
    ensures Key(Key(w)) == Key(w)
  {
    UnaccentLowerCommute(Unaccent(w));
    UnaccentIdempotent(w);
    LowerIdempotent(Unaccent(w));
  }

  /** A full command written with `str()` of its two salaries reads back as those parameters. */
  lemma {:induction false} FullCommandRoundTrip(location: string, minimum: int, maximum: int, tag: string)
    ensures ParseCommand([Trigger, location, Decimal(minimum), Decimal(maximum), tag])
      == Success(Params(Some(Key(location)), Some(minimum), Some(maximum), Some(Key(tag))))
  {
    ParseIntDecimal(minimum);
    ParseIntDecimal(maximum);
  }

  /** With four tokens the last is the maximum salary when it is an integer, and the tag otherwise. */
  lemma {:induction false} FourthToken(ts: seq<string>)
    requires |ts| == 4 && ParseInt(ts[2]).Some?
    ensures ParseInt(ts[3]).Some? ==> ParseCommand(ts).value.maximum == ParseInt(ts[3]) && ParseCommand(ts).value.tag.None?
    ensures ParseInt(ts[3]).None? ==> ParseCommand(ts).value.maximum.None? && ParseCommand(ts).value.tag == Some(Key(ts[3]))
  {
  }

  // ---------------------------------------------------------------- filtering

  /** `parameters.get(...)` is truthy: present and not 0 (or not the empty string). */
  predicate MinGiven(p: Params) { p.minimum.Some? && p.minimum.value != 0 }
  predicate MaxGiven(p: Params) { p.maximum.Some? && p.maximum.value != 0 }
  predicate TagGiven(p: Params) { p.tag.Some? && p.tag.value != "" }

  predicate InLocation(p: Params, l: Listing)
    requires p.location.Some?
  {
    Contains(Unaccent(Lower(l.location)), p.location.value)
  }

  predicate TagInName(p: Params, l: Listing)
    requires p.tag.Some?
  {
    Contains(Unaccent(Lower(l.name)), p.tag.value)
  }

  /**
   * Whether `filter_posts` takes a listing: its location matches and it
   * passes the checks of the first branch whose parameters are all truthy.
   */
  predicate Fits(p: Params, l: Listing)
  {
    p.location.Some? && InLocation(p, l) &&
    (if MinGiven(p) && MaxGiven(p) && TagGiven(p) then
       l.salary >= p.minimum.value && l.salary <= p.maximum.value && TagInName(p, l)
     else if MinGiven(p) && TagGiven(p) then
       l.salary >= p.minimum.value && TagInName(p, l)
     else if MinGiven(p) && MaxGiven(p) then
       l.salary >= p.minimum.value && l.salary <= p.maximum.value
     else if MinGiven(p) then
       l.salary >= p.minimum.value
     else true)
  }

  /** The same test without the branches: a minimum of 0 or none disables the maximum and the tag too. */
  lemma {:induction false} FitsFlat(p: Params, l: Listing)
    requires p.location.Some?
    ensures MinGiven(p) ==>
      (Fits(p, l) <==> InLocation(p, l) && l.salary >= p.minimum.value
                       && (MaxGiven(p) ==> l.salary <= p.maximum.value)
                       && (TagGiven(p) ==> TagInName(p, l)))
    ensures !MinGiven(p) ==> (Fits(p, l) <==> InLocation(p, l))
  {
  }

  /** A listing whose location holds the query word, in any case and with or without accents, is in that location. */
  lemma {:induction false} FoundByLocation(p: Params, l: Listing, word: string)
    requires p.location == Some(Key(word))
    requires Contains(l.location, word)
    ensures InLocation(p, l)
  {
    UnaccentKeepsOccurrence(l.location, word);
    LowerKeepsOccurrence(Unaccent(l.location), Unaccent(word));
    UnaccentLowerCommute(l.location);
  }

  /** The listings taken, in list order, stopping once `MaxJobs` are taken: what the loop of `filter_posts` collects. */
  function Selected(p: Params, s: seq<Listing>): (r: seq<Listing>)
    ensures |r| <= MaxJobs
    decreases |s|
  {
    if s == [] then []
    else
      var earlier := Selected(p, s[..|s| - 1]);
      if |earlier| < MaxJobs && Fits(p, s[|s| - 1]) then earlier + [s[|s| - 1]] else earlier
  }

  /** Every listing that fits, in list order, without a limit. */
  function Matching(p: Params, s: seq<Listing>): (r: seq<Listing>)
    ensures forall i :: 0 <= i < |r| ==> Fits(p, r[i]) && r[i] in s
    ensures forall l :: l in s && Fits(p, l) ==> l in r
    decreases |s|
  {
    if s == [] then []
    else
      var earlier := Matching(p, s[..|s| - 1]);
      assert forall l :: l in s[..|s| - 1] ==> l in s;
      assert forall l :: l in s ==> l in s[..|s| - 1] || l == s[|s| - 1];
      if Fits(p, s[|s| - 1]) then earlier + [s[|s| - 1]] else earlier
  }

  /** The listings that fit keep their list order and repetitions: matching works listing by listing. */
  lemma {:induction false} MatchingAppend(p: Params, a: seq<Listing>, b: seq<Listing>)
    ensures Matching(p, a + b) == Matching(p, a) + Matching(p, b)
    decreases |b|
  {
    if b == [] {
      assert a + b == a;
    } else {
      var init := b[..|b| - 1];
      MatchingAppend(p, a, init);
      assert (a + b)[..|a + b| - 1] == a + init;
      assert (a + b)[|a + b| - 1] == b[|b| - 1];
    }
  }

  /** One listing matches exactly when it fits. */
  lemma {:induction false} MatchingSingle(p: Params, l: Listing)
    ensures Matching(p, [l]) == if Fits(p, l) then [l] else []
  {
    assert [l][..0] == [];
  }

  function Take<T>(s: seq<T>, n: nat): (r: seq<T>)
    ensures |r| <= n && |r| <= |s|
  {
    if |s| <= n then s else s[..n]
  }

  /** The table holds the first `MaxJobs` listings that fit, or all of them when fewer fit. */
  lemma {:induction false} SelectedFirstMatches(p: Params, s: seq<Listing>)
    ensures Selected(p, s) == Take(Matching(p, s), MaxJobs)
    decreases |s|
  {
    if s != [] {
      var init := s[..|s| - 1];
      var last := s[|s| - 1];
      SelectedFirstMatches(p, init);
      var m := Matching(p, init);
      if |m| >= MaxJobs && Fits(p, last) {
        assert (m + [last])[..MaxJobs] == m[..MaxJobs];
      }
    }
  }

  /** Every row shown is a listing of the list that fits the parameters. */
  lemma {:induction false} SelectedFit(p: Params, s: seq<Listing>)
    ensures forall i :: 0 <= i < |Selected(p, s)| ==> Fits(p, Selected(p, s)[i]) && Selected(p, s)[i] in s
  {
    SelectedFirstMatches(p, s);
    var m := Matching(p, s);
    forall i | 0 <= i < |Selected(p, s)| ensures Fits(p, Selected(p, s)[i]) && Selected(p, s)[i] in s {
      assert Selected(p, s)[i] == m[i];
    }
  }

  /** When fewer than `MaxJobs` rows are shown, no listing that fits is missing. */
  lemma {:induction false} SelectedComplete(p: Params, s: seq<Listing>, l: Listing)
    requires |Selected(p, s)| < MaxJobs
    requires l in s && Fits(p, l)
    ensures l in Selected(p, s)
  {
    SelectedFirstMatches(p, s);
  }

  /** The reply is the "no jobs" message exactly when no listing fits. */
  lemma {:induction false} NothingSelected(p: Params, s: seq<Listing>)
    ensures |Selected(p, s)| == 0 <==> forall l :: l in s ==> !Fits(p, l)
  {
    SelectedFirstMatches(p, s);
    if |Selected(p, s)| == 0 {
      assert Matching(p, s) == [];
    } else {
      SelectedFit(p, s);
      assert Selected(p, s)[0] in s;
    }
  }

  /** On a list sorted by salary, the rows come out sorted by salary too. */
  lemma {:induction false} SelectedSorted(p: Params, s: seq<Listing>)
    requires NonIncreasing(s)
    ensures NonIncreasing(Selected(p, s))
  {
    SelectedFirstMatches(p, s);
    MatchingSorted(p, s);
  }

  lemma {:induction false} MatchingSorted(p: Params, s: seq<Listing>)
    requires NonIncreasing(s)
    ensures NonIncreasing(Matching(p, s))
    decreases |s|
  {
    if s != [] {
      var init := s[..|s| - 1];
      var last := s[|s| - 1];
      assert NonIncreasing(init);
      MatchingSorted(p, init);
      var m := Matching(p, init);
      if Fits(p, last) {
        forall k | 0 <= k < |m| ensures m[k].salary >= last.salary {
          var j :| 0 <= j < |init| && init[j] == m[k];
        }
      }
    }
  }

  // ---------------------------------------------------------------- the reply

  /** The footer; `stamp` is the current time as `%d-%m-%Y ^a ^las ^%H:%M:%S` formats it. */
  function Footer(stamp: string): string
  {
    "\n*****\n^Ofertas ^obtenidas ^el: ^" + stamp + " ^|\n"
    + "        [^Ayuda](https://redd.it/93au4i) ^|\n"
    + "        [^Contacto](https://www.reddit.com/message/compose/?to=agent_phantom) ^|\n"
    + "        [^GitHub](https://git.io/fNoyw)"
  }

  /** The message `filter_posts` builds. */
  function Message(p: Params, s: seq<Listing>, stamp: string): string
  {
    TableHeader + Rows(Selected(p, s)) + Footer(stamp)
  }

  datatype Answer = Answer(message: string, count: nat)

  /**
   * `filter_posts`: walk the sorted list, add a row for each listing that
   * fits while fewer than `MaxJobs` rows are in, then add the footer. Reading
   * the absent location raises `KeyError` as soon as there is a listing.
   */
  method FilterPosts(p: Params, listings: seq<Listing>, stamp: string) returns (r: Result<Answer>)
    ensures r.Failure? <==> p.location.None? && |listings| > 0
    ensures r.Failure? ==> r.error == KeyError
    ensures r.Success? ==> r.value == Answer(Message(p, listings, stamp), |Selected(p, listings)|)
  {
    var message := TableHeader;
    var count := 0;
    for i := 0 to |listings|
      invariant count == |Selected(p, listings[..i])|
      invariant message == TableHeader + Rows(Selected(p, listings[..i]))
      invariant i > 0 ==> p.location.Some?
    {
      var l := listings[i];
      assert listings[..i + 1][..i] == listings[..i];
      var matched := false;
      if count < MaxJobs {
        if p.location.None? {
          return Failure(KeyError);
        }
        matched := Matches(p, l);
      }
      SelectedStep(p, listings, i);
      if matched {
        ghost var rows := Rows(Selected(p, listings[..i]));
        AppendAssoc(TableHeader, rows, Row(l));
        message := message + Row(l);
        count := count + 1;
      }
    }
    assert listings[..|listings|] == listings;
    message := message + Footer(stamp);
    r := Success(Answer(message, count));
  }

  /** The test of one listing inside `filter_posts`: the location first, then the first branch whose parameters are truthy. */
  method Matches(p: Params, l: Listing) returns (matched: bool)
    requires p.location.Some?
    ensures matched == Fits(p, l)
  {
    matched := false;
    if Contains(Unaccent(Lower(l.location)), p.location.value) {
      if MinGiven(p) && MaxGiven(p) && TagGiven(p) {
        if l.salary >= p.minimum.value && l.salary <= p.maximum.value && Contains(Unaccent(Lower(l.name)), p.tag.value) {
          matched := true;
        }
      } else if MinGiven(p) && TagGiven(p) {
        if l.salary >= p.minimum.value && Contains(Unaccent(Lower(l.name)), p.tag.value) {
          matched := true;
        }
      } else if MinGiven(p) && MaxGiven(p) {
        if l.salary >= p.minimum.value && l.salary <= p.maximum.value {
          matched := true;
        }
      } else if MinGiven(p) {
        if l.salary >= p.minimum.value {
          matched := true;
        }
      } else {
        matched := true;
      }
    }
  }

  /** One more listing adds its row exactly when fewer than `MaxJobs` are in and it fits. */
  lemma {:induction false} SelectedStep(p: Params, s: seq<Listing>, i: nat)
    requires i < |s|
    ensures var before := Selected(p, s[..i]);
      if |before| < MaxJobs && Fits(p, s[i]) then
        Selected(p, s[..i + 1]) == before + [s[i]] && Rows(Selected(p, s[..i + 1])) == Rows(before) + Row(s[i])
      else Selected(p, s[..i + 1]) == before
  {
    var before := Selected(p, s[..i]);
    assert s[..i + 1][..i] == s[..i];
    assert (before + [s[i]])[..|before|] == before;
  }

  /** The text posted: the table, or the fixed message when no row was added. */
  function ReplyText(p: Params, s: seq<Listing>, stamp: string): string
  {
    if |Selected(p, s)| == 0 then NoJobsMessage else Message(p, s, stamp)
  }

  // ---------------------------------------------------------------- answering comments

  datatype Comment = Comment(id: string, body: string)
  datatype Reply = Reply(id: string, text: string)

  /**
   * What the bot does with one comment, given the ids already answered:
   * nothing for an answered comment or one without the trigger, otherwise
   * the reply, or the exception that stops the run.
   */
  function Respond(processed: seq<string>, c: Comment, listings: seq<Listing>, stamp: string): Result<Option<string>>
  {
    if c.id in processed || !Contains(c.body, Trigger) then Success(None)
    else match ParseCommand(Tokens(c.body))
      case Failure(e) => Failure(e)
      case Success(p) =>
        if p.location.None? && |listings| > 0 then Failure(KeyError)
        else Success(Some(ReplyText(p, listings, stamp)))
  }

  /** The replies of a run, and the exception that ended it early, if any. */
  datatype Run = Run(replies: seq<Reply>, crashed: Option<Error>)

  /** The comments handled in order; the first exception ends the run and the replies already posted stay. */
  function Answers(processed: seq<string>, cs: seq<Comment>, listings: seq<Listing>, stamp: string): Run
    decreases |cs|
  {
    if cs == [] then Run([], None)
    else
      var earlier := Answers(processed, cs[..|cs| - 1], listings, stamp);
      var c := cs[|cs| - 1];
      if earlier.crashed.Some? then earlier
      else match Respond(processed, c, listings, stamp)
        case Failure(e) => Run(earlier.replies, Some(e))
        case Success(None) => earlier
        case Success(Some(text)) => Run(earlier.replies + [Reply(c.id, text)], None)
  }

  /** The text of the comments log; a missing file reads as empty. */
  function LogText(log: Option<string>): string
  {
    if log.None? then "" else log.value
  }

  /** `load_log`: the lines of the log, or nothing when the file is missing. */
  function Processed(log: Option<string>): seq<string>
  {
    if log.None? then [] else Split(log.value, '\n')
  }

  /** The lines `update_log` appends for the replies, one id per line. */
  function IdLines(rs: seq<Reply>): string
    decreases |rs|
  {
    if rs == [] then "" else IdLines(rs[..|rs| - 1]) + rs[|rs| - 1].id + "\n"
  }

  function Ids(rs: seq<Reply>): (ids: seq<string>)
    ensures |ids| == |rs| && forall i :: 0 <= i < |rs| ==> ids[i] == rs[i].id
  {
    seq(|rs|, i requires 0 <= i < |rs| => rs[i].id)
  }

  /** The comments log and the replies posted; the log is `None` while the file does not exist. */
  class ReplyBot {
    var commentsLog: Option<string>
    var replies: seq<Reply>

    constructor (log: Option<string>)
      ensures commentsLog == log && replies == []
    {
      commentsLog := log;
      replies := [];
    }

    /** `load_log`: read the answered ids; a missing log is created empty. */
    method LoadLog() returns (processed: seq<string>)
      modifies this
      ensures processed == Processed(old(commentsLog))
      ensures commentsLog == Some(LogText(old(commentsLog))) && replies == old(replies)
    {
      if commentsLog.None? {
        commentsLog := Some("");
        return [];
      }
      processed := Split(commentsLog.value, '\n');
    }

    /** `update_log`: append the comment's id and a newline. */
    method UpdateLog(id: string)
      modifies this
      ensures commentsLog == Some(LogText(old(commentsLog)) + (id + "\n")) && replies == old(replies)
    {
      commentsLog := Some(LogText(commentsLog) + (id + "\n"));
    }

    /**
     * `load_comments`: answer every new comment that holds the trigger and
     * log its id; an exception while reading a command ends the run.
     */
    method LoadComments(comments: seq<Comment>, listings: seq<Listing>, stamp: string) returns (crashed: Option<Error>)
      modifies this
      ensures var run := Answers(Processed(old(commentsLog)), comments, listings, stamp);
        crashed == run.crashed && replies == old(replies) + run.replies
        && commentsLog == Some(LogText(old(commentsLog)) + IdLines(run.replies))
    {
      ghost var start := LogText(commentsLog);
      var processed := LoadLog();
      assert comments[..0] == [] && start + "" == start;
      for i := 0 to |comments|
        invariant Answers(processed, comments[..i], listings, stamp).crashed.None?
        invariant replies == old(replies) + Answers(processed, comments[..i], listings, stamp).replies
        invariant commentsLog == Some(start + IdLines(Answers(processed, comments[..i], listings, stamp).replies))
      {
        var c := comments[i];
        ghost var earlier := Answers(processed, comments[..i], listings, stamp).replies;
        AnswersStep(processed, comments, listings, stamp, i);
        var outcome := HandleComment(processed, c, listings, stamp);
        if outcome.Failure? {
          AnswersStayCrashed(processed, comments, listings, stamp, i + 1);
          return Some(outcome.error);
        }
        if outcome.value.Some? {
          var reply := Reply(c.id, outcome.value.value);
          replies := replies + [reply];
          UpdateLog(c.id);
          IdLinesStep(earlier, reply);
          AppendAssoc(start, IdLines(earlier), c.id + "\n");
        }
      }
      assert comments[..|comments|] == comments;
      crashed := None;
    }
  }

  /** The body of the loop of `load_comments` for one comment: skip it, or read its command and build the reply. */
  method HandleComment(processed: seq<string>, c: Comment, listings: seq<Listing>, stamp: string)
    returns (outcome: Result<Option<string>>)
    ensures outcome == Respond(processed, c, listings, stamp)
  {
    if c.id in processed || !Contains(c.body, Trigger) {
      return Success(None);
    }
    var tokens := Tokens(c.body);
    var parsed := ParseParameters(tokens);
    if parsed.Failure? {
      RespondCrash(processed, c, listings, stamp);
      return Failure(parsed.error);
    }
    var answer := FilterPosts(parsed.value, listings, stamp);
    if answer.Failure? {
      RespondCrash(processed, c, listings, stamp);
      return Failure(answer.error);
    }
    RespondReply(processed, c, listings, stamp, parsed.value);
    if answer.value.count == 0 {
      outcome := Success(Some(NoJobsMessage));
    } else {
      outcome := Success(Some(answer.value.message));
    }
  }

  /** A new comment with the trigger and a well-formed command gets the table, or the fixed message when no row fits. */
  lemma {:induction false} RespondReply(processed: seq<string>, c: Comment, listings: seq<Listing>, stamp: string, p: Params)
    requires c.id !in processed && Contains(c.body, Trigger)
    requires ParseCommand(Tokens(c.body)) == Success(p)
    requires !(p.location.None? && |listings| > 0)
    ensures Respond(processed, c, listings, stamp) == Success(Some(ReplyText(p, listings, stamp)))
  {
  }

  /** A new comment with the trigger whose command raises stops the run with that exception. */
  lemma {:induction false} RespondCrash(processed: seq<string>, c: Comment, listings: seq<Listing>, stamp: string)
    requires c.id !in processed && Contains(c.body, Trigger)
    ensures ParseCommand(Tokens(c.body)).Failure? ==>
      Respond(processed, c, listings, stamp) == Failure(ParseCommand(Tokens(c.body)).error)
    ensures ParseCommand(Tokens(c.body)).Success? && ParseCommand(Tokens(c.body)).value.location.None? && |listings| > 0 ==>
      Respond(processed, c, listings, stamp) == Failure(KeyError)
  {
  }

  /** One more comment: the run goes on from where it was, unless it already stopped. */
  lemma {:induction false} AnswersStep(processed: seq<string>, cs: seq<Comment>, listings: seq<Listing>, stamp: string, i: nat)
    requires i < |cs|
    ensures var earlier := Answers(processed, cs[..i], listings, stamp);
      Answers(processed, cs[..i + 1], listings, stamp)
      == if earlier.crashed.Some? then earlier
         else match Respond(processed, cs[i], listings, stamp)
           case Failure(e) => Run(earlier.replies, Some(e))
           case Success(None) => earlier
           case Success(Some(text)) => Run(earlier.replies + [Reply(cs[i].id, text)], None)
  {
    assert cs[..i + 1][..i] == cs[..i];
  }

  lemma {:induction false} IdLinesStep(rs: seq<Reply>, r: Reply)
    ensures IdLines(rs + [r]) == IdLines(rs) + (r.id + "\n")
  {
    assert (rs + [r])[..|rs|] == rs;
  }

  /** Once a run has stopped, the later comments change nothing. */
  lemma {:induction false} AnswersStayCrashed(processed: seq<string>, cs: seq<Comment>, listings: seq<Listing>, stamp: string, k: nat)
    requires k <= |cs|
    requires Answers(processed, cs[..k], listings, stamp).crashed.Some?
    ensures Answers(processed, cs, listings, stamp) == Answers(processed, cs[..k], listings, stamp)
    decreases |cs| - k
  {
    if k < |cs| {
      var init := cs[..|cs| - 1];
      assert init[..k] == cs[..k];
      AnswersStayCrashed(processed, init, listings, stamp, k);
    } else {
      assert cs[..k] == cs;
    }
  }

  // ---------------------------------------------------------------- the comments log across runs

  /** A log the bot wrote: empty, or ending with the newline of its last id. */
  predicate WellTerminated(text: string)
  {
    text == [] || text[|text| - 1] == '\n'
  }

  /** Respond answers only new comments with the trigger. */
  lemma {:induction false} RespondAnswersNew(processed: seq<string>, c: Comment, listings: seq<Listing>, stamp: string)
    ensures Respond(processed, c, listings, stamp).Success? && Respond(processed, c, listings, stamp).value.Some?
      ==> c.id !in processed && Contains(c.body, Trigger)
  {
  }

  /** `r` answers one of the comments `cs` that holds the trigger and whose id is not among `processed`. */
  predicate AnswersNewComment(r: Reply, processed: seq<string>, cs: seq<Comment>)
  {
    r.id !in processed && exists j :: 0 <= j < |cs| && cs[j].id == r.id && Contains(cs[j].body, Trigger)
  }

  /** Every reply answers a comment of the run that holds the trigger and was not logged before. */
  lemma {:induction false} RepliesAreNew(processed: seq<string>, cs: seq<Comment>, listings: seq<Listing>, stamp: string)
    ensures forall k :: 0 <= k < |Answers(processed, cs, listings, stamp).replies| ==>
      AnswersNewComment(Answers(processed, cs, listings, stamp).replies[k], processed, cs)
    decreases |cs|
  {
    if cs != [] {
      var init := cs[..|cs| - 1];
      var c := cs[|cs| - 1];
      RepliesAreNew(processed, init, listings, stamp);
      var earlier := Answers(processed, init, listings, stamp);
      assert forall k :: 0 <= k < |earlier.replies| ==> AnswersNewComment(earlier.replies[k], processed, init);
      forall k | 0 <= k < |earlier.replies| ensures AnswersNewComment(earlier.replies[k], processed, cs) {
        assert AnswersNewComment(earlier.replies[k], processed, init);
        var j :| 0 <= j < |init| && init[j].id == earlier.replies[k].id && Contains(init[j].body, Trigger);
        assert cs[j] == init[j];
      }
      if earlier.crashed.None? {
        match Respond(processed, c, listings, stamp)
        case Failure(_) =>
        case Success(None) =>
        case Success(Some(text)) =>
          RespondAnswersNew(processed, c, listings, stamp);
          assert AnswersNewComment(Reply(c.id, text), processed, cs) by {
            assert cs[|cs| - 1] == c;
          }
      }
    }
  }

  lemma {:induction false} SplitTerminated(text: string)
    requires WellTerminated(text)
    ensures Split(text, '\n')[|Split(text, '\n')| - 1] == ""
  {
    if text != [] {
      var init := text[..|text| - 1];
      assert text == init + ['\n'] + "";
      SplitAround(init, "", '\n');
    }
  }

  /** Appending one id line to a well-terminated log replaces its final empty piece by the id and a new empty piece. */
  lemma {:induction false} SplitAppendLine(text: string, id: string)
    requires WellTerminated(text) && '\n' !in id
    ensures var parts := Split(text, '\n');
      Split(text + (id + "\n"), '\n') == parts[..|parts| - 1] + [id] + [""]
  {
    SplitWithoutSeparator(id, '\n');
    SplitAround(id, "", '\n');
    assert id + "\n" == id + ['\n'] + "";
    if text == [] {
      assert text + (id + "\n") == id + "\n";
    } else {
      var init := text[..|text| - 1];
      assert text == init + ['\n'] + "";
      SplitAround(init, "", '\n');
      assert text + (id + "\n") == init + ['\n'] + (id + "\n");
      SplitAround(init, id + "\n", '\n');
      assert (Split(init, '\n') + [""])[..|Split(init, '\n')|] == Split(init, '\n');
    }
  }

  /** The pieces of the log after the replies: the earlier lines, then one per reply, then the empty piece after the last newline. */
  lemma {:induction false} LogAfterReplies(text: string, rs: seq<Reply>)
    requires WellTerminated(text)
    requires forall k :: 0 <= k < |rs| ==> '\n' !in rs[k].id
    ensures var parts := Split(text, '\n');
      Split(text + IdLines(rs), '\n') == parts[..|parts| - 1] + Ids(rs) + [""]
    ensures WellTerminated(text + IdLines(rs))
    decreases |rs|
  {
    if rs == [] {
      var parts := Split(text, '\n');
      assert text + IdLines(rs) == text;
      SplitTerminated(text);
      assert parts == parts[..|parts| - 1] + [parts[|parts| - 1]];
    } else {
      var init := rs[..|rs| - 1];
      LogAfterReplies(text, init);
      LogAfterOneMore(text, init, rs[|rs| - 1]);
      assert init + [rs[|rs| - 1]] == rs;
    }
  }

  lemma {:induction false} LogAfterOneMore(text: string, init: seq<Reply>, r: Reply)
    requires '\n' !in r.id
    requires WellTerminated(text + IdLines(init))
    requires var parts := Split(text, '\n');
      Split(text + IdLines(init), '\n') == parts[..|parts| - 1] + Ids(init) + [""]
    ensures var parts := Split(text, '\n');
      Split(text + IdLines(init + [r]), '\n') == parts[..|parts| - 1] + Ids(init + [r]) + [""]
    ensures WellTerminated(text + IdLines(init + [r]))
  {
    var parts := Split(text, '\n');
    var before := text + IdLines(init);
    IdLinesStep(init, r);
    AppendAssoc(text, IdLines(init), r.id + "\n");
    SplitAppendLine(before, r.id);
    var pieces := parts[..|parts| - 1] + Ids(init) + [""];
    assert pieces[..|pieces| - 1] == parts[..|parts| - 1] + Ids(init);
    assert Ids(init + [r]) == Ids(init) + [r.id];
  }

  /** Which ids the next run finds in the log: the ids found before, the ids just answered, and the empty line. */
  lemma {:induction false} ProcessedAfterRun(log: Option<string>, rs: seq<Reply>)
    requires WellTerminated(LogText(log))
    requires forall k :: 0 <= k < |rs| ==> '\n' !in rs[k].id
    ensures forall x ::
      x in Processed(Some(LogText(log) + IdLines(rs))) <==> x in Processed(log) || x in Ids(rs) || x == ""
  {
    var text := LogText(log);
    var parts := Split(text, '\n');
    LogAfterReplies(text, rs);
    SplitTerminated(text);
    assert parts == parts[..|parts| - 1] + [""];
    if log.None? {
      assert parts == [""];
    }
  }

  /**
   * Comments skipped or answered by a run are skipped by a run that knows
   * at least the same ids and the ids answered.
   */
  lemma {:induction false} QuietRerun(first: seq<string>, second: seq<string>, cs: seq<Comment>,
                                      listings: seq<Listing>, stamp: string, n: nat)
    requires n <= |cs|
    requires forall x :: x in first ==> x in second
    requires Answers(first, cs[..n], listings, stamp).crashed.None?
    requires forall k :: 0 <= k < |Answers(first, cs[..n], listings, stamp).replies| ==>
      Answers(first, cs[..n], listings, stamp).replies[k].id in second
    ensures Answers(second, cs[..n], listings, stamp) == Run([], None)
    decreases n
  {
    if n == 0 {
      assert cs[..0] == [];
    } else {
      var i := n - 1;
      AnswersStep(first, cs, listings, stamp, i);
      AnswersStep(second, cs, listings, stamp, i);
      var earlier := Answers(first, cs[..i], listings, stamp);
      var now := Answers(first, cs[..n], listings, stamp);
      assert earlier.crashed.None?;
      assert forall k :: 0 <= k < |earlier.replies| ==> earlier.replies[k] == now.replies[k];
      QuietRerun(first, second, cs, listings, stamp, i);
      match Respond(first, cs[i], listings, stamp)
      case Success(None) =>
      case Success(Some(text)) =>
        assert now.replies[|now.replies| - 1].id == cs[i].id;
      case Failure(_) =>
    }
  }

  /**
   * A comment is answered once: after a run that did not stop, with the ids
   * it answered appended to the log, running again over the same comments
   * answers none of them.
   */
  lemma {:induction false} AnsweredOnce(log: Option<string>, cs: seq<Comment>, listings: seq<Listing>, stamp: string)
    requires WellTerminated(LogText(log))
    requires forall j :: 0 <= j < |cs| ==> '\n' !in cs[j].id
    requires Answers(Processed(log), cs, listings, stamp).crashed.None?
    ensures var run := Answers(Processed(log), cs, listings, stamp);
      Answers(Processed(Some(LogText(log) + IdLines(run.replies))), cs, listings, stamp) == Run([], None)
  {
    var first := Processed(log);
    var rs := Answers(first, cs, listings, stamp).replies;
    RepliesIds(first, cs, listings, stamp);
    ProcessedAfterRun(log, rs);
    var second := Processed(Some(LogText(log) + IdLines(rs)));
    forall k | 0 <= k < |rs| ensures rs[k].id in second {
      assert Ids(rs)[k] == rs[k].id;
    }
    assert cs[..|cs|] == cs;
    QuietRerun(first, second, cs, listings, stamp, |cs|);
  }

  /** The ids of the replies are ids of the comments, so they hold no newline when those do not. */
  lemma {:induction false} RepliesIds(processed: seq<string>, cs: seq<Comment>, listings: seq<Listing>, stamp: string)
    requires forall j :: 0 <= j < |cs| ==> '\n' !in cs[j].id
    ensures var rs := Answers(processed, cs, listings, stamp).replies;
      forall k :: 0 <= k < |rs| ==> '\n' !in rs[k].id
  {
    RepliesAreNew(processed, cs, listings, stamp);
  }

  /** The comment at which a run stopped: everything before it ran normally and the run ends with its exception. */
  lemma {:induction false} CrashPoint(processed: seq<string>, cs: seq<Comment>, listings: seq<Listing>, stamp: string)
    returns (k: nat)
    requires Answers(processed, cs, listings, stamp).crashed.Some?
    ensures k < |cs|
    ensures Answers(processed, cs[..k], listings, stamp).crashed.None?
    ensures Respond(processed, cs[k], listings, stamp) == Failure(Answers(processed, cs, listings, stamp).crashed.value)
    ensures Answers(processed, cs, listings, stamp).replies == Answers(processed, cs[..k], listings, stamp).replies
    decreases |cs|
  {
    var init := cs[..|cs| - 1];
    var earlier := Answers(processed, init, listings, stamp);
    if earlier.crashed.Some? {
      k := CrashPoint(processed, init, listings, stamp);
      assert init[..k] == cs[..k];
      assert init[k] == cs[k];
    } else {
      k := |cs| - 1;
      assert cs[..k] == init;
    }
  }

  /**
   * A command that raises stops the bot for good: with distinct, non-empty
   * comment ids, the next run over the same comments posts nothing and stops
   * at the same comment with the same exception, so no later comment is ever
   * answered.
   */
  lemma {:induction false} CrashRepeats(log: Option<string>, cs: seq<Comment>, listings: seq<Listing>, stamp: string)
    requires WellTerminated(LogText(log))
    requires forall j :: 0 <= j < |cs| ==> '\n' !in cs[j].id && cs[j].id != ""
    requires forall i, j :: 0 <= i < j < |cs| ==> cs[i].id != cs[j].id
    requires Answers(Processed(log), cs, listings, stamp).crashed.Some?
    ensures var run := Answers(Processed(log), cs, listings, stamp);
      Answers(Processed(Some(LogText(log) + IdLines(run.replies))), cs, listings, stamp) == Run([], run.crashed)
  {
    var first := Processed(log);
    var run := Answers(first, cs, listings, stamp);
    var rs := run.replies;
    var k := CrashPoint(first, cs, listings, stamp);
    RepliesIds(first, cs, listings, stamp);
    ProcessedAfterRun(log, rs);
    var second := Processed(Some(LogText(log) + IdLines(rs)));
    forall m | 0 <= m < |rs| ensures rs[m].id in second {
      assert Ids(rs)[m] == rs[m].id;
    }
    QuietRerun(first, second, cs, listings, stamp, k);
    assert cs[k].id !in Ids(rs) by {
      RepliesAreNew(first, cs[..k], listings, stamp);
      forall m | 0 <= m < |rs| ensures rs[m].id != cs[k].id {
        assert AnswersNewComment(rs[m], first, cs[..k]);
        var j :| 0 <= j < k && cs[..k][j].id == rs[m].id && Contains(cs[..k][j].body, Trigger);
        assert cs[j].id == rs[m].id;
      }
    }
    assert cs[k].id !in second;
    assert Respond(second, cs[k], listings, stamp) == Respond(first, cs[k], listings, stamp);
    AnswersStep(second, cs, listings, stamp, k);
    AnswersStayCrashed(second, cs, listings, stamp, k + 1);
  }
}
