/**
 * The help index of a root command (core CommandHelp): the visible help list,
 * per-entry search scores, the stable ranking by score and the pages shown.
 */
module Help {
  import opened Wrappers
  import opened Text
  import opened Commands

  /** One help line: the command and its current search score. */
  datatype HelpEntry = HelpEntry(command: RegisteredCommand, searchScore: int)

  /** What showHelp sends to the issuer, in order. */
  datatype HelpMessage =
    | NoCommandMatchedSearch(search: Option<seq<string>>)
    | HelpNoResults
    | HelpLine(entry: HelpEntry)
    | HelpPageInformation(page: int, totalPages: int, results: int)

  const INT_MAX: int := 0x7fff_ffff

  function Max0(x: int): nat { if x < 0 then 0 else x }

  /** `x` moved into the range [lo, hi]. */
  function Clamp(x: int, lo: int, hi: int): (r: int)
    requires lo <= hi
    ensures lo <= r <= hi
  {
    if x < lo then lo else if x > hi then hi else x
  }

  // ----- The visible help list ---------------------------------------------

  /** A sub-command entry yields a help line: not an internal key, and permitted. */
  predicate Listed(e: SubCommandEntry, hasPermission: RegisteredCommand -> bool) {
    e.0 != DEFAULT && e.0 != CATCHUNKNOWN && hasPermission(e.1)
  }

  /** The commands of the help list, in the order the constructor adds them. */
  function HelpCommands(subCommands: seq<SubCommandEntry>, hasPermission: RegisteredCommand -> bool): seq<RegisteredCommand> {
    if |subCommands| == 0 then []
    else
      var n := |subCommands| - 1;
      var prev := HelpCommands(subCommands[..n], hasPermission);
      if Listed(subCommands[n], hasPermission) && subCommands[n].1 !in prev then prev + [subCommands[n].1] else prev
  }

  /**
   * The help list holds no command twice; every command in it is reachable
   * under a key other than `__default`/`__catchunknown` and is permitted; and
   * every such command is in it.
   */
  lemma {:induction false} HelpCommandsSpec(subCommands: seq<SubCommandEntry>, hasPermission: RegisteredCommand -> bool)
    ensures NoDuplicates(HelpCommands(subCommands, hasPermission))
    ensures forall c :: c in HelpCommands(subCommands, hasPermission) ==>
              exists k :: 0 <= k < |subCommands| && Listed(subCommands[k], hasPermission) && subCommands[k].1 == c
    ensures forall k :: 0 <= k < |subCommands| && Listed(subCommands[k], hasPermission) ==>
              subCommands[k].1 in HelpCommands(subCommands, hasPermission)
  {
    if |subCommands| > 0 {
      var n := |subCommands| - 1;
      var pre := subCommands[..n];
      HelpCommandsSpec(pre, hasPermission);
      assert forall k :: 0 <= k < n ==> pre[k] == subCommands[k];
    }
  }

  function EntryCommands(entries: seq<HelpEntry>): (r: seq<RegisteredCommand>)
    ensures |r| == |entries| && forall i :: 0 <= i < |entries| ==> r[i] == entries[i].command
  {
    seq(|entries|, i requires 0 <= i < |entries| => entries[i].command)
  }

  // ----- Search scores -----------------------------------------------------

  /** +3 if the sub-command contains the word, else +1 if the word contains the sub-command. */
  function SubCommandScore(word: string, subCmd: string): nat {
    if ContainsIgnoreCase(subCmd, word) then 3 else if ContainsIgnoreCase(word, subCmd) then 1 else 0
  }

  function SubCommandsScore(word: string, subCmds: seq<string>): nat {
    if |subCmds| == 0 then 0
    else SubCommandsScore(word, subCmds[..|subCmds| - 1]) + SubCommandScore(word, subCmds[|subCmds| - 1])
  }

  /** What one search word adds to a command's score. */
  function WordScore(word: string, cmd: RegisteredCommand): nat {
    SubCommandsScore(word, cmd.registeredSubcommands)
    + (if ContainsIgnoreCase(cmd.description, word) then 2 else 0)
    + (if ContainsIgnoreCase(cmd.parameterSyntax, word) then 1 else 0)
    + (if cmd.searchTags.Some? && ContainsIgnoreCase(cmd.searchTags.value, word) then 2 else 0)
  }

  function WordsScore(words: seq<string>, cmd: RegisteredCommand): nat {
    if |words| == 0 then 0 else WordsScore(words[..|words| - 1], cmd) + WordScore(words[|words| - 1], cmd)
  }

  /** The score updateSearchScore gives: 1 for a null or empty search, else the sum over the words. */
  function SearchScore(search: Option<seq<string>>, cmd: RegisteredCommand): nat {
    if search.None? || |search.value| == 0 then 1 else WordsScore(search.value, cmd)
  }

  /** Inserting a word anywhere in the search adds exactly that word's score. */
  lemma {:induction false} WordsScoreInsert(before: seq<string>, word: string, after: seq<string>, cmd: RegisteredCommand)
    ensures WordsScore(before + [word] + after, cmd) == WordsScore(before + after, cmd) + WordScore(word, cmd)
    decreases |after|
  {
    if |after| == 0 {
      assert before + [word] + after == before + [word];
      assert (before + [word])[..|before|] == before;
      assert before + after == before;
    } else {
      var n := |after| - 1;
      var s1 := before + [word] + after;
      var s2 := before + after;
      assert s1[..|s1| - 1] == before + [word] + after[..n];
      assert s2[..|s2| - 1] == before + after[..n];
      WordsScoreInsert(before, word, after[..n], cmd);
    }
  }

  /** Adding a word to a non-empty search never lowers a score. */
  lemma SearchScoreMonotone(before: seq<string>, word: string, after: seq<string>, cmd: RegisteredCommand)
    requires |before + after| > 0
    ensures SearchScore(Some(before + [word] + after), cmd) >= SearchScore(Some(before + after), cmd)
  {
    WordsScoreInsert(before, word, after, cmd);
  }

  /** The sub-commands add something for a word iff one of them matches it in either direction. */
  lemma {:induction false} SubCommandsScorePositive(word: string, subCmds: seq<string>)
    ensures SubCommandsScore(word, subCmds) > 0 <==>
            exists i :: 0 <= i < |subCmds| && (ContainsIgnoreCase(subCmds[i], word) || ContainsIgnoreCase(word, subCmds[i]))
  {
    if |subCmds| > 0 {
      var n := |subCmds| - 1;
      SubCommandsScorePositive(word, subCmds[..n]);
      assert forall i :: 0 <= i < n ==> subCmds[..n][i] == subCmds[i];
    }
  }

  /** A word scores for a command iff it matches a sub-command, the description, the syntax or the tags. */
  lemma WordScorePositive(word: string, cmd: RegisteredCommand)
    ensures WordScore(word, cmd) > 0 <==>
            (exists i :: 0 <= i < |cmd.registeredSubcommands| &&
               (ContainsIgnoreCase(cmd.registeredSubcommands[i], word) || ContainsIgnoreCase(word, cmd.registeredSubcommands[i])))
            || ContainsIgnoreCase(cmd.description, word)
            || ContainsIgnoreCase(cmd.parameterSyntax, word)
            || (cmd.searchTags.Some? && ContainsIgnoreCase(cmd.searchTags.value, word))
  {
    SubCommandsScorePositive(word, cmd.registeredSubcommands);
  }

  // ----- Stable ranking by descending score --------------------------------

  /** `stream().filter(HelpEntry::shouldShow)`; shouldShow is not part of this model. */
  function Filter(entries: seq<HelpEntry>, shouldShow: HelpEntry -> bool): seq<HelpEntry> {
    if |entries| == 0 then []
    else (if shouldShow(entries[0]) then [entries[0]] else []) + Filter(entries[1..], shouldShow)
  }

  predicate SortedByScore(s: seq<HelpEntry>) {
    forall i, j :: 0 <= i < j < |s| ==> s[i].searchScore >= s[j].searchScore
  }

  /** The entries with score `v`, in order: a stable sort keeps each of these unchanged. */
  function WithScore(s: seq<HelpEntry>, v: int): seq<HelpEntry> {
    if |s| == 0 then [] else (if s[0].searchScore == v then [s[0]] else []) + WithScore(s[1..], v)
  }

  /** Places `e` after every entry scoring at least as high. */
  function Insert(sorted: seq<HelpEntry>, e: HelpEntry): seq<HelpEntry> {
    if |sorted| == 0 then [e]
    else if sorted[0].searchScore >= e.searchScore then [sorted[0]] + Insert(sorted[1..], e)
    else [e] + sorted
  }

  /** `sorted(comparingInt(e -> e.getSearchScore() * -1))`: a stable sort, highest score first. */
  function SortByScore(s: seq<HelpEntry>): seq<HelpEntry> {
    if |s| == 0 then [] else Insert(SortByScore(s[..|s| - 1]), s[|s| - 1])
  }

  /** Insertion adds exactly the inserted entry. */
  lemma {:induction false} InsertMultiset(sorted: seq<HelpEntry>, e: HelpEntry)
    ensures multiset(Insert(sorted, e)) == multiset(sorted) + multiset{e}
  {
    if |sorted| > 0 && sorted[0].searchScore >= e.searchScore {
      InsertMultiset(sorted[1..], e);
      assert sorted == [sorted[0]] + sorted[1..];
    }
  }

  /** Insertion into a sorted list keeps it sorted. */
  lemma {:induction false} InsertSorted(sorted: seq<HelpEntry>, e: HelpEntry)
    requires SortedByScore(sorted)
    ensures SortedByScore(Insert(sorted, e))
  {
    if |sorted| > 0 && sorted[0].searchScore >= e.searchScore {
      var rest := Insert(sorted[1..], e);
      InsertSorted(sorted[1..], e);
      InsertMultiset(sorted[1..], e);
      forall j | 0 <= j < |rest| ensures sorted[0].searchScore >= rest[j].searchScore {
        assert rest[j] in multiset(rest);
        assert rest[j] in sorted[1..] || rest[j] == e;
      }
    }
  }

  lemma {:induction false} WithScoreAppend(a: seq<HelpEntry>, b: seq<HelpEntry>, v: int)
    ensures WithScore(a + b, v) == WithScore(a, v) + WithScore(b, v)
  {
    if |a| > 0 {
      assert (a + b)[1..] == a[1..] + b;
      WithScoreAppend(a[1..], b, v);
    } else {
      assert a + b == b;
    }
  }

  lemma {:induction false} WithScoreNone(s: seq<HelpEntry>, v: int)
    requires forall i :: 0 <= i < |s| ==> s[i].searchScore < v
    ensures WithScore(s, v) == []
  {
    if |s| > 0 { WithScoreNone(s[1..], v); }
  }

  lemma SortedTail(sorted: seq<HelpEntry>)
    requires |sorted| > 0 && SortedByScore(sorted)
    ensures SortedByScore(sorted[1..])
    ensures forall i :: 0 <= i < |sorted| ==> sorted[i].searchScore <= sorted[0].searchScore
  {
    forall i, j | 0 <= i < j < |sorted| - 1 ensures sorted[1..][i].searchScore >= sorted[1..][j].searchScore {
      assert sorted[1..][i] == sorted[i + 1] && sorted[1..][j] == sorted[j + 1];
    }
  }

  lemma {:induction false} InsertStable(sorted: seq<HelpEntry>, e: HelpEntry, v: int)
    requires SortedByScore(sorted)
    ensures WithScore(Insert(sorted, e), v) == WithScore(sorted, v) + (if e.searchScore == v then [e] else [])
  {
    if |sorted| == 0 {
      assert Insert(sorted, e) == [e];
      assert [e][1..] == [];
    } else if sorted[0].searchScore >= e.searchScore {
      SortedTail(sorted);
      var rest := Insert(sorted[1..], e);
      var extra := if e.searchScore == v then [e] else [];
      calc {
        WithScore(Insert(sorted, e), v);
        WithScore([sorted[0]] + rest, v);
        { WithScoreAppend([sorted[0]], rest, v); }
        WithScore([sorted[0]], v) + WithScore(rest, v);
        { InsertStable(sorted[1..], e, v); }
        WithScore([sorted[0]], v) + (WithScore(sorted[1..], v) + extra);
        { WithScoreAppend([sorted[0]], sorted[1..], v); assert sorted == [sorted[0]] + sorted[1..]; }
        WithScore(sorted, v) + extra;
      }
    } else {
      assert Insert(sorted, e) == [e] + sorted;
      WithScoreAppend([e], sorted, v);
      assert [e][1..] == [];
      if e.searchScore == v {
        SortedTail(sorted);
        WithScoreNone(sorted, v);
      }
    }
  }

  /** The ranking is a permutation of its input. */
  lemma {:induction false} SortByScorePermutation(s: seq<HelpEntry>)
    ensures multiset(SortByScore(s)) == multiset(s)
  {
    if |s| > 0 {
      var n := |s| - 1;
      SortByScorePermutation(s[..n]);
      InsertMultiset(SortByScore(s[..n]), s[n]);
      assert s == s[..n] + [s[n]];
    }
  }

  /** The ranking puts the highest score first. */
  lemma {:induction false} SortByScoreSorted(s: seq<HelpEntry>)
    ensures SortedByScore(SortByScore(s))
  {
    if |s| > 0 {
      SortByScoreSorted(s[..|s| - 1]);
      InsertSorted(SortByScore(s[..|s| - 1]), s[|s| - 1]);
    }
  }

  /** Entries with equal scores keep their relative order. */
  lemma {:induction false} SortByScoreStable(s: seq<HelpEntry>, v: int)
    ensures WithScore(SortByScore(s), v) == WithScore(s, v)
  {
    if |s| > 0 {
      var n := |s| - 1;
      var extra := if s[n].searchScore == v then [s[n]] else [];
      calc {
        WithScore(SortByScore(s), v);
        WithScore(Insert(SortByScore(s[..n]), s[n]), v);
        { SortByScoreSorted(s[..n]); InsertStable(SortByScore(s[..n]), s[n], v); }
        WithScore(SortByScore(s[..n]), v) + extra;
        { SortByScoreStable(s[..n], v); }
        WithScore(s[..n], v) + extra;
        { assert [s[n]][1..] == []; }
        WithScore(s[..n], v) + WithScore([s[n]], v);
        { WithScoreAppend(s[..n], [s[n]], v); assert s == s[..n] + [s[n]]; }
        WithScore(s, v);
      }
    }
  }

  /**
   * The ranking is a permutation of its input, highest score first, and
   * entries with equal scores keep their relative order.
   */
  lemma SortByScoreSpec(s: seq<HelpEntry>)
    ensures multiset(SortByScore(s)) == multiset(s)
    ensures SortedByScore(SortByScore(s))
    ensures forall v :: WithScore(SortByScore(s), v) == WithScore(s, v)
  {
    SortByScorePermutation(s);
    SortByScoreSorted(s);
    forall v ensures WithScore(SortByScore(s), v) == WithScore(s, v) {
      SortByScoreStable(s, v);
    }
  }

  // ----- Pages -------------------------------------------------------------

  /**
   * `(int) Math.ceil((float) total / (float) perPage)` in exact arithmetic:
   * a zero divisor gives +Infinity (Integer.MAX_VALUE) or NaN (0).
   */
  function TotalPages(total: nat, perPage: int): int {
    if perPage > 0 then (total + perPage - 1) / perPage
    else if perPage == 0 then (if total == 0 then 0 else INT_MAX)
    else -(total / -perPage)
  }

  /** For a positive page size the page count is the ceiling of total / perPage. */
  lemma TotalPagesIsCeiling(total: nat, perPage: int)
    requires perPage > 0
    ensures (TotalPages(total, perPage) - 1) * perPage < total <= TotalPages(total, perPage) * perPage
  {
    var c := TotalPages(total, perPage);
    var r := (total + perPage - 1) % perPage;
    assert total + perPage - 1 == c * perPage + r;
    assert (c - 1) * perPage == c * perPage - perPage;
  }

  /** The entries walked for a page: the ranked shown entries, or all entries when none is shown. */
  function Results(entries: seq<HelpEntry>, shouldShow: HelpEntry -> bool): seq<HelpEntry> {
    var shown := SortByScore(Filter(entries, shouldShow));
    if |shown| > 0 then shown else entries
  }

  function HelpLines(es: seq<HelpEntry>): (r: seq<HelpMessage>)
    ensures |r| == |es| && forall i :: 0 <= i < |es| ==> r[i] == HelpLine(es[i])
  {
    seq(|es|, i requires 0 <= i < |es| => HelpLine(es[i]))
  }

  /** The first sorted position of a page. */
  function PageStart(page: int, perPage: int): int { (page - 1) * perPage }

  /** The half-open range of sorted positions a page shows. */
  function PageLow(page: int, perPage: int, n: nat): nat
  {
    Clamp(PageStart(page, perPage), 0, n)
  }

  function PageHigh(page: int, perPage: int, n: nat): (r: nat)
    ensures PageLow(page, perPage, n) <= r <= n
  {
    Clamp(PageStart(page, perPage) + perPage, PageLow(page, perPage, n), n)
  }

  /**
   * The messages showHelp sends: "no command matched" when nothing is shown,
   * then "no results" when the page starts past all entries, otherwise the
   * entries of the page and, when there is an earlier or a later page, the
   * page information.
   */
  function HelpPage(entries: seq<HelpEntry>, shouldShow: HelpEntry -> bool, search: Option<seq<string>>, page: int, perPage: int): seq<HelpMessage> {
    var matched := |SortByScore(Filter(entries, shouldShow))| > 0;
    var results := Results(entries, shouldShow);
    var prefix := if matched then [] else [NoCommandMatchedSearch(search)];
    var total := |entries|;
    var min := PageStart(page, perPage);
    if min >= total then prefix + [HelpNoResults]
    else
      prefix
      + HelpLines(results[PageLow(page, perPage, |results|)..PageHigh(page, perPage, |results|)])
      + (if min > 0 || |results| > Max0(min + perPage)
         then [HelpPageInformation(page, TotalPages(total, perPage), total)] else [])
  }

  /** Where the page walk stops, it has passed exactly the page's positions. */
  lemma PageRange<T>(results: seq<T>, page: int, perPage: int, i: nat)
    requires i <= |results| && i <= Max0(PageStart(page, perPage) + perPage)
    requires i == |results| || i == Max0(PageStart(page, perPage) + perPage)
    ensures results[Clamp(PageStart(page, perPage), 0, i)..i] ==
            results[PageLow(page, perPage, |results|)..PageHigh(page, perPage, |results|)]
  {
  }

  /** The entries a message sequence shows, in order. */
  function ShownEntries(out: seq<HelpMessage>): seq<HelpEntry> {
    if |out| == 0 then [] else (if out[0].HelpLine? then [out[0].entry] else []) + ShownEntries(out[1..])
  }

  lemma {:induction false} ShownEntriesAppend(a: seq<HelpMessage>, b: seq<HelpMessage>)
    ensures ShownEntries(a + b) == ShownEntries(a) + ShownEntries(b)
  {
    if |a| > 0 {
      assert (a + b)[1..] == a[1..] + b;
      ShownEntriesAppend(a[1..], b);
    } else {
      assert a + b == b;
    }
  }

  lemma {:induction false} ShownHelpLines(es: seq<HelpEntry>)
    ensures ShownEntries(HelpLines(es)) == es
  {
    if |es| > 0 {
      assert HelpLines(es)[1..] == HelpLines(es[1..]);
      ShownHelpLines(es[1..]);
    }
  }

  function Count(out: seq<HelpMessage>, m: HelpMessage): nat {
    multiset(out)[m]
  }

  /**
   * A page shows the sorted positions [min, min + perPage) of the results
   * (clipped to the results), and none at all when the page starts at or past
   * the number of help entries.
   */
  lemma HelpPageShows(entries: seq<HelpEntry>, shouldShow: HelpEntry -> bool, search: Option<seq<string>>, page: int, perPage: int)
    ensures var results := Results(entries, shouldShow);
            ShownEntries(HelpPage(entries, shouldShow, search, page, perPage)) ==
              if PageStart(page, perPage) >= |entries| then []
              else results[PageLow(page, perPage, |results|)..PageHigh(page, perPage, |results|)]
  {
    var results := Results(entries, shouldShow);
    var out := HelpPage(entries, shouldShow, search, page, perPage);
    var matched := |SortByScore(Filter(entries, shouldShow))| > 0;
    var prefix: seq<HelpMessage> := if matched then [] else [NoCommandMatchedSearch(search)];
    var min := PageStart(page, perPage);
    assert ShownEntries(prefix) == [] by {
      if !matched { assert prefix[1..] == []; }
    }
    if min >= |entries| {
      ShownEntriesAppend(prefix, [HelpNoResults]);
      assert [HelpNoResults][1..] == [];
    } else {
      var lo, hi := PageLow(page, perPage, |results|), PageHigh(page, perPage, |results|);
      var info: seq<HelpMessage> := if min > 0 || |results| > Max0(min + perPage)
        then [HelpPageInformation(page, TotalPages(|entries|, perPage), |entries|)] else [];
      assert out == prefix + HelpLines(results[lo..hi]) + info;
      ShownEntriesAppend(prefix + HelpLines(results[lo..hi]), info);
      ShownEntriesAppend(prefix, HelpLines(results[lo..hi]));
      ShownHelpLines(results[lo..hi]);
      assert ShownEntries(info) == [] by {
        if |info| > 0 { assert info[1..] == []; }
      }
    }
  }

  /** A page never shows more than perPage entries. */
  lemma HelpPageSize(entries: seq<HelpEntry>, shouldShow: HelpEntry -> bool, search: Option<seq<string>>, page: int, perPage: int)
    ensures |ShownEntries(HelpPage(entries, shouldShow, search, page, perPage))| <= Max0(perPage)
  {
    HelpPageShows(entries, shouldShow, search, page, perPage);
  }

  /** With a shown entry, the page's entries are in descending score order. */
  lemma HelpPageSorted(entries: seq<HelpEntry>, shouldShow: HelpEntry -> bool, search: Option<seq<string>>, page: int, perPage: int)
    requires |Filter(entries, shouldShow)| > 0
    ensures SortedByScore(ShownEntries(HelpPage(entries, shouldShow, search, page, perPage)))
  {
    HelpPageShows(entries, shouldShow, search, page, perPage);
    RankedLength(entries, shouldShow);
    SortByScoreSorted(Filter(entries, shouldShow));
    var results := Results(entries, shouldShow);
    SortedSlice(results, PageLow(page, perPage, |results|), PageHigh(page, perPage, |results|));
  }

  lemma SortedSlice(s: seq<HelpEntry>, lo: nat, hi: nat)
    requires lo <= hi <= |s| && SortedByScore(s)
    ensures SortedByScore(s[lo..hi])
  {
    forall i, j | 0 <= i < j < hi - lo ensures s[lo..hi][i].searchScore >= s[lo..hi][j].searchScore {
      assert s[lo..hi][i] == s[lo + i] && s[lo..hi][j] == s[lo + j];
    }
  }

  /** The ranking shows as many entries as the filter keeps. */
  lemma RankedLength(entries: seq<HelpEntry>, shouldShow: HelpEntry -> bool)
    ensures |SortByScore(Filter(entries, shouldShow))| == |Filter(entries, shouldShow)|
  {
    SortByScoreSpec(Filter(entries, shouldShow));
    assert |multiset(SortByScore(Filter(entries, shouldShow)))| == |multiset(Filter(entries, shouldShow))|;
  }

  /** Help lines are the only messages between the prefix and the page information. */
  lemma HelpLinesOnly(es: seq<HelpEntry>)
    ensures forall m :: m in HelpLines(es) ==> m.HelpLine?
  {
  }

  /** "No command matched" is sent iff no entry is shown, and then every entry is walked in list order. */
  lemma NoMatchOutcome(entries: seq<HelpEntry>, shouldShow: HelpEntry -> bool, search: Option<seq<string>>, page: int, perPage: int)
    ensures NoCommandMatchedSearch(search) in HelpPage(entries, shouldShow, search, page, perPage) <==> |Filter(entries, shouldShow)| == 0
    ensures |Filter(entries, shouldShow)| == 0 ==> Results(entries, shouldShow) == entries
  {
    RankedLength(entries, shouldShow);
    var results := Results(entries, shouldShow);
    HelpLinesOnly(results[PageLow(page, perPage, |results|)..PageHigh(page, perPage, |results|)]);
  }

  /** "No results" is sent iff the page starts at or past the number of help entries. */
  lemma NoResultsOutcome(entries: seq<HelpEntry>, shouldShow: HelpEntry -> bool, search: Option<seq<string>>, page: int, perPage: int)
    ensures HelpNoResults in HelpPage(entries, shouldShow, search, page, perPage) <==> PageStart(page, perPage) >= |entries|
  {
    var results := Results(entries, shouldShow);
    HelpLinesOnly(results[PageLow(page, perPage, |results|)..PageHigh(page, perPage, |results|)]);
  }

  /** Page information is sent iff the page exists and has entries before it or results after it. */
  lemma PageInformationOutcome(entries: seq<HelpEntry>, shouldShow: HelpEntry -> bool, search: Option<seq<string>>, page: int, perPage: int)
    ensures var min := PageStart(page, perPage);
            HelpPageInformation(page, TotalPages(|entries|, perPage), |entries|) in HelpPage(entries, shouldShow, search, page, perPage) <==>
            min < |entries| && (min > 0 || |Results(entries, shouldShow)| > Max0(min + perPage))
  {
    var results := Results(entries, shouldShow);
    HelpLinesOnly(results[PageLow(page, perPage, |results|)..PageHigh(page, perPage, |results|)]);
  }

  /**
   * The as-written page walk of showHelp: the loop takes the next entry
   * before testing `i >= max`, so an entry is consumed at the break.
   */
  method WalkAsWritten(n: nat, min: int, max: int) returns (emitted: seq<nat>, hasNext: bool)
    ensures hasNext == (n > Max0(max) + 1)
    ensures emitted == PositionsBetween(Clamp(min, 0, Max0(max)), Clamp(Max0(max), 0, n))
  {
    var i := 0;
    var taken := 0;
    emitted := [];
    while taken < n
      invariant taken == i <= Max0(max) && i <= n
      invariant emitted == PositionsBetween(Clamp(min, 0, Max0(max)), Clamp(i, 0, n))
    {
      var e := taken;
      taken := taken + 1;
      if i >= max {
        break;
      }
      var skip := i < min;
      i := i + 1;
      if skip {
        continue;
      }
      emitted := emitted + [e];
    }
    hasNext := taken < n;
  }

  /** The positions lo, lo + 1, ..., hi - 1 (none when hi <= lo). */
  function PositionsBetween(lo: nat, hi: nat): (r: seq<nat>)
    ensures |r| == if hi <= lo then 0 else hi - lo
    ensures forall k :: 0 <= k < |r| ==> r[k] == lo + k
    decreases hi - lo
  {
    if hi <= lo then [] else PositionsBetween(lo, hi - 1) + [hi - 1]
  }

  /**
   * With two shown entries and one per page, the as-written walk of page 1
   * shows the first entry only, so a page 2 exists; yet `min > 0 ||
   * results.hasNext()` is false and no page information is sent.
   */
  method AsWrittenMissesNextPage() returns (emitted: seq<nat>, pageInformation: bool)
    ensures emitted == [0] && !pageInformation
  {
    var min := PageStart(1, 1);
    var max := min + 1;
    var hasNext;
    emitted, hasNext := WalkAsWritten(2, min, max);
    assert PositionsBetween(0, 1) == [0];
    pageInformation := min > 0 || hasNext;
  }

  /** The corrected walk sends page information for the same two entries. */
  lemma CorrectedShowsNextPage(a: HelpEntry, b: HelpEntry, search: Option<seq<string>>)
    ensures var entries := [a, b];
            var showAll := (e: HelpEntry) => true;
            HelpPageInformation(1, 2, 2) in HelpPage(entries, showAll, search, 1, 1)
  {
    var entries := [a, b];
    var showAll := (e: HelpEntry) => true;
    assert Filter(entries, showAll) == [a, b] by {
      assert entries[1..] == [b];
      assert [b][1..] == [];
      assert Filter([b], showAll) == [b] + Filter([], showAll);
      assert Filter(entries, showAll) == [a] + Filter([b], showAll);
    }
    RankedLength(entries, showAll);
    PageInformationOutcome(entries, showAll, search, 1, 1);
  }

  /** The format replacements of one help line, as key/value pairs. */
  function FormatReplacements(e: HelpEntry): seq<string> {
    [ "{command}", e.command.command,
      "{parameters}", e.command.parameterSyntax,
      "{separator}", if e.command.description == "" then "" else "-",
      "{description}", e.command.description ]
  }

  /** The value that follows `key` in a key/value replacement list. */
  function Replacement(pairs: seq<string>, key: string): Option<string>
    decreases |pairs|
  {
    if |pairs| < 2 then None else if pairs[0] == key then Some(pairs[1]) else Replacement(pairs[2..], key)
  }

  /**
   * Each placeholder is replaced by the entry's command, parameter syntax and
   * description, and `{separator}` by "-" exactly when the description is not empty.
   */
  lemma FormatReplacementsSpec(e: HelpEntry)
    ensures Replacement(FormatReplacements(e), "{command}") == Some(e.command.command)
    ensures Replacement(FormatReplacements(e), "{parameters}") == Some(e.command.parameterSyntax)
    ensures Replacement(FormatReplacements(e), "{description}") == Some(e.command.description)
    ensures Replacement(FormatReplacements(e), "{separator}") == Some("-") <==> e.command.description != ""
    ensures Replacement(FormatReplacements(e), "{separator}") == Some("") <==> e.command.description == ""
  {
    var r := FormatReplacements(e);
    var sep := if e.command.description == "" then "" else "-";
    assert r[2..] == ["{parameters}", e.command.parameterSyntax, "{separator}", sep, "{description}", e.command.description];
    assert r[2..][2..] == ["{separator}", sep, "{description}", e.command.description];
    assert r[2..][2..][2..] == ["{description}", e.command.description];
    assert |"{separator}"| == 11 && |"{description}"| == 13 && |"{command}"| == 9 && |"{parameters}"| == 12;
    assert Replacement(r, "{separator}") == Replacement(r[2..], "{separator}") == Replacement(r[2..][2..], "{separator}");
    assert Replacement(r, "{description}") == Replacement(r[2..], "{description}");
    assert Replacement(r[2..], "{description}") == Replacement(r[2..][2..], "{description}");
    assert Replacement(r[2..][2..], "{description}") == Replacement(r[2..][2..][2..], "{description}");
  }

  /**
   * The page loop: walks the results, showing those at positions from `min`,
   * and stops at the end or once position `max` is reached.
   */
  method PageWalk(results: seq<HelpEntry>, min: int, max: int) returns (lines: seq<HelpMessage>, i: nat)
    ensures i <= |results| && i <= Max0(max) && (i == |results| || i == Max0(max))
    ensures lines == HelpLines(results[Clamp(min, 0, i)..i])
  {
    lines := [];
    i := 0;
    while i < |results|
      invariant 0 <= i <= |results| && i <= Max0(max)
      invariant lines == HelpLines(results[Clamp(min, 0, i)..i])
    {
      if i >= max {
        break;
      }
      if i >= min {
        assert results[Clamp(min, 0, i + 1)..i + 1] == results[Clamp(min, 0, i)..i] + [results[i]];
        lines := lines + [HelpLine(results[i])];
      } else {
        assert Clamp(min, 0, i + 1) == i + 1;
      }
      i := i + 1;
    }
  }

  /** The help of one root command for one issuer. */
  class CommandHelp {
    var helpEntries: seq<HelpEntry>
    var page: int
    var perPage: int
    var search: Option<seq<string>>

    /**
     * Walks the root's sub-command multimap in iteration order. `hasPermission`
     * is RegisteredCommand.hasPermission for the issuer, and `initialScore` the
     * score a new HelpEntry starts with; neither is part of this model.
     */
    constructor (defaultHelpPerPage: int, subCommands: seq<SubCommandEntry>,
                 hasPermission: RegisteredCommand -> bool, initialScore: int)
      ensures EntryCommands(helpEntries) == HelpCommands(subCommands, hasPermission)
      ensures forall i :: 0 <= i < |helpEntries| ==> helpEntries[i].searchScore == initialScore
      ensures page == 0 && perPage == defaultHelpPerPage && search == None
    {
      var entries: seq<HelpEntry> := [];
      var seen: set<RegisteredCommand> := {};
      var i := 0;
      while i < |subCommands|
        invariant 0 <= i <= |subCommands|
        invariant EntryCommands(entries) == HelpCommands(subCommands[..i], hasPermission)
        invariant forall c :: c in seen <==> c in EntryCommands(entries)
        invariant forall k :: 0 <= k < |entries| ==> entries[k].searchScore == initialScore
      {
        var key := subCommands[i].0;
        var regCommand := subCommands[i].1;
        assert subCommands[..i + 1][..i] == subCommands[..i];
        if key != DEFAULT && key != CATCHUNKNOWN && hasPermission(regCommand) && regCommand !in seen {
          entries := entries + [HelpEntry(regCommand, initialScore)];
          seen := seen + {regCommand};
        }
        i := i + 1;
      }
      assert subCommands[..i] == subCommands;
      helpEntries := entries;
      perPage := defaultHelpPerPage;
      page := 0;
      search := None;
    }

    /** The entry with its score recomputed for the current search. */
    method UpdateSearchScore(help: HelpEntry) returns (updated: HelpEntry)
      ensures updated == help.(searchScore := SearchScore(search, help.command))
    {
      if search.None? || |search.value| == 0 {
        return help.(searchScore := 1);
      }
      var words := search.value;
      var cmd := help.command;
      var subCmds := cmd.registeredSubcommands;
      var searchScore := 0;
      var i := 0;
      while i < |words|
        invariant 0 <= i <= |words|
        invariant searchScore == WordsScore(words[..i], cmd)
      {
        var word := words[i];
        var j := 0;
        while j < |subCmds|
          invariant 0 <= j <= |subCmds|
          invariant searchScore == WordsScore(words[..i], cmd) + SubCommandsScore(word, subCmds[..j])
        {
          var subCmd := subCmds[j];
          assert subCmds[..j + 1][..j] == subCmds[..j];
          if ContainsIgnoreCase(subCmd, word) {
            searchScore := searchScore + 3;
          } else if ContainsIgnoreCase(word, subCmd) {
            searchScore := searchScore + 1;
          }
          j := j + 1;
        }
        assert subCmds[..j] == subCmds;
        if ContainsIgnoreCase(cmd.description, word) {
          searchScore := searchScore + 2;
        }
        if ContainsIgnoreCase(cmd.parameterSyntax, word) {
          searchScore := searchScore + 1;
        }
        if cmd.searchTags.Some? && ContainsIgnoreCase(cmd.searchTags.value, word) {
          searchScore := searchScore + 2;
        }
        assert words[..i + 1][..i] == words[..i];
        i := i + 1;
      }
      assert words[..i] == words;
      updated := help.(searchScore := searchScore);
    }

    /** Stores the search and recomputes every entry's score; nothing else changes. */
    method SetSearch(s: Option<seq<string>>)
      modifies this
      ensures search == s && page == old(page) && perPage == old(perPage)
      ensures |helpEntries| == |old(helpEntries)|
      ensures forall i :: 0 <= i < |helpEntries| ==>
                helpEntries[i] == old(helpEntries[i]).(searchScore := SearchScore(s, old(helpEntries[i]).command))
    {
      search := s;
      var i := 0;
      while i < |helpEntries|
        invariant 0 <= i <= |helpEntries| == |old(helpEntries)|
        invariant search == s && page == old(page) && perPage == old(perPage)
        invariant forall k :: 0 <= k < i ==>
                    helpEntries[k] == old(helpEntries[k]).(searchScore := SearchScore(s, old(helpEntries[k]).command))
        invariant forall k :: i <= k < |helpEntries| ==> helpEntries[k] == old(helpEntries[k])
      {
        var updated := UpdateSearchScore(helpEntries[i]);
        helpEntries := helpEntries[i := updated];
        i := i + 1;
      }
    }

    method SetPerPage(n: int)
      modifies this
      ensures perPage == n && page == old(page) && search == old(search) && helpEntries == old(helpEntries)
    {
      perPage := n;
    }

    method SetPage(p: int)
      modifies this
      ensures page == p && perPage == old(perPage) && search == old(search) && helpEntries == old(helpEntries)
    {
      page := p;
    }

    method SetPageAndPerPage(p: int, n: int)
      modifies this
      ensures page == p && perPage == n && search == old(search) && helpEntries == old(helpEntries)
    {
      SetPage(p);
      SetPerPage(n);
    }

    /**
     * Sends one page of help. The entries are walked as in the source, except
     * that the loop tests `i >= max` before taking the next entry, so that
     * page information is sent when any entry follows the page.
     */
    method ShowHelp(shouldShow: HelpEntry -> bool) returns (out: seq<HelpMessage>)
      ensures out == HelpPage(helpEntries, shouldShow, search, page, perPage)
    {
      var shown := SortByScore(Filter(helpEntries, shouldShow));
      var results := shown;
      out := [];
      if |shown| == 0 {
        out := [NoCommandMatchedSearch(search)];
        results := helpEntries;
      }
      var totalResults := |helpEntries|;
      var min := (page - 1) * perPage;
      var max := min + perPage;
      if min >= totalResults {
        out := out + [HelpNoResults];
        return;
      }
      var lines, i := PageWalk(results, min, max);
      out := out + lines;
      PageRange(results, page, perPage, i);
      if min > 0 || i < |results| {
        out := out + [HelpPageInformation(page, TotalPages(totalResults, perPage), totalResults)];
      }
    }
  }
}
