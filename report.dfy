/**
 * `make_md`: the Markdown page listing a run's results (the daily report) or the whole
 * history, newest first. The file writes around it are not modelled; the page text is.
 */
module Report {
  import opened PyStr
  import opened Pipeline

  /** The body of a page without entries. */
  const NoArticles: string := "_Aucun nouvel article._\n"

  /** The summary shown for an entry whose own summary is blank. */
  const DefaultSummary: string := "- (Résumé indisponible)."

  const HistoryTitle: string := "Historique complet Google Alerts"

  function Header(title: string): string {
    "# " + title + "\n\n"
  }

  /** The summary shown for an entry: its own, stripped, unless that is blank. */
  function ShownSummary(r: HistoryEntry): (s: string)
    ensures s != [] && IsStrippedBy(s, IsSpace)
    ensures Strip(r.summary) != [] ==> s == Strip(r.summary)
    ensures Strip(r.summary) == [] ==> s == DefaultSummary
  {
    if Strip(r.summary) != [] then Strip(r.summary)
    else
      assert !IsSpace(DefaultSummary[0]) && !IsSpace(DefaultSummary[|DefaultSummary| - 1]);
      DefaultSummary
  }

  /** The italic line under the heading: source and date when present, joined by " | ". */
  function Meta(source: string, published: string): string {
    var metaParts := (if source != [] then ["Source: " + source] else [])
                     + (if published != [] then ["Publié: " + published] else []);
    if metaParts == [] then [] else "*" + Join(metaParts, " | ") + "*"
  }

  /** The heading: a link to the article when there is one, the bare title otherwise. */
  function Heading(r: HistoryEntry): string {
    if r.link != [] then "## [" + r.title + "](" + r.link + ")" else "## " + r.title
  }

  /** The Markdown block of one entry. */
  function EntryBlock(r: HistoryEntry): string {
    var meta := Meta(r.source, r.published);
    Heading(r) + (if meta != [] then "  \n" + meta else []) + "\n\n" + ShownSummary(r) + "\n"
  }

  /** `[f(x) for x in xs]`. */
  function MapSeq<T, U>(xs: seq<T>, f: T -> U): (ys: seq<U>)
    ensures |ys| == |xs|
    ensures forall i :: 0 <= i < |xs| ==> ys[i] == f(xs[i])
  {
    seq(|xs|, i requires 0 <= i < |xs| => f(xs[i]))
  }

  lemma MapSeqSnoc<T, U>(head: seq<U>, xs: seq<T>, f: T -> U, i: nat)
    requires i < |xs|
    ensures MapSeq(xs[..i + 1], f) == MapSeq(xs[..i], f) + [f(xs[i])]
    ensures head + MapSeq(xs[..i + 1], f) == head + MapSeq(xs[..i], f) + [f(xs[i])]
  {
    assert forall j :: 0 <= j < i ==> xs[..i + 1][j] == xs[..i][j];
  }

  function Blocks(res: seq<HistoryEntry>): seq<string> {
    MapSeq(res, EntryBlock)
  }

  lemma BlocksSnoc(header: string, res: seq<HistoryEntry>, i: nat)
    requires i < |res|
    ensures [header] + Blocks(res[..i + 1]) == [header] + Blocks(res[..i]) + [EntryBlock(res[i])]
  {
    MapSeqSnoc([header], res, EntryBlock, i);
  }

  /** The page for a list of entries, in list order. */
  function RenderReport(res: seq<HistoryEntry>, title: string): string {
    if res == [] then Header(title) + NoArticles else Join([Header(title)] + Blocks(res), "\n")
  }

  /** `make_md(res, title)`. */
  method MakeMd(res: seq<HistoryEntry>, title: string) returns (md: string)
    ensures md == RenderReport(res, title)
  {
    var header := Header(title);
    if res == [] {
      return header + NoArticles;
    }
    var parts := [header];
    for i := 0 to |res|
      invariant parts == [header] + Blocks(res[..i])
    {
      BlocksSnoc(header, res, i);
      parts := parts + [EntryBlock(res[i])];
    }
    assert res[..|res|] == res;
    assert parts == [Header(title)] + Blocks(res);
    md := Join(parts, "\n");
  }

  /** The daily page: the run's results under the date. */
  function DailyReport(results: seq<Summarized>, today: string): string {
    RenderReport(Records(results), DailyTitle(today))
  }

  function DailyTitle(today: string): string {
    "Résumé Google Alerts – " + today
  }

  /** The history records of a list of results, in order. */
  function Records(results: seq<Summarized>): seq<HistoryEntry> {
    MapSeq(results, ToHistoryEntry)
  }

  /** The history page: every history entry, the most recent first. */
  function HistoryReport(history: seq<HistoryEntry>): string {
    RenderReport(NewestFirst(history), HistoryTitle)
  }

  /** `list(reversed(history))`. */
  function NewestFirst(history: seq<HistoryEntry>): seq<HistoryEntry> {
    seq(|history|, i requires 0 <= i < |history| => history[|history| - 1 - i])
  }

  // ---------------------------------------------------------------------------
  // Properties of the page

  /** The page says there is nothing new exactly when the list is empty. */
  lemma ReportEmptyIff(res: seq<HistoryEntry>, title: string)
    ensures RenderReport(res, title) == Header(title) + NoArticles <==> res == []
  {
    if res != [] {
      var h := Header(title);
      var r := RenderReport(res, title);
      assert r == h + "\n" + Join(Blocks(res), "\n");
      assert r[|h|] == '\n';
      assert (h + NoArticles)[|h|] == '_';
    }
  }

  /** The meta line is absent exactly when the entry has neither source nor date. */
  lemma MetaEmptyIff(source: string, published: string)
    ensures Meta(source, published) == [] <==> source == [] && published == []
    ensures source != [] && published != [] ==>
      Meta(source, published) == "*" + "Source: " + source + " | " + "Publié: " + published + "*"
  {
    if source != [] && published != [] {
      var a, b := "Source: " + source, "Publié: " + published;
      var ps := [a] + [b];
      assert ps == [a, b] && ps[1..] == [b];
      assert Join(ps, " | ") == a + " | " + b;
    }
  }

  /** Each block ends with the blank line, the shown summary and a newline. */
  lemma BlockEndsWithSummary(r: HistoryEntry)
    ensures var b := EntryBlock(r);
            var s := ShownSummary(r);
            |b| >= |s| + 3 && b[|b| - |s| - 3..] == "\n\n" + s + "\n"
  {
    var meta := Meta(r.source, r.published);
    var head := Heading(r) + (if meta != [] then "  \n" + meta else []);
    var s := ShownSummary(r);
    assert EntryBlock(r) == head + "\n\n" + s + "\n";
    EndsWith(head, s);
  }

  lemma EndsWith(head: string, s: string)
    ensures var b := head + "\n\n" + s + "\n";
            |b| >= |s| + 3 && b[|b| - |s| - 3..] == "\n\n" + s + "\n"
  {
    var tail := "\n\n" + s + "\n";
    assert head + "\n\n" + s + "\n" == head + tail;
    assert (head + tail)[|head|..] == tail;
  }

  /** Every string of a joined list occurs in the joined text. */
  lemma {:induction false} JoinContains(parts: seq<string>, sep: string, i: nat)
    requires i < |parts|
    ensures exists k :: OccursAt(Join(parts, sep), parts[i], k)
    decreases |parts|
  {
    var j := Join(parts, sep);
    if |parts| == 1 {
      assert OccursAt(j, parts[i], 0);
    } else {
      var rest := Join(parts[1..], sep);
      assert j == parts[0] + sep + rest;
      if i == 0 {
        assert j[0..|parts[0]|] == parts[0];
        assert OccursAt(j, parts[i], 0);
      } else {
        JoinContains(parts[1..], sep, i - 1);
        var k :| OccursAt(rest, parts[1..][i - 1], k);
        var off := |parts[0]| + |sep|;
        assert j[off + k..off + k + |parts[i]|] == rest[k..k + |parts[i]|];
        assert OccursAt(j, parts[i], off + k);
      }
    }
  }

  /** A non-empty page is the header, then each entry's block, separated by newlines; so every
      entry's block, with its summary, appears on the page. */
  lemma ReportShowsEveryEntry(res: seq<HistoryEntry>, title: string, i: nat)
    requires i < |res|
    ensures RenderReport(res, title) == Header(title) + "\n" + Join(Blocks(res), "\n")
    ensures var r := RenderReport(res, title);
            var b := EntryBlock(res[i]);
            exists k :: OccursAt(r, b, k)
  {
    var parts := [Header(title)] + Blocks(res);
    assert parts[1..] == Blocks(res);
    assert Join(parts, "\n") == parts[0] + "\n" + Join(parts[1..], "\n");
    assert parts[i + 1] == EntryBlock(res[i]);
    JoinContains(parts, "\n", i + 1);
  }

  /** The history page opens with the block of the entry appended last, and shows every entry. */
  lemma HistoryNewestFirst(history: seq<HistoryEntry>, i: nat)
    requires i < |history|
    ensures HistoryReport(history) ==
      Header(HistoryTitle) + "\n" + Join(Blocks(NewestFirst(history)), "\n")
    ensures Blocks(NewestFirst(history))[0] == EntryBlock(history[|history| - 1])
    ensures var r := HistoryReport(history);
            var b := EntryBlock(history[i]);
            exists k :: OccursAt(r, b, k)
  {
    var rev := NewestFirst(history);
    assert rev[|history| - 1 - i] == history[i];
    assert Blocks(rev)[0] == EntryBlock(rev[0]);
    ReportShowsEveryEntry(rev, HistoryTitle, |history| - 1 - i);
  }

  /** The daily page says there is nothing new exactly when no item succeeded. */
  lemma DailyReportEmptyIff(results: seq<Summarized>, today: string)
    ensures DailyReport(results, today) == Header(DailyTitle(today)) + NoArticles <==> results == []
  {
    ReportEmptyIff(Records(results), DailyTitle(today));
  }

  /** Every result's block appears on the daily page. */
  lemma DailyReportShowsResult(results: seq<Summarized>, today: string, i: nat)
    requires i < |results|
    ensures exists k :: OccursAt(DailyReport(results, today), EntryBlock(ToHistoryEntry(results[i])), k)
  {
    var rs := Records(results);
    var r := ToHistoryEntry(results[i]);
    assert rs[i] == r;
    ReportShowsEveryEntry(rs, DailyTitle(today), i);
    var k :| OccursAt(RenderReport(rs, DailyTitle(today)), EntryBlock(rs[i]), k);
    assert OccursAt(DailyReport(results, today), EntryBlock(r), k);
  }
}
