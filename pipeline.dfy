/**
 * The body of `main`: reading the feeds into new items, summarizing each item, and
 * merging the results into the article history. The set of uids already handled (`seen`)
 * and the history list are the run's state, held by a `RunState` object; the libraries
 * the script calls enter as the fields of an `Env` value.
 */
module Pipeline {
  import opened Wrappers
  import opened PyStr
  import opened UrlResolver
  import opened Summarizer

  /** The title given to an entry without one. */
  const NoTitle: string := "(Sans titre)"

  /** The summary recorded when no summary could be produced. */
  const SummaryUnavailable: string := "- (Résumé indisponible – texte non détecté)."

  // ---------------------------------------------------------------------------
  // Feed entries as feedparser delivers them

  /** One element of an entry's `content` list: a dict (its "value", "" when absent) or anything else. */
  datatype ContentItem = ContentDict(value: string) | ContentOther

  /** An entry's `content` field: absent (or empty), a list, or some other value. */
  datatype ContentField = NoContent | ContentList(items: seq<ContentItem>) | ContentNotList

  /** A feed entry; a missing string field is "". `summaryDetailValue` is
      `summary_detail["value"]`, "" when the dict or the key is missing. */
  datatype Entry = Entry(
    title: string,
    link: string,
    summary: string,
    summaryDetailValue: string,
    content: ContentField,
    published: string,
    updated: string)

  /** What `feedparser.parse` returns: the error flag and the entries. */
  datatype Feed = Feed(bozo: bool, entries: seq<Entry>)

  /** A new article waiting to be summarized; `link` is the resolved URL. */
  datatype Item = Item(title: string, link: string, source: string, uid: string, hint: string, published: string)

  /** An item with its summary (`{**it, "summary": summary}`). */
  datatype Summarized = Summarized(item: Item, summary: string)

  /** A record of `all_articles.json`. */
  datatype HistoryEntry = HistoryEntry(
    uid: string, title: string, link: string, source: string, published: string, summary: string)

  /** The calls into libraries and the network. `getText` is BeautifulSoup's text of an HTML
      fragment, `hashId` the ten-digit SHA-1 prefix, `fetchText` is `fetch_text(url, timeout)`
      with the run's timeout; `None` stands for a call that raised. */
  datatype Env = Env(
    url: UrlLib,
    getText: string -> Option<string>,
    hashId: string -> string,
    parseFeed: string -> Feed,
    fetchText: string -> Option<string>,
    ranker: Ranker)

  // ---------------------------------------------------------------------------
  // From an entry to an item

  /** `html_to_text`: "" for empty HTML or when parsing raises, else the text with whitespace collapsed and stripped. */
  function HtmlToText(html: string, getText: string -> Option<string>): (t: string)
    ensures html == [] ==> t == []
    ensures html != [] && getText(html).None? ==> t == []
    ensures IsStrippedBy(t, IsSpace)
    ensures forall i :: 0 <= i < |t| && IsSpace(t[i]) ==> t[i] == ' '
    ensures forall i :: 0 <= i < |t| - 1 ==> !(t[i] == ' ' && t[i + 1] == ' ')
  {
    if html == [] then []
    else
      match getText(html)
      case None => []
      case Some(text) =>
        var x := Collapse(text);
        var t := Strip(x);
        assert forall i :: 0 <= i < |t| ==> t[i] == x[StripStart(x, IsSpace) + i];
        t
  }

  /** The hint keeps every non-whitespace character of the parsed text, in order. */
  lemma HtmlToTextKeepsText(html: string, getText: string -> Option<string>)
    requires html != [] && getText(html).Some?
    ensures NonSpace(HtmlToText(html, getText)) == NonSpace(getText(html).value)
  {
    StripKeepsNonSpace(Collapse(getText(html).value));
  }

  /** `content[0]["value"]` when `content` is a non-empty list whose first element is a dict, else "". */
  function FirstContentValue(content: ContentField): string {
    match content
    case ContentList(items) => if items != [] && items[0].ContentDict? then items[0].value else []
    case _ => []
  }

  /** The HTML the hint text is taken from: summary, else summary_detail.value, else content[0].value. */
  function HintHtml(e: Entry): string {
    if e.summary != [] then e.summary
    else if e.summaryDetailValue != [] then e.summaryDetailValue
    else match e.content
      case ContentList(items) =>
        if items != [] then
          match items[0]
          case ContentDict(v) => if v != [] then v else []
          case ContentOther => []
        else []
      case _ => []
  }

  /** The first non-empty string of a list, or "". */
  function FirstNonEmpty(xs: seq<string>): (r: string)
    ensures r == [] <==> forall i :: 0 <= i < |xs| ==> xs[i] == []
    ensures r != [] ==> exists i :: 0 <= i < |xs| && xs[i] == r && forall j :: 0 <= j < i ==> xs[j] == []
  {
    if xs == [] then []
    else if xs[0] != [] then xs[0]
    else
      var r := FirstNonEmpty(xs[1..]);
      assert r != [] ==> exists i :: 0 <= i < |xs[1..]| && xs[1..][i] == r && forall j :: 0 <= j < i ==> xs[1..][j] == [];
      assert forall i :: 0 <= i < |xs[1..]| ==> xs[1..][i] == xs[i + 1];
      r
  }

  /** The hint cascade is a first-non-empty choice among the three fields, in that order. */
  lemma HintIsFirstNonEmpty(e: Entry)
    ensures HintHtml(e) == FirstNonEmpty([e.summary, e.summaryDetailValue, FirstContentValue(e.content)])
  {
    var c := FirstContentValue(e.content);
    var xs := [e.summary, e.summaryDetailValue, c];
    assert FirstNonEmpty([c]) == c by {
      assert [c][1..] == [];
    }
    assert FirstNonEmpty([e.summaryDetailValue, c]) ==
      (if e.summaryDetailValue != [] then e.summaryDetailValue else c) by {
      assert [e.summaryDetailValue, c][1..] == [c];
    }
    assert xs[1..] == [e.summaryDetailValue, c];
  }

  /** `entry.get("published") or entry.get("updated") or ""`. */
  function Published(e: Entry): string {
    if e.published != [] then e.published else e.updated
  }

  /** The item built for an entry, whether or not its uid was seen; `None` when the link is blank. */
  function EntryItem(e: Entry, env: Env): (r: Option<Item>)
    ensures r.None? <==> Strip(e.link) == []
    ensures r.Some? ==> r.value.title != [] && r.value.link != [] && r.value.uid == env.hashId(r.value.link)
    ensures r.Some? ==> r.value.title == (if Strip(e.title) != [] then Strip(e.title) else NoTitle)
    ensures r.Some? ==> r.value.hint == HtmlToText(HintHtml(e), env.getText)
    ensures r.Some? ==>
              var l := Strip(e.link);
              var o := ExtractOriginalUrl(l, env.url);
              && r.value.link == (if o != [] then o else l)
              && r.value.source == DomainOf(r.value.link, env.url)
              && r.value.published == Published(e)
  {
    var link := Strip(e.link);
    if link == [] then None
    else
      var orig := ExtractOriginalUrl(link, env.url);
      var target := if orig != [] then orig else link;
      var title := Strip(e.title);
      Some(Item(
        if title != [] then title else NoTitle,
        target,
        DomainOf(target, env.url),
        env.hashId(target),
        HtmlToText(HintHtml(e), env.getText),
        Published(e)))
  }

  /** The entries of a parsed feed that the loop looks at: none for an invalid empty feed,
      otherwise at most `maxPerFeed` of them (`entries[:max_per_feed]`). */
  function Considered(fp: Feed, maxPerFeed: int): seq<Entry> {
    if fp.bozo && fp.entries == [] then [] else PrefixSlice(fp.entries, maxPerFeed)
  }

  function FeedEntries(feedUrl: string, maxPerFeed: int, env: Env): seq<Entry> {
    Considered(env.parseFeed(feedUrl), maxPerFeed)
  }

  /** The item an entry contributes: none for a blank link or a uid already seen. */
  function Admit(o: Option<Item>, seen: set<string>): seq<Item> {
    match o
    case Some(it) => if it.uid in seen then [] else [it]
    case None => []
  }

  /** The builder the entry loop applies to every entry. */
  function Builder(env: Env): Entry -> Option<Item> {
    e => EntryItem(e, env)
  }

  /** The items `build` makes of a list of entries, without those whose uid is in `seen`, in entry order. */
  function Admitted(es: seq<Entry>, build: Entry -> Option<Item>, seen: set<string>): seq<Item> {
    if es == [] then []
    else Admitted(es[..|es| - 1], build, seen) + Admit(build(es[|es| - 1]), seen)
  }

  /** The new items of a list of entries, in entry order. */
  function NewItems(es: seq<Entry>, seen: set<string>, env: Env): seq<Item> {
    Admitted(es, Builder(env), seen)
  }

  /** The items `build` makes of the considered entries of every feed, without those whose uid is in `seen`. */
  function Gathered(feeds: seq<string>, maxPerFeed: int, seen: set<string>,
                    parse: string -> Feed, build: Entry -> Option<Item>): seq<Item> {
    if feeds == [] then []
    else
      Gathered(feeds[..|feeds| - 1], maxPerFeed, seen, parse, build)
      + Admitted(Considered(parse(feeds[|feeds| - 1]), maxPerFeed), build, seen)
  }

  /** All new items of a run, feed after feed. */
  function CollectSpec(feeds: seq<string>, maxPerFeed: int, seen: set<string>, env: Env): seq<Item> {
    Gathered(feeds, maxPerFeed, seen, env.parseFeed, Builder(env))
  }

  /** What every collected item satisfies: its uid was not seen, and it has a title and a link. */
  predicate FreshItems(items: seq<Item>, seen: set<string>) {
    forall i :: 0 <= i < |items| ==> items[i].uid !in seen && items[i].title != [] && items[i].link != []
  }

  lemma FreshItemsAppend(a: seq<Item>, b: seq<Item>, seen: set<string>)
    requires FreshItems(a, seen) && FreshItems(b, seen)
    ensures FreshItems(a + b, seen)
  {
    assert forall i :: |a| <= i < |a + b| ==> (a + b)[i] == b[i - |a|];
  }

  /** Every item `build` makes has a title and a link. */
  ghost predicate BuildsTitled(build: Entry -> Option<Item>) {
    forall e :: build(e).Some? ==> build(e).value.title != [] && build(e).value.link != []
  }

  lemma {:induction false} AdmittedFresh(es: seq<Entry>, build: Entry -> Option<Item>, seen: set<string>)
    requires BuildsTitled(build)
    ensures |Admitted(es, build, seen)| <= |es|
    ensures FreshItems(Admitted(es, build, seen), seen)
    decreases |es|
  {
    if es != [] {
      AdmittedFresh(es[..|es| - 1], build, seen);
      FreshItemsAppend(Admitted(es[..|es| - 1], build, seen), Admit(build(es[|es| - 1]), seen), seen);
    }
  }

  lemma BuilderTitled(env: Env)
    ensures BuildsTitled(Builder(env))
  {
    forall e ensures Builder(env)(e).Some? ==> Builder(env)(e).value.title != [] && Builder(env)(e).value.link != [] {
      assert Builder(env)(e) == EntryItem(e, env);
    }
  }

  /** At most one item per entry, each of them new, titled and linked. */
  lemma NewItemsFresh(es: seq<Entry>, seen: set<string>, env: Env)
    ensures |NewItems(es, seen, env)| <= |es|
    ensures FreshItems(NewItems(es, seen, env), seen)
  {
    BuilderTitled(env);
    AdmittedFresh(es, Builder(env), seen);
  }

  lemma {:induction false} GatheredFresh(feeds: seq<string>, maxPerFeed: int, seen: set<string>,
                                         parse: string -> Feed, build: Entry -> Option<Item>)
    requires BuildsTitled(build)
    ensures FreshItems(Gathered(feeds, maxPerFeed, seen, parse, build), seen)
    decreases |feeds|
  {
    if feeds != [] {
      GatheredFresh(feeds[..|feeds| - 1], maxPerFeed, seen, parse, build);
      var es := Considered(parse(feeds[|feeds| - 1]), maxPerFeed);
      AdmittedFresh(es, build, seen);
      FreshItemsAppend(Gathered(feeds[..|feeds| - 1], maxPerFeed, seen, parse, build), Admitted(es, build, seen), seen);
    }
  }

  /** No collected item was seen before, and each has a title and a link. */
  lemma CollectFresh(feeds: seq<string>, maxPerFeed: int, seen: set<string>, env: Env)
    ensures FreshItems(CollectSpec(feeds, maxPerFeed, seen, env), seen)
  {
    BuilderTitled(env);
    GatheredFresh(feeds, maxPerFeed, seen, env.parseFeed, Builder(env));
  }

  lemma NewItemsSnoc(es: seq<Entry>, j: nat, seen: set<string>, env: Env)
    requires j < |es|
    ensures NewItems(es[..j + 1], seen, env) == NewItems(es[..j], seen, env) + Admit(EntryItem(es[j], env), seen)
  {
    assert es[..j + 1][..j] == es[..j];
    assert Builder(env)(es[j]) == EntryItem(es[j], env);
  }

  /** The entry loop for one feed: the new items of its considered entries, in order. */
  method FeedNewItems(es: seq<Entry>, seen: set<string>, env: Env) returns (found: seq<Item>)
    ensures found == NewItems(es, seen, env)
  {
    found := [];
    for j := 0 to |es|
      invariant found == NewItems(es[..j], seen, env)
    {
      NewItemsSnoc(es, j, seen, env);
      // a blank link is skipped; so is a uid already seen
      var o := EntryItem(es[j], env);
      if o.Some? && o.value.uid !in seen {
        found := found + [o.value];
      }
    }
    assert es[..|es|] == es;
  }

  lemma CollectSnoc(feeds: seq<string>, f: nat, maxPerFeed: int, seen: set<string>, env: Env)
    requires f < |feeds|
    ensures CollectSpec(feeds[..f + 1], maxPerFeed, seen, env) ==
      CollectSpec(feeds[..f], maxPerFeed, seen, env) + NewItems(FeedEntries(feeds[f], maxPerFeed, env), seen, env)
  {
    assert feeds[..f + 1][..f] == feeds[..f];
  }

  /** The feed loop of `main`. */
  method CollectItems(feeds: seq<string>, maxPerFeed: int, seen: set<string>, env: Env) returns (items: seq<Item>)
    ensures items == CollectSpec(feeds, maxPerFeed, seen, env)
    ensures FreshItems(items, seen)
  {
    items := [];
    for f := 0 to |feeds|
      invariant items == CollectSpec(feeds[..f], maxPerFeed, seen, env)
    {
      CollectSnoc(feeds, f, maxPerFeed, seen, env);
      var fp := env.parseFeed(feeds[f]);
      // an invalid feed without entries is skipped
      if !(fp.bozo && fp.entries == []) {
        var found := FeedNewItems(PrefixSlice(fp.entries, maxPerFeed), seen, env);
        items := items + found;
      } else {
        assert NewItems([], seen, env) == [];
      }
    }
    assert feeds[..|feeds|] == feeds;
    CollectFresh(feeds, maxPerFeed, seen, env);
  }

  /** The loop considers `max_per_feed` entries of a feed when it has that many, and all of them otherwise. */
  lemma ConsideredEntries(feedUrl: string, maxPerFeed: int, env: Env)
    requires maxPerFeed >= 0
    ensures var n := |env.parseFeed(feedUrl).entries|;
            |FeedEntries(feedUrl, maxPerFeed, env)| == if maxPerFeed <= n then maxPerFeed else n
  {
  }

  /** Some entry of the list is made into `it`. */
  predicate Builds(es: seq<Entry>, build: Entry -> Option<Item>, it: Item) {
    exists j :: 0 <= j < |es| && build(es[j]) == Some(it)
  }

  lemma {:induction false} AdmittedMembers(es: seq<Entry>, build: Entry -> Option<Item>, seen: set<string>, it: Item)
    ensures it in Admitted(es, build, seen) <==> it.uid !in seen && Builds(es, build, it)
    decreases |es|
  {
    if es != [] {
      var init, last := es[..|es| - 1], es[|es| - 1];
      AdmittedMembers(init, build, seen, it);
      var admitted := Admit(build(last), seen);
      assert it in Admitted(es, build, seen) <==> it in Admitted(init, build, seen) || it in admitted;
      if Builds(es, build, it) {
        var j :| 0 <= j < |es| && build(es[j]) == Some(it);
        if j < |init| {
          assert init[j] == es[j];
        }
      }
      if Builds(init, build, it) {
        var j :| 0 <= j < |init| && build(init[j]) == Some(it);
        assert init[j] == es[j];
      }
    }
  }

  /** An item is new exactly when some considered entry builds it and its uid was not seen. */
  lemma NewItemsMembers(es: seq<Entry>, seen: set<string>, env: Env, it: Item)
    ensures it in NewItems(es, seen, env) <==> it.uid !in seen && Builds(es, Builder(env), it)
    ensures Builds(es, Builder(env), it) <==> exists j :: 0 <= j < |es| && EntryItem(es[j], env) == Some(it)
  {
    AdmittedMembers(es, Builder(env), seen, it);
  }

  /** Every item's uid is in `s`. */
  predicate UidsAmong(items: seq<Item>, s: set<string>) {
    forall i :: 0 <= i < |items| ==> items[i].uid in s
  }

  lemma {:induction false} AdmittedRerun(es: seq<Entry>, build: Entry -> Option<Item>, seen: set<string>, seen2: set<string>)
    requires seen <= seen2
    requires UidsAmong(Admitted(es, build, seen), seen2)
    ensures Admitted(es, build, seen2) == []
    decreases |es|
  {
    if es != [] {
      var init := es[..|es| - 1];
      var prev := Admitted(init, build, seen);
      var admitted := Admit(build(es[|es| - 1]), seen);
      assert Admitted(es, build, seen) == prev + admitted;
      assert forall i :: 0 <= i < |prev| ==> Admitted(es, build, seen)[i] == prev[i];
      AdmittedRerun(init, build, seen, seen2);
      if admitted != [] {
        assert Admitted(es, build, seen)[|prev|] == admitted[0];
      }
    }
  }

  lemma {:induction false} GatheredRerun(feeds: seq<string>, maxPerFeed: int, seen: set<string>, seen2: set<string>,
                                         parse: string -> Feed, build: Entry -> Option<Item>)
    requires seen <= seen2
    requires UidsAmong(Gathered(feeds, maxPerFeed, seen, parse, build), seen2)
    ensures Gathered(feeds, maxPerFeed, seen2, parse, build) == []
    decreases |feeds|
  {
    if feeds != [] {
      var init := feeds[..|feeds| - 1];
      var items := Gathered(feeds, maxPerFeed, seen, parse, build);
      var prev := Gathered(init, maxPerFeed, seen, parse, build);
      var es := Considered(parse(feeds[|feeds| - 1]), maxPerFeed);
      var last := Admitted(es, build, seen);
      assert items == prev + last;
      assert forall i :: 0 <= i < |prev| ==> items[i] == prev[i];
      assert forall i :: 0 <= i < |last| ==> items[|prev| + i] == last[i];
      GatheredRerun(init, maxPerFeed, seen, seen2, parse, build);
      AdmittedRerun(es, build, seen, seen2);
    }
  }

  /** Running the collection again with the uids of everything collected marked as seen finds nothing new. */
  lemma CollectRerun(feeds: seq<string>, maxPerFeed: int, seen: set<string>, seen2: set<string>, env: Env)
    requires seen <= seen2
    requires UidsAmong(CollectSpec(feeds, maxPerFeed, seen, env), seen2)
    ensures CollectSpec(feeds, maxPerFeed, seen2, env) == []
  {
    GatheredRerun(feeds, maxPerFeed, seen, seen2, env.parseFeed, Builder(env));
  }

  /** Some considered entry of some feed is made into `it`. */
  predicate FeedsBuild(feeds: seq<string>, maxPerFeed: int, parse: string -> Feed, build: Entry -> Option<Item>, it: Item) {
    exists f :: 0 <= f < |feeds| && Builds(Considered(parse(feeds[f]), maxPerFeed), build, it)
  }

  lemma {:induction false} GatheredMembers(feeds: seq<string>, maxPerFeed: int, seen: set<string>,
                                           parse: string -> Feed, build: Entry -> Option<Item>, it: Item)
    ensures it in Gathered(feeds, maxPerFeed, seen, parse, build) <==>
      it.uid !in seen && FeedsBuild(feeds, maxPerFeed, parse, build, it)
    decreases |feeds|
  {
    if feeds != [] {
      var init, last := feeds[..|feeds| - 1], feeds[|feeds| - 1];
      GatheredMembers(init, maxPerFeed, seen, parse, build, it);
      var es := Considered(parse(last), maxPerFeed);
      AdmittedMembers(es, build, seen, it);
      assert it in Gathered(feeds, maxPerFeed, seen, parse, build) <==>
        it in Gathered(init, maxPerFeed, seen, parse, build) || it in Admitted(es, build, seen);
      FeedsBuildSnoc(feeds, maxPerFeed, parse, build, it);
    }
  }

  lemma FeedsBuildSnoc(feeds: seq<string>, maxPerFeed: int, parse: string -> Feed, build: Entry -> Option<Item>, it: Item)
    requires feeds != []
    ensures FeedsBuild(feeds, maxPerFeed, parse, build, it) <==>
      FeedsBuild(feeds[..|feeds| - 1], maxPerFeed, parse, build, it)
      || Builds(Considered(parse(feeds[|feeds| - 1]), maxPerFeed), build, it)
  {
    var init := feeds[..|feeds| - 1];
    if FeedsBuild(feeds, maxPerFeed, parse, build, it) {
      var f :| 0 <= f < |feeds| && Builds(Considered(parse(feeds[f]), maxPerFeed), build, it);
      if f < |init| {
        assert init[f] == feeds[f];
      }
    }
    if FeedsBuild(init, maxPerFeed, parse, build, it) {
      var f :| 0 <= f < |init| && Builds(Considered(parse(init[f]), maxPerFeed), build, it);
      assert init[f] == feeds[f];
    }
  }

  /** An item is collected exactly when some considered entry of some feed builds it and its uid was not seen. */
  lemma CollectMembers(feeds: seq<string>, maxPerFeed: int, seen: set<string>, env: Env, it: Item)
    ensures it in CollectSpec(feeds, maxPerFeed, seen, env) <==>
      it.uid !in seen && FeedsBuild(feeds, maxPerFeed, env.parseFeed, Builder(env), it)
  {
    GatheredMembers(feeds, maxPerFeed, seen, env.parseFeed, Builder(env), it);
  }

  /** The loop does not mark uids as it goes: two entries that resolve to the same link, whose uid
      was not seen, both become items, with the same uid. */
  lemma SameLinkEntriesKept(e1: Entry, e2: Entry, seen: set<string>, env: Env, it1: Item, it2: Item)
    requires EntryItem(e1, env) == Some(it1) && EntryItem(e2, env) == Some(it2)
    requires it1.link == it2.link && it1.uid !in seen
    ensures it2.uid == it1.uid
    ensures NewItems([e1, e2], seen, env) == [it1, it2]
  {
    assert Builder(env)(e1) == Some(it1) && Builder(env)(e2) == Some(it2);
    AdmittedPair(e1, e2, Builder(env), seen, it1, it2);
  }

  lemma AdmittedPair(e1: Entry, e2: Entry, build: Entry -> Option<Item>, seen: set<string>, it1: Item, it2: Item)
    requires build(e1) == Some(it1) && build(e2) == Some(it2)
    requires it1.uid !in seen && it2.uid !in seen
    ensures Admitted([e1, e2], build, seen) == [it1, it2]
  {
    assert [e1][..0] == [];
    assert Admitted([e1], build, seen) == [it1];
    assert [e1, e2][..1] == [e1];
  }

  // ---------------------------------------------------------------------------
  // From an item to its summary

  /** `full or hint or title`. */
  function SelectText(full: string, hint: string, title: string): (base: string)
    ensures full != [] ==> base == full
    ensures full == [] && hint != [] ==> base == hint
    ensures full == [] && hint == [] ==> base == title
  {
    if full != [] then full else if hint != [] then hint else title
  }

  /** The try block of the processing loop; `None` when a call in it raised. */
  function ProcessItem(it: Item, sentences: int, env: Env): (r: Option<Summarized>)
    ensures r.Some? ==> r.value.item == it && r.value.summary != []
    ensures r.None? <==> (env.fetchText(it.link).None? ||
      (var base := SelectText(env.fetchText(it.link).value, it.hint, it.title);
       base != [] && env.ranker.sentencesOf(base).None?))
  {
    match env.fetchText(it.link)
    case None => None
    case Some(full) =>
      var base := SelectText(full, it.hint, it.title);
      var summary := if base != [] then SummarizeText(base, sentences, env.ranker) else Some([]);
      match summary
      case None => None
      case Some(s) => Some(Summarized(it, if s == [] then SummaryUnavailable else s))
  }

  /** What a successful item's summary is: the bullets of its text, or the marker when there are none. */
  lemma ProcessedSummary(it: Item, sentences: int, env: Env, full: string, doc: seq<string>)
    requires env.fetchText(it.link) == Some(full)
    requires env.ranker.sentencesOf(SelectText(full, it.hint, it.title)) == Some(doc)
    requires it.title != []
    ensures ProcessItem(it, sentences, env).Some?
    ensures var s := PostProcess(Selected(doc, sentences, env.ranker));
            ProcessItem(it, sentences, env).value.summary == if s == [] then SummaryUnavailable else s
  {
  }

  /** The results of the processing loop for a given per-item step, in item order; items whose
      step raised are absent. */
  function Processed(items: seq<Item>, process: Item -> Option<Summarized>): seq<Summarized> {
    if items == [] then []
    else
      Processed(items[..|items| - 1], process)
      + (match process(items[|items| - 1])
         case Some(r) => [r]
         case None => [])
  }

  function Processor(sentences: int, env: Env): Item -> Option<Summarized> {
    it => ProcessItem(it, sentences, env)
  }

  /** The results of the processing loop. */
  function ProcessAll(items: seq<Item>, sentences: int, env: Env): seq<Summarized> {
    Processed(items, Processor(sentences, env))
  }

  /** A step whose successes are about the item they were given. */
  ghost predicate KeepsItem(process: Item -> Option<Summarized>) {
    forall it :: process(it).Some? ==> process(it).value.item == it
  }

  lemma {:induction false} ProcessedShape(items: seq<Item>, process: Item -> Option<Summarized>)
    ensures var rs := Processed(items, process);
            |rs| <= |items| &&
            forall k :: 0 <= k < |rs| ==> exists i :: 0 <= i < |items| && process(items[i]) == Some(rs[k])
    decreases |items|
  {
    if items != [] {
      var init := items[..|items| - 1];
      ProcessedShape(init, process);
      var prev := Processed(init, process);
      var rs := Processed(items, process);
      var o := process(items[|items| - 1]);
      var tail := match o case Some(r) => [r] case None => [];
      assert rs == prev + tail;
      forall k | 0 <= k < |rs|
        ensures exists i :: 0 <= i < |items| && process(items[i]) == Some(rs[k])
      {
        if k < |prev| {
          assert rs[k] == prev[k];
          var i :| 0 <= i < |init| && process(init[i]) == Some(prev[k]);
          assert init[i] == items[i];
        } else {
          assert rs[k] == tail[0] && o == Some(rs[k]);
        }
      }
    }
  }

  /** The loop handles the items one after the other: the results of `a + b` are those of `a`, then those of `b`. */
  lemma {:induction false} ProcessedAppend(a: seq<Item>, b: seq<Item>, process: Item -> Option<Summarized>)
    ensures Processed(a + b, process) == Processed(a, process) + Processed(b, process)
    decreases |b|
  {
    if b == [] {
      assert a + b == a;
    } else {
      var init, last := b[..|b| - 1], b[|b| - 1];
      assert (a + b)[..|a + b| - 1] == a + init && (a + b)[|a + b| - 1] == last;
      ProcessedAppend(a, init, process);
      var tail := match process(last) case Some(r) => [r] case None => [];
      assert Processed(a + b, process) == Processed(a + init, process) + tail;
      assert Processed(b, process) == Processed(init, process) + tail;
      AppendAssoc(Processed(a, process), Processed(init, process), tail);
    }
  }

  /** The results keep the order of the items. */
  lemma ProcessAllAppend(a: seq<Item>, b: seq<Item>, sentences: int, env: Env)
    ensures ProcessAll(a + b, sentences, env) == ProcessAll(a, sentences, env) + ProcessAll(b, sentences, env)
  {
    ProcessedAppend(a, b, Processor(sentences, env));
  }

  /** At most one result per item; each result is one of the items with a non-empty summary.
      `ProcessAllAppend` states their order. */
  lemma ProcessAllShape(items: seq<Item>, sentences: int, env: Env)
    ensures var rs := ProcessAll(items, sentences, env);
            |rs| <= |items| &&
            forall k :: 0 <= k < |rs| ==> (rs[k].summary != [] &&
              exists i :: 0 <= i < |items| && ProcessItem(items[i], sentences, env) == Some(rs[k]))
  {
    var process := Processor(sentences, env);
    ProcessedShape(items, process);
    var rs := Processed(items, process);
    forall k | 0 <= k < |rs|
      ensures rs[k].summary != [] && exists i :: 0 <= i < |items| && ProcessItem(items[i], sentences, env) == Some(rs[k])
    {
      var i :| 0 <= i < |items| && process(items[i]) == Some(rs[k]);
      assert ProcessItem(items[i], sentences, env) == Some(rs[k]);
    }
  }

  /** The uids of a list of results. */
  function UidsOf(rs: seq<Summarized>): set<string> {
    set r | r in rs :: r.item.uid
  }

  lemma {:induction false} ProcessedUidsOf(items: seq<Item>, process: Item -> Option<Summarized>, u: string)
    requires KeepsItem(process)
    ensures u in UidsOf(Processed(items, process)) <==>
      exists i :: 0 <= i < |items| && items[i].uid == u && process(items[i]).Some?
    decreases |items|
  {
    if items != [] {
      var init := items[..|items| - 1];
      var last := items[|items| - 1];
      ProcessedUidsOf(init, process, u);
      var prev := Processed(init, process);
      var tail := match process(last) case Some(r) => [r] case None => [];
      assert Processed(items, process) == prev + tail;
      assert UidsOf(prev + tail) == UidsOf(prev) + UidsOf(tail);
      assert forall i :: 0 <= i < |init| ==> init[i] == items[i];
      if exists i :: 0 <= i < |items| && items[i].uid == u && process(items[i]).Some? {
        var i :| 0 <= i < |items| && items[i].uid == u && process(items[i]).Some?;
        if i == |items| - 1 {
          assert tail[0].item.uid == u;
        } else {
          assert init[i] == items[i];
        }
      }
    }
  }

  /** A uid is marked seen by the processing loop exactly when some item with it succeeded. */
  lemma ProcessedUids(items: seq<Item>, sentences: int, env: Env, u: string)
    ensures u in UidsOf(ProcessAll(items, sentences, env)) <==>
      exists i :: 0 <= i < |items| && items[i].uid == u && ProcessItem(items[i], sentences, env).Some?
  {
    var process := Processor(sentences, env);
    assert KeepsItem(process) by {
      forall it ensures process(it).Some? ==> process(it).value.item == it {
        assert process(it) == ProcessItem(it, sentences, env);
      }
    }
    ProcessedUidsOf(items, process, u);
    assert forall i :: 0 <= i < |items| ==> process(items[i]) == ProcessItem(items[i], sentences, env);
  }

  // ---------------------------------------------------------------------------
  // History

  function ToHistoryEntry(r: Summarized): HistoryEntry {
    HistoryEntry(r.item.uid, r.item.title, r.item.link, r.item.source, r.item.published, r.summary)
  }

  /** `known_ids`: the uids present in a history. */
  function KnownIds(h: seq<HistoryEntry>): set<string> {
    set e | e in h :: e.uid
  }

  lemma KnownIdsSnoc(h: seq<HistoryEntry>, e: HistoryEntry)
    ensures KnownIds(h + [e]) == KnownIds(h) + {e.uid}
  {
    assert forall x :: x in h + [e] <==> x in h || x == e;
  }

  /** The merge loop: results whose uid is not yet known are appended, in order, and become known. */
  function Merged(h: seq<HistoryEntry>, rs: seq<Summarized>): seq<HistoryEntry>
    decreases |rs|
  {
    if rs == [] then h
    else if rs[0].item.uid in KnownIds(h) then Merged(h, rs[1..])
    else Merged(h + [ToHistoryEntry(rs[0])], rs[1..])
  }

  /** Each appended entry carries a uid that no earlier entry has. */
  predicate AppendsFresh(h: seq<HistoryEntry>, m: seq<HistoryEntry>) {
    h <= m && forall i :: |h| <= i < |m| ==> m[i].uid !in KnownIds(m[..i])
  }

  /** The old history is an unchanged prefix, every appended uid is new, and the history knows
      exactly the old uids and those of the results. */
  lemma {:induction false} MergedShape(h: seq<HistoryEntry>, rs: seq<Summarized>)
    ensures AppendsFresh(h, Merged(h, rs))
    ensures KnownIds(Merged(h, rs)) == KnownIds(h) + UidsOf(rs)
    ensures |Merged(h, rs)| <= |h| + |rs|
    decreases |rs|
  {
    if rs == [] {
      assert UidsOf(rs) == {};
    } else {
      var r := rs[0];
      assert UidsOf(rs) == {r.item.uid} + UidsOf(rs[1..]) by {
        assert forall x :: x in rs <==> x == r || x in rs[1..];
      }
      if r.item.uid in KnownIds(h) {
        MergedShape(h, rs[1..]);
      } else {
        var h' := h + [ToHistoryEntry(r)];
        MergedShape(h', rs[1..]);
        KnownIdsSnoc(h, ToHistoryEntry(r));
        AppendsFreshCons(h, ToHistoryEntry(r), Merged(h', rs[1..]));
      }
    }
  }

  /** An entry with a new uid, followed by fresh appends, is itself a fresh append. */
  lemma AppendsFreshCons(h: seq<HistoryEntry>, e: HistoryEntry, m: seq<HistoryEntry>)
    requires e.uid !in KnownIds(h)
    requires AppendsFresh(h + [e], m)
    ensures AppendsFresh(h, m)
  {
    assert m[..|h| + 1] == h + [e];
    assert m[..|h|] == h;
    assert m[|h|] == e;
  }

  /** Merging a concatenation is merging its two parts one after the other, so results are appended in their order. */
  lemma {:induction false} MergedAppend(h: seq<HistoryEntry>, rs1: seq<Summarized>, rs2: seq<Summarized>)
    ensures Merged(h, rs1 + rs2) == Merged(Merged(h, rs1), rs2)
    decreases |rs1|
  {
    if rs1 == [] {
      assert rs1 + rs2 == rs2;
    } else {
      assert (rs1 + rs2)[0] == rs1[0] && (rs1 + rs2)[1..] == rs1[1..] + rs2;
      var h' := if rs1[0].item.uid in KnownIds(h) then h else h + [ToHistoryEntry(rs1[0])];
      MergedAppend(h', rs1[1..], rs2);
    }
  }

  /** A single result is appended exactly when its uid is not yet known. */
  lemma MergedOne(h: seq<HistoryEntry>, r: Summarized)
    ensures Merged(h, [r]) == if r.item.uid in KnownIds(h) then h else h + [ToHistoryEntry(r)]
  {
    assert [r][1..] == [];
  }

  /** A merge in which every result's uid is already known changes nothing. */
  lemma {:induction false} MergedAllKnown(h: seq<HistoryEntry>, rs: seq<Summarized>)
    requires UidsOf(rs) <= KnownIds(h)
    ensures Merged(h, rs) == h
    decreases |rs|
  {
    if rs != [] {
      assert rs[0] in rs;
      assert UidsOf(rs[1..]) <= UidsOf(rs) by {
        assert forall x :: x in rs[1..] ==> x in rs;
      }
      MergedAllKnown(h, rs[1..]);
    }
  }

  /** Merging the same results a second time leaves the history unchanged. */
  lemma MergedIdempotent(h: seq<HistoryEntry>, rs: seq<Summarized>)
    ensures Merged(Merged(h, rs), rs) == Merged(h, rs)
  {
    MergedShape(h, rs);
    MergedAllKnown(Merged(h, rs), rs);
  }

  /** Every appended entry is the record of one of the results. */
  lemma {:induction false} MergedFromResults(h: seq<HistoryEntry>, rs: seq<Summarized>)
    ensures forall i :: |h| <= i < |Merged(h, rs)| ==>
      exists k :: 0 <= k < |rs| && Merged(h, rs)[i] == ToHistoryEntry(rs[k])
    decreases |rs|
  {
    MergedShape(h, rs);
    if rs != [] {
      var h' := if rs[0].item.uid in KnownIds(h) then h else h + [ToHistoryEntry(rs[0])];
      MergedFromResults(h', rs[1..]);
      MergedShape(h', rs[1..]);
      var m := Merged(h, rs);
      forall i | |h| <= i < |m| ensures exists k :: 0 <= k < |rs| && m[i] == ToHistoryEntry(rs[k]) {
        if i < |h'| {
          assert m[i] == h'[i] == ToHistoryEntry(rs[0]);
        } else {
          var k :| 0 <= k < |rs[1..]| && m[i] == ToHistoryEntry(rs[1..][k]);
          assert rs[1..][k] == rs[k + 1];
        }
      }
    }
  }

  /** After a run, the next collection over the same feeds yields exactly the items of this run
      whose processing raised (for every item with their uid). */
  lemma RerunRetriesFailures(feeds: seq<string>, maxPerFeed: int, sentences: int, seen: set<string>, env: Env, it: Item)
    ensures var results := ProcessAll(CollectSpec(feeds, maxPerFeed, seen, env), sentences, env);
            it in CollectSpec(feeds, maxPerFeed, seen + UidsOf(results), env) <==>
              it in CollectSpec(feeds, maxPerFeed, seen, env) && it.uid !in UidsOf(results)
  {
    var results := ProcessAll(CollectSpec(feeds, maxPerFeed, seen, env), sentences, env);
    CollectMembers(feeds, maxPerFeed, seen, env, it);
    CollectMembers(feeds, maxPerFeed, seen + UidsOf(results), env, it);
  }

  /** When every item succeeds, a second run over the same feeds collects nothing. */
  lemma RerunAfterSuccess(feeds: seq<string>, maxPerFeed: int, sentences: int, seen: set<string>, env: Env)
    requires var items := CollectSpec(feeds, maxPerFeed, seen, env);
             forall i :: 0 <= i < |items| ==> ProcessItem(items[i], sentences, env).Some?
    ensures var results := ProcessAll(CollectSpec(feeds, maxPerFeed, seen, env), sentences, env);
            CollectSpec(feeds, maxPerFeed, seen + UidsOf(results), env) == []
  {
    var items := CollectSpec(feeds, maxPerFeed, seen, env);
    var results := ProcessAll(items, sentences, env);
    forall i | 0 <= i < |items| ensures items[i].uid in seen + UidsOf(results) {
      ProcessedUids(items, sentences, env, items[i].uid);
    }
    CollectRerun(feeds, maxPerFeed, seen, seen + UidsOf(results), env);
  }

  // ---------------------------------------------------------------------------
  // The run's state

  class RunState {
    /** The uids already handled, loaded from `seen.json`. */
    var seen: set<string>
    /** The article history, loaded from `all_articles.json`. */
    var history: seq<HistoryEntry>

    constructor (seen0: set<string>, history0: seq<HistoryEntry>)
      ensures seen == seen0 && history == history0
    {
      seen := seen0;
      history := history0;
    }

    /** The processing loop: every item is fetched and summarized; a success is recorded
        and its uid marked seen, a failure leaves no trace. */
    method ProcessItems(items: seq<Item>, sentences: int, env: Env) returns (results: seq<Summarized>)
      modifies this
      ensures results == ProcessAll(items, sentences, env)
      ensures seen == old(seen) + UidsOf(results)
      ensures history == old(history)
    {
      results := [];
      for i := 0 to |items|
        invariant results == ProcessAll(items[..i], sentences, env)
        invariant seen == old(seen) + UidsOf(results)
        invariant history == old(history)
      {
        assert items[..i + 1][..i] == items[..i];
        // an item whose fetch or summary raises is dropped and stays unseen
        match ProcessItem(items[i], sentences, env)
        case None =>
        case Some(r) =>
          assert UidsOf(results + [r]) == UidsOf(results) + {items[i].uid} by {
            assert forall x :: x in results + [r] <==> x in results || x == r;
          }
          results := results + [r];
          seen := seen + {items[i].uid};
      }
      assert items[..|items|] == items;
    }

    /** The history merge loop; `updated` tells whether anything was appended. */
    method MergeHistory(results: seq<Summarized>) returns (updated: bool)
      modifies this
      ensures history == Merged(old(history), results)
      ensures updated <==> |history| > |old(history)|
      ensures seen == old(seen)
    {
      var known := KnownIds(history);
      updated := false;
      for i := 0 to |results|
        invariant Merged(history, results[i..]) == Merged(old(history), results)
        invariant known == KnownIds(history)
        invariant old(history) <= history
        invariant updated <==> |history| > |old(history)|
        invariant seen == old(seen)
      {
        assert results[i..][1..] == results[i + 1..];
        var uid := results[i].item.uid;
        if uid !in known {
          KnownIdsSnoc(history, ToHistoryEntry(results[i]));
          history := history + [ToHistoryEntry(results[i])];
          known := known + {uid};
          updated := true;
        }
      }
    }

    /** One run of the pipeline over the given feeds. If every history uid was already seen,
        that stays so; nothing is ever removed from `seen` or from the history. */
    method Run(feeds: seq<string>, maxPerFeed: int, sentences: int, env: Env) returns (results: seq<Summarized>)
      modifies this
      ensures results == ProcessAll(CollectSpec(feeds, maxPerFeed, old(seen), env), sentences, env)
      ensures seen == old(seen) + UidsOf(results)
      ensures history == Merged(old(history), results)
      ensures old(history) <= history
      ensures KnownIds(history) == KnownIds(old(history)) + UidsOf(results)
      ensures KnownIds(old(history)) <= old(seen) ==> KnownIds(history) <= seen
    {
      var items := CollectItems(feeds, maxPerFeed, seen, env);
      results := ProcessItems(items, sentences, env);
      var _ := MergeHistory(results);
      MergedShape(old(history), results);
    }
  }
}
