# Google Alerts summarizer — a Dafny model of its core

The script `google-alerts-summarizer/main.py` runs like this:

1. It reads a list of RSS feeds (Google Alerts) from the `FEEDS` environment variable.
2. It resolves each entry's Google redirect link to the article it points at.
3. It skips articles whose id is already in `seen.json`.
4. It picks a fallback text for each article from the feed entry.
5. It fetches the article and summarizes it extractively as bullet points.
6. It appends the new articles to a history file, keyed by uid.
7. It renders a daily and a complete Markdown report.

This project models the deterministic logic of that run. The libraries the script calls are parameters of the model:

- `urlparse`, `parse_qs`, BeautifulSoup, `fetch_text` and sumy's tokenizer and TextRank ranker have type `X -> Option<Y>`, where `None` means that the call raised;
- `unquote`, the SHA-1 `hash_id` and `feedparser.parse` are total functions `X -> Y`: they are modelled as never raising.

Modules:

- `PyStr` (`pystr.dfy`) models the Python string operations the script relies on. Each is defined exactly; the rows below say what is proved about each:
  - `str.strip`, with Python's full whitespace set, which is also the set `\s` matches;
  - `str.split` and `str.join`;
  - `re.sub(r"\s+", " ", …)`;
  - `str.replace`;
  - slicing `xs[:n]`, including negative `n`.
- `UrlResolver` (`url.dfy`) models `extract_original_url` and `domain_of`.
- `EnvList` (`envlist.dfy`) models `get_env_list`:
  - a method with the source's loop over `splitlines()` chunks;
  - proved equal to one flat reading: split at every line break or comma, strip, drop blanks.
- `Summarizer` (`summary.dfy`) models the part of `summarize_text` around the ranker: the fallback to the leading sentences, the sentence clean-up and the bullet layout.
- `Pipeline` (`pipeline.dfy`) models the body of `main`:
  - the feed and entry loops that collect new items;
  - the processing loop, which fills `results` and adds to `seen`;
  - the history merge.

  `seen` and the history are the fields of a `RunState` object, and the loops are its methods. Each loop is proved equal to a recursive specification function (`CollectSpec`, `ProcessAll`, `Merged`), and the lemmas are stated about those functions.
- `Report` (`report.dfy`) models `make_md` (a method with the source's `parts` loop) and the two pages it produces.

Behaviour the proofs make explicit, and which the source shows as written:

- A fragment is consulted only for its `url` key, never for `q`: line 84 of `main.py` checks `url` alone.
- A sentence made only of dots survives the `s.strip()` filter and renders as the line `- .` (`Summarizer.DotsOnlySentence`).
- The entry loop never adds to `seen`. So two entries that resolve to the same link both become items in the same run, with the same uid (`Pipeline.SameLinkEntriesKept`). Both are then processed, and every result's block appears on the daily page (`Report.DailyReportShowsResult`), so when both fetches succeed the article is shown twice there. The history merge appends at most one entry per uid (`Pipeline.MergedShape`).
- `domain_of` removes every `www.`, not only a leading one (`"mywww.site"` becomes `"mysite"`). Removal can create a new occurrence, so applying it twice can differ from applying it once.

## Model

| member | source | states |
|---|---|---|
| `PyStr.Strip` | google-alerts-summarizer/main.py:66 | `str.strip()`: the result neither starts nor ends with whitespace; it is empty exactly when every character of the input is whitespace |
| `PyStr.StripWith` | google-alerts-summarizer/main.py:145 | `strip(chars)`: the result is the input between its longest droppable prefix and suffix, all of whose characters are droppable; empty exactly when every character is droppable |
| `PyStr.StripIdempotent` | google-alerts-summarizer/main.py:71 | stripping a stripped string changes nothing |
| `PyStr.SplitWhere` | google-alerts-summarizer/main.py:71 | `split(sep)`: at least one piece, and no piece contains a separator |
| `PyStr.SplitAtSeparator` | google-alerts-summarizer/main.py:71 | splitting `a + [sep] + b` gives the pieces of `a` followed by the pieces of `b` |
| `PyStr.SplitJoin` | google-alerts-summarizer/main.py:148 | splitting a `sep.join(parts)` at `sep` gives `parts` back when no part holds the separator |
| `PyStr.JoinSplit` | google-alerts-summarizer/main.py:71 | joining the pieces of a split with the separator gives the string back |
| `PyStr.Collapse` | google-alerts-summarizer/main.py:60 | `re.sub(r"\s+", " ", s)`: no whitespace other than single spaces remains, no two spaces are adjacent, the non-whitespace characters are kept in order, the result is empty only for empty input, and it is never longer |
| `PyStr.ReplaceAllAbsent` | google-alerts-summarizer/main.py:152 | `replace` leaves a string without an occurrence of the pattern unchanged |
| `PyStr.ReplaceAllAtFirst` | google-alerts-summarizer/main.py:152 | at the leftmost occurrence of the pattern, `replace` keeps what comes before, puts the replacement in its place and goes on after it; with `ReplaceAllAbsent` this fixes the result for every input |
| `PyStr.StripKeepsNonSpace` | google-alerts-summarizer/main.py:60 | `strip()` keeps every non-whitespace character, in order |
| `PyStr.JoinEnds` | google-alerts-summarizer/main.py:71 | a join of non-empty parts begins with the first part's first character and ends with the last part's last character |
| `PyStr.PrefixSlice` | google-alerts-summarizer/main.py:217 | `xs[:n]` is a prefix of `xs` of length `min(n, len(xs))` for `n >= 0`, and `max(len(xs) + n, 0)` for negative `n` |
| `UrlResolver.FirstValue` | google-alerts-summarizer/main.py:80 | `key in qs and qs[key]` holds exactly when a value is found, and that value is `qs[key][0]` |
| `UrlResolver.ExtractOriginalUrl` | google-alerts-summarizer/main.py:74-88 | if `urlparse` or the query's `parse_qs` raises, the input comes back; otherwise the result is the input or the decoded value of one of the redirect candidates |
| `UrlResolver.ResolvesToFirstCandidate` | google-alerts-summarizer/main.py:76-86 | the resolver returns `unquote` of the first candidate, in the order query `url`, query `q`, fragment `url`, and the input when there is none |
| `UrlResolver.QueryUrlWins` | google-alerts-summarizer/main.py:79-81 | a query `url` value wins over `q` and over the fragment |
| `UrlResolver.FragmentQIgnored` | google-alerts-summarizer/main.py:83-86 | with no query `url`/`q` and no fragment `url`, the link comes back unchanged, whatever the fragment holds under `q` |
| `UrlResolver.CanonicalIsFixedPoint` | google-alerts-summarizer/main.py:86 | a link without candidates is its own resolution, so resolving it again is a no-op |
| `UrlResolver.ResolveIdempotentOnCanonicalTarget` | google-alerts-summarizer/main.py:74-88 | resolving twice equals resolving once whenever the decoded target has no candidates of its own |
| `UrlResolver.DomainOf` | google-alerts-summarizer/main.py:150-154 | `""` when `urlparse` raises, otherwise `replace("www.", "")` of the netloc, the removal of every `www.` from left to right that `PyStr.ReplaceAllAbsent` and `PyStr.ReplaceAllAtFirst` pin down |
| `UrlResolver.RemoveWwwShortens` | google-alerts-summarizer/main.py:152 | removing `www.` never lengthens the host, and leaves a host without `www.` as it is |
| `UrlResolver.LeadingWwwDropped` | google-alerts-summarizer/main.py:152 | a leading `www.` is dropped |
| `UrlResolver.InnerWwwDropped` | google-alerts-summarizer/main.py:152 | an inner `www.` is dropped too (`mywww.site` becomes `mysite`) |
| `UrlResolver.RemovalNotIdempotent` | google-alerts-summarizer/main.py:152 | removal can create a new occurrence (`wwwww.w.` becomes `www.`), so `domain_of` is not idempotent |
| `EnvList.KeepNonBlank` | google-alerts-summarizer/main.py:71 | `[p.strip() for p in pieces if p.strip()]`: no more tokens than pieces, each non-empty and stripped |
| `EnvList.KeepNonBlankOne` | google-alerts-summarizer/main.py:71 | one piece gives its `strip()`, or nothing when that is blank |
| `EnvList.KeepNonBlankAppend` | google-alerts-summarizer/main.py:71 | the filter works piece by piece, so it keeps the pieces' order |
| `EnvList.TokensOfPiece` | google-alerts-summarizer/main.py:66-71 | a value without separators reads as one token, its `strip()`, or as nothing when that is blank; with `TokensAtSeparator` this fixes the reading of every value |
| `EnvList.TokensOfLine` | google-alerts-summarizer/main.py:71 | within one line only commas separate tokens |
| `EnvList.TokensAtSeparator` | google-alerts-summarizer/main.py:70-71 | a line break or comma keeps the tokens on its left before those on its right, in input order |
| `EnvList.SplitLinesTokens` | google-alerts-summarizer/main.py:70-71 | splitting with `splitlines()` (where `\r\n` is one break) and then at commas gives exactly the split at every separator |
| `EnvList.GetEnvList` | google-alerts-summarizer/main.py:65-72 | the loop returns the reference tokens of the stripped, unescaped value; a blank value gives `[]`; every token is non-empty and stripped |
| `EnvList.TokensOfJoined` | google-alerts-summarizer/main.py:71 | the reference reading `Tokens` (split at every separator, strip, drop blanks) gives back a list of clean tokens written out with commas |
| `EnvList.EnvListOfJoined` | google-alerts-summarizer/main.py:65-72 | the whole reading of `get_env_list` (strip, unescape, split, strip, drop blanks) gives back a list of clean tokens written out with commas, when the written value holds no backslash-n pair |
| `EnvList.NoEscapeUnchanged` | google-alerts-summarizer/main.py:70 | `replace("\\n", "\n")` leaves a value without a backslash-n pair unchanged |
| `EnvList.UnescapeComplete` | google-alerts-summarizer/main.py:70 | after `replace("\\n", "\n")` no backslash-n pair is left |
| `Summarizer.CleanSentence` | google-alerts-summarizer/main.py:145 | a cleaned sentence has only single spaces as whitespace, no two of them adjacent, and no leading or trailing space or dot |
| `Summarizer.CleanSentenceKeepsText` | google-alerts-summarizer/main.py:145 | cleaning keeps the sentence's text: its non-whitespace characters are those of the sentence, in order, less the dots at either end |
| `Summarizer.BulletOfClean` | google-alerts-summarizer/main.py:148 | `f"- {s}."` of a clean sentence is a bullet line |
| `Summarizer.Bullets` | google-alerts-summarizer/main.py:145-148 | at most one line per sentence, and every line is a bullet line |
| `Summarizer.BulletsEmptyIff` | google-alerts-summarizer/main.py:146-147 | no lines exactly when every sentence is blank |
| `Summarizer.BulletsAppend` | google-alerts-summarizer/main.py:145-148 | the lines follow the order of the sentences |
| `Summarizer.BulletsOne` | google-alerts-summarizer/main.py:145 | a blank sentence yields no line; any other yields exactly its bullet |
| `Summarizer.PostProcessEmptyIff` | google-alerts-summarizer/main.py:145-147 | the summary is empty exactly when all selected sentences are blank |
| `Summarizer.BulletLineHasNoNewline` | google-alerts-summarizer/main.py:148 | a bullet line holds no newline |
| `Summarizer.PostProcessLines` | google-alerts-summarizer/main.py:148 | splitting a non-empty summary at newlines gives back the bullets, one per non-blank sentence, in order |
| `Summarizer.DotsCleanToNothing` | google-alerts-summarizer/main.py:145 | cleaning a sentence of dots alone leaves nothing |
| `Summarizer.DotsOnlySentence` | google-alerts-summarizer/main.py:145 | a sentence of dots alone becomes the line `- .` |
| `Summarizer.Selected` | google-alerts-summarizer/main.py:140-144 | the ranked sentences, or `sentences[:count]` when the ranker raises |
| `Summarizer.SummarizeText` | google-alerts-summarizer/main.py:132-148 | empty text gives `""`; the call raises exactly when the text is non-empty and the sumy set-up raises |
| `Summarizer.SummaryLineBound` | google-alerts-summarizer/main.py:140-148 | a summary has at most one line per selected sentence, hence at most `count` lines on the fallback path |
| `Pipeline.HtmlToText` | google-alerts-summarizer/main.py:49-62 | `""` for empty HTML and when parsing raises; otherwise the text is stripped, its only whitespace is single spaces, and no two spaces are adjacent |
| `Pipeline.HtmlToTextKeepsText` | google-alerts-summarizer/main.py:58-60 | the text keeps every non-whitespace character of the parsed text, in order |
| `Pipeline.FirstNonEmpty` | google-alerts-summarizer/main.py:227-238 | the first non-empty string of a list, `""` exactly when all are empty |
| `Pipeline.HintIsFirstNonEmpty` | google-alerts-summarizer/main.py:227-238 | the hint HTML is the first non-empty of `summary`, `summary_detail.value` and `content[0].value` (the last only when `content` is a list whose first element is a dict) |
| `Pipeline.EntryItem` | google-alerts-summarizer/main.py:218-252 | no item exactly for a blank stripped link; otherwise the link is the resolved original or, when that is empty, the stripped link; the source is `domain_of` of that link; the title is the stripped title or `(Sans titre)`; the uid is `hash_id` of the link; the hint is the hint HTML's text; the date is the entry's `published` or `updated` |
| `Pipeline.ConsideredEntries` | google-alerts-summarizer/main.py:217 | a feed contributes `max_per_feed` entries when it has that many, and all of them otherwise |
| `Pipeline.NewItemsSnoc` | google-alerts-summarizer/main.py:217-253 | the entry loop adds each entry's item, if any, after those of the earlier entries |
| `Pipeline.FeedNewItems` | google-alerts-summarizer/main.py:217-253 | the entry loop returns exactly the new items of the considered entries, in order |
| `Pipeline.CollectItems` | google-alerts-summarizer/main.py:210-253 | the feed loop returns exactly the reference collection; no item's uid was seen, and every item has a title and a link |
| `Pipeline.NewItemsFresh` | google-alerts-summarizer/main.py:222-247 | at most one item per considered entry, none with a seen uid |
| `Pipeline.CollectFresh` | google-alerts-summarizer/main.py:210-253 | no collected item was seen before, and each has a title and a link |
| `Pipeline.NewItemsMembers` | google-alerts-summarizer/main.py:217-253 | an item is new exactly when some considered entry builds it and its uid is not in `seen` |
| `Pipeline.CollectMembers` | google-alerts-summarizer/main.py:210-253 | an item is collected exactly when some considered entry of some feed builds it and its uid is not in `seen` |
| `Pipeline.CollectRerun` | google-alerts-summarizer/main.py:242-244 | with every collected uid marked seen, collecting again finds nothing |
| `Pipeline.SameLinkEntriesKept` | google-alerts-summarizer/main.py:241-253 | two entries that resolve to the same link, whose uid is unseen, both become items, in entry order and with the same uid |
| `Pipeline.AdmittedPair` | google-alerts-summarizer/main.py:242-253 | two entries whose items are unseen are both kept, in entry order |
| `Pipeline.SelectText` | google-alerts-summarizer/main.py:265 | the full text if non-empty, else the hint if non-empty, else the title |
| `Pipeline.ProcessItem` | google-alerts-summarizer/main.py:263-275 | a success keeps the item with a non-empty summary; the item fails exactly when the fetch raises or the summarizer set-up raises on a non-empty text |
| `Pipeline.ProcessedSummary` | google-alerts-summarizer/main.py:264-271 | a successful summary is the bullets of the selected sentences, or the marker `- (Résumé indisponible – texte non détecté).` when there are none |
| `Pipeline.ProcessAllShape` | google-alerts-summarizer/main.py:257-275 | at most one result per item; each result is the success of one of the items and has a non-empty summary |
| `Pipeline.ProcessAllAppend` | google-alerts-summarizer/main.py:257-275 | the loop takes the items in order: the results of `a + b` are those of `a` followed by those of `b` |
| `Pipeline.ProcessedUids` | google-alerts-summarizer/main.py:263-275 | a uid is added to `seen` exactly when some item with that uid succeeded |
| `Pipeline.RerunRetriesFailures` | google-alerts-summarizer/main.py:242-275 | after a run, the next collection over the same feeds yields exactly this run's items whose uid produced no result |
| `Pipeline.RerunAfterSuccess` | google-alerts-summarizer/main.py:242-275 | when every item succeeds, a second run over the same feeds collects nothing |
| `Pipeline.KnownIdsSnoc` | google-alerts-summarizer/main.py:298 | appending an entry adds exactly its uid to the known ids |
| `Pipeline.MergedShape` | google-alerts-summarizer/main.py:284-299 | the old history is an unchanged prefix; every appended uid differs from every earlier uid, so none is appended twice; the known ids are the old ones plus the results' uids |
| `Pipeline.MergedAppend` | google-alerts-summarizer/main.py:287-299 | merging `a + b` is merging `a`, then `b`, so results are appended in their order |
| `Pipeline.MergedOne` | google-alerts-summarizer/main.py:288-299 | one result is appended exactly when its uid is not yet known |
| `Pipeline.MergedAllKnown` | google-alerts-summarizer/main.py:289 | a merge of results whose uids are all known changes nothing |
| `Pipeline.MergedIdempotent` | google-alerts-summarizer/main.py:284-299 | merging the same results again leaves the history unchanged |
| `Pipeline.MergedFromResults` | google-alerts-summarizer/main.py:290-297 | every appended entry is the record of one of the results |
| `Pipeline.RunState.constructor` | google-alerts-summarizer/main.py:207 | the state starts from the loaded `seen` set and history |
| `Pipeline.RunState.ProcessItems` | google-alerts-summarizer/main.py:257-275 | the loop's results are the specification's; `seen` becomes the old set plus the results' uids; the history is untouched |
| `Pipeline.RunState.MergeHistory` | google-alerts-summarizer/main.py:284-299 | the loop leaves the merged history; `updated_history` holds exactly when something was appended; `seen` is untouched |
| `Pipeline.RunState.Run` | google-alerts-summarizer/main.py:207-299 | collect, process and merge: the results come from the collection under the old `seen`; `seen` and the history only grow; a history whose uids were all seen stays so |
| `Report.ShownSummary` | google-alerts-summarizer/main.py:314 | the shown summary is never empty; it is the stripped summary when that is not blank, and `- (Résumé indisponible).` otherwise |
| `Report.BlocksSnoc` | google-alerts-summarizer/main.py:309-325 | the loop adds each entry's block after those of the earlier entries |
| `Report.MakeMd` | google-alerts-summarizer/main.py:304-326 | the loop produces the page of the list |
| `Report.ReportEmptyIff` | google-alerts-summarizer/main.py:305-307 | the page is the header plus `_Aucun nouvel article._` exactly when the list is empty |
| `Report.MetaEmptyIff` | google-alerts-summarizer/main.py:315-320 | the meta line is absent exactly when there is neither source nor date; with both it is `*Source: s \| Publié: p*` |
| `Report.BlockEndsWithSummary` | google-alerts-summarizer/main.py:324 | each block ends with a blank line, the shown summary and a newline |
| `Report.JoinContains` | google-alerts-summarizer/main.py:326 | every part of a `"\n".join` occurs in the joined text |
| `Report.ReportShowsEveryEntry` | google-alerts-summarizer/main.py:308-326 | a non-empty page is the header and the blocks joined by newlines, and every entry's block occurs in it |
| `Report.HistoryNewestFirst` | google-alerts-summarizer/main.py:334-335 | the history page starts with the last appended entry and shows every entry |
| `Report.DailyReportEmptyIff` | google-alerts-summarizer/main.py:328 | the daily page says there is nothing new exactly when there are no results |
| `Report.DailyReportShowsResult` | google-alerts-summarizer/main.py:328 | every result's block appears on the daily page |

## Left out

- `fetch_text` (trafilatura, and requests as the fallback) is network I/O through foreign libraries. It is the parameter `Env.fetchText`, given the run's timeout, and `None` means that it raised.
- TextRank and sumy's parser, tokenizer and stemmer are foreign floating-point code. They are the parameters `Ranker.sentencesOf` and `Ranker.rank`.
- The BeautifulSoup parts of `html_to_text` are a parameter, `Env.getText`: parsing, removing `script`/`style`/`noscript`, and `get_text(separator=" ", strip=True)`. The whitespace clean-up after them is modelled.
- `hash_id` is SHA-1 and is the parameter `Env.hashId`. The model relies only on its being a function.
- `urlparse`, `parse_qs`, `unquote` and `feedparser.parse` are parameters. Only the fields the script reads are kept: `netloc`, `query`, `fragment`, `bozo` and `entries`.
- Feed entries are records of strings, with `""` for a missing key. So `entry.get("title", "")` and `entry.get("summary")` read the same field. Non-string field values are not modelled, except the shapes of `content` that the hint cascade distinguishes.
- JSON loading and saving of `seen.json` and `all_articles.json`, the Markdown file writes, `os.makedirs` and the date are left out. All of these are file I/O or clock calls. The loaded set and history are the `RunState` constructor's arguments, and the date is the `today` argument of `Report.DailyReport`.
- The `if updated_history or not os.path.exists(...)` save decision is file I/O. Only `updated_history` itself is modelled, as `MergeHistory`'s result.
- The NLTK bootstrap, logging, `sys.exit` on an empty feed list and the `int(os.getenv(...))` configuration parsing are left out. `sentences` and `max_per_feed` are integer parameters: a failing `int()` is not modelled, and a negative value follows Python's slice rules.
- `Report.MakeMd`: history records always hold every field. So the `r.get('title', '(Sans titre)')` default and the `or ''` fallbacks for missing keys in `make_md` are not modelled.
- `Pipeline.HtmlToText`: like `PyStr.Collapse`, the contract does not state that each run of whitespace in the parsed text leaves exactly one space at its place; it states that the non-whitespace characters are kept in order (`Pipeline.HtmlToTextKeepsText`), that only single spaces remain and that the ends are stripped.
- `Summarizer.CleanSentence`: for the same reason the place of each single space is not stated; the text it keeps is stated by `Summarizer.CleanSentenceKeepsText`.
- `PyStr.Collapse`: the contract does not state that each run of whitespace leaves exactly one space. It states the rest: only single spaces remain, non-whitespace characters are kept in order, and the first character is mapped as the source maps it.
- `UrlResolver.ExtractOriginalUrl`: the contract alone does not fix which candidate is chosen. The order is stated by `UrlResolver.ResolvesToFirstCandidate`.
- An exception from `unquote`, `hash_id` or `feedparser.parse` is not modelled: the three are total functions of the model. In the script, an exception from the last two would end the run, and one from `unquote` would be caught by `extract_original_url`'s `except`.
- Python `str` is a sequence of code points, and the model's `string` is a sequence of Dafny `char`. No encoding is modelled.
