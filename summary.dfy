/**
 * `summarize_text`: the part that runs after TextRank. Sentence splitting and ranking belong
 * to the sumy library and enter as the fields of a `Ranker` value; what is modelled is the
 * fallback to the leading sentences, the clean-up of every sentence and the bullet layout.
 */
module Summarizer {
  import opened Wrappers
  import opened PyStr

  /** The sumy calls. `sentencesOf` builds the parser, tokenizer, stemmer and summarizer and
      returns the document's sentences (`None`: one of those calls raised, which `summarize_text`
      does not catch); `rank` is `summarizer(document, count)` (`None`: it raised, and
      `summarize_text` falls back to the leading sentences). */
  datatype Ranker = Ranker(
    sentencesOf: string -> Option<seq<string>>,
    rank: (seq<string>, int) -> Option<seq<string>>)

  /** A sentence after clean-up: no whitespace but single spaces, nothing to strip at either end. */
  predicate IsCleanSentence(c: string) {
    && IsStrippedBy(c, IsSpaceOrDot)
    && (forall i :: 0 <= i < |c| && IsSpace(c[i]) ==> c[i] == ' ')
    && (forall i :: 0 <= i < |c| - 1 ==> !(c[i] == ' ' && c[i + 1] == ' '))
  }

  /** `re.sub(r"\s+", " ", s).strip(" .")`. */
  function CleanSentence(s: string): (c: string)
    ensures IsCleanSentence(c)
  {
    var x := Collapse(s);
    var c := StripWith(x, IsSpaceOrDot);
    assert forall i :: 0 <= i < |c| ==> c[i] == x[StripStart(x, IsSpaceOrDot) + i];
    c
  }

  /** Cleaning keeps the sentence's text: its non-whitespace characters, less the dots at either end. */
  lemma CleanSentenceKeepsText(s: string)
    ensures NonSpace(CleanSentence(s)) == StripWith(NonSpace(s), IsDot)
  {
    StripSpacesAndDotsKeepsText(Collapse(s));
  }

  /** Once whitespace is only `' '`, `strip(" .")` removes from the text exactly the dots at its ends. */
  lemma StripSpacesAndDotsKeepsText(x: string)
    requires forall i :: 0 <= i < |x| && IsSpace(x[i]) ==> x[i] == ' '
    ensures NonSpace(StripWith(x, IsSpaceOrDot)) == StripWith(NonSpace(x), IsDot)
  {
    CoreEnds(x);
    CoreKeepsText(x);
  }

  /** `strip(" .")` keeps the text, less its end dots, when what it keeps has whitespace-free ends. */
  lemma CoreKeepsText(x: string)
    requires var c := StripWith(x, IsSpaceOrDot); c != [] ==> !IsSpace(c[0]) && !IsSpace(c[|c| - 1])
    ensures NonSpace(StripWith(x, IsSpaceOrDot)) == StripWith(NonSpace(x), IsDot)
  {
    var a, b := StripStart(x, IsSpaceOrDot), StripEnd(x, IsSpaceOrDot);
    StripParts(x, IsSpaceOrDot);
    TextOfParts(x, x[..a], StripWith(x, IsSpaceOrDot), x[b..]);
  }

  /** Once whitespace is only `' '`, what `strip(" .")` keeps begins and ends outside whitespace. */
  lemma CoreEnds(x: string)
    requires forall i :: 0 <= i < |x| && IsSpace(x[i]) ==> x[i] == ' '
    ensures var c := StripWith(x, IsSpaceOrDot); c != [] ==> !IsSpace(c[0]) && !IsSpace(c[|c| - 1])
  {
    var a, b := StripStart(x, IsSpaceOrDot), StripEnd(x, IsSpaceOrDot);
    var c := StripWith(x, IsSpaceOrDot);
    if c != [] {
      assert c[0] == x[a] && c[|c| - 1] == x[b - 1];
    }
  }

  /** A core between margins of spaces and dots keeps the text of the whole, less its end dots. */
  lemma TextOfParts(x: string, p: string, c: string, q: string)
    requires x == p + c + q
    requires forall i :: 0 <= i < |p| ==> IsSpaceOrDot(p[i])
    requires forall i :: 0 <= i < |q| ==> IsSpaceOrDot(q[i])
    requires IsStrippedBy(c, IsSpaceOrDot)
    requires c != [] ==> !IsSpace(c[0]) && !IsSpace(c[|c| - 1])
    ensures NonSpace(c) == StripWith(NonSpace(x), IsDot)
  {
    NonSpaceAppend(p + c, q);
    NonSpaceAppend(p, c);
    NonSpaceOfSpacesAndDots(p);
    NonSpaceOfSpacesAndDots(q);
    TextIsDotStripped(c);
    StripAround(NonSpace(p), NonSpace(c), NonSpace(q), IsDot);
  }

  /** The text of a core stripped of spaces and dots, with whitespace-free ends, has no dot at either end. */
  lemma TextIsDotStripped(c: string)
    requires IsStrippedBy(c, IsSpaceOrDot)
    requires c != [] ==> !IsSpace(c[0]) && !IsSpace(c[|c| - 1])
    ensures IsStrippedBy(NonSpace(c), IsDot)
  {
    if c != [] {
      NonSpaceEnds(c);
    }
  }

  /** One line of the summary: `f"- {s}."`. */
  function Bullet(c: string): string {
    "- " + c + "."
  }

  /** A line the summary may contain. */
  predicate IsBulletLine(line: string) {
    |line| >= 3 && line[..2] == "- " && line[|line| - 1] == '.' && IsCleanSentence(line[2..|line| - 1])
  }

  lemma BulletOfClean(c: string)
    requires IsCleanSentence(c)
    ensures IsBulletLine(Bullet(c))
  {
    var line := Bullet(c);
    assert line[2..|line| - 1] == c;
  }

  /** The lines for the sentences that are not blank, in their order. */
  function Bullets(sents: seq<string>): (lines: seq<string>)
    ensures |lines| <= |sents|
    ensures forall i :: 0 <= i < |lines| ==> IsBulletLine(lines[i])
  {
    if sents == [] then []
    else
      BulletOfClean(CleanSentence(sents[0]));
      (if Strip(sents[0]) != [] then [Bullet(CleanSentence(sents[0]))] else []) + Bullets(sents[1..])
  }

  /** No lines exactly when every sentence is blank. */
  lemma {:induction false} BulletsEmptyIff(sents: seq<string>)
    ensures Bullets(sents) == [] <==> forall i :: 0 <= i < |sents| ==> Strip(sents[i]) == []
    decreases |sents|
  {
    if sents != [] {
      BulletsEmptyIff(sents[1..]);
      assert forall i :: 1 <= i < |sents| ==> sents[1..][i - 1] == sents[i];
    }
  }

  /** Bullets are produced sentence by sentence: the output keeps the input's order. */
  lemma {:induction false} BulletsAppend(a: seq<string>, b: seq<string>)
    ensures Bullets(a + b) == Bullets(a) + Bullets(b)
    decreases |a|
  {
    if a == [] {
      assert a + b == b;
    } else {
      assert (a + b)[0] == a[0] && (a + b)[1..] == a[1..] + b;
      BulletsAppend(a[1..], b);
      var head := if Strip(a[0]) != [] then [Bullet(CleanSentence(a[0]))] else [];
      assert Bullets(a + b) == head + Bullets(a[1..] + b);
      assert Bullets(a) == head + Bullets(a[1..]);
      AppendAssoc(head, Bullets(a[1..]), Bullets(b));
    }
  }

  /** A blank sentence yields no line; any other yields exactly its bullet. */
  lemma BulletsOne(s: string)
    ensures Bullets([s]) == if Strip(s) == [] then [] else [Bullet(CleanSentence(s))]
  {
    assert [s][1..] == [];
  }

  /** The summary text for the selected sentences; "" when none of them has content. */
  function PostProcess(sents: seq<string>): string {
    var lines := Bullets(sents);
    if lines == [] then [] else Join(lines, "\n")
  }

  /** No bullet line holds a newline. */
  lemma BulletLineHasNoNewline(line: string)
    requires IsBulletLine(line)
    ensures NoCharWhere(line, IsNewline)
  {
    var c := line[2..|line| - 1];
    forall j | 0 <= j < |line| ensures line[j] != '\n' {
      if 2 <= j < |line| - 1 {
        assert line[j] == c[j - 2];
      } else if j < 2 {
        assert line[j] == line[..2][j];
      }
    }
  }

  /** The summary is empty exactly when every selected sentence is blank. */
  lemma PostProcessEmptyIff(sents: seq<string>)
    ensures PostProcess(sents) == [] <==> forall i :: 0 <= i < |sents| ==> Strip(sents[i]) == []
  {
    BulletsEmptyIff(sents);
    var lines := Bullets(sents);
    if lines != [] {
      assert |lines[0]| >= 3;
      assert |Join(lines, "\n")| >= |lines[0]|;
    }
  }

  /** Splitting a non-empty summary at its newlines gives back one bullet per non-blank sentence. */
  lemma PostProcessLines(sents: seq<string>)
    requires PostProcess(sents) != []
    ensures SplitWhere(PostProcess(sents), IsNewline) == Bullets(sents)
    ensures |SplitWhere(PostProcess(sents), IsNewline)| <= |sents|
  {
    var lines := Bullets(sents);
    forall i | 0 <= i < |lines| ensures NoCharWhere(lines[i], IsNewline) {
      BulletLineHasNoNewline(lines[i]);
    }
    SplitJoin(lines, '\n', IsNewline);
  }

  /** A sentence of dots passes the `s.strip()` test but leaves an empty bullet. */
  lemma DotsOnlySentence()
    ensures PostProcess(["..."]) == "- ."
  {
    var dots := "...";
    DotsCleanToNothing();
    assert Strip(dots) != [] by {
      assert !IsSpace(dots[0]);
    }
    BulletsOne(dots);
    EmptyBullet();
    assert Bullets([dots]) == ["- ."];
  }

  lemma EmptyBullet()
    ensures Bullet([]) == "- ."
  {
  }

  lemma DotsCleanToNothing()
    ensures CleanSentence("...") == []
  {
    var dots := "...";
    assert !IsSpace('.');
    assert Collapse(dots[2..]) == ".";
    assert Collapse(dots[1..]) == "..";
    assert Collapse(dots) == dots;
    assert forall i :: 0 <= i < |dots| ==> IsSpaceOrDot(dots[i]);
  }

  /** The sentences the summary is built from: the ranked ones, or the first `count` of the document. */
  function Selected(doc: seq<string>, count: int, ranker: Ranker): (sel: seq<string>)
    ensures ranker.rank(doc, count).None? ==> sel == PrefixSlice(doc, count)
    ensures ranker.rank(doc, count).Some? ==> sel == ranker.rank(doc, count).value
  {
    match ranker.rank(doc, count)
    case Some(ranked) => ranked
    case None => PrefixSlice(doc, count)
  }

  /** `summarize_text(text, count)`; `None` when the sumy set-up raises. */
  function SummarizeText(text: string, count: int, ranker: Ranker): (r: Option<string>)
    ensures text == [] ==> r == Some([])
    ensures r.None? <==> text != [] && ranker.sentencesOf(text).None?
  {
    if text == [] then Some([])
    else
      match ranker.sentencesOf(text)
      case None => None
      case Some(doc) => Some(PostProcess(Selected(doc, count, ranker)))
  }

  /** A summary has at most one line per selected sentence, so with the fallback at most `count`. */
  lemma SummaryLineBound(text: string, count: int, ranker: Ranker, doc: seq<string>)
    requires text != [] && ranker.sentencesOf(text) == Some(doc)
    requires SummarizeText(text, count, ranker).value != []
    ensures SplitWhere(SummarizeText(text, count, ranker).value, IsNewline) == Bullets(Selected(doc, count, ranker))
    ensures |SplitWhere(SummarizeText(text, count, ranker).value, IsNewline)| <= |Selected(doc, count, ranker)|
    ensures ranker.rank(doc, count).None? && count >= 0 ==>
      |SplitWhere(SummarizeText(text, count, ranker).value, IsNewline)| <= count
  {
    PostProcessLines(Selected(doc, count, ranker));
  }
}
