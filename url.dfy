/**
 * Resolving a Google Alerts redirect link to the article it points at
 * (`extract_original_url`) and the host shown beside each article (`domain_of`).
 * The parsing itself (`urlparse`, `parse_qs`, `unquote`) belongs to Python's
 * standard library and enters the model as the fields of a `UrlLib` value.
 */
module UrlResolver {
  import opened Wrappers
  import opened PyStr

  /** What `parse_qs` returns: each key with the list of its values, in order. */
  type QueryMap = map<string, seq<string>>

  /** The parts of `urlparse(url)` the script reads. */
  datatype SplitUrl = SplitUrl(netloc: string, query: string, fragment: string)

  /** The standard-library calls; `None` stands for a call that raised. */
  datatype UrlLib = UrlLib(
    urlparse: string -> Option<SplitUrl>,
    parseQs: string -> Option<QueryMap>,
    unquote: string -> string)

  /** `qs[key][0]` when `key in qs and qs[key]` holds. */
  function FirstValue(qs: QueryMap, key: string): (r: Option<string>)
    ensures r.Some? <==> key in qs && qs[key] != []
    ensures r.Some? ==> r.value == qs[key][0]
  {
    if key in qs && qs[key] != [] then Some(qs[key][0]) else None
  }

  /** `extract_original_url`: the first of query `url`, query `q`, fragment `url`
      (percent-decoded), otherwise the link itself; a raising call also yields the link. */
  function ExtractOriginalUrl(url: string, lib: UrlLib): (r: string)
    ensures lib.urlparse(url).None? ==> r == url
    ensures lib.urlparse(url).Some? && lib.parseQs(lib.urlparse(url).value.query).None? ==> r == url
    ensures r == url || exists v :: r == lib.unquote(v) && v in RedirectCandidates(url, lib)
  {
    match lib.urlparse(url)
    case None => url
    case Some(p) =>
      match lib.parseQs(p.query)
      case None => url
      case Some(qs) =>
        match FirstValue(qs, "url")
        case Some(v) => lib.unquote(v)
        case None =>
          match FirstValue(qs, "q")
          case Some(v) => lib.unquote(v)
          case None =>
            match lib.parseQs(p.fragment)
            case None => url
            case Some(fq) =>
              match FirstValue(fq, "url")
              case Some(v) => lib.unquote(v)
              case None => url
  }

  /** The values the resolver may decode, in the order it looks for them; only the
      first one present is used, and a lookup that raises ends the search. */
  function RedirectCandidates(url: string, lib: UrlLib): (vs: seq<string>)
    ensures |vs| <= 3
  {
    match lib.urlparse(url)
    case None => []
    case Some(p) =>
      match lib.parseQs(p.query)
      case None => []
      case Some(qs) =>
        Present(FirstValue(qs, "url")) + Present(FirstValue(qs, "q"))
        + (match lib.parseQs(p.fragment)
           case None => []
           case Some(fq) => Present(FirstValue(fq, "url")))
  }

  function Present(o: Option<string>): (r: seq<string>)
    ensures |r| <= 1
  {
    match o
    case Some(v) => [v]
    case None => []
  }

  /** A link is already canonical when the resolver finds no value to decode. */
  predicate IsCanonical(url: string, lib: UrlLib) {
    RedirectCandidates(url, lib) == []
  }

  /** The resolver is the first-match search over `RedirectCandidates`. */
  lemma ResolvesToFirstCandidate(url: string, lib: UrlLib)
    ensures var vs := RedirectCandidates(url, lib);
            ExtractOriginalUrl(url, lib) == (if vs == [] then url else lib.unquote(vs[0]))
  {
  }

  /** A canonical link is returned unchanged, so resolving it again changes nothing. */
  lemma CanonicalIsFixedPoint(url: string, lib: UrlLib)
    requires IsCanonical(url, lib)
    ensures ExtractOriginalUrl(url, lib) == url
    ensures ExtractOriginalUrl(ExtractOriginalUrl(url, lib), lib) == ExtractOriginalUrl(url, lib)
  {
    ResolvesToFirstCandidate(url, lib);
  }

  /** Resolving twice is resolving once whenever the decoded target is itself canonical. */
  lemma ResolveIdempotentOnCanonicalTarget(url: string, lib: UrlLib)
    requires IsCanonical(ExtractOriginalUrl(url, lib), lib)
    ensures ExtractOriginalUrl(ExtractOriginalUrl(url, lib), lib) == ExtractOriginalUrl(url, lib)
  {
    CanonicalIsFixedPoint(ExtractOriginalUrl(url, lib), lib);
  }

  /** The fragment is consulted only for `url`: a `q` value there is never used. */
  lemma FragmentQIgnored(url: string, lib: UrlLib, p: SplitUrl, qs: QueryMap, fq: QueryMap)
    requires lib.urlparse(url) == Some(p)
    requires lib.parseQs(p.query) == Some(qs) && lib.parseQs(p.fragment) == Some(fq)
    requires FirstValue(qs, "url").None? && FirstValue(qs, "q").None? && FirstValue(fq, "url").None?
    ensures ExtractOriginalUrl(url, lib) == url
  {
  }

  /** The query `url` value wins over `q` and over anything in the fragment. */
  lemma QueryUrlWins(url: string, lib: UrlLib, p: SplitUrl, qs: QueryMap)
    requires lib.urlparse(url) == Some(p) && lib.parseQs(p.query) == Some(qs)
    requires "url" in qs && qs["url"] != []
    ensures ExtractOriginalUrl(url, lib) == lib.unquote(qs["url"][0])
  {
  }

  // ---------------------------------------------------------------------------
  // domain_of

  const Www: string := "www."

  /** `domain_of`: the netloc with every "www." removed, or "" when parsing raises. */
  function DomainOf(url: string, lib: UrlLib): (r: string)
    ensures lib.urlparse(url).None? ==> r == ""
    ensures lib.urlparse(url).Some? ==> r == ReplaceAll(lib.urlparse(url).value.netloc, Www, "")
  {
    match lib.urlparse(url)
    case None => ""
    case Some(p) => ReplaceAll(p.netloc, Www, "")
  }

  /** Removing "www." never lengthens the host, and one that has none is left as it is. */
  lemma {:induction false} RemoveWwwShortens(s: string)
    ensures |ReplaceAll(s, Www, "")| <= |s|
    ensures (forall i :: !OccursAt(s, Www, i)) ==> ReplaceAll(s, Www, "") == s
    decreases |s|
  {
    if forall i :: !OccursAt(s, Www, i) {
      ReplaceAllAbsent(s, Www, "");
    }
    if |s| >= |Www| {
      RemoveWwwShortens(s[|Www|..]);
      RemoveWwwShortens(s[1..]);
    }
  }

  /** A leading "www." is dropped. */
  lemma LeadingWwwDropped(host: string)
    ensures ReplaceAll(Www + host, Www, "") == ReplaceAll(host, Www, "")
  {
    assert (Www + host)[..|Www|] == Www;
    assert (Www + host)[|Www|..] == host;
  }

  /** Every occurrence is removed, not only a leading one. */
  lemma InnerWwwDropped()
    ensures ReplaceAll("mywww.site", Www, "") == "mysite"
  {
    KeepsFirst("site");
    assert "site"[1..] == "ite";
    LeadingWwwDropped("site");
    KeepsFirst("ywww.site");
    KeepsFirst("mywww.site");
  }

  /** Removal can create a new occurrence, so `domain_of` is not idempotent. */
  lemma RemovalNotIdempotent()
    ensures ReplaceAll("wwwww.w.", Www, "") == "www."
    ensures ReplaceAll("www.", Www, "") == ""
  {
    assert ReplaceAll("w.", Www, "") == "w.";
    LeadingWwwDropped("w.");
    KeepsFirst("wwww.w.");
    KeepsFirst("wwwww.w.");
    assert ReplaceAll("", Www, "") == "";
    LeadingWwwDropped("");
  }

  /** A host that does not start with "www." keeps its first character. */
  lemma KeepsFirst(host: string)
    requires |host| >= |Www| && host[|Www| - 1] != '.'
    ensures ReplaceAll(host, Www, "") == [host[0]] + ReplaceAll(host[1..], Www, "")
  {
    assert host[..|Www|] != Www by {
      assert host[..|Www|][|Www| - 1] != Www[|Www| - 1];
    }
  }
}
