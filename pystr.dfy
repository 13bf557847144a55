/**
 * The handful of Python string and list primitives the script relies on, written out
 * so that their edge cases are explicit: `str.isspace`, `str.strip`, `str.split`,
 * `str.join`, `str.replace`, `re.sub(r"\s+", " ", s)` and the slice `xs[:n]`.
 */
module PyStr {

  /** Python's `str.isspace()` for one character; the same set is matched by `\s`
      in a `str` regular expression. */
  predicate IsSpace(c: char) {
    ('\t' <= c <= '\r') || ('\U{1c}' <= c <= ' ') || c == '\U{85}' || c == '\U{a0}'
    || c == '\U{1680}' || ('\U{2000}' <= c <= '\U{200a}') || c == '\U{2028}'
    || c == '\U{2029}' || c == '\U{202f}' || c == '\U{205f}' || c == '\U{3000}'
  }

  /** The characters at which `str.splitlines()` ends a line ("\r\n" also counts as one boundary). */
  predicate IsLineBreak(c: char) {
    c == '\n' || c == '\r' || c == '\U{0b}' || c == '\U{0c}' || c == '\U{1c}' || c == '\U{1d}'
    || c == '\U{1e}' || c == '\U{85}' || c == '\U{2028}' || c == '\U{2029}'
  }

  predicate IsComma(c: char) { c == ',' }

  predicate IsNewline(c: char) { c == '\n' }

  /** The character set of `s.strip(" .")`. */
  predicate IsSpaceOrDot(c: char) { c == ' ' || c == '.' }

  predicate IsDot(c: char) { c == '.' }

  // ---------------------------------------------------------------------------
  // strip

  /** How many characters at the front of `s` the `drop` predicate accepts in a row. */
  function LeadingRun(s: string, drop: char -> bool): (k: nat)
    ensures k <= |s|
    ensures forall i :: 0 <= i < k ==> drop(s[i])
    ensures k < |s| ==> !drop(s[k])
    decreases |s|
  {
    if s != [] && drop(s[0]) then 1 + LeadingRun(s[1..], drop) else 0
  }

  /** How many characters at the back of `s` the `drop` predicate accepts in a row. */
  function TrailingRun(s: string, drop: char -> bool): (k: nat)
    ensures k <= |s|
    ensures forall i :: |s| - k <= i < |s| ==> drop(s[i])
    ensures k < |s| ==> !drop(s[|s| - 1 - k])
    decreases |s|
  {
    if s != [] && drop(s[|s| - 1]) then 1 + TrailingRun(s[..|s| - 1], drop) else 0
  }

  /** Where the stripped text begins in `s`. */
  function StripStart(s: string, drop: char -> bool): (k: nat)
    ensures k <= |s|
  {
    LeadingRun(s, drop)
  }

  /** Where the stripped text ends in `s`. */
  function StripEnd(s: string, drop: char -> bool): (k: nat)
    ensures StripStart(s, drop) <= k <= |s|
  {
    var a := LeadingRun(s, drop);
    |s| - TrailingRun(s[a..], drop)
  }

  /** A string that begins and ends with a character `drop` does not accept (or is empty). */
  predicate IsStrippedBy(s: string, drop: char -> bool) {
    s == [] || (!drop(s[0]) && !drop(s[|s| - 1]))
  }

  /** `s.strip(chars)`: `s` without its longest leading and trailing runs of droppable characters. */
  function StripWith(s: string, drop: char -> bool): (r: string)
    ensures r == s[StripStart(s, drop)..StripEnd(s, drop)]
    ensures IsStrippedBy(r, drop)
    ensures forall i :: 0 <= i < StripStart(s, drop) ==> drop(s[i])
    ensures forall i :: StripEnd(s, drop) <= i < |s| ==> drop(s[i])
    ensures r == [] <==> forall i :: 0 <= i < |s| ==> drop(s[i])
  {
    var a := LeadingRun(s, drop);
    var rest := s[a..];
    var b := TrailingRun(rest, drop);
    assert forall i :: StripEnd(s, drop) <= i < |s| ==> s[i] == rest[i - a];
    s[a..|s| - b]
  }

  /** Python's argument-less `s.strip()`. */
  function Strip(s: string): (r: string)
    ensures IsStrippedBy(r, IsSpace)
    ensures r == [] <==> forall i :: 0 <= i < |s| ==> IsSpace(s[i])
  {
    StripWith(s, IsSpace)
  }

  lemma StrippedIsFixedPoint(s: string, drop: char -> bool)
    requires IsStrippedBy(s, drop)
    ensures StripWith(s, drop) == s
  {
    assert LeadingRun(s, drop) == 0;
    if s != [] {
      assert TrailingRun(s, drop) == 0;
    }
  }

  lemma StripIdempotent(s: string)
    ensures Strip(Strip(s)) == Strip(s)
  {
    StrippedIsFixedPoint(Strip(s), IsSpace);
  }

  lemma {:induction false} LeadingRunAfter(p: string, rest: string, drop: char -> bool)
    requires forall i :: 0 <= i < |p| ==> drop(p[i])
    requires rest != [] && !drop(rest[0])
    ensures LeadingRun(p + rest, drop) == |p|
    decreases |p|
  {
    if p == [] {
      assert p + rest == rest;
    } else {
      assert (p + rest)[0] == p[0] && (p + rest)[1..] == p[1..] + rest;
      LeadingRunAfter(p[1..], rest, drop);
    }
  }

  lemma {:induction false} TrailingRunBefore(rest: string, q: string, drop: char -> bool)
    requires forall i :: 0 <= i < |q| ==> drop(q[i])
    requires rest != [] && !drop(rest[|rest| - 1])
    ensures TrailingRun(rest + q, drop) == |q|
    decreases |q|
  {
    if q == [] {
      assert rest + q == rest;
    } else {
      var s := rest + q;
      assert s[|s| - 1] == q[|q| - 1];
      assert s[..|s| - 1] == rest + q[..|q| - 1];
      TrailingRunBefore(rest, q[..|q| - 1], drop);
    }
  }

  /** Stripping removes exactly the droppable margins around a core that is itself stripped. */
  lemma StripAround(p: string, m: string, q: string, drop: char -> bool)
    requires forall i :: 0 <= i < |p| ==> drop(p[i])
    requires forall i :: 0 <= i < |q| ==> drop(q[i])
    requires IsStrippedBy(m, drop)
    ensures StripWith(p + m + q, drop) == m
  {
    var s := p + m + q;
    if m == [] {
      assert s == p + q;
      forall i | 0 <= i < |s| ensures drop(s[i]) {
        if i < |p| {
          assert s[i] == p[i];
        } else {
          assert s[i] == q[i - |p|];
        }
      }
    } else {
      AppendAssoc(p, m, q);
      LeadingRunAfter(p, m + q, drop);
      assert s[|p|..] == m + q;
      TrailingRunBefore(m, q, drop);
      assert s[|p|..|s| - |q|] == m;
    }
  }

  /** A string is its leading margin, its stripped core and its trailing margin. */
  lemma StripParts(s: string, drop: char -> bool)
    ensures var a, b := StripStart(s, drop), StripEnd(s, drop);
            s == s[..a] + StripWith(s, drop) + s[b..]
            && (forall i :: 0 <= i < |s[..a]| ==> drop(s[..a][i]))
            && (forall i :: 0 <= i < |s[b..]| ==> drop(s[b..][i]))
  {
    var a, b := StripStart(s, drop), StripEnd(s, drop);
    ThreeParts(s, a, b);
    PrefixAll(s, a, drop);
    SuffixAll(s, b, drop);
  }

  // ---------------------------------------------------------------------------
  // split and join

  /** `s.split(sep)` generalised to a set of one-character separators: the pieces between them. */
  function SplitWhere(s: string, isSep: char -> bool): (parts: seq<string>)
    ensures |parts| >= 1
    ensures forall i, j :: 0 <= i < |parts| && 0 <= j < |parts[i]| ==> !isSep(parts[i][j])
    decreases |s|
  {
    if s == [] then [[]]
    else
      var rest := SplitWhere(s[1..], isSep);
      if isSep(s[0]) then [[]] + rest else [[s[0]] + rest[0]] + rest[1..]
  }

  /** `sep.join(parts)`. */
  function Join(parts: seq<string>, sep: string): string {
    if parts == [] then []
    else if |parts| == 1 then parts[0]
    else parts[0] + sep + Join(parts[1..], sep)
  }

  /** A join of non-empty parts begins as the first part does and ends as the last part does. */
  lemma {:induction false} JoinEnds(parts: seq<string>, sep: string)
    requires parts != []
    requires forall i :: 0 <= i < |parts| ==> parts[i] != []
    ensures var j, last := Join(parts, sep), parts[|parts| - 1];
            j != [] && j[0] == parts[0][0] && j[|j| - 1] == last[|last| - 1]
    decreases |parts|
  {
    if |parts| > 1 {
      JoinEnds(parts[1..], sep);
    }
  }

  predicate NoCharWhere(s: string, isSep: char -> bool) {
    forall j :: 0 <= j < |s| ==> !isSep(s[j])
  }

  lemma {:induction false} SplitWithoutSeparator(s: string, isSep: char -> bool)
    requires NoCharWhere(s, isSep)
    ensures SplitWhere(s, isSep) == [s]
    decreases |s|
  {
    if s != [] {
      SplitWithoutSeparator(s[1..], isSep);
      assert [s[0]] + s[1..] == s;
    }
  }

  /** A separator splits the pieces of the two sides apart and nothing else. */
  lemma {:induction false} SplitAtSeparator(a: string, c: char, b: string, isSep: char -> bool)
    requires isSep(c)
    ensures SplitWhere(a + [c] + b, isSep) == SplitWhere(a, isSep) + SplitWhere(b, isSep)
    decreases |a|
  {
    if a == [] {
      assert a + [c] + b == [c] + b;
      assert ([c] + b)[1..] == b;
      assert SplitWhere([c] + b, isSep) == [[]] + SplitWhere(b, isSep);
    } else {
      var whole := a + [c] + b;
      assert whole[0] == a[0] && whole[1..] == a[1..] + [c] + b;
      SplitAtSeparator(a[1..], c, b, isSep);
      var sa, sb := SplitWhere(a[1..], isSep), SplitWhere(b, isSep);
      assert SplitWhere(whole[1..], isSep) == sa + sb;
      if isSep(a[0]) {
        assert SplitWhere(whole, isSep) == [[]] + (sa + sb);
        assert SplitWhere(a, isSep) == [[]] + sa;
        AppendAssoc([[]], sa, sb);
      } else {
        assert (sa + sb)[0] == sa[0];
        assert (sa + sb)[1..] == sa[1..] + sb;
        assert SplitWhere(whole, isSep) == [[a[0]] + sa[0]] + (sa[1..] + sb);
        assert SplitWhere(a, isSep) == [[a[0]] + sa[0]] + sa[1..];
        AppendAssoc([[a[0]] + sa[0]], sa[1..], sb);
      }
    }
  }

  /** Splitting depends only on which characters of `s` are separators. */
  lemma {:induction false} SplitAgree(s: string, f: char -> bool, g: char -> bool)
    requires forall j :: 0 <= j < |s| ==> f(s[j]) == g(s[j])
    ensures SplitWhere(s, f) == SplitWhere(s, g)
    decreases |s|
  {
    if s != [] {
      SplitAgree(s[1..], f, g);
    }
  }

  /** Joining separator-free pieces with a separator and splitting again gives the pieces back. */
  lemma {:induction false} SplitJoin(parts: seq<string>, sep: char, isSep: char -> bool)
    requires parts != [] && isSep(sep)
    requires forall i :: 0 <= i < |parts| ==> NoCharWhere(parts[i], isSep)
    ensures SplitWhere(Join(parts, [sep]), isSep) == parts
    decreases |parts|
  {
    if |parts| == 1 {
      SplitWithoutSeparator(parts[0], isSep);
    } else {
      SplitJoin(parts[1..], sep, isSep);
      SplitAtSeparator(parts[0], sep, Join(parts[1..], [sep]), isSep);
      SplitWithoutSeparator(parts[0], isSep);
      assert parts[0] + [sep] + Join(parts[1..], [sep]) == Join(parts, [sep]);
    }
  }

  /** Joining the pieces of `s.split(c)` with `c` rebuilds `s`. */
  lemma {:induction false} JoinSplit(s: string, sep: char, isSep: char -> bool)
    requires forall x :: isSep(x) <==> x == sep
    ensures Join(SplitWhere(s, isSep), [sep]) == s
    decreases |s|
  {
    if s != [] {
      JoinSplit(s[1..], sep, isSep);
      var rest := SplitWhere(s[1..], isSep);
      if isSep(s[0]) {
        assert SplitWhere(s, isSep) == [[]] + rest;
        assert Join([[]] + rest, [sep]) == [] + [sep] + Join(rest, [sep]);
        assert [s[0]] + s[1..] == s;
      } else {
        var parts := [[s[0]] + rest[0]] + rest[1..];
        assert SplitWhere(s, isSep) == parts;
        if |rest| == 1 {
          assert Join(parts, [sep]) == [s[0]] + rest[0];
        } else {
          assert Join(rest, [sep]) == rest[0] + [sep] + Join(rest[1..], [sep]);
          assert parts[1..] == rest[1..];
          assert Join(parts, [sep]) == [s[0]] + rest[0] + [sep] + Join(rest[1..], [sep]);
        }
        assert [s[0]] + s[1..] == s;
      }
    }
  }

  // ---------------------------------------------------------------------------
  // whitespace collapsing: re.sub(r"\s+", " ", s)

  /** The non-whitespace characters of `s`, in order. */
  function NonSpace(s: string): string {
    if s == [] then [] else (if IsSpace(s[0]) then [] else [s[0]]) + NonSpace(s[1..])
  }

  /** Every maximal run of whitespace in `s` replaced by one space. */
  function Collapse(s: string): (r: string)
    ensures |r| <= |s| && (r == [] <==> s == [])
    ensures s != [] ==> r[0] == (if IsSpace(s[0]) then ' ' else s[0])
    ensures forall i :: 0 <= i < |r| && IsSpace(r[i]) ==> r[i] == ' '
    ensures forall i :: 0 <= i < |r| - 1 ==> !(r[i] == ' ' && r[i + 1] == ' ')
    ensures NonSpace(r) == NonSpace(s)
    decreases |s|
  {
    if s == [] then []
    else if IsSpace(s[0]) && |s| > 1 && IsSpace(s[1]) then
      assert NonSpace(s) == NonSpace(s[1..]);
      Collapse(s[1..])
    else
      var first := if IsSpace(s[0]) then ' ' else s[0];
      var r := [first] + Collapse(s[1..]);
      assert NonSpace(r) == (if IsSpace(first) then [] else [first]) + NonSpace(Collapse(s[1..]));
      r
  }

  lemma {:induction false} NonSpaceAppend(a: string, b: string)
    ensures NonSpace(a + b) == NonSpace(a) + NonSpace(b)
    decreases |a|
  {
    if a == [] {
      assert a + b == b;
    } else {
      assert (a + b)[0] == a[0] && (a + b)[1..] == a[1..] + b;
      NonSpaceAppend(a[1..], b);
      AppendAssoc(if IsSpace(a[0]) then [] else [a[0]], NonSpace(a[1..]), NonSpace(b));
    }
  }

  /** Whitespace alone leaves no non-whitespace character. */
  lemma {:induction false} NonSpaceOfSpaces(s: string)
    requires forall i :: 0 <= i < |s| ==> IsSpace(s[i])
    ensures NonSpace(s) == []
    decreases |s|
  {
    if s != [] {
      NonSpaceOfSpaces(s[1..]);
    }
  }

  /** Spaces and dots leave only dots. */
  lemma {:induction false} NonSpaceOfSpacesAndDots(s: string)
    requires forall i :: 0 <= i < |s| ==> IsSpaceOrDot(s[i])
    ensures forall k :: 0 <= k < |NonSpace(s)| ==> IsDot(NonSpace(s)[k])
    decreases |s|
  {
    if s != [] {
      NonSpaceOfSpacesAndDots(s[1..]);
      var head := if IsSpace(s[0]) then [] else [s[0]];
      assert NonSpace(s) == head + NonSpace(s[1..]);
    }
  }

  /** A string that begins and ends outside whitespace keeps both ends among its non-whitespace characters. */
  lemma NonSpaceEnds(c: string)
    requires c != [] && !IsSpace(c[0]) && !IsSpace(c[|c| - 1])
    ensures NonSpace(c) != []
    ensures NonSpace(c)[0] == c[0] && NonSpace(c)[|NonSpace(c)| - 1] == c[|c| - 1]
  {
    var n := |c|;
    assert NonSpace(c) == [c[0]] + NonSpace(c[1..]);
    assert c == c[..n - 1] + [c[n - 1]];
    NonSpaceAppend(c[..n - 1], [c[n - 1]]);
    assert NonSpace([c[n - 1]]) == [c[n - 1]];
  }

  /** `s.strip()` removes only whitespace. */
  lemma StripKeepsNonSpace(s: string)
    ensures NonSpace(Strip(s)) == NonSpace(s)
  {
    var a, b := StripStart(s, IsSpace), StripEnd(s, IsSpace);
    StripParts(s, IsSpace);
    NonSpaceAppend(s[..a] + Strip(s), s[b..]);
    NonSpaceAppend(s[..a], Strip(s));
    NonSpaceOfSpaces(s[..a]);
    NonSpaceOfSpaces(s[b..]);
  }

  // ---------------------------------------------------------------------------
  // replace

  predicate OccursAt(s: string, pat: string, i: int) {
    0 <= i && i + |pat| <= |s| && s[i..i + |pat|] == pat
  }

  /** `s.replace(pat, rep)`: occurrences replaced left to right, without overlap. */
  function ReplaceAll(s: string, pat: string, rep: string): (r: string)
    requires pat != []
    decreases |s|
  {
    if |s| < |pat| then s
    else if s[..|pat|] == pat then rep + ReplaceAll(s[|pat|..], pat, rep)
    else [s[0]] + ReplaceAll(s[1..], pat, rep)
  }

  /** Without an occurrence of the pattern, `replace` changes nothing. */
  lemma {:induction false} ReplaceAllAbsent(s: string, pat: string, rep: string)
    requires pat != []
    requires forall i :: !OccursAt(s, pat, i)
    ensures ReplaceAll(s, pat, rep) == s
    decreases |s|
  {
    if |s| >= |pat| {
      assert !OccursAt(s, pat, 0);
      forall i ensures !OccursAt(s[1..], pat, i) {
        if OccursAt(s[1..], pat, i) {
          assert s[1..][i..i + |pat|] == s[i + 1..i + 1 + |pat|];
          assert OccursAt(s, pat, i + 1);
        }
      }
      ReplaceAllAbsent(s[1..], pat, rep);
      assert [s[0]] + s[1..] == s;
    }
  }

  /** `replace` keeps everything before the leftmost occurrence, replaces it, and goes on after it. */
  lemma ReplaceAllAtFirst(s: string, pat: string, rep: string, k: nat)
    requires pat != []
    requires OccursAt(s, pat, k)
    requires forall j :: 0 <= j < k ==> !OccursAt(s, pat, j)
    ensures ReplaceAll(s, pat, rep) == s[..k] + rep + ReplaceAll(s[k + |pat|..], pat, rep)
  {
    SplitAtFirst(s, pat, rep, k);
  }

  lemma {:induction false} SplitAtFirst(s: string, pat: string, rep: string, k: nat)
    requires pat != []
    requires OccursAt(s, pat, k)
    requires forall j :: 0 <= j < k ==> !OccursAt(s, pat, j)
    ensures SplitsAt(s, pat, rep, k)
    decreases k
  {
    if k == 0 {
      assert s[..|pat|] == pat;
      assert s[..0] == [];
    } else {
      OccursShift(s, pat, k);
      SplitAtFirst(s[1..], pat, rep, k - 1);
      ReplaceAllStep(s, pat, rep, k);
    }
  }

  /** `replace` on `s` splits at position `k` around one replaced occurrence. */
  predicate SplitsAt(s: string, pat: string, rep: string, k: nat)
    requires pat != [] && k + |pat| <= |s|
  {
    ReplaceAll(s, pat, rep) == s[..k] + rep + ReplaceAll(s[k + |pat|..], pat, rep)
  }

  /** One step of `ReplaceAllAtFirst`: the split for `s[1..]` extends to `s`. */
  lemma ReplaceAllStep(s: string, pat: string, rep: string, k: nat)
    requires pat != [] && 0 < k && k + |pat| <= |s| && !OccursAt(s, pat, 0)
    requires SplitsAt(s[1..], pat, rep, k - 1)
    ensures SplitsAt(s, pat, rep, k)
  {
    ReplaceAllSkip(s, pat, rep);
    DropDrop(s, k - 1 + |pat|, k + |pat|);
    Rejoin(s, k, rep, ReplaceAll(s, pat, rep), ReplaceAll(s[1..], pat, rep), ReplaceAll(s[k + |pat|..], pat, rep));
  }

  /** The bookkeeping of one step of `ReplaceAllAtFirst`, apart from its quantified hypotheses. */
  lemma Rejoin(s: string, k: nat, rep: string, whole: string, tail: string, r: string)
    requires 0 < k <= |s|
    requires whole == [s[0]] + tail
    requires tail == s[1..][..k - 1] + rep + r
    ensures whole == s[..k] + rep + r
  {
    var u := s[1..][..k - 1];
    ConsTake(s, k);
    calc {
      whole;
      [s[0]] + ((u + rep) + r);
      { AppendAssoc([s[0]], u + rep, r); }
      ([s[0]] + (u + rep)) + r;
      { AppendAssoc([s[0]], u, rep); }
      (([s[0]] + u) + rep) + r;
    }
  }

  /** Without an occurrence at the front, `replace` keeps the first character. */
  lemma ReplaceAllSkip(s: string, pat: string, rep: string)
    requires pat != [] && s != [] && !OccursAt(s, pat, 0)
    ensures ReplaceAll(s, pat, rep) == [s[0]] + ReplaceAll(s[1..], pat, rep)
  {
  }

  /** The occurrences in `s[1..]` are those of `s` shifted by one. */
  lemma OccursShift(s: string, pat: string, k: nat)
    requires 0 < k && OccursAt(s, pat, k)
    requires forall j :: 0 <= j < k ==> !OccursAt(s, pat, j)
    ensures OccursAt(s[1..], pat, k - 1)
    ensures forall j :: 0 <= j < k - 1 ==> !OccursAt(s[1..], pat, j)
  {
    var t := s[1..];
    assert t[k - 1..k - 1 + |pat|] == s[k..k + |pat|];
    forall j | 0 <= j < k - 1 ensures !OccursAt(t, pat, j) {
      if OccursAt(t, pat, j) {
        assert t[j..j + |pat|] == s[j + 1..j + 1 + |pat|];
        assert OccursAt(s, pat, j + 1);
      }
    }
  }

  // ---------------------------------------------------------------------------
  // slicing and concatenation

  lemma AppendAssoc<T>(x: seq<T>, y: seq<T>, z: seq<T>)
    ensures x + (y + z) == (x + y) + z
  {
  }

  lemma TakeSnoc<T>(xs: seq<T>, i: nat)
    requires i < |xs|
    ensures xs[..i + 1] == xs[..i] + [xs[i]]
  {
  }

  lemma ThreeParts<T>(xs: seq<T>, a: nat, b: nat)
    requires a <= b <= |xs|
    ensures xs == xs[..a] + xs[a..b] + xs[b..]
  {
  }

  lemma PrefixAll<T>(xs: seq<T>, a: nat, f: T -> bool)
    requires a <= |xs|
    requires forall i :: 0 <= i < a ==> f(xs[i])
    ensures forall i :: 0 <= i < |xs[..a]| ==> f(xs[..a][i])
  {
  }

  lemma SuffixAll<T>(xs: seq<T>, b: nat, f: T -> bool)
    requires b <= |xs|
    requires forall i :: b <= i < |xs| ==> f(xs[i])
    ensures forall i :: 0 <= i < |xs[b..]| ==> f(xs[b..][i])
  {
    forall i | 0 <= i < |xs[b..]| ensures f(xs[b..][i]) {
      assert xs[b..][i] == xs[b + i];
    }
  }

  lemma DropDrop<T>(xs: seq<T>, n: nat, m: nat)
    requires m == 1 + n <= |xs|
    ensures xs[1..][n..] == xs[m..]
  {
  }

  lemma ConsTake<T>(xs: seq<T>, k: nat)
    requires 0 < k <= |xs|
    ensures [xs[0]] + xs[1..][..k - 1] == xs[..k]
  {
  }

  lemma SplitAround<T>(xs: seq<T>, k: nat)
    requires k < |xs|
    ensures xs == xs[..k] + [xs[k]] + xs[k + 1..]
  {
  }

  /** Python's `xs[:n]` for any integer `n`; a negative `n` counts from the end. */
  function PrefixSlice<T>(xs: seq<T>, n: int): (r: seq<T>)
    ensures r <= xs
    ensures n >= 0 ==> |r| == (if n <= |xs| then n else |xs|)
    ensures n < 0 ==> |r| == (if -n <= |xs| then |xs| + n else 0)
  {
    if n >= 0 then (if n <= |xs| then xs[..n] else xs)
    else if -n <= |xs| then xs[..|xs| + n]
    else []
  }
}
