/**
 * `get_env_list`: the value of an environment variable such as FEEDS, read as a list.
 * The value is split into lines (a literal backslash-n counts as a line break too),
 * each line at its commas, and every piece is stripped; blank pieces are dropped.
 * The value itself is a parameter here (the empty string when the variable is unset).
 */
module EnvList {
  import opened PyStr

  /** `raw.replace("\\n", "\n")`: the two characters backslash and n become a newline. */
  function Unescape(s: string): string {
    ReplaceAll(s, "\\n", "\n")
  }

  /** The index of the first line break of `s`, or `|s|` when there is none. */
  function LineEnd(s: string): (k: nat)
    ensures k <= |s|
    ensures forall i :: 0 <= i < k ==> !IsLineBreak(s[i])
    ensures k < |s| ==> IsLineBreak(s[k])
    decreases |s|
  {
    if s == [] then 0
    else if IsLineBreak(s[0]) then 0
    else 1 + LineEnd(s[1..])
  }

  /** `s.splitlines()`: no trailing empty line, and "\r\n" ends a single line. */
  function SplitLines(s: string): (lines: seq<string>)
    decreases |s|
  {
    if s == [] then []
    else
      var k := LineEnd(s);
      if k == |s| then [s]
      else
        [s[..k]] + SplitLines(s[NextLineStart(s, k)..])
  }

  /** `[p.strip() for p in pieces if p.strip()]`. */
  function KeepNonBlank(pieces: seq<string>): (r: seq<string>)
    ensures |r| <= |pieces|
    ensures forall i :: 0 <= i < |r| ==> r[i] != [] && IsStrippedBy(r[i], IsSpace)
  {
    if pieces == [] then []
    else (if Strip(pieces[0]) != [] then [Strip(pieces[0])] else []) + KeepNonBlank(pieces[1..])
  }

  lemma {:induction false} KeepNonBlankAppend(a: seq<string>, b: seq<string>)
    ensures KeepNonBlank(a + b) == KeepNonBlank(a) + KeepNonBlank(b)
    decreases |a|
  {
    if a == [] {
      assert a + b == b;
    } else {
      assert (a + b)[0] == a[0] && (a + b)[1..] == a[1..] + b;
      KeepNonBlankAppend(a[1..], b);
      var head := if Strip(a[0]) != [] then [Strip(a[0])] else [];
      assert KeepNonBlank(a + b) == head + KeepNonBlank(a[1..] + b);
      assert KeepNonBlank(a) == head + KeepNonBlank(a[1..]);
      AppendAssoc(head, KeepNonBlank(a[1..]), KeepNonBlank(b));
    }
  }

  /** One piece gives its strip, unless that is blank. */
  lemma KeepNonBlankOne(p: string)
    ensures KeepNonBlank([p]) == if Strip(p) != [] then [Strip(p)] else []
  {
    assert [p][1..] == [];
  }

  /** The tokens one line contributes: `chunk.split(",")`, stripped, blanks dropped. */
  function ChunkTokens(chunk: string): seq<string> {
    KeepNonBlank(SplitWhere(chunk, IsComma))
  }

  /** The tokens of a list of lines, line after line. */
  function LinesTokens(lines: seq<string>): seq<string> {
    if lines == [] then [] else ChunkTokens(lines[0]) + LinesTokens(lines[1..])
  }

  lemma {:induction false} LinesTokensSnoc(lines: seq<string>, line: string)
    ensures LinesTokens(lines + [line]) == LinesTokens(lines) + ChunkTokens(line)
    decreases |lines|
  {
    if lines == [] {
      assert lines + [line] == [line];
      assert LinesTokens([line]) == ChunkTokens(line) + LinesTokens([]);
    } else {
      assert (lines + [line])[0] == lines[0] && (lines + [line])[1..] == lines[1..] + [line];
      LinesTokensSnoc(lines[1..], line);
      AppendAssoc(ChunkTokens(lines[0]), LinesTokens(lines[1..]), ChunkTokens(line));
    }
  }

  /** Where the list splits: at any line break and at any comma. */
  predicate IsListSeparator(c: char) {
    IsLineBreak(c) || c == ','
  }

  /** The reference reading of a list value: split at every separator at once, strip, drop blanks. */
  function Tokens(s: string): seq<string> {
    KeepNonBlank(SplitWhere(s, IsListSeparator))
  }

  lemma TokensOfEmpty()
    ensures Tokens([]) == []
  {
    assert Strip([]) == [];
  }

  /** A separator contributes no token and keeps the tokens on its two sides apart. */
  lemma TokensAtSeparator(a: string, c: char, b: string)
    requires IsListSeparator(c)
    ensures Tokens(a + [c] + b) == Tokens(a) + Tokens(b)
  {
    SplitAtSeparator(a, c, b, IsListSeparator);
    KeepNonBlankAppend(SplitWhere(a, IsListSeparator), SplitWhere(b, IsListSeparator));
  }

  /** A value without separators is one token: its strip, unless that is blank. */
  lemma TokensOfPiece(s: string)
    requires NoCharWhere(s, IsListSeparator)
    ensures Tokens(s) == if Strip(s) != [] then [Strip(s)] else []
  {
    SplitWithoutSeparator(s, IsListSeparator);
    KeepNonBlankOne(s);
  }

  /** On a single line only the commas separate. */
  lemma TokensOfLine(line: string)
    requires forall i :: 0 <= i < |line| ==> !IsLineBreak(line[i])
    ensures Tokens(line) == ChunkTokens(line)
  {
    SplitAgree(line, IsListSeparator, IsComma);
  }

  /** Where `s.splitlines()` resumes after the line break at `k` ("\r\n" is skipped whole). */
  function NextLineStart(s: string, k: nat): (next: nat)
    requires k < |s|
    ensures k < next <= |s|
  {
    if s[k] == '\r' && k + 1 < |s| && s[k + 1] == '\n' then k + 2 else k + 1
  }

  /** A separator at `k` splits the tokens of `s` into those before and those after it. */
  lemma TokensSplitAt(s: string, k: nat)
    requires k < |s| && IsListSeparator(s[k])
    ensures Tokens(s) == Tokens(s[..k]) + Tokens(s[k + 1..])
  {
    SplitAround(s, k);
    TokensAtSeparator(s[..k], s[k], s[k + 1..]);
  }

  /** A leading line break contributes no token. */
  lemma TokensSkipBreak(s: string)
    requires s != [] && IsListSeparator(s[0])
    ensures Tokens(s) == Tokens(s[1..])
  {
    TokensSplitAt(s, 0);
    assert s[..0] == [];
    TokensOfEmpty();
  }

  /** The first line of `s` and its line break contribute the line's comma tokens. */
  lemma TokensOfFirstLine(s: string, k: nat)
    requires k < |s| && IsLineBreak(s[k])
    requires forall i :: 0 <= i < k ==> !IsLineBreak(s[i])
    ensures Tokens(s) == ChunkTokens(s[..k]) + Tokens(s[NextLineStart(s, k)..])
  {
    TokensOfLine(s[..k]);
    TokensSplitAt(s, k);
    TokensAfterBreak(s, k);
  }

  /** After "\r\n" the tokens resume as they would after the "\r" alone. */
  lemma TokensAfterBreak(s: string, k: nat)
    requires k < |s|
    ensures Tokens(s[k + 1..]) == Tokens(s[NextLineStart(s, k)..])
  {
    if NextLineStart(s, k) == k + 2 {
      TokensSkipBreak(s[k + 1..]);
      assert s[k + 1..][1..] == s[k + 2..];
    }
  }

  /** Splitting into lines first and then at commas gives exactly the reference tokens. */
  lemma {:induction false} SplitLinesTokens(s: string)
    ensures LinesTokens(SplitLines(s)) == Tokens(s)
    decreases |s|
  {
    if s == [] {
      TokensOfEmpty();
    } else {
      var k := LineEnd(s);
      if k == |s| {
        TokensOfLine(s);
        assert SplitLines(s) == [s];
        assert LinesTokens([s]) == ChunkTokens(s) + LinesTokens([]);
      } else {
        var rest := s[NextLineStart(s, k)..];
        assert SplitLines(s) == [s[..k]] + SplitLines(rest);
        SplitLinesTokens(rest);
        TokensOfFirstLine(s, k);
      }
    }
  }

  /** `get_env_list` applied to the variable's value `raw`. */
  method GetEnvList(raw: string) returns (parts: seq<string>)
    ensures parts == Tokens(Unescape(Strip(raw)))
    ensures (forall i :: 0 <= i < |raw| ==> IsSpace(raw[i])) ==> parts == []
    ensures forall i :: 0 <= i < |parts| ==> parts[i] != [] && Strip(parts[i]) == parts[i]
  {
    var value := Strip(raw);
    if value == [] {
      assert Strip([]) == [];
      assert Tokens(Unescape(value)) == [];
      return [];
    }
    var lines := SplitLines(Unescape(value));
    parts := [];
    for i := 0 to |lines|
      invariant parts == LinesTokens(lines[..i])
    {
      TakeSnoc(lines, i);
      LinesTokensSnoc(lines[..i], lines[i]);
      parts := parts + ChunkTokens(lines[i]);
    }
    assert lines[..|lines|] == lines;
    SplitLinesTokens(Unescape(value));
    forall i | 0 <= i < |parts| ensures Strip(parts[i]) == parts[i] {
      StrippedIsFixedPoint(parts[i], IsSpace);
    }
  }

  /** A token list that needs no cleaning survives being written out with commas and read back. */
  lemma TokensOfJoined(tokens: seq<string>)
    requires forall i :: 0 <= i < |tokens| ==>
      tokens[i] != [] && IsStrippedBy(tokens[i], IsSpace) && NoCharWhere(tokens[i], IsListSeparator)
    ensures Tokens(Join(tokens, ",")) == tokens
  {
    if tokens == [] {
      assert Strip([]) == [];
    } else {
      SplitJoin(tokens, ',', IsListSeparator);
      KeepsClean(tokens);
    }
  }

  /** `get_env_list` reads back a list of clean tokens written out with commas, provided the
      written value holds no backslash-n pair for the unescaping to rewrite. */
  lemma EnvListOfJoined(tokens: seq<string>)
    requires forall i :: 0 <= i < |tokens| ==>
      tokens[i] != [] && IsStrippedBy(tokens[i], IsSpace) && NoCharWhere(tokens[i], IsListSeparator)
    requires NoEscapedNewline(Join(tokens, ","))
    ensures Tokens(Unescape(Strip(Join(tokens, ",")))) == tokens
  {
    var j := Join(tokens, ",");
    if tokens != [] {
      JoinEnds(tokens, ",");
    }
    StrippedIsFixedPoint(j, IsSpace);
    NoEscapeUnchanged(j);
    TokensOfJoined(tokens);
  }

  /** Without a backslash-n pair the unescaping changes nothing. */
  lemma NoEscapeUnchanged(s: string)
    requires NoEscapedNewline(s)
    ensures Unescape(s) == s
  {
    forall i ensures !OccursAt(s, "\\n", i) {
      if 0 <= i && i + 2 <= |s| {
        assert s[i..i + 2] == [s[i], s[i + 1]];
      }
    }
    ReplaceAllAbsent(s, "\\n", "\n");
  }

  lemma {:induction false} KeepsClean(tokens: seq<string>)
    requires forall i :: 0 <= i < |tokens| ==> tokens[i] != [] && IsStrippedBy(tokens[i], IsSpace)
    ensures KeepNonBlank(tokens) == tokens
    decreases |tokens|
  {
    if tokens != [] {
      StrippedIsFixedPoint(tokens[0], IsSpace);
      KeepsClean(tokens[1..]);
    }
  }

  /** No backslash is directly followed by the letter n. */
  predicate NoEscapedNewline(s: string) {
    forall i :: 0 <= i < |s| - 1 ==> !(s[i] == '\\' && s[i + 1] == 'n')
  }

  /** After the replacement no backslash-n pair is left. */
  lemma {:induction false} UnescapeComplete(s: string)
    ensures NoEscapedNewline(Unescape(s))
    ensures s != [] ==> Unescape(s) != [] && Unescape(s)[0] == (if OccursAt(s, "\\n", 0) then '\n' else s[0])
    decreases |s|
  {
    var r := Unescape(s);
    if |s| < 2 {
      assert r == s;
      assert |r| - 1 <= 0;
    } else if s[..2] == "\\n" {
      UnescapeComplete(s[2..]);
      var t := Unescape(s[2..]);
      assert r == "\n" + t;
      forall i | 0 <= i < |r| - 1 ensures !(r[i] == '\\' && r[i + 1] == 'n') {
        if i == 0 {
          assert r[0] == '\n';
        } else {
          assert r[i] == t[i - 1] && r[i + 1] == t[i];
        }
      }
    } else {
      UnescapeComplete(s[1..]);
      var t := Unescape(s[1..]);
      assert r == [s[0]] + t;
      forall i | 0 <= i < |r| - 1 ensures !(r[i] == '\\' && r[i + 1] == 'n') {
        if i == 0 {
          if s[0] == '\\' {
            assert s[1] != 'n' by { assert s[..2] == [s[0], s[1]]; }
            assert r[1] == t[0] != 'n';
          } else {
            assert r[0] != '\\';
          }
        } else {
          assert r[i] == t[i - 1] && r[i + 1] == t[i];
        }
      }
      assert !OccursAt(s, "\\n", 0);
    }
  }
}
