/**
 * A concrete boundary matcher: the first line of the text that contains one
 * of the keywords, from the start of the line up to (not including) its line
 * feed. On texts with no `//` or block-comment opener line, no carriage
 * return and no line or paragraph separator (U+2028, U+2029) this is the
 * match of the `GenericCodeTextSplitter` regex: `.` stops at a line
 * terminator, so the keyword part of the regex matches within one line, and
 * the leftmost match starts at the start of the earliest line holding a
 * keyword and runs greedily to its end.
 */
module LineMatcher {
  import opened Wrappers
  import opened JsText
  import opened CodeSplitter

  /** The end of the line that starts at `p`: the next line feed, or the end of the text. */
  function LineEnd(s: string, p: nat): (e: nat)
    requires p <= |s|
    ensures p <= e <= |s|
    ensures forall k :: p <= k < e ==> s[k] != '\n'
    ensures e < |s| ==> s[e] == '\n'
    decreases |s| - p
  {
    if p == |s| || s[p] == '\n' then p else LineEnd(s, p + 1)
  }

  /** `line` contains at least one of the keywords. */
  predicate ContainsAny(line: string, keywords: seq<string>) {
    keywords != [] && (Contains(line, keywords[0]) || ContainsAny(line, keywords[1..]))
  }

  /** `q` starts a line of the text read from `p` on: it is `p` itself or follows a line feed. */
  predicate LineStartFrom(s: string, p: nat, q: nat)
    requires p <= q <= |s|
  {
    q == p || s[q - 1] == '\n'
  }

  /**
   * The first keyword line at or after the line start `p`: a whole line,
   * from its start up to its line feed, that holds a keyword, and no line
   * starting before it holds one (`NoKeywordLineAt`). `None` when no line
   * from `p` on holds one.
   */
  function FirstKeywordLine(s: string, keywords: seq<string>, p: nat): (r: Option<RegExpMatch>)
    requires p <= |s|
    ensures r.Some? ==>
      && p <= r.value.index <= |s|
      && LineStartFrom(s, p, r.value.index)
      && r.value == RegExpMatch(s[r.value.index..LineEnd(s, r.value.index)], [], r.value.index)
      && ContainsAny(r.value.matched, keywords)
    decreases |s| - p
  {
    var e := LineEnd(s, p);
    if ContainsAny(s[p..e], keywords) then Some(RegExpMatch(s[p..e], [], p))
    else if e == |s| then None
    else FirstKeywordLine(s, keywords, e + 1)
  }

  /** A line starting from `p` on and before the first keyword line holds no keyword. */
  lemma {:induction false} NoKeywordLineAt(s: string, keywords: seq<string>, p: nat, q: nat)
    requires p <= q <= |s| && LineStartFrom(s, p, q)
    requires var r := FirstKeywordLine(s, keywords, p); r.None? || q < r.value.index
    ensures !ContainsAny(s[q..LineEnd(s, q)], keywords)
    decreases |s| - p
  {
    var e := LineEnd(s, p);
    if q != p {
      NoKeywordLineAt(s, keywords, e + 1, q);
    }
  }

  /** The matcher finds nothing exactly when no line of the text holds a keyword. */
  lemma KeywordLineNone(s: string, keywords: seq<string>)
    ensures FirstKeywordLine(s, keywords, 0).None? <==>
      forall q :: 0 <= q <= |s| && LineStartFrom(s, 0, q) ==> !ContainsAny(s[q..LineEnd(s, q)], keywords)
  {
    var r := FirstKeywordLine(s, keywords, 0);
    forall q | 0 <= q <= |s| && LineStartFrom(s, 0, q) && r.None?
      ensures !ContainsAny(s[q..LineEnd(s, q)], keywords)
    {
      NoKeywordLineAt(s, keywords, 0, q);
    }
    if r.Some? {
      var q := r.value.index;
      assert s[q..LineEnd(s, q)] == r.value.matched;
    }
  }

  /** `s => s.match(regex)` for the keyword-line regex. */
  function KeywordLine(keywords: seq<string>): Matcher {
    s => FirstKeywordLine(s, keywords, 0)
  }

  /** The keyword-line matcher reports text that really is at its index. */
  lemma KeywordLineSound(keywords: seq<string>)
    ensures SoundMatcher(KeywordLine(keywords))
  {
    forall s: string ensures MatchesWithin(s, KeywordLine(keywords)(s)) {
      var r := FirstKeywordLine(s, keywords, 0);
      assert KeywordLine(keywords)(s) == r;
    }
  }

  /** A substring holds only characters of the string it occurs in. */
  lemma {:induction false} ContainsChars(s: string, k: string, c: char)
    requires Contains(s, k) && c in k
    ensures c in s
    decreases |s|
  {
    if s[..|k|] == k {
      assert c in s[..|k|];
    } else {
      ContainsChars(s[1..], k, c);
    }
  }

  /** A line without a line feed ends at the end of the text. */
  lemma {:induction false} LineEndNoFeed(s: string, p: nat)
    requires p <= |s|
    requires '\n' !in s[p..]
    ensures LineEnd(s, p) == |s|
    decreases |s| - p
  {
    if p < |s| {
      assert s[p] in s[p..];
      assert s[p + 1..] == s[p..][1..];
      LineEndNoFeed(s, p + 1);
    }
  }

  /** A single line is matched whole when it holds a keyword, and not at all otherwise. */
  lemma OneLine(line: string, keywords: seq<string>)
    requires '\n' !in line
    ensures KeywordLine(keywords)(line)
      == if ContainsAny(line, keywords) then Some(RegExpMatch(line, [], 0)) else None
  {
    LineEndNoFeed(line, 0);
    assert line[0..|line|] == line;
  }

  /** Two lines, the first without a keyword: the match is the second line. */
  lemma SecondLine(first: string, second: string, keywords: seq<string>)
    requires '\n' !in first && '\n' !in second
    requires !ContainsAny(first, keywords) && ContainsAny(second, keywords)
    ensures KeywordLine(keywords)(first + "\n" + second) == Some(RegExpMatch(second, [], |first| + 1))
  {
    var text := first + "\n" + second;
    var p := |first| + 1;
    FirstLineOf(first, second);
    assert text[0..|first|] == first;
    assert FirstKeywordLine(text, keywords, 0) == FirstKeywordLine(text, keywords, p);
    assert text[p..] == second;
    LineEndNoFeed(text, p);
    assert text[p..|text|] == second;
    assert KeywordLine(keywords)(text) == FirstKeywordLine(text, keywords, 0);
  }

  /** The first of two lines ends at the line feed between them. */
  lemma FirstLineOf(first: string, second: string)
    requires '\n' !in first
    ensures LineEnd(first + "\n" + second, 0) == |first|
  {
    var text := first + "\n" + second;
    forall k | 0 <= k < |first| ensures text[k] != '\n' {
      assert text[k] == first[k];
      assert first[k] in first;
    }
    LineEndFeed(text, 0, |first|);
  }

  /** A line that ends at a line feed ends there. */
  lemma {:induction false} LineEndFeed(s: string, p: nat, e: nat)
    requires p <= e < |s| && s[e] == '\n'
    requires forall k :: p <= k < e ==> s[k] != '\n'
    ensures LineEnd(s, p) == e
    decreases e - p
  {
    if p < e {
      LineEndFeed(s, p + 1, e);
    }
  }

  /**
   * `BaseCodeSplitter.splitText` on a two-line file whose first line (a
   * pragma, say) has no keyword and is shorter than the second: the first
   * |m0| characters are cut instead of the boundary, so the whole first line
   * is lost and the chunk is the second line with its own tail glued on.
   * The corrected splitter returns the two lines.
   */
  lemma BaseSplitLosesFirstLine(first: string, second: string, keywords: seq<string>)
    requires '\n' !in first && '\n' !in second
    requires !ContainsAny(first, keywords) && ContainsAny(second, keywords)
    requires |first| < |second|
    requires !ContainsAny(second[|second| - |first| - 1..], keywords)
    ensures SoundMatcher(KeywordLine(keywords))
    ensures var text := first + "\n" + second;
      && BaseSplit(KeywordLine(keywords), text)
         == [Trim(second + second[|second| - |first| - 1..])]
      && IntendedSplit(KeywordLine(keywords), text) == [Trim(first + "\n"), Trim(second)]
  {
    KeywordLineSound(keywords);
    SecondLine(first, second, keywords);
    BaseSplitOfTwoLines(first, second, keywords);
    IntendedSplitOfTwoLines(first, second, keywords);
  }

  /** The as-written half of `BaseSplitLosesFirstLine`. */
  lemma BaseSplitOfTwoLines(first: string, second: string, keywords: seq<string>)
    requires '\n' !in first && '\n' !in second
    requires |first| < |second|
    requires !ContainsAny(second[|second| - |first| - 1..], keywords)
    requires KeywordLine(keywords)(first + "\n" + second) == Some(RegExpMatch(second, [], |first| + 1))
    ensures SoundMatcher(KeywordLine(keywords))
    ensures BaseSplit(KeywordLine(keywords), first + "\n" + second)
      == [Trim(second + second[|second| - |first| - 1..])]
  {
    KeywordLineSound(keywords);
    var matcher := KeywordLine(keywords);
    var text := first + "\n" + second;
    var cut := text[|second|..];
    assert cut == second[|second| - |first| - 1..];
    assert '\n' !in cut by {
      forall k | 0 <= k < |cut| ensures cut[k] != '\n' {
        assert cut[k] == second[|second| - |first| - 1 + k];
        assert second[|second| - |first| - 1 + k] in second;
      }
    }
    OneLine(cut, keywords);
    assert BasePieces(matcher, text) == [second + cut];
    TrimAllAppend([], second + cut);
    assert [] + [second + cut] == [second + cut];
  }

  /** The corrected half of `BaseSplitLosesFirstLine`: the text before the boundary, then the boundary line. */
  lemma IntendedSplitOfTwoLines(first: string, second: string, keywords: seq<string>)
    requires '\n' !in second && second != ""
    requires KeywordLine(keywords)(first + "\n" + second) == Some(RegExpMatch(second, [], |first| + 1))
    ensures SoundMatcher(KeywordLine(keywords))
    ensures IntendedSplit(KeywordLine(keywords), first + "\n" + second) == [Trim(first + "\n"), Trim(second)]
  {
    KeywordLineSound(keywords);
    var text := first + "\n" + second;
    OneLine("", keywords);
    IntendedPiecesOfLastBoundary(KeywordLine(keywords), text, second, |first| + 1);
    assert text[..|first| + 1] == first + "\n";
    TrimAllAppend([], first + "\n");
    TrimAllAppend([first + "\n"], second);
  }

  /** Trimming a line that starts and ends with a visible character removes only a trailing line feed. */
  lemma TrimLine(line: string, tail: string)
    requires |line| > 0 && !IsWhitespace(line[0]) && !IsWhitespace(line[|line| - 1])
    requires tail == "\n" || tail == "" || (|tail| > 0 && !IsWhitespace(tail[|tail| - 1]))
    ensures Trim(line + tail) == if tail == "\n" then line else line + tail
  {
    var s := line + tail;
    assert s[0] == line[0];
    assert TrimStart(s) == s;
    if tail == "\n" {
      assert s[..|s| - 1] == line;
      assert TrimEnd(s) == TrimEnd(line);
    } else if tail == "" {
      assert s == line;
    } else {
      assert s[|s| - 1] == tail[|tail| - 1];
    }
  }

  /** A line holds no keyword when each keyword has a letter the line lacks. */
  lemma {:induction false} NoKeyword(line: string, keywords: seq<string>, missing: seq<char>)
    requires |missing| == |keywords|
    requires forall k :: 0 <= k < |keywords| ==> missing[k] in keywords[k] && missing[k] !in line
    ensures !ContainsAny(line, keywords)
    decreases |keywords|
  {
    if keywords != [] {
      if Contains(line, keywords[0]) {
        ContainsChars(line, keywords[0], missing[0]);
      }
      NoKeyword(line, keywords[1..], missing[1..]);
    }
  }

  /**
   * The smallest Solidity example: a pragma line before the contract. The
   * pragma is lost and the contract line comes out with "tract A {}" glued
   * on; the corrected splitter keeps both lines.
   */
  lemma BaseSplitLosesPragma()
    ensures var matcher := KeywordLine(["contract", "interface", "function", "constructor"]);
      && SoundMatcher(matcher)
      && BaseSplit(matcher, "pragma x;\ncontract A {}") == ["contract A {}tract A {}"]
      && IntendedSplit(matcher, "pragma x;\ncontract A {}") == ["pragma x;", "contract A {}"]
  {
    var keywords := ["contract", "interface", "function", "constructor"];
    PragmaLines(keywords);
    PragmaTrims();
    BaseSplitLosesFirstLine("pragma x;", "contract A {}", keywords);
  }

  /** The two lines of the example meet the conditions of `BaseSplitLosesFirstLine`. */
  lemma PragmaLines(keywords: seq<string>)
    requires keywords == ["contract", "interface", "function", "constructor"]
    ensures "pragma x;" + "\n" + "contract A {}" == "pragma x;\ncontract A {}"
    ensures '\n' !in "pragma x;" && '\n' !in "contract A {}"
    ensures !ContainsAny("pragma x;", keywords) && ContainsAny("contract A {}", keywords)
    ensures "contract A {}"[3..] == "tract A {}" && !ContainsAny("tract A {}", keywords)
  {
    PragmaText();
    PragmaTail();
    PragmaNoFeed();
    PragmaKeywords(keywords);
  }

  lemma PragmaNoFeed()
    ensures '\n' !in "pragma x;" && '\n' !in "contract A {}"
  {
  }

  lemma PragmaKeywords(keywords: seq<string>)
    requires keywords == ["contract", "interface", "function", "constructor"]
    ensures !ContainsAny("pragma x;", keywords) && ContainsAny("contract A {}", keywords)
    ensures !ContainsAny("tract A {}", keywords)
  {
    // each keyword has a letter the pragma line and the tail lack
    LacksSolidityKeywords("pragma x;", keywords);
    LacksSolidityKeywords("tract A {}", keywords);
    assert "contract A {}"[..8] == "contract";
  }

  /** A line without the letters `o` and `i` holds none of the Solidity keywords. */
  lemma LacksSolidityKeywords(line: string, keywords: seq<string>)
    requires keywords == ["contract", "interface", "function", "constructor"]
    requires 'o' !in line && 'i' !in line
    ensures !ContainsAny(line, keywords)
  {
    NoKeyword(line, keywords, ['o', 'i', 'o', 'o']);
  }

  lemma PragmaText()
    ensures "pragma x;" + "\n" + "contract A {}" == "pragma x;\ncontract A {}"
  {
  }

  lemma PragmaTail()
    ensures "contract A {}"[3..] == "tract A {}"
  {
  }

  /** The chunks of the example, trimmed. */
  lemma PragmaTrims()
    ensures Trim("contract A {}" + "contract A {}"[3..]) == "contract A {}tract A {}"
    ensures Trim("pragma x;" + "\n") == "pragma x;"
    ensures Trim("contract A {}") == "contract A {}"
  {
    var contract := "contract A {}";
    assert contract[3..] == "tract A {}";
    assert contract + "tract A {}" == "contract A {}tract A {}";
    TrimLine(contract, "tract A {}");
    TrimLine("pragma x;", "\n");
    TrimLine(contract, "");
    assert contract + "" == contract;
  }
}
