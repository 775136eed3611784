/**
 * The structural code splitters of spearbot-node/src/extensions/codeSplitter.ts.
 *
 * Both splitters walk a shrinking `remainingText`, ask the boundary regex for
 * its first match, and push one trimmed chunk per loop iteration. The regex
 * engine is not modelled: a `Matcher` is any function that returns, for a
 * string, either no match or a match whose text occurs in the string at the
 * reported index (the only property of `String.prototype.match` the loops use).
 */
module CodeSplitter {
  import opened Wrappers
  import opened JsText

  /**
   * The array `String.prototype.match` returns for a non-global regex:
   * element 0 is the matched text, the capture groups follow (`undefined`
   * for a group that did not take part), and `index` is where the match starts.
   */
  datatype RegExpMatch = RegExpMatch(matched: string, captures: seq<Option<string>>, index: nat)

  /** The match result as the JavaScript array `[match[0], match[1], ...]`. */
  function MatchArray(m: RegExpMatch): seq<Option<string>> {
    [Some(m.matched)] + m.captures
  }

  /** `s => s.match(regex)` for a fixed regex, `None` standing for `null`. */
  type Matcher = string -> Option<RegExpMatch>

  /** A reported match really is the substring of `s` at its index. */
  ghost predicate MatchesWithin(s: string, found: Option<RegExpMatch>) {
    found.Some? ==>
      && found.value.index + |found.value.matched| <= |s|
      && s[found.value.index..found.value.index + |found.value.matched|] == found.value.matched
  }

  /** The one assumption made about the regex engine. */
  ghost predicate SoundMatcher(matcher: Matcher) {
    forall s :: MatchesWithin(s, matcher(s))
  }

  /** The loop guard `match && match[0]`: a match whose text is not empty. */
  predicate Live(found: Option<RegExpMatch>) {
    found.Some? && found.value.matched != ""
  }

  /**
   * `match.indexOf(match[0])` searches the match ARRAY for its own first
   * element, so it is 0 for every match, wherever the match starts.
   */
  lemma MatchIndexOfFirst(m: RegExpMatch)
    ensures IndexOf(MatchArray(m), Some(m.matched)) == 0
  {
  }

  /*
   * Specification of the loops.
   *
   * A loop iteration starts with a pending boundary text `boundary` (already
   * removed from the front of the text) and the text `rest` after it. If the
   * matcher finds a boundary in `rest` at index n, the chunk is `boundary`
   * followed by `rest[..n]`, and the next iteration continues with the new
   * boundary and the text after it; otherwise the chunk is `boundary + rest`
   * and the loop ends.
   */

  /** The untrimmed chunks produced from a pending boundary onward, in scan order. */
  function Pieces(matcher: Matcher, boundary: string, rest: string): (ps: seq<string>)
    requires SoundMatcher(matcher)
    ensures |ps| >= 1
    decreases |rest|
  {
    var found := matcher(rest);
    if Live(found) then
      var n, m := found.value.index, found.value.matched;
      [boundary + rest[..n]] + Pieces(matcher, m, rest[n + |m|..])
    else
      [boundary + rest]
  }

  /** One loop iteration: the first chunk from a pending boundary, and where the next one starts. */
  lemma PiecesStep(matcher: Matcher, boundary: string, rest: string)
    requires SoundMatcher(matcher)
    ensures var found := matcher(rest);
      if Live(found) then
        && found.value.index + |found.value.matched| <= |rest|
        && Pieces(matcher, boundary, rest)
           == [boundary + rest[..found.value.index]]
              + Pieces(matcher, found.value.matched, rest[found.value.index..][|found.value.matched|..])
      else Pieces(matcher, boundary, rest) == [boundary + rest]
  {
    var found := matcher(rest);
    if Live(found) {
      assert rest[found.value.index..][|found.value.matched|..] == rest[found.value.index + |found.value.matched|..];
    }
  }

  /** `PiecesStep` once the chunks before the pending boundary are put in front. */
  lemma PiecesAfter(matcher: Matcher, boundary: string, rest: string, done: seq<string>)
    requires SoundMatcher(matcher)
    ensures var found := matcher(rest);
      if Live(found) then
        && found.value.index + |found.value.matched| <= |rest|
        && done + Pieces(matcher, boundary, rest)
           == (done + [boundary + rest[..found.value.index]])
              + Pieces(matcher, found.value.matched, rest[found.value.index..][|found.value.matched|..])
      else done + Pieces(matcher, boundary, rest) == done + [boundary + rest]
  {
    PiecesStep(matcher, boundary, rest);
  }

  /**
   * `BaseCodeSplitter.splitText` before trimming: the condition at line 85 is
   * always true, so the first match's text is taken as the first boundary and
   * as many characters are cut from the FRONT of the text, whatever the
   * match's index.
   */
  function BasePieces(matcher: Matcher, text: string): seq<string>
    requires SoundMatcher(matcher)
  {
    var found := matcher(text);
    if Live(found) then Pieces(matcher, found.value.matched, text[|found.value.matched|..]) else []
  }

  /** The chunks `BaseCodeSplitter.splitText` returns. */
  function BaseSplit(matcher: Matcher, text: string): seq<string>
    requires SoundMatcher(matcher)
  {
    TrimAll(BasePieces(matcher, text))
  }

  /** `BaseCodeSplitter.splitText`, statement by statement. */
  method BaseSplitText(matcher: Matcher, text: string) returns (results: seq<string>)
    requires SoundMatcher(matcher)
    ensures results == BaseSplit(matcher, text)
  {
    results := [];
    ghost var pieces: seq<string> := [];
    ghost var todo: seq<string> := BasePieces(matcher, text);
    var remaining := text;
    var found := matcher(remaining);
    while Live(found)
      invariant results == TrimAll(pieces)
      invariant pieces + todo == BasePieces(matcher, text)
      invariant Live(found) ==>
        && |found.value.matched| <= |remaining|
        && todo == Pieces(matcher, found.value.matched, remaining[|found.value.matched|..])
      invariant !Live(found) ==> todo == []
      decreases |remaining|
    {
      MatchIndexOfFirst(found.value);
      var matchingText := "";
      if text != remaining || IndexOf(MatchArray(found.value), Some(found.value.matched)) == 0 {
        matchingText := found.value.matched;
        var matchingIndex := IndexOf(MatchArray(found.value), Some(matchingText));
        if matchingIndex != 0 {
          // the "Unexpected matching index" error cannot be thrown
          assert false;
        }
        remaining := remaining[|matchingText|..];
      }
      PiecesStep(matcher, matchingText, remaining);
      found := matcher(remaining);
      if Live(found) {
        var nextIndex := found.value.index;
        TrimAllAppend(pieces, matchingText + remaining[..nextIndex]);
        MoveFirst(pieces, todo);
        pieces := pieces + [matchingText + remaining[..nextIndex]];
        results := results + [Trim(matchingText + remaining[..nextIndex])];
        remaining := remaining[nextIndex..];
        todo := todo[1..];
      } else {
        TrimAllAppend(pieces, matchingText + remaining);
        MoveFirst(pieces, todo);
        pieces := pieces + [matchingText + remaining];
        results := results + [Trim(matchingText + remaining)];
        todo := [];
      }
    }
    assert pieces + todo == pieces;
  }

  /** Moving the next chunk from the ones to push to the ones pushed. */
  lemma MoveFirst(done: seq<string>, todo: seq<string>)
    requires todo != []
    ensures (done + [todo[0]]) + todo[1..] == done + todo
  {
    assert todo == [todo[0]] + todo[1..];
  }

  /**
   * `JavascriptBaseTextSplitter.splitText` before trimming, where it ends.
   * On the first iteration nothing is consumed, so a first match at index
   * n > 0 yields the text before it as the first chunk; a first match at
   * index 0 leaves every variable as it was while pushing "", and the loop
   * never ends (`None`).
   */
  function JsPieces(matcher: Matcher, text: string): Option<seq<string>>
    requires SoundMatcher(matcher)
  {
    var found := matcher(text);
    if !Live(found) then Some([])
    else if found.value.index == 0 then None
    else
      var n, m := found.value.index, found.value.matched;
      Some([text[..n]] + Pieces(matcher, m, text[n + |m|..]))
  }

  /** The chunks `JavascriptBaseTextSplitter.splitText` returns, or `None` when it runs forever. */
  function JsSplit(matcher: Matcher, text: string): Option<seq<string>>
    requires SoundMatcher(matcher)
  {
    var ps := JsPieces(matcher, text);
    if ps.Some? then Some(TrimAll(ps.value)) else None
  }

  /** n empty strings, one appended per step. */
  function Blanks(n: nat): seq<string> {
    if n == 0 then [] else Blanks(n - 1) + [""]
  }

  lemma {:induction false} TrimAllBlanks(n: nat)
    ensures TrimAll(Blanks(n)) == seq(n, _ => "")
  {
    if n > 0 {
      TrimAllBlanks(n - 1);
      TrimAllAppend(Blanks(n - 1), "");
      TrimEmpty();
    }
  }

  /**
   * The boundary text the next iteration of `JavascriptBaseTextSplitter`
   * starts its chunk with: none while the text is untouched, the last match
   * afterwards.
   */
  function PendingBoundary(text: string, remaining: string, found: Option<RegExpMatch>): string
    requires found.Some?
  {
    if remaining == text then "" else found.value.matched
  }

  /**
   * What holds each time `JavascriptBaseTextSplitter.splitText` tests its
   * loop guard, after `iterations` iterations that pushed `pieces` (before
   * trimming). A loop that ends has pushed `pieces` and will push the chunks
   * `Pieces` gives from the pending boundary; a loop that never ends is
   * stuck at the whole text, pushing "" each time.
   */
  ghost predicate JsLoopInv(matcher: Matcher, text: string, iterations: nat, remaining: string,
                            found: Option<RegExpMatch>, pieces: seq<string>)
    requires SoundMatcher(matcher)
  {
    var spec := JsPieces(matcher, text);
    && (iterations == 0 || spec.None? ==> remaining == text && found == matcher(text))
    && (spec.None? ==> pieces == Blanks(iterations))
    && (spec.Some? ==>
          && (0 < iterations ==> iterations + |remaining| <= |text|)
          && (!Live(found) ==> pieces == spec.value)
          && (Live(found) ==>
                var boundary := PendingBoundary(text, remaining, found);
                |boundary| <= |remaining|
                && pieces + Pieces(matcher, boundary, remaining[|boundary|..]) == spec.value))
  }

  lemma JsLoopInit(matcher: Matcher, text: string)
    requires SoundMatcher(matcher)
    ensures JsLoopInv(matcher, text, 0, text, matcher(text), [])
  {
    var found := matcher(text);
    if Live(found) && found.value.index != 0 {
      PiecesStep(matcher, "", text);
      assert text[found.value.index..][|found.value.matched|..] == text[found.value.index + |found.value.matched|..];
      assert "" + text[..found.value.index] == text[..found.value.index];
    }
  }

  /** One iteration of the loop keeps `JsLoopInv`. */
  lemma JsLoopStep(matcher: Matcher, text: string, iterations: nat, remaining: string,
                   found: Option<RegExpMatch>, pieces: seq<string>)
    requires SoundMatcher(matcher)
    requires JsLoopInv(matcher, text, iterations, remaining, found, pieces)
    requires Live(found)
    ensures var boundary := PendingBoundary(text, remaining, found);
      && |boundary| <= |remaining|
      && var rest := remaining[|boundary|..];
      && var next := matcher(rest);
      && (Live(next) ==>
            && next.value.index <= |rest|
            && JsLoopInv(matcher, text, iterations + 1, rest[next.value.index..], next,
                         pieces + [boundary + rest[..next.value.index]]))
      && (!Live(next) ==>
            JsLoopInv(matcher, text, iterations + 1, rest, next, pieces + [boundary + rest]))
  {
    var spec := JsPieces(matcher, text);
    var boundary := PendingBoundary(text, remaining, found);
    var rest := remaining[|boundary|..];
    var next := matcher(rest);
    if spec.None? {
      assert rest == text && next == found && next.value.index == 0;
      assert boundary + rest[..0] == "";
      assert rest[0..] == text;
    } else {
      PiecesAfter(matcher, boundary, rest, pieces);
      if Live(next) {
        var n := next.value.index;
        assert rest[n..][|next.value.matched|..] == rest[n + |next.value.matched|..];
        assert iterations == 0 ==> n > 0;
        assert rest[n..] != text;
      }
    }
  }

  /**
   * `JavascriptBaseTextSplitter.splitText`, run for at most `fuel` loop
   * iterations; `finished` says the loop guard became false. Every text on
   * which the loop ends needs at most |text| iterations; on the others every
   * iteration pushes "".
   */
  method JsSplitText(matcher: Matcher, text: string, fuel: nat) returns (results: seq<string>, finished: bool)
    requires SoundMatcher(matcher)
    ensures finished ==> JsSplit(matcher, text) == Some(results)
    ensures JsSplit(matcher, text).Some? && |text| <= fuel ==> finished
    ensures JsSplit(matcher, text).None? ==> !finished && results == seq(fuel, _ => "")
  {
    results := [];
    ghost var pieces: seq<string> := [];
    var remaining := text;
    var found := matcher(remaining);
    JsLoopInit(matcher, text);
    var iterations: nat := 0;
    while Live(found) && iterations < fuel
      invariant iterations <= fuel
      invariant results == TrimAll(pieces)
      invariant JsLoopInv(matcher, text, iterations, remaining, found, pieces)
      decreases fuel - iterations
    {
      JsLoopStep(matcher, text, iterations, remaining, found, pieces);
      MatchIndexOfFirst(found.value);
      var matchingText := "";
      if text != remaining {
        matchingText := found.value.matched;
        var matchingIndex := IndexOf(MatchArray(found.value), Some(matchingText));
        if matchingIndex != 0 {
          // the "Unexpected matching index" error cannot be thrown
          assert false;
        }
        remaining := remaining[|matchingText|..];
      }
      found := matcher(remaining);
      if Live(found) {
        var nextIndex := found.value.index;
        TrimAllAppend(pieces, matchingText + remaining[..nextIndex]);
        pieces := pieces + [matchingText + remaining[..nextIndex]];
        results := results + [Trim(matchingText + remaining[..nextIndex])];
        remaining := remaining[nextIndex..];
      } else {
        TrimAllAppend(pieces, matchingText + remaining);
        pieces := pieces + [matchingText + remaining];
        results := results + [Trim(matchingText + remaining)];
      }
      iterations := iterations + 1;
    }
    finished := !Live(found);
    JsLoopDone(matcher, text, iterations, remaining, found, pieces, fuel);
    if JsPieces(matcher, text).None? {
      TrimAllBlanks(fuel);
    }
  }

  /** When the loop stops, it has pushed every chunk, or used up its fuel. */
  lemma JsLoopDone(matcher: Matcher, text: string, iterations: nat, remaining: string,
                   found: Option<RegExpMatch>, pieces: seq<string>, fuel: nat)
    requires SoundMatcher(matcher) && iterations <= fuel
    requires JsLoopInv(matcher, text, iterations, remaining, found, pieces)
    requires !Live(found) || iterations == fuel
    ensures !Live(found) ==> JsPieces(matcher, text) == Some(pieces)
    ensures JsPieces(matcher, text).Some? && |text| <= fuel ==> !Live(found)
    ensures JsPieces(matcher, text).None? ==> Live(found) && pieces == Blanks(fuel)
  {
  }

  /*
   * Properties of the splitters.
   */

  /** The chunks from a pending boundary, before trimming, are the boundary and the rest, cut up. */
  lemma {:induction false} PiecesConcat(matcher: Matcher, boundary: string, rest: string)
    requires SoundMatcher(matcher)
    ensures Concat(Pieces(matcher, boundary, rest)) == boundary + rest
    decreases |rest|
  {
    var found := matcher(rest);
    if Live(found) {
      var n, m := found.value.index, found.value.matched;
      var tail := rest[n + |m|..];
      PiecesConcat(matcher, m, tail);
      assert Concat(Pieces(matcher, boundary, rest)) == (boundary + rest[..n]) + (m + tail);
      assert rest == rest[..n] + m + tail;
    } else {
      assert Concat([boundary + rest]) == boundary + rest + Concat([]);
    }
  }

  /**
   * `BaseCodeSplitter.splitText` returns no chunk at all exactly when the
   * regex finds no non-empty match: a text without a boundary is dropped,
   * not returned whole.
   */
  lemma BaseSplitEmpty(matcher: Matcher, text: string)
    requires SoundMatcher(matcher)
    ensures BaseSplit(matcher, text) == [] <==> !Live(matcher(text))
  {
    TrimAllAt(BasePieces(matcher, text));
  }

  /**
   * The untrimmed chunks of `BaseCodeSplitter.splitText` are the first match
   * followed by the text after its first |m0| characters; that is the text
   * itself exactly when the text begins with the match.
   */
  lemma BaseReconstruction(matcher: Matcher, text: string)
    requires SoundMatcher(matcher)
    requires Live(matcher(text))
    ensures var m0 := matcher(text).value.matched;
      && Concat(BasePieces(matcher, text)) == m0 + text[|m0|..]
      && (Concat(BasePieces(matcher, text)) == text <==> text[..|m0|] == m0)
      && (matcher(text).value.index == 0 ==> Concat(BasePieces(matcher, text)) == text)
  {
    var m0 := matcher(text).value.matched;
    PiecesConcat(matcher, m0, text[|m0|..]);
    assert text == text[..|m0|] + text[|m0|..];
    if m0 + text[|m0|..] == text {
      assert text[..|m0|] == (m0 + text[|m0|..])[..|m0|];
    }
  }

  /**
   * The splitter the comments at lines 79-81 describe: the first match is
   * consumed only when it starts the text (`match.index === 0`); otherwise
   * the text before it becomes the first chunk.
   */
  function IntendedPieces(matcher: Matcher, text: string): seq<string>
    requires SoundMatcher(matcher)
  {
    var found := matcher(text);
    if !Live(found) then []
    else if found.value.index == 0 then Pieces(matcher, found.value.matched, text[|found.value.matched|..])
    else Pieces(matcher, "", text)
  }

  /** The chunks of the corrected `BaseCodeSplitter.splitText`. */
  function IntendedSplit(matcher: Matcher, text: string): seq<string>
    requires SoundMatcher(matcher)
  {
    TrimAll(IntendedPieces(matcher, text))
  }

  /** One boundary that ends the text, not at its start: the corrected chunks are the text before it and the boundary. */
  lemma IntendedPiecesOfLastBoundary(matcher: Matcher, text: string, m: string, p: nat)
    requires SoundMatcher(matcher) && !Live(matcher(""))
    requires 0 < p && m != "" && p + |m| == |text|
    requires matcher(text) == Some(RegExpMatch(m, [], p))
    ensures IntendedPieces(matcher, text) == [text[..p], m]
  {
    PiecesStep(matcher, "", text);
    assert text[p..][|m|..] == "";
    PiecesStep(matcher, m, "");
    assert "" + text[..p] == text[..p] && m + "" == m;
  }

  /**
   * The corrected splitter loses and repeats nothing: when there is a
   * boundary, its untrimmed chunks concatenate to the text, and the first
   * chunk is the text up to the first boundary, or starts with it.
   */
  lemma IntendedReconstruction(matcher: Matcher, text: string)
    requires SoundMatcher(matcher)
    requires Live(matcher(text))
    ensures Concat(IntendedPieces(matcher, text)) == text
    ensures var found := matcher(text).value; var ps := IntendedPieces(matcher, text);
      && |ps| >= 1
      && (found.index > 0 ==> ps[0] == text[..found.index])
      && (found.index == 0 ==> ps[0][..|found.matched|] == found.matched)
  {
    var found := matcher(text).value;
    var m0 := found.matched;
    if found.index == 0 {
      PiecesConcat(matcher, m0, text[|m0|..]);
      assert text == text[..|m0|] + text[|m0|..];
      PiecesStep(matcher, m0, text[|m0|..]);
    } else {
      PiecesConcat(matcher, "", text);
      PiecesStep(matcher, "", text);
      assert "" + text[..found.index] == text[..found.index];
    }
  }

  /** `IntendedSplit` is empty exactly when there is no boundary, like `BaseSplit`. */
  lemma IntendedSplitEmpty(matcher: Matcher, text: string)
    requires SoundMatcher(matcher)
    ensures IntendedSplit(matcher, text) == [] <==> !Live(matcher(text))
  {
    TrimAllAt(IntendedPieces(matcher, text));
  }

  /** When the first boundary starts the text the two splitters agree. */
  lemma IntendedAgreesWithBase(matcher: Matcher, text: string)
    requires SoundMatcher(matcher)
    ensures BaseSplit(matcher, text) == IntendedSplit(matcher, text)
        <== !Live(matcher(text)) || matcher(text).value.index == 0
  {
  }

  /** Where `JavascriptBaseTextSplitter.splitText` ends, it is the corrected splitter. */
  lemma IntendedAgreesWithJs(matcher: Matcher, text: string)
    requires SoundMatcher(matcher)
    ensures JsSplit(matcher, text).Some? ==> JsSplit(matcher, text).value == IntendedSplit(matcher, text)
    ensures JsSplit(matcher, text).None? <==> Live(matcher(text)) && matcher(text).value.index == 0
  {
    var found := matcher(text);
    if Live(found) && found.value.index != 0 {
      PiecesStep(matcher, "", text);
      assert text[found.value.index..][|found.value.matched|..] == text[found.value.index + |found.value.matched|..];
      assert "" + text[..found.value.index] == text[..found.value.index];
    }
  }

  /**
   * `JavascriptBaseTextSplitter.splitText` on a text whose first boundary is
   * at n > 0: the first chunk is the text before it, and the untrimmed
   * chunks concatenate to the text.
   */
  lemma JsReconstruction(matcher: Matcher, text: string)
    requires SoundMatcher(matcher)
    requires Live(matcher(text)) && matcher(text).value.index > 0
    ensures JsPieces(matcher, text).Some?
    ensures Concat(JsPieces(matcher, text).value) == text
    ensures JsSplit(matcher, text).value[0] == Trim(text[..matcher(text).value.index])
  {
    IntendedAgreesWithJs(matcher, text);
    IntendedReconstruction(matcher, text);
    TrimAllAt(IntendedPieces(matcher, text));
  }

  /*
   * The boundary regex of `GenericCodeTextSplitter`, as the source text
   * handed to `new RegExp`. Inside the template literal `\\` stands for one
   * backslash and `\n` for a line feed.
   */

  /** The fixed text before the keyword alternation: optional comment lines, then the start of the line. */
  const CommentPrefix: string := "(((.*\\/\\/.*\n)*)|(.*\\/\\*.*\n))(.*("

  /** The fixed text after the keyword alternation: the rest of the line. */
  const PatternSuffix: string := ").*)"

  /** Each keyword as its own group, unescaped. */
  function Groups(keywords: seq<string>): (gs: seq<string>)
    ensures |gs| == |keywords|
    ensures forall k :: 0 <= k < |keywords| ==> gs[k] == "(" + keywords[k] + ")"
  {
    seq(|keywords|, k requires 0 <= k < |keywords| => "(" + keywords[k] + ")")
  }

  /** `(k1)|(k2)|...|(kn)`; "" for no keywords. */
  function Alternation(keywords: seq<string>): string {
    Join(Groups(keywords), '|')
  }

  /** The regex source `GenericCodeTextSplitter` builds for `keywords`. */
  function BoundaryPattern(keywords: seq<string>): string {
    CommentPrefix + Alternation(keywords) + PatternSuffix
  }

  /** What the constructor loop has appended after the keywords of `done`. */
  function GroupsWithBars(done: seq<string>): string {
    if done == [] then "" else GroupsWithBars(done[..|done| - 1]) + "(" + done[|done| - 1] + ")|"
  }

  /** The accumulated text is the alternation with one `|` too many. */
  lemma {:induction false} GroupsWithBarsAlternation(keywords: seq<string>)
    requires keywords != []
    ensures GroupsWithBars(keywords) == Alternation(keywords) + "|"
    decreases |keywords|
  {
    var n := |keywords| - 1;
    var front := keywords[..n];
    var g := "(" + keywords[n] + ")";
    assert Groups(keywords) == Groups(front) + [g];
    assert GroupsWithBars(keywords) == GroupsWithBars(front) + g + "|";
    if n > 0 {
      GroupsWithBarsAlternation(front);
      JoinSnoc(Groups(front), g, '|');
      var a := Alternation(front);
      assert Alternation(keywords) == a + "|" + g;
      assert GroupsWithBars(keywords) == (a + "|") + g + "|";
    } else {
      assert Groups(keywords) == [g];
      assert GroupsWithBars(front) == "";
    }
  }

  /**
   * The `GenericCodeTextSplitter` constructor: append `(keyword)|` per
   * keyword, drop the last character with `slice(0, length - 1)` (which
   * keeps "" for no keywords), and wrap the result.
   */
  method GenericPattern(keywords: seq<string>) returns (regex: string)
    ensures regex == BoundaryPattern(keywords)
  {
    var partialRegex := "";
    for i := 0 to |keywords|
      invariant partialRegex == GroupsWithBars(keywords[..i])
    {
      assert keywords[..i + 1][..i] == keywords[..i];
      partialRegex := partialRegex + "(" + keywords[i] + ")|";
    }
    assert keywords[..|keywords|] == keywords;
    // a negative end counts from the end of the string, clamped at 0
    var end := if |partialRegex| - 1 < 0 then 0 else |partialRegex| - 1;
    partialRegex := partialRegex[..end];
    if keywords != [] {
      GroupsWithBarsAlternation(keywords);
      assert partialRegex == Alternation(keywords);
    }
    regex := CommentPrefix + partialRegex + PatternSuffix;
  }

  /**
   * The keywords can be read back from the alternation: split on `|`, it
   * gives one group per keyword (keywords are not escaped, so this needs
   * keywords without `|`).
   */
  lemma AlternationGroups(keywords: seq<string>)
    requires forall k :: 0 <= k < |keywords| ==> '|' !in keywords[k]
    ensures keywords == [] ==> Alternation(keywords) == ""
    ensures keywords != [] ==> SplitOn(Alternation(keywords), '|') == Groups(keywords)
  {
    if keywords != [] {
      var gs := Groups(keywords);
      forall k | 0 <= k < |gs| ensures '|' !in gs[k] {
        assert gs[k] == "(" + keywords[k] + ")";
      }
      SplitOnJoin(gs, '|');
    }
  }

  /** The alternation sits between the fixed prefix and suffix. */
  lemma BoundaryPatternShape(keywords: seq<string>)
    ensures var p := BoundaryPattern(keywords);
      && |p| == |CommentPrefix| + |Alternation(keywords)| + |PatternSuffix|
      && p[..|CommentPrefix|] == CommentPrefix
      && p[|CommentPrefix|..|p| - |PatternSuffix|] == Alternation(keywords)
      && p[|p| - |PatternSuffix|..] == PatternSuffix
  {
  }
}
