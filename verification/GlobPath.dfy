// Matching whole paths: `**` across segments, memoised, and the split of a
// pattern into the prefix that is resolved and the tail that is listed.
module GlobPath {
  import opened Paths
  import opened GlobSegment

  const DOUBLE_STAR: string := "**"

  // The pattern segments from pi on match the path segments from si on, a `**`
  // taking any number of segments.
  ghost predicate PathFrom(patterns: seq<string>, pi: nat, path: seq<string>, si: nat)
    requires pi <= |patterns| && si <= |path|
    decreases |patterns| - pi
  {
    if pi == |patterns| then si == |path|
    else
      var next := pi + 1;
      if patterns[pi] == DOUBLE_STAR then exists k :: si <= k <= |path| && PathFrom(patterns, next, path, k)
      else si < |path| && Matches(patterns[pi], path[si]) && PathFrom(patterns, next, path, si + 1)
  }

  ghost predicate MatchesPath(pattern: string, path: string) {
    PathFrom(Segments(pattern), 0, Segments(path), 0)
  }

  // Segment by segment: a `**` takes nothing, or one segment and stays.
  lemma OneSegment(patterns: seq<string>, pi: nat, path: seq<string>, si: nat)
    requires pi <= |patterns| && si <= |path|
    ensures PathFrom(patterns, pi, path, si) <==>
      if pi == |patterns| then si == |path|
      else if patterns[pi] == DOUBLE_STAR then
        PathFrom(patterns, pi + 1, path, si) || (si < |path| && PathFrom(patterns, pi, path, si + 1))
      else si < |path| && Matches(patterns[pi], path[si]) && PathFrom(patterns, pi + 1, path, si + 1)
  {
  }

  // ----- The memoised matcher -----

  ghost predicate Answers(patterns: seq<string>, path: seq<string>, c: (nat, nat), answer: bool) {
    c.0 < |patterns| && c.1 <= |path| && answer == PathFrom(patterns, c.0, path, c.1)
  }

  ghost predicate Answered(cells: map<(nat, nat), bool>, patterns: seq<string>, path: seq<string>) {
    forall c <- cells :: Answers(patterns, path, c, cells[c])
  }

  lemma AnsweredOneMore(cells: map<(nat, nat), bool>, patterns: seq<string>, path: seq<string>, c: (nat, nat),
                        answer: bool)
    requires Answered(cells, patterns, path) && Answers(patterns, path, c, answer)
    ensures Answered(cells[c := answer], patterns, path)
  {
  }

  // The memo table: which positions have been answered, and how.
  class Memo {
    var cells: map<(nat, nat), bool>
    ghost var stores: nat

    constructor ()
      ensures cells == map[] && stores == 0
    {
      cells, stores := map[], 0;
    }

    // Every filled cell holds the answer for its position, and was computed
    // once: there were as many stores as there are cells.
    ghost predicate Sound(patterns: seq<string>, path: seq<string>)
      reads this
    {
      && stores == |cells|
      && Answered(cells, patterns, path)
    }

    method Store(pi: nat, si: nat, result: bool)
      requires (pi, si) !in cells && stores == |cells|
      modifies this
      ensures Grew(old(cells), cells, pi, si)
      ensures cells == old(cells)[(pi, si) := result] && stores == |cells|
    {
      assert cells[(pi, si) := result].Keys == cells.Keys + {(pi, si)};
      cells := cells[(pi, si) := result];
      stores := stores + 1;
    }
  }

  // Only empty cells from (pi, si) on were filled.
  ghost predicate Grew(before: map<(nat, nat), bool>, after: map<(nat, nat), bool>, pi: nat, si: nat) {
    && (forall c <- before :: c in after && after[c] == before[c])
    && (forall c <- after :: c in before || (pi <= c.0 && si <= c.1))
  }

  lemma GrewTwice(a: map<(nat, nat), bool>, b: map<(nat, nat), bool>, c: map<(nat, nat), bool>,
                  p1: nat, s1: nat, p2: nat, s2: nat, pi: nat, si: nat)
    requires Grew(a, b, p1, s1) && Grew(b, c, p2, s2)
    requires pi <= p1 && si <= s1 && pi <= p2 && si <= s2
    ensures Grew(a, c, pi, si)
    ensures (pi, si) !in a && (pi < p1 || si < s1) && (pi < p2 || si < s2) ==> (pi, si) !in c
  {
  }

  method MatchSegments(patterns: seq<string>, path: seq<string>, pi: nat, si: nat, memo: Memo)
    returns (result: bool)
    requires pi <= |patterns| && si <= |path| && memo.Sound(patterns, path)
    modifies memo
    ensures memo.Sound(patterns, path) && Grew(old(memo.cells), memo.cells, pi, si)
    ensures result <==> PathFrom(patterns, pi, path, si)
    decreases |patterns| - pi, |path| - si
  {
    OneSegment(patterns, pi, path, si);
    if pi == |patterns| {
      return si == |path|;
    }
    if (pi, si) in memo.cells {
      return memo.cells[(pi, si)];
    }
    ghost var before := memo.cells;
    if patterns[pi] == DOUBLE_STAR {
      result := MatchSegments(patterns, path, pi + 1, si, memo);
      GrewTwice(before, before, memo.cells, pi + 1, si, pi + 1, si, pi, si);
      if !result && si < |path| {
        ghost var middle := memo.cells;
        result := MatchSegments(patterns, path, pi, si + 1, memo);
        GrewTwice(before, middle, memo.cells, pi + 1, si, pi, si + 1, pi, si);
      }
    } else if si == |path| {
      result := false;
    } else {
      ghost var turns;
      result, turns := MatchSegment(patterns[pi], path[si]);
      if result {
        result := MatchSegments(patterns, path, pi + 1, si + 1, memo);
        GrewTwice(before, before, memo.cells, pi + 1, si + 1, pi + 1, si + 1, pi, si);
      }
    }
    ghost var filled := memo.cells;
    AnsweredOneMore(filled, patterns, path, (pi, si), result);
    memo.Store(pi, si, result);
    GrewTwice(before, filled, memo.cells, pi, si, pi, si, pi, si);
  }

  method MatchPath(pattern: string, path: string) returns (matched: bool)
    ensures matched <==> MatchesPath(pattern, path)
  {
    var patterns := SplitOnSlash(pattern);
    var segments := SplitOnSlash(path);
    var memo := new Memo();
    matched := MatchSegments(patterns, segments, 0, 0, memo);
  }

  // ----- Splitting a pattern -----

  predicate IsMeta(c: char) { c == '*' || c == '?' || c == '[' || c == '{' }

  predicate HasMeta(pattern: string) { exists i :: 0 <= i < |pattern| && IsMeta(pattern[i]) }

  method HasGlobMetacharacters(pattern: string) returns (has: bool)
    ensures has == HasMeta(pattern)
  {
    for i := 0 to |pattern|
      invariant !HasMeta(pattern[..i])
    {
      if IsMeta(pattern[i]) {
        return true;
      }
      assert pattern[..i + 1] == pattern[..i] + [pattern[i]];
    }
    assert pattern[..|pattern|] == pattern;
    has := false;
  }

  predicate HasDoubleStar(text: string) {
    exists i :: 0 <= i < |text| - 1 && text[i] == '*' && text[i + 1] == '*'
  }

  datatype GlobSplit = GlobSplit(literalPrefix: string, patternTail: string, recursive: bool)

  // `f` is the first segment with a metacharacter.
  ghost predicate FirstMeta(segments: seq<string>, f: nat) {
    f < |segments| && HasMeta(segments[f]) && forall i :: 0 <= i < f ==> !HasMeta(segments[i])
  }

  ghost predicate SplitsAt(pattern: string, split: GlobSplit, f: nat) {
    var segments := Segments(pattern);
    && FirstMeta(segments, f)
    && split.literalPrefix == Join(segments[..f]) && split.patternTail == Join(segments[f..])
    && (split.recursive <==> |segments| - f > 1 || HasDoubleStar(split.patternTail))
  }

  lemma {:induction false} MetaIsInSomeSegment(segments: seq<string>)
    ensures HasMeta(Join(segments)) <==> exists i :: 0 <= i < |segments| && HasMeta(segments[i])
  {
    if |segments| > 1 {
      var head, rest := segments[0], Join(segments[1..]);
      MetaIsInSomeSegment(segments[1..]);
      MetaOfConcat(head + "/", rest);
      MetaOfConcat(head, "/");
      assert forall i :: 0 < i < |segments| ==> segments[i] == segments[1..][i - 1];
    }
  }

  lemma MetaOfConcat(a: string, b: string)
    ensures HasMeta(a + b) <==> HasMeta(a) || HasMeta(b)
  {
    assert forall i :: 0 <= i < |a| ==> (a + b)[i] == a[i];
    assert forall i :: 0 <= i < |b| ==> (a + b)[|a| + i] == b[i];
  }

  // Joins the segments from lo to hi with slashes, as SplitGlob does.
  method JoinRange(segments: seq<string>, lo: nat, hi: nat) returns (joined: string)
    requires lo <= hi <= |segments|
    ensures lo == 0 ==> joined == Join(segments[..hi])
    ensures hi == |segments| ==> joined == Join(segments[lo..])
  {
    joined := "";
    for i := lo to hi
      invariant joined == Join(segments[lo..i])
    {
      if i > lo {
        JoinAppend(segments[lo..i], [segments[i]]);
        joined := joined + "/";
      }
      joined := joined + segments[i];
      assert segments[lo..i + 1] == segments[lo..i] + [segments[i]];
    }
    assert lo == 0 ==> segments[lo..hi] == segments[..hi];
    assert hi == |segments| ==> segments[lo..hi] == segments[lo..];
  }

  method FindDoubleStar(text: string) returns (found: bool)
    ensures found == HasDoubleStar(text)
  {
    var i := 0;
    while i + 1 < |text|
      invariant forall k :: 0 <= k < i && k < |text| - 1 ==> !(text[k] == '*' && text[k + 1] == '*')
    {
      if text[i] == '*' && text[i + 1] == '*' {
        return true;
      }
      i := i + 1;
    }
    found := false;
  }

  method FirstGlobSegment(segments: seq<string>) returns (first: nat)
    requires HasMeta(Join(segments))
    ensures FirstMeta(segments, first)
  {
    MetaIsInSomeSegment(segments);
    first := 0;
    while first < |segments|
      invariant first <= |segments| && forall i :: 0 <= i < first ==> !HasMeta(segments[i])
    {
      var here := HasGlobMetacharacters(segments[first]);
      if here {
        return;
      }
      first := first + 1;
    }
  }

  method SplitGlob(pattern: string) returns (split: GlobSplit, ghost f: nat)
    ensures !HasMeta(pattern) ==> split == GlobSplit(pattern, "", false)
    ensures HasMeta(pattern) ==> SplitsAt(pattern, split, f)
  {
    f := 0;
    var meta := HasGlobMetacharacters(pattern);
    if !meta {
      return GlobSplit(pattern, "", false), f;
    }
    var segments := SplitOnSlash(pattern);
    var first := FirstGlobSegment(segments);
    var prefix := JoinRange(segments, 0, first);
    var tail := JoinRange(segments, first, |segments|);
    var stars := FindDoubleStar(tail);
    f := first;
    split := GlobSplit(prefix, tail, |segments| - first > 1 || stars);
  }

  // ----- The split loses no match -----

  // A segment without metacharacters matches itself and nothing else.
  lemma {:induction false} LiteralFrom(pattern: string, i: nat, name: string, s: nat)
    requires !HasMeta(pattern) && i <= |pattern| && s <= |name|
    ensures MatchesFrom(pattern, i, name, s) <==> pattern[i..] == name[s..]
    decreases |pattern| - i
  {
    if i < |pattern| {
      assert !IsMeta(pattern[i]);
      assert pattern[i..] == [pattern[i]] + pattern[i + 1..];
      if s < |name| {
        assert name[s..] == [name[s]] + name[s + 1..];
        LiteralFrom(pattern, i + 1, name, s + 1);
      }
    }
  }

  lemma LiteralMatchesItself(pattern: string, name: string)
    requires !HasMeta(pattern)
    ensures Matches(pattern, name) <==> pattern == name
  {
    LiteralFrom(pattern, 0, name, 0);
  }

  // Literal leading segments are matched one for one.
  lemma {:induction false} LiteralSegments(patterns: seq<string>, f: nat, path: seq<string>, i: nat)
    requires i <= f <= |patterns| && i <= |path|
    requires forall k :: 0 <= k < f ==> !HasMeta(patterns[k])
    ensures PathFrom(patterns, i, path, i) ==>
      f <= |path| && path[i..f] == patterns[i..f] && PathFrom(patterns, f, path, f)
    decreases f - i
  {
    if i < f {
      assert HasMeta(DOUBLE_STAR) by { assert IsMeta(DOUBLE_STAR[0]); }
      if i < |path| {
        LiteralMatchesItself(patterns[i], path[i]);
        LiteralSegments(patterns, f, path, i + 1);
        if PathFrom(patterns, i, path, i) {
          assert path[i..f] == [path[i]] + path[i + 1..f];
          assert patterns[i..f] == [patterns[i]] + patterns[i + 1..f];
        }
      }
    }
  }

  // Every path the pattern accepts starts with the prefix's segments, and when
  // the split is not recursive it has exactly one segment more: listing the
  // prefix, one level or all, sees it.
  lemma SplitLosesNothing(pattern: string, split: GlobSplit, f: nat, path: string)
    requires HasMeta(pattern) && SplitsAt(pattern, split, f) && MatchesPath(pattern, path)
    ensures var segments := Segments(path);
            && f <= |segments| && segments[..f] == Segments(pattern)[..f]
            && (f > 0 ==> segments[..f] == Segments(split.literalPrefix))
            && (!split.recursive ==> |segments| == f + 1)
  {
    hide Segments, PathFrom, HasMeta;
    var patterns, segments := Segments(pattern), Segments(path);
    LiteralSegments(patterns, f, segments, 0);
    assert segments[0..f] == segments[..f] && patterns[0..f] == patterns[..f];
    if f > 0 {
      SegmentsOfJoin(patterns[..f]);
    }
    if !split.recursive {
      assert patterns[f..] == [patterns[f]] && split.patternTail == patterns[f];
      OneSegment(patterns, f, segments, f);
      if f < |segments| {
        OneSegment(patterns, f + 1, segments, f + 1);
      }
      assert HasDoubleStar(DOUBLE_STAR) by { assert DOUBLE_STAR[0] == '*' && DOUBLE_STAR[0 + 1] == '*'; }
    }
  }
}
