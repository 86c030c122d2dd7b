// Expanding {a,b} alternations within a budget: all of the expansions, or none.
module Braces {
  const MAX_PATTERN_LENGTH: nat := 4096
  const MAX_EXPANSIONS: nat := 1024
  const MAX_DEPTH: nat := 64

  // ----- Finding a group in a text -----

  // The first opening brace at or after i, or the length of the text.
  function OpenAt(s: string, i: nat): (at: nat)
    requires i <= |s|
    ensures i <= at <= |s| && (at < |s| ==> s[at] == '{')
    decreases |s| - i
  {
    if i == |s| || s[i] == '{' then i else OpenAt(s, i + 1)
  }

  // Where `depth` open braces are all closed, or the length of the text.
  function CloseAt(s: string, i: nat, depth: nat): (at: nat)
    requires i <= |s|
    ensures i <= at <= |s| && (at < |s| ==> s[at] == '}')
    decreases |s| - i
  {
    if i == |s| then i
    else if s[i] == '{' then CloseAt(s, i + 1, depth + 1)
    else if s[i] == '}' then if depth <= 1 then i else CloseAt(s, i + 1, depth - 1)
    else CloseAt(s, i + 1, depth)
  }

  // The first top-level balanced group, if any, is s[open..close + 1]. An
  // opening brace that is never closed hides whatever follows it.
  function GroupClose(s: string): (at: nat)
    ensures OpenAt(s, 0) <= at <= |s|
    ensures at < |s| ==> OpenAt(s, 0) < at
  {
    var open := OpenAt(s, 0);
    if open == |s| then open else CloseAt(s, open + 1, 1)
  }

  // The first comma outside nested groups.
  function CommaAt(s: string, i: nat, depth: int): (at: nat)
    requires i <= |s|
    ensures i <= at <= |s| && (at < |s| ==> s[at] == ',')
    decreases |s| - i
  {
    if i == |s| then i
    else if s[i] == '{' then CommaAt(s, i + 1, depth + 1)
    else if s[i] == '}' then CommaAt(s, i + 1, depth - 1)
    else if s[i] == ',' && depth == 0 then i
    else CommaAt(s, i + 1, depth)
  }

  function Alternatives(inner: string): (alts: seq<string>)
    ensures alts != []
    decreases |inner|
  {
    var comma := CommaAt(inner, 0, 0);
    if comma == |inner| then [inner] else [inner[..comma]] + Alternatives(inner[comma + 1..])
  }

  predicate AllShorter(alts: seq<string>, bound: nat) {
    forall k :: 0 <= k < |alts| ==> |alts[k]| < bound
  }

  lemma {:induction false} AlternativesAreShorter(inner: string, bound: nat)
    requires |inner| < bound
    ensures AllShorter(Alternatives(inner), bound)
    decreases |inner|
  {
    var comma := CommaAt(inner, 0, 0);
    if comma < |inner| {
      AlternativesAreShorter(inner[comma + 1..], bound);
    }
  }

  // ----- What a pattern expands to, without a budget -----

  function Row(head: string, tails: seq<string>): seq<string> {
    if tails == [] then []
    else Row(head, tails[..|tails| - 1]) + [head + tails[|tails| - 1]]
  }

  function Cross(prefix: string, heads: seq<string>, tails: seq<string>): seq<string> {
    if heads == [] then []
    else Cross(prefix, heads[..|heads| - 1], tails) + Row(prefix + heads[|heads| - 1], tails)
  }

  function Product(s: string): seq<string>
    decreases |s|, 1, 0
  {
    var open, close := OpenAt(s, 0), GroupClose(s);
    if close == |s| then [s]
    else
      AlternativesAreShorter(s[open + 1..close], |s|);
      ProductOfAll(s[..open], Alternatives(s[open + 1..close]), s[close + 1..], |s|)
  }

  // Alternative by alternative, each followed by every expansion of the suffix.
  function ProductOfAll(prefix: string, alts: seq<string>, suffix: string, bound: nat): seq<string>
    requires |suffix| < bound && AllShorter(alts, bound)
    decreases bound, 0, |alts|
  {
    if alts == [] then []
    else
      var n := |alts| - 1;
      ProductOfAll(prefix, alts[..n], suffix, bound) + Cross(prefix, Product(alts[n]), Product(suffix))
  }

  // What expanding costs: one push per literal, per combination, at any level.
  function Cost(s: string): nat
    decreases |s|, 1, 0
  {
    var open, close := OpenAt(s, 0), GroupClose(s);
    if close == |s| then 1
    else
      AlternativesAreShorter(s[open + 1..close], |s|);
      Cost(s[close + 1..]) + CostOfAll(s[..open], Alternatives(s[open + 1..close]), s[close + 1..], |s|)
  }

  function CostOfAll(prefix: string, alts: seq<string>, suffix: string, bound: nat): nat
    requires |suffix| < bound && AllShorter(alts, bound)
    decreases bound, 0, |alts|
  {
    if alts == [] then 0
    else
      var n := |alts| - 1;
      CostOfAll(prefix, alts[..n], suffix, bound) + Cost(alts[n])
      + |Cross(prefix, Product(alts[n]), Product(suffix))|
  }

  // How deep the recursion goes: into alternatives and into the suffix alike.
  function Depth(s: string): nat
    decreases |s|, 1, 0
  {
    var open, close := OpenAt(s, 0), GroupClose(s);
    if close == |s| then 0
    else
      AlternativesAreShorter(s[open + 1..close], |s|);
      var tail, alts := Depth(s[close + 1..]), DepthOfAll(Alternatives(s[open + 1..close]), |s|);
      1 + if tail < alts then alts else tail
  }

  function DepthOfAll(alts: seq<string>, bound: nat): nat
    requires AllShorter(alts, bound)
    decreases bound, 0, |alts|
  {
    if alts == [] then 0
    else
      var rest, last := DepthOfAll(alts[..|alts| - 1], bound), Depth(alts[|alts| - 1]);
      if rest < last then last else rest
  }

  predicate WithinLimits(s: string) {
    |s| <= MAX_PATTERN_LENGTH && Depth(s) <= MAX_DEPTH && Cost(s) <= MAX_EXPANSIONS
  }

  // ----- The expander -----

  // The pushes still allowed, shared by all recursive calls.
  class Budget {
    var left: nat
    ghost var pushed: nat

    constructor (limit: nat)
      ensures left == limit && pushed == 0
    {
      left, pushed := limit, 0;
    }

    method Spend() returns (ok: bool)
      modifies this
      ensures ok == (old(left) > 0)
      ensures ok ==> left == old(left) - 1 && pushed == old(pushed) + 1
      ensures !ok ==> left == old(left) && pushed == old(pushed)
    {
      ok := left > 0;
      if ok {
        left := left - 1;
        pushed := pushed + 1;
      }
    }
  }

  method FindGroup(s: string) returns (open: nat, close: nat)
    ensures close == GroupClose(s) && (close < |s| ==> open == OpenAt(s, 0))
  {
    var depth, i := 0, 0;
    open := |s|;
    while i < |s|
      invariant i <= |s|
      invariant depth == 0 ==> open == |s| && OpenAt(s, 0) == OpenAt(s, i)
      invariant depth > 0 ==> open < |s| && open == OpenAt(s, 0) && GroupClose(s) == CloseAt(s, i, depth)
    {
      if s[i] == '{' {
        if depth == 0 {
          open := i;
        }
        depth := depth + 1;
      } else if s[i] == '}' {
        if depth > 0 {
          depth := depth - 1;
          if depth == 0 {
            return open, i;
          }
        }
      }
      i := i + 1;
    }
    close := |s|;
  }

  lemma {:induction false} CommaInSuffix(s: string, start: nat, i: nat, depth: int)
    requires start <= i <= |s|
    ensures CommaAt(s[start..], i - start, depth) + start == CommaAt(s, i, depth)
    decreases |s| - i
  {
    if i < |s| {
      assert s[start..][i - start] == s[i];
      CommaInSuffix(s, start, i + 1, if s[i] == '{' then depth + 1 else if s[i] == '}' then depth - 1 else depth);
    }
  }

  lemma AlternativesNext(inner: string, start: nat, comma: nat)
    requires start <= |inner| && comma == CommaAt(inner, start, 0) && comma < |inner|
    ensures Alternatives(inner[start..]) == [inner[start..comma]] + Alternatives(inner[comma + 1..])
  {
    var rest := inner[start..];
    CommaInSuffix(inner, start, start, 0);
    assert rest[..comma - start] == inner[start..comma] && rest[comma - start + 1..] == inner[comma + 1..];
  }

  lemma AlternativesLast(inner: string, start: nat)
    requires start <= |inner| && CommaAt(inner, start, 0) == |inner|
    ensures Alternatives(inner[start..]) == [inner[start..]]
  {
    CommaInSuffix(inner, start, start, 0);
  }

  // `alts` are the alternatives before start.
  ghost predicate SplitUpTo(inner: string, alts: seq<string>, start: nat) {
    start <= |inner| && Alternatives(inner) == alts + Alternatives(inner[start..])
  }

  lemma SplitStarts(inner: string)
    ensures SplitUpTo(inner, [], 0)
  {
  }

  lemma SplitAtComma(inner: string, alts: seq<string>, start: nat, comma: nat)
    requires SplitUpTo(inner, alts, start) && comma == CommaAt(inner, start, 0) && comma < |inner|
    ensures SplitUpTo(inner, alts + [inner[start..comma]], comma + 1)
  {
    AlternativesNext(inner, start, comma);
    OneMore(alts, inner[start..comma], Alternatives(inner[comma + 1..]));
  }

  lemma OneMore<T>(xs: seq<T>, x: T, ys: seq<T>)
    ensures xs + ([x] + ys) == (xs + [x]) + ys
  {
  }

  method SplitAlternatives(inner: string) returns (alts: seq<string>)
    ensures alts == Alternatives(inner)
  {
    alts := [];
    var depth, start, i := 0, 0, 0;
    SplitStarts(inner);
    while i < |inner|
      invariant start <= i <= |inner| && SplitUpTo(inner, alts, start)
      invariant CommaAt(inner, start, 0) == CommaAt(inner, i, depth)
    {
      if inner[i] == '{' {
        depth := depth + 1;
      } else if inner[i] == '}' {
        depth := depth - 1;
      } else if inner[i] == ',' && depth == 0 {
        SplitAtComma(inner, alts, start, i);
        alts := alts + [inner[start..i]];
        start := i + 1;
      }
      i := i + 1;
    }
    AlternativesLast(inner, start);
    alts := alts + [inner[start..]];
  }

  // Two neighbouring steps of the sums above, seen from the front of a prefix.
  lemma {:induction false} CostOfSome(prefix: string, alts: seq<string>, suffix: string, bound: nat, k: nat)
    requires |suffix| < bound && AllShorter(alts, bound)
    requires k <= |alts|
    ensures CostOfAll(prefix, alts[..k], suffix, bound) <= CostOfAll(prefix, alts, suffix, bound)
    ensures DepthOfAll(alts[..k], bound) <= DepthOfAll(alts, bound)
    decreases |alts|
  {
    if k < |alts| {
      assert alts[..|alts| - 1][..k] == alts[..k];
      CostOfSome(prefix, alts[..|alts| - 1], suffix, bound, k);
    } else {
      assert alts[..k] == alts;
    }
  }

  lemma UpToNext<T>(xs: seq<T>, k: nat)
    requires k < |xs|
    ensures xs[..k + 1][..k] == xs[..k] && xs[..k + 1][k] == xs[k] && |xs[..k + 1]| - 1 == k
  {
  }

  lemma {:induction false} RowLength(head: string, tails: seq<string>)
    ensures |Row(head, tails)| == |tails|
  {
    if tails != [] {
      RowLength(head, tails[..|tails| - 1]);
    }
  }

  lemma {:induction false} CrossOfSome(prefix: string, heads: seq<string>, tails: seq<string>, k: nat)
    requires k <= |heads|
    ensures |Cross(prefix, heads[..k], tails)| <= |Cross(prefix, heads, tails)|
    decreases |heads|
  {
    if k < |heads| {
      assert heads[..|heads| - 1][..k] == heads[..k];
      CrossOfSome(prefix, heads[..|heads| - 1], tails, k);
    } else {
      assert heads[..k] == heads;
    }
  }

  // Pushes head + tail for every tail, while the budget lasts.
  method PushRow(head: string, tails: seq<string>, budget: Budget, out: seq<string>)
    returns (ok: bool, out': seq<string>)
    modifies budget
    ensures ok <==> |tails| <= old(budget.left)
    ensures ok ==> out' == out + Row(head, tails) && budget.left == old(budget.left) - |tails|
    ensures budget.left + budget.pushed == old(budget.left + budget.pushed)
  {
    out' := out;
    for k := 0 to |tails|
      invariant k <= old(budget.left) && budget.left == old(budget.left) - k
      invariant out' == out + Row(head, tails[..k])
      invariant budget.left + budget.pushed == old(budget.left + budget.pushed)
    {
      ok := budget.Spend();
      if !ok {
        return;
      }
      UpToNext(tails, k);
      out' := out' + [head + tails[k]];
    }
    assert tails[..|tails|] == tails;
    ok := true;
  }

  method PushCross(prefix: string, heads: seq<string>, tails: seq<string>, budget: Budget, out: seq<string>)
    returns (ok: bool, out': seq<string>)
    modifies budget
    ensures ok <==> |Cross(prefix, heads, tails)| <= old(budget.left)
    ensures ok ==> out' == out + Cross(prefix, heads, tails)
    ensures ok ==> budget.left == old(budget.left) - |Cross(prefix, heads, tails)|
    ensures budget.left + budget.pushed == old(budget.left + budget.pushed)
  {
    out' := out;
    for k := 0 to |heads|
      invariant |Cross(prefix, heads[..k], tails)| <= old(budget.left)
      invariant budget.left == old(budget.left) - |Cross(prefix, heads[..k], tails)|
      invariant out' == out + Cross(prefix, heads[..k], tails)
      invariant budget.left + budget.pushed == old(budget.left + budget.pushed)
    {
      UpToNext(heads, k);
      RowLength(prefix + heads[k], tails);
      CrossOfSome(prefix, heads, tails, k + 1);
      ok, out' := PushRow(prefix + heads[k], tails, budget, out');
      if !ok {
        return;
      }
    }
    assert heads[..|heads|] == heads;
    ok := true;
  }

  lemma GroupUnfolds(s: string, prefix: string, alts: seq<string>, suffix: string)
    requires GroupClose(s) < |s|
    requires prefix == s[..OpenAt(s, 0)] && suffix == s[GroupClose(s) + 1..]
    requires alts == Alternatives(s[OpenAt(s, 0) + 1..GroupClose(s)])
    ensures |suffix| < |s| && alts != [] && AllShorter(alts, |s|)
    ensures Product(s) == ProductOfAll(prefix, alts, suffix, |s|)
    ensures Cost(s) == Cost(suffix) + CostOfAll(prefix, alts, suffix, |s|)
    ensures Depth(s) == 1 + if Depth(suffix) < DepthOfAll(alts, |s|) then DepthOfAll(alts, |s|) else Depth(suffix)
  {
    AlternativesAreShorter(s[OpenAt(s, 0) + 1..GroupClose(s)], |s|);
  }

  // Expands a pattern: exactly when depth and budget allow, in full.
  method ExpandBracesInto(pattern: string, depth: nat, budget: Budget) returns (ok: bool, out: seq<string>)
    requires depth <= MAX_DEPTH + 1
    modifies budget
    ensures ok <==> depth + Depth(pattern) <= MAX_DEPTH && Cost(pattern) <= old(budget.left)
    ensures ok ==> out == Product(pattern) && budget.left == old(budget.left) - Cost(pattern)
    ensures budget.left + budget.pushed == old(budget.left + budget.pushed)
    decreases |pattern|, 1, 0
  {
    out := [];
    if depth > MAX_DEPTH {
      return false, out;
    }
    var open, close := FindGroup(pattern);
    if close == |pattern| {
      ok := budget.Spend();
      out := if ok then [pattern] else [];
      return;
    }
    var prefix, inner, suffix := pattern[..open], pattern[open + 1..close], pattern[close + 1..];
    var alts := SplitAlternatives(inner);
    GroupUnfolds(pattern, prefix, alts, suffix);
    var tails;
    ok, tails := ExpandBracesInto(suffix, depth + 1, budget);
    if !ok {
      return;
    }
    ok, out := ExpandAlternatives(prefix, alts, suffix, |pattern|, tails, depth, budget);
  }

  // The loop over the alternatives of one group.
  method ExpandAlternatives(prefix: string, alts: seq<string>, suffix: string, bound: nat, tails: seq<string>,
                            depth: nat, budget: Budget)
    returns (ok: bool, out: seq<string>)
    requires |suffix| < bound && AllShorter(alts, bound)
    requires tails == Product(suffix) && depth <= MAX_DEPTH && alts != []
    modifies budget
    ensures ok <==>
      depth + 1 + DepthOfAll(alts, bound) <= MAX_DEPTH && CostOfAll(prefix, alts, suffix, bound) <= old(budget.left)
    ensures ok ==> out == ProductOfAll(prefix, alts, suffix, bound)
    ensures ok ==> budget.left == old(budget.left) - CostOfAll(prefix, alts, suffix, bound)
    ensures budget.left + budget.pushed == old(budget.left + budget.pushed)
    decreases bound, 0, 0
  {
    out := [];
    for k := 0 to |alts|
      invariant depth + 1 + DepthOfAll(alts[..k], bound) <= MAX_DEPTH || alts[..k] == []
      invariant CostOfAll(prefix, alts[..k], suffix, bound) <= old(budget.left)
      invariant budget.left == old(budget.left) - CostOfAll(prefix, alts[..k], suffix, bound)
      invariant out == ProductOfAll(prefix, alts[..k], suffix, bound)
      invariant budget.left + budget.pushed == old(budget.left + budget.pushed)
    {
      UpToNext(alts, k);
      CostOfSome(prefix, alts, suffix, bound, k + 1);
      var heads;
      ok, heads := ExpandBracesInto(alts[k], depth + 1, budget);
      if !ok {
        return;
      }
      ok, out := PushCross(prefix, heads, tails, budget, out);
      if !ok {
        return;
      }
    }
    assert alts[..|alts|] == alts;
    ok := true;
  }

  // All of the expansions, or the empty list exactly when a limit is exceeded.
  method ExpandBraces(pattern: string) returns (result: seq<string>, ghost pushes: nat)
    ensures result == if WithinLimits(pattern) then Product(pattern) else []
    ensures result == [] <==> !WithinLimits(pattern)
    ensures pushes <= MAX_EXPANSIONS
  {
    pushes := 0;
    ProductIsNotEmpty(pattern);
    if |pattern| > MAX_PATTERN_LENGTH {
      return [], pushes;
    }
    var budget := new Budget(MAX_EXPANSIONS);
    var ok;
    ok, result := ExpandBracesInto(pattern, 0, budget);
    pushes := budget.pushed;
    if !ok {
      result := [];
    }
  }

  lemma {:induction false} ProductIsNotEmpty(s: string)
    ensures Product(s) != []
    decreases |s|
  {
    var open, close := OpenAt(s, 0), GroupClose(s);
    if close < |s| {
      var alts, suffix := Alternatives(s[open + 1..close]), s[close + 1..];
      AlternativesAreShorter(s[open + 1..close], |s|);
      var last := alts[|alts| - 1];
      ProductIsNotEmpty(last);
      ProductIsNotEmpty(suffix);
      CrossIsNotEmpty(s[..open], Product(last), Product(suffix));
    }
  }

  lemma CrossIsNotEmpty(prefix: string, heads: seq<string>, tails: seq<string>)
    requires heads != [] && tails != []
    ensures Cross(prefix, heads, tails) != []
  {
  }
}
