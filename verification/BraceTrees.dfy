// What brace patterns mean: trees of alternatives, independent of any text.
// Expanding the printed form of a tree gives what the tree denotes.
module BraceTrees {
  import opened Braces

  datatype Pattern =
    | Empty
    | Text(c: char, rest: Pattern)
    | Group(alts: Alts, rest: Pattern)

  datatype Alts = One(only: Pattern) | More(first: Pattern, others: Alts)

  function Print(p: Pattern): string {
    match p
    case Empty => ""
    case Text(c, rest) => [c] + Print(rest)
    case Group(alts, rest) => "{" + PrintAlts(alts) + "}" + Print(rest)
  }

  function PrintAlts(alts: Alts): string {
    match alts
    case One(p) => Print(p)
    case More(p, others) => Print(p) + "," + PrintAlts(others)
  }

  // Braces are punctuation everywhere, commas inside a group.
  predicate Balanced(p: Pattern, inGroup: bool) {
    match p
    case Empty => true
    case Text(c, rest) => c != '{' && c != '}' && (inGroup ==> c != ',') && Balanced(rest, inGroup)
    case Group(alts, rest) => BalancedAlts(alts) && Balanced(rest, inGroup)
  }

  predicate BalancedAlts(alts: Alts) {
    match alts
    case One(p) => Balanced(p, true)
    case More(p, others) => Balanced(p, true) && BalancedAlts(others)
  }

  // Every choice of one alternative per group, leftmost choice slowest.
  function Denotes(p: Pattern): seq<string> {
    match p
    case Empty => [""]
    case Text(c, rest) => Row([c], Denotes(rest))
    case Group(alts, rest) => DenotesAlts(alts, Denotes(rest))
  }

  function DenotesAlts(alts: Alts, tails: seq<string>): seq<string> {
    match alts
    case One(p) => Cross("", Denotes(p), tails)
    case More(p, others) => Cross("", Denotes(p), tails) + DenotesAlts(others, tails)
  }

  // ----- Scanning printed text -----

  // s[i..j] is the given text.
  ghost predicate Spans(s: string, i: nat, j: nat, text: string) {
    i <= j <= |s| && s[i..j] == text
  }

  lemma SpanSplits(s: string, i: nat, j: nat, a: string, b: string)
    requires Spans(s, i, j, a + b)
    ensures Spans(s, i, i + |a|, a) && Spans(s, i + |a|, j, b)
  {
    assert s[i..i + |a|] == s[i..j][..|a|] && s[i + |a|..j] == s[i..j][|a|..];
  }

  // A printed pattern leaves the count of open braces as it was.
  lemma {:induction false} ClosePasses(s: string, i: nat, j: nat, p: Pattern, inGroup: bool, depth: nat)
    requires Balanced(p, inGroup) && Spans(s, i, j, Print(p)) && depth > 0
    ensures CloseAt(s, i, depth) == CloseAt(s, j, depth)
    decreases p
  {
    match p
    case Empty =>
    case Text(c, rest) =>
      SpanSplits(s, i, j, [c], Print(rest));
      assert s[i] == s[i..i + 1][0];
      ClosePasses(s, i + 1, j, rest, inGroup, depth);
    case Group(alts, rest) =>
      var body := PrintAlts(alts);
      var end := GroupSpans(s, i, j, alts, rest);
      ClosePassesAlts(s, i + 1, end, alts, depth + 1);
      ClosePasses(s, end + 1, j, rest, inGroup, depth);
  }

  lemma {:induction false} ClosePassesAlts(s: string, i: nat, j: nat, alts: Alts, depth: nat)
    requires BalancedAlts(alts) && Spans(s, i, j, PrintAlts(alts)) && depth > 0
    ensures CloseAt(s, i, depth) == CloseAt(s, j, depth)
    decreases alts
  {
    match alts
    case One(p) => ClosePasses(s, i, j, p, true, depth);
    case More(p, others) =>
      var end := CommaSpans(s, i, j, p, others);
      ClosePasses(s, i, end, p, true, depth);
      ClosePassesAlts(s, end + 1, j, others, depth);
  }

  lemma GroupSpans(s: string, i: nat, j: nat, alts: Alts, rest: Pattern) returns (end: nat)
    requires Spans(s, i, j, Print(Group(alts, rest)))
    ensures i < end < j && end == i + 1 + |PrintAlts(alts)|
    ensures s[i] == '{' && s[end] == '}'
    ensures Spans(s, i + 1, end, PrintAlts(alts)) && Spans(s, end + 1, j, Print(rest))
  {
    var body := PrintAlts(alts);
    end := i + 1 + |body|;
    SpanSplits(s, i, j, "{" + body + "}", Print(rest));
    SpanSplits(s, i, end + 1, "{" + body, "}");
    SpanSplits(s, i, end, "{", body);
    assert s[i] == s[i..i + 1][0] && s[end] == s[end..end + 1][0];
  }

  lemma CommaSpans(s: string, i: nat, j: nat, p: Pattern, others: Alts) returns (end: nat)
    requires Spans(s, i, j, PrintAlts(More(p, others)))
    ensures i <= end < j && end == i + |Print(p)| && s[end] == ','
    ensures Spans(s, i, end, Print(p)) && Spans(s, end + 1, j, PrintAlts(others))
  {
    end := i + |Print(p)|;
    SpanSplits(s, i, j, Print(p) + ",", PrintAlts(others));
    SpanSplits(s, i, end + 1, Print(p), ",");
    assert s[end] == s[end..end + 1][0];
  }

  // No comma of a printed alternative separates alternatives.
  lemma {:induction false} CommaPasses(s: string, i: nat, j: nat, p: Pattern, depth: nat)
    requires Balanced(p, true) && Spans(s, i, j, Print(p))
    ensures CommaAt(s, i, depth) == CommaAt(s, j, depth)
    decreases p
  {
    match p
    case Empty =>
    case Text(c, rest) =>
      SpanSplits(s, i, j, [c], Print(rest));
      assert s[i] == s[i..i + 1][0];
      CommaPasses(s, i + 1, j, rest, depth);
    case Group(alts, rest) =>
      var end := GroupSpans(s, i, j, alts, rest);
      CommaPassesAlts(s, i + 1, end, alts, depth + 1);
      CommaPasses(s, end + 1, j, rest, depth);
  }

  lemma {:induction false} CommaPassesAlts(s: string, i: nat, j: nat, alts: Alts, depth: nat)
    requires BalancedAlts(alts) && Spans(s, i, j, PrintAlts(alts)) && depth > 0
    ensures CommaAt(s, i, depth) == CommaAt(s, j, depth)
    decreases alts
  {
    match alts
    case One(p) => CommaPasses(s, i, j, p, depth);
    case More(p, others) =>
      var end := CommaSpans(s, i, j, p, others);
      CommaPasses(s, i, end, p, depth);
      CommaPassesAlts(s, end + 1, j, others, depth);
  }

  function Printed(alts: Alts): (texts: seq<string>)
    ensures texts != []
  {
    match alts
    case One(p) => [Print(p)]
    case More(p, others) => [Print(p)] + Printed(others)
  }

  lemma {:induction false} AlternativesOfPrint(alts: Alts)
    requires BalancedAlts(alts)
    ensures Alternatives(PrintAlts(alts)) == Printed(alts)
    decreases alts
  {
    var s := PrintAlts(alts);
    match alts
    case One(p) =>
      assert s[0..|s|] == Print(p);
      CommaPasses(s, 0, |s|, p, 0);
    case More(p, others) =>
      assert s[0..|s|] == PrintAlts(More(p, others));
      var end := CommaSpans(s, 0, |s|, p, others);
      CommaPasses(s, 0, end, p, 0);
      assert s[..end] == s[0..end] && s[end + 1..] == s[end + 1..|s|];
      AlternativesOfPrint(others);
  }

  // ----- A leading character is carried along -----

  lemma {:induction false} ShiftOpen(c: char, s: string, i: nat)
    requires i <= |s|
    ensures OpenAt([c] + s, i + 1) == OpenAt(s, i) + 1
    decreases |s| - i
  {
    if i < |s| {
      assert ([c] + s)[i + 1] == s[i];
      ShiftOpen(c, s, i + 1);
    }
  }

  lemma {:induction false} ShiftClose(c: char, s: string, i: nat, depth: nat)
    requires i <= |s|
    ensures CloseAt([c] + s, i + 1, depth) == CloseAt(s, i, depth) + 1
    decreases |s| - i
  {
    if i < |s| {
      assert ([c] + s)[i + 1] == s[i];
      ShiftClose(c, s, i + 1, depth + 1);
      ShiftClose(c, s, i + 1, depth);
      if depth > 0 { ShiftClose(c, s, i + 1, depth - 1); }
    }
  }

  lemma {:induction false} RowOfRow(c: char, head: string, tails: seq<string>)
    ensures Row([c], Row(head, tails)) == Row([c] + head, tails)
  {
    if tails != [] {
      var n := |tails| - 1;
      RowOfRow(c, head, tails[..n]);
      RowAppend([c], Row(head, tails[..n]), [head + tails[n]]);
      assert Row([c], [head + tails[n]]) == [[c] + (head + tails[n])] by {
        assert [head + tails[n]][..0] == [];
      }
      assert [c] + (head + tails[n]) == ([c] + head) + tails[n];
    }
  }

  lemma {:induction false} RowAppend(head: string, xs: seq<string>, ys: seq<string>)
    ensures Row(head, xs + ys) == Row(head, xs) + Row(head, ys)
  {
    if ys == [] {
      assert xs + ys == xs;
    } else {
      var n := |ys| - 1;
      assert (xs + ys)[..|xs + ys| - 1] == xs + ys[..n];
      RowAppend(head, xs, ys[..n]);
    }
  }

  lemma {:induction false} RowOfCross(c: char, prefix: string, heads: seq<string>, tails: seq<string>)
    ensures Row([c], Cross(prefix, heads, tails)) == Cross([c] + prefix, heads, tails)
  {
    if heads != [] {
      var n := |heads| - 1;
      RowOfCross(c, prefix, heads[..n], tails);
      RowAppend([c], Cross(prefix, heads[..n], tails), Row(prefix + heads[n], tails));
      RowOfRow(c, prefix + heads[n], tails);
      assert [c] + (prefix + heads[n]) == ([c] + prefix) + heads[n];
    }
  }

  lemma {:induction false} RowOfAll(c: char, prefix: string, alts: seq<string>, suffix: string, bound: nat)
    requires |suffix| < bound && AllShorter(alts, bound)
    ensures Row([c], ProductOfAll(prefix, alts, suffix, bound)) == ProductOfAll([c] + prefix, alts, suffix, bound)
    decreases |alts|
  {
    if alts != [] {
      var n := |alts| - 1;
      var cross := Cross(prefix, Product(alts[n]), Product(suffix));
      RowOfAll(c, prefix, alts[..n], suffix, bound);
      RowAppend([c], ProductOfAll(prefix, alts[..n], suffix, bound), cross);
      RowOfCross(c, prefix, Product(alts[n]), Product(suffix));
    }
  }

  // The bound is only there for termination.
  lemma {:induction false} BoundIsIdle(prefix: string, alts: seq<string>, suffix: string, b1: nat, b2: nat)
    requires |suffix| < b1 && AllShorter(alts, b1) && |suffix| < b2 && AllShorter(alts, b2)
    ensures ProductOfAll(prefix, alts, suffix, b1) == ProductOfAll(prefix, alts, suffix, b2)
    decreases |alts|
  {
    if alts != [] {
      BoundIsIdle(prefix, alts[..|alts| - 1], suffix, b1, b2);
    }
  }

  lemma ShiftGroup(c: char, s: string)
    requires c != '{'
    ensures OpenAt([c] + s, 0) == OpenAt(s, 0) + 1 && GroupClose([c] + s) == GroupClose(s) + 1
  {
    var t, open := [c] + s, OpenAt(s, 0);
    ShiftOpen(c, s, 0);
    assert t[0] == c && OpenAt(t, 0) == OpenAt(t, 1);
    if open < |s| {
      ShiftClose(c, s, open + 1, 1);
    }
  }

  lemma ShiftSlices(c: char, s: string, open: nat, close: nat)
    requires open < close < |s|
    ensures var t := [c] + s;
            t[..open + 1] == [c] + s[..open] && t[open + 2..close + 1] == s[open + 1..close]
            && t[close + 2..] == s[close + 1..]
  {
  }

  lemma ProductWithoutGroup(s: string)
    requires GroupClose(s) == |s|
    ensures Product(s) == [s]
  {
  }

  lemma RowOfOne(head: string, tail: string)
    ensures Row(head, [tail]) == [head + tail]
  {
    assert [tail][..0] == [];
  }

  // The same group further along, behind one more character of prefix.
  lemma ProductBehind(c: char, s: string, prefix: string, alts: seq<string>, suffix: string, t: string)
    requires |suffix| < |s| < |t| && AllShorter(alts, |s|) && AllShorter(alts, |t|)
    requires Product(s) == ProductOfAll(prefix, alts, suffix, |s|)
    requires Product(t) == ProductOfAll([c] + prefix, alts, suffix, |t|)
    ensures Product(t) == Row([c], Product(s))
  {
    hide Product, ProductOfAll, Row, AllShorter;
    RowOfAll(c, prefix, alts, suffix, |s|);
    BoundIsIdle([c] + prefix, alts, suffix, |s|, |t|);
  }

  lemma ProductOfText(c: char, s: string)
    requires c != '{'
    ensures Product([c] + s) == Row([c], Product(s))
  {
    hide Product, ProductOfAll, Row, AllShorter, Alternatives, OpenAt, GroupClose;
    ShiftGroup(c, s);
    var t, open, close := [c] + s, OpenAt(s, 0), GroupClose(s);
    if close == |s| {
      ProductWithoutGroup(s);
      ProductWithoutGroup(t);
      RowOfOne([c], s);
    } else {
      var prefix, alts, suffix := s[..open], Alternatives(s[open + 1..close]), s[close + 1..];
      ShiftSlices(c, s, open, close);
      GroupUnfolds(s, prefix, alts, suffix);
      GroupUnfolds(t, [c] + prefix, alts, suffix);
      ProductBehind(c, s, prefix, alts, suffix, t);
    }
  }

  // ----- The theorem -----

  lemma PrintUnfolds(alts: Alts, rest: Pattern, inGroup: bool)
    requires Balanced(Group(alts, rest), inGroup)
    ensures var s := Print(Group(alts, rest));
            && |Print(rest)| < |s| && AllShorter(Printed(alts), |s|)
            && Product(s) == ProductOfAll("", Printed(alts), Print(rest), |s|)
  {
    var s := Print(Group(alts, rest));
    assert s[0..|s|] == s;
    var close := GroupSpans(s, 0, |s|, alts, rest);
    ClosePassesAlts(s, 1, close, alts, 1);
    assert OpenAt(s, 0) == 0 && GroupClose(s) == close;
    AlternativesOfPrint(alts);
    assert s[..0] == "" && s[close + 1..] == s[close + 1..|s|];
    GroupUnfolds(s, "", Printed(alts), Print(rest));
  }

  lemma {:induction false} ProductOfPrint(p: Pattern, inGroup: bool)
    requires Balanced(p, inGroup)
    ensures Product(Print(p)) == Denotes(p)
    decreases p
  {
    match p
    case Empty =>
    case Text(c, rest) =>
      ProductOfPrint(rest, inGroup);
      ProductOfText(c, Print(rest));
    case Group(alts, rest) =>
      PrintUnfolds(alts, rest, inGroup);
      ProductOfPrint(rest, inGroup);
      ProductOfPrintedAlts(alts, rest, |Print(p)|);
  }

  lemma {:induction false} ProductOfPrintedAlts(alts: Alts, rest: Pattern, bound: nat)
    requires BalancedAlts(alts) && |Print(rest)| < bound && AllShorter(Printed(alts), bound)
    requires Product(Print(rest)) == Denotes(rest)
    ensures ProductOfAll("", Printed(alts), Print(rest), bound) == DenotesAlts(alts, Denotes(rest))
    decreases alts
  {
    match alts
    case One(p) =>
      ProductOfPrint(p, true);
      assert [Print(p)][..0] == [];
    case More(p, others) =>
      ProductOfPrint(p, true);
      assert |Printed(alts)[0]| < bound;
      assert AllShorter(Printed(others), bound) by {
        assert forall k :: 0 <= k < |Printed(others)| ==> Printed(others)[k] == Printed(alts)[k + 1];
      }
      ProductOfPrintedAlts(others, rest, bound);
      ProductFromTheFront("", Print(p), Printed(others), Print(rest), bound);
  }

  lemma Fronted(first: string, others: seq<string>, bound: nat)
    requires |first| < bound && AllShorter(others, bound)
    ensures AllShorter([first] + others, bound)
    ensures others != [] ==>
      var all, n := [first] + others, |others| - 1;
      all[..|all| - 1] == [first] + others[..n] && all[|all| - 1] == others[n]
  {
  }

  lemma ProductUpToLast(prefix: string, alts: seq<string>, suffix: string, bound: nat)
    requires |suffix| < bound && AllShorter(alts, bound)
    ensures if alts == [] then ProductOfAll(prefix, alts, suffix, bound) == []
            else
              var n := |alts| - 1;
              AllShorter(alts[..n], bound) && ProductOfAll(prefix, alts, suffix, bound) ==
                ProductOfAll(prefix, alts[..n], suffix, bound) + Cross(prefix, Product(alts[n]), Product(suffix))
  {
  }

  lemma {:induction false} ProductFromTheFront(prefix: string, first: string, others: seq<string>, suffix: string,
                                               bound: nat)
    requires |suffix| < bound && |first| < bound && AllShorter(others, bound)
    ensures AllShorter([first] + others, bound)
    ensures ProductOfAll(prefix, [first] + others, suffix, bound) ==
      Cross(prefix, Product(first), Product(suffix)) + ProductOfAll(prefix, others, suffix, bound)
    decreases |others|
  {
    hide ProductOfAll, Product, Cross;
    Fronted(first, others, bound);
    ProductUpToLast(prefix, [first] + others, suffix, bound);
    ProductUpToLast(prefix, others, suffix, bound);
    if others == [] {
      assert [first] + others == [first] && [first][..0] == [];
      ProductUpToLast(prefix, [], suffix, bound);
    } else {
      ProductFromTheFront(prefix, first, others[..|others| - 1], suffix, bound);
    }
  }

  // The printed form of a balanced tree, expanded: the full left-to-right
  // product of its alternatives, or nothing, and nothing exactly when a limit
  // is exceeded. Never a part of the product.
  method ExpandPrinted(p: Pattern) returns (result: seq<string>)
    requires Balanced(p, false)
    ensures result == if WithinLimits(Print(p)) then Denotes(p) else []
    ensures result == [] <==> !WithinLimits(Print(p))
  {
    ghost var pushes;
    result, pushes := ExpandBraces(Print(p));
    ProductOfPrint(p, false);
  }
}
