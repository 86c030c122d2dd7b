// Matching one path segment against one glob segment. A name is a sequence of
// bytes, written here as characters 0 to 255.
module GlobSegment {
  // Whether the platform's plain char is signed. All that follows holds either way.
  const SIGNED_CHARS: bool

  // A byte as the platform compares it.
  function Order(c: char): int {
    if SIGNED_CHARS && 128 <= c as int < 256 then c as int - 256 else c as int
  }

  // ----- What a pattern means -----

  // One member of a character class: the characters from lo to hi.
  datatype Item = Item(lo: char, hi: char)

  datatype Token =
    | Star                                        // any run of characters
    | AnyOne                                      // exactly one character
    | Class(negated: bool, items: seq<Item>)      // one character in, or not in, the class
    | Literal(c: char)

  datatype ClassBody = Unclosed | Body(items: seq<Item>, end: nat)

  // The members from position i up to the closing bracket. A `]` that comes
  // first is a member; a `-` makes a range unless it comes first or last.
  function ClassBodyAt(pattern: string, i: nat, first: bool): (body: ClassBody)
    ensures body.Body? ==> i < body.end <= |pattern|
    decreases |pattern| - i
  {
    if i >= |pattern| then Unclosed
    else if pattern[i] == ']' && !first then Body([], i + 1)
    else
      var isRange := i + 2 < |pattern| && pattern[i + 1] == '-' && pattern[i + 2] != ']';
      var item := if isRange then Item(pattern[i], pattern[i + 2]) else Item(pattern[i], pattern[i]);
      match ClassBodyAt(pattern, if isRange then i + 3 else i + 1, false)
      case Unclosed => Unclosed
      case Body(items, end) => Body([item] + items, end)
  }

  predicate StartsNegation(pattern: string, i: nat) {
    i < |pattern| && (pattern[i] == '!' || pattern[i] == '^')
  }

  predicate Within(item: Item, c: char) { Order(item.lo) <= Order(c) <= Order(item.hi) }

  predicate InItems(items: seq<Item>, c: char) {
    exists k :: 0 <= k < |items| && Within(items[k], c)
  }

  // The token that starts at i and where the next one starts. A `[` that is
  // never closed stands for itself.
  function TokenAt(pattern: string, i: nat): (r: (Token, nat))
    requires i < |pattern|
    ensures i < r.1 <= |pattern|
  {
    match pattern[i]
    case '*' => (Star, i + 1)
    case '?' => (AnyOne, i + 1)
    case '[' =>
      var negated := StartsNegation(pattern, i + 1);
      (match ClassBodyAt(pattern, if negated then i + 2 else i + 1, true)
       case Unclosed => (Literal('['), i + 1)
       case Body(items, end) => (Class(negated, items), end))
    case c => (Literal(c), i + 1)
  }

  predicate Accepts(t: Token, c: char)
    requires !t.Star?
  {
    match t
    case AnyOne => true
    case Class(negated, items) => InItems(items, c) != negated
    case Literal(l) => l == c
  }

  // The pattern from i on matches the name from s on: token by token, a star
  // taking any number of characters.
  ghost predicate MatchesFrom(pattern: string, i: nat, name: string, s: nat)
    requires i <= |pattern| && s <= |name|
    decreases |pattern| - i
  {
    if i == |pattern| then s == |name|
    else
      var (t, next) := TokenAt(pattern, i);
      if t.Star? then exists k :: s <= k <= |name| && MatchesFrom(pattern, next, name, k)
      else s < |name| && Accepts(t, name[s]) && MatchesFrom(pattern, next, name, s + 1)
  }

  // It matches the name from s on after skipping any number of characters.
  ghost predicate MatchesSomewhere(pattern: string, i: nat, name: string, s: nat)
    requires i <= |pattern| && s <= |name|
  {
    exists k :: s <= k <= |name| && MatchesFrom(pattern, i, name, k)
  }

  ghost predicate Matches(pattern: string, name: string) {
    MatchesFrom(pattern, 0, name, 0)
  }

  // ----- The class scanner -----

  // What the scan has found out: `seen` then the members from i on are the
  // whole class, if it is closed at all.
  ghost predicate Scanned(whole: ClassBody, seen: seq<Item>, rest: ClassBody) {
    match rest
    case Unclosed => whole == Unclosed
    case Body(items, end) => whole == Body(seen + items, end)
  }

  lemma ScanOneMore(whole: ClassBody, seen: seq<Item>, item: Item, rest: ClassBody)
    requires Scanned(whole, seen,
                     match rest case Unclosed => Unclosed case Body(items, end) => Body([item] + items, end))
    ensures Scanned(whole, seen + [item], rest)
  {
  }

  // Scans a class once, testing c against each member as it goes; agrees with
  // collecting the members first and testing afterwards.
  method ScanClass(pattern: string, start: nat, c: char) returns (closed: bool, end: nat, found: bool)
    requires start <= |pattern|
    ensures match ClassBodyAt(pattern, start, true)
            case Unclosed => !closed
            case Body(items, stop) => closed && end == stop && found == InItems(items, c)
  {
    var i, first := start, true;
    end, found := start, false;
    ghost var whole := ClassBodyAt(pattern, start, true);
    ghost var seen: seq<Item> := [];
    if whole.Body? { assert seen + whole.items == whole.items; }
    while true
      invariant i <= |pattern|
      invariant Scanned(whole, seen, ClassBodyAt(pattern, i, first))
      invariant found == InItems(seen, c)
      decreases |pattern| - i
    {
      if i >= |pattern| {
        return false, end, found;
      }
      if pattern[i] == ']' && !first {
        assert seen + [] == seen;
        return true, i + 1, found;
      }
      first := false;
      if i + 2 < |pattern| && pattern[i + 1] == '-' && pattern[i + 2] != ']' {
        var lo, hi := pattern[i], pattern[i + 2];
        if Order(lo) <= Order(c) <= Order(hi) {
          found := true;
        }
        InOneMore(seen, Item(lo, hi), c);
        ScanOneMore(whole, seen, Item(lo, hi), ClassBodyAt(pattern, i + 3, false));
        seen := seen + [Item(lo, hi)];
        i := i + 3;
      } else {
        if pattern[i] == c {
          found := true;
        }
        InOneMore(seen, Item(pattern[i], pattern[i]), c);
        ScanOneMore(whole, seen, Item(pattern[i], pattern[i]), ClassBodyAt(pattern, i + 1, false));
        seen := seen + [Item(pattern[i], pattern[i])];
        i := i + 1;
      }
    }
  }

  // The class that starts after the `[` before `start`.
  method TryMatchClass(pattern: string, start: nat, c: char) returns (closed: bool, end: nat, matched: bool)
    requires 0 < start <= |pattern| && pattern[start - 1] == '['
    ensures var (t, next) := TokenAt(pattern, start - 1);
            if closed then t.Class? && end == next && matched == Accepts(t, c)
            else t == Literal('[') && next == start
  {
    var i, negate := start, false;
    if i < |pattern| && (pattern[i] == '!' || pattern[i] == '^') {
      negate := true;
      i := i + 1;
    }
    closed, end, matched := ScanClass(pattern, i, c);
    matched := if negate then !matched else matched;
  }

  lemma InOneMore(seen: seq<Item>, item: Item, c: char)
    ensures InItems(seen + [item], c) <==> InItems(seen, c) || Within(item, c)
  {
    if InItems(seen, c) {
      var k :| 0 <= k < |seen| && Within(seen[k], c);
      assert (seen + [item])[k] == seen[k];
    }
    assert (seen + [item])[|seen|] == item;
  }

  // ----- The two-pointer matcher -----

  // From i, exactly `count` tokens, none of them a star, lead to j.
  ghost predicate RunsTo(pattern: string, i: nat, j: nat, count: nat)
    decreases |pattern| - i
  {
    if count == 0 then i == j && i <= |pattern|
    else
      && i < |pattern|
      && var (t, next) := TokenAt(pattern, i);
         !t.Star? && RunsTo(pattern, next, j, count - 1)
  }

  lemma {:induction false} RunGrows(pattern: string, i: nat, j: nat, count: nat)
    requires RunsTo(pattern, i, j, count)
    ensures i + count <= j <= |pattern|
    ensures j < |pattern| && !TokenAt(pattern, j).0.Star? ==> RunsTo(pattern, i, TokenAt(pattern, j).1, count + 1)
    decreases count
  {
    if count > 0 {
      RunGrows(pattern, TokenAt(pattern, i).1, j, count - 1);
    } else if j < |pattern| && !TokenAt(pattern, j).0.Star? {
      assert RunsTo(pattern, TokenAt(pattern, j).1, TokenAt(pattern, j).1, 0);
    }
  }

  // Every non-star token takes exactly one character, so a run of them takes
  // exactly as many characters, wherever it is matched.
  lemma {:induction false} RunTakesItsLength(pattern: string, i: nat, j: nat, count: nat, name: string, s: nat)
    requires RunsTo(pattern, i, j, count) && i <= |pattern| && s <= |name|
    requires MatchesFrom(pattern, i, name, s)
    ensures j <= |pattern| && s + count <= |name| && MatchesFrom(pattern, j, name, s + count)
    decreases count
  {
    if count > 0 {
      RunTakesItsLength(pattern, TokenAt(pattern, i).1, j, count - 1, name, s + 1);
    }
  }

  // Some later start for the pattern after the last star.
  ghost predicate LaterStart(pattern: string, starP: int, name: string, starS: nat) {
    0 <= starP <= |pattern| && exists k :: starS < k <= |name| && MatchesFrom(pattern, starP, name, k)
  }

  // What the loop knows: the whole match stands or falls with the current
  // position or a later start after the last star. Earlier stars are forgotten.
  ghost predicate Undecided(pattern: string, name: string, pidx: nat, sidx: nat, starP: int, starS: nat) {
    && pidx <= |pattern| && sidx <= |name| && starS <= sidx && starP < |pattern|
    && (if starP < 0 then starS == 0 else pattern[starP] != '*')
    && RunsTo(pattern, if starP < 0 then 0 else starP, pidx, sidx - starS)
    && (Matches(pattern, name) <==>
          MatchesFrom(pattern, pidx, name, sidx) || LaterStart(pattern, starP, name, starS))
  }

  lemma UndecidedBounds(pattern: string, name: string, pidx: nat, sidx: nat, starP: int, starS: nat)
    requires Undecided(pattern, name, pidx, sidx, starP, starS)
    ensures starS <= sidx <= |name| && starP < |pattern| && (starP < 0 ==> starS == 0)
    ensures sidx - starS <= pidx <= |pattern|
  {
    RunGrows(pattern, if starP < 0 then 0 else starP, pidx, sidx - starS);
  }

  lemma UndecidedAtStart(pattern: string, name: string)
    ensures Undecided(pattern, name, 0, 0, -1, 0)
  {
  }

  lemma StarMatchesSomewhere(pattern: string, i: nat, name: string, s: nat)
    requires i < |pattern| && pattern[i] == '*' && s <= |name|
    ensures MatchesFrom(pattern, i, name, s) <==> MatchesSomewhere(pattern, i + 1, name, s)
  {
  }

  // Adjacent stars are one star.
  lemma {:induction false} StarsSkipped(pattern: string, i: nat, q: nat, name: string, s: nat)
    requires i < q <= |pattern| && s <= |name|
    requires forall x :: i <= x < q ==> pattern[x] == '*'
    ensures MatchesFrom(pattern, i, name, s) <==> MatchesSomewhere(pattern, q, name, s)
    decreases q - i
  {
    var next := i + 1;
    StarMatchesSomewhere(pattern, i, name, s);
    if next < q {
      if MatchesSomewhere(pattern, next, name, s) {
        var k :| s <= k <= |name| && MatchesFrom(pattern, next, name, k);
        StarsSkipped(pattern, next, q, name, k);
      }
      if MatchesSomewhere(pattern, q, name, s) {
        var m :| s <= m <= |name| && MatchesFrom(pattern, q, name, m);
        StarsSkipped(pattern, next, q, name, m);
        assert MatchesSomewhere(pattern, q, name, m) && MatchesFrom(pattern, next, name, m);
      }
    }
  }

  // Why earlier stars may be forgotten at a new one: any match that starts the
  // run between the two stars later reaches the new star later, and the new
  // star can make up the difference.
  lemma NewStar(pattern: string, name: string, pidx: nat, sidx: nat, starP: int, starS: nat, q: nat)
    requires Undecided(pattern, name, pidx, sidx, starP, starS)
    requires pidx < q <= |pattern| && forall x :: pidx <= x < q ==> pattern[x] == '*'
    ensures q == |pattern| ==> Matches(pattern, name)
    ensures q < |pattern| && pattern[q] != '*' ==>
      Undecided(pattern, name, q, sidx, q, sidx) && (starP >= 0 ==> starS < sidx)
  {
    StarsSkipped(pattern, pidx, q, name, sidx);
    if LaterStart(pattern, starP, name, starS) {
      var k :| starS < k <= |name| && MatchesFrom(pattern, starP, name, k);
      var count := sidx - starS;
      RunTakesItsLength(pattern, starP, pidx, count, name, k);
      StarsSkipped(pattern, pidx, q, name, k + count);
    }
    assert Matches(pattern, name) <==> MatchesSomewhere(pattern, q, name, sidx);
    if q == |pattern| {
      assert MatchesFrom(pattern, q, name, |name|);
    } else {
      assert RunsTo(pattern, q, q, 0);
    }
  }

  // A later start leaves no room once the name is used up.
  lemma NoLaterStartAtTheEnd(pattern: string, name: string, pidx: nat, starP: int, starS: nat)
    requires Undecided(pattern, name, pidx, |name|, starP, starS)
    ensures Matches(pattern, name) <==> MatchesFrom(pattern, pidx, name, |name|)
  {
    if LaterStart(pattern, starP, name, starS) {
      var k :| starS < k <= |name| && MatchesFrom(pattern, starP, name, k);
      RunTakesItsLength(pattern, starP, pidx, |name| - starS, name, k);
    }
  }

  lemma Hit(pattern: string, name: string, pidx: nat, sidx: nat, starP: int, starS: nat)
    requires Undecided(pattern, name, pidx, sidx, starP, starS) && sidx < |name|
    requires pidx < |pattern| && !TokenAt(pattern, pidx).0.Star? && Accepts(TokenAt(pattern, pidx).0, name[sidx])
    ensures Undecided(pattern, name, TokenAt(pattern, pidx).1, sidx + 1, starP, starS)
  {
    RunGrows(pattern, if starP < 0 then 0 else starP, pidx, sidx - starS);
  }

  // On a miss the last star takes one more character, or there is no match.
  lemma Miss(pattern: string, name: string, pidx: nat, sidx: nat, starP: int, starS: nat)
    requires Undecided(pattern, name, pidx, sidx, starP, starS) && sidx < |name|
    requires pidx == |pattern| || (!TokenAt(pattern, pidx).0.Star? && !Accepts(TokenAt(pattern, pidx).0, name[sidx]))
    ensures starP < 0 ==> !Matches(pattern, name)
    ensures starP >= 0 ==> Undecided(pattern, name, starP, starS + 1, starP, starS + 1)
  {
  }

  // Only stars match the empty rest of a name.
  lemma {:induction false} OnlyStarsMatchNothing(pattern: string, i: nat, q: nat, name: string)
    requires i <= q <= |pattern| && forall x :: i <= x < q ==> pattern[x] == '*'
    requires q == |pattern| || pattern[q] != '*'
    ensures MatchesFrom(pattern, i, name, |name|) <==> q == |pattern|
    decreases q - i
  {
    if i < q {
      StarsSkipped(pattern, i, q, name, |name|);
      OnlyStarsMatchNothing(pattern, q, q, name);
    }
  }

  // A bound on the turns of the loop so far.
  function Turns(plen: nat, starP: int, starS: nat, sidx: nat): int {
    (if starP < 0 then 0 else starS + 1) * (plen + 2) + sidx - starS
  }

  lemma TimesGrows(a: nat, b: nat, p: nat)
    requires a < b
    ensures b * p >= (a + 1) * p == a * p + p
  {
    assert b * p == (a + 1) * p + (b - a - 1) * p;
  }

  lemma TurnsGrow(plen: nat, starP: int, starS: nat, sidx: nat, starP': int, starS': nat, sidx': nat)
    requires starP' >= 0 && sidx' == starS' && sidx - starS <= plen
    requires starP < 0 || starS' > starS
    ensures Turns(plen, starP', starS', sidx') >= Turns(plen, starP, starS, sidx) + 1
  {
    TimesGrows(if starP < 0 then 0 else starS + 1, starS' + 1, plen + 2);
  }

  lemma TurnsBounded(plen: nat, slen: nat, starP: int, starS: nat, sidx: nat)
    requires starS <= sidx <= slen && sidx - starS <= plen
    ensures Turns(plen, starP, starS, sidx) + 1 <= (slen + 2) * (plen + 2)
  {
    TimesGrows(if starP < 0 then 0 else starS + 1, slen + 2, plen + 2);
  }

  method MatchSegment(pattern: string, name: string) returns (matched: bool, ghost turns: nat)
    ensures matched <==> Matches(pattern, name)
    ensures turns <= (|name| + 2) * (|pattern| + 2)
  {
    var plen, slen := |pattern|, |name|;
    var pidx: nat, sidx: nat := 0, 0;
    var starP: int, starS: nat := -1, 0;
    turns := 0;
    hide Undecided, Matches, MatchesFrom, LaterStart, RunsTo;
    UndecidedAtStart(pattern, name);
    while sidx < slen
      invariant Undecided(pattern, name, pidx, sidx, starP, starS)
      invariant 0 <= turns <= Turns(plen, starP, starS, sidx)
      decreases slen - (if starP < 0 then -1 else starS), slen - sidx
    {
      UndecidedBounds(pattern, name, pidx, sidx, starP, starS);
      TurnsBounded(plen, slen, starP, starS, sidx);
      turns := turns + 1;
      var hit, nextPidx: nat := false, pidx;
      if pidx < plen {
        var p := pattern[pidx];
        if p == '*' {
          ghost var at := pidx;
          pidx := pidx + 1;
          while pidx < plen && pattern[pidx] == '*'
            invariant at < pidx <= plen && forall x :: at <= x < pidx ==> pattern[x] == '*'
          {
            pidx := pidx + 1;
          }
          NewStar(pattern, name, at, sidx, starP, starS, pidx);
          if pidx == plen {
            return true, turns;
          }
          TurnsGrow(plen, starP, starS, sidx, pidx, sidx, sidx);
          starP, starS := pidx, sidx;
          continue;
        } else if p == '?' {
          hit, nextPidx := true, pidx + 1;
        } else if p == '[' {
          var closed, classEnd, inClass := TryMatchClass(pattern, pidx + 1, name[sidx]);
          if closed {
            hit, nextPidx := inClass, classEnd;
          } else {
            hit, nextPidx := name[sidx] == '[', pidx + 1;
          }
        } else {
          hit, nextPidx := name[sidx] == p, pidx + 1;
        }
      }
      if hit {
        Hit(pattern, name, pidx, sidx, starP, starS);
        sidx := sidx + 1;
        pidx := nextPidx;
        continue;
      }
      Miss(pattern, name, pidx, sidx, starP, starS);
      if starP < 0 {
        return false, turns;
      }
      TurnsGrow(plen, starP, starS, sidx, starP, starS + 1, starS + 1);
      starS := starS + 1;
      sidx := starS;
      pidx := starP;
    }
    UndecidedBounds(pattern, name, pidx, sidx, starP, starS);
    TurnsBounded(plen, slen, starP, starS, sidx);
    NoLaterStartAtTheEnd(pattern, name, pidx, starP, starS);
    ghost var at := pidx;
    while pidx < plen && pattern[pidx] == '*'
      invariant at <= pidx <= plen && forall x :: at <= x < pidx ==> pattern[x] == '*'
    {
      pidx := pidx + 1;
    }
    OnlyStarsMatchNothing(pattern, at, pidx, name);
    matched := pidx == plen;
  }
}
