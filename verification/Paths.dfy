// Slash-separated paths and their segments.
module Paths {
  predicate NoSlash(segment: string) { '/' !in segment }

  predicate AllNoSlash(segments: seq<string>) {
    forall i :: 0 <= i < |segments| ==> NoSlash(segments[i])
  }

  function Join(segments: seq<string>): string {
    if segments == [] then ""
    else if |segments| == 1 then segments[0]
    else segments[0] + "/" + Join(segments[1..])
  }

  // `segments` is what the text splits into: there is one at least, none holds
  // a slash, and together they give the text back.
  predicate IsSplit(text: string, segments: seq<string>) {
    segments != [] && AllNoSlash(segments) && Join(segments) == text
  }

  function SlashAt(text: string, from: nat): (pos: nat)
    requires from <= |text|
    ensures from <= pos <= |text| && NoSlash(text[from..pos])
    ensures pos < |text| ==> text[pos] == '/'
    decreases |text| - from
  {
    if from == |text| || text[from] == '/' then from
    else
      var pos := SlashAt(text, from + 1);
      assert text[from..pos] == [text[from]] + text[from + 1..pos];
      pos
  }

  function Segments(text: string): (segments: seq<string>)
    ensures IsSplit(text, segments)
    decreases |text|
  {
    var pos := SlashAt(text, 0);
    if pos == |text| then
      assert text[..pos] == text;
      [text]
    else
      var rest := Segments(text[pos + 1..]);
      var segments := [text[..pos]] + rest;
      assert segments[1..] == rest && text == text[..pos] + "/" + text[pos + 1..];
      segments
  }

  lemma {:induction false} FirstSlash(text: string, from: nat, pos: nat)
    requires from <= pos <= |text| && NoSlash(text[from..pos])
    requires pos == |text| || text[pos] == '/'
    ensures SlashAt(text, from) == pos
    decreases pos - from
  {
  }

  // The first slash of the text is where its first segment ends.
  lemma HeadOfSplit(text: string, a: seq<string>)
    requires IsSplit(text, a)
    ensures var pos := SlashAt(text, 0);
            && a[0] == text[..pos]
            && (|a| == 1 <==> pos == |text|)
            && (|a| > 1 ==> IsSplit(text[pos + 1..], a[1..]))
  {
    var x := a[0];
    assert |a| > 1 ==> text == x + "/" + Join(a[1..]);
    assert text[0..|x|] == x;
    FirstSlash(text, 0, |x|);
  }

  // A text splits in one way only, so joining loses nothing.
  lemma {:induction false} SplitIsUnique(text: string, a: seq<string>, b: seq<string>)
    requires IsSplit(text, a) && IsSplit(text, b)
    ensures a == b
    decreases |a|
  {
    HeadOfSplit(text, a);
    HeadOfSplit(text, b);
    assert a == [a[0]] + a[1..] && b == [b[0]] + b[1..];
    if |a| > 1 {
      SplitIsUnique(text[SlashAt(text, 0) + 1..], a[1..], b[1..]);
    }
  }

  lemma SegmentsOfJoin(segments: seq<string>)
    requires segments != [] && AllNoSlash(segments)
    ensures Segments(Join(segments)) == segments
  {
    SplitIsUnique(Join(segments), segments, Segments(Join(segments)));
  }

  lemma JoinIsInjective(a: seq<string>, b: seq<string>)
    requires a != [] && b != [] && AllNoSlash(a) && AllNoSlash(b) && Join(a) == Join(b)
    ensures a == b
  {
    SplitIsUnique(Join(a), a, b);
  }

  lemma {:induction false} JoinAppend(a: seq<string>, b: seq<string>)
    requires a != [] && b != []
    ensures Join(a + b) == Join(a) + "/" + Join(b)
  {
    assert (a + b)[0] == a[0] && (a + b)[1..] == a[1..] + b;
    if |a| > 1 {
      JoinAppend(a[1..], b);
    }
  }

  // Below in the tree is the same as below in the text.
  lemma PrefixInText(a: seq<string>, b: seq<string>)
    requires a != [] && b != [] && AllNoSlash(a) && AllNoSlash(b)
    ensures Join(a) + "/" <= Join(b) <==> a < b
  {
    if a < b {
      assert b == a + b[|a|..];
      JoinAppend(a, b[|a|..]);
    }
    if Join(a) + "/" <= Join(b) {
      var rest := Segments(Join(b)[|Join(a)| + 1..]);
      JoinAppend(a, rest);
      assert Join(b) == Join(a) + "/" + Join(rest);
      assert AllNoSlash(a + rest);
      SplitIsUnique(Join(b), b, a + rest);
    }
  }

  method SplitOnSlash(text: string) returns (segments: seq<string>)
    ensures segments == Segments(text)
  {
    segments := [];
    var start := 0;
    while true
      invariant start <= |text| && AllNoSlash(segments)
      invariant if segments == [] then start == 0 else text[..start] == Join(segments) + "/"
      decreases |text| - start
    {
      var pos := start;
      while pos < |text| && text[pos] != '/'
        invariant start <= pos <= |text| && NoSlash(text[start..pos])
      {
        assert text[start..pos + 1] == text[start..pos] + [text[pos]];
        pos := pos + 1;
      }
      var piece := text[start..pos];
      assert text[..pos] == text[..start] + piece;
      if segments != [] {
        JoinAppend(segments, [piece]);
      }
      segments := segments + [piece];
      assert text[..pos] == Join(segments);
      if pos == |text| {
        assert text[..pos] == text;
        SplitIsUnique(text, segments, Segments(text));
        return;
      }
      assert text[..pos + 1] == text[..pos] + "/";
      start := pos + 1;
    }
  }
}
