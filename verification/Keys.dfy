// Composite keys: fields joined by the unit separator.
module Keys {
  import opened UploadPlan

  const SEP: char := '\U{1f}'

  function Count(s: string): nat {
    if s == [] then 0 else (if s[0] == SEP then 1 else 0) + Count(s[1..])
  }

  lemma {:induction false} CountConcat(a: string, b: string)
    ensures Count(a + b) == Count(a) + Count(b)
  {
    if a == [] {
      assert a + b == b;
    } else {
      assert (a + b)[1..] == a[1..] + b;
      CountConcat(a[1..], b);
    }
  }

  function Fields(a: string, b: string): string { a + [SEP] + b }

  lemma CountFields(a: string, b: string)
    ensures Count(Fields(a, b)) == Count(a) + 1 + Count(b)
  {
    CountConcat(a + [SEP], b);
    CountConcat(a, [SEP]);
    assert [SEP][1..] == [];
  }

  lemma FieldParts(a: string, x: string)
    ensures var s := Fields(a, x);
            |s| > |a| && s[..|a|] == a && s[|a|] == SEP && s[|a| + 1..] == x
  {
  }

  lemma LongerHasMore(s: string, a: string, x: string, b: string, y: string)
    requires s == Fields(a, x) == Fields(b, y) && |a| < |b|
    ensures Count(a) < Count(b)
  {
    FieldParts(a, x);
    FieldParts(b, y);
    var rest := b[|a| + 1..];
    assert b == s[..|b|] && b[..|a|] == s[..|a|] && b[|a|] == s[|a|];
    assert b == Fields(a, rest);
    CountFields(a, rest);
  }

  // Two joined keys are equal only field by field, when the first fields (or
  // the last ones) hold equally many separators.
  lemma FieldsAreInjective(a: string, x: string, b: string, y: string)
    requires Fields(a, x) == Fields(b, y)
    requires Count(a) == Count(b) || Count(x) == Count(y)
    ensures a == b && x == y
  {
    var s := Fields(a, x);
    CountFields(a, x);
    CountFields(b, y);
    assert Count(a) == Count(b);
    if |a| < |b| {
      LongerHasMore(s, a, x, b, y);
    } else if |b| < |a| {
      LongerHasMore(s, b, y, a, x);
    }
    FieldParts(a, x);
    FieldParts(b, y);
  }

  lemma {:induction false} DigitsHaveNoSeparator(s: string)
    requires AllDigits(s)
    ensures Count(s) == 0
  {
    if s != [] {
      assert IsDigit(s[0]);
      DigitsHaveNoSeparator(s[1..]);
    }
  }

  // ----- The key of one block -----

  function FullKey(key: string, blockSize: nat, blockIndex: nat): string {
    Fields(Fields(key, Numeral(blockSize)), Numeral(blockIndex))
  }

  // One file's block 0 at one size is never taken for block 0 at another, nor
  // for another file's.
  lemma FullKeyIsInjective(k1: string, s1: nat, i1: nat, k2: string, s2: nat, i2: nat)
    requires FullKey(k1, s1, i1) == FullKey(k2, s2, i2)
    ensures k1 == k2 && s1 == s2 && i1 == i2
  {
    DigitsHaveNoSeparator(Numeral(i1));
    DigitsHaveNoSeparator(Numeral(i2));
    FieldsAreInjective(Fields(k1, Numeral(s1)), Numeral(i1), Fields(k2, Numeral(s2)), Numeral(i2));
    DigitsHaveNoSeparator(Numeral(s1));
    DigitsHaveNoSeparator(Numeral(s2));
    FieldsAreInjective(k1, Numeral(s1), k2, Numeral(s2));
  }
}
