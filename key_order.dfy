/**
 * The order `toSortedMap` puts the section keys in: `String.compareTo`,
 * character by character, a proper prefix first.
 */
module KeyOrder {

  /** `a` sorts strictly before `b`. */
  predicate Below(a: string, b: string)
  {
    if a == [] then b != []
    else b != [] && (a[0] < b[0] || (a[0] == b[0] && Below(a[1..], b[1..])))
  }

  /** Of two keys one of which extends the other, the shorter sorts first. */
  lemma {:induction false} BelowPrefix(a: string, b: string)
    requires |a| <= |b| && a == b[..|a|]
    ensures Below(a, b) <==> |a| < |b|
    ensures !Below(b, a)
  {
    if a != [] {
      assert a[1..] == b[1..][..|a| - 1];
      BelowPrefix(a[1..], b[1..]);
    }
  }

  /** Keys that agree up to position `i` and differ there are ordered by their characters at `i`. */
  lemma {:induction false} BelowAtFirstDifference(a: string, b: string, i: nat)
    requires i < |a| && i < |b| && a[..i] == b[..i] && a[i] != b[i]
    ensures Below(a, b) <==> a[i] < b[i]
  {
    if i > 0 {
      assert a[0] == a[..i][0] && b[0] == b[..i][0];
      assert a[1..][..i - 1] == a[..i][1..] && b[1..][..i - 1] == b[..i][1..];
      BelowAtFirstDifference(a[1..], b[1..], i - 1);
    }
  }

  lemma {:induction false} BelowIrreflexive(a: string)
    ensures !Below(a, a)
  {
    if a != [] {
      BelowIrreflexive(a[1..]);
    }
  }

  lemma {:induction false} BelowTransitive(a: string, b: string, c: string)
    requires Below(a, b) && Below(b, c)
    ensures Below(a, c)
  {
    if a != [] && a[0] == b[0] && b[0] == c[0] {
      BelowTransitive(a[1..], b[1..], c[1..]);
    }
  }

  /** Any two different keys are ordered one way or the other. */
  lemma {:induction false} BelowTotal(a: string, b: string)
    requires a != b
    ensures Below(a, b) || Below(b, a)
  {
    if a != [] && b != [] && a[0] == b[0] {
      assert a == [a[0]] + a[1..] && b == [b[0]] + b[1..];
      BelowTotal(a[1..], b[1..]);
    }
  }
}
