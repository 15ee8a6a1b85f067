/**
  The order SQLite's default BINARY collation puts on TEXT values: byte-wise comparison of
  the UTF-8 encodings, which is the lexicographic order of the code points, with a proper
  prefix sorting first.
 */
module LexOrder {

  /** `a` sorts strictly before `b`. */
  predicate Below(a: string, b: string)
    decreases |a|
  {
    if |b| == 0 then false
    else if |a| == 0 then true
    else a[0] < b[0] || (a[0] == b[0] && Below(a[1..], b[1..]))
  }

  lemma {:induction false} BelowIrreflexive(a: string)
    ensures !Below(a, a)
    decreases |a|
  {
    if |a| > 0 {
      BelowIrreflexive(a[1..]);
    }
  }

  lemma {:induction false} BelowTransitive(a: string, b: string, c: string)
    requires Below(a, b) && Below(b, c)
    ensures Below(a, c)
    decreases |a|
  {
    if |a| > 0 && a[0] == b[0] && b[0] == c[0] {
      BelowTransitive(a[1..], b[1..], c[1..]);
    }
  }

  /** Any two distinct strings are ordered one way or the other. */
  lemma {:induction false} BelowTotal(a: string, b: string)
    ensures a == b || Below(a, b) || Below(b, a)
    decreases |a|
  {
    if |a| > 0 && |b| > 0 && a[0] == b[0] {
      BelowTotal(a[1..], b[1..]);
      if a[1..] == b[1..] {
        assert a == [a[0]] + a[1..] && b == [b[0]] + b[1..];
      }
    }
  }

  lemma BelowAsymmetric(a: string, b: string)
    requires Below(a, b)
    ensures !Below(b, a)
  {
    if Below(b, a) {
      BelowTransitive(a, b, a);
      BelowIrreflexive(a);
    }
  }

  /** "Not below" (at least as large) is transitive as well. */
  lemma NotBelowTransitive(a: string, b: string, c: string)
    requires !Below(a, b) && !Below(b, c)
    ensures !Below(a, c)
  {
    BelowTotal(a, b);
    BelowTotal(b, c);
    if a != b && b != c {
      BelowTransitive(c, b, a);
      BelowAsymmetric(c, a);
    }
  }

  /**
    Two strings that differ within their first `k` characters compare as those prefixes do:
    the characters after position `k` cannot change the outcome.
   */
  lemma {:induction false} BelowDecidedByPrefix(a: string, b: string, k: nat)
    requires k <= |a| && k <= |b| && a[..k] != b[..k]
    ensures Below(a, b) <==> Below(a[..k], b[..k])
    decreases k
  {
    assert k > 0;
    if a[0] == b[0] {
      assert a[1..][..k - 1] == a[..k][1..] && b[1..][..k - 1] == b[..k][1..];
      assert a[..k] == [a[0]] + a[..k][1..] && b[..k] == [b[0]] + b[..k][1..];
      BelowDecidedByPrefix(a[1..], b[1..], k - 1);
    }
  }
}
