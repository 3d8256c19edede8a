/**
 Strings as Go compares and cuts them: lexicographic order by byte, prefix trimming, and
 lists of strings in ascending order.
 */
module Strings {

  /** The order of Go's < on strings. */
  predicate Less(a: string, b: string)
  {
    b != [] && (a == [] || a[0] < b[0] || (a[0] == b[0] && Less(a[1..], b[1..])))
  }

  lemma {:induction false} LessIrreflexive(a: string)
    ensures !Less(a, a)
  {
    if a != [] { LessIrreflexive(a[1..]); }
  }

  lemma {:induction false} LessTransitive(a: string, b: string, c: string)
    requires Less(a, b) && Less(b, c)
    ensures Less(a, c)
  {
    if a != [] && a[0] == b[0] && b[0] == c[0] { LessTransitive(a[1..], b[1..], c[1..]); }
  }

  lemma {:induction false} LessTotal(a: string, b: string)
    ensures Less(a, b) || a == b || Less(b, a)
  {
    if a != [] && b != [] && a[0] == b[0] {
      LessTotal(a[1..], b[1..]);
      assert a == [a[0]] + a[1..] && b == [b[0]] + b[1..];
    }
  }

  lemma {:induction false} LessAsymmetric(a: string, b: string)
    requires Less(a, b)
    ensures !Less(b, a) && a != b
  {
    LessIrreflexive(a);
    if Less(b, a) { LessTransitive(a, b, a); }
  }

  predicate HasPrefix(s: string, prefix: string)
  {
    prefix <= s
  }

  function TrimPrefix(s: string, prefix: string): (r: string)
  {
    if prefix <= s then s[|prefix|..] else s
  }

  predicate HasSuffix(s: string, suffix: string)
  {
    |suffix| <= |s| && s[|s| - |suffix|..] == suffix
  }

  ghost predicate Ascend(s: seq<string>)
  {
    forall i, j :: 0 <= i < j < |s| ==> Less(s[i], s[j])
  }

  /** The least element comes first. */
  lemma {:induction false} AscendFirst(s: seq<string>, x: string)
    requires Ascend(s) && x in s
    ensures x == s[0] || Less(s[0], x)
  {
    var i :| 0 <= i < |s| && s[i] == x;
    assert i > 0 ==> Less(s[0], s[i]);
  }

  lemma {:induction false} AscendTail(s: seq<string>)
    requires Ascend(s) && s != []
    ensures Ascend(s[1..]) && s[0] !in s[1..]
  {
    if s[0] in s[1..] {
      var i :| 0 <= i < |s[1..]| && s[1..][i] == s[0];
      assert Less(s[0], s[i + 1]);
      LessIrreflexive(s[0]);
    }
  }

  /** An ascending list is determined by its elements. */
  lemma {:induction false} AscendUnique(a: seq<string>, b: seq<string>)
    requires Ascend(a) && Ascend(b)
    requires (forall x <- a :: x in b) && (forall x <- b :: x in a)
    ensures a == b
  {
    assert b != [] ==> b[0] in b;
    assert a != [] ==> a[0] in a;
    if a != [] && b != [] {
      AscendFirst(b, a[0]);
      AscendFirst(a, b[0]);
      if a[0] != b[0] { LessAsymmetric(a[0], b[0]); }
      AscendTail(a);
      AscendTail(b);
      forall x | x in a[1..] ensures x in b[1..] { InTail(b, x); }
      forall x | x in b[1..] ensures x in a[1..] { InTail(a, x); }
      AscendUnique(a[1..], b[1..]);
      assert a == [a[0]] + a[1..] && b == [b[0]] + b[1..];
    }
  }

  lemma {:induction false} InTail(s: seq<string>, x: string)
    requires x in s && x != s[0]
    ensures x in s[1..]
  {
    var i :| 0 <= i < |s| && s[i] == x;
    assert s[1..][i - 1] == x;
  }

  /** A common prefix does not change the order. */
  lemma {:induction false} LessAfterPrefix(p: string, a: string, b: string)
    ensures Less(p + a, p + b) <==> Less(a, b)
  {
    if p == [] {
      assert p + a == a && p + b == b;
    } else {
      assert (p + a)[1..] == p[1..] + a && (p + b)[1..] == p[1..] + b;
      LessAfterPrefix(p[1..], a, b);
    }
  }
}
