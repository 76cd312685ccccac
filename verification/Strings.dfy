/** Strings: cutting them, and their order by characters, which is the order of Python's `sorted`
    and of S3 keys. */
module Strings {

  lemma EqualHeads(x: string, r: string, y: string, q: string)
    requires x + r == y + q && |x| == |y|
    ensures x == y && r == q
  {
    assert (x + r)[..|x|] == x && (y + q)[..|y|] == y;
    assert (x + r)[|x|..] == r && (y + q)[|y|..] == q;
  }

  lemma Regroup(x: string, y: string, z: string)
    ensures x + y + z == x + (y + z)
  {
  }

  predicate Below(a: string, b: string) {
    if b == "" then false
    else if a == "" then true
    else a[0] < b[0] || (a[0] == b[0] && Below(a[1..], b[1..]))
  }

  lemma {:induction false} BelowTransitive(a: string, b: string, c: string)
    requires Below(a, b) && Below(b, c)
    ensures Below(a, c)
  {
    if a != "" && a[0] == b[0] && b[0] == c[0] {
      BelowTransitive(a[1..], b[1..], c[1..]);
    }
  }

  lemma {:induction false} BelowIrreflexive(a: string)
    ensures !Below(a, a)
  {
    if a != "" {
      BelowIrreflexive(a[1..]);
    }
  }

  lemma {:induction false} BelowTotal(a: string, b: string)
    ensures a == b || Below(a, b) || Below(b, a)
  {
    if a != "" && b != "" && a[0] == b[0] {
      BelowTotal(a[1..], b[1..]);
      assert a == [a[0]] + a[1..] && b == [b[0]] + b[1..];
    }
  }

  ghost predicate IsFirst(s: string, strings: set<string>) {
    s in strings && forall t | t in strings :: t == s || Below(s, t)
  }

  lemma {:induction false} FirstExists(strings: set<string>)
    requires strings != {}
    ensures exists first :: IsFirst(first, strings)
  {
    var s :| s in strings;
    if strings == {s} {
      assert IsFirst(s, strings);
    } else {
      FirstExists(strings - {s});
      var f :| IsFirst(f, strings - {s});
      BelowTotal(s, f);
      var first := if Below(f, s) then f else s;
      forall t | t in strings
        ensures t == first || Below(first, t)
      {
        if t != s && t != f && first == s {
          BelowTransitive(s, f, t);
        }
      }
      assert IsFirst(first, strings);
    }
  }
}
