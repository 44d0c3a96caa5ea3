/** Strings: suffixes, the byte order, and the ascending enumeration of a finite set. */
module Text {

  predicate EndsWith(s: string, suffix: string) {
    |suffix| <= |s| && s[|s| - |suffix|..] == suffix
  }

  /** `s` without any number of trailing copies of `suffix`. */
  function TrimEnd(s: string, suffix: string): (r: string)
    requires suffix != ""
    ensures !EndsWith(r, suffix) && r <= s
    decreases |s|
  {
    if EndsWith(s, suffix) then TrimEnd(s[..|s| - |suffix|], suffix) else s
  }

  predicate LexLess(a: string, b: string)
    decreases |a|
  {
    b != "" && (a == "" || a[0] < b[0] || (a[0] == b[0] && LexLess(a[1..], b[1..])))
  }

  predicate LexLeq(a: string, b: string) { a == b || LexLess(a, b) }

  lemma {:induction false} LexIrreflexive(a: string)
    ensures !LexLess(a, a)
    decreases |a|
  {
    if a != "" { LexIrreflexive(a[1..]); }
  }

  lemma {:induction false} LexTransitive(a: string, b: string, c: string)
    requires LexLess(a, b) && LexLess(b, c)
    ensures LexLess(a, c)
    decreases |a|
  {
    if a != "" && a[0] == b[0] && b[0] == c[0] { LexTransitive(a[1..], b[1..], c[1..]); }
  }

  lemma {:induction false} LexTotal(a: string, b: string)
    ensures LexLess(a, b) || a == b || LexLess(b, a)
    decreases |a|
  {
    if a != "" && b != "" && a[0] == b[0] {
      LexTotal(a[1..], b[1..]);
      assert a == [a[0]] + a[1..] && b == [b[0]] + b[1..];
    }
  }

  predicate IsLeast(x: string, s: set<string>) {
    x in s && forall y <- s :: LexLeq(x, y)
  }

  lemma {:induction false} LeastExists(s: set<string>)
    requires s != {}
    ensures exists x :: IsLeast(x, s)
  {
    var x := LeastOf(s);
  }

  lemma {:induction false} LeastOf(s: set<string>) returns (x: string)
    requires s != {}
    ensures IsLeast(x, s)
  {
    var one :| one in s;
    x := one;
    if s != {one} {
      var rest := s - {one};
      assert s == rest + {one};
      var y := LeastOf(rest);
      LexTotal(one, y);
      if LexLess(one, y) {
        forall z <- rest ensures LexLeq(one, z) {
          if z != y { LexTransitive(one, y, z); }
        }
      } else {
        x := y;
      }
    }
  }

  lemma {:induction false} LeastUnique(x: string, y: string, s: set<string>)
    requires IsLeast(x, s) && IsLeast(y, s)
    ensures x == y
  {
    if x != y {
      LexTransitive(x, y, x);
      LexIrreflexive(x);
    }
  }

  /** The elements of `s` in ascending order, as an ordered map or set iterates over them. */
  ghost function Ascending(s: set<string>): (r: seq<string>)
    ensures forall x :: x in r <==> x in s
    ensures forall i, j | 0 <= i < j < |r| :: r[i] != r[j]
  {
    if s == {} then [] else
    var x := Least(s);
    [x] + Ascending(s - {x})
  }

  ghost function Least(s: set<string>): (x: string)
    requires s != {}
    ensures IsLeast(x, s)
  {
    LeastExists(s);
    var x :| IsLeast(x, s);
    x
  }
}
