/** Reading a partition key expression: its outer parentheses, its top-level parts, its components. */
module Key {
  /** Opening parentheses less closing ones. */
  function Depth(s: string): int {
    if s == "" then 0 else
    Depth(s[..|s| - 1]) + if s[|s| - 1] == '(' then 1 else if s[|s| - 1] == ')' then -1 else 0
  }

  // ----- The parts of a list -----

  /** The parts closed so far by a top-level comma, the part that is open, and its depth. */
  datatype Scan = Scan(parts: seq<string>, open: string, depth: int) {
    function Next(c: char): Scan {
      if c == ',' && depth == 0 then Scan(parts + [open], "", 0)
      else Scan(parts, open + [c], if c == '(' then depth + 1 else if c == ')' then depth - 1 else depth)
    }

    function Read(s: string): Scan
      decreases |s|
    {
      if s == "" then this else Read(s[..|s| - 1]).Next(s[|s| - 1])
    }
  }

  const START := Scan([], "", 0)

  ghost function Parts(s: string): seq<string> {
    var end := START.Read(s);
    end.parts + [end.open]
  }

  lemma {:induction false} ReadOn(s: string, at: nat)
    requires at < |s|
    ensures START.Read(s[..at + 1]) == START.Read(s[..at]).Next(s[at])
  {
    assert s[..at + 1][..at] == s[..at];
  }

  lemma {:induction false} SliceOn(s: string, from: nat, at: nat)
    requires from <= at < |s|
    ensures s[from..at + 1] == s[from..at] + [s[at]]
  {}

  method SplitTopLevel(s: string) returns (parts: seq<string>)
    ensures parts == Parts(s)
  {
    parts := [];
    var depth: int, from := 0, 0;
    for at := 0 to |s|
      invariant from <= at
      invariant START.Read(s[..at]) == Scan(parts, s[from..at], depth)
    {
      ReadOn(s, at);
      SliceOn(s, from, at);
      if s[at] == '(' {
        depth := depth + 1;
      } else if s[at] == ')' {
        depth := depth - 1;
      } else if s[at] == ',' && depth == 0 {
        parts := parts + [s[from..at]];
        from := at + 1;
      }
    }
    assert s[..|s|] == s;
    parts := parts + [s[from..]];
  }

  function Join(parts: seq<string>): string {
    if parts == [] then "" else if |parts| == 1 then parts[0]
    else Join(parts[..|parts| - 1]) + "," + parts[|parts| - 1]
  }

  lemma {:induction false} JoinMore(parts: seq<string>, p: string)
    requires parts != []
    ensures Join(parts + [p]) == Join(parts) + "," + p
  {
    assert (parts + [p])[..|parts|] == parts;
  }

  /** A part that reads as one: its parentheses balance, and no comma is at depth zero. */
  ghost predicate IsPart(p: string) {
    Depth(p) == 0 && forall n | 0 <= n < |p| :: p[n] == ',' ==> Depth(p[..n]) != 0
  }

  lemma {:induction false} ReadConcat(s: Scan, a: string, b: string)
    ensures s.Read(a + b) == s.Read(a).Read(b)
    decreases |b|
  {
    if b == "" {
      assert a + b == a;
    } else {
      assert (a + b)[..|a + b| - 1] == a + b[..|b| - 1];
      ReadConcat(s, a, b[..|b| - 1]);
    }
  }

  lemma {:induction false} ReadPart(parts: seq<string>, p: string, n: nat)
    requires n <= |p| && forall k | 0 <= k < |p| :: p[k] == ',' ==> Depth(p[..k]) != 0
    ensures Scan(parts, "", 0).Read(p[..n]) == Scan(parts, p[..n], Depth(p[..n]))
    decreases n
  {
    if n > 0 {
      ReadPart(parts, p, n - 1);
      assert p[..n][..n - 1] == p[..n - 1];
      assert p[..n] == p[..n - 1] + [p[n - 1]];
    }
  }

  lemma {:induction false} ReadJoined(parts: seq<string>)
    requires parts != [] && forall i | 0 <= i < |parts| :: IsPart(parts[i])
    ensures START.Read(Join(parts)) == Scan(parts[..|parts| - 1], parts[|parts| - 1], 0)
    decreases |parts|
  {
    var n := |parts| - 1;
    var last := parts[n];
    assert last[..|last|] == last;
    if n == 0 {
      ReadPart([], last, |last|);
      assert parts[..0] == [];
    } else {
      var front := parts[..n];
      ReadJoined(front);
      ReadConcat(START, Join(front) + ",", last);
      ReadConcat(START, Join(front), ",");
      assert ","[..0] == "";
      assert front[..n - 1] + [front[n - 1]] == front;
      ReadPart(front, last, |last|);
    }
  }

  /** A list of balanced parts splits back into them. */
  lemma {:induction false} JoinedPartsSplit(parts: seq<string>)
    requires parts != [] && forall i | 0 <= i < |parts| :: IsPart(parts[i])
    ensures Parts(Join(parts)) == parts
  {
    ReadJoined(parts);
    assert parts[..|parts| - 1] + [parts[|parts| - 1]] == parts;
  }

  /** Nothing is lost in splitting. */
  lemma {:induction false} PartsJoin(s: string)
    ensures Join(Parts(s)) == s
    decreases |s|
  {
    if s != "" {
      var front, c := s[..|s| - 1], s[|s| - 1];
      PartsJoin(front);
      var before := START.Read(front);
      assert s == front + [c];
      if c == ',' && before.depth == 0 {
        JoinMore(before.parts + [before.open], "");
        assert Join(Parts(front)) + "," + "" == s;
      } else {
        JoinLonger(before.parts, before.open, [c]);
      }
    }
  }

  lemma {:induction false} JoinLonger(parts: seq<string>, p: string, more: string)
    ensures Join(parts + [p + more]) == Join(parts + [p]) + more
  {
    if parts != [] {
      JoinMore(parts, p + more);
      JoinMore(parts, p);
      assert Join(parts) + "," + (p + more) == Join(parts) + "," + p + more;
    }
  }

  // ----- The outer parentheses -----

  /** Before its end, a closing parenthesis brings it back to depth zero. */
  ghost predicate ClosesEarly(s: string) {
    exists at :: 0 <= at < |s| - 1 && s[at] == ')' && Depth(s[..at + 1]) == 0
  }

  method StripOuterParens(s: string) returns (r: string)
    ensures var enclosed := s != "" && s[0] == '(' && s[|s| - 1] == ')' && !ClosesEarly(s);
            r == if enclosed then s[1..|s| - 1] else s
  {
    if s == "" || s[0] != '(' || s[|s| - 1] != ')' {
      return s;
    }
    var depth: int := 0;
    for at := 0 to |s|
      invariant depth == Depth(s[..at])
      invariant forall k | 0 <= k < at && k < |s| - 1 && s[k] == ')' :: Depth(s[..k + 1]) != 0
    {
      assert s[..at + 1][..at] == s[..at];
      if s[at] == '(' {
        depth := depth + 1;
      } else if s[at] == ')' {
        depth := depth - 1;
        if depth == 0 && at != |s| - 1 {
          return s;
        }
      }
    }
    return s[1..|s| - 1];
  }

  lemma {:induction false} DepthOfConcat(a: string, b: string)
    ensures Depth(a + b) == Depth(a) + Depth(b)
    decreases |b|
  {
    if b == "" {
      assert a + b == a;
    } else {
      assert (a + b)[..|a + b| - 1] == a + b[..|b| - 1];
      DepthOfConcat(a, b[..|b| - 1]);
    }
  }

  lemma {:induction false} DepthInside(inner: string, n: nat)
    requires n <= |inner|
    ensures Depth(("(" + inner + ")")[..n + 1]) == 1 + Depth(inner[..n])
  {
    assert ("(" + inner + ")")[..n + 1] == "(" + inner[..n];
    DepthOfConcat("(", inner[..n]);
    assert "("[..0] == "";
  }

  /** The first time a string closes more than it opened, it does so by one, at a closing parenthesis. */
  lemma {:induction false} FirstDip(s: string, n: nat) returns (at: nat)
    requires n <= |s| && Depth(s[..n]) < 0
    ensures at < n && s[at] == ')' && Depth(s[..at + 1]) == -1
    decreases n
  {
    assert s[..n][..n - 1] == s[..n - 1];
    if Depth(s[..n - 1]) < 0 {
      at := FirstDip(s, n - 1);
    } else {
      at := n - 1;
    }
  }

  /** Parentheses put around something come off again exactly when it never closes what it did not open. */
  lemma {:induction false} WrappedStripsIff(inner: string)
    ensures !ClosesEarly("(" + inner + ")") <==> forall n: nat | n <= |inner| :: Depth(inner[..n]) >= 0
  {
    var s := "(" + inner + ")";
    if n: nat :| n <= |inner| && Depth(inner[..n]) < 0 {
      var at := FirstDip(inner, n);
      DepthInside(inner, at + 1);
      assert s[at + 1] == ')' && Depth(s[..at + 2]) == 0;
    }
    if ClosesEarly(s) {
      var at :| 0 <= at < |s| - 1 && s[at] == ')' && Depth(s[..at + 1]) == 0;
      DepthInside(inner, at);
      assert Depth(inner[..at]) < 0;
    }
  }
}
