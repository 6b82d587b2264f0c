/** The cutoff edit distance and the name suggester built on it
(bootstrap/diagnostic.c:374-444). */
module Levenshtein {
  import opened Cells
  import opened Options

  function Min(x: int, y: int): (r: int) {
    if y < x then y else x
  }

  function Cost(c: char, d: char): (r: nat) {
    if c == d then 0 else 1
  }

  function Front(s: string): (r: string)
    requires s != ""
    ensures |r| == |s| - 1
  {
    s[..|s| - 1]
  }

  function Last(s: string): (c: char)
    requires s != ""
  {
    s[|s| - 1]
  }

  /** The distance between two strings, defined on their last characters. */
  function Distance(a: string, b: string): (r: nat)
    decreases |a| + |b|
  {
    if a == "" then |b|
    else if b == "" then |a|
    else
      Min(Min(Distance(Front(a), b) + 1, Distance(a, Front(b)) + 1),
          Distance(Front(a), Front(b)) + Cost(Last(a), Last(b)))
  }

  // ----- what the recursion means: the fewest single-character edits -----

  ghost predicate Inserted(s: string, t: string) {
    exists x: string, c: char, y: string :: s == x + y && t == x + [c] + y
  }

  ghost predicate Replaced(s: string, t: string) {
    exists x: string, c: char, d: char, y: string :: s == x + [c] + y && t == x + [d] + y
  }

  /** One insertion, deletion or replacement of a character. */
  ghost predicate OneEdit(s: string, t: string) {
    Inserted(s, t) || Inserted(t, s) || Replaced(s, t)
  }

  /** A chain of single edits from `a` to `b`. */
  ghost predicate EditPath(p: seq<string>, a: string, b: string) {
    && p != [] && p[0] == a && p[|p| - 1] == b
    && (forall i :: 0 <= i < |p| - 1 ==> OneEdit(p[i], p[i + 1]))
  }

  lemma {:induction false} LastAddsAtMostOne(x: string, c: char, b: string)
    ensures Distance(x, b) <= Distance(x + [c], b) + 1
    ensures Distance(x + [c], b) <= Distance(x, b) + 1
    decreases b
  {
    assert Front(x + [c]) == x;
    if b != "" {
      LastAddsAtMostOne(x, c, Front(b));
    }
  }

  /** The recurrence away from the empty strings. */
  lemma {:induction false} Recurrence(a: string, b: string)
    requires a != "" && b != ""
    ensures Distance(a, b) ==
              Min(Min(Distance(Front(a), b) + 1, Distance(a, Front(b)) + 1),
                  Distance(Front(a), Front(b)) + Cost(Last(a), Last(b)))
  {
  }

  lemma {:induction false} EmptyDistance(a: string)
    ensures Distance(a, "") == |a|
  {
  }

  lemma {:induction false} InsertionCost(x: string, c: char, y: string, b: string)
    ensures Distance(x + y, b) <= Distance(x + [c] + y, b) + 1
    ensures Distance(x + [c] + y, b) <= Distance(x + y, b) + 1
    decreases |y| + |b|
  {
    hide Distance;
    if y == "" {
      assert x + y == x && x + [c] + y == x + [c];
      LastAddsAtMostOne(x, c, b);
    } else if b == "" {
      EmptyDistance(x + y);
      EmptyDistance(x + [c] + y);
    } else {
      assert Front(x + y) == x + Front(y);
      assert Front(x + [c] + y) == x + [c] + Front(y);
      Recurrence(x + y, b);
      Recurrence(x + [c] + y, b);
      InsertionCost(x, c, Front(y), b);
      InsertionCost(x, c, y, Front(b));
      InsertionCost(x, c, Front(y), Front(b));
    }
  }

  lemma {:induction false} ReplacementCost(x: string, c: char, d: char, y: string, b: string)
    ensures Distance(x + [c] + y, b) <= Distance(x + [d] + y, b) + 1
    decreases |y| + |b|
  {
    if b == "" {
    } else if y == "" {
      assert x + [c] + y == x + [c] && x + [d] + y == x + [d];
      assert Front(x + [c]) == x == Front(x + [d]);
      ReplacementCost(x, c, d, y, Front(b));
    } else {
      assert Front(x + [c] + y) == x + [c] + Front(y);
      assert Front(x + [d] + y) == x + [d] + Front(y);
      ReplacementCost(x, c, d, Front(y), b);
      ReplacementCost(x, c, d, y, Front(b));
      ReplacementCost(x, c, d, Front(y), Front(b));
    }
  }

  lemma OneEditCost(s: string, t: string, b: string)
    requires OneEdit(s, t)
    ensures Distance(s, b) <= Distance(t, b) + 1
  {
    hide Distance;
    if Inserted(s, t) {
      var x, c, y :| s == x + y && t == x + [c] + y;
      InsertionCost(x, c, y, b);
    } else if Inserted(t, s) {
      var x, c, y :| t == x + y && s == x + [c] + y;
      InsertionCost(x, c, y, b);
    } else {
      var x, c, d, y :| s == x + [c] + y && t == x + [d] + y;
      ReplacementCost(x, c, d, y, b);
    }
  }

  lemma {:induction false} DistanceToSelf(b: string)
    ensures Distance(b, b) == 0
  {
    if b != "" {
      DistanceToSelf(Front(b));
    }
  }

  /** No chain of edits is shorter than the distance. */
  lemma {:induction false} NoShorterPath(p: seq<string>, a: string, b: string)
    requires EditPath(p, a, b)
    ensures |p| - 1 >= Distance(a, b)
    decreases |p|
  {
    hide Distance, OneEdit;
    if |p| == 1 {
      DistanceToSelf(b);
    } else {
      assert OneEdit(p[0], p[0 + 1]);
      NoShorterPath(p[1..], p[1], b);
      OneEditCost(a, p[1], b);
    }
  }

  lemma AppendedEdit(s: string, t: string, c: char)
    requires OneEdit(s, t)
    ensures OneEdit(s + [c], t + [c])
  {
    if Inserted(s, t) {
      var x, d, y :| s == x + y && t == x + [d] + y;
      assert s + [c] == x + (y + [c]) && t + [c] == x + [d] + (y + [c]);
    } else if Inserted(t, s) {
      var x, d, y :| t == x + y && s == x + [d] + y;
      assert t + [c] == x + (y + [c]) && s + [c] == x + [d] + (y + [c]);
    } else {
      var x, d, e, y :| s == x + [d] + y && t == x + [e] + y;
      assert s + [c] == x + [d] + (y + [c]) && t + [c] == x + [e] + (y + [c]);
    }
  }

  lemma LastEdits(a: string, c: char, d: char)
    ensures OneEdit(a, a + [c]) && OneEdit(a + [c], a) && OneEdit(a + [c], a + [d])
  {
    assert a == a + "" && a + [c] == a + [c] + "" && a + [d] == a + [d] + "";
    assert Inserted(a, a + [c]);
    assert Replaced(a + [c], a + [d]);
  }

  lemma AppendedPath(p: seq<string>, a: string, b: string, c: char)
    requires EditPath(p, a, b)
    ensures EditPath(seq(|p|, i requires 0 <= i < |p| => p[i] + [c]), a + [c], b + [c])
  {
    hide OneEdit;
    forall i | 0 <= i < |p| - 1 ensures OneEdit(p[i] + [c], p[i + 1] + [c]) {
      AppendedEdit(p[i], p[i + 1], c);
    }
  }

  lemma LongerPath(p: seq<string>, a: string, b: string, x: string, y: string)
    requires EditPath(p, a, b)
    ensures OneEdit(x, a) ==> EditPath([x] + p, x, b)
    ensures OneEdit(b, y) ==> EditPath(p + [y], a, y)
  {
    hide OneEdit;
  }

  /** A chain of exactly the distance exists. */
  lemma {:induction false} ShortestPath(a: string, b: string) returns (p: seq<string>)
    ensures EditPath(p, a, b) && |p| - 1 == Distance(a, b)
    decreases |a| + |b|
  {
    hide OneEdit;
    if a == "" && b == "" {
      p := [a];
    } else if b == "" || (a != "" && Distance(a, b) == Distance(Front(a), b) + 1) {
      assert a == Front(a) + [Last(a)];
      var q := ShortestPath(Front(a), b);
      LastEdits(Front(a), Last(a), Last(a));
      LongerPath(q, Front(a), b, a, b);
      p := [a] + q;
    } else if a == "" || Distance(a, b) == Distance(a, Front(b)) + 1 {
      assert b == Front(b) + [Last(b)];
      var q := ShortestPath(a, Front(b));
      LastEdits(Front(b), Last(b), Last(b));
      LongerPath(q, a, Front(b), a, b);
      p := q + [b];
    } else {
      assert a == Front(a) + [Last(a)] && b == Front(b) + [Last(b)];
      var q := ShortestPath(Front(a), Front(b));
      AppendedPath(q, Front(a), Front(b), Last(b));
      p := seq(|q|, i requires 0 <= i < |q| => q[i] + [Last(b)]);
      if Last(a) != Last(b) {
        LastEdits(Front(a), Last(a), Last(b));
        LongerPath(p, Front(a) + [Last(b)], b, a, b);
        p := [a] + p;
      }
    }
  }

  /** The distance is the least number of single-character edits between the strings. */
  lemma DistanceIsFewestEdits(a: string, b: string)
    ensures exists p :: EditPath(p, a, b) && |p| - 1 == Distance(a, b)
    ensures forall p :: EditPath(p, a, b) ==> |p| - 1 >= Distance(a, b)
  {
    var q := ShortestPath(a, b);
    forall p | EditPath(p, a, b) ensures |p| - 1 >= Distance(a, b) {
      NoShorterPath(p, a, b);
    }
  }

  // ----- what the row algorithm relies on -----

  lemma {:induction false} Symmetric(a: string, b: string)
    ensures Distance(a, b) == Distance(b, a)
    decreases |a| + |b|
  {
    if a != "" && b != "" {
      Symmetric(Front(a), b);
      Symmetric(a, Front(b));
      Symmetric(Front(a), Front(b));
    }
  }

  lemma {:induction false} AtLeastLengthDifference(a: string, b: string)
    ensures Distance(a, b) >= |a| - |b| && Distance(a, b) >= |b| - |a|
    decreases |a| + |b|
  {
    if a != "" && b != "" {
      AtLeastLengthDifference(Front(a), b);
      AtLeastLengthDifference(a, Front(b));
      AtLeastLengthDifference(Front(a), Front(b));
    }
  }

  /** The table entry for the first `i` characters of `a` and the first `j` of `b`. */
  function Entry(a: string, b: string, i: nat, j: nat): (r: nat)
    requires i <= |a| && j <= |b|
  {
    Distance(a[..i], b[..j])
  }

  lemma EntryBorder(a: string, b: string, i: nat, j: nat)
    requires i <= |a| && j <= |b|
    ensures Entry(a, b, 0, j) == j && Entry(a, b, i, 0) == i
  {
  }

  lemma EntryStep(a: string, b: string, i: nat, j: nat)
    requires 0 < i <= |a| && 0 < j <= |b|
    ensures Entry(a, b, i, j) ==
            Min(Min(Entry(a, b, i - 1, j) + 1, Entry(a, b, i, j - 1) + 1),
                Entry(a, b, i - 1, j - 1) + Cost(a[i - 1], b[j - 1]))
  {
    assert Front(a[..i]) == a[..i - 1] && Front(b[..j]) == b[..j - 1];
  }

  /** Once a whole row exceeds the limit, so does every later row. */
  lemma {:induction false} RowsStayAbove(a: string, b: string, j: nat, k: nat, i: nat, limit: int)
    requires j <= k <= |b| && i <= |a|
    requires forall x :: 0 <= x <= |a| ==> Entry(a, b, x, j) > limit
    ensures Entry(a, b, i, k) > limit
    decreases k, i
  {
    hide Entry;
    if k > j {
      EntryBorder(a, b, 0, j);
      EntryBorder(a, b, 0, k);
      assert Entry(a, b, 0, j) > limit;
      if i > 0 {
        EntryStep(a, b, i, k);
        RowsStayAbove(a, b, j, k, i - 1, limit);
        RowsStayAbove(a, b, j, k - 1, i, limit);
        RowsStayAbove(a, b, j, k - 1, i - 1, limit);
      }
    }
  }

  ghost predicate IsRow(row: seq<int>, a: string, b: string, j: nat, n: nat)
    requires j <= |b|
  {
    n <= |row| == |a| + 1 && forall x :: 0 <= x < n ==> row[x] == Entry(a, b, x, j)
  }

  /** One row of the table from the one before; returns the least entry. */
  method FillRow(a: string, b: string, j: nat, prev: array<int>, curr: array<int>) returns (least: int)
    requires 0 < j <= |b| && prev != curr
    requires IsRow(prev[..], a, b, j - 1, |a| + 1) && curr.Length == |a| + 1
    modifies curr
    ensures IsRow(curr[..], a, b, j, |a| + 1)
    ensures exists x :: 0 <= x <= |a| && least == Entry(a, b, x, j)
    ensures forall x :: 0 <= x <= |a| ==> least <= Entry(a, b, x, j)
  {
    hide Entry;
    curr[0] := j;
    least := j;
    EntryBorder(a, b, 0, j);
    var i := 1;
    while i <= |a|
      invariant 1 <= i <= |a| + 1
      invariant IsRow(curr[..], a, b, j, i)
      invariant exists x :: 0 <= x < i && least == Entry(a, b, x, j)
      invariant forall x :: 0 <= x < i ==> least <= Entry(a, b, x, j)
    {
      var cost := if a[i - 1] == b[j - 1] then 0 else 1;
      assert prev[..][i] == Entry(a, b, i, j - 1) && prev[..][i - 1] == Entry(a, b, i - 1, j - 1);
      assert curr[..][i - 1] == Entry(a, b, i - 1, j);
      EntryStep(a, b, i, j);
      curr[i] := prev[i] + 1;
      if curr[i - 1] + 1 < curr[i] {
        curr[i] := curr[i - 1] + 1;
      }
      if prev[i - 1] + cost < curr[i] {
        curr[i] := prev[i - 1] + cost;
      }
      if curr[i] < least {
        least := curr[i];
      }
      i := i + 1;
    }
  }

  /** The two-row loop over the shorter string; `None` is the early exit. */
  method Rows(a: string, b: string, maxDist: int) returns (r: Option<int>)
    ensures r.Some? ==> r.value == Distance(a, b)
    ensures r.None? ==> Distance(a, b) > maxDist
  {
    hide Entry;
    var prev := new int[|a| + 1](i => i);
    var curr := new int[|a| + 1];
    forall i | 0 <= i <= |a| ensures Entry(a, b, i, 0) == i {
      EntryBorder(a, b, i, 0);
    }
    var j := 1;
    while j <= |b|
      invariant 1 <= j <= |b| + 1 && prev != curr && fresh(prev) && fresh(curr)
      invariant IsRow(prev[..], a, b, j - 1, |a| + 1) && curr.Length == |a| + 1
    {
      var least := FillRow(a, b, j, prev, curr);
      if least > maxDist {
        RowsStayAbove(a, b, j, |b|, |a|, maxDist);
        WholeEntry(a, b);
        return None;
      }
      prev, curr := curr, prev;
      j := j + 1;
    }
    WholeEntry(a, b);
    assert prev[..][|a|] == Entry(a, b, |a|, |b|);
    r := Some(prev[|a|]);
  }

  lemma WholeEntry(a: string, b: string)
    ensures Entry(a, b, |a|, |b|) == Distance(a, b)
  {
    assert a[..|a|] == a && b[..|b|] == b;
  }

  /** `levenshtein_distance`: exact up to the limit, above the limit otherwise. */
  method LevenshteinDistance(s1: string, s2: string, maxDist: int) returns (r: int)
    ensures Distance(s1, s2) <= maxDist ==> r == Distance(s1, s2)
    ensures Distance(s1, s2) > maxDist ==> r == maxDist + 1 || r == Distance(s1, s2)
  {
    hide Distance;
    AtLeastLengthDifference(s1, s2);
    Symmetric(s1, s2);
    var diff := |s1| - |s2|;
    if diff < 0 {
      diff := -diff;
    }
    if diff > maxDist {
      return maxDist + 1;
    }
    var a, b := s1, s2;
    if |s1| > |s2| {
      a, b := s2, s1;
    }
    var result := Rows(a, b, maxDist);
    if result.None? {
      return maxDist + 1;
    }
    r := result.value;
  }

  // ----- the suggester -----

  /** The symbol keys of an environment list, in order; other entries are passed over. */
  function Candidates(env: Cell): (r: seq<string>)
    decreases env
  {
    match env
    case Pair(Pair(Sym(name), _), rest) => [name] + Candidates(rest)
    case Pair(_, rest) => Candidates(rest)
    case _ => []
  }

  function Nth(l: Cell, i: nat): (c: Cell)
    decreases i
  {
    if i == 0 then Car(l) else Nth(Cdr(l), i - 1)
  }

  /** Entry `i` of the list is a pair whose first part is the symbol. */
  predicate KeyAt(env: Cell, i: nat, name: string) {
    i < Length(env) && Nth(env, i).Pair? && Nth(env, i).car == Sym(name)
  }

  /** The candidates are the symbols that stand first in an entry of the list. */
  lemma {:induction false} CandidatesAreKeys(env: Cell, name: string)
    ensures name in Candidates(env) <==> exists i: nat :: KeyAt(env, i, name)
    decreases env
  {
    if env.Pair? {
      CandidatesAreKeys(env.cdr, name);
      assert forall i: nat :: KeyAt(env.cdr, i, name) ==> KeyAt(env, i + 1, name);
      assert forall i: nat :: i > 0 && KeyAt(env, i, name) ==> KeyAt(env.cdr, i - 1, name);
      assert KeyAt(env, 0, name) <==> env.car.Pair? && env.car.car == Sym(name);
      if name in Candidates(env) && !(env.car.Pair? && env.car.car == Sym(name)) {
        var i: nat :| KeyAt(env.cdr, i, name);
        assert KeyAt(env, i + 1, name);
      }
    }
  }

  /** `best` is the first of the nearest candidates, none being within the limit if absent. */
  ghost predicate Nearest(best: Option<string>, name: string, candidates: seq<string>, limit: int) {
    match best
    case None => forall c :: c in candidates ==> Distance(name, c) > limit
    case Some(found) =>
      && Distance(name, found) <= limit
      && exists k :: FirstNearest(k, found, name, candidates)
  }

  ghost predicate FirstNearest(k: int, found: string, name: string, candidates: seq<string>) {
    && 0 <= k < |candidates| && candidates[k] == found
    && (forall j :: 0 <= j < |candidates| ==> Distance(name, candidates[j]) >= Distance(name, found))
    && (forall j :: 0 <= j < k ==> Distance(name, candidates[j]) > Distance(name, found))
  }

  lemma NearestExtends(best: Option<string>, name: string, seen: seq<string>, c: string, limit: int)
    requires Nearest(best, name, seen, limit)
    ensures var bound := if best.Some? then Distance(name, best.value) else limit + 1;
            Nearest(if Distance(name, c) < bound then Some(c) else best, name, seen + [c], limit)
  {
    hide Distance;
    var bound := if best.Some? then Distance(name, best.value) else limit + 1;
    if Distance(name, c) < bound {
      assert FirstNearest(|seen|, c, name, seen + [c]);
    } else if best.Some? {
      var k :| FirstNearest(k, best.value, name, seen);
      assert FirstNearest(k, best.value, name, seen + [c]);
    }
  }

  /** `diag_suggest_name`. */
  method SuggestName(name: string, env: Cell, maxDistance: int) returns (best: Option<string>)
    ensures Nearest(best, name, Candidates(env), maxDistance)
  {
    hide Distance, Nearest;
    best := None;
    var bestDist := maxDistance + 1;
    var cur := env;
    ghost var seen := [];
    NothingSeen(name, maxDistance);
    while cur.Pair?
      invariant Candidates(env) == seen + Candidates(cur)
      invariant Nearest(best, name, seen, maxDistance)
      invariant bestDist == if best.Some? then Distance(name, best.value) else maxDistance + 1
      invariant bestDist <= maxDistance + 1
      decreases cur
    {
      if cur.car.Pair? && cur.car.car.Sym? {
        var candidate := cur.car.car.name;
        var d := LevenshteinDistance(name, candidate, maxDistance);
        NearestExtends(best, name, seen, candidate, maxDistance);
        seen := seen + [candidate];
        if d < bestDist {
          bestDist := d;
          best := Some(candidate);
        }
      }
      cur := cur.cdr;
    }
    assert Candidates(env) == seen;
  }

  lemma NothingSeen(name: string, limit: int)
    ensures Nearest(None, name, [], limit)
  {
  }
}
