/** The suggestion for a mistyped command: an edit distance over two rolling rows, and the command
    names closest by it.  A character stands for one byte. */
module EditDistance {
  import Mir

  type Option<T> = Mir.Option<T>

  // ---- Edits --------------------------------------------------------------------------------------

  datatype Edit = Insert(at: nat, c: char) | Delete(at: nat) | Substitute(at: nat, c: char)

  predicate Fits(e: Edit, s: string) {
    if e.Insert? then e.at <= |s| else e.at < |s|
  }

  function Apply(e: Edit, s: string): string
    requires Fits(e, s)
  {
    match e
    case Insert(at, c) => s[..at] + [c] + s[at..]
    case Delete(at) => s[..at] + s[at + 1..]
    case Substitute(at, c) => s[..at] + [c] + s[at + 1..]
  }

  /** The edits, one after the other, turn `a` into `b`. */
  predicate Turns(a: string, es: seq<Edit>, b: string)
    decreases |es|
  {
    if es == [] then a == b else Fits(es[0], a) && Turns(Apply(es[0], a), es[1..], b)
  }

  function Min(x: nat, y: nat): nat {
    if x <= y then x else y
  }

  function Cost(a: string, b: string): nat
    requires a != [] && b != []
  {
    if a[|a| - 1] == b[|b| - 1] then 0 else 1
  }

  function Init(s: string): string
    requires s != []
  {
    s[..|s| - 1]
  }

  /** The distance by the last bytes: drop one of them, or match them. */
  function Lev(a: string, b: string): nat
    decreases |a| + |b|
  {
    if a == [] then |b|
    else if b == [] then |a|
    else Min(Min(Lev(Init(a), b) + 1, Lev(a, Init(b)) + 1), Lev(Init(a), Init(b)) + Cost(a, b))
  }

  // ---- A metric -----------------------------------------------------------------------------------

  lemma {:induction false} LevSymmetric(a: string, b: string)
    ensures Lev(a, b) == Lev(b, a)
    decreases |a| + |b|
  {
    if a != [] && b != [] {
      LevSymmetric(Init(a), b);
      LevSymmetric(a, Init(b));
      LevSymmetric(Init(a), Init(b));
    }
  }

  lemma {:induction false} LevBounds(a: string, b: string)
    ensures |a| <= Lev(a, b) + |b| && |b| <= Lev(a, b) + |a| && Lev(a, b) <= |a| + |b|
    decreases |a| + |b|
  {
    if a != [] && b != [] {
      LevBounds(Init(a), b);
      LevBounds(a, Init(b));
      LevBounds(Init(a), Init(b));
    }
  }

  lemma {:induction false} LevZero(a: string, b: string)
    ensures Lev(a, b) == 0 <==> a == b
    decreases |a| + |b|
  {
    if a != [] && b != [] {
      LevZero(Init(a), Init(b));
      assert a == Init(a) + [a[|a| - 1]] && b == Init(b) + [b[|b| - 1]];
      assert a == b ==> Init(a) == Init(b);
    }
  }

  lemma {:induction false} LevTriangle(a: string, b: string, c: string)
    ensures Lev(a, c) <= Lev(a, b) + Lev(b, c)
    decreases |a| + |b| + |c|
  {
    LevBounds(a, b);
    LevBounds(b, c);
    LevBounds(a, c);
    if a != [] && b != [] && c != [] {
      LevTriangle(Init(a), b, c);
      LevTriangle(a, b, Init(c));
      LevTriangle(a, Init(b), c);
      LevTriangle(a, Init(b), Init(c));
      LevTriangle(Init(a), Init(b), c);
      LevTriangle(Init(a), Init(b), Init(c));
    }
  }

  // ---- The least number of edits --------------------------------------------------------------------

  /** Bytes added at the end of both sides cannot move them further apart. */
  lemma {:induction false} LevSuffix(a: string, b: string, v: string)
    ensures Lev(a + v, b + v) <= Lev(a, b)
    decreases |v|
  {
    if v == [] {
      assert a + v == a && b + v == b;
    } else {
      LevSuffix(a, b, Init(v));
      assert Init(a + v) == a + Init(v) && Init(b + v) == b + Init(v);
    }
  }

  lemma LevOneMore(u: string, c: char)
    ensures Lev(u, u + [c]) <= 1 && Lev(u + [c], u) <= 1
  {
    assert Init(u + [c]) == u;
    LevZero(u, u);
    LevBounds(u, u + [c]);
  }

  lemma LevOneOther(u: string, c: char, d: char)
    ensures Lev(u + [c], u + [d]) <= 1
  {
    assert Init(u + [c]) == u == Init(u + [d]);
    LevZero(u, u);
  }

  lemma LevOneEdit(e: Edit, s: string)
    requires Fits(e, s)
    ensures Lev(s, Apply(e, s)) <= 1
  {
    match e
    case Insert(at, c) => LevInsert(s[..at], c, s[at..], s);
    case Delete(at) => LevDelete(s[..at], s[at], s[at + 1..], s);
    case Substitute(at, c) => LevSubstitute(s[..at], s[at], c, s[at + 1..], s);
  }

  lemma LevInsert(u: string, c: char, v: string, s: string)
    requires s == u + v
    ensures Lev(s, u + [c] + v) <= 1
  {
    LevOneMore(u, c);
    LevSuffix(u, u + [c], v);
  }

  lemma LevDelete(u: string, c: char, v: string, s: string)
    requires s == u + [c] + v
    ensures Lev(s, u + v) <= 1
  {
    LevOneMore(u, c);
    LevSuffix(u + [c], u, v);
  }

  lemma LevSubstitute(u: string, c: char, d: char, v: string, s: string)
    requires s == u + [c] + v
    ensures Lev(s, u + [d] + v) <= 1
  {
    LevOneOther(u, c, d);
    LevSuffix(u + [c], u + [d], v);
  }

  /** No run of edits is shorter than the distance. */
  lemma {:induction false} LevLeast(a: string, es: seq<Edit>, b: string)
    requires Turns(a, es, b)
    ensures Lev(a, b) <= |es|
    decreases |es|
  {
    if es == [] {
      LevZero(a, b);
    } else {
      var next := Apply(es[0], a);
      LevLeast(next, es[1..], b);
      LevOneEdit(es[0], a);
      LevTriangle(a, next, b);
    }
  }

  lemma {:induction false} TurnsCompose(a: string, es: seq<Edit>, b: string, fs: seq<Edit>, c: string)
    requires Turns(a, es, b) && Turns(b, fs, c)
    ensures Turns(a, es + fs, c)
    decreases |es|
  {
    if es == [] {
      assert es + fs == fs;
    } else {
      TurnsCompose(Apply(es[0], a), es[1..], b, fs, c);
      assert (es + fs)[1..] == es[1..] + fs;
    }
  }

  /** Edits before the last byte. */
  lemma {:induction false} TurnsSnoc(a: string, es: seq<Edit>, b: string, x: char)
    requires Turns(a, es, b)
    ensures Turns(a + [x], es, b + [x])
    decreases |es|
  {
    if es != [] {
      TurnsSnoc(Apply(es[0], a), es[1..], b, x);
      ApplySnoc(es[0], a, x);
    }
  }

  lemma ApplySnoc(e: Edit, a: string, x: char)
    requires Fits(e, a)
    ensures Fits(e, a + [x]) && Apply(e, a + [x]) == Apply(e, a) + [x]
  {
    assert (a + [x])[..e.at] == a[..e.at];
    if e.Insert? {
      assert (a + [x])[e.at..] == a[e.at..] + [x];
    } else {
      assert (a + [x])[e.at + 1..] == a[e.at + 1..] + [x];
    }
  }

  lemma ApplyLast(u: string, x: char, y: char)
    ensures Turns(u + [x], [Delete(|u|)], u)
    ensures Turns(u, [Insert(|u|, x)], u + [x])
    ensures Turns(u + [x], [Substitute(|u|, y)], u + [y])
  {
    assert Apply(Delete(|u|), u + [x]) == u;
    assert Apply(Insert(|u|, x), u) == u + [x];
    assert Apply(Substitute(|u|, y), u + [x]) == u + [y];
  }

  /** Some run of edits is as short as the distance. */
  lemma {:induction false} LevReached(a: string, b: string) returns (es: seq<Edit>)
    ensures Turns(a, es, b) && |es| == Lev(a, b)
    decreases |a| + |b|
  {
    if a == [] && b == [] {
      es := [];
    } else if a != [] && Lev(a, b) == Lev(Init(a), b) + 1 {
      es := ReachedByDrop(Init(a), a[|a| - 1], b);
      SnocInit(a);
    } else if b != [] && Lev(a, b) == Lev(a, Init(b)) + 1 {
      es := ReachedByAdd(a, Init(b), b[|b| - 1]);
      SnocInit(b);
    } else {
      es := ReachedByMatch(Init(a), a[|a| - 1], Init(b), b[|b| - 1]);
      SnocInit(a);
      SnocInit(b);
    }
  }

  lemma {:induction false} ReachedByDrop(u: string, x: char, b: string) returns (es: seq<Edit>)
    ensures Turns(u + [x], es, b) && |es| == Lev(u, b) + 1
    decreases |u| + |b| + 1, 0
  {
    var rest := LevReached(u, b);
    ApplyLast(u, x, x);
    TurnsCompose(u + [x], [Delete(|u|)], u, rest, b);
    es := [Delete(|u|)] + rest;
  }

  lemma {:induction false} ReachedByAdd(a: string, v: string, y: char) returns (es: seq<Edit>)
    ensures Turns(a, es, v + [y]) && |es| == Lev(a, v) + 1
    decreases |a| + |v| + 1, 0
  {
    var rest := LevReached(a, v);
    ApplyLast(v, y, y);
    TurnsCompose(a, rest, v, [Insert(|v|, y)], v + [y]);
    es := rest + [Insert(|v|, y)];
  }

  lemma {:induction false} ReachedByMatch(u: string, x: char, v: string, y: char) returns (es: seq<Edit>)
    ensures Turns(u + [x], es, v + [y]) && |es| == Lev(u, v) + if x == y then 0 else 1
    decreases |u| + |v| + 1
  {
    es := LevReached(u, v);
    TurnsSnoc(u, es, v, x);
    if x != y {
      ApplyLast(v, x, y);
      TurnsCompose(u + [x], es, v + [x], [Substitute(|v|, y)], v + [y]);
      es := es + [Substitute(|v|, y)];
    }
  }

  lemma SnocInit(s: string)
    requires s != []
    ensures s == Init(s) + [s[|s| - 1]]
  {
  }

  /** The least number of single-byte insertions, deletions and substitutions. */
  ghost predicate IsDistance(a: string, b: string, d: nat) {
    && (exists es :: Turns(a, es, b) && |es| == d)
    && (forall es :: Turns(a, es, b) ==> d <= |es|)
  }

  lemma LevIsDistance(a: string, b: string)
    ensures IsDistance(a, b, Lev(a, b))
  {
    var _ := LevReached(a, b);
    forall es | Turns(a, es, b) ensures Lev(a, b) <= |es| {
      LevLeast(a, es, b);
    }
  }

  // ---- The two rows ---------------------------------------------------------------------------------

  /** A row holds the distances of all prefixes of `a`. */
  predicate Row(row: seq<nat>, a: string, b: string) {
    |row| == |a| + 1 && forall j :: 0 <= j <= |a| ==> row[j] == Lev(a[..j], b)
  }

  /** How a row follows from the one before, up to a column. */
  predicate Follows(prev: seq<nat>, curr: seq<nat>, a: string, c: char, upTo: nat) {
    && |prev| == |curr| == |a| + 1
    && forall j :: 1 <= j < upTo && j <= |a| ==>
         curr[j] == Cell(curr[j - 1], prev[j], prev[j - 1], a[j - 1], c)
  }

  /** A cell from the ones to its left, above, and diagonally above. */
  function Cell(left: nat, up: nat, diagonal: nat, x: char, y: char): nat {
    Min(Min(left + 1, up + 1), diagonal + if x != y then 1 else 0)
  }

  lemma {:induction false} CellFollows(prev: seq<nat>, curr: seq<nat>, a: string, b: string, i: nat, j: nat)
    requires 1 <= i <= |b| && j <= |a| && Row(prev, a, b[..i - 1])
    requires Follows(prev, curr, a, b[i - 1], |a| + 1) && curr[0] == i
    ensures curr[j] == Lev(a[..j], b[..i])
    decreases j
  {
    if j > 0 {
      CellFollows(prev, curr, a, b, i, j - 1);
      assert prev[j] == Lev(a[..j], b[..i - 1]) && prev[j - 1] == Lev(a[..j - 1], b[..i - 1]);
      LevOfPrefixes(a, b, i, j);
    }
  }

  /** The distance of two prefixes from those of shorter ones. */
  lemma LevOfPrefixes(a: string, b: string, i: nat, j: nat)
    requires 1 <= i <= |b| && 1 <= j <= |a|
    ensures Lev(a[..j], b[..i])
         == Cell(Lev(a[..j - 1], b[..i]), Lev(a[..j], b[..i - 1]), Lev(a[..j - 1], b[..i - 1]), a[j - 1], b[i - 1])
  {
    assert Init(a[..j]) == a[..j - 1] && Init(b[..i]) == b[..i - 1];
  }

  lemma RowFollows(prev: seq<nat>, curr: seq<nat>, a: string, b: string, i: nat)
    requires 1 <= i <= |b| && Row(prev, a, b[..i - 1])
    requires Follows(prev, curr, a, b[i - 1], |a| + 1) && curr[0] == i
    ensures Row(curr, a, b[..i])
  {
    forall j | 0 <= j <= |a| ensures curr[j] == Lev(a[..j], b[..i]) {
      CellFollows(prev, curr, a, b, i, j);
    }
  }

  method FillRow(a: string, c: char, i: nat, prev: array<nat>, curr: array<nat>)
    requires prev != curr && prev.Length == curr.Length == |a| + 1
    modifies curr
    ensures curr[0] == i && Follows(prev[..], curr[..], a, c, |a| + 1)
  {
    curr[0] := i;
    for j := 1 to |a| + 1
      invariant curr[0] == i
      invariant forall k :: 1 <= k < j ==> curr[k] == Cell(curr[k - 1], prev[k], prev[k - 1], a[k - 1], c)
    {
      var cost := if a[j - 1] != c then 1 else 0;
      curr[j] := Min(Min(curr[j - 1] + 1, prev[j] + 1), prev[j - 1] + cost);
    }
  }

  /** The two-row computation gives the least number of edits. */
  method EditDistanceOf(a: string, b: string) returns (d: nat)
    ensures d == Lev(a, b)
  {
    var prev := new nat[|a| + 1](k => k);
    var curr := new nat[|a| + 1](k => 0);
    assert Row(prev[..], a, b[..0]);
    for i := 1 to |b| + 1
      invariant prev != curr && prev.Length == curr.Length == |a| + 1
      invariant fresh(prev) && fresh(curr)
      invariant Row(prev[..], a, b[..i - 1])
    {
      FillRow(a, b[i - 1], i, prev, curr);
      RowFollows(prev[..], curr[..], a, b, i);
      prev, curr := curr, prev;
    }
    assert a[..|a|] == a && b[..|b|] == b;
    assert prev[|a|] == prev[..][|a|];
    d := prev[|a|];
  }

  // ---- The closest command --------------------------------------------------------------------------

  const COMMAND_NAMES: seq<string> :=
    ["check", "doc", "format", "bootstrap-check", "bootstrap-doc", "bootstrap-format",
     "run", "build", "plan", "query", "help", "version"]

  const THRESHOLD: nat := 3

  /** The first number at the least distance, if that is within the threshold. */
  predicate FirstLeast(dists: seq<nat>, r: Option<nat>) {
    match r
    case None => forall k :: 0 <= k < |dists| ==> dists[k] > THRESHOLD
    case Some(k) =>
      && k < |dists| && dists[k] <= THRESHOLD
      && (forall j :: 0 <= j < |dists| ==> dists[k] <= dists[j])
      && (forall j :: 0 <= j < k ==> dists[k] < dists[j])
  }

  function Distances(name: string, commands: seq<string>): (r: seq<nat>)
    ensures |r| == |commands|
  {
    if commands == [] then []
    else Distances(name, commands[..|commands| - 1]) + [Lev(name, commands[|commands| - 1])]
  }

  lemma {:induction false} DistancesAt(name: string, commands: seq<string>, k: nat)
    requires k < |commands|
    ensures Distances(name, commands)[k] == Lev(name, commands[k])
  {
    if k < |commands| - 1 { DistancesAt(name, commands[..|commands| - 1], k); }
  }

  lemma DistancesSnoc(name: string, commands: seq<string>, n: nat)
    requires n < |commands|
    ensures Distances(name, commands[..n + 1]) == Distances(name, commands[..n]) + [Lev(name, commands[n])]
  {
    assert commands[..n + 1][..n] == commands[..n];
  }

  /** Fewer edits do not turn one string into the other. */
  ghost predicate NoShorter(a: string, b: string, d: nat) {
    forall es :: Turns(a, es, b) ==> d <= |es|
  }

  lemma LevNoShorter(a: string, b: string, d: nat)
    requires d <= Lev(a, b)
    ensures NoShorter(a, b, d)
  {
    forall es | Turns(a, es, b) ensures d <= |es| {
      LevLeast(a, es, b);
    }
  }

  /** A suggestion: a command that at most three edits reach, that no other takes fewer to reach, and
      that is the first of those; or none, when every command takes more than three. */
  ghost predicate Suggests(name: string, commands: seq<string>, r: Option<nat>) {
    match r
    case None => forall j :: 0 <= j < |commands| ==> NoShorter(name, commands[j], 4)
    case Some(k) => k < |commands| && exists d :: Nearest(name, commands, k, d)
  }

  ghost predicate Nearest(name: string, commands: seq<string>, k: nat, d: nat)
    requires k < |commands|
  {
    && IsDistance(name, commands[k], d) && d <= 3
    && forall j :: 0 <= j < |commands| ==> NoShorter(name, commands[j], if j < k then d + 1 else d)
  }

  lemma LeastSuggests(name: string, commands: seq<string>, r: Option<nat>)
    requires FirstLeast(Distances(name, commands), r)
    ensures Suggests(name, commands, r)
  {
    var dists := Distances(name, commands);
    forall j | 0 <= j < |commands|
      ensures NoShorter(name, commands[j],
                        if r.None? then 4 else if j < r.value then dists[r.value] + 1 else dists[r.value])
    {
      DistancesAt(name, commands, j);
      LevNoShorter(name, commands[j],
                   if r.None? then 4 else if j < r.value then dists[r.value] + 1 else dists[r.value]);
    }
    if r.Some? {
      DistancesAt(name, commands, r.value);
      LevIsDistance(name, commands[r.value]);
      assert Nearest(name, commands, r.value, dists[r.value]);
    }
  }

  method ClosestOf(name: string, commands: seq<string>) returns (r: Option<nat>)
    ensures FirstLeast(Distances(name, commands), r) && Suggests(name, commands, r)
  {
    r := FindClosest(name, commands);
    LeastSuggests(name, commands, r);
  }

  method FindClosest(name: string, commands: seq<string>) returns (r: Option<nat>)
    ensures FirstLeast(Distances(name, commands), r)
  {
    r := Mir.None;
    var best := 0;
    for n := 0 to |commands|
      invariant FirstLeast(Distances(name, commands[..n]), r)
      invariant r.Some? ==> best == Distances(name, commands[..n])[r.value]
    {
      var dist := EditDistanceOf(name, commands[n]);
      DistancesSnoc(name, commands, n);
      if dist <= THRESHOLD {
        if r.None? || dist < best {
          r, best := Mir.Some(n), dist;
        }
      }
    }
    assert commands[..|commands|] == commands;
  }

  method ClosestCommand(name: string) returns (r: Option<string>)
    ensures match r
            case None => Suggests(name, COMMAND_NAMES, Mir.None)
            case Some(c) => exists k :: 0 <= k < |COMMAND_NAMES| && COMMAND_NAMES[k] == c
                                     && Suggests(name, COMMAND_NAMES, Mir.Some(k))
  {
    var k := ClosestOf(name, COMMAND_NAMES);
    r := if k.Some? then Mir.Some(COMMAND_NAMES[k.value]) else Mir.None;
  }
}
