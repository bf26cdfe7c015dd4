// The two edit distances used for spelling suggestions: their tables, the
// recursions the tables fill, and what those recursions minimise.
module EditDistance {

  function Min(a: int, b: int): int {
    if a < b then a else b
  }

  function Max(a: int, b: int): int {
    if a < b then b else a
  }

  function Mismatch(a: char, b: char): nat {
    if a == b then 0 else 1
  }

  // Insertion, deletion and substitution, on prefixes of length i and j.
  function Plain(del: int, ins: int, diag: int, cost: nat): int {
    Min(Min(del + 1, ins + 1), diag + cost)
  }

  // ---- Optimal string alignment ----

  predicate Swapped(s: string, t: string, i: nat, j: nat)
    requires i <= |s| && j <= |t|
  {
    i > 1 && j > 1 && s[i - 1] == t[j - 2] && s[i - 2] == t[j - 1]
  }

  function Osa(s: string, t: string, i: nat, j: nat): int
    requires i <= |s| && j <= |t|
    decreases i + j
  {
    if i == 0 then j
    else if j == 0 then i
    else
      var d := Plain(Osa(s, t, i - 1, j), Osa(s, t, i, j - 1), Osa(s, t, i - 1, j - 1), Mismatch(s[i - 1], t[j - 1]));
      if Swapped(s, t, i, j) then Min(d, Osa(s, t, i - 2, j - 2) + 1) else d
  }

  // ---- Damerau-Levenshtein ----

  // The last place before the end of s's first `n` characters where `c`
  // stands, counted from 1; 0 for none.
  function Last(s: string, n: nat, c: char): (k: nat)
    requires n <= |s|
    ensures k <= n && (k > 0 ==> s[k - 1] == c)
    ensures forall l :: k <= l < n ==> s[l] != c
  {
    if n == 0 then 0 else if s[n - 1] == c then n else Last(s, n - 1, c)
  }

  function Dl(s: string, t: string, i: nat, j: nat): int
    requires i <= |s| && j <= |t|
    decreases i + j
  {
    if i == 0 then j
    else if j == 0 then i
    else
      var d := Plain(Dl(s, t, i - 1, j), Dl(s, t, i, j - 1), Dl(s, t, i - 1, j - 1), Mismatch(s[i - 1], t[j - 1]));
      var i1, j1 := Last(s, i - 1, t[j - 1]), Last(t, j - 1, s[i - 1]);
      if i1 > 0 && j1 > 0 then Min(d, Dl(s, t, i1 - 1, j1 - 1) + (i - i1 - 1) + 1 + (j - j1 - 1)) else d
  }

  // The two recursions, one step.
  lemma OsaUnfold(s: string, t: string, i: nat, j: nat)
    requires 0 < i <= |s| && 0 < j <= |t|
    ensures Osa(s, t, i, j) ==
            var d := Plain(Osa(s, t, i - 1, j), Osa(s, t, i, j - 1), Osa(s, t, i - 1, j - 1), Mismatch(s[i - 1],
                t[j - 1]));
            if Swapped(s, t, i, j) then Min(d, Osa(s, t, i - 2, j - 2) + 1) else d
  {
    hide Plain, Min, Mismatch;
  }

  lemma DlUnfold(s: string, t: string, i: nat, j: nat)
    requires 0 < i <= |s| && 0 < j <= |t|
    ensures Dl(s, t, i, j) ==
            var d := Plain(Dl(s, t, i - 1, j), Dl(s, t, i, j - 1), Dl(s, t, i - 1, j - 1), Mismatch(s[i - 1],
                t[j - 1]));
            var i1, j1 := Last(s, i - 1, t[j - 1]), Last(t, j - 1, s[i - 1]);
            if i1 > 0 && j1 > 0 then Min(d, Dl(s, t, i1 - 1, j1 - 1) + (i - i1 - 1) + 1 + (j - j1 - 1)) else d
  {
    hide Last, Plain, Min, Mismatch;
  }

  lemma Edges(s: string, t: string, i: nat, j: nat)
    requires i <= |s| && j <= |t| && (i == 0 || j == 0)
    ensures Osa(s, t, i, j) == Dl(s, t, i, j) == i + j
  {
  }

  // ---- Bounds and symmetry ----

  lemma {:induction false} OsaBounds(s: string, t: string, i: nat, j: nat)
    requires i <= |s| && j <= |t|
    ensures Dl(s, t, i, j) <= Osa(s, t, i, j) <= Max(i, j)
    ensures Max(i - j, j - i) <= Dl(s, t, i, j)
    decreases i + j
  {
    hide Osa, Dl, Last;
    if i == 0 || j == 0 {
      Edges(s, t, i, j);
    } else {
      OsaUnfold(s, t, i, j);
      DlUnfold(s, t, i, j);
      OsaBounds(s, t, i - 1, j);
      OsaBounds(s, t, i, j - 1);
      OsaBounds(s, t, i - 1, j - 1);
      var i1, j1 := Last(s, i - 1, t[j - 1]), Last(t, j - 1, s[i - 1]);
      if i1 > 0 && j1 > 0 {
        OsaBounds(s, t, i1 - 1, j1 - 1);
      }
    }
  }

  lemma {:induction false} OsaIsSymmetric(s: string, t: string, i: nat, j: nat)
    requires i <= |s| && j <= |t|
    ensures Osa(s, t, i, j) == Osa(t, s, j, i)
    decreases i + j
  {
    hide Osa;
    if i == 0 || j == 0 {
      Edges(s, t, i, j);
      Edges(t, s, j, i);
    } else {
      OsaUnfold(s, t, i, j);
      OsaUnfold(t, s, j, i);
      OsaIsSymmetric(s, t, i - 1, j);
      OsaIsSymmetric(s, t, i, j - 1);
      OsaIsSymmetric(s, t, i - 1, j - 1);
      if Swapped(s, t, i, j) {
        OsaIsSymmetric(s, t, i - 2, j - 2);
      }
    }
  }

  lemma {:induction false} DlIsSymmetric(s: string, t: string, i: nat, j: nat)
    requires i <= |s| && j <= |t|
    ensures Dl(s, t, i, j) == Dl(t, s, j, i)
    decreases i + j
  {
    hide Dl, Last;
    if i == 0 || j == 0 {
      Edges(s, t, i, j);
      Edges(t, s, j, i);
    } else {
      DlUnfold(s, t, i, j);
      DlUnfold(t, s, j, i);
      DlIsSymmetric(s, t, i - 1, j);
      DlIsSymmetric(s, t, i, j - 1);
      DlIsSymmetric(s, t, i - 1, j - 1);
      var i1, j1 := Last(s, i - 1, t[j - 1]), Last(t, j - 1, s[i - 1]);
      if i1 > 0 && j1 > 0 {
        DlIsSymmetric(s, t, i1 - 1, j1 - 1);
      }
    }
  }

  // ---- Scripts: what a distance counts ----

  // One step of turning s into t, read from the ends: Swap(a, b) exchanges two
  // characters that have `a` deleted and `b` inserted between them.
  datatype Op = Pair | Del | Ins | Swap(a: nat, b: nat)

  predicate Turns(script: seq<Op>, s: string, t: string, i: nat, j: nat)
    requires i <= |s| && j <= |t|
    decreases |script|
  {
    if script == [] then i == 0 && j == 0
    else
      var init := script[..|script| - 1];
      match script[|script| - 1]
      case Pair => i > 0 && j > 0 && Turns(init, s, t, i - 1, j - 1)
      case Del => i > 0 && Turns(init, s, t, i - 1, j)
      case Ins => j > 0 && Turns(init, s, t, i, j - 1)
      case Swap(a, b) =>
        && i >= a + 2 && j >= b + 2 && s[i - 1] == t[j - 2 - b] && s[i - 2 - a] == t[j - 1]
        && Turns(init, s, t, i - 2 - a, j - 2 - b)
  }

  function Cost(script: seq<Op>, s: string, t: string, i: nat, j: nat): nat
    requires i <= |s| && j <= |t| && Turns(script, s, t, i, j)
    decreases |script|
  {
    if script == [] then 0
    else
      var init := script[..|script| - 1];
      match script[|script| - 1]
      case Pair => Cost(init, s, t, i - 1, j - 1) + Mismatch(s[i - 1], t[j - 1])
      case Del => Cost(init, s, t, i - 1, j) + 1
      case Ins => Cost(init, s, t, i, j - 1) + 1
      case Swap(a, b) => Cost(init, s, t, i - 2 - a, j - 2 - b) + a + 1 + b
  }

  // No character is edited twice: only neighbours are exchanged.
  predicate Adjacent(script: seq<Op>) {
    forall k :: 0 <= k < |script| && script[k].Swap? ==> script[k] == Swap(0, 0)
  }

  // The prefixes left before a last step, and its cost.
  predicate Follows(op: Op, s: string, t: string, i: nat, j: nat, pi: nat, pj: nat)
    requires i <= |s| && j <= |t|
  {
    match op
    case Pair => i == pi + 1 && j == pj + 1
    case Del => i == pi + 1 && j == pj
    case Ins => i == pi && j == pj + 1
    case Swap(a, b) => i == pi + a + 2 && j == pj + b + 2 && s[i - 1] == t[j - 2 - b] && s[i - 2 - a] == t[j - 1]
  }

  function StepCost(op: Op, s: string, t: string, i: nat, j: nat): nat
    requires i <= |s| && j <= |t| && (op.Pair? ==> i > 0 && j > 0)
  {
    match op
    case Pair => Mismatch(s[i - 1], t[j - 1])
    case Swap(a, b) => a + 1 + b
    case _ => 1
  }

  lemma ScriptGrows(init: seq<Op>, op: Op, s: string, t: string, i: nat, j: nat, pi: nat, pj: nat)
    requires i <= |s| && j <= |t| && Follows(op, s, t, i, j, pi, pj) && pi <= |s| && pj <= |t|
    requires Turns(init, s, t, pi, pj)
    ensures Turns(init + [op], s, t, i, j)
    ensures Cost(init + [op], s, t, i, j) == Cost(init, s, t, pi, pj) + StepCost(op, s, t, i, j)
    ensures Adjacent(init) && (op.Swap? ==> op == Swap(0, 0)) ==> Adjacent(init + [op])
  {
    assert (init + [op])[..|init + [op]| - 1] == init;
  }

  // Optimal string alignment is the least cost of an adjacent script.
  lemma {:induction false} OsaIsLeast(script: seq<Op>, s: string, t: string, i: nat, j: nat)
    requires i <= |s| && j <= |t| && Turns(script, s, t, i, j) && Adjacent(script)
    ensures Osa(s, t, i, j) <= Cost(script, s, t, i, j)
    decreases |script|
  {
    hide Osa;
    if i == 0 || j == 0 {
      Edges(s, t, i, j);
    } else {
      OsaUnfold(s, t, i, j);
    }
    if script != [] {
      var init := script[..|script| - 1];
      match script[|script| - 1]
      case Pair => OsaIsLeast(init, s, t, i - 1, j - 1);
      case Del =>
        OsaIsLeast(init, s, t, i - 1, j);
        if j == 0 {
          Edges(s, t, i - 1, j);
        }
      case Ins =>
        OsaIsLeast(init, s, t, i, j - 1);
        if i == 0 {
          Edges(s, t, i, j - 1);
        }
      case Swap(a, b) => OsaIsLeast(init, s, t, i - 2, j - 2);
    }
  }

  lemma {:induction false} OsaIsReached(s: string, t: string, i: nat, j: nat) returns (script: seq<Op>)
    requires i <= |s| && j <= |t|
    ensures Turns(script, s, t, i, j) && Adjacent(script) && Cost(script, s, t, i, j) == Osa(s, t, i, j)
    decreases i + j
  {
    hide Osa;
    if i == 0 || j == 0 {
      Edges(s, t, i, j);
      Edges(s, t, if i == 0 then 0 else i - 1, if i == 0 && j > 0 then j - 1 else j);
    } else {
      OsaUnfold(s, t, i, j);
    }
    if i == 0 && j == 0 {
      return [];
    }
    var pi, pj, op := i, j, Ins;
    if i == 0 || (j > 0 && Osa(s, t, i, j) == Osa(s, t, i, j - 1) + 1) {
      pj := j - 1;
    } else if j == 0 || Osa(s, t, i, j) == Osa(s, t, i - 1, j) + 1 {
      pi, op := i - 1, Del;
    } else if Osa(s, t, i, j) == Osa(s, t, i - 1, j - 1) + Mismatch(s[i - 1], t[j - 1]) {
      pi, pj, op := i - 1, j - 1, Pair;
    } else {
      pi, pj, op := i - 2, j - 2, Swap(0, 0);
    }
    var init := OsaIsReached(s, t, pi, pj);
    ScriptGrows(init, op, s, t, i, j, pi, pj);
    script := init + [op];
  }

  // Growing a prefix by one costs at most one.
  lemma DlStep(s: string, t: string, i: nat, j: nat)
    requires i <= |s| && j <= |t|
    ensures i > 0 ==> Dl(s, t, i, j) <= Dl(s, t, i - 1, j) + 1
    ensures j > 0 ==> Dl(s, t, i, j) <= Dl(s, t, i, j - 1) + 1
  {
    hide Dl, Last;
    if i > 0 && j > 0 {
      DlUnfold(s, t, i, j);
    } else {
      Edges(s, t, i, j);
      if i > 0 {
        Edges(s, t, i - 1, j);
      } else if j > 0 {
        Edges(s, t, i, j - 1);
      }
    }
  }

  lemma {:induction false} DlGrows(s: string, t: string, i: nat, j: nat, i2: nat, j2: nat)
    requires i <= i2 <= |s| && j <= j2 <= |t|
    ensures Dl(s, t, i2, j2) <= Dl(s, t, i, j) + (i2 - i) + (j2 - j)
    decreases i2 + j2
  {
    hide Dl;
    if i < i2 {
      DlGrows(s, t, i, j, i2 - 1, j2);
      DlStep(s, t, i2, j2);
    } else if j < j2 {
      DlGrows(s, t, i, j, i2, j2 - 1);
      DlStep(s, t, i2, j2);
    }
  }

  // Damerau-Levenshtein is the least cost of any script: exchanging with the
  // nearest partner, all the table looks at, is never worse than a farther one.
  lemma {:induction false} DlIsLeast(script: seq<Op>, s: string, t: string, i: nat, j: nat)
    requires i <= |s| && j <= |t| && Turns(script, s, t, i, j)
    ensures Dl(s, t, i, j) <= Cost(script, s, t, i, j)
    decreases |script|
  {
    hide Dl, Last;
    if i == 0 || j == 0 {
      Edges(s, t, i, j);
    } else {
      DlUnfold(s, t, i, j);
    }
    if script != [] {
      var init := script[..|script| - 1];
      match script[|script| - 1]
      case Pair => DlIsLeast(init, s, t, i - 1, j - 1);
      case Del =>
        DlIsLeast(init, s, t, i - 1, j);
        DlStep(s, t, i, j);
      case Ins =>
        DlIsLeast(init, s, t, i, j - 1);
        DlStep(s, t, i, j);
      case Swap(a, b) =>
        DlIsLeast(init, s, t, i - 2 - a, j - 2 - b);
        var i1, j1 := Last(s, i - 1, t[j - 1]), Last(t, j - 1, s[i - 1]);
        assert s[i - 2 - a] == t[j - 1] && i1 >= i - 1 - a;
        assert t[j - 2 - b] == s[i - 1] && j1 >= j - 1 - b;
        DlGrows(s, t, i - 2 - a, j - 2 - b, i1 - 1, j1 - 1);
    }
  }

  lemma {:induction false} DlIsReached(s: string, t: string, i: nat, j: nat) returns (script: seq<Op>)
    requires i <= |s| && j <= |t|
    ensures Turns(script, s, t, i, j) && Cost(script, s, t, i, j) == Dl(s, t, i, j)
    decreases i + j
  {
    hide Dl, Last;
    if i == 0 || j == 0 {
      Edges(s, t, i, j);
      Edges(s, t, if i == 0 then 0 else i - 1, if i == 0 && j > 0 then j - 1 else j);
    } else {
      DlUnfold(s, t, i, j);
    }
    if i == 0 && j == 0 {
      return [];
    }
    var pi, pj, op := i, j, Ins;
    if i == 0 || (j > 0 && Dl(s, t, i, j) == Dl(s, t, i, j - 1) + 1) {
      pj := j - 1;
    } else if j == 0 || Dl(s, t, i, j) == Dl(s, t, i - 1, j) + 1 {
      pi, op := i - 1, Del;
    } else if Dl(s, t, i, j) == Dl(s, t, i - 1, j - 1) + Mismatch(s[i - 1], t[j - 1]) {
      pi, pj, op := i - 1, j - 1, Pair;
    } else {
      var i1, j1 := Last(s, i - 1, t[j - 1]), Last(t, j - 1, s[i - 1]);
      pi, pj, op := i1 - 1, j1 - 1, Swap(i - i1 - 1, j - j1 - 1);
    }
    var init := DlIsReached(s, t, pi, pj);
    ScriptGrows(init, op, s, t, i, j, pi, pj);
    script := init + [op];
  }

  // ---- Zero means equal ----

  lemma {:induction false} DlZeroIffEqual(s: string, t: string, i: nat, j: nat)
    requires i <= |s| && j <= |t|
    ensures Dl(s, t, i, j) == 0 <==> s[..i] == t[..j]
    decreases i + j
  {
    hide Osa, Dl, Last;
    if i > 0 && j > 0 {
      DlUnfold(s, t, i, j);
      DlZeroIffEqual(s, t, i - 1, j - 1);
      LastsEqual(s, t, i, j);
      OsaBounds(s, t, i - 1, j);
      OsaBounds(s, t, i, j - 1);
      OsaBounds(s, t, i - 1, j - 1);
      var i1, j1 := Last(s, i - 1, t[j - 1]), Last(t, j - 1, s[i - 1]);
      if i1 > 0 && j1 > 0 {
        OsaBounds(s, t, i1 - 1, j1 - 1);
      }
    } else {
      Edges(s, t, i, j);
      assert |s[..i]| == i && |t[..j]| == j;
    }
  }

  lemma LastsEqual(s: string, t: string, i: nat, j: nat)
    requires 0 < i <= |s| && 0 < j <= |t|
    ensures s[..i] == t[..j] <==> s[..i - 1] == t[..j - 1] && s[i - 1] == t[j - 1]
  {
    assert s[..i] == s[..i - 1] + [s[i - 1]];
    assert t[..j] == t[..j - 1] + [t[j - 1]];
  }

  lemma {:induction false} EqualMeansZero(s: string, t: string, i: nat)
    requires i <= |s| && i <= |t| && s[..i] == t[..i]
    ensures Osa(s, t, i, i) <= 0
  {
    hide Osa;
    if i > 0 {
      OsaUnfold(s, t, i, i);
      LastsEqual(s, t, i, i);
      EqualMeansZero(s, t, i - 1);
    } else {
      Edges(s, t, 0, 0);
    }
  }

  lemma OsaZeroIffEqual(s: string, t: string, i: nat, j: nat)
    requires i <= |s| && j <= |t|
    ensures Osa(s, t, i, j) == 0 <==> s[..i] == t[..j]
  {
    hide Osa, Dl;
    OsaBounds(s, t, i, j);
    DlZeroIffEqual(s, t, i, j);
    if s[..i] == t[..j] {
      assert |s[..i]| == i && |t[..j]| == j;
      EqualMeansZero(s, t, i);
    }
  }

  // ---- The tables ----

  // Rows before `i`, column 0, and row `i` before `j` hold distances.
  ghost predicate OsaFilled(dp: array2<int>, s: string, t: string, i: nat, j: nat)
    reads dp
  {
    && dp.Length0 == |s| + 1 && dp.Length1 == |t| + 1
    && forall k: nat, l: nat :: k <= |s| && l <= |t| && (k < i || l == 0 || (k == i && l < j)) ==> dp[k, l] == Osa(s, t, k, l)
  }

  method OsaTable(s: string, t: string) returns (dp: array2<int>)
    ensures fresh(dp) && OsaFilled(dp, s, t, 1, 1)
  {
    hide Osa;
    var m, n := |s|, |t|;
    dp := new int[m + 1, n + 1];
    for i := 0 to m + 1
      invariant forall k: nat :: k < i ==> dp[k, 0] == k
    {
      dp[i, 0] := i;
    }
    for j := 0 to n + 1
      invariant forall k: nat :: k <= m ==> dp[k, 0] == k
      invariant forall l: nat :: l < j ==> dp[0, l] == l
    {
      dp[0, j] := j;
    }
    OsaEdges(s, t);
  }

  // getLevenshteinDistance
  method OptimalStringAlignment(s: string, t: string) returns (d: int)
    ensures d == Osa(s, t, |s|, |t|)
  {
    var m, n := |s|, |t|;
    if m == 0 {
      return n;
    }
    if n == 0 {
      return m;
    }
    var dp := OsaTable(s, t);
    for i := 1 to m + 1
      invariant OsaFilled(dp, s, t, i, 1)
    {
      for j := 1 to n + 1
        invariant OsaFilled(dp, s, t, i, j)
      {
        OsaCell(dp, s, t, i, j);
      }
    }
    d := dp[m, n];
  }

  // One cell from its neighbours.
  method OsaCell(dp: array2<int>, s: string, t: string, i: nat, j: nat)
    requires 0 < i <= |s| && 0 < j <= |t| && OsaFilled(dp, s, t, i, j)
    modifies dp
    ensures OsaFilled(dp, s, t, i, j + 1)
  {
    hide Osa;
    var cost := Mismatch(s[i - 1], t[j - 1]);
    var least := Min(Min(dp[i - 1, j] + 1, dp[i, j - 1] + 1), dp[i - 1, j - 1] + cost);
    if i > 1 && j > 1 && s[i - 1] == t[j - 2] && s[i - 2] == t[j - 1] {
      least := Min(least, dp[i - 2, j - 2] + 1);
    }
    OsaUnfold(s, t, i, j);
    dp[i, j] := least;
  }

  lemma OsaEdges(s: string, t: string)
    ensures forall i: nat :: i <= |s| ==> Osa(s, t, i, 0) == i
    ensures forall j: nat :: j <= |t| ==> Osa(s, t, 0, j) == j
  {
  }

  // What the shifted table holds.
  function Shifted(s: string, t: string, a: nat, b: nat): int
    requires a <= |s| + 1 && b <= |t| + 1
  {
    if a == 0 || b == 0 then |s| + |t| else Dl(s, t, a - 1, b - 1)
  }

  // The bound in row and column 0 never wins.
  lemma ShiftedUnfold(s: string, t: string, i: nat, j: nat)
    requires 0 < i <= |s| && 0 < j <= |t|
    ensures var i1, j1 := Last(s, i - 1, t[j - 1]), Last(t, j - 1, s[i - 1]);
            Shifted(s, t, i + 1, j + 1) ==
            Min(Min(Shifted(s, t, i, j) + Mismatch(s[i - 1], t[j - 1]), Shifted(s, t, i + 1, j) + 1),
                Min(Shifted(s, t, i, j + 1) + 1, Shifted(s, t, i1, j1) + (i - i1 - 1) + 1 + (j - j1 - 1)))
  {
    hide Dl, Osa, Last;
    DlUnfold(s, t, i, j);
    OsaBounds(s, t, i, j);
  }

  // Rows up to `i`, columns 0 and 1, and row i + 1 up to `j` are filled.
  ghost predicate DlFilled(dp: array2<int>, s: string, t: string, i: nat, j: nat)
    reads dp
  {
    && dp.Length0 == |s| + 2 && dp.Length1 == |t| + 2
    && forall a: nat, b: nat :: a <= |s| + 1 && b <= |t| + 1 && (a <= i || b <= 1 || (a == i + 1 && b <= j)) ==> dp[a, b] == Shifted(s, t, a, b)
  }

  method DlTable(s: string, t: string) returns (dp: array2<int>)
    ensures fresh(dp) && DlFilled(dp, s, t, 1, 1)
  {
    hide Shifted, DlFilled;
    var m, n := |s|, |t|;
    dp := new int[m + 2, n + 2];
    var maxDist := m + n;
    dp[0, 0] := maxDist;
    for i := 0 to m + 1
      invariant forall a: nat :: a <= i ==> dp[a, 0] == maxDist
      invariant forall a: nat :: 0 < a <= i ==> dp[a, 1] == a - 1
    {
      dp[i + 1, 0] := maxDist;
      dp[i + 1, 1] := i;
    }
    for j := 0 to n + 1
      invariant forall a: nat :: a <= m + 1 ==> dp[a, 0] == maxDist
      invariant forall a: nat :: 0 < a <= m + 1 ==> dp[a, 1] == a - 1
      invariant forall b: nat :: b <= j ==> dp[0, b] == maxDist
      invariant forall b: nat :: 0 < b <= j ==> dp[1, b] == b - 1
    {
      dp[0, j + 1] := maxDist;
      dp[1, j + 1] := j;
    }
    EdgesFilled(dp, s, t);
  }

  lemma EdgesFilled(dp: array2<int>, s: string, t: string)
    requires dp.Length0 == |s| + 2 && dp.Length1 == |t| + 2
    requires forall a: nat :: a <= |s| + 1 ==> dp[a, 0] == |s| + |t|
    requires forall a: nat :: 0 < a <= |s| + 1 ==> dp[a, 1] == a - 1
    requires forall b: nat :: b <= |t| + 1 ==> dp[0, b] == |s| + |t|
    requires forall b: nat :: 0 < b <= |t| + 1 ==> dp[1, b] == b - 1
    ensures DlFilled(dp, s, t, 1, 1)
  {
    hide Shifted;
    ShiftedEdges(s, t);
  }

  // Where each character was last seen in s before row `i`.
  ghost predicate Seen(last: map<char, nat>, s: string, i: nat)
    requires 0 < i <= |s| + 1
  {
    forall c: char :: Last(s, i - 1, c) == if c in last then last[c] else 0
  }

  // getDamerauLevenshteinDistance. The table is shifted by one: its first row
  // and column hold a bound no distance passes, for "no such place".
  method DamerauLevenshtein(s: string, t: string) returns (d: int)
    ensures d == Dl(s, t, |s|, |t|)
  {
    var m, n := |s|, |t|;
    if m == 0 {
      return n;
    }
    if n == 0 {
      return m;
    }
    var last: map<char, nat> := map[];
    var dp := DlTable(s, t);
    for i := 1 to m + 1
      invariant DlFilled(dp, s, t, i, 1) && Seen(last, s, i)
    {
      DlRow(dp, s, t, i, last);
      SeenStep(last, s, i);
      last := last[s[i - 1] := i];
    }
    d := dp[m + 1, n + 1];
  }

  method DlRow(dp: array2<int>, s: string, t: string, i: nat, last: map<char, nat>)
    requires 0 < i <= |s| && DlFilled(dp, s, t, i, 1) && Seen(last, s, i)
    modifies dp
    ensures DlFilled(dp, s, t, i + 1, 1)
  {
    hide Dl, Last, Shifted;
    var l := 0;
    NoneYet(t, s[i - 1]);
    for j := 1 to |t| + 1
      invariant DlFilled(dp, s, t, i, j) && l == Last(t, j - 1, s[i - 1])
    {
      var i1 := if t[j - 1] in last then last[t[j - 1]] else 0;
      var j1 := l;
      var cost := Mismatch(s[i - 1], t[j - 1]);
      if cost == 0 {
        l := j;
      }
      LastStep(t, j, s[i - 1]);
      ShiftedUnfold(s, t, i, j);
      assert i1 == Last(s, i - 1, t[j - 1]);
      dp[i + 1, j + 1] :=
        Min(Min(dp[i, j] + cost, dp[i + 1, j] + 1), Min(dp[i, j + 1] + 1, dp[i1,
            j1] + (i - i1 - 1) + 1 + (j - j1 - 1)));
    }
  }

  lemma SeenStep(last: map<char, nat>, s: string, i: nat)
    requires 0 < i <= |s| && Seen(last, s, i)
    ensures Seen(last[s[i - 1] := i], s, i + 1)
  {
    forall c: char
      ensures Last(s, i, c) == if c == s[i - 1] then i else Last(s, i - 1, c)
    {
      LastStep(s, i, c);
    }
  }

  lemma ShiftedEdges(s: string, t: string)
    ensures forall a: nat :: a <= |s| + 1 ==> Shifted(s, t, a, 0) == |s| + |t|
    ensures forall b: nat :: b <= |t| + 1 ==> Shifted(s, t, 0, b) == |s| + |t|
    ensures forall a: nat :: 0 < a <= |s| + 1 ==> Shifted(s, t, a, 1) == a - 1
    ensures forall b: nat :: 0 < b <= |t| + 1 ==> Shifted(s, t, 1, b) == b - 1
    ensures Shifted(s, t, |s| + 1, |t| + 1) == Dl(s, t, |s|, |t|)
  {
  }

  lemma NoneYet(s: string, c: char)
    ensures Last(s, 0, c) == 0
  {
  }

  lemma LastStep(s: string, n: nat, c: char)
    requires 0 < n <= |s|
    ensures Last(s, n, c) == if s[n - 1] == c then n else Last(s, n - 1, c)
  {
  }
}
