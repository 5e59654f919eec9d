/** How a page-by-page mapping ends, from the number of free frames alone (the loop of vmalloc in kernel/src/vmalloc.c
    over paging_map_page in kernel/src/paging.c). */
module FrameBudget {

  /** Served; Starved: no frame left for a page, which vmalloc rolls back; NoTable: no frame left for a page table,
      which is a panic; StrayTable: a table's frame lies above the identity map, where its pointer does not lead to
      it. */
  datatype Fate = Served | Starved | NoTable | StrayTable

  /** The pages in order, each with whether it needs a new table; n frames are free, low of them in the identity map.
      The allocator hands out the lowest frame first. */
  function FateOf(needs: seq<bool>, n: nat, low: nat): Fate {
    if needs == [] then Served
    else if n == 0 then Starved
    else if !needs[0] then FateOf(needs[1..], n - 1, Less(low, 1))
    else if n == 1 then NoTable
    else if low < 2 then StrayTable
    else FateOf(needs[1..], n - 2, low - 2)
  }

  function Less(a: nat, b: nat): nat {
    if a < b then 0 else a - b
  }

  /** Frames for the pages and for their tables. */
  function Cost(needs: seq<bool>): nat {
    if needs == [] then 0 else Cost(needs[..|needs| - 1]) + if needs[|needs| - 1] then 2 else 1
  }

  /** Every new table comes from the identity map when low frames of it are free at the start. */
  ghost predicate TablesLow(needs: seq<bool>, low: nat) {
    forall i: nat | i < |needs| && needs[i] :: Cost(needs[..i]) + 2 <= low
  }

  lemma {:induction false} CostCons(needs: seq<bool>)
    requires needs != []
    ensures Cost(needs) == (if needs[0] then 2 else 1) + Cost(needs[1..])
    decreases |needs|
  {
    if |needs| > 1 {
      var front := needs[..|needs| - 1];
      CostCons(front);
      assert front[1..] == needs[1..][..|needs| - 2];
    }
  }

  lemma {:induction false} CostMonotone(needs: seq<bool>, i: nat)
    requires i <= |needs|
    ensures i <= Cost(needs[..i]) <= Cost(needs)
    decreases |needs|
  {
    assert needs[..|needs|] == needs;
    if i < |needs| {
      var front := needs[..|needs| - 1];
      CostMonotone(front, i);
      assert front[..i] == needs[..i];
    } else if needs != [] {
      CostMonotone(needs[..|needs| - 1], |needs| - 1);
    }
  }

  /** What the rest of the mapping sees of the budget. */
  lemma TablesLowCons(needs: seq<bool>, low: nat)
    requires needs != []
    ensures var cost := if needs[0] then 2 else 1;
            TablesLow(needs, low) <==> (needs[0] ==> low >= 2) && TablesLow(needs[1..], Less(low, cost))
  {
    var rest, cost := needs[1..], if needs[0] then 2 else 1;
    forall i: nat | i < |rest|
      ensures Cost(needs[..i + 1]) == cost + Cost(rest[..i])
    {
      CostCons(needs[..i + 1]);
      assert needs[..i + 1][1..] == rest[..i];
    }
    if TablesLow(needs, low) {
      assert needs[0] ==> Cost(needs[..0]) + 2 <= low;
      forall i: nat | i < |rest| && rest[i]
        ensures Cost(rest[..i]) + 2 <= Less(low, cost)
      {
        assert needs[i + 1] && Cost(needs[..i + 1]) + 2 <= low;
      }
    }
    if (needs[0] ==> low >= 2) && TablesLow(rest, Less(low, cost)) {
      forall i: nat | i < |needs| && needs[i]
        ensures Cost(needs[..i]) + 2 <= low
      {
        if i > 0 {
          assert rest[i - 1] && Cost(rest[..i - 1]) + 2 <= Less(low, cost);
        }
      }
    }
  }

  /** A mapping is served exactly when the frames suffice for all pages and all missing tables, and every table still
      finds a frame in the identity map. */
  lemma {:induction false} ServedIff(needs: seq<bool>, n: nat, low: nat)
    requires low <= n
    ensures FateOf(needs, n, low) == Served <==> Cost(needs) <= n && TablesLow(needs, low)
    decreases |needs|
  {
    if needs != [] {
      CostCons(needs);
      CostMonotone(needs[1..], 0);
      TablesLowCons(needs, low);
      var cost := if needs[0] then 2 else 1;
      if n >= cost && (needs[0] ==> low >= 2) {
        ServedIff(needs[1..], n - cost, Less(low, cost));
      }
    }
  }

  /** The pages before page i are served, and then exactly `left` frames remain. */
  ghost predicate RunsDownTo(needs: seq<bool>, n: nat, low: nat, i: nat, left: nat)
    requires i < |needs|
  {
    n == Cost(needs[..i]) + left && TablesLow(needs[..i], low)
  }

  lemma RunsDownCons(needs: seq<bool>, n: nat, low: nat, i: nat, left: nat)
    requires 0 < i < |needs| && low <= n
    ensures var cost := if needs[0] then 2 else 1;
            RunsDownTo(needs, n, low, i, left) <==>
            (needs[0] ==> low >= 2) && n >= cost && RunsDownTo(needs[1..], n - cost, Less(low, cost), i - 1, left)
  {
    CostCons(needs[..i]);
    TablesLowCons(needs[..i], low);
    assert needs[..i][1..] == needs[1..][..i - 1];
  }

  /** It starves exactly when the last frame went to what came before some page. */
  lemma {:induction false} StarvedIff(needs: seq<bool>, n: nat, low: nat)
    requires low <= n
    ensures FateOf(needs, n, low) == Starved <==> exists i: nat :: i < |needs| && RunsDownTo(needs, n, low, i, 0)
    decreases |needs|
  {
    if needs != [] {
      assert RunsDownTo(needs, n, low, 0, 0) <==> n == 0;
      var rest, cost := needs[1..], if needs[0] then 2 else 1;
      if n >= cost && (needs[0] ==> low >= 2) {
        var n1, low1 := n - cost, Less(low, cost);
        StarvedIff(rest, n1, low1);
        hide RunsDownTo;
        forall i: nat | i < |rest|
          ensures RunsDownTo(rest, n1, low1, i, 0) <==> RunsDownTo(needs, n, low, i + 1, 0)
        {
          RunsDownCons(needs, n, low, i + 1, 0);
        }
        ShiftOne(needs, n, low, rest, n1, low1, 0);
      } else {
        forall i: nat | 0 < i < |needs|
          ensures !RunsDownTo(needs, n, low, i, 0)
        {
          RunsDownCons(needs, n, low, i, 0);
        }
      }
    }
  }

  /** It panics exactly when the last frame goes to a page whose table is missing. */
  lemma {:induction false} NoTableIff(needs: seq<bool>, n: nat, low: nat)
    requires low <= n
    ensures FateOf(needs, n, low) == NoTable <==>
            exists i: nat :: i < |needs| && needs[i] && RunsDownTo(needs, n, low, i, 1)
    decreases |needs|
  {
    if needs != [] {
      assert RunsDownTo(needs, n, low, 0, 1) <==> n == 1;
      var rest, cost := needs[1..], if needs[0] then 2 else 1;
      if n >= cost && (needs[0] ==> low >= 2) {
        var n1, low1 := n - cost, Less(low, cost);
        NoTableIff(rest, n1, low1);
        hide RunsDownTo;
        forall i: nat | i < |rest|
          ensures RunsDownTo(rest, n1, low1, i, 1) <==> RunsDownTo(needs, n, low, i + 1, 1)
        {
          RunsDownCons(needs, n, low, i + 1, 1);
        }
        ShiftOne(needs, n, low, rest, n1, low1, 1);
      } else {
        forall i: nat | 0 < i < |needs|
          ensures !RunsDownTo(needs, n, low, i, 1)
        {
          RunsDownCons(needs, n, low, i, 1);
        }
      }
    }
  }

  /** A page of the whole is the first page or a page of the rest. */
  lemma ShiftOne(needs: seq<bool>, n: nat, low: nat, rest: seq<bool>, n1: nat, low1: nat, left: nat)
    requires needs != [] && rest == needs[1..]
    requires forall i: nat | i < |rest| :: RunsDownTo(rest, n1, low1, i, left) <==>
             RunsDownTo(needs, n, low, i + 1, left)
    ensures (exists i: nat :: i < |needs| && RunsDownTo(needs, n, low, i, left)) <==>
            RunsDownTo(needs, n, low, 0, left) || exists i: nat :: i < |rest| && RunsDownTo(rest, n1, low1, i, left)
    ensures (exists i: nat :: i < |needs| && needs[i] && RunsDownTo(needs, n, low, i, left)) <==>
            || (needs[0] && RunsDownTo(needs, n, low, 0, left))
            || exists i: nat :: i < |rest| && rest[i] && RunsDownTo(rest, n1, low1, i, left)
  {
    hide RunsDownTo;
    forall i: nat | 0 < i < |needs|
      ensures RunsDownTo(needs, n, low, i, left) <==> RunsDownTo(rest, n1, low1, i - 1, left)
      ensures needs[i] == rest[i - 1]
    {
      var k: nat := i - 1;
      assert RunsDownTo(rest, n1, low1, k, left) <==> RunsDownTo(needs, n, low, k + 1, left);
    }
    forall i: nat | i < |rest| && RunsDownTo(rest, n1, low1, i, left)
      ensures RunsDownTo(needs, n, low, i + 1, left) && needs[i + 1] == rest[i]
    {
    }
  }

  /** A mapping costs one frame for each page and one for each missing table. */
  lemma {:induction false} CostCounts(needs: seq<bool>)
    ensures Cost(needs) == |needs| + |(set i: nat | i < |needs| && needs[i])|
  {
    if needs != [] {
      var n := |needs| - 1;
      var front := needs[..n];
      CostCounts(front);
      TablesStep(needs, front, n);
    }
  }

  lemma TablesStep(needs: seq<bool>, front: seq<bool>, n: nat)
    requires |needs| == n + 1 && front == needs[..n]
    ensures |(set i: nat | i < |needs| && needs[i])| == |(set i: nat | i < |front| && front[i])| + if needs[n] then 1
            else 0
  {
    var (a, b) := (set i: nat | i < |front| && front[i], set i: nat | i < |needs| && needs[i]);
    forall i: nat
      ensures i in b <==> i in a || (i == n && needs[n])
    {
    }
    assert b == a + if needs[n] then {n} else {};
  }
}
