// One decision per call, and only decisions whose forward windows do not overlap.
module Thinning {
  import opened Sums
  import opened Sorting

  // Dates are day numbers; a key is what must not overlap: user, agent, version, model and ticker.
  datatype Key = Key(user: int, agent: string, version: string, model: string, ticker: string)

  datatype Row = Row(key: Key, date: int, run: int)

  // About seven calendar days per five trading days, rounded up.
  function Span(forwardDays: int): (s: int)
    ensures s >= 1
    ensures forwardDays > 0 ==> 5 * (s - 1) < 7 * forwardDays <= 5 * s
  {
    if forwardDays <= 0 then 1 else (7 * forwardDays + 4) / 5
  }

  const BY_DATE: Ordering<Row> := (a: Row, b: Row) => a.date < b.date || (a.date == b.date && a.run <= b.run)

  const BY_RUN: Ordering<Row> := (a: Row, b: Row) => a.run <= b.run

  lemma AreOrderings()
    ensures IsOrdering(BY_DATE) && IsOrdering(BY_RUN)
  {}

  // --- one decision per key and date ---------------------------------------------------------

  predicate SameCall(a: Row, b: Row) {
    a.key == b.key && a.date == b.date
  }

  // One row per key and date, of the earliest run, for every row there is.
  ghost predicate FirstRuns(kept: seq<Row>, rows: seq<Row>) {
    && (forall i :: 0 <= i < |kept| ==> kept[i] in rows)
    && (forall i, j :: 0 <= i < j < |kept| ==> !SameCall(kept[i], kept[j]))
    && (forall x :: x in rows ==> Represented(kept, x))
  }

  ghost predicate Represented(kept: seq<Row>, x: Row) {
    exists k :: 0 <= k < |kept| && SameCall(kept[k], x) && kept[k].run <= x.run
  }

  // Re-running the same call any number of times leaves one row: its first run.
  method KeepFirstRuns(rows: seq<Row>) returns (kept: seq<Row>)
    ensures FirstRuns(kept, rows)
  {
    hide FirstRuns, Sort, Represented, Sorted, SameCall;
    var sorted := Sort(rows, BY_RUN);
    AreOrderings();
    SortSorts(rows, BY_RUN);
    var seen: set<(Key, int)> := {};
    kept := [];
    NoRuns(seen);
    for i := 0 to |sorted|
      invariant FirstRuns(kept, sorted[..i]) && Seen(seen, kept)
    {
      var x := sorted[i];
      assert sorted[..i + 1] == sorted[..i] + [x];
      assert forall k :: 0 <= k < |kept| ==> kept[k].run <= x.run by {
        EarlierRuns(kept, sorted, i);
      }
      OneMoreRun(kept, sorted[..i], x, seen);
      if (x.key, x.date) !in seen {
        seen := seen + {(x.key, x.date)};
        kept := kept + [x];
      }
    }
    assert sorted[..|sorted|] == sorted;
    SameFirstRuns(rows, sorted, kept);
  }

  ghost predicate Seen(seen: set<(Key, int)>, kept: seq<Row>) {
    forall p :: p in seen <==> exists i :: 0 <= i < |kept| && (kept[i].key, kept[i].date) == p
  }

  lemma NoRuns(seen: set<(Key, int)>)
    requires seen == {}
    ensures FirstRuns([], []) && Seen(seen, [])
  {}

  lemma EarlierRuns(kept: seq<Row>, sorted: seq<Row>, i: nat)
    requires Sorted(sorted, BY_RUN) && i < |sorted| && FirstRuns(kept, sorted[..i])
    ensures forall k :: 0 <= k < |kept| ==> kept[k].run <= sorted[i].run
  {
    hide Represented;
    forall k | 0 <= k < |kept|
      ensures kept[k].run <= sorted[i].run
    {
      var j :| 0 <= j < i && sorted[j] == kept[k];
      assert BY_RUN(sorted[j], sorted[i]);
    }
  }

  lemma OneMoreRun(kept: seq<Row>, rows: seq<Row>, x: Row, seen: set<(Key, int)>)
    requires FirstRuns(kept, rows) && Seen(seen, kept)
    requires forall k :: 0 <= k < |kept| ==> kept[k].run <= x.run
    ensures (x.key, x.date) in seen ==> FirstRuns(kept, rows + [x])
    ensures (x.key, x.date) !in seen ==>
              FirstRuns(kept + [x], rows + [x]) && Seen(seen + {(x.key, x.date)}, kept + [x])
  {
    hide Represented;
    var more := kept + [x];
    forall y | Represented(kept, y)
      ensures Represented(more, y)
    {
      RepresentedGrows(kept, x, y);
    }
    RepresentsItself(kept, x);
    if (x.key, x.date) in seen {
      var k :| 0 <= k < |kept| && (kept[k].key, kept[k].date) == (x.key, x.date);
      RepresentedBy(kept, x, k);
    } else {
      assert more[|kept|] == x;
      forall p
        ensures p in seen + {(x.key, x.date)} <==> exists i :: 0 <= i < |more| && (more[i].key, more[i].date) == p
      {
        if p in seen {
          var i :| 0 <= i < |kept| && (kept[i].key, kept[i].date) == p;
          assert more[i] == kept[i];
        }
      }
    }
  }

  lemma RepresentedBy(kept: seq<Row>, x: Row, k: nat)
    requires k < |kept| && SameCall(kept[k], x) && kept[k].run <= x.run
    ensures Represented(kept, x)
  {}

  lemma RepresentsItself(kept: seq<Row>, x: Row)
    ensures Represented(kept + [x], x)
  {
    RepresentedBy(kept + [x], x, |kept|);
  }

  lemma RepresentedGrows(kept: seq<Row>, x: Row, y: Row)
    requires Represented(kept, y)
    ensures Represented(kept + [x], y)
  {
    var k :| 0 <= k < |kept| && SameCall(kept[k], y) && kept[k].run <= y.run;
    assert (kept + [x])[k] == kept[k];
    RepresentedBy(kept + [x], y, k);
  }

  lemma SameFirstRuns(a: seq<Row>, b: seq<Row>, kept: seq<Row>)
    requires multiset(a) == multiset(b) && FirstRuns(kept, b)
    ensures FirstRuns(kept, a)
  {
    hide Represented, SameCall;
    SameElements(a, b);
  }

  // --- thinning ------------------------------------------------------------------------------

  predicate Overlap(a: Row, b: Row, span: int) {
    a.key == b.key && -span < a.date - b.date < span
  }

  // No two rows of a selection have overlapping windows.
  predicate Disjoint(rows: seq<Row>, span: int) {
    forall i, j :: 0 <= i < j < |rows| ==> !Overlap(rows[i], rows[j], span)
  }

  // A row's window is still open when the kept row's was opened less than a span earlier.
  predicate CoveredBy(kept: Row, x: Row, span: int) {
    kept.key == x.key && kept.date <= x.date < kept.date + span
  }

  ghost predicate Covered(kept: seq<Row>, x: Row, span: int) {
    exists k :: 0 <= k < |kept| && CoveredBy(kept[k], x, span)
  }

  // What thinning delivers: rows of the input, pairwise a span apart per key, covering every row of the input.
  ghost predicate Thinned(kept: seq<Row>, rows: seq<Row>, span: int) {
    && (forall i :: 0 <= i < |kept| ==> kept[i] in rows)
    && Disjoint(kept, span)
    && (forall x :: x in rows ==> Covered(kept, x, span))
  }

  // The date at which the last kept row of each key opened its window.
  ghost predicate LastKept(last: map<Key, int>, kept: seq<Row>) {
    && (forall k :: k in last ==> Opened(kept, k, last[k]))
    && (forall i :: 0 <= i < |kept| ==> kept[i].key in last && kept[i].date <= last[kept[i].key])
  }

  ghost predicate Opened(kept: seq<Row>, key: Key, date: int) {
    exists i :: 0 <= i < |kept| && kept[i].key == key && kept[i].date == date
  }

  lemma CoveredGrows(kept: seq<Row>, x: Row, y: Row, span: int)
    requires span >= 1
    ensures Covered(kept, y, span) ==> Covered(kept + [x], y, span)
    ensures Covered(kept + [x], x, span)
  {
    var more := kept + [x];
    if Covered(kept, y, span) {
      var k :| 0 <= k < |kept| && CoveredBy(kept[k], y, span);
      assert CoveredBy(more[k], y, span);
    }
    assert CoveredBy(more[|kept|], x, span);
  }

  lemma OpenedGrows(kept: seq<Row>, x: Row, key: Key, date: int)
    ensures Opened(kept, key, date) ==> Opened(kept + [x], key, date)
    ensures Opened(kept + [x], x.key, x.date)
  {
    var more := kept + [x];
    if Opened(kept, key, date) {
      var i :| 0 <= i < |kept| && kept[i].key == key && kept[i].date == date;
      assert more[i] == kept[i];
    }
    assert more[|kept|] == x;
  }

  lemma KeepDisjoint(kept: seq<Row>, x: Row, last: map<Key, int>, span: int)
    requires Disjoint(kept, span) && LastKept(last, kept)
    requires x.key in last ==> x.date >= last[x.key] + span
    ensures Disjoint(kept + [x], span)
  {
    hide Opened;
    var more := kept + [x];
    forall i, j | 0 <= i < j < |more|
      ensures !Overlap(more[i], more[j], span)
    {
      if j == |kept| && more[i].key == x.key {
        assert kept[i].key in last && kept[i].date <= last[kept[i].key];
      }
    }
  }

  lemma KeepLast(kept: seq<Row>, x: Row, last: map<Key, int>)
    requires LastKept(last, kept)
    requires forall i :: 0 <= i < |kept| ==> kept[i].date <= x.date
    ensures LastKept(last[x.key := x.date], kept + [x])
  {
    hide Opened;
    var now, more := last[x.key := x.date], kept + [x];
    forall k: Key | k in now.Keys
      ensures Opened(more, k, now[k])
    {
      OpenedGrows(kept, x, k, now[k]);
    }
  }

  lemma KeepRow(kept: seq<Row>, rows: seq<Row>, x: Row, last: map<Key, int>, span: int)
    requires span >= 1 && Thinned(kept, rows, span) && LastKept(last, kept)
    requires x.key in last ==> x.date >= last[x.key] + span
    ensures Thinned(kept + [x], rows + [x], span)
  {
    hide Covered, Disjoint, LastKept;
    KeepDisjoint(kept, x, last, span);
    forall y | y in rows + [x]
      ensures Covered(kept + [x], y, span)
    {
      CoveredGrows(kept, x, y, span);
    }
  }

  lemma DropRow(kept: seq<Row>, rows: seq<Row>, x: Row, last: map<Key, int>, span: int)
    requires Thinned(kept, rows, span) && x.key in last && Opened(kept, x.key, last[x.key])
    requires last[x.key] <= x.date < last[x.key] + span
    ensures Thinned(kept, rows + [x], span)
  {
    hide Disjoint;
    var k :| 0 <= k < |kept| && kept[k].key == x.key && kept[k].date == last[x.key];
    assert CoveredBy(kept[k], x, span);
  }

  lemma LastIsEarlier(kept: seq<Row>, last: map<Key, int>, x: Row)
    requires LastKept(last, kept) && x.key in last
    requires forall i :: 0 <= i < |kept| ==> kept[i].date <= x.date
    ensures last[x.key] <= x.date && Opened(kept, x.key, last[x.key])
  {
    var i :| 0 <= i < |kept| && kept[i].key == x.key && kept[i].date == last[x.key];
  }

  // Greedily keep the earliest row of each key and drop any later one whose window would overlap it.
  method ThinToDisjoint(rows: seq<Row>, forwardDays: int) returns (kept: seq<Row>)
    ensures forwardDays <= 0 ==> kept == rows
    ensures forwardDays > 0 ==> Thinned(kept, rows, Span(forwardDays))
  {
    hide Thinned, LastKept, Sort, Sorted, Span;
    if forwardDays <= 0 {
      return rows;
    }
    var span := Span(forwardDays);
    var last: map<Key, int> := map[];
    kept := [];
    var sorted := Sort(rows, BY_DATE);
    AreOrderings();
    SortSorts(rows, BY_DATE);
    NothingThinned(span, last);
    for i := 0 to |sorted|
      invariant Thinned(kept, sorted[..i], span) && LastKept(last, kept)
    {
      var x := sorted[i];
      assert sorted[..i + 1] == sorted[..i] + [x];
      KeptBefore(kept, sorted, i, span);
      if x.key in last && x.date < last[x.key] + span {
        LastIsEarlier(kept, last, x);
        DropRow(kept, sorted[..i], x, last, span);
        continue;
      }
      KeepRow(kept, sorted[..i], x, last, span);
      KeepLast(kept, x, last);
      last := last[x.key := x.date];
      kept := kept + [x];
    }
    assert sorted[..|sorted|] == sorted;
    SameRows(rows, sorted, kept, span);
  }

  lemma NothingThinned(span: int, last: map<Key, int>)
    requires last == map[]
    ensures Thinned([], [], span) && LastKept(last, [])
  {}

  lemma KeptBefore(kept: seq<Row>, sorted: seq<Row>, i: nat, span: int)
    requires Sorted(sorted, BY_DATE) && i < |sorted| && Thinned(kept, sorted[..i], span)
    ensures forall k :: 0 <= k < |kept| ==> kept[k].date <= sorted[i].date
  {
    hide Disjoint, Covered;
    forall k | 0 <= k < |kept|
      ensures kept[k].date <= sorted[i].date
    {
      var j :| 0 <= j < i && sorted[j] == kept[k];
      assert BY_DATE(sorted[j], sorted[i]);
    }
  }

  lemma SameRows(a: seq<Row>, b: seq<Row>, kept: seq<Row>, span: int)
    requires multiset(a) == multiset(b) && Thinned(kept, b, span)
    ensures Thinned(kept, a, span)
  {
    hide Disjoint, Covered;
    SameElements(a, b);
  }

  // --- optimality ----------------------------------------------------------------------------

  // The kept row that covers a selected one.
  ghost function CoverOf(kept: seq<Row>, x: Row, span: int): (k: nat)
    requires Covered(kept, x, span)
    ensures k < |kept| && CoveredBy(kept[k], x, span)
  {
    var k :| 0 <= k < |kept| && CoveredBy(kept[k], x, span);
    k
  }

  // Two rows covered by the same kept row overlap, so a disjoint selection maps one-to-one into the kept
  // rows: no disjoint selection is larger than what greedy thinning keeps.
  lemma GreedyIsOptimal(rows: seq<Row>, kept: seq<Row>, selection: seq<Row>, span: int)
    requires Thinned(kept, rows, span) && Disjoint(selection, span)
    requires forall i :: 0 <= i < |selection| ==> selection[i] in rows
    ensures |selection| <= |kept|
  {
    hide Covered;
    var cover := seq(|selection|, i requires 0 <= i < |selection| => CoverOf(kept, selection[i], span));
    forall i, j | 0 <= i < j < |selection|
      ensures cover[i] != cover[j]
    {
      assert !Overlap(selection[i], selection[j], span);
    }
    Pigeonhole(cover, |kept|);
  }

  // Deduplicating first loses nothing: what covers every first run covers every run.
  lemma ThinnedCoversReruns(raw: seq<Row>, deduped: seq<Row>, kept: seq<Row>, span: int)
    requires FirstRuns(deduped, raw) && Thinned(kept, deduped, span)
    ensures Thinned(kept, raw, span)
  {
    hide Disjoint, Covered, Represented, SameCall;
    forall x | x in raw
      ensures Covered(kept, x, span)
    {
      var a := FirstRunOf(deduped, x);
      SameCallCovered(kept, a, x, span);
    }
  }

  lemma FirstRunOf(deduped: seq<Row>, x: Row) returns (a: Row)
    requires Represented(deduped, x)
    ensures a in deduped && SameCall(a, x)
  {
    var i :| 0 <= i < |deduped| && SameCall(deduped[i], x) && deduped[i].run <= x.run;
    a := deduped[i];
  }

  lemma SameCallCovered(kept: seq<Row>, a: Row, x: Row, span: int)
    requires SameCall(a, x) && Covered(kept, a, span)
    ensures Covered(kept, x, span)
  {
    var k :| 0 <= k < |kept| && CoveredBy(kept[k], a, span);
    assert CoveredBy(kept[k], x, span);
  }

  // From the raw decisions to the ones that are scored. However often calls are re-run, no selection of raw
  // decisions with disjoint windows is larger than what is scored.
  method SelectDecisions(raw: seq<Row>, forwardDays: int) returns (kept: seq<Row>)
    requires forwardDays > 0
    ensures Thinned(kept, raw, Span(forwardDays))
    ensures forall selection ::
              Disjoint(selection, Span(forwardDays)) && (forall i :: 0 <= i < |selection| ==> selection[i] in raw)
              ==> |selection| <= |kept|
  {
    hide Thinned, FirstRuns, Disjoint, Span;
    var deduped := KeepFirstRuns(raw);
    kept := ThinToDisjoint(deduped, forwardDays);
    ThinnedCoversReruns(raw, deduped, kept, Span(forwardDays));
    forall selection | Disjoint(selection, Span(forwardDays))
                       && (forall i :: 0 <= i < |selection| ==> selection[i] in raw)
      ensures |selection| <= |kept|
    {
      GreedyIsOptimal(raw, kept, selection, Span(forwardDays));
    }
  }
}
