/** The workout table: exercise rows with their (reps, weight) inputs, the
    collection of named rows into entries, and the set/rep/volume totals. */
module Workout {
  import opened Wrappers
  import opened Seqs
  import opened Numbers
  import opened Text

  /** One performed set, after coercion of the form fields. */
  datatype SetPair = SetPair(reps: real, weight: real)

  /** One exercise of a workout. */
  datatype Entry = Entry(name: string, notes: string, sets: seq<SetPair>)

  /** The reps and weight inputs of one set; None is a blank or non-numeric field. */
  datatype PairInput = PairInput(reps: Option<real>, weight: Option<real>)

  /** One table row: the exercise-name input, the "sets" number input, the
      pair inputs and the notes input. */
  datatype Row = Row(name: string, setsField: Option<real>, pairs: seq<PairInput>, notes: string)

  const BlankPair: PairInput := PairInput(None, None)
  const MinSets: int := 1
  const MaxSets: int := 20
  const DefaultSets: int := 3

  /** `renderSetPairs(container, count, existing)`: `count` pairs, slot `i`
      taken from `existing[i]` when there is one and blank otherwise. */
  function RenderSetPairs(count: int, existing: seq<PairInput>): (r: seq<PairInput>)
    ensures |r| == if count > 0 then count else 0
    ensures forall i :: 0 <= i < |r| && i < |existing| ==> r[i] == existing[i]
    ensures forall i :: |existing| <= i < |r| ==> r[i] == BlankPair
  {
    var n := if count > 0 then count else 0;
    seq(n, i requires 0 <= i < n => if i < |existing| then existing[i] else BlankPair)
  }

  /** Rendering `m` pairs from `n` freshly rendered ones is rendering `m`
      pairs from the first `n` of the original values: pairs beyond either
      count are lost and come back blank. */
  lemma RenderSetPairsTwice(n: int, m: int, existing: seq<PairInput>)
    requires n >= 0
    ensures RenderSetPairs(m, RenderSetPairs(n, existing))
              == RenderSetPairs(m, existing[..if n < |existing| then n else |existing|])
  {
    var k := if n < |existing| then n else |existing|;
    var lhs := RenderSetPairs(m, RenderSetPairs(n, existing));
    var rhs := RenderSetPairs(m, existing[..k]);
    forall i | 0 <= i < |lhs| ensures lhs[i] == rhs[i] {
      if i < k {
        assert rhs[i] == existing[i];
      }
    }
  }

  /** A row as added by the "add exercise" button: no name, three blank sets. */
  function NewRow(): (r: Row)
    ensures |r.pairs| == DefaultSets && r.setsField == Some(DefaultSets as real)
    ensures forall i :: 0 <= i < |r.pairs| ==> r.pairs[i] == BlankPair
    ensures r.name == "" && r.notes == "" && !IsNamed(r)
  {
    Row("", Some(DefaultSets as real), RenderSetPairs(DefaultSets, []), "")
  }

  /** The "sets" input handler. `typed` is `parseInt` of the field (`"0"` when
      it is blank), `None` standing for `NaN` (text such as ".5" that does not
      start with digits). A number is clamped to 1..20; `NaN` passes through
      `clamp`, empties the field and renders no pair. Either way the pairs are
      re-rendered WITHOUT the previous values, so every pair comes back blank. */
  function ChangeSetCount(row: Row, typed: Option<int>): (r: Row)
    ensures typed.None? ==> r.setsField == None && r.pairs == []
    ensures typed.Some? ==> MinSets <= |r.pairs| <= MaxSets
    ensures typed.Some? && MinSets <= typed.value <= MaxSets ==> |r.pairs| == typed.value
    ensures typed.Some? && typed.value < MinSets ==> |r.pairs| == MinSets
    ensures typed.Some? && typed.value > MaxSets ==> |r.pairs| == MaxSets
    ensures typed.Some? ==> r.setsField == Some(|r.pairs| as real)
    ensures forall i :: 0 <= i < |r.pairs| ==> r.pairs[i] == BlankPair
    ensures r.name == row.name && r.notes == row.notes
  {
    match typed
    case None => row.(setsField := None, pairs := [])
    case Some(n) =>
      var count := Clamp(n, MinSets, MaxSets);
      row.(setsField := Some(count as real), pairs := RenderSetPairs(count, []))
  }

  /** `{ reps: +reps || 0, weight: +weight || 0 }`. */
  function ToSetPair(p: PairInput): SetPair {
    SetPair(Coerce(p.reps), Coerce(p.weight))
  }

  /** A row counts once its trimmed name is non-empty. */
  predicate IsNamed(row: Row) {
    |Trim(row.name)| > 0
  }

  /** The entry collected from a named row. */
  function ToEntry(row: Row): Entry {
    Entry(Trim(row.name), Trim(row.notes), Map(row.pairs, ToSetPair))
  }

  /** `collectWorkout()`: one entry per named row, in row order. */
  function Collect(rows: seq<Row>): (r: seq<Entry>)
    ensures |r| == CountWhere(rows, IsNamed)
    ensures forall i :: 0 <= i < |r| ==> |r[i].name| > 0
  {
    if |rows| == 0 then []
    else
      var rest := Collect(rows[1..]);
      if IsNamed(rows[0]) then
        var e := ToEntry(rows[0]);
        assert |e.name| > 0;
        var r := [e] + rest;
        assert forall i :: 1 <= i < |r| ==> r[i] == rest[i - 1];
        r
      else rest
  }

  /** Collection is the order-preserving filter of the named rows followed by
      the conversion of each: exactly the named rows, in row order. */
  lemma {:induction false} CollectKeepsNamedRows(rows: seq<Row>)
    ensures Collect(rows) == Map(Filter(rows, IsNamed), ToEntry)
  {
    if |rows| > 0 {
      CollectKeepsNamedRows(rows[1..]);
      var f := Filter(rows[1..], IsNamed);
      if IsNamed(rows[0]) {
        MapCons(rows[0], f, ToEntry);
      }
    }
  }

  /** Collecting two blocks of rows collects each. */
  lemma {:induction false} CollectAppend(a: seq<Row>, b: seq<Row>)
    ensures Collect(a + b) == Collect(a) + Collect(b)
  {
    if |a| == 0 {
      assert a + b == b;
    } else {
      assert (a + b)[1..] == a[1..] + b;
      CollectAppend(a[1..], b);
    }
  }

  function Reps(p: SetPair): real { p.reps }

  /** `reps * weight` of one set. */
  function Volume(p: SetPair): real { p.reps * p.weight }

  /** Every set of every entry, in order. */
  function AllPairs(entries: seq<Entry>): seq<SetPair> {
    if |entries| == 0 then [] else entries[0].sets + AllPairs(entries[1..])
  }

  function EntrySets(e: Entry): nat { |e.sets| }
  function EntryReps(e: Entry): real { Sum(e.sets, Reps) }
  function EntryVolume(e: Entry): real { Sum(e.sets, Volume) }

  /** A row of the post-save summary. */
  datatype ExerciseSummary = ExerciseSummary(name: string, sets: nat, reps: real, volume: real)

  function Summarize(e: Entry): ExerciseSummary {
    ExerciseSummary(e.name, EntrySets(e), EntryReps(e), EntryVolume(e))
  }

  /** The per-exercise figures `per` of `finishAndSave`. */
  function Summaries(entries: seq<Entry>): (per: seq<ExerciseSummary>)
    ensures |per| == |entries|
    ensures forall i :: 0 <= i < |per| ==>
              per[i].name == entries[i].name && per[i].sets == |entries[i].sets|
              && per[i].reps == Sum(entries[i].sets, Reps) && per[i].volume == Sum(entries[i].sets, Volume)
  {
    Map(entries, Summarize)
  }

  /** Session totals as stored in a record; only the volume is rounded. */
  datatype Totals = Totals(sets: nat, reps: real, volume: real)

  function SummarySets(s: ExerciseSummary): nat { s.sets }
  function SummaryReps(s: ExerciseSummary): real { s.reps }
  function SummaryVolume(s: ExerciseSummary): real { s.volume }

  /** The `totals` of `finishAndSave`, summed over the per-exercise figures:
      the number of sets, the reps of every set and the rounded volume of
      every set, whichever entry they belong to. */
  function SessionTotals(entries: seq<Entry>): (t: Totals)
    ensures t.sets == |AllPairs(entries)|
    ensures t.reps == Sum(AllPairs(entries), Reps)
    ensures t.volume == Round1(Sum(AllPairs(entries), Volume))
  {
    var per := Summaries(entries);
    SummariesFlatten(entries);
    Totals(SumNat(per, SummarySets), Sum(per, SummaryReps), Round1(Sum(per, SummaryVolume)))
  }

  /** Summing the per-exercise figures is summing over all sets. */
  lemma {:induction false} SummariesFlatten(entries: seq<Entry>)
    ensures SumNat(Summaries(entries), SummarySets) == |AllPairs(entries)|
    ensures Sum(Summaries(entries), SummaryReps) == Sum(AllPairs(entries), Reps)
    ensures Sum(Summaries(entries), SummaryVolume) == Sum(AllPairs(entries), Volume)
  {
    if |entries| > 0 {
      var per := Summaries(entries);
      assert per[1..] == Summaries(entries[1..]);
      SummariesFlatten(entries[1..]);
      SumAppend(entries[0].sets, AllPairs(entries[1..]), Reps);
      SumAppend(entries[0].sets, AllPairs(entries[1..]), Volume);
    }
  }

  /** The totals do not depend on the order of the exercises. */
  lemma TotalsIgnoreEntryOrder(a: seq<Entry>, b: seq<Entry>)
    requires multiset(a) == multiset(b)
    ensures SessionTotals(a) == SessionTotals(b)
  {
    SummariesByEntry(a);
    SummariesByEntry(b);
    SumNatPermutation(a, b, EntrySets);
    SumPermutation(a, b, EntryReps);
    SumPermutation(a, b, EntryVolume);
  }

  /** The per-exercise figures of an entry do not depend on the order of its sets. */
  lemma SummaryIgnoresSetOrder(e: Entry, sets: seq<SetPair>)
    requires multiset(sets) == multiset(e.sets)
    ensures Summarize(e.(sets := sets)) == Summarize(e)
  {
    assert |sets| == |multiset(sets)| == |e.sets|;
    SumPermutation(sets, e.sets, Reps);
    SumPermutation(sets, e.sets, Volume);
  }

  lemma {:induction false} SummariesByEntry(entries: seq<Entry>)
    ensures SumNat(Summaries(entries), SummarySets) == SumNat(entries, EntrySets)
    ensures Sum(Summaries(entries), SummaryReps) == Sum(entries, EntryReps)
    ensures Sum(Summaries(entries), SummaryVolume) == Sum(entries, EntryVolume)
  {
    if |entries| > 0 {
      assert Summaries(entries)[1..] == Summaries(entries[1..]);
      SummariesByEntry(entries[1..]);
    }
  }

  /** One bench-press entry with sets of 10 x 60 and 8 x 65: two sets, 18 reps
      and a volume of 1120. */
  lemma BenchPressTotals()
    ensures SessionTotals([Entry("Barbell Bench Press", "", [SetPair(10.0, 60.0), SetPair(8.0, 65.0)])])
            == Totals(2, 18.0, 1120.0)
  {
    var e := Entry("Barbell Bench Press", "", [SetPair(10.0, 60.0), SetPair(8.0, 65.0)]);
    assert AllPairs([e]) == e.sets;
    assert Sum(e.sets, Volume) == 1120.0;
    assert Round1(1120.0) == 1120.0 by {
      assert (1120.0 * 10.0 + 0.5).Floor == 11200;
    }
  }

  /** The running footer of `computeTotals`, over every row, named or not. */
  datatype FooterTotals = FooterTotals(sets: real, reps: real, volume: real)

  function RowSetsField(row: Row): real { Coerce(row.setsField) }
  function CoercedPairs(row: Row): seq<SetPair> { Map(row.pairs, ToSetPair) }
  function RowReps(row: Row): real { Sum(CoercedPairs(row), Reps) }
  function RowVolume(row: Row): real { Sum(CoercedPairs(row), Volume) }

  /** `computeTotals()`: the sets figure adds up the "sets" inputs, not the
      pairs, and unnamed rows are included. */
  function Footer(rows: seq<Row>): (f: FooterTotals)
    ensures f.volume == Round1(Sum(rows, RowVolume))
    ensures (forall i :: 0 <= i < |rows| ==> rows[i].setsField.None?) ==> f.sets == 0.0
  {
    SumOfZeros(rows);
    FooterTotals(Sum(rows, RowSetsField), Sum(rows, RowReps), Round1(Sum(rows, RowVolume)))
  }

  /** The footer's reps and volume accumulate pair by pair over every pair
      of every row, each field read with `+x || 0`; the volume is rounded
      once, at the end. */
  lemma FooterOverAllPairs(rows: seq<Row>)
    ensures Footer(rows).reps == Sum(Flatten(Map(rows, CoercedPairs)), Reps)
    ensures Footer(rows).volume == Round1(Sum(Flatten(Map(rows, CoercedPairs)), Volume))
  {
    SumFlatten(rows, CoercedPairs, RowReps, Reps);
    SumFlatten(rows, CoercedPairs, RowVolume, Volume);
  }

  lemma {:induction false} SumOfZeros(rows: seq<Row>)
    ensures (forall i :: 0 <= i < |rows| ==> rows[i].setsField.None?) ==> Sum(rows, RowSetsField) == 0.0
  {
    if |rows| > 0 {
      SumOfZeros(rows[1..]);
      assert forall i :: 0 <= i < |rows[1..]| ==> rows[1..][i] == rows[i + 1];
    }
  }

  /** When every row is named and every "sets" input matches its number of
      pairs, the footer shows the totals that saving stores. */
  lemma {:induction false} FooterAgreesWithSave(rows: seq<Row>)
    requires forall i :: 0 <= i < |rows| ==> IsNamed(rows[i])
    requires forall i :: 0 <= i < |rows| ==> rows[i].setsField == Some(|rows[i].pairs| as real)
    ensures Footer(rows).sets == SessionTotals(Collect(rows)).sets as real
    ensures Footer(rows).reps == SessionTotals(Collect(rows)).reps
    ensures Footer(rows).volume == SessionTotals(Collect(rows)).volume
  {
    FooterSetsSum(rows);
    FooterRepsSum(rows);
    FooterVolumeSum(rows);
  }

  lemma {:induction false} FooterSetsSum(rows: seq<Row>)
    requires forall i :: 0 <= i < |rows| ==> IsNamed(rows[i])
    requires forall i :: 0 <= i < |rows| ==> rows[i].setsField == Some(|rows[i].pairs| as real)
    ensures Sum(rows, RowSetsField) == |AllPairs(Collect(rows))| as real
  {
    if |rows| > 0 {
      var tail := rows[1..];
      assert forall i :: 0 <= i < |tail| ==> tail[i] == rows[i + 1];
      FooterSetsSum(tail);
      var e := ToEntry(rows[0]);
      var rest := Collect(tail);
      assert IsNamed(rows[0]);
      assert Collect(rows) == [e] + rest;
      assert ([e] + rest)[1..] == rest;
      assert AllPairs(Collect(rows)) == e.sets + AllPairs(rest);
      assert RowSetsField(rows[0]) == |e.sets| as real;
    }
  }

  lemma {:induction false} FooterRepsSum(rows: seq<Row>)
    requires forall i :: 0 <= i < |rows| ==> IsNamed(rows[i])
    requires forall i :: 0 <= i < |rows| ==> rows[i].setsField == Some(|rows[i].pairs| as real)
    ensures Sum(rows, RowReps) == Sum(AllPairs(Collect(rows)), Reps)
  {
    if |rows| > 0 {
      var tail := rows[1..];
      assert forall i :: 0 <= i < |tail| ==> tail[i] == rows[i + 1];
      FooterRepsSum(tail);
      var e := ToEntry(rows[0]);
      var rest := Collect(tail);
      assert IsNamed(rows[0]);
      assert Collect(rows) == [e] + rest;
      assert ([e] + rest)[1..] == rest;
      assert AllPairs(Collect(rows)) == e.sets + AllPairs(rest);
      SumAppend(e.sets, AllPairs(rest), Reps);
    }
  }

  lemma {:induction false} FooterVolumeSum(rows: seq<Row>)
    requires forall i :: 0 <= i < |rows| ==> IsNamed(rows[i])
    requires forall i :: 0 <= i < |rows| ==> rows[i].setsField == Some(|rows[i].pairs| as real)
    ensures Sum(rows, RowVolume) == Sum(AllPairs(Collect(rows)), Volume)
  {
    if |rows| > 0 {
      var tail := rows[1..];
      assert forall i :: 0 <= i < |tail| ==> tail[i] == rows[i + 1];
      FooterVolumeSum(tail);
      var e := ToEntry(rows[0]);
      var rest := Collect(tail);
      assert IsNamed(rows[0]);
      assert Collect(rows) == [e] + rest;
      assert ([e] + rest)[1..] == rest;
      assert AllPairs(Collect(rows)) == e.sets + AllPairs(rest);
      SumAppend(e.sets, AllPairs(rest), Volume);
    }
  }
}
