/** The history tab: the exercise dropdown, and the chart points and table
    rows projected from the saved records (`renderHistoryUI`,
    `renderChartAndTable`). Dates are timestamps; their formatting is not
    modelled. */
module Projection {
  import opened Wrappers
  import opened Seqs
  import opened Numbers
  import opened Order
  import opened Workout
  import opened History

  /** The dropdown value that selects every workout. */
  const AllExercises: string := "__ALL__"

  /** The metric select: `"best"`, or anything else, read as total volume. */
  datatype Metric = TotalVolume | BestWeight

  /** One chart point: the record's date and the plotted value. */
  datatype Point = Point(date: int, value: real)

  /** One history table row. */
  datatype TableRow = TableRow(date: int, location: string, exercise: string, sets: nat, reps: real, volume: real)

  /** What one record contributes: a chart point and the matching table row. */
  datatype Sample = Sample(point: Point, row: TableRow)

  /** The chart series in date order, and the table rows as displayed. */
  datatype HistoryView = HistoryView(points: seq<Point>, rows: seq<TableRow>)

  // ---- Ordering records by date ----

  predicate DateSorted(h: seq<Record>) {
    forall i, j :: 0 <= i < j < |h| ==> h[i].date <= h[j].date
  }

  /** Places `rec` after every record that is not later than it. */
  function InsertByDate(rec: Record, s: seq<Record>): seq<Record> {
    if |s| == 0 then [rec]
    else if rec.date < s[0].date then [rec] + s
    else [s[0]] + InsertByDate(rec, s[1..])
  }

  /** Insertion adds exactly the one record. */
  lemma {:induction false} InsertByDateAdds(rec: Record, s: seq<Record>)
    ensures multiset(InsertByDate(rec, s)) == multiset(s) + multiset{rec}
  {
    if |s| > 0 && rec.date >= s[0].date {
      InsertByDateAdds(rec, s[1..]);
      assert s == [s[0]] + s[1..];
    }
  }

  /** A lower bound on the dates of a list and of the inserted record bounds
      the dates of the result. */
  lemma {:induction false} InsertByDateBound(rec: Record, s: seq<Record>, lo: int)
    requires lo <= rec.date
    requires forall i :: 0 <= i < |s| ==> lo <= s[i].date
    ensures forall i :: 0 <= i < |InsertByDate(rec, s)| ==> lo <= InsertByDate(rec, s)[i].date
  {
    if |s| > 0 && rec.date >= s[0].date {
      InsertByDateBound(rec, s[1..], lo);
      var rest := InsertByDate(rec, s[1..]);
      assert InsertByDate(rec, s) == [s[0]] + rest;
    }
  }

  /** Insertion into a date-ordered list keeps it date-ordered. */
  lemma {:induction false} InsertByDateSorted(rec: Record, s: seq<Record>)
    requires DateSorted(s)
    ensures DateSorted(InsertByDate(rec, s))
  {
    if |s| > 0 && rec.date >= s[0].date {
      var rest := InsertByDate(rec, s[1..]);
      InsertByDateSorted(rec, s[1..]);
      InsertByDateBound(rec, s[1..], s[0].date);
      var r := [s[0]] + rest;
      assert r == InsertByDate(rec, s);
      forall i, j | 0 <= i < j < |r| ensures r[i].date <= r[j].date {
        assert r[j] == rest[j - 1];
        if i > 0 {
          assert r[i] == rest[i - 1];
        }
      }
    }
  }

  /** `history.sort((a, b) => date(a) - date(b))`, as an insertion sort. */
  function SortByDate(h: seq<Record>): seq<Record> {
    if |h| == 0 then [] else InsertByDate(h[|h| - 1], SortByDate(h[..|h| - 1]))
  }

  /** The sorted history is date-ordered and is a permutation of the history. */
  lemma {:induction false} SortByDateSorts(h: seq<Record>)
    ensures DateSorted(SortByDate(h))
    ensures multiset(SortByDate(h)) == multiset(h)
  {
    if |h| > 0 {
      var init := h[..|h| - 1];
      var last := h[|h| - 1];
      var sorted := SortByDate(init);
      SortByDateSorts(init);
      InsertByDateSorted(last, sorted);
      InsertByDateAdds(last, sorted);
      assert SortByDate(h) == InsertByDate(last, sorted);
      assert h == init + [last];
      assert multiset(h) == multiset(init) + multiset{last};
    }
  }

  /** Records saved with exactly the date `d`. */
  function DatedAt(d: int): Record -> bool {
    (rec: Record) => rec.date == d
  }

  /** Insertion is stable: among records of one date, the inserted record
      comes after those already present, which keep their order. */
  lemma {:induction false} InsertByDateStable(rec: Record, s: seq<Record>, d: int)
    requires DateSorted(s)
    ensures Filter(InsertByDate(rec, s), DatedAt(d))
              == Filter(s, DatedAt(d)) + (if rec.date == d then [rec] else [])
  {
    var p := DatedAt(d);
    var extra: seq<Record> := if rec.date == d then [rec] else [];
    FilterSingleton(rec, p);
    if |s| == 0 {
      assert InsertByDate(rec, s) == [rec];
    } else if rec.date < s[0].date {
      assert InsertByDate(rec, s) == [rec] + s;
      FilterAppend([rec], s, p);
      if rec.date == d {
        LaterDatesFilterEmpty(s, d);
      }
    } else {
      var rest := InsertByDate(rec, s[1..]);
      assert InsertByDate(rec, s) == [s[0]] + rest;
      assert DateSorted(s[1..]);
      calc {
        Filter(InsertByDate(rec, s), p);
        { FilterAppend([s[0]], rest, p); }
        Filter([s[0]], p) + Filter(rest, p);
        { InsertByDateStable(rec, s[1..], d); }
        Filter([s[0]], p) + (Filter(s[1..], p) + extra);
        Filter([s[0]], p) + Filter(s[1..], p) + extra;
        { FilterAppend([s[0]], s[1..], p); assert [s[0]] + s[1..] == s; }
        Filter(s, p) + extra;
      }
    }
  }

  /** No record of a date-ordered list that starts after `d` is dated `d`. */
  lemma LaterDatesFilterEmpty(s: seq<Record>, d: int)
    requires DateSorted(s) && |s| > 0 && d < s[0].date
    ensures Filter(s, DatedAt(d)) == []
  {
    forall i | 0 <= i < |s| ensures !DatedAt(d)(s[i]) {
      assert s[0].date <= s[i].date;
    }
    CountWhereNone(s, DatedAt(d));
  }

  /** The sorted history is date-ordered (the first half of `SortByDateSorts`). */
  lemma SortByDateOrdered(h: seq<Record>)
    ensures DateSorted(SortByDate(h))
  {
    SortByDateSorts(h);
  }

  /** The date sort is stable, like `Array.prototype.sort`: records of one
      date keep the order in which they were saved. */
  lemma {:induction false} SortByDateStable(h: seq<Record>, d: int)
    ensures Filter(SortByDate(h), DatedAt(d)) == Filter(h, DatedAt(d))
  {
    if |h| > 0 {
      var p := DatedAt(d);
      var init := h[..|h| - 1];
      var last := h[|h| - 1];
      var sorted := SortByDate(init);
      var extra: seq<Record> := if last.date == d then [last] else [];
      assert SortByDate(h) == InsertByDate(last, sorted);
      assert h == init + [last];
      calc {
        Filter(SortByDate(h), p);
        { SortByDateOrdered(init); InsertByDateStable(last, sorted, d); }
        Filter(sorted, p) + extra;
        { SortByDateStable(init, d); }
        Filter(init, p) + extra;
        { FilterSingleton(last, p); }
        Filter(init, p) + Filter([last], p);
        { FilterAppend(init, [last], p); }
        Filter(h, p);
      }
    }
  }

  // ---- One record ----

  /** `entries.find(e => e.name === name)`: the first entry with that name. */
  function FindEntry(entries: seq<Entry>, name: string): (r: Option<Entry>)
    ensures r.None? <==> forall i :: 0 <= i < |entries| ==> entries[i].name != name
    ensures r.Some? ==> exists i :: 0 <= i < |entries| && entries[i] == r.value
                                    && entries[i].name == name
                                    && forall j :: 0 <= j < i ==> entries[j].name != name
  {
    if |entries| == 0 then None
    else if entries[0].name == name then Some(entries[0])
    else
      var r := FindEntry(entries[1..], name);
      assert forall i :: 0 < i < |entries| ==> entries[i] == entries[1..][i - 1];
      assert r.Some? ==> exists i :: 1 <= i < |entries| && entries[i] == r.value
                                     && entries[i].name == name
                                     && forall j :: 0 <= j < i ==> entries[j].name != name by {
        if r.Some? {
          var i :| 0 <= i < |entries[1..]| && entries[1..][i] == r.value && entries[1..][i].name == name
                   && forall j :: 0 <= j < i ==> entries[1..][j].name != name;
          assert entries[i + 1] == r.value;
          assert forall j :: 1 <= j < i + 1 ==> entries[j] == entries[1..][j - 1];
        }
      }
      r
  }

  /** The record holds an entry with exactly that name. */
  predicate HasEntry(rec: Record, name: string) {
    exists i :: 0 <= i < |rec.entries| && rec.entries[i].name == name
  }

  /** `HasEntry` as a filter for a fixed name. */
  function Mentions(name: string): Record -> bool {
    rec => HasEntry(rec, name)
  }

  /** `sets.reduce((m, s) => Math.max(m, s.weight || 0), 0)`: the heaviest
      weight of the sets, but never below 0. */
  function BestWeightOf(sets: seq<SetPair>): (best: real)
    ensures best >= 0.0
    ensures forall i :: 0 <= i < |sets| ==> sets[i].weight <= best
    ensures best == 0.0 || exists i :: 0 <= i < |sets| && sets[i].weight == best
    ensures (exists i :: 0 <= i < |sets| && sets[i].weight >= 0.0) ==>
              exists i :: 0 <= i < |sets| && sets[i].weight == best
  {
    if |sets| == 0 then 0.0
    else
      var init := sets[..|sets| - 1];
      var m := BestWeightOf(init);
      var w := sets[|sets| - 1].weight;
      assert forall i :: 0 <= i < |init| ==> init[i] == sets[i];
      if m >= w then m else w
  }

  /** The sample of one record: for every record when all exercises are
      selected, otherwise only when the record has an entry of that name, and
      then from the first such entry. */
  function Contribution(rec: Record, sel: string, metric: Metric): (s: seq<Sample>)
    ensures |s| <= 1
    ensures sel == AllExercises ==> |s| == 1
    ensures sel != AllExercises ==> (|s| == 1 <==> HasEntry(rec, sel))
    ensures forall i :: 0 <= i < |s| ==> s[i].point.date == rec.date && s[i].row.date == rec.date
    ensures forall i :: 0 <= i < |s| ==> s[i].row.location == rec.location
    ensures sel == AllExercises ==>
              s == [Sample(Point(rec.date, rec.totals.volume),
                           TableRow(rec.date, rec.location, "(all)",
                                    rec.totals.sets, rec.totals.reps, rec.totals.volume))]
  {
    if sel == AllExercises then
      [Sample(Point(rec.date, rec.totals.volume),
              TableRow(rec.date, rec.location, "(all)", rec.totals.sets, rec.totals.reps, rec.totals.volume))]
    else
      match FindEntry(rec.entries, sel)
      case None => []
      case Some(e) =>
        var value := if metric == BestWeight then BestWeightOf(e.sets) else Round1(EntryVolume(e));
        [Sample(Point(rec.date, value),
                TableRow(rec.date, rec.location, e.name, |e.sets|, EntryReps(e), EntryVolume(e)))]
  }

  /** For one exercise, the sample comes from the first entry of that name,
      at index `i`: the plotted value is its best weight or its rounded volume,
      and the table row holds its name, number of sets, reps and volume. */
  lemma ContributionUsesFirstEntry(rec: Record, sel: string, metric: Metric, i: nat)
    requires sel != AllExercises
    requires i < |rec.entries| && rec.entries[i].name == sel
    requires forall j :: 0 <= j < i ==> rec.entries[j].name != sel
    ensures Contribution(rec, sel, metric)
              == [Sample(Point(rec.date, if metric == BestWeight then BestWeightOf(rec.entries[i].sets)
                                         else Round1(EntryVolume(rec.entries[i]))),
                         TableRow(rec.date, rec.location, sel, |rec.entries[i].sets|,
                                  EntryReps(rec.entries[i]), EntryVolume(rec.entries[i])))]
  {
    var r := FindEntry(rec.entries, sel);
    assert r.Some?;
    var k :| 0 <= k < |rec.entries| && rec.entries[k] == r.value && rec.entries[k].name == sel
             && forall j :: 0 <= j < k ==> rec.entries[j].name != sel;
    assert k == i;
  }

  // ---- Whole history ----

  /** The samples of the records, in record order. */
  function Samples(recs: seq<Record>, sel: string, metric: Metric): (s: seq<Sample>)
    ensures sel == AllExercises ==> |s| == |recs|
    ensures sel != AllExercises ==> |s| == CountWhere(recs, Mentions(sel))
  {
    if |recs| == 0 then []
    else
      assert Mentions(sel)(recs[0]) == HasEntry(recs[0], sel);
      Contribution(recs[0], sel, metric) + Samples(recs[1..], sel, metric)
  }

  /** The records that contribute a sample: all of them, or those with an
      entry of the selected name. */
  function Shown(recs: seq<Record>, sel: string): seq<Record> {
    if sel == AllExercises then recs else Filter(recs, Mentions(sel))
  }

  /** The samples are exactly the contributions of the shown records, one
      each, in record order. */
  lemma SamplesAreContributions(recs: seq<Record>, sel: string, metric: Metric)
    ensures |Samples(recs, sel, metric)| == |Shown(recs, sel)|
    ensures forall i :: 0 <= i < |Shown(recs, sel)| ==>
              Contribution(Shown(recs, sel)[i], sel, metric) == [Samples(recs, sel, metric)[i]]
  {
    if sel == AllExercises {
      SamplesOfAll(recs, metric);
    } else {
      SamplesOfOne(recs, sel, metric);
    }
  }

  lemma {:induction false} SamplesOfAll(recs: seq<Record>, metric: Metric)
    ensures forall i :: 0 <= i < |recs| ==>
              Contribution(recs[i], AllExercises, metric) == [Samples(recs, AllExercises, metric)[i]]
  {
    if |recs| > 0 {
      SamplesOfAll(recs[1..], metric);
      var c := Contribution(recs[0], AllExercises, metric);
      var rest := Samples(recs[1..], AllExercises, metric);
      var s: seq<Sample> := c + rest;
      assert s == Samples(recs, AllExercises, metric);
      forall i | 0 <= i < |recs| ensures Contribution(recs[i], AllExercises, metric) == [s[i]] {
        if i > 0 {
          assert recs[i] == recs[1..][i - 1] && s[i] == rest[i - 1];
        }
      }
    }
  }

  lemma {:induction false} SamplesOfOne(recs: seq<Record>, sel: string, metric: Metric)
    requires sel != AllExercises
    ensures forall i :: 0 <= i < |Filter(recs, Mentions(sel))| ==>
              Contribution(Filter(recs, Mentions(sel))[i], sel, metric) == [Samples(recs, sel, metric)[i]]
  {
    if |recs| > 0 {
      SamplesOfOne(recs[1..], sel, metric);
      var c := Contribution(recs[0], sel, metric);
      var rest := Samples(recs[1..], sel, metric);
      var s: seq<Sample> := c + rest;
      assert s == Samples(recs, sel, metric);
      var r := Filter(recs, Mentions(sel));
      var r' := Filter(recs[1..], Mentions(sel));
      if HasEntry(recs[0], sel) {
        assert Mentions(sel)(recs[0]);
        assert r == [recs[0]] + r';
        forall i | 0 <= i < |r| ensures Contribution(r[i], sel, metric) == [s[i]] {
          if i > 0 {
            assert r[i] == r'[i - 1] && s[i] == rest[i - 1];
          }
        }
      } else {
        assert !Mentions(sel)(recs[0]);
        assert r == r';
        assert |c| == 0;
        assert s == rest;
      }
    }
  }

  function DateOf(rec: Record): int { rec.date }

  /** Every sample's point and row carry one of the given dates. */
  predicate DatedBy(s: seq<Sample>, dates: seq<int>) {
    forall i :: 0 <= i < |s| ==> s[i].point.date == s[i].row.date && s[i].point.date in dates
  }

  predicate PointsInDateOrder(s: seq<Sample>) {
    forall i, j :: 0 <= i < j < |s| ==> s[i].point.date <= s[j].point.date
  }

  /** Every sample is dated by a record it came from, point and row alike. */
  lemma {:induction false} SamplesDated(recs: seq<Record>, sel: string, metric: Metric)
    ensures DatedBy(Samples(recs, sel, metric), Map(recs, DateOf))
  {
    if |recs| > 0 {
      var c := Contribution(recs[0], sel, metric);
      var rest := Samples(recs[1..], sel, metric);
      var s := c + rest;
      assert s == Samples(recs, sel, metric);
      SamplesDated(recs[1..], sel, metric);
      var dates := Map(recs, DateOf);
      assert Map(recs[1..], DateOf) == dates[1..];
      assert DatedBy(rest, dates[1..]);
      assert dates[0] == recs[0].date;
      forall i | 0 <= i < |s| ensures s[i].point.date == s[i].row.date && s[i].point.date in dates {
        if i >= |c| {
          assert s[i] == rest[i - |c|];
          assert rest[i - |c|].point.date in dates[1..];
        } else {
          assert s[i] == c[i];
        }
      }
    }
  }

  /** A lower bound on the record dates bounds the sample dates. */
  lemma {:induction false} SamplesBound(recs: seq<Record>, sel: string, metric: Metric, lo: int)
    requires forall k :: 0 <= k < |recs| ==> lo <= recs[k].date
    ensures forall i :: 0 <= i < |Samples(recs, sel, metric)| ==> lo <= Samples(recs, sel, metric)[i].point.date
  {
    if |recs| > 0 {
      var c := Contribution(recs[0], sel, metric);
      var rest := Samples(recs[1..], sel, metric);
      SamplesBound(recs[1..], sel, metric, lo);
      assert c + rest == Samples(recs, sel, metric);
      var s: seq<Sample> := c + rest;
      forall i | 0 <= i < |s| ensures lo <= s[i].point.date {
        if i >= |c| {
          assert s[i] == rest[i - |c|];
        }
      }
    }
  }

  /** The samples of date-ordered records are date-ordered. */
  lemma {:induction false} SamplesOrdered(recs: seq<Record>, sel: string, metric: Metric)
    requires DateSorted(recs)
    ensures PointsInDateOrder(Samples(recs, sel, metric))
  {
    if |recs| > 0 {
      var c := Contribution(recs[0], sel, metric);
      var rest := Samples(recs[1..], sel, metric);
      var s := c + rest;
      assert s == Samples(recs, sel, metric);
      assert DateSorted(recs[1..]);
      SamplesOrdered(recs[1..], sel, metric);
      SamplesBound(recs[1..], sel, metric, recs[0].date);
      forall i, j | 0 <= i < j < |s| ensures s[i].point.date <= s[j].point.date {
        if j >= |c| {
          assert s[j] == rest[j - |c|];
          if i >= |c| {
            assert s[i] == rest[i - |c|];
          }
        }
      }
    }
  }

  function PointOf(s: Sample): Point { s.point }

  /** A table row as rendered: the volume cell goes through `round1`. */
  function Displayed(s: Sample): TableRow { s.row.(volume := Round1(s.row.volume)) }

  /** `renderChartAndTable()`: records sorted by date, one sample per
      contributing record, points in date order and table rows newest first. */
  function Project(h: seq<Record>, sel: string, metric: Metric): (v: HistoryView)
    ensures |v.rows| == |v.points|
    ensures sel == AllExercises ==> |v.points| == |h|
    ensures sel != AllExercises ==> |v.points| == CountWhere(h, Mentions(sel))
  {
    var sorted := SortByDate(h);
    var s := Samples(sorted, sel, metric);
    SortByDateSorts(h);
    CountWherePermutation(sorted, h, Mentions(sel));
    assert |sorted| == |multiset(sorted)| == |multiset(h)| == |h|;
    HistoryView(Map(s, PointOf), Reverse(Map(s, Displayed)))
  }

  /** Chart point `i` and table row `|r| - 1 - i` come from the `i`-th
      contributing record in date order: its sample's point, and its row with
      the volume rounded for display. */
  lemma ProjectContents(h: seq<Record>, sel: string, metric: Metric)
    ensures var r := Shown(SortByDate(h), sel);
            var v := Project(h, sel, metric);
            && |v.points| == |r| && |v.rows| == |r|
            && forall i :: 0 <= i < |r| ==>
                 && |Contribution(r[i], sel, metric)| == 1
                 && v.points[i] == Contribution(r[i], sel, metric)[0].point
                 && v.rows[|r| - 1 - i] == Displayed(Contribution(r[i], sel, metric)[0])
  {
    var r := Shown(SortByDate(h), sel);
    var s := Samples(SortByDate(h), sel, metric);
    SamplesAreContributions(SortByDate(h), sel, metric);
    var v := Project(h, sel, metric);
    assert v.points == Map(s, PointOf) && v.rows == Reverse(Map(s, Displayed));
    forall i | 0 <= i < |r|
      ensures |Contribution(r[i], sel, metric)| == 1
      ensures v.points[i] == Contribution(r[i], sel, metric)[0].point
      ensures v.rows[|r| - 1 - i] == Displayed(Contribution(r[i], sel, metric)[0])
    {
      assert Contribution(r[i], sel, metric) == [s[i]];
      assert v.rows[|r| - 1 - i] == Map(s, Displayed)[i];
    }
  }

  /** The chart runs oldest to newest and the table newest to oldest. */
  lemma ProjectOrder(h: seq<Record>, sel: string, metric: Metric)
    ensures var v := Project(h, sel, metric);
            forall i, j :: 0 <= i < j < |v.points| ==> v.points[i].date <= v.points[j].date
    ensures var v := Project(h, sel, metric);
            forall i :: 0 <= i < |v.rows| ==> v.rows[i].date == v.points[|v.points| - 1 - i].date
  {
    var sorted := SortByDate(h);
    var s := Samples(sorted, sel, metric);
    SortByDateSorts(h);
    SamplesDated(sorted, sel, metric);
    SamplesOrdered(sorted, sel, metric);
    assert DatedBy(s, Map(sorted, DateOf)) && PointsInDateOrder(s);
    assert Project(h, sel, metric).points == Map(s, PointOf);
  }

  /** Every point is dated by some saved record. */
  lemma ProjectDates(h: seq<Record>, sel: string, metric: Metric)
    ensures var v := Project(h, sel, metric);
            forall i :: 0 <= i < |v.points| ==> v.points[i].date in Map(h, DateOf)
  {
    var sorted := SortByDate(h);
    var s := Samples(sorted, sel, metric);
    SortByDateSorts(h);
    SamplesDated(sorted, sel, metric);
    assert DatedBy(s, Map(sorted, DateOf));
    var v := Project(h, sel, metric);
    assert v.points == Map(s, PointOf);
    forall i | 0 <= i < |v.points| ensures v.points[i].date in Map(h, DateOf) {
      var k :| 0 <= k < |sorted| && Map(sorted, DateOf)[k] == s[i].point.date;
      assert sorted[k] in multiset(h);
      var m :| 0 <= m < |h| && h[m] == sorted[k];
      assert Map(h, DateOf)[m] == s[i].point.date;
    }
  }

  /** Two workouts saved newest first are still charted oldest first, each
      with its total volume, for all exercises. */
  lemma AllExercisesInDateOrder(a: Record, b: Record, metric: Metric)
    requires b.date < a.date
    ensures Project([a, b], AllExercises, metric).points
            == [Point(b.date, b.totals.volume), Point(a.date, a.totals.volume)]
    ensures Project([b, a], AllExercises, metric).points
            == [Point(b.date, b.totals.volume), Point(a.date, a.totals.volume)]
  {
    assert [a, b][..1] == [a];
    assert [b, a][..1] == [b];
    assert SortByDate([a]) == [a] by { assert [a][..0] == []; }
    assert SortByDate([b]) == [b] by { assert [b][..0] == []; }
    assert SortByDate([a, b]) == [b, a];
    assert SortByDate([b, a]) == [b, a];
    var s := Samples([b, a], AllExercises, metric);
    assert [b, a][1..] == [a];
    assert Samples([a], AllExercises, metric) == Contribution(a, AllExercises, metric);
    assert s == Contribution(b, AllExercises, metric) + Contribution(a, AllExercises, metric);
  }

  lemma {:induction false} CountWhereNone<T>(xs: seq<T>, p: T -> bool)
    requires forall i :: 0 <= i < |xs| ==> !p(xs[i])
    ensures CountWhere(xs, p) == 0
  {
    if |xs| > 0 {
      assert forall i :: 0 <= i < |xs[1..]| ==> xs[1..][i] == xs[i + 1];
      CountWhereNone(xs[1..], p);
    }
  }

  /** An exercise no saved record mentions gives an empty chart and table. */
  lemma AbsentExerciseProjectsNothing(h: seq<Record>, sel: string, metric: Metric)
    requires sel != AllExercises
    requires forall i :: 0 <= i < |h| ==> !HasEntry(h[i], sel)
    ensures Project(h, sel, metric).points == []
    ensures Project(h, sel, metric).rows == []
  {
    CountWhereNone(h, Mentions(sel));
  }

  // ---- The exercise dropdown ----

  function NameOf(e: Entry): string { e.name }

  /** Every entry name of every record, in order. */
  function EntryNames(h: seq<Record>): (r: seq<string>)
    ensures forall x :: x in r <==> exists i, j :: 0 <= i < |h| && 0 <= j < |h[i].entries| && h[i].entries[j].name == x
  {
    if |h| == 0 then []
    else
      var first := Map(h[0].entries, NameOf);
      var rest := EntryNames(h[1..]);
      assert forall x :: x in rest <==> exists i, j :: 1 <= i < |h| && 0 <= j < |h[i].entries| && h[i].entries[j].name == x by {
        forall x ensures x in rest <==> exists i, j :: 1 <= i < |h| && 0 <= j < |h[i].entries| && h[i].entries[j].name == x {
          if x in rest {
            var i, j :| 0 <= i < |h[1..]| && 0 <= j < |h[1..][i].entries| && h[1..][i].entries[j].name == x;
            assert h[1..][i] == h[i + 1];
          }
          if exists i, j :: 1 <= i < |h| && 0 <= j < |h[i].entries| && h[i].entries[j].name == x {
            var i, j :| 1 <= i < |h| && 0 <= j < |h[i].entries| && h[i].entries[j].name == x;
            assert h[1..][i - 1] == h[i];
          }
        }
      }
      first + rest
  }

  /** The dropdown of `renderHistoryUI`: "all exercises" first, then every
      distinct exercise name found in the history, sorted. */
  function ExerciseOptions(h: seq<Record>): (opts: seq<string>)
    ensures |opts| >= 1 && opts[0] == AllExercises
    ensures StrictlySorted(opts[1..])
    ensures forall x :: x in opts[1..] <==>
              exists i, j :: 0 <= i < |h| && 0 <= j < |h[i].entries| && h[i].entries[j].name == x
  {
    var names := Dedup(EntryNames(h));
    SortDistinct(names);
    var opts := [AllExercises] + SortNames(names);
    assert opts[1..] == SortNames(names);
    opts
  }

  /** The previous selection is kept when it is still offered, and otherwise
      falls back to all exercises. */
  function Selection(h: seq<Record>, prev: string): (sel: string)
    ensures sel in ExerciseOptions(h)
    ensures sel == prev <==> prev in ExerciseOptions(h)
    ensures sel != prev ==> sel == AllExercises
  {
    if prev in ExerciseOptions(h) then prev else AllExercises
  }

  /** `renderHistoryUI()` on the stored history: a previous choice that is
      still offered is charted again, and it is never an empty chart;
      otherwise every record is charted. */
  function RenderHistory(blob: Blob, prev: string, metric: Metric): (v: HistoryView)
    ensures prev in ExerciseOptions(Load(blob)) ==> v == Project(Load(blob), prev, metric)
    ensures prev !in ExerciseOptions(Load(blob)) ==> v == Project(Load(blob), AllExercises, metric)
    ensures (prev !in ExerciseOptions(Load(blob)) || prev == AllExercises) ==> |v.points| == |Load(blob)|
    ensures prev in ExerciseOptions(Load(blob)) && prev != AllExercises ==> |v.points| >= 1
  {
    var h := Load(blob);
    RestoredExerciseIsCharted(h, prev, metric);
    Project(h, Selection(h, prev), metric)
  }

  /** An exercise offered in the dropdown is held by some record, so its
      chart has at least one point. */
  lemma RestoredExerciseIsCharted(h: seq<Record>, sel: string, metric: Metric)
    ensures sel in ExerciseOptions(h) && sel != AllExercises ==> |Project(h, sel, metric).points| >= 1
  {
    if sel in ExerciseOptions(h) && sel != AllExercises {
      var opts := ExerciseOptions(h);
      assert opts == [opts[0]] + opts[1..];
      assert sel in opts[1..];
      var i, j :| 0 <= i < |h| && 0 <= j < |h[i].entries| && h[i].entries[j].name == sel;
      assert HasEntry(h[i], sel);
      assert h[i] in Filter(h, Mentions(sel));
    }
  }

  /** After clearing, the history tab shows nothing, whatever was selected. */
  lemma ClearedHistoryShowsNothing(prev: string, metric: Metric)
    ensures RenderHistory(Clear(), prev, metric).points == []
    ensures RenderHistory(Clear(), prev, metric).rows == []
  {
    var opts := ExerciseOptions(Load(Clear()));
    assert forall x :: x in opts[1..] ==> false;
    assert opts == [AllExercises] by {
      assert |opts[1..]| == 0 by { FirstIsMember(opts[1..]); }
    }
  }
}
