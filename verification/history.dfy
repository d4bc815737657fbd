/** Saved workouts: the record built by "finish and save", and the history
    kept as one serialized list under a single storage key. */
module History {
  import opened Wrappers
  import opened Seqs
  import opened Numbers
  import opened Session
  import opened Workout

  /** A saved workout. `totals` is computed once, when the record is built. */
  datatype Record = Record(
    id: string,
    date: int,
    location: string,
    focus: seq<string>,
    specific: string,
    equipment: seq<string>,
    entries: seq<Entry>,
    totals: Totals)

  /** The persisted value under the storage key: nothing yet, text that does
      not parse, or a serialized history. */
  datatype Blob = Absent | Corrupt | Stored(records: seq<Record>)

  /** `loadHistory()`: fails open, so a missing or unreadable blob reads as an
      empty history. */
  function Load(blob: Blob): (h: seq<Record>)
    ensures blob.Stored? ==> h == blob.records
    ensures !blob.Stored? ==> h == []
  {
    match blob
    case Stored(records) => records
    case _ => []
  }

  /** `saveHistory(h)`: overwrites the whole blob. */
  function Save(h: seq<Record>): Blob {
    Stored(h)
  }

  /** What is saved is what is loaded back, order included. */
  lemma LoadSave(h: seq<Record>)
    ensures Load(Save(h)) == h
  {
  }

  /** Text that does not parse reads as an empty history, and clearing twice
      leaves the same store as clearing once. */
  lemma CorruptReadsEmpty()
    ensures Load(Corrupt) == [] && Load(Absent) == []
    ensures Save(Load(Clear())) == Clear()
  {
  }

  /** `history.push(record)` between a load and a save. */
  function Append(blob: Blob, rec: Record): (b: Blob)
    ensures Load(b) == Load(blob) + [rec]
    ensures |Load(b)| == |Load(blob)| + 1 && Load(b)[|Load(blob)|] == rec
    ensures blob.Corrupt? ==> Load(b) == [rec]
  {
    Save(Load(blob) + [rec])
  }

  /** The "clear history" button, once confirmed. */
  function Clear(): (b: Blob)
    ensures Load(b) == []
  {
    Save([])
  }

  /** A record whose totals are those of its own entries. */
  predicate Consistent(rec: Record) {
    rec.totals == SessionTotals(rec.entries)
  }

  /** No two records share an id. */
  predicate UniqueIds(h: seq<Record>) {
    forall i, j :: 0 <= i < j < |h| ==> h[i].id != h[j].id
  }

  datatype SaveError = EmptyWorkout

  /** What saving produces besides the new history: the record and the
      per-exercise rows of the summary dialog. */
  datatype Saved = Saved(record: Record, per: seq<ExerciseSummary>)

  datatype SaveOutcome = SaveOutcome(result: Result<Saved, SaveError>, store: Blob)

  /** The record fields taken from the session, with the fallbacks used when
      no setup was submitted. */
  function NewRecord(id: string, now: int, config: Option<Config>, entries: seq<Entry>): (rec: Record)
    ensures rec.id == id && rec.entries == entries && Consistent(rec)
    ensures config.None? ==>
              rec.date == now && rec.location == "Unknown" && rec.focus == [] && rec.specific == ""
              && rec.equipment == []
    ensures config.Some? ==>
              rec.date == config.value.date && rec.focus == config.value.focus
              && rec.specific == config.value.specific && rec.equipment == config.value.equipment
              && rec.location == (if |config.value.location| > 0 then config.value.location else "Unknown")
  {
    match config
    case None => Record(id, now, "Unknown", [], "", [], entries, SessionTotals(entries))
    case Some(c) =>
      Record(id, c.date, if |c.location| > 0 then c.location else "Unknown",
             c.focus, c.specific, c.equipment, entries, SessionTotals(entries))
  }

  /** `finishAndSave()`: refuses a workout without named rows and leaves the
      store alone; otherwise appends one consistent record. `id` stands for the
      random identifier and `now` for the clock. */
  function FinishAndSave(rows: seq<Row>, config: Option<Config>, id: string, now: int, blob: Blob): (out: SaveOutcome)
    ensures out.result.Failure? <==> CountWhere(rows, IsNamed) == 0
    ensures out.result.Failure? ==> out.store == blob
    ensures out.result.Success? ==>
              var rec := out.result.value.record;
              && Load(out.store) == Load(blob) + [rec]
              && rec == NewRecord(id, now, config, Collect(rows))
              && rec.id == id
              && rec.entries == Collect(rows)
              && |rec.entries| > 0
              && rec.totals.sets == |AllPairs(rec.entries)|
              && rec.totals.reps == Sum(AllPairs(rec.entries), Reps)
              && rec.totals.volume == Round1(Sum(AllPairs(rec.entries), Volume))
    ensures out.result.Success? ==>
              var per := out.result.value.per;
              var rec := out.result.value.record;
              && per == Summaries(rec.entries)
              && SumNat(per, SummarySets) == rec.totals.sets
              && Sum(per, SummaryReps) == rec.totals.reps
              && Round1(Sum(per, SummaryVolume)) == rec.totals.volume
  {
    var entries := Collect(rows);
    if |entries| == 0 then SaveOutcome(Failure(EmptyWorkout), blob)
    else
      var rec := NewRecord(id, now, config, entries);
      SummariesFlatten(entries);
      SaveOutcome(Success(Saved(rec, Summaries(entries))), Append(blob, rec))
  }

  /** Saving keeps every stored record consistent with its entries, and keeps
      ids distinct when the new id is fresh. */
  lemma SaveKeepsHistoryInvariant(rows: seq<Row>, config: Option<Config>, id: string, now: int, blob: Blob)
    requires forall i :: 0 <= i < |Load(blob)| ==> Consistent(Load(blob)[i])
    requires UniqueIds(Load(blob))
    requires forall i :: 0 <= i < |Load(blob)| ==> Load(blob)[i].id != id
    ensures var h := Load(FinishAndSave(rows, config, id, now, blob).store);
            (forall i :: 0 <= i < |h| ==> Consistent(h[i])) && UniqueIds(h)
  {
  }
}
