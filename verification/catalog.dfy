/** The built-in exercise library and the suggestion list offered while a
    workout is built (`fillExerciseSuggestions`). */
module Catalog {
  import opened Seqs
  import opened Order

  /** One library exercise: its name, focus tags and equipment tags. */
  datatype Exercise = Exercise(name: string, focus: seq<string>, equipment: seq<string>)

  const Library: seq<Exercise> := [
    Exercise("Barbell Bench Press", ["push", "upper"], ["Barbell", "Machines"]),
    Exercise("Dumbbell Bench Press", ["push", "upper"], ["Dumbbells"]),
    Exercise("Incline Bench Press", ["push", "upper"], ["Barbell", "Dumbbells", "Machines"]),
    Exercise("Overhead Press", ["push", "upper"], ["Barbell", "Dumbbells"]),
    Exercise("Seated Shoulder Press (Machine)", ["push", "upper"], ["Machines"]),
    Exercise("Push-Up", ["push", "upper", "full body"], ["Bodyweight"]),
    Exercise("Dips", ["push", "upper"], ["Bodyweight", "Machines"]),
    Exercise("Pull-Up / Chin-Up", ["pull", "upper"], ["Bodyweight", "Bands", "Machines"]),
    Exercise("Lat Pulldown", ["pull", "upper"], ["Machines"]),
    Exercise("Barbell Row", ["pull", "upper", "hinge"], ["Barbell"]),
    Exercise("Dumbbell Row", ["pull", "upper"], ["Dumbbells"]),
    Exercise("Seated Row (Cable)", ["pull", "upper"], ["Machines"]),
    Exercise("Face Pull", ["pull", "upper"], ["Bands", "Machines"]),
    Exercise("Biceps Curl (DB)", ["pull", "upper", "specific muscle"], ["Dumbbells"]),
    Exercise("Barbell Curl", ["pull", "upper", "specific muscle"], ["Barbell"]),
    Exercise("Deadlift", ["hinge", "lower"], ["Barbell"]),
    Exercise("Romanian Deadlift (Barbell)", ["hinge", "lower"], ["Barbell"]),
    Exercise("Romanian Deadlift (DB)", ["hinge", "lower"], ["Dumbbells"]),
    Exercise("Kettlebell Swing", ["hinge", "full body"], ["Kettlebell"]),
    Exercise("Hip Thrust", ["hinge", "lower"], ["Barbell", "Machines", "Dumbbells"]),
    Exercise("Good Morning", ["hinge", "lower"], ["Barbell"]),
    Exercise("Back Squat", ["squat", "lower"], ["Barbell"]),
    Exercise("Front Squat", ["squat", "lower"], ["Barbell"]),
    Exercise("Goblet Squat", ["squat", "lower"], ["Dumbbells", "Kettlebell"]),
    Exercise("Leg Press", ["squat", "lower"], ["Machines"]),
    Exercise("Lunge (DB)", ["squat", "lower"], ["Dumbbells"]),
    Exercise("Split Squat (DB)", ["squat", "lower"], ["Dumbbells"]),
    Exercise("Plank", ["core", "full body"], ["Bodyweight"]),
    Exercise("Hanging Leg Raise", ["core"], ["Bodyweight", "Machines"]),
    Exercise("Cable Crunch", ["core", "specific muscle"], ["Machines"]),
    Exercise("Ab Wheel Rollout", ["core"], ["Other"]),
    Exercise("Clean & Press", ["full body", "hinge", "push"], ["Barbell"]),
    Exercise("Thruster (DB)", ["full body", "squat", "push"], ["Dumbbells"]),
    Exercise("Farmer's Carry", ["full body"], ["Dumbbells", "Kettlebell"]),
    Exercise("Machine Chest Fly", ["push", "specific muscle"], ["Machines"]),
    Exercise("Triceps Pushdown", ["push", "specific muscle"], ["Machines"])
  ]

  function NameOf(item: Exercise): string {
    item.name
  }

  /** The names of the library, in library order. */
  function LibraryNames(): (r: seq<string>)
    ensures |r| == |Library|
    ensures forall x :: x in r <==> exists i :: 0 <= i < |Library| && Library[i].name == x
  {
    var r := Map(Library, NameOf);
    assert forall i :: 0 <= i < |Library| ==> r[i] == Library[i].name;
    r
  }

  /** No focus chosen, or the exercise shares a focus tag with the session. */
  predicate MatchesFocus(item: Exercise, focus: seq<string>) {
    |focus| == 0 || exists i :: 0 <= i < |item.focus| && item.focus[i] in focus
  }

  /** No equipment chosen, or some equipment tag of the exercise is chosen,
      or "Other" is chosen and the exercise lists any equipment at all. */
  predicate MatchesEquipment(item: Exercise, equipment: seq<string>) {
    |equipment| == 0
    || exists i :: 0 <= i < |item.equipment| && (item.equipment[i] in equipment || "Other" in equipment)
  }

  predicate Matches(focus: seq<string>, equipment: seq<string>, item: Exercise) {
    MatchesFocus(item, focus) && MatchesEquipment(item, equipment)
  }

  /** The library filter of `fillExerciseSuggestions`. */
  function Filtered(focus: seq<string>, equipment: seq<string>): (r: seq<Exercise>)
    ensures forall item :: item in r <==> item in Library && Matches(focus, equipment, item)
  {
    Filter(Library, item => Matches(focus, equipment, item))
  }

  /** The suggestion datalist: the names of the filtered exercises followed by
      every library name, de-duplicated and sorted. */
  function Suggestions(focus: seq<string>, equipment: seq<string>): (r: seq<string>)
    ensures StrictlySorted(r)
    ensures forall x :: x in r <==> x in LibraryNames()
  {
    MergedNames(Library, Filtered(focus, equipment))
  }

  /** The names of `matched` and then of all of `lib`, de-duplicated and sorted. */
  function MergedNames(lib: seq<Exercise>, matched: seq<Exercise>): (r: seq<string>)
    requires forall item :: item in matched ==> item in lib
    ensures StrictlySorted(r)
    ensures forall x :: x in r <==> x in Map(lib, NameOf)
  {
    var all := Map(lib, NameOf);
    NamesOfSublist(lib, matched);
    var names := Dedup(Map(matched, NameOf) + all);
    SortDistinct(names);
    SortNames(names)
  }

  /** The names of exercises drawn from a list are names of that list. */
  lemma NamesOfSublist(lib: seq<Exercise>, sub: seq<Exercise>)
    requires forall item :: item in sub ==> item in lib
    ensures forall x :: x in Map(sub, NameOf) ==> x in Map(lib, NameOf)
  {
    forall x | x in Map(sub, NameOf) ensures x in Map(lib, NameOf) {
      var i :| 0 <= i < |sub| && Map(sub, NameOf)[i] == x;
      assert sub[i] in lib;
      var k :| 0 <= k < |lib| && lib[k] == sub[i];
      assert Map(lib, NameOf)[k] == x;
    }
  }

  /** The filter never narrows the list: whatever focus and equipment the
      session has, the same suggestions are offered. */
  lemma SuggestionsIgnoreSession(f1: seq<string>, e1: seq<string>, f2: seq<string>, e2: seq<string>)
    ensures Suggestions(f1, e1) == Suggestions(f2, e2)
  {
    StrictlySortedUnique(Suggestions(f1, e1), Suggestions(f2, e2));
  }

  /** With "Other" among the chosen equipment and no focus chosen, every library
      exercise passes the filter, since each lists at least one equipment tag. */
  lemma OtherMatchesEverything(equipment: seq<string>)
    requires "Other" in equipment
    ensures Filtered([], equipment) == Library
  {
    forall i | 0 <= i < |Library| ensures Matches([], equipment, Library[i]) {
      assert |Library[i].equipment| > 0;
      assert Library[i].equipment[0] in equipment || "Other" in equipment;
    }
    FilterKeepsAll(Library, item => Matches([], equipment, item));
  }
}
