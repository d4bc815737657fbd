/** The session descriptor built when the setup form is submitted. */
module Session {
  import opened Wrappers
  import opened Seqs
  import opened Text

  /** The "when" radio group: now, or a chosen date. No radio checked reads as now. */
  datatype When = Now | OnDate

  /** The raw setup form: the location select, the when radios with the date
      field (None when blank), the checked focus boxes in page order, the
      specific-muscle text, the checked equipment boxes in page order and the
      free "other equipment" text. */
  datatype SetupForm = SetupForm(
    location: string,
    when: When,
    dateField: Option<int>,
    focusChecked: seq<string>,
    specificText: string,
    equipmentChecked: seq<string>,
    otherEquipmentText: string)

  /** The session descriptor; dates are timestamps. */
  datatype Config = Config(
    location: string,
    date: int,
    focus: seq<string>,
    specific: string,
    equipment: seq<string>)

  datatype SetupError = MissingLocation

  const SpecificMuscle: string := "specific muscle"

  /** The focus tags: the checked ones, with "specific muscle" appended when a
      specific muscle is named and the tag is not already checked. */
  function FocusTags(checked: seq<string>, specific: string): (r: seq<string>)
    ensures |checked| <= |r| <= |checked| + 1 && r[..|checked|] == checked
    ensures |r| > |checked| <==> |specific| > 0 && SpecificMuscle !in checked
    ensures |r| > |checked| ==> r[|checked|] == SpecificMuscle
    ensures SpecificMuscle in r <==> SpecificMuscle in checked || |specific| > 0
  {
    if |specific| > 0 && SpecificMuscle !in checked then checked + [SpecificMuscle] else checked
  }

  /** The tag occurs at most once when it was checked at most once. */
  lemma SpecificMuscleAtMostOnce(checked: seq<string>, specific: string)
    requires multiset(checked)[SpecificMuscle] <= 1
    ensures multiset(FocusTags(checked, specific))[SpecificMuscle] <= 1
  {
  }

  /** `text.split(",").map(s => s.trim()).filter(Boolean)`. */
  function OtherEquipment(text: string): (r: seq<string>)
    ensures forall i :: 0 <= i < |r| ==> |r[i]| > 0
    ensures forall x :: x in r <==> |x| > 0 && exists p :: p in Split(text, ',') && Trim(p) == x
    ensures r == Filter(Map(Split(text, ','), Trim), NonBlank)
  {
    TrimmedPiecesInOrder(Split(text, ','));
    TrimmedPieces(Split(text, ','))
  }

  /** `Boolean` as a filter on strings: the string is not empty. */
  function NonBlank(s: string): bool { |s| > 0 }

  /** The tags are the trimmed pieces in the order of the text, repeats
      included, with the blank ones dropped: `map(trim).filter(Boolean)`. */
  lemma {:induction false} TrimmedPiecesInOrder(pieces: seq<string>)
    ensures TrimmedPieces(pieces) == Filter(Map(pieces, Trim), NonBlank)
  {
    if |pieces| > 0 {
      TrimmedPiecesInOrder(pieces[1..]);
      MapCons(pieces[0], pieces[1..], Trim);
      assert [pieces[0]] + pieces[1..] == pieces;
      assert Map(pieces, Trim)[1..] == Map(pieces[1..], Trim);
    }
  }

  /** The trimmed non-blank pieces, in order. */
  function TrimmedPieces(pieces: seq<string>): (r: seq<string>)
    ensures forall i :: 0 <= i < |r| ==> |r[i]| > 0
    ensures forall x :: x in r <==> |x| > 0 && exists p :: p in pieces && Trim(p) == x
  {
    if |pieces| == 0 then []
    else
      var t := Trim(pieces[0]);
      var rest := TrimmedPieces(pieces[1..]);
      var r := if |t| > 0 then [t] + rest else rest;
      assert forall x :: x in r <==> |x| > 0 && exists p :: p in pieces && Trim(p) == x by {
        forall x ensures x in r <==> |x| > 0 && exists p :: p in pieces && Trim(p) == x {
          if x in r {
            if |t| > 0 && x == t {
              assert pieces[0] in pieces;
            } else {
              assert x in rest;
              var p :| p in pieces[1..] && Trim(p) == x;
              assert p in pieces;
            }
          }
          if |x| > 0 && exists p :: p in pieces && Trim(p) == x {
            var p :| p in pieces && Trim(p) == x;
            if p != pieces[0] {
              assert p in pieces[1..];
              assert x in rest;
            }
          }
        }
      }
      r
  }

  /** `Array.from(new Set(checked.concat(other)))`: each tag once, checked
      boxes first, then the typed tags, every tag at its first occurrence. */
  function EquipmentTags(checked: seq<string>, otherText: string): (r: seq<string>)
    ensures NoDups(r)
    ensures forall x :: x in r <==> x in checked || x in OtherEquipment(otherText)
    ensures "" in r ==> "" in checked
    ensures NoDups(checked) ==> |checked| <= |r| && r[..|checked|] == checked
    ensures forall i, j :: 0 <= i < j < |r| ==>
              FirstIndex(checked + OtherEquipment(otherText), r[i])
                < FirstIndex(checked + OtherEquipment(otherText), r[j])
  {
    var r := Dedup(checked + OtherEquipment(otherText));
    DedupPrefix(checked, OtherEquipment(otherText));
    DedupKeepsFirstOrder(checked + OtherEquipment(otherText));
    r
  }

  /** The setup submit handler: refuses a form without a location, otherwise
      builds the session descriptor. `now` is the clock reading. */
  function BuildConfig(form: SetupForm, now: int): (r: Result<Config, SetupError>)
    ensures r.Failure? <==> |form.location| == 0
    ensures r.Success? ==> r.value.location == form.location
    ensures r.Success? && form.when.Now? ==> r.value.date == now
    ensures r.Success? && form.when.OnDate? ==>
              r.value.date == (if form.dateField.Some? then form.dateField.value else now)
    ensures r.Success? ==> r.value.specific == Trim(form.specificText)
    ensures r.Success? ==> r.value.focus == FocusTags(form.focusChecked, Trim(form.specificText))
    ensures r.Success? ==> r.value.equipment == EquipmentTags(form.equipmentChecked, form.otherEquipmentText)
  {
    if |form.location| == 0 then Failure(MissingLocation)
    else
      var date := match form.when
        case Now => now
        case OnDate => (match form.dateField case Some(d) => d case None => now);
      var specific := Trim(form.specificText);
      Success(Config(
        form.location,
        date,
        FocusTags(form.focusChecked, specific),
        specific,
        EquipmentTags(form.equipmentChecked, form.otherEquipmentText)))
  }
}
