/** The local state updates of the trip planning page
    (`app/dashboard/plan/page.tsx`): the selected-friends toggle and the
    field setters of the trip being drafted. */
module TripPlanner {
  import opened Basics

  datatype TripStatus = Draft | Active | Completed

  datatype Destination = Destination(id: int, name: string, image: string, description: string)

  /** `TripDetails`. The budget is a JavaScript number; nothing here updates it,
      because `handleBudgetChange` is not part of this model. */
  datatype TripDetails = TripDetails(
    id: Option<string>,
    name: string,
    startDate: string,
    endDate: string,
    selectedDestination: Option<Destination>,
    participants: seq<string>,
    budget: Option<real>,
    status: TripStatus)

  /** `toggleFriend`: drop every occurrence of a selected name, or append a
      name that was not selected. */
  function ToggleFriend(selected: seq<string>, name: string): (r: seq<string>)
    ensures name in r <==> name !in selected
    ensures name in selected ==> IsSubseq(r, selected)
    ensures name in selected ==> forall x :: x != name ==> multiset(r)[x] == multiset(selected)[x]
    ensures name !in selected ==> |r| == |selected| + 1 && r[..|selected|] == selected && r[|selected|] == name
  {
    if name in selected then
      var keep := (f: string) => f != name;
      FilterIsSubseq(keep, selected);
      assert forall x :: multiset(Filter(keep, selected))[x] == if keep(x) then multiset(selected)[x] else 0 by {
        forall x ensures multiset(Filter(keep, selected))[x] == if keep(x) then multiset(selected)[x] else 0 {
          FilterCount(keep, selected, x);
        }
      }
      Filter(keep, selected)
    else
      selected + [name]
  }

  /** Toggling a name that was not selected twice gives back the list. */
  lemma ToggleTwiceRestores(selected: seq<string>, name: string)
    requires name !in selected
    ensures ToggleFriend(ToggleFriend(selected, name), name) == selected
  {
    var keep := (f: string) => f != name;
    FilterConcat(keep, selected, [name]);
    FilterKeepsAll(keep, selected);
    assert Filter(keep, [name]) == [];
  }

  /** A list without repeated names keeps that property under toggling. */
  lemma ToggleKeepsNoDup(selected: seq<string>, name: string)
    requires NoDup(selected)
    ensures NoDup(ToggleFriend(selected, name))
  {
    if name in selected {
      FilterKeepsNoDup((f: string) => f != name, selected);
    } else {
      SnocNoDup(selected, name);
    }
  }

  /** Which date input changed. */
  datatype DateField = Start | End

  /** `handleDateChange`: set the start or the end date, nothing else. */
  function ChangeDate(trip: TripDetails, which: DateField, value: string): (t: TripDetails)
    ensures which == Start ==> t.startDate == value && t.endDate == trip.endDate
    ensures which == End ==> t.endDate == value && t.startDate == trip.startDate
    ensures t.(startDate := trip.startDate, endDate := trip.endDate) == trip
  {
    match which
    case Start => trip.(startDate := value)
    case End => trip.(endDate := value)
  }

  /** `handleTripNameChange`: set the name, nothing else. */
  function ChangeName(trip: TripDetails, value: string): (t: TripDetails)
    ensures t.name == value
    ensures t.(name := trip.name) == trip
  {
    trip.(name := value)
  }

  /** The name and date setters touch different fields, so they commute, and
      the last name written is the one kept. */
  lemma NameAndDateChangesCommute(trip: TripDetails, which: DateField, date: string, name: string, other: string)
    ensures ChangeName(ChangeDate(trip, which, date), name) == ChangeDate(ChangeName(trip, name), which, date)
    ensures ChangeName(ChangeName(trip, other), name) == ChangeName(trip, name)
  {
  }

  /** Setting the two dates in either order gives the same draft, and the
      last value written to a field is the one kept. */
  lemma DateChangesCommute(trip: TripDetails, start: string, end: string, other: string)
    ensures ChangeDate(ChangeDate(trip, Start, start), End, end) == ChangeDate(ChangeDate(trip, End, end), Start, start)
    ensures ChangeDate(ChangeDate(trip, Start, other), Start, start) == ChangeDate(trip, Start, start)
  {
  }
}
