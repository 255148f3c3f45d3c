/** The schedule form: two editable lists of `{name, time}` entries (courses and
    clubs) that never become empty, a free-text goals field, and the submit
    handler that drops blank entries and validates what is left. */
module ScheduleForm {
  import opened Seqs
  import opened Text

  /** A course or a club: both have the same two text fields. */
  datatype Entry = Entry(name: string, time: string)

  datatype Field = Name | Time

  const EmptyEntry: Entry := Entry("", "")

  /** `courses`, `clubs` and `goals`, the component's three pieces of state. */
  datatype FormState = FormState(courses: seq<Entry>, clubs: seq<Entry>, goals: string)

  /** The state the component starts in: one empty course, one empty club, no goals. */
  function Initial(): (s: FormState)
    ensures |s.courses| == 1 && |s.clubs| == 1
    ensures s.courses[0].name == "" && s.courses[0].time == ""
    ensures s.clubs[0].name == "" && s.clubs[0].time == ""
    ensures s.goals == ""
  {
    FormState([EmptyEntry], [EmptyEntry], "")
  }

  /** The invariant the list editing keeps: neither list is ever empty. */
  predicate NonEmptyLists(s: FormState) {
    |s.courses| >= 1 && |s.clubs| >= 1
  }

  /** `{ ...entry, [field]: value }`. */
  function SetField(e: Entry, field: Field, value: string): (r: Entry)
    ensures field == Name ==> r.name == value && r.time == e.time
    ensures field == Time ==> r.time == value && r.name == e.name
  {
    match field
    case Name => e.(name := value)
    case Time => e.(time := value)
  }

  /** `handleCourseChange` / `handleClubChange`: only the named field of the
      entry at `index` changes. */
  function ChangeField(list: seq<Entry>, index: int, field: Field, value: string): (r: seq<Entry>)
    requires 0 <= index < |list|
    ensures |r| == |list|
    ensures forall i :: 0 <= i < |r| && i != index ==> r[i] == list[i]
    ensures field == Name ==> r[index].name == value && r[index].time == list[index].time
    ensures field == Time ==> r[index].time == value && r[index].name == list[index].name
  {
    list[index := SetField(list[index], field, value)]
  }

  /** `addCourse` / `addClub`: one empty entry at the end, the rest untouched. */
  function AddEntry(list: seq<Entry>): (r: seq<Entry>)
    ensures |r| == |list| + 1
    ensures r[..|list|] == list
    ensures r[|list|].name == "" && r[|list|].time == ""
  {
    list + [EmptyEntry]
  }

  /** `list.filter((_, i) => i !== index)`. */
  function WithoutIndex(list: seq<Entry>, index: int, from: nat): (r: seq<Entry>)
    requires from <= |list|
    ensures |r| == if from <= index < |list| then |list| - from - 1 else |list| - from
    ensures forall e :: e in r ==> e in list[from..]
    decreases |list| - from
  {
    if from == |list| then []
    else if from == index then WithoutIndex(list, index, from + 1)
    else [list[from]] + WithoutIndex(list, index, from + 1)
  }

  /** `removeCourse` / `removeClub`: with more than one entry, the entry at
      `index` goes and the others keep their order; with one entry nothing
      changes. An index outside the list removes nothing. */
  function RemoveEntry(list: seq<Entry>, index: int): (r: seq<Entry>)
    ensures |list| <= 1 ==> r == list
    ensures |list| > 1 && 0 <= index < |list| ==> |r| == |list| - 1 && r == list[..index] + list[index + 1..]
    ensures |list| > 1 && !(0 <= index < |list|) ==> r == list
  {
    if |list| > 1 then
      WithoutIndexSpec(list, index, 0);
      WithoutIndex(list, index, 0)
    else list
  }

  /** What the index filter keeps from position `from` on. */
  lemma {:induction false} WithoutIndexSpec(list: seq<Entry>, index: int, from: nat)
    requires from <= |list|
    ensures from <= index < |list| ==> WithoutIndex(list, index, from) == list[from..index] + list[index + 1..]
    ensures !(from <= index < |list|) ==> WithoutIndex(list, index, from) == list[from..]
    decreases |list| - from
  {
    if from < |list| {
      WithoutIndexSpec(list, index, from + 1);
      if from != index {
        assert list[from..] == [list[from]] + list[from + 1..];
        if from < index < |list| {
          assert list[from..index] == [list[from]] + list[from + 1..index];
        }
      }
    }
  }

  /** Every list operation keeps a non-empty list non-empty. */
  lemma ListOperationsKeepNonEmpty(list: seq<Entry>, index: int, field: Field, value: string, k: int)
    requires |list| >= 1
    ensures |AddEntry(list)| >= 1
    ensures |RemoveEntry(list, k)| >= 1
    ensures 0 <= index < |list| ==> |ChangeField(list, index, field, value)| >= 1
  {
  }

  /** The user's actions on the form. An edit names an entry on screen. */
  datatype Action =
    | EditCourse(index: int, field: Field, value: string)
    | AddCourse
    | RemoveCourse(index: int)
    | EditClub(index: int, field: Field, value: string)
    | AddClub
    | RemoveClub(index: int)
    | EditGoals(text: string)

  /** An edit can only come from an entry that is rendered, i.e. inside the list. */
  predicate Enabled(s: FormState, a: Action) {
    match a
    case EditCourse(i, _, _) => 0 <= i < |s.courses|
    case EditClub(i, _, _) => 0 <= i < |s.clubs|
    case _ => true
  }

  /** One state update, as the matching `set...` call makes it. */
  function Step(s: FormState, a: Action): (t: FormState)
    requires Enabled(s, a)
    ensures a.EditGoals? ==> t.courses == s.courses && t.clubs == s.clubs && t.goals == a.text
    ensures (a.EditCourse? || a.AddCourse? || a.RemoveCourse?) ==> t.clubs == s.clubs && t.goals == s.goals
    ensures (a.EditClub? || a.AddClub? || a.RemoveClub?) ==> t.courses == s.courses && t.goals == s.goals
    ensures a.EditCourse? ==> t.courses == ChangeField(s.courses, a.index, a.field, a.value)
    ensures a.AddCourse? ==> t.courses == AddEntry(s.courses)
    ensures a.RemoveCourse? ==> t.courses == RemoveEntry(s.courses, a.index)
    ensures a.EditClub? ==> t.clubs == ChangeField(s.clubs, a.index, a.field, a.value)
    ensures a.AddClub? ==> t.clubs == AddEntry(s.clubs)
    ensures a.RemoveClub? ==> t.clubs == RemoveEntry(s.clubs, a.index)
  {
    match a
    case EditCourse(i, f, v) => s.(courses := ChangeField(s.courses, i, f, v))
    case AddCourse => s.(courses := AddEntry(s.courses))
    case RemoveCourse(i) => s.(courses := RemoveEntry(s.courses, i))
    case EditClub(i, f, v) => s.(clubs := ChangeField(s.clubs, i, f, v))
    case AddClub => s.(clubs := AddEntry(s.clubs))
    case RemoveClub(i) => s.(clubs := RemoveEntry(s.clubs, i))
    case EditGoals(text) => s.(goals := text)
  }

  /** A sequence of actions each of which is possible in the state it meets. */
  predicate Playable(s: FormState, actions: seq<Action>)
    decreases |actions|
  {
    |actions| == 0 || (Enabled(s, actions[0]) && Playable(Step(s, actions[0]), actions[1..]))
  }

  function Run(s: FormState, actions: seq<Action>): FormState
    requires Playable(s, actions)
    decreases |actions|
  {
    if |actions| == 0 then s else Run(Step(s, actions[0]), actions[1..])
  }

  /** One action keeps both lists non-empty. */
  lemma StepKeepsNonEmpty(s: FormState, a: Action)
    requires NonEmptyLists(s) && Enabled(s, a)
    ensures NonEmptyLists(Step(s, a))
  {
  }

  /** Any playable sequence of actions keeps both lists non-empty. */
  lemma {:induction false} RunKeepsNonEmpty(s: FormState, actions: seq<Action>)
    requires NonEmptyLists(s) && Playable(s, actions)
    ensures NonEmptyLists(Run(s, actions))
    decreases |actions|
  {
    if |actions| > 0 {
      StepKeepsNonEmpty(s, actions[0]);
      RunKeepsNonEmpty(Step(s, actions[0]), actions[1..]);
    }
  }

  /** From the initial state, whatever the user does, neither list is ever empty. */
  lemma ReachableStatesNonEmpty(actions: seq<Action>)
    requires Playable(Initial(), actions)
    ensures NonEmptyLists(Run(Initial(), actions))
  {
    RunKeepsNonEmpty(Initial(), actions);
  }

  /** Removing the entry just added gives the list back. */
  lemma RemoveUndoesAdd(list: seq<Entry>)
    requires |list| >= 1
    ensures RemoveEntry(AddEntry(list), |list|) == list
  {
    var added := AddEntry(list);
    assert added[..|list|] == list;
  }

  /** Setting a field back to its previous value restores the list. */
  lemma ChangeFieldUndo(list: seq<Entry>, index: int, field: Field, value: string)
    requires 0 <= index < |list|
    ensures var previous := if field == Name then list[index].name else list[index].time;
            ChangeField(ChangeField(list, index, field, value), index, field, previous) == list
  {
  }

  /** `c.name.trim() && c.time.trim()`: both fields hold a character that is
      not whitespace. */
  predicate Filled(e: Entry)
    ensures Filled(e) <==> !AllWhitespace(e.name) && !AllWhitespace(e.time)
  {
    !Blank(e.name) && !Blank(e.time)
  }

  /** The entries submit keeps: the filled ones, in order, strings as typed. */
  function FilledEntries(list: seq<Entry>): (r: seq<Entry>)
    ensures SubsequenceOf(r, list)
    ensures forall i :: 0 <= i < |r| ==> Filled(r[i])
    ensures forall e :: e in r <==> e in list && Filled(e)
    ensures forall e :: multiset(r)[e] == if Filled(e) then multiset(list)[e] else 0
  {
    FilterContents(Filled, list);
    Filter(Filled, list)
  }

  datatype Rejection = NoCourseOrClub | NoGoals {
    /** The text `alert` shows. */
    function Message(): string {
      match this
      case NoCourseOrClub => "Please add at least one course or club"
      case NoGoals => "Please enter your goals"
    }
  }

  /** The argument `onSubmit` receives. */
  datatype Payload = Payload(courses: seq<Entry>, clubs: seq<Entry>, goals: string)

  /** What `handleSubmit` does: alert and stop, or call `onSubmit` once. */
  datatype SubmitOutcome = Rejected(reason: Rejection) | Submitted(payload: Payload)

  /** `handleSubmit`: the course-or-club check first, then the goals check. */
  function Submit(s: FormState): (r: SubmitOutcome)
    ensures r == Rejected(NoCourseOrClub) <==>
              (forall i :: 0 <= i < |s.courses| ==> !Filled(s.courses[i]))
              && (forall i :: 0 <= i < |s.clubs| ==> !Filled(s.clubs[i]))
    ensures r == Rejected(NoGoals) <==>
              ((exists i :: 0 <= i < |s.courses| && Filled(s.courses[i]))
               || (exists i :: 0 <= i < |s.clubs| && Filled(s.clubs[i])))
              && AllWhitespace(s.goals)
    ensures r.Submitted? ==>
              && r.payload.courses == FilledEntries(s.courses)
              && r.payload.clubs == FilledEntries(s.clubs)
              && |r.payload.courses| + |r.payload.clubs| > 0
              && r.payload.goals == Trim(s.goals)
              && r.payload.goals != []
  {
    var courses := FilledEntries(s.courses);
    var clubs := FilledEntries(s.clubs);
    NoneFilledIffEmpty(s.courses);
    NoneFilledIffEmpty(s.clubs);
    if |courses| == 0 && |clubs| == 0 then Rejected(NoCourseOrClub)
    else if Blank(s.goals) then Rejected(NoGoals)
    else Submitted(Payload(courses, clubs, Trim(s.goals)))
  }

  /** The filtered list is empty exactly when no entry is filled. */
  lemma NoneFilledIffEmpty(list: seq<Entry>)
    ensures |FilledEntries(list)| == 0 <==> forall i :: 0 <= i < |list| ==> !Filled(list[i])
  {
    if |FilledEntries(list)| == 0 {
      forall i | 0 <= i < |list|
        ensures !Filled(list[i])
      {
        assert list[i] in list;
      }
    } else {
      assert FilledEntries(list)[0] in list;
    }
  }

  /** Submitting the untouched form is always rejected for want of a course or club. */
  lemma InitialSubmitRejected(goals: string)
    ensures Submit(Initial().(goals := goals)) == Rejected(NoCourseOrClub)
  {
    assert !Filled(EmptyEntry);
  }

  /** The goals sent are already trimmed: trimming them again changes nothing. */
  lemma SubmittedGoalsTrimmed(s: FormState)
    ensures Submit(s).Submitted? ==> Trim(Submit(s).payload.goals) == Submit(s).payload.goals
  {
    TrimIdempotent(s.goals);
  }
}
