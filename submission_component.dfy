/** The batch entry form of the employee timesheet page
    (`TimesheetSubmissionComponent`): one row per day and project, checked for
    repeated (date, project code) keys and for hours above 24 before a batch
    of draft timesheets is sent. The HTTP call and its reply are not part of
    the model: a method that would send a batch returns it instead. */
module SubmissionComponent {
  import opened Wrappers
  import Seqs
  import Text

  /** One row of the form. `hours` is `None` when the number input is cleared. */
  datatype Entry = Entry(date: string, projectCode: string, hours: Option<real>, description: string)

  /** The row `addEntry` pushes. */
  const BlankEntry := Entry("", "", Some(0.0), "")

  /** `Validators.required` on a text control. */
  predicate Required(s: string) {
    |s| > 0
  }

  /** The row's validators: date, project code and description required,
      hours required and between 0 and 24 inclusive. */
  predicate EntryValid(e: Entry) {
    && Required(e.date)
    && Required(e.projectCode)
    && e.hours.Some? && 0.0 <= e.hours.value <= 24.0
    && Required(e.description)
  }

  /** `entries.invalid`: some row fails its validators. */
  predicate AllValid(es: seq<Entry>) {
    forall i :: 0 <= i < |es| ==> EntryValid(es[i])
  }

  /** `Number(entry.hours)`: a cleared input counts as 0. */
  function HoursNumber(e: Entry): real {
    if e.hours.Some? then e.hours.value else 0.0
  }

  /** `entry.date + '-' + entry.projectCode`. */
  function Key(e: Entry): string {
    e.date + "-" + e.projectCode
  }

  /** What `validateNoDuplicates` accepts: no two rows share a key and no
      row's hours exceed 24. */
  predicate NoDuplicates(es: seq<Entry>) {
    && (forall i, j :: 0 <= i < j < |es| ==> Key(es[i]) != Key(es[j]))
    && (forall i :: 0 <= i < |es| ==> HoursNumber(es[i]) <= 24.0)
  }

  /** The hours the rows put on one (date, project code) key. */
  function KeyTotal(es: seq<Entry>, key: string): real
    decreases |es|
  {
    if es == [] then 0.0
    else (if Key(es[0]) == key then HoursNumber(es[0]) else 0.0) + KeyTotal(es[1..], key)
  }

  lemma {:induction false} KeyTotalAbsent(es: seq<Entry>, key: string)
    requires forall i :: 0 <= i < |es| ==> Key(es[i]) != key
    ensures KeyTotal(es, key) == 0.0
    decreases |es|
  {
    if es != [] {
      KeyTotalAbsent(es[1..], key);
    }
  }

  /** With pairwise distinct keys, the total on a row's key is that row's hours. */
  lemma {:induction false} KeyTotalOfDistinct(es: seq<Entry>, i: int)
    requires forall a, b :: 0 <= a < b < |es| ==> Key(es[a]) != Key(es[b])
    requires 0 <= i < |es|
    ensures KeyTotal(es, Key(es[i])) == HoursNumber(es[i])
    decreases |es|
  {
    if i == 0 {
      KeyTotalAbsent(es[1..], Key(es[0]));
    } else {
      KeyTotalOfDistinct(es[1..], i - 1);
    }
  }

  /** Rows that pass the check put at most 24 hours on any project and day. */
  lemma AcceptedRowsStayWithinDay(es: seq<Entry>)
    requires NoDuplicates(es)
    ensures forall i :: 0 <= i < |es| ==> KeyTotal(es, Key(es[i])) <= 24.0
  {
    forall i | 0 <= i < |es| ensures KeyTotal(es, Key(es[i])) <= 24.0 {
      KeyTotalOfDistinct(es, i);
    }
  }

  /** Dropping rows never makes the check fail. */
  lemma {:induction false} PruningKeepsNoDuplicates(es: seq<Entry>, keep: Entry -> bool)
    requires NoDuplicates(es)
    ensures NoDuplicates(Seqs.Filter(es, keep))
    decreases |es|
  {
    if es != [] {
      var tail := es[1..];
      PruningKeepsNoDuplicates(tail, keep);
      var rest := Seqs.Filter(tail, keep);
      if keep(es[0]) {
        var r := [es[0]] + rest;
        forall a, b | 0 <= a < b < |r| ensures Key(r[a]) != Key(r[b]) {
          if a == 0 {
            assert r[b] == rest[b - 1];
            var j :| 0 <= j < |tail| && tail[j] == rest[b - 1];
            assert es[j + 1] == r[b];
          }
        }
        assert Seqs.Filter(es, keep) == r;
      }
    }
  }

  /** One backward step of `removeEmptyEntries`: rows `i + 1..` are already
      filtered; keeping or removing row `i` extends that to rows `i..`. */
  lemma PruneStep(original: seq<Entry>, i: nat, es: seq<Entry>)
    requires i < |original|
    requires es == original[..i + 1] + Seqs.Filter(original[i + 1..], EntryValid)
    ensures i < |es| && es[i] == original[i]
    ensures EntryValid(es[i]) ==> es == original[..i] + Seqs.Filter(original[i..], EntryValid)
    ensures !EntryValid(es[i]) ==> es[..i] + es[i + 1..] == original[..i] + Seqs.Filter(original[i..], EntryValid)
  {
    var tail := Seqs.Filter(original[i + 1..], EntryValid);
    assert original[i..][1..] == original[i + 1..];
    Seqs.FilterCons(original[i..], EntryValid);
    assert original[..i + 1] == original[..i] + [original[i]];
    assert es[..i] == original[..i];
    assert es[i + 1..] == tail;
  }

  /** Every row left by pruning is valid. */
  lemma PrunedRowsAreValid(es: seq<Entry>)
    ensures AllValid(Seqs.Filter(es, EntryValid))
  {
  }

  /** `hoursMap[key] || 0`. */
  function HoursOr0(m: map<string, real>, key: string): real {
    if key in m then m[key] else 0.0
  }

  /** The server's `CreateTimesheetDto` as the page fills it. */
  datatype CreateTimesheetDto = CreateTimesheetDto(
    projectId: Option<int>, date: string, hoursWorked: Option<real>, description: string)

  /** One element of the user's assignment list the page loads; either id may be missing. */
  datatype AssignedProject = AssignedProject(projectCode: string, projectId: Option<int>, id: Option<int>)

  /** JavaScript truthiness of an optional number: present and not 0. */
  predicate Truthy(n: Option<int>) {
    n.Some? && n.value != 0
  }

  function HasCode(code: string): AssignedProject -> bool {
    (p: AssignedProject) => p.projectCode == code
  }

  /** `project ? (project.projectId || project.id) : null` for the first
      project whose code is the row's code. */
  function ResolveProject(projects: seq<AssignedProject>, code: string): (r: Option<int>)
    ensures (forall i :: 0 <= i < |projects| ==> projects[i].projectCode != code) ==> r.None?
    ensures forall i :: 0 <= i < |projects| && projects[i].projectCode == code
                        && (forall j :: 0 <= j < i ==> projects[j].projectCode != code) ==>
      r == (if Truthy(projects[i].projectId) then projects[i].projectId else projects[i].id)
    ensures r.Some? ==> exists i :: (
      && 0 <= i < |projects| && projects[i].projectCode == code
      && (forall j :: 0 <= j < i ==> projects[j].projectCode != code)
      && r == (if Truthy(projects[i].projectId) then projects[i].projectId else projects[i].id))
  {
    match Seqs.FirstIndex(projects, HasCode(code))
    case None => None
    case Some(i) =>
      var p := projects[i];
      if Truthy(p.projectId) then p.projectId else p.id
  }

  /** The `map` from rows to DTOs: one DTO per row, in order. */
  function ToDtos(projects: seq<AssignedProject>, es: seq<Entry>): (r: seq<CreateTimesheetDto>)
    ensures |r| == |es|
    ensures forall i :: 0 <= i < |es| ==>
      && r[i].projectId == ResolveProject(projects, es[i].projectCode)
      && r[i].date == es[i].date
      && r[i].hoursWorked == es[i].hours
      && r[i].description == es[i].description
  {
    seq(|es|, i requires 0 <= i < |es| =>
      CreateTimesheetDto(ResolveProject(projects, es[i].projectCode), es[i].date, es[i].hours, es[i].description))
  }

  /** `createDtos.filter(dto => !dto.projectId).length == 0`. */
  predicate AllResolved(dtos: seq<CreateTimesheetDto>) {
    forall i :: 0 <= i < |dtos| ==> Truthy(dtos[i].projectId)
  }

  /** A row whose project code matches no loaded project stops the batch. */
  lemma UnknownCodeStopsBatch(projects: seq<AssignedProject>, es: seq<Entry>, i: int)
    requires 0 <= i < |es|
    requires forall j :: 0 <= j < |projects| ==> projects[j].projectCode != es[i].projectCode
    ensures !AllResolved(ToDtos(projects, es))
  {
    assert !Truthy(ToDtos(projects, es)[i].projectId);
  }

  const DuplicateMessage := "Duplicate project/date entries or more than 24 hours for a project in a day are not allowed."
  const FixErrorsMessage := "Please fix form errors."
  const ProjectNotFoundMessage := "Project not found for one or more entries."
  const SubmitErrorsMessage := "Please fix errors before submitting. (No duplicates or >24h per project/day)"

  const SubmittedMessage := "Timesheet(s) submitted successfully."
  const SaveFailedMessage := "Error saving timesheets as draft."
  const SubmitFailedMessage := "Error submitting timesheets."

  /** The success message of a draft batch of `n` rows. */
  function DraftsSavedMessage(n: nat): string {
    Text.NatToString(n) + " draft timesheet(s) saved."
  }

  /** `err?.error?.message || fallback`: the server's message unless it is
      missing or empty. */
  function ErrorText(serverMessage: Option<string>, fallback: string): (r: string)
    ensures serverMessage.Some? && serverMessage.value != "" ==> r == serverMessage.value
    ensures serverMessage.None? || serverMessage.value == "" ==> r == fallback
    ensures fallback != "" ==> r != ""
  {
    if serverMessage.Some? && serverMessage.value != "" then serverMessage.value else fallback
  }

  class SubmissionForm {
    var entries: seq<Entry>
    var projects: seq<AssignedProject>
    var error: string
    var success: string
    var loading: bool

    /** The page after `ngOnInit`: the user's projects loaded and one blank row. */
    constructor(projects: seq<AssignedProject>)
      ensures this.entries == [BlankEntry] && this.projects == projects
      ensures error == "" && success == "" && !loading
    {
      this.entries := [BlankEntry];
      this.projects := projects;
      error := "";
      success := "";
      loading := false;
    }

    /** `addEntry`: a blank row at the end. */
    method AddEntry()
      modifies this
      ensures entries == old(entries) + [BlankEntry]
      ensures projects == old(projects) && error == old(error) && success == old(success) && loading == old(loading)
    {
      entries := entries + [BlankEntry];
    }

    /** `removeEntry(index)` for an index of an existing row. */
    method RemoveEntry(index: int)
      modifies this
      ensures 0 <= index < |old(entries)| ==> entries == old(entries)[..index] + old(entries)[index + 1..]
      ensures !(0 <= index < |old(entries)|) ==> entries == old(entries)
      ensures projects == old(projects) && error == old(error) && success == old(success) && loading == old(loading)
    {
      if 0 <= index < |entries| {
        entries := entries[..index] + entries[index + 1..];
      }
    }

    /** `editTimesheet`: the form is replaced by one row holding the timesheet's values. */
    method EditTimesheet(date: string, projectCode: string, hoursWorked: real, description: string)
      modifies this
      ensures entries == [Entry(date, projectCode, Some(hoursWorked), description)]
      ensures projects == old(projects) && error == old(error) && success == old(success) && loading == old(loading)
    {
      entries := [Entry(date, projectCode, Some(hoursWorked), description)];
    }

    /** The `next` handler of a batch: the success message, and the form
        cleared down to one blank row. `drafts` tells `saveAsDraft`, which
        reports the row count, from `submitTimesheet`. */
    method BatchSaved(count: nat, drafts: bool)
      modifies this
      ensures entries == [BlankEntry] && !loading
      ensures success == (if drafts then DraftsSavedMessage(count) else SubmittedMessage)
      ensures projects == old(projects) && error == old(error)
    {
      loading := false;
      success := if drafts then DraftsSavedMessage(count) else SubmittedMessage;
      entries := [];
      AddEntry();
    }

    /** The `error` handler of a batch: the server's message or the page's own. */
    method BatchFailed(serverMessage: Option<string>, drafts: bool)
      modifies this
      ensures !loading && error != ""
      ensures error == ErrorText(serverMessage, if drafts then SaveFailedMessage else SubmitFailedMessage)
      ensures entries == old(entries) && projects == old(projects) && success == old(success)
    {
      loading := false;
      error := ErrorText(serverMessage, if drafts then SaveFailedMessage else SubmitFailedMessage);
    }

    /** `validateNoDuplicates`: walks the rows with a set of seen keys and a
        map of hours per key. */
    method ValidateNoDuplicates() returns (ok: bool)
      ensures ok == NoDuplicates(entries)
    {
      var seen: set<string> := {};
      var hoursMap: map<string, real> := map[];
      var k := 0;
      while k < |entries|
        invariant 0 <= k <= |entries|
        invariant seen == set j | 0 <= j < k :: Key(entries[j])
        invariant hoursMap.Keys == seen
        invariant forall a, b :: 0 <= a < b < k ==> Key(entries[a]) != Key(entries[b])
        invariant forall a :: 0 <= a < k ==> HoursNumber(entries[a]) <= 24.0
      {
        var key := Key(entries[k]);
        if key in seen {
          var j :| 0 <= j < k && Key(entries[j]) == key;
          return false;
        }
        seen := seen + {key};
        var prior := HoursOr0(hoursMap, key);
        hoursMap := hoursMap[key := prior + HoursNumber(entries[k])];
        if hoursMap[key] > 24.0 {
          return false;
        }
        k := k + 1;
      }
      return true;
    }

    /** `removeEmptyEntries`: walks the rows backwards and removes every
        invalid one. */
    method RemoveEmptyEntries()
      modifies this`entries
      ensures entries == Seqs.Filter(old(entries), EntryValid)
    {
      ghost var original := entries;
      var i := |entries|;
      while i > 0
        invariant 0 <= i <= |original|
        invariant entries == original[..i] + Seqs.Filter(original[i..], EntryValid)
      {
        i := i - 1;
        PruneStep(original, i, entries);
        if !EntryValid(entries[i]) {
          entries := entries[..i] + entries[i + 1..];
        }
      }
      assert original[0..] == original;
    }

    /** What `saveAsDraft` and `submitTimesheet` share once the rows passed
        their checks: the loading flag is raised, the rows are mapped to DTOs,
        and a row with no resolved project stops the batch. */
    method SendBatch() returns (batch: Option<seq<CreateTimesheetDto>>)
      modifies this`loading, this`error
      ensures batch.Some? <==> AllResolved(ToDtos(projects, entries))
      ensures batch.Some? ==> batch.value == ToDtos(projects, entries) && error == old(error) && loading
      ensures batch.None? ==> error == ProjectNotFoundMessage && !loading
    {
      loading := true;
      var dtos := ToDtos(projects, entries);
      if !AllResolved(dtos) {
        loading := false;
        error := ProjectNotFoundMessage;
        return None;
      }
      return Some(dtos);
    }

    /** `saveAsDraft`: the duplicate check, then the form's validity, then the
        project lookup; the batch is returned only when all three pass. */
    method SaveAsDraft() returns (batch: Option<seq<CreateTimesheetDto>>)
      modifies this`error, this`success, this`loading
      ensures success == ""
      ensures batch.Some? <==> NoDuplicates(entries) && AllValid(entries) && AllResolved(ToDtos(projects, entries))
      ensures batch.Some? ==> batch.value == ToDtos(projects, entries) && error == "" && loading
      ensures !NoDuplicates(entries) ==> error == DuplicateMessage && loading == old(loading)
      ensures NoDuplicates(entries) && !AllValid(entries) ==> error == FixErrorsMessage && loading == old(loading)
      ensures NoDuplicates(entries) && AllValid(entries) && !AllResolved(ToDtos(projects, entries)) ==>
        error == ProjectNotFoundMessage && !loading
    {
      error := "";
      success := "";
      var ok := ValidateNoDuplicates();
      if !ok {
        error := DuplicateMessage;
        return None;
      }
      if !AllValid(entries) {
        error := FixErrorsMessage;
        return None;
      }
      batch := SendBatch();
    }

    /** `submitTimesheet`: prunes the invalid rows first, so only the
        duplicate check and the project lookup can stop the batch. */
    method SubmitTimesheet() returns (batch: Option<seq<CreateTimesheetDto>>)
      modifies this`entries, this`error, this`success, this`loading
      ensures entries == Seqs.Filter(old(entries), EntryValid) && AllValid(entries)
      ensures success == ""
      ensures batch.Some? <==> NoDuplicates(entries) && AllResolved(ToDtos(projects, entries))
      ensures batch.Some? ==> batch.value == ToDtos(projects, entries) && error == "" && loading
      ensures !NoDuplicates(entries) ==> error == SubmitErrorsMessage && loading == old(loading)
      ensures NoDuplicates(entries) && !AllResolved(ToDtos(projects, entries)) ==>
        error == ProjectNotFoundMessage && !loading
    {
      error := "";
      success := "";
      PrunedRowsAreValid(entries);
      RemoveEmptyEntries();
      var ok := ValidateNoDuplicates();
      if !AllValid(entries) || !ok {
        error := SubmitErrorsMessage;
        return None;
      }
      batch := SendBatch();
    }
  }
}
