/** The timesheet store's selectors (`timesheet.selectors.ts`): the list of
    all timesheets in the store, and the four views that keep one status
    each. Statuses are the strings the server sends. */
module Selectors {
  import Seqs

  /** A timesheet as the store holds it; only the id and the status matter here. */
  datatype StoreTimesheet = StoreTimesheet(id: int, status: string)

  const Draft := "Draft"
  const Submitted := "Submitted"
  const Approved := "Approved"
  const Rejected := "Rejected"

  /** The four-value union of the client's `status` type. */
  predicate KnownStatus(s: string) {
    s == Draft || s == Submitted || s == Approved || s == Rejected
  }

  function HasStatus(status: string): StoreTimesheet -> bool {
    (t: StoreTimesheet) => t.status == status
  }

  /** `timesheets.filter(t => t.status === status)` over `selectAllTimesheets`. */
  function SelectByStatus(all: seq<StoreTimesheet>, status: string): (r: seq<StoreTimesheet>)
    ensures forall t :: t in r <==> t in all && t.status == status
    ensures forall i :: 0 <= i < |r| ==> r[i].status == status
  {
    Seqs.FilterMembers(all, HasStatus(status));
    Seqs.Filter(all, HasStatus(status))
  }

  function SelectDraftTimesheets(all: seq<StoreTimesheet>): seq<StoreTimesheet> {
    SelectByStatus(all, Draft)
  }

  function SelectSubmittedTimesheets(all: seq<StoreTimesheet>): seq<StoreTimesheet> {
    SelectByStatus(all, Submitted)
  }

  function SelectApprovedTimesheets(all: seq<StoreTimesheet>): seq<StoreTimesheet> {
    SelectByStatus(all, Approved)
  }

  function SelectRejectedTimesheets(all: seq<StoreTimesheet>): seq<StoreTimesheet> {
    SelectByStatus(all, Rejected)
  }

  /** Each view keeps the order of the store's list. */
  lemma SelectionsAreSubsequences(all: seq<StoreTimesheet>)
    ensures Seqs.IsSubsequence(SelectDraftTimesheets(all), all)
    ensures Seqs.IsSubsequence(SelectSubmittedTimesheets(all), all)
    ensures Seqs.IsSubsequence(SelectApprovedTimesheets(all), all)
    ensures Seqs.IsSubsequence(SelectRejectedTimesheets(all), all)
  {
    Seqs.FilterIsSubsequence(all, HasStatus(Draft));
    Seqs.FilterIsSubsequence(all, HasStatus(Submitted));
    Seqs.FilterIsSubsequence(all, HasStatus(Approved));
    Seqs.FilterIsSubsequence(all, HasStatus(Rejected));
  }

  /** No timesheet is in two views. */
  lemma SelectionsDisjoint(all: seq<StoreTimesheet>, s1: string, s2: string)
    requires s1 != s2
    ensures forall t :: !(t in SelectByStatus(all, s1) && t in SelectByStatus(all, s2))
  {
  }

  /** When every status is one of the four, the four views together are as
      long as the whole list. */
  lemma {:induction false} SelectionCountsAddUp(all: seq<StoreTimesheet>)
    requires forall i :: 0 <= i < |all| ==> KnownStatus(all[i].status)
    ensures |SelectDraftTimesheets(all)| + |SelectSubmittedTimesheets(all)|
      + |SelectApprovedTimesheets(all)| + |SelectRejectedTimesheets(all)| == |all|
    decreases |all|
  {
    if all != [] {
      SelectionCountsAddUp(all[1..]);
    }
  }
}
