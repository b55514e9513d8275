/**
 * The delete-relationship modal of components/tree/del-relationship-modal.tsx: two person
 * ids typed as text, checked, confirmed by the user and sent for the link's removal.
 */
module DelRelationship {
  import opened Wrappers
  import JsText
  import opened Requests
  import AddRelationship

  const EnterBoth: string := "Please enter both parent ID and child ID"
  const SamePerson: string := "Parent and child cannot be the same person"
  const NotFound: string := "Relationship not found or already deleted"
  const Failed: string := "Failed to delete relationship. Please try again."

  /** The checks of `handleSubmit` (lines 41-49): both ids typed, and not the same text. */
  function Check(parentId: string, childId: string): (r: Option<string>)
    ensures r.None? <==> parentId != "" && childId != "" && parentId != childId
    ensures r == Some(EnterBoth) <==> parentId == "" || childId == ""
    ensures r == Some(SamePerson) <==> parentId != "" && parentId == childId
  {
    if parentId == "" || childId == "" then Some(EnterBoth)
    else if parentId == childId then Some(SamePerson)
    else None
  }

  /** The two modals accept and refuse the same pairs of ids; only the message for a missing id differs. */
  lemma SameChecksAsAdd(parentId: string, childId: string)
    ensures Check(parentId, childId).None? <==> AddRelationship.Check(parentId, childId).None?
    ensures Check(parentId, childId) == Some(SamePerson) <==>
      AddRelationship.Check(parentId, childId) == Some(AddRelationship.SamePerson)
  {
    assert SamePerson == AddRelationship.SamePerson;
  }

  /** Why the request failed (lines 73-78): a 404 means the link is gone, anything else shows the server's detail or a fixed text. */
  function FailureMessage(o: Outcome): (m: string)
    requires !o.Answered?
    ensures o.Status() == Some(404) ==> m == NotFound
    ensures o.Status() != Some(404) ==> m == JsText.OrElse(o.Detail(), Failed)
  {
    if o.Status() == Some(404) then NotFound else JsText.OrElse(o.Detail(), Failed)
  }

  class Modal {
    var parentId: string
    var childId: string
    var isSubmitting: bool
    var error: Option<string>
    /** The owner's `isOpen`, cleared through `onClose`. */
    var open: bool

    constructor()
      ensures parentId == "" && childId == "" && !isSubmitting && error == None && open
    {
      parentId, childId, isSubmitting, error, open := "", "", false, None, true;
    }

    /**
     * `handleSubmit` up to the request: a failed check shows its message; a declined
     * confirmation stops with nothing shown (lines 52-56); without a token (null or the empty
     * string, both falsy for `!token`) the call fails with no response; otherwise the parsed
     * ids go out.
     */
    method Submit(confirmed: bool, token: Option<string>) returns (request: Option<AddRelationship.Link>)
      modifies this`error, this`isSubmitting
      ensures var c := Check(parentId, childId);
        && (c.Some? ==> request == None && error == c && isSubmitting == old(isSubmitting))
        && (c.None? && !confirmed ==> request == None && error == None && isSubmitting == old(isSubmitting))
        && (c.None? && confirmed && !JsText.IsTruthy(token) ==>
              request == None && error == Some(FailureMessage(NoResponse)) && !isSubmitting)
        && (c.None? && confirmed && JsText.IsTruthy(token) ==>
              request == Some(AddRelationship.LinkOf(parentId, childId)) && error == None && isSubmitting)
    {
      error := None;
      var c := Check(parentId, childId);
      if c.Some? {
        error := c;
        return None;
      }
      if !confirmed {
        return None;
      }
      isSubmitting := true;
      if !JsText.IsTruthy(token) {
        error := Some(FailureMessage(NoResponse));
        isSubmitting := false;
        return None;
      }
      request := Some(AddRelationship.LinkOf(parentId, childId));
    }

    /** The answer: success clears both ids and closes the modal; failure shows why. */
    method Complete(outcome: Outcome)
      modifies this`parentId, this`childId, this`error, this`isSubmitting, this`open
      ensures !isSubmitting
      ensures outcome.Answered? ==> parentId == "" && childId == "" && !open && error == old(error)
      ensures !outcome.Answered? ==>
        error == Some(FailureMessage(outcome)) && parentId == old(parentId) && childId == old(childId) && open == old(open)
    {
      if outcome.Answered? {
        parentId, childId := "", "";
        open := false;
      } else {
        error := Some(FailureMessage(outcome));
      }
      isSubmitting := false;
    }

    /** `handleClose` (lines 84-91): ignored while submitting, otherwise everything cleared and the modal closed. */
    method Close()
      modifies this`parentId, this`childId, this`error, this`open
      ensures old(isSubmitting) ==>
        parentId == old(parentId) && childId == old(childId) && error == old(error) && open == old(open)
      ensures !old(isSubmitting) ==> parentId == "" && childId == "" && error == None && !open
    {
      if !isSubmitting {
        parentId, childId, error := "", "", None;
        open := false;
      }
    }
  }
}
