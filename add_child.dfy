/**
 * The add-child modal of components/tree/add-child-modal.tsx: a new person created one
 * generation below the given parent and linked to it.
 */
module AddChild {
  import opened Wrappers
  import JsText
  import opened TreeView
  import opened Requests

  const NameRequired: string := "Name is required"
  const Failed: string := "Failed to add child. Please try again."

  /**
   * The body sent by `handleSubmit` (lines 57-65): the typed fields as both person dialogs
   * send them, one level below the parent, with the parent as the only parent.
   */
  function ChildPayload(parent: Person, name: string, gender: Gender, dob: string, dod: string, description: string)
    : (r: NewPerson)
    ensures r.level == parent.level + 1 && r.parentIds == Some([parent.personId])
    ensures r.name == JsText.Trim(name) && r.gender == gender
    ensures r.dob == JsText.OrNull(dob) && r.dod == JsText.OrNull(dod)
    ensures r.description == JsText.OrNull(JsText.Trim(description))
  {
    NewPersonOf(name, gender, parent.level + 1, dob, dod, description, Some([parent.personId]))
  }

  /** A child that passes the name check is sent with a non-blank, trimmed name, below its parent. */
  lemma ChildPayloadValid(parent: Person, name: string, gender: Gender, dob: string, dod: string, description: string)
    requires !JsText.IsBlank(name)
    ensures var r := ChildPayload(parent, name, gender, dob, dod, description);
      && r.name != "" && JsText.Trim(r.name) == r.name && r.level > parent.level
      && (r.description.Some? ==> r.description.value != "" && JsText.Trim(r.description.value) == r.description.value)
  {
    NewPersonTrimmed(name, gender, parent.level + 1, dob, dod, description, Some([parent.personId]));
  }

  class Modal {
    /** The person the child is added to. */
    const parent: Person
    var name: string
    var gender: Gender
    var dob: string
    var dod: string
    var description: string
    var isSubmitting: bool
    var error: Option<string>
    /** The owner's `isOpen`, cleared through `onClose`. */
    var open: bool

    /** Resets the fields to their initial values. */
    predicate Cleared()
      reads this
    {
      name == "" && gender == M && dob == "" && dod == "" && description == ""
    }

    constructor(parent: Person)
      ensures this.parent == parent && Cleared() && !isSubmitting && error == None && open
    {
      this.parent := parent;
      name, gender, dob, dod, description := "", M, "", "", "";
      isSubmitting, error, open := false, None, true;
    }

    /**
     * `handleSubmit` up to the request: a blank name is refused; without a token (null or
     * the empty string, both falsy for `!token`) the call fails with no response; otherwise
     * the child goes out.
     */
    method Submit(token: Option<string>) returns (request: Option<NewPerson>)
      modifies this`error, this`isSubmitting
      ensures JsText.IsBlank(name) ==> request == None && error == Some(NameRequired) && isSubmitting == old(isSubmitting)
      ensures !JsText.IsBlank(name) && !JsText.IsTruthy(token) ==>
        request == None && error == Some(MessageOr(NoResponse, Failed)) && !isSubmitting
      ensures !JsText.IsBlank(name) && JsText.IsTruthy(token) ==>
        request == Some(ChildPayload(parent, name, gender, dob, dod, description)) && error == None && isSubmitting
    {
      error := None;
      if JsText.Trim(name) == "" {
        error := Some(NameRequired);
        return None;
      }
      isSubmitting := true;
      if !JsText.IsTruthy(token) {
        error := Some(MessageOr(NoResponse, Failed));
        isSubmitting := false;
        return None;
      }
      request := Some(ChildPayload(parent, name, gender, dob, dod, description));
    }

    /**
     * The answer: success clears the fields (lines 67-72) and calls `onSuccess`, whose only
     * caller, the person sidebar, closes the modal (person-sidebar.tsx lines 454-456);
     * failure shows why and keeps the modal open.
     */
    method Complete(outcome: Outcome)
      modifies this`name, this`gender, this`dob, this`dod, this`description, this`error, this`isSubmitting, this`open
      ensures !isSubmitting
      ensures outcome.Answered? ==> Cleared() && !open && error == old(error)
      ensures !outcome.Answered? ==>
        && error == Some(MessageOr(outcome, Failed)) && open == old(open)
        && name == old(name) && gender == old(gender) && dob == old(dob) && dod == old(dod)
        && description == old(description)
    {
      if outcome.Answered? {
        name, gender, dob, dod, description := "", M, "", "", "";
        open := false;
      } else {
        error := Some(MessageOr(outcome, Failed));
      }
      isSubmitting := false;
    }

    /** `handleClose` (lines 83-93): ignored while submitting, otherwise fields and error cleared and the modal closed. */
    method Close()
      modifies this`name, this`gender, this`dob, this`dod, this`description, this`error, this`open
      ensures old(isSubmitting) ==>
        && name == old(name) && gender == old(gender) && dob == old(dob) && dod == old(dod)
        && description == old(description) && error == old(error) && open == old(open)
      ensures !old(isSubmitting) ==> Cleared() && error == None && !open
    {
      if !isSubmitting {
        name, gender, dob, dod, description := "", M, "", "", "";
        error, open := None, false;
      }
    }
  }
}
