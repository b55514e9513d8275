/**
 * The add-person modal of components/tree/add-person-modal.tsx: a person added on its own,
 * with a generation level typed as a number.
 */
module AddPerson {
  import opened Wrappers
  import JsText
  import opened TreeView
  import opened Requests

  const NameRequired: string := "Name is required"
  const Failed: string := "Failed to add person. Please try again."

  /** The level field's `parseInt(value) || 0` (line 147): the number read, 0 when there is none. */
  function LevelOf(text: string): (r: int)
    ensures JsText.ParseInt(text).Some? ==> r == JsText.ParseInt(text).value
    ensures JsText.ParseInt(text).None? ==> r == 0
  {
    NumberOrZero(JsText.ParseInt(text))
  }

  /** Typing the decimal text of a level sets that level; a blank field sets 0. */
  lemma LevelOfTyped(n: int, blank: string)
    requires JsText.IsBlank(blank)
    ensures LevelOf(JsText.IntToString(n)) == n
    ensures LevelOf(blank) == 0
  {
    JsText.ParseIntOfIntToString(n);
    JsText.ParseIntOfBlank(blank);
  }

  /** A number followed by other text ("3x") sets the number. */
  lemma LevelOfLeadingNumber(n: nat, rest: string)
    requires rest == [] || !JsText.IsDecimalDigit(rest[0])
    requires !(n == 0 && rest != [] && (rest[0] == 'x' || rest[0] == 'X'))
    ensures LevelOf(JsText.NatToString(n) + rest) == n
  {
    JsText.ParseIntLeadingNumber(n, rest);
  }

  /** The body sent by `handleSubmit` (lines 56-64): the typed fields, the level as it stands, no parents. */
  function PersonPayload(name: string, gender: Gender, level: int, dob: string, dod: string, description: string)
    : (r: NewPerson)
    ensures r.level == level && r.parentIds == None
    ensures r.name == JsText.Trim(name) && r.gender == gender
    ensures r.dob == JsText.OrNull(dob) && r.dod == JsText.OrNull(dod)
    ensures r.description == JsText.OrNull(JsText.Trim(description))
  {
    NewPersonOf(name, gender, level, dob, dod, description, None)
  }

  class Modal {
    var name: string
    var gender: Gender
    var level: int
    var dob: string
    var dod: string
    var description: string
    var isSubmitting: bool
    var error: Option<string>
    /** The owner's `isOpen`, cleared through `onClose`. */
    var open: bool

    /** The fields at their initial values. */
    predicate Cleared()
      reads this
    {
      name == "" && gender == M && level == 0 && dob == "" && dod == "" && description == ""
    }

    constructor()
      ensures Cleared() && !isSubmitting && error == None && open
    {
      name, gender, level, dob, dod, description := "", M, 0, "", "", "";
      isSubmitting, error, open := false, None, true;
    }

    /** Typing in the level field. */
    method TypeLevel(text: string)
      modifies this`level
      ensures level == LevelOf(text)
    {
      level := LevelOf(text);
    }

    /**
     * `handleSubmit` up to the request: a blank name is refused; without a token (null or
     * the empty string, both falsy for `!token`) the call fails with no response; otherwise
     * the person goes out.
     */
    method Submit(token: Option<string>) returns (request: Option<NewPerson>)
      modifies this`error, this`isSubmitting
      ensures JsText.IsBlank(name) ==> request == None && error == Some(NameRequired) && isSubmitting == old(isSubmitting)
      ensures !JsText.IsBlank(name) && !JsText.IsTruthy(token) ==>
        request == None && error == Some(MessageOr(NoResponse, Failed)) && !isSubmitting
      ensures !JsText.IsBlank(name) && JsText.IsTruthy(token) ==>
        request == Some(PersonPayload(name, gender, level, dob, dod, description)) && error == None && isSubmitting
    {
      error := None;
      if JsText.Trim(name) == "" {
        error := Some(NameRequired);
        return None;
      }
      isSubmitting := true;
      if !JsText.IsTruthy(token) {
        error := Some(MessageOr(NoResponse, Failed));
        isSubmitting := false;
        return None;
      }
      request := Some(PersonPayload(name, gender, level, dob, dod, description));
    }

    /** The answer: success clears the fields and closes the modal (lines 66-75); failure shows why. */
    method Complete(outcome: Outcome)
      modifies this`name, this`gender, this`level, this`dob, this`dod, this`description, this`error,
               this`isSubmitting, this`open
      ensures !isSubmitting
      ensures outcome.Answered? ==> Cleared() && !open && error == old(error)
      ensures !outcome.Answered? ==>
        && error == Some(MessageOr(outcome, Failed)) && open == old(open)
        && name == old(name) && gender == old(gender) && level == old(level) && dob == old(dob) && dod == old(dod)
        && description == old(description)
    {
      if outcome.Answered? {
        name, gender, level, dob, dod, description := "", M, 0, "", "", "";
        open := false;
      } else {
        error := Some(MessageOr(outcome, Failed));
      }
      isSubmitting := false;
    }

    /** `handleClose` (lines 84-95): ignored while submitting, otherwise fields and error cleared and the modal closed. */
    method Close()
      modifies this`name, this`gender, this`level, this`dob, this`dod, this`description, this`error, this`open
      ensures old(isSubmitting) ==>
        && name == old(name) && gender == old(gender) && level == old(level) && dob == old(dob) && dod == old(dod)
        && description == old(description) && error == old(error) && open == old(open)
      ensures !old(isSubmitting) ==> Cleared() && error == None && !open
    {
      if !isSubmitting {
        name, gender, level, dob, dod, description := "", M, 0, "", "", "";
        error, open := None, false;
      }
    }
  }
}
