/**
 * The add-relationship modal of components/tree/add-relationship-modal.tsx: two person ids
 * typed as text, checked, parsed and sent as a new parent-child link.
 */
module AddRelationship {
  import opened Wrappers
  import JsText
  import opened Requests

  const SelectBoth: string := "Please select both parent and child"
  const SamePerson: string := "Parent and child cannot be the same person"
  const NotFound: string := "ParentId or childId not found"
  const Failed: string := "Failed to create relationship. Please try again."

  /** The checks of `handleSubmit` (lines 41-49): both ids typed, and not the same text. */
  function Check(parentId: string, childId: string): (r: Option<string>)
    ensures r.None? <==> parentId != "" && childId != "" && parentId != childId
    ensures r == Some(SelectBoth) <==> parentId == "" || childId == ""
    ensures r == Some(SamePerson) <==> parentId != "" && parentId == childId
  {
    if parentId == "" || childId == "" then Some(SelectBoth)
    else if parentId == childId then Some(SamePerson)
    else None
  }

  /** The ids sent (line 56): `parseInt` of each text, `None` where it is NaN. */
  datatype Link = Link(parentId: Option<int>, childId: Option<int>)

  function LinkOf(parentId: string, childId: string): Link {
    Link(JsText.ParseInt(parentId), JsText.ParseInt(childId))
  }

  /** Why the request failed (lines 66-70): a 404 names the ids, anything else shows the server's message or a fixed text. */
  function FailureMessage(o: Outcome): (m: string)
    requires !o.Answered?
    ensures o.Status() == Some(404) ==> m == NotFound
    ensures o.Status() != Some(404) ==> m == JsText.OrElse(o.Message(), Failed)
  {
    if o.Status() == Some(404) then NotFound else JsText.OrElse(o.Message(), Failed)
  }

  /** Ids typed as the decimal text of two different people are accepted and sent as they are. */
  lemma SendsCanonicalIds(a: nat, b: nat)
    requires a != b
    ensures Check(JsText.NatToString(a), JsText.NatToString(b)).None?
    ensures LinkOf(JsText.NatToString(a), JsText.NatToString(b)) == Link(Some(a), Some(b))
  {
    JsText.ParseIntOfNonNegative(a);
    JsText.ParseIntOfNonNegative(b);
  }

  /** A leading zero does not change the value of a run of digits. */
  lemma {:induction false} LeadingZero(ds: string)
    requires forall i :: 0 <= i < |ds| ==> JsText.IsDecimalDigit(ds[i])
    ensures forall i :: 0 <= i < |"0" + ds| ==> JsText.IsDecimalDigit(("0" + ds)[i])
    ensures JsText.DigitsValue("0" + ds, 10) == JsText.DigitsValue(ds, 10)
  {
    var z := "0" + ds;
    assert forall i :: 0 <= i < |z| ==> JsText.IsDecimalDigit(z[i]) by {
      assert forall i :: 1 <= i < |z| ==> z[i] == ds[i - 1];
    }
    if ds == [] {
      assert z[..0] == [];
    } else {
      var front := ds[..|ds| - 1];
      assert z[..|z| - 1] == "0" + front;
      assert z[|z| - 1] == ds[|ds| - 1];
      LeadingZero(front);
    }
  }

  /** `parseInt` reads a run of digits with a leading zero as the run itself. */
  lemma ParseLeadingZero(ds: string)
    requires ds != [] && forall i :: 0 <= i < |ds| ==> JsText.IsDecimalDigit(ds[i])
    ensures JsText.ParseInt("0" + ds) == Some(JsText.DigitsValue(ds, 10) as int)
  {
    LeadingZero(ds);
    JsText.ParseIntOfDigits("0" + ds);
  }

  /**
   * The same-person check compares the texts, not the numbers: a person's id and the same
   * id with a leading zero pass it and are both sent as that person.
   */
  lemma SameIdPassesCheck(n: nat)
    ensures Check(JsText.NatToString(n), "0" + JsText.NatToString(n)).None?
    ensures LinkOf(JsText.NatToString(n), "0" + JsText.NatToString(n)) == Link(Some(n), Some(n))
  {
    var ds := JsText.NatToString(n);
    assert Check(ds, "0" + ds).None? by {
      assert |"0" + ds| != |ds|;
    }
    assert JsText.ParseInt(ds) == Some(n) by {
      JsText.DigitsValueOfNatToString(n);
      JsText.ParseIntOfDigits(ds);
    }
    assert JsText.ParseInt("0" + ds) == Some(n) by {
      JsText.DigitsValueOfNatToString(n);
      ParseLeadingZero(ds);
    }
  }

  class Modal {
    var parentId: string
    var childId: string
    var isSubmitting: bool
    var error: Option<string>
    /** The owner's `isOpen`, cleared through `onClose`. */
    var open: bool

    constructor()
      ensures parentId == "" && childId == "" && !isSubmitting && error == None && open
    {
      parentId, childId, isSubmitting, error, open := "", "", false, None, true;
    }

    /**
     * `handleSubmit` up to the request: a failed check shows its message; without a token
     * (null or the empty string, both falsy for `!token`) the call fails with no response;
     * otherwise the parsed ids go out.
     */
    method Submit(token: Option<string>) returns (request: Option<Link>)
      modifies this`error, this`isSubmitting
      ensures var c := Check(parentId, childId);
        && (c.Some? ==> request == None && error == c && isSubmitting == old(isSubmitting))
        && (c.None? && !JsText.IsTruthy(token) ==> request == None && error == Some(FailureMessage(NoResponse)) && !isSubmitting)
        && (c.None? && JsText.IsTruthy(token) ==> request == Some(LinkOf(parentId, childId)) && error == None && isSubmitting)
    {
      error := None;
      var c := Check(parentId, childId);
      if c.Some? {
        error := c;
        return None;
      }
      isSubmitting := true;
      if !JsText.IsTruthy(token) {
        error := Some(FailureMessage(NoResponse));
        isSubmitting := false;
        return None;
      }
      request := Some(LinkOf(parentId, childId));
    }

    /** The answer: success clears both ids and closes the modal; failure shows why. */
    method Complete(outcome: Outcome)
      modifies this`parentId, this`childId, this`error, this`isSubmitting, this`open
      ensures !isSubmitting
      ensures outcome.Answered? ==> parentId == "" && childId == "" && !open && error == old(error)
      ensures !outcome.Answered? ==>
        error == Some(FailureMessage(outcome)) && parentId == old(parentId) && childId == old(childId) && open == old(open)
    {
      if outcome.Answered? {
        parentId, childId := "", "";
        open := false;
      } else {
        error := Some(FailureMessage(outcome));
      }
      isSubmitting := false;
    }

    /** `handleClose` (lines 76-83): ignored while submitting, otherwise everything cleared and the modal closed. */
    method Close()
      modifies this`parentId, this`childId, this`error, this`open
      ensures old(isSubmitting) ==>
        parentId == old(parentId) && childId == old(childId) && error == old(error) && open == old(open)
      ensures !old(isSubmitting) ==> parentId == "" && childId == "" && error == None && !open
    {
      if !isSubmitting {
        parentId, childId, error := "", "", None;
        open := false;
      }
    }
  }
}
