/**
 * What the dialogs and forms send and what comes back. Every API call is awaited inside a
 * `try`; the model splits each handler at that point, so a request is returned to the
 * caller and its outcome is handed back to a separate method.
 */
module Requests {
  import opened Wrappers
  import JsText
  import opened TreeView

  /**
   * How an awaited call ended, as a `catch` block sees it: a response, an error carrying
   * the server's response (`error.response`) with its status and the `detail` and
   * `message` of its body, or an error with no response at all (no connection, or the
   * "Authentication required" error thrown when there is no token).
   */
  datatype Outcome =
    | Answered(message: Option<string>)
    | Refused(status: int, detail: Option<string>, message: Option<string>)
    | NoResponse
  {
    /** `error.response?.status` */
    function Status(): Option<int> {
      if Refused? then Some(status) else None
    }

    /** `error.response?.data?.detail` */
    function Detail(): Option<string> {
      if Refused? then detail else None
    }

    /** `error.response?.data?.message` */
    function Message(): Option<string> {
      if Refused? then message else None
    }
  }

  /**
   * `error.response?.data?.message || fallback`: the server's message when it sent a
   * non-empty one, else the dialog's fixed text (add-child line 77, add-person line 78).
   */
  function MessageOr(o: Outcome, fallback: string): (m: string)
    requires !o.Answered?
    ensures o.Message().Some? && o.Message().value != "" ==> m == o.Message().value
    ensures o.Message().None? || o.Message().value == "" ==> m == fallback
  {
    JsText.OrElse(o.Message(), fallback)
  }

  /** The body of `createPerson`: `parentIds` is `null` for a person added on its own. */
  datatype NewPerson = NewPerson(
    name: string, gender: Gender, level: int, dob: Option<string>, dod: Option<string>,
    description: Option<string>, parentIds: Option<seq<int>>)

  /**
   * The optional texts of a new person as both person dialogs send them: the name and the
   * description trimmed, an empty date or an empty trimmed description as `null`.
   */
  function NewPersonOf(name: string, gender: Gender, level: int, dob: string, dod: string, description: string,
                       parentIds: Option<seq<int>>): (r: NewPerson)
    ensures r.name == JsText.Trim(name) && r.gender == gender && r.level == level && r.parentIds == parentIds
    ensures (r.dob.None? <==> dob == "") && (r.dod.None? <==> dod == "")
    ensures r.dob.Some? ==> r.dob.value == dob
    ensures r.dod.Some? ==> r.dod.value == dod
    ensures r.description.None? <==> JsText.IsBlank(description)
    ensures r.description.Some? ==> r.description.value == JsText.Trim(description)
  {
    NewPerson(JsText.Trim(name), gender, level, JsText.OrNull(dob), JsText.OrNull(dod),
              JsText.OrNull(JsText.Trim(description)), parentIds)
  }

  /** Trimming is idempotent, so a sent name or description is already trimmed. */
  lemma TrimTwice(s: string)
    ensures JsText.Trim(JsText.Trim(s)) == JsText.Trim(s)
  {
    var t := JsText.Trim(s);
    var u := JsText.TrimStart(t);
    if t != [] {
      assert !JsText.IsJsSpace(t[0]);
      assert u == t;
    }
  }

  /** A new person's name and description are never blank and never carry outer white space. */
  lemma NewPersonTrimmed(name: string, gender: Gender, level: int, dob: string, dod: string, description: string,
                         parentIds: Option<seq<int>>)
    requires !JsText.IsBlank(name)
    ensures var r := NewPersonOf(name, gender, level, dob, dod, description, parentIds);
      && r.name != "" && JsText.Trim(r.name) == r.name
      && (r.description.Some? ==> r.description.value != "" && JsText.Trim(r.description.value) == r.description.value)
  {
    TrimTwice(name);
    TrimTwice(description);
  }
}
