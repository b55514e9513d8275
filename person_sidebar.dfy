/**
 * The person sidebar of components/tree/person-sidebar.tsx: the parents and children read
 * off the tree's links, the edit form filled from the person, and the checks and payload of
 * a save.
 */
module PersonSidebar {
  import opened Wrappers
  import JsText
  import opened TreeGraph
  import opened TreeView

  // ---------------------------------------------------------------------------------------
  // Relationships (lines 161-168)
  // ---------------------------------------------------------------------------------------

  /** `parents`: the sources of the links into `name`, in link order, repeats kept. */
  function Parents(links: seq<Link<string>>, name: string): (r: seq<string>)
    ensures |r| <= |links|
  {
    if links == [] then []
    else
      var l := links[|links| - 1];
      Parents(links[..|links| - 1], name) + (if l.target == name then [l.source] else [])
  }

  /** `children`: the targets of the links out of `name`, in link order, repeats kept. */
  function Children(links: seq<Link<string>>, name: string): (r: seq<string>)
    ensures |r| <= |links|
  {
    if links == [] then []
    else
      var l := links[|links| - 1];
      Children(links[..|links| - 1], name) + (if l.source == name then [l.target] else [])
  }

  /** How many times `x` occurs in `s`. */
  function Occurrences(s: seq<string>, x: string): nat {
    if s == [] then 0 else Occurrences(s[..|s| - 1], x) + (if s[|s| - 1] == x then 1 else 0)
  }

  /** How many links go from `a` to `b`. */
  function LinkCount(links: seq<Link<string>>, a: string, b: string): nat {
    if links == [] then 0 else LinkCount(links[..|links| - 1], a, b) + (if links[|links| - 1] == Link(a, b) then 1 else 0)
  }

  /** Counting in a list with one more element at the end. */
  lemma OccurrencesSnoc(s: seq<string>, t: seq<string>, x: string)
    requires |t| <= 1
    ensures Occurrences(s + t, x) == Occurrences(s, x) + (if t != [] && t[0] == x then 1 else 0)
  {
    if t != [] {
      assert (s + t)[..|s + t| - 1] == s;
    } else {
      assert s + t == s;
    }
  }

  /** `x` is listed among the parents of `y` once per link from `x` to `y`. */
  lemma {:induction false} ParentsCount(links: seq<Link<string>>, x: string, y: string)
    ensures Occurrences(Parents(links, y), x) == LinkCount(links, x, y)
  {
    if links != [] {
      var front, l := links[..|links| - 1], links[|links| - 1];
      ParentsCount(front, x, y);
      OccurrencesSnoc(Parents(front, y), if l.target == y then [l.source] else [], x);
    }
  }

  /** `y` is listed among the children of `x` once per link from `x` to `y`. */
  lemma {:induction false} ChildrenCount(links: seq<Link<string>>, x: string, y: string)
    ensures Occurrences(Children(links, x), y) == LinkCount(links, x, y)
  {
    if links != [] {
      var front, l := links[..|links| - 1], links[|links| - 1];
      ChildrenCount(front, x, y);
      OccurrencesSnoc(Children(front, x), if l.source == x then [l.target] else [], y);
    }
  }

  /** The two lists agree: `x` is a parent of `y` exactly as often as `y` is a child of `x`. */
  lemma ParentChildSymmetry(links: seq<Link<string>>, x: string, y: string)
    ensures Occurrences(Parents(links, y), x) == Occurrences(Children(links, x), y)
  {
    ParentsCount(links, x, y);
    ChildrenCount(links, x, y);
  }

  /** Something occurs exactly when it is counted, and a link is there exactly when it is counted. */
  lemma {:induction false} CountsPositive(s: seq<string>, x: string, links: seq<Link<string>>, l: Link<string>)
    ensures x in s <==> Occurrences(s, x) > 0
    ensures l in links <==> LinkCount(links, l.source, l.target) > 0
    decreases |s| + |links|
  {
    if s != [] {
      CountsPositive(s[..|s| - 1], x, [], l);
      assert s == s[..|s| - 1] + [s[|s| - 1]];
    }
    if links != [] {
      CountsPositive([], x, links[..|links| - 1], l);
      assert links == links[..|links| - 1] + [links[|links| - 1]];
    }
  }

  /** `x` is shown as a parent of `y`, and `y` as a child of `x`, exactly when the link from `x` to `y` exists. */
  lemma RelativesMember(links: seq<Link<string>>, x: string, y: string)
    ensures x in Parents(links, y) <==> Link(x, y) in links
    ensures y in Children(links, x) <==> Link(x, y) in links
  {
    ParentsCount(links, x, y);
    ChildrenCount(links, x, y);
    CountsPositive(Parents(links, y), x, links, Link(x, y));
    CountsPositive(Children(links, x), y, [], Link(x, y));
  }

  // ---------------------------------------------------------------------------------------
  // The edit form and its save (lines 50-132)
  // ---------------------------------------------------------------------------------------

  datatype EditForm = EditForm(name: string, gender: Gender, level: string, dob: string, dod: string, description: string)

  /** The form before any person is shown. */
  const EmptyForm: EditForm := EditForm("", M, "", "", "", "")

  /** The form filled from a person: missing texts become "", the level its decimal text. */
  function FormOf(p: Person): (f: EditForm)
    ensures f.name == p.name && f.gender == p.gender
    ensures f.dob == JsText.OrElse(p.dob, "") && f.dod == JsText.OrElse(p.dod, "")
    ensures f.description == JsText.OrElse(p.description, "")
  {
    EditForm(p.name, p.gender, JsText.IntToString(p.level), JsText.OrElse(p.dob, ""), JsText.OrElse(p.dod, ""),
             JsText.OrElse(p.description, ""))
  }

  /** The level text of the form reads back as the person's level. */
  lemma FormLevel(p: Person)
    ensures JsText.ParseInt(FormOf(p).level) == Some(p.level)
  {
    JsText.ParseIntOfIntToString(p.level);
  }

  const LevelRequired: string := "Generation Level is required"
  const LevelNotPositive: string := "Generation Level must be a positive number"
  const SaveFailed: string := "Failed to update person. Please try again."

  /** The body of `updatePerson`. */
  datatype Update = Update(name: string, gender: Gender, level: int, dob: Option<string>, dod: Option<string>, description: Option<string>)

  /** What a save does with the form: refuse it with a message, or send an update. */
  datatype SaveCheck = Refuse(message: string) | Send(update: Update)

  /** The level check and the payload of `handleSave` (lines 82-107). */
  function SaveRequest(f: EditForm): (r: SaveCheck)
    ensures r == Refuse(LevelRequired) <==> JsText.IsBlank(f.level)
    ensures r == Refuse(LevelNotPositive) <==>
      !JsText.IsBlank(f.level) && (JsText.ParseInt(f.level).None? || JsText.ParseInt(f.level).value <= 0)
    ensures r.Send? ==> Some(r.update.level) == JsText.ParseInt(f.level) && r.update.level > 0
    ensures r.Send? ==> r.update.name == f.name && r.update.gender == f.gender
    ensures r.Send? ==> r.update.dob == JsText.OrNull(f.dob) && r.update.dod == JsText.OrNull(f.dod)
    ensures r.Send? ==> r.update.description == JsText.OrNull(f.description)
  {
    if f.level == "" || JsText.Trim(f.level) == "" then Refuse(LevelRequired)
    else
      var level := JsText.ParseInt(f.level);
      if level.None? || level.value <= 0 then Refuse(LevelNotPositive)
      else Send(Update(f.name, f.gender, level.value, JsText.OrNull(f.dob), JsText.OrNull(f.dod), JsText.OrNull(f.description)))
  }

  /**
   * Whether the Save button can be pressed (line 323): no save is running and the name has
   * a character other than white space.
   */
  function SaveEnabled(isSaving: bool, f: EditForm): (r: bool)
    ensures r <==> !isSaving && exists i | 0 <= i < |f.name| :: !JsText.IsJsSpace(f.name[i])
  {
    JsText.BlankIsAllSpace(f.name);
    !isSaving && !JsText.IsBlank(f.name)
  }

  /** A save pressed on the enabled button that passes the level checks sends a name that is not blank. */
  lemma SaveEnabledSendsName(f: EditForm)
    requires SaveEnabled(false, f) && SaveRequest(f).Send?
    ensures SaveRequest(f).update.name == f.name
    ensures exists i | 0 <= i < |SaveRequest(f).update.name| :: !JsText.IsJsSpace(SaveRequest(f).update.name[i])
  {
  }

  /** A text that starts with something other than white space is not blank. */
  lemma NotBlankOfFirst(s: string)
    requires s != [] && !JsText.IsJsSpace(s[0])
    ensures !JsText.IsBlank(s)
  {
    JsText.BlankIsAllSpace(s);
  }

  /** A level typed as a positive number followed by other text ("3x") is read as that number. */
  lemma SaveLeadingNumber(f: EditForm, n: nat, rest: string)
    requires n > 0 && f.level == JsText.NatToString(n) + rest
    requires rest == [] || !JsText.IsDecimalDigit(rest[0])
    ensures SaveRequest(f).Send? && SaveRequest(f).update.level == n
  {
    JsText.ParseIntLeadingNumber(n, rest);
    NotBlankOfFirst(f.level);
  }

  /**
   * Saving the form of an untouched person whose level is positive sends the person's own
   * values back; a level of 0 or below is refused.
   */
  lemma SaveUntouched(p: Person)
    requires Normal(p)
    ensures p.level > 0 ==> SaveRequest(FormOf(p)) == Send(Update(p.name, p.gender, p.level, p.dob, p.dod, p.description))
    ensures p.level <= 0 ==> SaveRequest(FormOf(p)) == Refuse(LevelNotPositive)
  {
    var f := FormOf(p);
    FormLevel(p);
    if JsText.IsBlank(f.level) {
      JsText.ParseIntOfBlank(f.level);
    }
  }

  /** The sidebar's edit state; `person` is the selected person it shows. */
  class Sidebar {
    var person: Option<Person>
    var editForm: EditForm
    var isEditing: bool
    var isSaving: bool
    var error: Option<string>

    constructor()
      ensures person == None && editForm == EmptyForm && !isEditing && !isSaving && error == None
    {
      person, editForm, isEditing, isSaving, error := None, EmptyForm, false, false, None;
    }

    /** A new person (the effect at lines 61-74): the form is refilled, editing stops, the error clears. */
    method PersonChanged(p: Option<Person>)
      modifies this`person, this`editForm, this`isEditing, this`error
      ensures person == p
      ensures p.Some? ==> editForm == FormOf(p.value) && !isEditing && error == None
      ensures p.None? ==> editForm == old(editForm) && isEditing == old(isEditing) && error == old(error)
    {
      person := p;
      if p.Some? {
        editForm, isEditing, error := FormOf(p.value), false, None;
      }
    }

    /** The edit button. */
    method StartEdit()
      modifies this`isEditing
      ensures isEditing
    {
      isEditing := true;
    }

    /** Typing in the form. */
    method EditFields(f: EditForm)
      modifies this`editForm
      ensures editForm == f
    {
      editForm := f;
    }

    /**
     * `handleSave` up to the request: a refused form sets its message; without a token (null
     * or the empty string, both falsy for `!token`) the save fails at once; otherwise the
     * update goes out, addressed to the shown person's id
     * (line 100), with `isSaving` set. The sidebar renders nothing without a person (line 75),
     * so there is always one to save. The handler does not check the name itself: the button
     * is disabled unless `SaveEnabled` holds.
     */
    method Save(token: Option<string>) returns (request: Option<(int, Update)>)
      requires person.Some?
      modifies this`error, this`isSaving
      ensures SaveRequest(old(editForm)).Refuse? ==>
        request == None && error == Some(SaveRequest(old(editForm)).message) && isSaving == old(isSaving)
      ensures SaveRequest(old(editForm)).Send? && !JsText.IsTruthy(token) ==> request == None && error == Some(SaveFailed) && !isSaving
      ensures SaveRequest(old(editForm)).Send? && JsText.IsTruthy(token) ==>
        request == Some((person.value.personId, SaveRequest(old(editForm)).update)) && error == None && isSaving
    {
      var check := SaveRequest(editForm);
      error := None;
      if check.Refuse? {
        error := Some(check.message);
        return None;
      }
      isSaving := true;
      if !JsText.IsTruthy(token) {
        error := Some(SaveFailed);
        isSaving := false;
        return None;
      }
      request := Some((person.value.personId, check.update));
    }

    /** The answer to the update: success leaves editing mode, failure shows the message. */
    method SaveDone(succeeded: bool)
      modifies this`isEditing, this`error, this`isSaving
      ensures !isSaving
      ensures succeeded ==> !isEditing && error == None
      ensures !succeeded ==> isEditing == old(isEditing) && error == Some(SaveFailed)
    {
      if succeeded {
        isEditing, error := false, None;
      } else {
        error := Some(SaveFailed);
      }
      isSaving := false;
    }

    /** `handleCancelEdit`: the form is refilled from the person as on a new person. */
    method CancelEdit()
      modifies this`editForm, this`isEditing, this`error
      requires person.Some?
      ensures editForm == FormOf(person.value) && !isEditing && error == None
    {
      editForm, isEditing, error := FormOf(person.value), false, None;
    }
  }
}
