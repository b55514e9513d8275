/**
 * The change-password dialog of components/user-changepassword-dialog.tsx: four checks on
 * the three fields in a fixed order, the request, and the clearing of the fields.
 */
module ChangePassword {
  import opened Wrappers
  import JsText
  import opened Requests

  const FillAll: string := "Vui lòng điền đầy đủ thông tin"
  const Mismatch: string := "Mật khẩu mới không khớp"
  const TooShort: string := "Mật khẩu mới phải có ít nhất 6 ký tự"
  const SameAsOld: string := "Mật khẩu mới không được trùng với mật khẩu cũ"
  const NotSignedIn: string := "Bạn chưa đăng nhập"
  const Failed: string := "Đổi mật khẩu thất bại. Vui lòng kiểm tra lại mật khẩu cũ."

  /** The shortest new password accepted. */
  const MinLength: nat := 6

  /**
   * The checks of `handleSubmit` (lines 38-56), the first that fails giving its message:
   * all three filled, new equal to its confirmation, new long enough, new unlike old.
   */
  function Check(oldPassword: string, newPassword: string, confirm: string): (r: Option<string>)
    ensures r.None? <==>
      && oldPassword != "" && newPassword != "" && confirm != ""
      && newPassword == confirm && |newPassword| >= MinLength && oldPassword != newPassword
    ensures r == Some(FillAll) <==> oldPassword == "" || newPassword == "" || confirm == ""
    ensures r == Some(Mismatch) <==> oldPassword != "" && newPassword != "" && confirm != "" && newPassword != confirm
    ensures r == Some(TooShort) <==>
      oldPassword != "" && newPassword != "" && newPassword == confirm && |newPassword| < MinLength
    ensures r == Some(SameAsOld) <==>
      newPassword != "" && newPassword == confirm && |newPassword| >= MinLength && oldPassword == newPassword
  {
    if oldPassword == "" || newPassword == "" || confirm == "" then Some(FillAll)
    else if newPassword != confirm then Some(Mismatch)
    else if |newPassword| < MinLength then Some(TooShort)
    else if oldPassword == newPassword then Some(SameAsOld)
    else None
  }

  /** The message shown when the request fails: the server's `detail`, else the fixed text. */
  function FailureMessage(o: Outcome): (m: string)
    requires !o.Answered?
    ensures o.Detail().Some? && o.Detail().value != "" ==> m == o.Detail().value
    ensures o.Detail().None? || o.Detail().value == "" ==> m == Failed
  {
    JsText.OrElse(o.Detail(), Failed)
  }

  class Dialog {
    var oldPassword: string
    var newPassword: string
    var confirmPassword: string
    var isLoading: bool
    var error: string
    /** The `open` the dialog's owner holds, closed through `onOpenChange(false)`. */
    var open: bool

    constructor()
      ensures oldPassword == "" && newPassword == "" && confirmPassword == "" && !isLoading && error == "" && open
    {
      oldPassword, newPassword, confirmPassword, isLoading, error, open := "", "", "", false, "", true;
    }

    /**
     * `handleSubmit` up to the request: a failed check shows its message; without a token
     * (null or the empty string, both falsy for `!token`) the dialog says so; otherwise old
     * and new password go out with `isLoading` set.
     */
    method Submit(token: Option<string>) returns (request: Option<(string, string)>)
      modifies this`error, this`isLoading
      ensures var c := Check(oldPassword, newPassword, confirmPassword);
        && (c.Some? ==> request == None && error == c.value && isLoading == old(isLoading))
        && (c.None? && !JsText.IsTruthy(token) ==> request == None && error == NotSignedIn && !isLoading)
        && (c.None? && JsText.IsTruthy(token) ==> request == Some((oldPassword, newPassword)) && error == "" && isLoading)
    {
      error := "";
      var c := Check(oldPassword, newPassword, confirmPassword);
      if c.Some? {
        error := c.value;
        return None;
      }
      isLoading := true;
      if !JsText.IsTruthy(token) {
        error := NotSignedIn;
        isLoading := false;
        return None;
      }
      request := Some((oldPassword, newPassword));
    }

    /**
     * The answer: success closes the dialog and clears the three fields (then signs out,
     * which is not part of this model); failure shows the server's detail or the fixed text.
     */
    method Complete(outcome: Outcome)
      modifies this`oldPassword, this`newPassword, this`confirmPassword, this`error, this`isLoading, this`open
      ensures !isLoading
      ensures outcome.Answered? ==>
        !open && oldPassword == "" && newPassword == "" && confirmPassword == "" && error == old(error)
      ensures !outcome.Answered? ==>
        error == FailureMessage(outcome) && open == old(open)
        && oldPassword == old(oldPassword) && newPassword == old(newPassword) && confirmPassword == old(confirmPassword)
    {
      if outcome.Answered? {
        open := false;
        oldPassword, newPassword, confirmPassword := "", "", "";
      } else {
        error := FailureMessage(outcome);
      }
      isLoading := false;
    }

    /** `handleClose`: the fields and the error cleared, the dialog closed. */
    method Close()
      modifies this`oldPassword, this`newPassword, this`confirmPassword, this`error, this`open
      ensures oldPassword == "" && newPassword == "" && confirmPassword == "" && error == "" && !open
    {
      oldPassword, newPassword, confirmPassword, error := "", "", "", "";
      open := false;
    }
  }
}
