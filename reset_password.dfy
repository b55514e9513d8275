/**
 * The two-step password reset of components/reset-password-form.tsx: an OTP is requested
 * for an email, then the OTP and a new password are sent; a resend countdown and the
 * count of remaining attempts read from the server's message go with it.
 */
module ResetPassword {
  import opened Wrappers
  import JsText
  import opened Requests

  const EnterEmail: string := "Please enter your email address"
  const OtpSent: string := "OTP sent to your email"
  const NoSuchUser: string := "User with this email does not exist"
  const TooManyRequests: string := "Too many requests. Please try again later."
  const Generic: string := "An error occurred. Please try again."
  const Network: string := "Network error. Please check your connection."
  const FillAll: string := "Please fill in all fields"
  const Mismatch: string := "Passwords do not match"
  const TooShort: string := "Password must be at least 6 characters long"
  const ResetDoneText: string := "Password reset successfully"
  const InvalidOtp: string := "Invalid OTP or request"
  const TooManyAttempts: string := "Too many failed attempts"

  /** The countdown, in seconds, before another OTP can be asked for. */
  const ResendDelay: nat := 60
  /** The attempts a fresh OTP allows. */
  const FreshAttempts: int := 5
  /** The shortest new password accepted (the field's placeholder says 8; the check is 6). */
  const MinLength: nat := 6

  // ---------------------------------------------------------------------------------------
  // Messages
  // ---------------------------------------------------------------------------------------

  /** Why an OTP request failed (lines 59-73): by status, with the server's detail first where it is used. */
  function SendFailure(o: Outcome): (m: string)
    requires !o.Answered?
    ensures o.NoResponse? ==> m == Network
    ensures o.Refused? && o.status == 404 ==> m == JsText.OrElse(o.detail, NoSuchUser)
    ensures o.Refused? && o.status == 429 ==> m == JsText.OrElse(o.detail, TooManyRequests)
    ensures o.Refused? && o.status != 404 && o.status != 429 ==> m == Generic
  {
    match o
    case NoResponse => Network
    case Refused(status, detail, _) =>
      if status == 404 then JsText.OrElse(detail, NoSuchUser)
      else if status == 429 then JsText.OrElse(detail, TooManyRequests)
      else Generic
  }

  /** The checks before a reset (lines 85-98), the first that fails giving its message. */
  function ResetCheck(otp: string, newPassword: string, confirm: string): (r: Option<string>)
    ensures r.None? <==> otp != "" && newPassword != "" && newPassword == confirm && |newPassword| >= MinLength
    ensures r == Some(FillAll) <==> otp == "" || newPassword == "" || confirm == ""
    ensures r == Some(Mismatch) <==> otp != "" && newPassword != "" && confirm != "" && newPassword != confirm
    ensures r == Some(TooShort) <==> otp != "" && newPassword != "" && newPassword == confirm && |newPassword| < MinLength
  {
    if otp == "" || newPassword == "" || confirm == "" then Some(FillAll)
    else if newPassword != confirm then Some(Mismatch)
    else if |newPassword| < MinLength then Some(TooShort)
    else None
  }

  // ---------------------------------------------------------------------------------------
  // The remaining attempts in a refusal: /(\d+) attempts remaining/ (lines 119-125)
  // ---------------------------------------------------------------------------------------

  const Attempts: string := "attempts remaining"
  /** What must follow the digits for the pattern to match. */
  const AfterDigits: string := " attempts remaining"

  /** The run of decimal digits starting at `p`. */
  function DigitsAt(s: string, p: nat): (ds: string)
    requires p <= |s|
    ensures forall i :: 0 <= i < |ds| ==> JsText.IsDecimalDigit(ds[i])
  {
    JsText.DigitPrefix(s[p..], 10)
  }

  /**
   * The pattern matches at `p`: a digit starts there and the whole run of digits is
   * followed by " attempts remaining". (Backtracking to a shorter run cannot help, since
   * a shorter run is followed by a digit, not a space.)
   */
  predicate MatchesAt(s: string, p: nat) {
    p < |s| && JsText.IsDecimalDigit(s[p]) && JsText.OccursAt(s, AfterDigits, p + |DigitsAt(s, p)|)
  }

  /** The leftmost position at or after `i` where the pattern matches. */
  function FirstMatchFrom(s: string, i: nat): (r: Option<nat>)
    requires i <= |s|
    ensures r.Some? ==> i <= r.value < |s| && MatchesAt(s, r.value)
    ensures r.Some? ==> forall q :: i <= q < r.value ==> !MatchesAt(s, q)
    ensures r.None? ==> forall q :: i <= q ==> !MatchesAt(s, q)
    decreases |s| - i
  {
    if i == |s| then None
    else if MatchesAt(s, i) then Some(i)
    else FirstMatchFrom(s, i + 1)
  }

  /** `match[1]`: the digits of the leftmost match, when there is one. */
  function AttemptsGroup(s: string): (g: Option<string>)
    ensures g.Some? <==> exists p :: MatchesAt(s, p)
  {
    var p := FirstMatchFrom(s, 0);
    if p.Some? then Some(DigitsAt(s, p.value)) else None
  }

  /** `parseInt(match[1])`, when the pattern matches. */
  function RemainingIn(detail: string): Option<int> {
    match AttemptsGroup(detail)
    case None => None
    case Some(g) => JsText.ParseInt(g)
  }

  /** The whole answer to a refused or failed reset: the message and the attempts left. */
  datatype ResetFailure = ResetFailure(message: string, attempts: int)

  /**
   * Lines 111-134: a 400 shows the detail or a fixed text; a 429 whose detail mentions
   * "attempts remaining" shows that detail and, when the pattern matches, takes the count
   * from it; any other 429 shows the detail or a fixed text; everything else is generic.
   */
  function ResetRefused(o: Outcome, attempts: int): (r: ResetFailure)
    requires !o.Answered?
    ensures o.NoResponse? ==> r == ResetFailure(Network, attempts)
    ensures o.Refused? && o.status == 400 ==> r == ResetFailure(JsText.OrElse(o.detail, InvalidOtp), attempts)
    ensures o.Refused? && o.status != 400 && o.status != 429 ==> r == ResetFailure(Generic, attempts)
    ensures o.Refused? && o.status == 429 && o.detail.Some? && JsText.Includes(o.detail.value, Attempts) ==>
      r.message == o.detail.value
      && r.attempts == (if RemainingIn(o.detail.value).Some? then RemainingIn(o.detail.value).value else attempts)
    ensures o.Refused? && o.status == 429 && (o.detail.None? || !JsText.Includes(o.detail.value, Attempts)) ==>
      r == ResetFailure(JsText.OrElse(o.detail, TooManyAttempts), attempts)
  {
    match o
    case NoResponse => ResetFailure(Network, attempts)
    case Refused(status, detail, _) =>
      if status == 400 then ResetFailure(JsText.OrElse(detail, InvalidOtp), attempts)
      else if status == 429 then
        if detail.Some? && detail.value != "" && JsText.Includes(detail.value, Attempts) then
          var remaining := RemainingIn(detail.value);
          ResetFailure(detail.value, if remaining.Some? then remaining.value else attempts)
        else ResetFailure(JsText.OrElse(detail, TooManyAttempts), attempts)
      else ResetFailure(Generic, attempts)
  }

  /** The count read from a detail, when the pattern matches, is that of the leftmost match's digits. */
  lemma RemainingOfMatch(detail: string)
    ensures RemainingIn(detail).Some? <==> exists p :: MatchesAt(detail, p)
    ensures RemainingIn(detail).Some? ==>
      var p := FirstMatchFrom(detail, 0).value;
      RemainingIn(detail).value == JsText.DigitsValue(DigitsAt(detail, p), 10)
  {
    var p := FirstMatchFrom(detail, 0);
    if p.Some? {
      var g := DigitsAt(detail, p.value);
      assert g != [] by {
        assert DigitsAt(detail, p.value) == JsText.DigitPrefix(detail[p.value..], 10);
        assert JsText.DigitValue(detail[p.value..][0], 10) >= 0;
      }
      JsText.ParseIntOfDigits(g);
    }
  }

  /** No position before `|pre|` can start a match when `pre` holds no digit. */
  lemma NoMatchBefore(s: string, pre: string, q: nat)
    requires |pre| <= |s| && pre == s[..|pre|] && q < |pre|
    requires forall i :: 0 <= i < |pre| ==> !JsText.IsDecimalDigit(pre[i])
    ensures !MatchesAt(s, q)
  {
    assert s[q] == pre[q];
  }

  /** The pattern matches where a run of digits is followed by " attempts remaining", and its group is that run. */
  lemma MatchOfParts(s: string, pre: string, ds: string, post: string)
    requires s == pre + ds + AfterDigits + post
    requires ds != [] && forall i :: 0 <= i < |ds| ==> JsText.IsDecimalDigit(ds[i])
    ensures MatchesAt(s, |pre|) && DigitsAt(s, |pre|) == ds
  {
    var rest := AfterDigits + post;
    assert s == pre + (ds + rest);
    assert s[|pre|..] == ds + rest;
    JsText.DigitPrefixOfDigits(ds, rest);
    assert rest[0] == ' ';
    assert JsText.DigitPrefix(rest, 10) == [];
    assert ds + [] == ds;
    var k := |pre| + |ds|;
    assert s[k..] == rest;
    assert s[k..k + |AfterDigits|] == AfterDigits;
  }

  /** A match with none before it is the leftmost one. */
  lemma FirstMatchIs(s: string, p: nat)
    requires MatchesAt(s, p)
    requires forall q: nat :: q < p ==> !MatchesAt(s, q)
    ensures FirstMatchFrom(s, 0) == Some(p)
  {
  }

  /** With no digit before it, a run of digits followed by " attempts remaining" is the leftmost match. */
  lemma FirstMatchOfParts(s: string, pre: string, ds: string, post: string)
    requires s == pre + ds + AfterDigits + post
    requires ds != [] && forall i :: 0 <= i < |ds| ==> JsText.IsDecimalDigit(ds[i])
    requires forall i :: 0 <= i < |pre| ==> !JsText.IsDecimalDigit(pre[i])
    ensures FirstMatchFrom(s, 0) == Some(|pre|) && DigitsAt(s, |pre|) == ds
  {
    MatchOfParts(s, pre, ds, post);
    assert pre == s[..|pre|];
    forall q: nat | q < |pre|
      ensures !MatchesAt(s, q)
    {
      NoMatchBefore(s, pre, q);
    }
    FirstMatchIs(s, |pre|);
  }

  /**
   * A detail saying "… N attempts remaining …" with no digit before N yields the count N,
   * whatever follows.
   */
  lemma RemainingOfMessage(pre: string, n: nat, post: string)
    requires forall i :: 0 <= i < |pre| ==> !JsText.IsDecimalDigit(pre[i])
    ensures RemainingIn(pre + JsText.NatToString(n) + AfterDigits + post) == Some(n)
  {
    var ds := JsText.NatToString(n);
    var s := pre + ds + AfterDigits + post;
    FirstMatchOfParts(s, pre, ds, post);
    RemainingOfMatch(s);
    JsText.DigitsValueOfNatToString(n);
  }

  // ---------------------------------------------------------------------------------------
  // The form
  // ---------------------------------------------------------------------------------------

  /** The countdown after one tick of the one-second timer (lines 34-39): down by one, never below 0. */
  function Tick(countdown: nat): nat {
    if countdown > 0 then countdown - 1 else countdown
  }

  /** The countdown after `n` ticks. */
  function AfterTicks(countdown: nat, n: nat): nat {
    if n == 0 then countdown else AfterTicks(Tick(countdown), n - 1)
  }

  /** `n` ticks take `n` seconds off the countdown and stop at 0, so the resend is enabled after 60. */
  lemma {:induction false} AfterTicksValue(countdown: nat, n: nat)
    ensures countdown >= n ==> AfterTicks(countdown, n) == countdown - n
    ensures countdown < n ==> AfterTicks(countdown, n) == 0
  {
    if n > 0 {
      AfterTicksValue(Tick(countdown), n - 1);
    }
  }

  class Form {
    var email: string
    var isLoadingSendOtp: bool
    var countdown: nat
    var otpSent: bool
    var otp: string
    var newPassword: string
    var confirmPassword: string
    var isLoadingReset: bool
    var attemptsRemaining: int
    var errorMessage: string
    var successMessage: string

    constructor()
      ensures email == "" && !isLoadingSendOtp && countdown == 0 && !otpSent
      ensures otp == "" && newPassword == "" && confirmPassword == "" && !isLoadingReset
      ensures attemptsRemaining == FreshAttempts && errorMessage == "" && successMessage == ""
    {
      email, isLoadingSendOtp, countdown, otpSent := "", false, 0, false;
      otp, newPassword, confirmPassword, isLoadingReset := "", "", "", false;
      attemptsRemaining, errorMessage, successMessage := FreshAttempts, "", "";
    }

    /** The send and resend buttons (lines 185 and 268): enabled when not sending and the countdown is over. */
    predicate SendEnabled()
      reads this
    {
      !isLoadingSendOtp && countdown == 0
    }

    /** One tick of the timer. */
    method TickOnce()
      modifies this`countdown
      ensures countdown == Tick(old(countdown))
    {
      if countdown > 0 {
        countdown := countdown - 1;
      }
    }

    /**
     * `handleSendOTP` up to the request, and `handleResendOTP`, which calls it: both messages
     * cleared; an empty email is refused; otherwise the email goes out.
     */
    method SendOtp() returns (request: Option<string>)
      modifies this`errorMessage, this`successMessage, this`isLoadingSendOtp
      ensures successMessage == ""
      ensures email == "" ==> request == None && errorMessage == EnterEmail && isLoadingSendOtp == old(isLoadingSendOtp)
      ensures email != "" ==> request == Some(email) && errorMessage == "" && isLoadingSendOtp
    {
      errorMessage, successMessage := "", "";
      if email == "" {
        errorMessage := EnterEmail;
        return None;
      }
      isLoadingSendOtp := true;
      request := Some(email);
    }

    /** The answer to an OTP request: success starts step two with a fresh countdown and attempts. */
    method SendOtpDone(outcome: Outcome)
      modifies this`successMessage, this`otpSent, this`countdown, this`attemptsRemaining, this`errorMessage,
               this`isLoadingSendOtp
      ensures !isLoadingSendOtp
      ensures outcome.Answered? ==>
        && successMessage == JsText.OrElse(outcome.message, OtpSent) && otpSent
        && countdown == ResendDelay && attemptsRemaining == FreshAttempts && errorMessage == old(errorMessage)
      ensures !outcome.Answered? ==>
        && errorMessage == SendFailure(outcome) && successMessage == old(successMessage)
        && otpSent == old(otpSent) && countdown == old(countdown) && attemptsRemaining == old(attemptsRemaining)
    {
      if outcome.Answered? {
        successMessage := JsText.OrElse(outcome.message, OtpSent);
        otpSent, countdown, attemptsRemaining := true, ResendDelay, FreshAttempts;
      } else {
        errorMessage := SendFailure(outcome);
      }
      isLoadingSendOtp := false;
    }

    /** `handleResetPassword` up to the request: the checks, then email, OTP and new password go out. */
    method Reset() returns (request: Option<(string, string, string)>)
      modifies this`errorMessage, this`successMessage, this`isLoadingReset
      ensures successMessage == ""
      ensures var c := ResetCheck(otp, newPassword, confirmPassword);
        && (c.Some? ==> request == None && errorMessage == c.value && isLoadingReset == old(isLoadingReset))
        && (c.None? ==> request == Some((email, otp, newPassword)) && errorMessage == "" && isLoadingReset)
    {
      errorMessage, successMessage := "", "";
      var c := ResetCheck(otp, newPassword, confirmPassword);
      if c.Some? {
        errorMessage := c.value;
        return None;
      }
      isLoadingReset := true;
      request := Some((email, otp, newPassword));
    }

    /** The answer to a reset: success shows its message (the redirect is not modelled); failure as in `ResetRefused`. */
    method ResetDone(outcome: Outcome)
      modifies this`successMessage, this`errorMessage, this`attemptsRemaining, this`isLoadingReset
      ensures !isLoadingReset
      ensures outcome.Answered? ==>
        && successMessage == JsText.OrElse(outcome.message, ResetDoneText)
        && errorMessage == old(errorMessage) && attemptsRemaining == old(attemptsRemaining)
      ensures !outcome.Answered? ==>
        && ResetFailure(errorMessage, attemptsRemaining) == ResetRefused(outcome, old(attemptsRemaining))
        && successMessage == old(successMessage)
    {
      if outcome.Answered? {
        successMessage := JsText.OrElse(outcome.message, ResetDoneText);
      } else {
        var r := ResetRefused(outcome, attemptsRemaining);
        errorMessage, attemptsRemaining := r.message, r.attempts;
      }
      isLoadingReset := false;
    }

    /** "Use a different email" (lines 275-282): back to step one, the email kept. */
    method ChangeAccount()
      modifies this`otpSent, this`otp, this`newPassword, this`confirmPassword, this`errorMessage, this`successMessage
      ensures !otpSent && otp == "" && newPassword == "" && confirmPassword == ""
      ensures errorMessage == "" && successMessage == ""
    {
      otpSent, otp, newPassword, confirmPassword := false, "", "", "";
      errorMessage, successMessage := "", "";
    }
  }
}
