/** The password reset page: checking the link it was opened from,
    validating the new password, handling the update's result, and
    choosing which of its four views to show. */
module ResetPassword {
  import opened Common
  import opened Text

  const PasswordsDoNotMatch := "Passwords do not match"
  const PasswordTooShort := "Password must be at least 6 characters"
  const UnexpectedError := "An unexpected error occurred. Please try again."
  const MinPasswordLength := 6

  /** The callback type of a password-recovery link. */
  const Recovery := "recovery"

  /** The marker of a session token in the URL fragment. */
  const AccessToken := "access_token"

  /** What `authApi.handleAuthCallback` resolves to: its `type` and its
      `error`, each possibly absent. */
  datatype AuthCallbackResult = AuthCallbackResult(flow: Option<string>, error: Option<string>)

  /** How the awaited `handleAuthCallback` ended: with a result, or rejected.
      The closure that awaits it has no `catch` and is not awaited itself,
      so a rejection ends it before any state is set. */
  datatype CallbackOutcome = Answered(result: AuthCallbackResult) | Rejected

  /** How the awaited `updatePassword` ended: it returned a result whose
      `error` may be set, or it threw. */
  datatype UpdateOutcome = Returned(error: Option<string>) | Threw

  /** Whether the link is usable, and the message to show when it is not. */
  datatype LinkCheck = LinkCheck(valid: bool, error: Option<string>)

  /** The four things the page can render. */
  datatype View = Verifying | LinkExpired | PasswordChanged | PasswordForm

  // ---------------------------------------------------------------------
  // Substring search (`String.prototype.includes`)

  /** `part` occurs in `s` starting at index `i`. */
  predicate OccursAt(s: string, part: string, i: nat) {
    i + |part| <= |s| && s[i..i + |part|] == part
  }

  /** The first index at or after `from` where `part` occurs, or -1. */
  function IndexFrom(s: string, part: string, from: nat): (i: int)
    ensures i == -1 || (from <= i && OccursAt(s, part, i))
    ensures forall j :: from <= j && (i == -1 || j < i) ==> !OccursAt(s, part, j)
    decreases |s| - from
  {
    if from + |part| > |s| then -1
    else if OccursAt(s, part, from) then from
    else IndexFrom(s, part, from + 1)
  }

  /** `s.includes(part)`: some occurrence of `part` exists. */
  function Includes(s: string, part: string): (b: bool)
    ensures b <==> exists i :: OccursAt(s, part, i)
  {
    IndexFrom(s, part, 0) >= 0
  }

  // ---------------------------------------------------------------------
  // Decisions

  /** The checks of `handleSubmit`, in order: the two entries must match,
      then the password must have at least six UTF-16 code units. */
  function ValidatePasswords(password: string, confirmPassword: string): (r: Option<string>)
    ensures r == Some(PasswordsDoNotMatch) <==> password != confirmPassword
    ensures r == Some(PasswordTooShort) <==>
      password == confirmPassword && Utf16Length(password) < MinPasswordLength
    ensures r.None? <==>
      password == confirmPassword && Utf16Length(password) >= MinPasswordLength
  {
    if password != confirmPassword then Some(PasswordsDoNotMatch)
    else if Utf16Length(password) < MinPasswordLength then Some(PasswordTooShort)
    else None
  }

  /** `checkRecoverySession`'s decision. A recovery callback is a valid
      link; otherwise a non-empty error makes it invalid with that message;
      otherwise the link is valid exactly when the URL fragment `hash`
      carries an access token. */
  function CheckLink(result: AuthCallbackResult, hash: string): (c: LinkCheck)
    ensures c.valid <==>
      result.flow == Some(Recovery) || (!Truthy(result.error) && Includes(hash, AccessToken))
    ensures c.error.Some? <==> result.flow != Some(Recovery) && Truthy(result.error)
    ensures c.error.Some? ==> c.error == result.error && !c.valid
  {
    if result.flow == Some(Recovery) then LinkCheck(true, None)
    else if Truthy(result.error) then LinkCheck(false, result.error)
    else LinkCheck(Includes(hash, AccessToken), None)
  }

  /** The view the page renders. */
  function SelectView(isValidToken: Option<bool>, success: bool): (v: View)
    ensures v == Verifying <==> isValidToken.None?
    ensures v == LinkExpired <==> isValidToken == Some(false)
    ensures v == PasswordChanged <==> isValidToken == Some(true) && success
    ensures v == PasswordForm <==> isValidToken == Some(true) && !success
  {
    if isValidToken.None? then Verifying
    else if !isValidToken.value then LinkExpired
    else if success then PasswordChanged
    else PasswordForm
  }

  // ---------------------------------------------------------------------
  // The page

  class ResetPasswordPage {
    var password: string
    var confirmPassword: string
    var isLoading: bool
    var error: string
    var success: bool
    var isValidToken: Option<bool>

    /** Between events no update is in flight. */
    ghost predicate Valid()
      reads this
    {
      !isLoading
    }

    /** The initial `useState` values: the link not yet checked. */
    constructor ()
      ensures Valid()
      ensures password == "" && confirmPassword == "" && error == ""
      ensures !success && isValidToken.None?
    {
      password, confirmPassword := "", "";
      isLoading := false;
      error := "";
      success := false;
      isValidToken := None;
    }

    function CurrentView(): View
      reads this
    {
      SelectView(isValidToken, success)
    }

    method EditPassword(value: string)
      modifies this`password
      ensures password == value
    {
      password := value;
    }

    method EditConfirmPassword(value: string)
      modifies this`confirmPassword
      ensures confirmPassword == value
    {
      confirmPassword := value;
    }

    /** `checkRecoverySession` with the outcome of the callback and the
        page's URL fragment as inputs. A rejected callback sets nothing. */
    method CheckRecoverySession(outcome: CallbackOutcome, hash: string)
      modifies this`error, this`isValidToken
      ensures outcome.Rejected? ==> isValidToken == old(isValidToken) && error == old(error)
      ensures outcome.Answered? ==> isValidToken == Some(CheckLink(outcome.result, hash).valid)
      ensures outcome.Answered? ==> error == match CheckLink(outcome.result, hash).error
        case Some(message) => message
        case None => old(error)
    {
      if outcome.Rejected? {
        return;
      }
      var result := outcome.result;
      if result.flow == Some(Recovery) {
        isValidToken := Some(true);
      } else if result.error.Some? && result.error.value != "" {
        error := result.error.value;
        isValidToken := Some(false);
      } else {
        if Includes(hash, AccessToken) {
          isValidToken := Some(true);
        } else {
          isValidToken := Some(false);
        }
      }
    }

    /** `handleSubmit`, with the outcome of `updatePassword` as input.
        Returns the password passed to it, or None when it was not called.
        The error is cleared first; a validation failure shows its message;
        a returned error shows that error; a throw shows the generic
        message; only a clean result sets `success`. */
    method HandleSubmit(outcome: UpdateOutcome) returns (updated: Option<string>)
      requires Valid()
      modifies this`error, this`isLoading, this`success
      ensures Valid()
      ensures ValidatePasswords(password, confirmPassword).Some? ==>
        && updated.None?
        && error == ValidatePasswords(password, confirmPassword).value
        && success == old(success)
      ensures ValidatePasswords(password, confirmPassword).None? ==>
        && updated == Some(password)
        && match outcome
          case Returned(e) =>
            if Truthy(e) then error == e.value && success == old(success)
            else error == "" && success
          case Threw => error == UnexpectedError && success == old(success)
    {
      error := "";
      if password != confirmPassword {
        error := PasswordsDoNotMatch;
        return None;
      }
      if Utf16Length(password) < MinPasswordLength {
        error := PasswordTooShort;
        return None;
      }
      isLoading := true;
      updated := Some(password);
      match outcome {
        case Returned(e) =>
          if e.Some? && e.value != "" {
            error := e.value;
          } else {
            success := true;
          }
        case Threw =>
          error := UnexpectedError;
      }
      isLoading := false;
    }
  }

  /** A recovery link shows the form; a mismatch keeps it with its message;
      a matching, long enough password that the service accepts shows the
      confirmation. */
  method ResetFlow() returns (views: seq<View>, message: string, updated: Option<string>)
    ensures views == [Verifying, PasswordForm, PasswordForm, PasswordChanged]
    ensures message == PasswordsDoNotMatch
    ensures updated == Some("secret1")
  {
    var page := new ResetPasswordPage();
    views := [page.CurrentView()];
    page.CheckRecoverySession(Answered(AuthCallbackResult(Some(Recovery), None)), "");
    views := views + [page.CurrentView()];
    page.EditPassword("secret1");
    page.EditConfirmPassword("secret2");
    var rejected := page.HandleSubmit(Returned(None));
    assert rejected.None?;
    message := page.error;
    views := views + [page.CurrentView()];
    page.EditConfirmPassword("secret1");
    assert Utf16Length("secret1") == 7;
    updated := page.HandleSubmit(Returned(None));
    views := views + [page.CurrentView()];
  }

  /** A callback that rejects leaves the page verifying the link for good:
      nothing sets `isValidToken` afterwards, whatever the URL fragment. */
  method RejectedCallbackStaysVerifying(hash: string) returns (view: View, error: string)
    ensures view == Verifying && error == ""
  {
    var page := new ResetPasswordPage();
    page.CheckRecoverySession(Rejected, hash);
    view := page.CurrentView();
    error := page.error;
  }
}
