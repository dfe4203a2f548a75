/**
 * The login / sign-up dialog: sign-up checks the two passwords in order
 * (equal first, then long enough) before calling the identity service;
 * both forms are cleared only when the service accepts them.
 */
module LoginDialog {
  import opened Wrappers

  const MinPasswordLength := 6
  const PortalRoute := "/lms"

  /** The toasts the dialog raises. */
  datatype Notice =
    | PasswordsDontMatch
    | PasswordTooShort
    | SignupFailed(message: string)
    | AccountCreated
    | LoginFailed(message: string)
    | WelcomeBack

  /** The outward effects of one handler: the toast, whether the dialog closes, where it navigates. */
  datatype Effects = Effects(notice: Notice, closeDialog: bool, route: Option<string>)

  /** The arguments `signUp(email, password, username)` receives. */
  datatype SignupRequest = SignupRequest(email: string, password: string, username: string)

  datatype SignupCheck = Mismatch | TooShort | Accepted

  /** The checks `handleSignup` makes before `signUp`, the mismatch check first. */
  function CheckSignup(password: string, confirm: string): (c: SignupCheck)
    ensures c == Accepted <==> password == confirm && |password| >= MinPasswordLength
    ensures c == Mismatch <==> password != confirm
    ensures c == TooShort <==> password == confirm && |password| < MinPasswordLength
  {
    if password != confirm then Mismatch
    else if |password| < MinPasswordLength then TooShort
    else Accepted
  }

  /** The dialog's state: one field per `useState` of the source. */
  class LoginForm {
    var isLoading: bool
    var loginEmail: string
    var loginPassword: string
    var signupUsername: string
    var signupEmail: string
    var signupPassword: string
    var signupConfirm: string

    /** Between handlers nothing is loading: every path of both handlers ends with `isLoading` false. */
    ghost predicate Valid()
      reads this
    {
      !isLoading
    }

    constructor ()
      ensures Valid()
      ensures loginEmail == [] && loginPassword == []
      ensures signupUsername == [] && signupEmail == [] && signupPassword == [] && signupConfirm == []
    {
      isLoading := false;
      loginEmail, loginPassword := [], [];
      signupUsername, signupEmail, signupPassword, signupConfirm := [], [], [], [];
    }

    /**
     * `handleLogin`. `signIn` answers with an error message, or None on success;
     * success clears the two login fields, closes the dialog and goes to the portal.
     */
    method HandleLogin(signIn: (string, string) -> Option<string>) returns (fx: Effects)
      requires Valid()
      modifies this`isLoading, this`loginEmail, this`loginPassword
      ensures Valid()
      ensures var err := signIn(old(loginEmail), old(loginPassword));
        if err.Some? then
          && fx == Effects(LoginFailed(err.value), false, None)
          && loginEmail == old(loginEmail) && loginPassword == old(loginPassword)
        else
          && fx == Effects(WelcomeBack, true, Some(PortalRoute))
          && loginEmail == [] && loginPassword == []
    {
      isLoading := true;
      var err := signIn(loginEmail, loginPassword);
      if err.Some? {
        fx := Effects(LoginFailed(err.value), false, None);
      } else {
        fx := Effects(WelcomeBack, true, Some(PortalRoute));
        loginEmail := [];
        loginPassword := [];
      }
      isLoading := false;
    }

    /**
     * `handleSignup`. A rejected password returns before `isLoading` is touched and
     * before `signUp` is called; `request` is the call made, if any. Only an accepted
     * sign-up clears the four fields.
     */
    method HandleSignup(signUp: SignupRequest -> Option<string>) returns (fx: Effects, request: Option<SignupRequest>)
      requires Valid()
      modifies this`isLoading, this`signupUsername, this`signupEmail, this`signupPassword, this`signupConfirm
      ensures Valid()
      ensures var check := CheckSignup(old(signupPassword), old(signupConfirm));
        if check != Accepted then
          && request.None?
          && fx == Effects(if check == Mismatch then PasswordsDontMatch else PasswordTooShort, false, None)
          && isLoading == old(isLoading)
          && signupUsername == old(signupUsername) && signupEmail == old(signupEmail)
          && signupPassword == old(signupPassword) && signupConfirm == old(signupConfirm)
        else
          && request == Some(SignupRequest(old(signupEmail), old(signupPassword), old(signupUsername)))
          && !isLoading
          && var err := signUp(request.value);
          if err.Some? then
            && fx == Effects(SignupFailed(err.value), false, None)
            && signupUsername == old(signupUsername) && signupEmail == old(signupEmail)
            && signupPassword == old(signupPassword) && signupConfirm == old(signupConfirm)
          else
            && fx == Effects(AccountCreated, true, Some(PortalRoute))
            && signupUsername == [] && signupEmail == [] && signupPassword == [] && signupConfirm == []
    {
      if signupPassword != signupConfirm {
        return Effects(PasswordsDontMatch, false, None), None;
      }
      if |signupPassword| < MinPasswordLength {
        return Effects(PasswordTooShort, false, None), None;
      }

      isLoading := true;
      request := Some(SignupRequest(signupEmail, signupPassword, signupUsername));
      var err := signUp(request.value);
      if err.Some? {
        fx := Effects(SignupFailed(err.value), false, None);
      } else {
        fx := Effects(AccountCreated, true, Some(PortalRoute));
        signupUsername := [];
        signupEmail := [];
        signupPassword := [];
        signupConfirm := [];
      }
      isLoading := false;
    }
  }
}
