/**
 * The sign-in page: the empty-field guard, the `loading` flag around the
 * sign-in attempt, the message chosen for each way the attempt can fail, and
 * the guest sign-in.
 */
module Login {
  import opened Common

  /**
   * How a sign-in attempt failed: the server answered with a status and a
   * body whose `message` and `error` fields are empty when absent; the
   * request got no answer; or something else went wrong.
   */
  datatype LoginError =
    | ResponseError(status: int, dataMessage: Text, dataError: Text)
    | NoResponse
    | OtherError

  /** `data?.message || data?.error`: empty when the server sent neither. */
  function ServerMessage(dataMessage: Text, dataError: Text): (m: Text)
    ensures dataMessage != [] ==> m == dataMessage
    ensures dataMessage == [] ==> m == dataError
  {
    if dataMessage != [] then dataMessage else dataError
  }

  /** `m || fallback` */
  function OrElse(m: Text, fallback: Text): (t: Text)
    ensures t != []
    requires fallback != []
  {
    if m != [] then m else fallback
  }

  /** The toast shown when the sign-in fails. */
  function LoginErrorMessage(e: LoginError): (t: Text)
    ensures t != []
    ensures e.ResponseError? && e.status == 401 ==> t == "Invalid username or password"
    ensures e.ResponseError? && e.status == 429 ==> t == "Too many login attempts. Please try again later"
    ensures e.ResponseError? && e.status >= 500 ==> t == "Server error. Please try again later"
    ensures e.ResponseError? && e.status == 403 ==>
      t == OrElse(ServerMessage(e.dataMessage, e.dataError), "Account is not active or verified")
    ensures e.ResponseError? && e.status != 401 && e.status != 403 && e.status != 429 && e.status < 500 ==>
      t == OrElse(ServerMessage(e.dataMessage, e.dataError), "Login failed. Please try again")
    ensures e.NoResponse? ==> t == "Unable to connect to server. Please check your connection"
    ensures e.OtherError? ==> t == "An unexpected error occurred"
  {
    match e
    case ResponseError(status, dataMessage, dataError) =>
      var message := ServerMessage(dataMessage, dataError);
      if status == 401 then "Invalid username or password"
      else if status == 403 then OrElse(message, "Account is not active or verified")
      else if status == 429 then "Too many login attempts. Please try again later"
      else if status >= 500 then "Server error. Please try again later"
      else OrElse(message, "Login failed. Please try again")
    case NoResponse => "Unable to connect to server. Please check your connection"
    case OtherError => "An unexpected error occurred"
  }

  /**
   * The server's own words reach the user only for a 403 or for a status
   * outside 401, 429 and 500 and above; a 401, a 429 and a server error
   * always read the same.
   */
  lemma ServerMessageShownOnlyFor(status: int, m1: Text, e1: Text, m2: Text, e2: Text)
    requires status == 401 || status == 429 || status >= 500
    ensures LoginErrorMessage(ResponseError(status, m1, e1)) == LoginErrorMessage(ResponseError(status, m2, e2))
  {
  }

  /** A 403 shows the server's message, the `error` field when `message` is missing. */
  lemma ForbiddenShowsServerWords(m: Text, e: Text)
    ensures m != [] ==> LoginErrorMessage(ResponseError(403, m, e)) == m
    ensures m == [] && e != [] ==> LoginErrorMessage(ResponseError(403, m, e)) == e
    ensures m == [] && e == [] ==> LoginErrorMessage(ResponseError(403, m, e)) == "Account is not active or verified"
  {
  }

  /** handleGuestLogin's toast: only a 401 is told apart. */
  function GuestLoginErrorMessage(e: LoginError): (t: Text)
    ensures t == "Guest account not available" <==> e.ResponseError? && e.status == 401
  {
    if e.ResponseError? && e.status == 401 then "Guest account not available" else "Failed to login as guest"
  }

  class LoginPage {
    var username: Text
    var password: Text
    var loading: bool

    constructor()
      ensures username == [] && password == [] && !loading
    {
      username, password, loading := [], [], false;
    }

    /**
     * The first half of handleSubmit: with a field empty there is an error
     * and no attempt; otherwise `loading` is set and the credentials go out.
     */
    method BeginSubmit() returns (credentials: Option<(Text, Text)>, error: Option<Text>)
      modifies this`loading
      ensures credentials.Some? <==> old(username) != [] && old(password) != []
      ensures credentials.Some? ==> credentials.value == (username, password) && loading && error.None?
      ensures credentials.None? ==> error == Some("Please fill in all fields") && loading == old(loading)
    {
      credentials, error := None, None;
      if username == [] || password == [] {
        error := Some("Please fill in all fields");
        return;
      }
      loading := true;
      credentials := Some((username, password));
    }

    /**
     * The second half, given the attempt's `outcome` (None for success):
     * `loading` is cleared whatever happened, and the user goes to the
     * dashboard or sees the message for the failure.
     */
    method FinishSubmit(outcome: Option<LoginError>) returns (navigateTo: Option<Text>, error: Option<Text>)
      modifies this`loading
      ensures !loading
      ensures outcome.None? ==> navigateTo == Some("/dashboard") && error.None?
      ensures outcome.Some? ==> navigateTo.None? && error == Some(LoginErrorMessage(outcome.value))
    {
      if outcome.None? {
        navigateTo, error := Some("/dashboard"), None;
      } else {
        navigateTo, error := None, Some(LoginErrorMessage(outcome.value));
      }
      loading := false;
    }

    /** handleSubmit as one step. */
    method Submit(outcome: Option<LoginError>) returns (attempted: bool, navigateTo: Option<Text>, error: Option<Text>)
      modifies this`loading
      ensures attempted <==> old(username) != [] && old(password) != []
      ensures attempted ==> !loading
      ensures !attempted ==> loading == old(loading) && navigateTo.None? && error == Some("Please fill in all fields")
      ensures attempted && outcome.None? ==> navigateTo == Some("/dashboard") && error.None?
      ensures attempted && outcome.Some? ==> navigateTo.None? && error == Some(LoginErrorMessage(outcome.value))
    {
      var credentials;
      credentials, error := BeginSubmit();
      attempted := credentials.Some?;
      navigateTo := None;
      if attempted {
        navigateTo, error := FinishSubmit(outcome);
      }
    }

    /**
     * handleGuestLogin: signs in as guest/guest, with `loading` set during
     * the attempt and cleared afterwards.
     */
    method GuestLogin(outcome: Option<LoginError>) returns (credentials: (Text, Text), navigateTo: Option<Text>, error: Option<Text>)
      modifies this`loading
      ensures credentials == ("guest", "guest") && !loading
      ensures outcome.None? ==> navigateTo == Some("/dashboard") && error.None?
      ensures outcome.Some? ==> navigateTo.None? && error == Some(GuestLoginErrorMessage(outcome.value))
    {
      loading := true;
      credentials := ("guest", "guest");
      if outcome.None? {
        navigateTo, error := Some("/dashboard"), None;
      } else {
        navigateTo, error := None, Some(GuestLoginErrorMessage(outcome.value));
      }
      loading := false;
    }
  }
}
