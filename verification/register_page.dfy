/**
 * The registration form's submit handler: the two password checks, in order,
 * the endpoint and request body, and what the form shows after the answer.
 */
module RegisterPage {
  import opened Wrappers

  const ApiBase: string := "http://localhost:8000"

  const MismatchError: string := "Пароли не совпадают"
  const TooShortError: string := "Пароль должен быть не короче 6 символов"
  const DefaultError: string := "Не удалось зарегистрироваться"
  const NetworkError: string := "Ошибка сети"

  /** The shortest password the form accepts. */
  const MinPasswordLength: nat := 6

  /** The registration request: its URL and its JSON body. `balance` is `None` when
    * the form leaves it `undefined`, which `JSON.stringify` drops from the body. */
  datatype Request = Request(url: string, email: string, password: string, balance: Option<real>)

  /** `${API_BASE}/api/${isBusiness ? "business" : "auth"}/register`. */
  function Endpoint(isBusiness: bool): (url: string)
    ensures isBusiness ==> url == ApiBase + "/api/business/register"
    ensures !isBusiness ==> url == ApiBase + "/api/auth/register"
  {
    ApiBase + "/api/" + (if isBusiness then "business" else "auth") + "/register"
  }

  /** The checks before any request: mismatched passwords first, then the length;
    * a form that passes both gives the request to send. */
  function Validate(email: string, password: string, password2: string, isBusiness: bool, balance: real): (r: Result<Request, string>)
    ensures password != password2 ==> r == Err(MismatchError)
    ensures password == password2 && |password| < MinPasswordLength ==> r == Err(TooShortError)
    ensures r.Ok? <==> password == password2 && |password| >= MinPasswordLength
    ensures r.Ok? ==> r.value.email == email && r.value.password == password && r.value.url == Endpoint(isBusiness)
    ensures r.Ok? ==> (r.value.balance.Some? <==> isBusiness) && (isBusiness ==> r.value.balance == Some(balance))
  {
    if password != password2 then Err(MismatchError)
    else if |password| < MinPasswordLength then Err(TooShortError)
    else Ok(Request(Endpoint(isBusiness), email, password, if isBusiness then Some(balance) else None))
  }

  /** What came back for the request: no answer, a non-OK status with the body's
    * `detail` (`None` when absent or unreadable), or success with the new user record. */
  datatype Response = NoAnswer | Rejected(detail: Option<string>) | Accepted(user: string)

  /** The error for a non-OK answer: the server's `detail` when truthy, else the default. */
  function RejectionMessage(detail: Option<string>): (m: string)
    ensures detail.Some? && detail.value != "" ==> m == detail.value
    ensures detail.None? || detail.value == "" ==> m == DefaultError
  {
    if detail.Some? && detail.value != "" then detail.value else DefaultError
  }

  class RegisterForm {
    var email: string
    var password: string
    var password2: string
    var isBusiness: bool
    var balance: real
    var submitting: bool
    var error: string
    var done: bool
    /** The `"user"` entry of local storage. */
    var storedUser: Option<string>

    constructor ()
      ensures email == "" && password == "" && password2 == "" && !isBusiness && balance == 0.0
      ensures !submitting && error == "" && !done && storedUser == None
    {
      email, password, password2 := "", "", "";
      isBusiness, balance := false, 0.0;
      submitting, error, done := false, "", false;
      storedUser := None;
    }

    /** `handleSubmit`, with `response` the answer the request would get. Returns the
      * request sent, if any. */
    method Submit(response: Response) returns (sent: Option<Request>)
      modifies this
      ensures var v := Validate(email, password, password2, isBusiness, balance);
        && (v.Err? ==> sent == None && error == v.error && submitting == old(submitting))
        && (v.Ok? ==> sent == Some(v.value) && !submitting)
      ensures sent.Some? && response.NoAnswer? ==> error == NetworkError
      ensures sent.Some? && response.Rejected? ==> error == RejectionMessage(response.detail)
      ensures sent.Some? && response.Accepted? ==> error == "" && done && storedUser == Some(response.user)
      ensures sent.None? || !response.Accepted? ==> done == old(done) && storedUser == old(storedUser)
      ensures email == old(email) && password == old(password) && password2 == old(password2)
      ensures isBusiness == old(isBusiness) && balance == old(balance)
    {
      error := "";
      var v := Validate(email, password, password2, isBusiness, balance);
      if v.Err? {
        error := v.error;
        return None;
      }
      submitting := true;
      sent := Some(v.value);
      match response {
        case NoAnswer =>
          error := NetworkError;
        case Rejected(detail) =>
          error := RejectionMessage(detail);
        case Accepted(u) =>
          storedUser := Some(u);
          done := true;
      }
      submitting := false;
    }
  }
}
