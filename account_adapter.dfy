/**
 * The pieces of the sign-in glue that decide things: the login form's
 * check that both fields are filled, the invitation-only sign-up gate,
 * the client address of a request, and the username derived from an email.
 */
module AccountAdapter {
  import opened Wrappers
  import opened Strings
  import opened UserViews

  const MissingCredentials: string := "Please enter both email and password."

  /** A form field that is absent or empty, which Python reads as false. */
  predicate Blank(data: map<string, string>, field: string)
  {
    field !in data || data[field] == ""
  }

  /** The merged login and sign-up form, after field validation. */
  class MergedLoginForm {
    var cleanedData: map<string, string>
    /** Errors not tied to one field. */
    var nonFieldErrors: seq<string>

    constructor (cleanedData: map<string, string>)
      ensures this.cleanedData == cleanedData && nonFieldErrors == []
    {
      this.cleanedData := cleanedData;
      nonFieldErrors := [];
    }

    /** `clean`: add one error when the login or the password is missing or empty; never checks that the account exists. */
    method Clean() returns (data: map<string, string>)
      modifies this`nonFieldErrors
      ensures data == cleanedData
      ensures Blank(cleanedData, "login") || Blank(cleanedData, "password") ==>
        nonFieldErrors == old(nonFieldErrors) + [MissingCredentials]
      ensures !Blank(cleanedData, "login") && !Blank(cleanedData, "password") ==>
        nonFieldErrors == old(nonFieldErrors)
    {
      data := cleanedData;
      if Blank(data, "login") || Blank(data, "password") {
        nonFieldErrors := nonFieldErrors + [MissingCredentials];
      }
    }
  }

  /** The parts of an HTTP request the adapter reads. */
  datatype Request = Request(httpMethod: string, post: map<string, string>, meta: map<string, string>)

  /** `is_open_for_signup`: only a POST carrying an email with a pending invitation may sign up. */
  function IsOpenForSignup(request: Option<Request>, invitations: seq<Invitation>): (open: bool)
    ensures open <==>
      && request.Some? && request.value.httpMethod == "POST"
      && !Blank(request.value.post, "email")
      && exists inv :: inv in invitations && inv.acceptedAt.None?
                       && EqualsIgnoreCase(inv.email, request.value.post["email"])
  {
    if request.Some? && request.value.httpMethod == "POST" && !Blank(request.value.post, "email") then
      PendingInvitation(invitations, request.value.post["email"]).Some?
    else false
  }

  const Localhost: string := "127.0.0.1"
  const ForwardedFor: string := "HTTP_X_FORWARDED_FOR"
  const RemoteAddr: string := "REMOTE_ADDR"

  /**
   * `get_client_ip`: the first address of a non-empty X-Forwarded-For
   * header, as written (spaces kept); else the peer address, which may be
   * absent; localhost when there is no request at all.
   */
  function GetClientIp(request: Option<Request>): (ip: Option<string>)
    ensures request.None? ==> ip == Some(Localhost)
    ensures request.Some? && !Blank(request.value.meta, ForwardedFor) ==>
      var header := request.value.meta[ForwardedFor];
      && ip.Some?
      && ',' !in ip.value
      && |ip.value| <= |header| && header[..|ip.value|] == ip.value
      && (|ip.value| == |header| || header[|ip.value|] == ',')
    ensures request.Some? && Blank(request.value.meta, ForwardedFor) ==>
      ip == (if RemoteAddr in request.value.meta then Some(request.value.meta[RemoteAddr]) else None)
  {
    match request
    case None => Some(Localhost)
    case Some(req) =>
      if !Blank(req.meta, ForwardedFor) then Some(Before(req.meta[ForwardedFor], ','))
      else if RemoteAddr in req.meta then Some(req.meta[RemoteAddr])
      else None
  }

  /** The username an email suggests: the text before its first `@`, all of it if it has none. */
  function BaseUsername(email: string): (base: string)
    ensures '@' !in base
    ensures |base| <= |email| && email[..|base|] == base
    ensures |base| == |email| || email[|base|] == '@'
  {
    if email != "" then Before(email, '@') else ""
  }

  /**
   * The username `populate_username` settles on: the one already set, else
   * the email's base, else (when that is taken) the base, `_`, and the first
   * six hex digits of a fresh UUID (`uuidHex`); the suffixed name is not
   * checked again.
   */
  function PopulatedUsername(current: string, email: string, taken: set<string>, uuidHex: string): (name: string)
    requires |uuidHex| == 32
    ensures current != "" ==> name == current
    ensures current == "" && BaseUsername(email) !in taken ==> name == BaseUsername(email)
    ensures current == "" && BaseUsername(email) in taken ==>
      && |name| == |BaseUsername(email)| + 7
      && name[..|BaseUsername(email)| + 1] == BaseUsername(email) + "_"
      && name != BaseUsername(email)
  {
    if current != "" then current
    else
      var base := BaseUsername(email);
      if base in taken then base + "_" + uuidHex[..6] else base
  }

  /** The user being signed up, before it is saved. */
  class UnsavedUser {
    var email: string
    var username: string

    constructor (email: string, username: string)
      ensures this.email == email && this.username == username
    {
      this.email := email;
      this.username := username;
    }

    /** `populate_username`: fill in a username when none is set; `taken` are the usernames in use. */
    method PopulateUsername(taken: set<string>, uuidHex: string)
      requires |uuidHex| == 32
      modifies this`username
      ensures username == PopulatedUsername(old(username), email, taken, uuidHex)
    {
      if username == "" {
        var base := BaseUsername(email);
        username := base;
        if base in taken {
          username := base + "_" + uuidHex[..6];
        }
      }
    }
  }
}
