/**
  The request handlers of the chat server on the file-store path, as one object holding
  the store document, the client's session and the fixed configuration.
 */
module Server {
  import opened Optional
  import opened Messages
  import opened Auth

  /** The JSON bodies the handlers send. */
  datatype Payload =
    | LoginOk(message: string)                       // {ok: true, message}
    | LoginFailed(error: string)                     // {ok: false, error}
    | Failure(error: string)                         // {error}
    | CurrentUser(username: string)                  // {username}
    | MessageList(messages: seq<Message>)            // {messages}
    | Saved(message: string, messageRow: Message)    // {ok: true, message, messageRow}
    | DebugInfo(sessionUser: Option<string>, dbOk: bool, dbError: Option<string>, mode: string)

  /** An abstract HTTP response. */
  datatype Response =
    | Json(status: int, payload: Payload)
    | Redirect(location: string)
    | Document(file: string)

  /** The outcome of the debug endpoint's health check of the active backend. */
  datatype Probe = Reachable | Unreachable(reason: string)

  const NotLoggedIn: Response := Json(401, Failure("Not logged in"))
  const DatabaseError: Response := Json(500, Failure("Database error"))
  const MissingFields: Response := Json(400, Failure("Missing chat_name or text"))

  /** `if (process.env.DATABASE_URL)`: the relational backend is chosen when the URL is set and non-empty. */
  function UsePostgres(databaseUrl: Option<string>): (r: bool)
  {
    Present(databaseUrl)
  }

  /** `!chat_name || !text` is false: both fields are given and non-empty. */
  predicate FieldsPresent(chatName: Option<string>, text: Option<string>)
  {
    Present(chatName) && Present(text)
  }

  /** The body of `/api/debug`. */
  function DebugReport(sessionUser: Option<string>, usePostgres: bool, probe: Probe): (r: Payload)
    ensures r.DebugInfo? && r.sessionUser == sessionUser
    ensures r.mode == "file" <==> !usePostgres
    ensures r.mode == "postgres" <==> usePostgres
    ensures r.dbOk <==> probe.Reachable?
    ensures r.dbError.None? <==> probe.Reachable?
  {
    var dbError :=
      match probe
      case Reachable => None
      case Unreachable(reason) => Some(if usePostgres then reason else "File store not accessible");
    DebugInfo(sessionUser, probe.Reachable?, dbError, if usePostgres then "postgres" else "file")
  }

  /**
    Startup followed by `GET /api/debug`: a server started from `databaseUrl` reports mode
    `file` exactly when the URL is unset or empty, and `postgres` otherwise.
   */
  method DebugAfterStartup(databaseUrl: Option<string>, probe: Probe) returns (resp: Response)
    ensures resp.Json? && resp.status == 200 && resp.payload.DebugInfo?
    ensures resp.payload.mode == "file" <==> databaseUrl == None || databaseUrl == Some("")
    ensures resp.payload.mode == "postgres" <==> databaseUrl.Some? && databaseUrl.value != ""
    ensures resp.payload.sessionUser == None
  {
    var server := new ChatServer(databaseUrl);
    resp := server.Debug(probe);
  }

  class ChatServer {
    /** The credential table. */
    const users: map<string, string>
    /** The backend chosen once at startup. */
    const usePostgres: bool
    /** The store document, `{lastId, messages}`. */
    var lastId: nat
    var messages: seq<Message>
    /** The session's logged-in user; `None` for an anonymous or destroyed session. */
    var user: Option<string>

    /** The store document as a value. */
    function Stored(): (r: Store)
      reads this
    {
      Store(lastId, messages)
    }

    /** The store invariant holds of the current document. */
    predicate Valid()
      reads this
    {
      ValidStore(Stored())
    }

    /** Startup: the backend is chosen from the environment and the store starts as `{lastId: 0, messages: []}`. */
    constructor (databaseUrl: Option<string>)
      ensures Valid()
      ensures users == Users && usePostgres == UsePostgres(databaseUrl)
      ensures Stored() == InitialStore && user == None
    {
      users := Users;
      usePostgres := UsePostgres(databaseUrl);
      lastId := 0;
      messages := [];
      user := None;
    }

    /** `POST /login`. On a match the session records the user; otherwise the session is left as it was. */
    method Login(username: Option<string>, password: Option<string>) returns (resp: Response)
      modifies this`user
      ensures CredentialsMatch(users, username, password) ==>
        user == username && resp == Json(200, LoginOk("Login successful"))
      ensures !CredentialsMatch(users, username, password) ==>
        user == old(user) && resp == Json(401, LoginFailed("Invalid credentials"))
    {
      if CredentialsMatch(users, username, password) {
        user := username;
        resp := Json(200, LoginOk("Login successful"));
      } else {
        resp := Json(401, LoginFailed("Invalid credentials"));
      }
    }

    /** `GET /chat`: the chat page for a logged-in session, a redirect to the login page otherwise. */
    method Chat() returns (resp: Response)
      ensures IsAuthenticated(user) ==> resp == Document("nexa_chat_app.html")
      ensures !IsAuthenticated(user) ==> resp == Redirect("/")
    {
      if !IsAuthenticated(user) {
        return Redirect("/");
      }
      resp := Document("nexa_chat_app.html");
    }

    /** `GET /logout`: the session is destroyed, so the client is anonymous afterwards. */
    method Logout() returns (resp: Response)
      modifies this`user
      ensures user == None && !IsAuthenticated(user)
      ensures resp == Redirect("/")
    {
      user := None;
      resp := Redirect("/");
    }

    /** `GET /api/current-user`. */
    method GetCurrentUser() returns (resp: Response)
      ensures IsAuthenticated(user) ==> resp == Json(200, CurrentUser(user.value))
      ensures !IsAuthenticated(user) ==> resp == NotLoggedIn
    {
      if IsAuthenticated(user) {
        return Json(200, CurrentUser(user.value));
      }
      return NotLoggedIn;
    }

    /**
      `GET /api/messages/:chatName` on the file store. Reads the state only, so two calls
      with no write in between give the same response. `storageOk` is whether reading and
      parsing the store file succeed.
     */
    method GetMessages(chatName: string, storageOk: bool) returns (resp: Response)
      requires !usePostgres
      ensures !IsAuthenticated(user) ==> resp == NotLoggedIn
      ensures IsAuthenticated(user) && !storageOk ==> resp == DatabaseError
      ensures IsAuthenticated(user) && storageOk ==>
        resp.Json? && resp.status == 200 && resp.payload.MessageList? &&
        IsRoomListing(messages, chatName, resp.payload.messages)
    {
      if !IsAuthenticated(user) {
        return NotLoggedIn;
      }
      if !storageOk {
        return DatabaseError;
      }
      var msgs := Listing(messages, chatName);
      ListingCharacterized(messages, chatName, msgs);
      resp := Json(200, MessageList(msgs));
    }

    /**
      `POST /api/messages` on the file store. `now` is the clock reading; `storageOk` is
      whether reading, parsing and rewriting the store file succeed. The rewrite is taken
      to be all-or-nothing, so on every failure the store is left as it was.
     */
    method PostMessage(chatName: Option<string>, text: Option<string>, now: int, storageOk: bool)
      returns (resp: Response)
      requires Valid() && !usePostgres
      modifies this`lastId, this`messages
      ensures Valid()
      ensures !IsAuthenticated(user) ==> resp == NotLoggedIn && Stored() == old(Stored())
      ensures IsAuthenticated(user) && !FieldsPresent(chatName, text) ==>
        resp == MissingFields && Stored() == old(Stored())
      ensures IsAuthenticated(user) && FieldsPresent(chatName, text) && !storageOk ==>
        resp == DatabaseError && Stored() == old(Stored())
      ensures IsAuthenticated(user) && FieldsPresent(chatName, text) && storageOk ==>
        && resp.Json? && resp.status == 200 && resp.payload.Saved? && resp.payload.message == "Message saved"
        && var row := resp.payload.messageRow;
        && row == Message(old(lastId) + 1, chatName.value, user.value, text.value, now)
        && lastId == row.id
        && messages == old(messages) + [row]
        && Stored() == Append(old(Stored()), chatName.value, user.value, text.value, now)
    {
      if !IsAuthenticated(user) {
        return NotLoggedIn;
      }
      var sender := user.value;
      if !FieldsPresent(chatName, text) {
        return MissingFields;
      }
      if !storageOk {
        return DatabaseError;
      }
      AppendKeepsValid(Stored(), chatName.value, sender, text.value, now);
      var nextId := lastId + 1;
      var row := Message(nextId, chatName.value, sender, text.value, now);
      lastId := nextId;
      messages := messages + [row];
      resp := Json(200, Saved("Message saved", row));
    }

    /** `GET /api/debug`: reports the session user, the health check and the active mode. */
    method Debug(probe: Probe) returns (resp: Response)
      ensures resp == Json(200, DebugReport(user, usePostgres, probe))
    {
      resp := Json(200, DebugReport(user, usePostgres, probe));
    }
  }
}
