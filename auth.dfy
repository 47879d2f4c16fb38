/**
 * The admin session of the browser: a flag kept in memory and mirrored in
 * local storage under "isAuthenticated", set by a login the server accepts
 * and cleared by logout.
 */
module Auth {
  import opened Wrappers

  /** The only value of the stored entry that means "logged in". */
  const StoredTrue: string := "true"

  /** The password POST /api/auth accepts. */
  const AdminPassword: string := "8390"

  /** How the login request ended: it threw (network error or refusal), or it answered with a body. */
  datatype LoginResponse =
    | Failed
    | Answered(success: bool)

  /**
   * The server's answer to a password: `{ success: true }` for the admin
   * password, a refusal (status 401) for any other.
   */
  function AuthRoute(password: string): (r: LoginResponse)
    ensures r == Answered(true) <==> password == AdminPassword
  {
    if password == AdminPassword then Answered(true) else Failed
  }

  /** `!!data.success` of an answer; a failed request counts as false. */
  function Succeeded(response: LoginResponse): (ok: bool)
    ensures ok <==> response == Answered(true)
  {
    match response
    case Failed => false
    case Answered(success) => success
  }

  /** Only the admin password logs in. */
  lemma OnlyAdminPasswordLogsIn(password: string)
    ensures Succeeded(AuthRoute(password)) <==> password == AdminPassword
  {
  }

  class AuthProvider {
    var isAuthenticated: bool
    /** The local storage entry "isAuthenticated"; `None` when it is absent. */
    var stored: Option<string>

    /** The flag and the stored entry agree. */
    predicate Synced()
      reads this
    {
      isAuthenticated <==> stored == Some(StoredTrue)
    }

    /** Loading the app: logged in exactly when the stored entry is "true". */
    constructor (entry: Option<string>)
      ensures stored == entry
      ensures isAuthenticated <==> entry == Some(StoredTrue)
      ensures Synced()
    {
      stored := entry;
      isAuthenticated := entry == Some(StoredTrue);
    }

    /**
     * login: an answer with success true sets the flag and stores "true";
     * any other outcome changes nothing and reports false.
     */
    method Login(response: LoginResponse) returns (success: bool)
      modifies this
      ensures success <==> response == Answered(true)
      ensures success ==> isAuthenticated && stored == Some(StoredTrue)
      ensures !success ==> isAuthenticated == old(isAuthenticated) && stored == old(stored)
      ensures old(Synced()) ==> Synced()
    {
      success := Succeeded(response);
      if success {
        isAuthenticated := true;
        stored := Some(StoredTrue);
      }
    }

    /** logout: clears the flag and removes the stored entry. */
    method Logout()
      modifies this
      ensures !isAuthenticated && stored.None?
      ensures Synced()
    {
      isAuthenticated := false;
      stored := None;
    }
  }
}
