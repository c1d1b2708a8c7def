/** What a handler sends back, and what it leaves behind in the store. */
module Responses {
  import opened Fields
  import opened UserStore
  import opened Tokens

  /** The `userdata` object of a login reply: no password field at all. */
  datatype UserData = UserData(id: nat, name: Option<string>, email: string)

  /** The JSON bodies the two handlers produce. */
  datatype Body =
    | ErrorBody(error: string)                        // {"error": ...}
    | CreatedBody(message: string, userId: int)       // {"message": ..., "userId": ...}
    | LoginBody(userdata: UserData, accesstoken: Jwt) // {"userdata": ..., "accesstoken": ...}
    | MessageBody(message: string)                    // {"message": ...}

  datatype Response = Response(status: int, body: Body)

  /** A handler either replies, or its promise rejects with no reply sent;
      either way `store` is the repository once the request is done. */
  datatype Outcome =
    | Replied(response: Response, store: Store)
    | NoReply(store: Store)

  const EmailRequired := "Email is required"
  const EmailAndPasswordRequired := "Email and password are required"
  const EmailInUse := "Email already in use"
  const UserCreated := "User created successfully"
  /** The id the signup reply reports, whatever id the new row received. */
  const ReportedUserId := 1
  const LoginFieldsRequired := "Email and password is required"
  const UserNotFound := "User not found"
  const InvalidCredentials := "Invalid credentials"
  /** The catch-all reply of the login handler, spelled as the handler spells it. */
  const InternalError := "Intenal server error"

  predicate IsStatus(o: Outcome, status: int) {
    o.Replied? && o.response.status == status
  }
}
