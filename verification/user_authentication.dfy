/** The decision logic of the user endpoints: which status each request gets
    and which write, if any, is handed to the data store. The store's answers
    (credential check, existence check, user lookup, success of a create or a
    report) are inputs; its own logic is not part of this model. */
module UserAuthentication {
  import opened Outcomes
  import CredentialFormat

  /** The HTTP statuses the endpoints answer with. */
  datatype Status =
    | Ok
    | Unauthorized
    | UnavailableForLegalReasons
    | Conflict
    | PreconditionFailed
    | ServiceUnavailable
    | NotFound
    | MethodNotAllowed
    | BadRequest

  /** What the controller reads from a stored user: its name, the ban flag
      its report status derives, and the score its reputation computes. */
  datatype UserView = UserView(username: string, banned: bool, score: int)

  /** A vote as it arrives in a request; passed to the store unchanged. */
  datatype Impression = Impression(payload: string)

  datatype ImpressionRequest = ImpressionRequest(
    uploaderName: string,
    voterId: string,
    snippetId: string,
    codeReviewSectionId: string,
    impression: Impression)

  /** The payload of a response. */
  datatype Body =
    | NoBody
    | UserBody(user: UserView)
    | CreatedBody(username: string, password: string)
    | ScoreBody(score: int)
    | BanBody(banned: bool)

  /** The write a request hands to the data store, if any. */
  datatype StoreCall =
    | NoStoreCall
    | CreateUser(username: string, password: string)
    | AddReport(user: UserView, reportType: string)
    | UpdateReputation(user: UserView, voterId: string, sourceId: string, impression: Impression)

  datatype Response = Response(status: Status, body: Body, call: StoreCall)

  /** Every endpoint answers OK with a payload and any other status without one. */
  predicate WellFormed(r: Response) {
    r.status == Ok <==> !r.body.NoBody?
  }

  /** Which format check registration runs: the code as written, or the corrected one. */
  datatype Validator = AsWritten | Intended

  function CheckFormat(v: Validator, username: string, password: string): Outcome<bool> {
    match v
    case AsWritten => CredentialFormat.IsLegalFormatAsWritten(username, password)
    case Intended => Returned(CredentialFormat.IsLegalFormat(username, password))
  }

  /** POST /login. The ban flag is consulted only once the credentials match;
      a user the store then fails to find is dereferenced all the same. */
  function Login(credentialsOk: bool, user: Option<UserView>): (r: Outcome<Response>)
    ensures !credentialsOk ==> r == Returned(Response(Unauthorized, NoBody, NoStoreCall))
    ensures r.Thrown? <==> credentialsOk && user.None?
    ensures r.Thrown? ==> r.fault == NullPointer
    ensures r.Returned? && r.value.status == Ok <==> credentialsOk && user.Some? && !user.value.banned
    ensures r.Returned? && r.value.status == UnavailableForLegalReasons <==> credentialsOk && user.Some? && user.value.banned
    ensures r.Returned? && r.value.status == Ok ==> r.value.body == UserBody(user.value)
    ensures r.Returned? ==> WellFormed(r.value) && r.value.call == NoStoreCall
  {
    if !credentialsOk then Returned(Response(Unauthorized, NoBody, NoStoreCall))
    else match user
      case None => Thrown(NullPointer)
      case Some(u) =>
        if u.banned then Returned(Response(UnavailableForLegalReasons, NoBody, NoStoreCall))
        else Returned(Response(Ok, UserBody(u), NoStoreCall))
  }

  /** POST /register. Guards in order: existing name, format, store creation. */
  function RegisterUser(v: Validator, usernameExists: bool, createOk: bool, username: string, password: string): (r: Outcome<Response>)
    ensures usernameExists ==> r == Returned(Response(Conflict, NoBody, NoStoreCall))
    ensures r.Thrown? <==> !usernameExists && CheckFormat(v, username, password).Thrown?
    ensures r.Thrown? ==> r.fault == CheckFormat(v, username, password).fault
    ensures r.Returned? && r.value.status == PreconditionFailed <==>
              !usernameExists && CheckFormat(v, username, password) == Returned(false)
    ensures r.Returned? && r.value.call != NoStoreCall <==>
              !usernameExists && CheckFormat(v, username, password) == Returned(true)
    ensures r.Returned? && r.value.call != NoStoreCall ==> r.value.call == CreateUser(username, password)
    ensures r.Returned? && r.value.status == Ok <==>
              !usernameExists && CheckFormat(v, username, password) == Returned(true) && createOk
    ensures r.Returned? && r.value.status == ServiceUnavailable <==>
              !usernameExists && CheckFormat(v, username, password) == Returned(true) && !createOk
    ensures r.Returned? && r.value.status == Ok ==> r.value.body == CreatedBody(username, password)
    ensures r.Returned? ==> WellFormed(r.value)
  {
    if usernameExists then Returned(Response(Conflict, NoBody, NoStoreCall))
    else match CheckFormat(v, username, password)
      case Thrown(f) => Thrown(f)
      case Returned(legal) =>
        if !legal then Returned(Response(PreconditionFailed, NoBody, NoStoreCall))
        else if !createOk then Returned(Response(ServiceUnavailable, NoBody, CreateUser(username, password)))
        else Returned(Response(Ok, CreatedBody(username, password), CreateUser(username, password)))
  }

  /** With the corrected validator, only credentials the documented rule allows reach the store. */
  lemma RegisterCreatesOnlyDocumentedCredentials(usernameExists: bool, createOk: bool, username: string, password: string)
    ensures RegisterUser(Intended, usernameExists, createOk, username, password).Returned?
    ensures RegisterUser(Intended, usernameExists, createOk, username, password).value.call.CreateUser?
            <==> !usernameExists && CredentialFormat.DocumentedRule(username, password)
  {
    CredentialFormat.IsLegalFormatMatchesDocumentedRule(username, password);
  }

  /** As written, a new non-empty username is created whenever both lengths are in range. */
  lemma RegisterAsWrittenChecksOnlyLengths(createOk: bool, username: string, password: string)
    requires |username| > 0
    ensures RegisterUser(AsWritten, false, createOk, username, password).Returned?
    ensures RegisterUser(AsWritten, false, createOk, username, password).value.call.CreateUser?
            <==> CredentialFormat.LengthOk(username) && CredentialFormat.LengthOk(password)
  {
    CredentialFormat.AsWrittenIsLengthCheck(username, password);
  }

  /** As written, registering a new empty username throws instead of answering PRECONDITION_FAILED. */
  lemma RegisterAsWrittenThrowsOnEmptyUsername(createOk: bool, password: string)
    ensures RegisterUser(AsWritten, false, createOk, "", password) == Thrown(StringIndexOutOfBounds)
    ensures RegisterUser(Intended, false, createOk, "", password) == Returned(Response(PreconditionFailed, NoBody, NoStoreCall))
  {
  }

  /** GET /report. The store judges the report type; the controller maps its answer.
      The store may update the user object it is handed in place, so the
      payload is that object as it stands after the call (`afterWrite`). */
  function ReportUser(user: Option<UserView>, reportType: string, addReportOk: bool, afterWrite: UserView): (r: Response)
    ensures r.status == NotFound <==> user.None?
    ensures r.status == MethodNotAllowed <==> user.Some? && !addReportOk
    ensures r.status == Ok <==> user.Some? && addReportOk
    ensures r.call != NoStoreCall <==> user.Some?
    ensures user.Some? ==> r.call == AddReport(user.value, reportType)
    ensures r.status == Ok ==> r.body == UserBody(afterWrite)
    ensures WellFormed(r)
  {
    match user
    case None => Response(NotFound, NoBody, NoStoreCall)
    case Some(u) =>
      if !addReportOk then Response(MethodNotAllowed, NoBody, AddReport(u, reportType))
      else Response(Ok, UserBody(afterWrite), AddReport(u, reportType))
  }

  /** The content item a vote is about: the review section when one is named, else the snippet. */
  function SourceId(request: ImpressionRequest): string {
    if |request.codeReviewSectionId| == 0 then request.snippetId else request.codeReviewSectionId
  }

  /** POST /reputation. A vote by the uploader on their own content is dropped
      silently; any other vote becomes exactly one reputation update. The
      payload is the looked-up user object, which that update may have changed
      in place: `afterWrite` is the object as it stands after the store call. */
  function UpdateUserReputation(user: Option<UserView>, request: ImpressionRequest, afterWrite: UserView): (r: Response)
    ensures r.status == BadRequest <==> user.None?
    ensures r.status == Ok <==> user.Some?
    ensures r.call != NoStoreCall <==> user.Some? && request.uploaderName != request.voterId
    ensures r.call != NoStoreCall ==> r.call.UpdateReputation?
    ensures r.call.UpdateReputation? ==>
              && r.call.user == user.value
              && r.call.voterId == request.voterId
              && r.call.impression == request.impression
              && (|request.codeReviewSectionId| > 0 ==> r.call.sourceId == request.codeReviewSectionId)
              && (|request.codeReviewSectionId| == 0 ==> r.call.sourceId == request.snippetId)
    ensures r.status == Ok && r.call == NoStoreCall ==> r.body == UserBody(user.value)
    ensures r.status == Ok && r.call != NoStoreCall ==> r.body == UserBody(afterWrite)
    ensures WellFormed(r)
  {
    match user
    case None => Response(BadRequest, NoBody, NoStoreCall)
    case Some(u) =>
      if request.uploaderName == request.voterId then Response(Ok, UserBody(u), NoStoreCall)
      else Response(Ok, UserBody(afterWrite), UpdateReputation(u, request.voterId, SourceId(request), request.impression))
  }

  /** Only the uploader, the voter, the chosen source id and the impression
      decide the answer: the id that was not chosen plays no part. */
  lemma UpdateUserReputationDependsOnlyOnChosenSource(
    user: Option<UserView>, a: ImpressionRequest, b: ImpressionRequest, afterWrite: UserView)
    requires a.uploaderName == b.uploaderName && a.voterId == b.voterId
    requires a.impression == b.impression && SourceId(a) == SourceId(b)
    ensures UpdateUserReputation(user, a, afterWrite) == UpdateUserReputation(user, b, afterWrite)
  {
  }

  /** GET /reputation: the stored user's score, or BAD_REQUEST for an unknown user. */
  function GetReputation(user: Option<UserView>): (r: Response)
    ensures r.status == BadRequest <==> user.None?
    ensures user.Some? ==> r.status == Ok && r.body == ScoreBody(user.value.score)
    ensures r.call == NoStoreCall
    ensures WellFormed(r)
  {
    match user
    case None => Response(BadRequest, NoBody, NoStoreCall)
    case Some(u) => Response(Ok, ScoreBody(u.score), NoStoreCall)
  }

  /** GET /ban/{username}: the stored user's ban flag, or BAD_REQUEST for an unknown user. */
  function IsBanned(user: Option<UserView>): (r: Response)
    ensures r.status == BadRequest <==> user.None?
    ensures user.Some? ==> r.status == Ok && r.body == BanBody(user.value.banned)
    ensures r.call == NoStoreCall
    ensures WellFormed(r)
  {
    match user
    case None => Response(BadRequest, NoBody, NoStoreCall)
    case Some(u) => Response(Ok, BanBody(u.banned), NoStoreCall)
  }

  /** Collects the endpoints' contracts for a lookup that finds no user: three
      give BAD_REQUEST, reporting gives NOT_FOUND, and login (past a matching
      credential check) throws. A corollary of those contracts, set side by side. */
  lemma UnknownUserAnswers(
    user: Option<UserView>, reportType: string, addReportOk: bool,
    request: ImpressionRequest, afterWrite: UserView)
    ensures GetReputation(user).status == BadRequest <==> user.None?
    ensures IsBanned(user).status == BadRequest <==> user.None?
    ensures UpdateUserReputation(user, request, afterWrite).status == BadRequest <==> user.None?
    ensures ReportUser(user, reportType, addReportOk, afterWrite).status == NotFound <==> user.None?
    ensures Login(true, user).Thrown? <==> user.None?
    ensures user.None? ==>
              && GetReputation(user).call == NoStoreCall
              && IsBanned(user).call == NoStoreCall
              && UpdateUserReputation(user, request, afterWrite).call == NoStoreCall
              && ReportUser(user, reportType, addReportOk, afterWrite).call == NoStoreCall
  {
  }

  /** A user the ban endpoint reports as banned can never log in, whatever the credentials. */
  lemma BannedUserCannotLogIn(user: UserView, credentialsOk: bool)
    requires IsBanned(Some(user)).body == BanBody(true)
    ensures Login(credentialsOk, Some(user)).Returned?
    ensures Login(credentialsOk, Some(user)).value.status != Ok
  {
  }
}
