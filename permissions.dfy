/** The permission classes of apps/tickets/permissions.py as predicates over
    the request (its HTTP method and its user) and the object asked for.

    Where the source compares a model attribute with a user name
    (`obj.assigned_to == request.user.username`, `obj.network_user ==
    request.user.username`) the attribute is the `Value` Python reads, a
    row for a foreign key, and the comparison is `Value` equality, which is
    Python's `==`; where it compares one user object with another
    (`obj.user == request.user`) the outcome is an input. */
module Permissions {
  import opened Text
  import opened Models

  /** `permissions.SAFE_METHODS`. */
  const SafeMethods: set<string> := {"GET", "HEAD", "OPTIONS"}

  predicate IsSafe(httpMethod: string) { httpMethod in SafeMethods }

  datatype User = User(username: string, isStaff: bool, isSuperuser: bool, isAuthenticated: bool)

  /** `request.user` may be missing (`None`). */
  datatype Request = Request(httpMethod: string, user: Option<User>)

  predicate IsStaff(req: Request) { req.user.Some? && req.user.value.isStaff }

  // ---------------------------------------------------------------------
  // IsAdminOrReadOnly

  /** `IsAdminOrReadOnly.has_permission`. */
  predicate AdminOrReadOnly(req: Request)
  {
    if IsSafe(req.httpMethod) then true else req.user.Some? && req.user.value.isStaff
  }

  /** Reading is open to every request, a user or none; any other method
      needs a staff user. */
  lemma {:induction false} AdminOrReadOnlyRule(req: Request)
    ensures IsSafe(req.httpMethod) ==> AdminOrReadOnly(req)
    ensures !IsSafe(req.httpMethod) ==> (AdminOrReadOnly(req) <==> IsStaff(req))
    ensures req.user.None? ==> (AdminOrReadOnly(req) <==> req.httpMethod in {"GET", "HEAD", "OPTIONS"})
  {
  }

  /** The method names are matched exactly: a lower-case `get` is a write. */
  lemma AdminOrReadOnlyCaseSensitive()
    ensures !AdminOrReadOnly(Request("get", None))
    ensures AdminOrReadOnly(Request("GET", None))
  {
  }

  // ---------------------------------------------------------------------
  // IsTicketOwnerOrAssigned

  /** `IsTicketOwnerOrAssigned.has_object_permission` as written:
      `reporterNetworkUser` is `obj.reporter_user.network_user` and
      `assignedTo` is the key held in `obj.assigned_to`, whose row
      (`AssignedValue`) is compared as it stands with the username string. The source reads `request.user.is_staff`, so a user
      is required. */
  predicate TicketOwnerOrAssigned(req: Request, reporterNetworkUser: string, assignedTo: Option<string>)
    requires req.user.Some?
  {
    if req.user.value.isStaff then true
    else
      || reporterNetworkUser == req.user.value.username
      || AssignedValue(assignedTo) == Str(req.user.value.username)
  }

  /** As written, staff always pass and anyone else passes exactly as the
      reporter: the assignee comparison never holds, so the assignee plays
      no part. The method plays none either. */
  lemma {:induction false} TicketOwnerOrAssignedRule(req: Request, reporterNetworkUser: string, assignedTo: Option<string>)
    requires req.user.Some?
    ensures req.user.value.isStaff ==> TicketOwnerOrAssigned(req, reporterNetworkUser, assignedTo)
    ensures !req.user.value.isStaff ==>
      (TicketOwnerOrAssigned(req, reporterNetworkUser, assignedTo) <==>
        reporterNetworkUser == req.user.value.username)
    ensures forall m :: (TicketOwnerOrAssigned(Request(m, req.user), reporterNetworkUser, assignedTo) ==
      TicketOwnerOrAssigned(req, reporterNetworkUser, assignedTo))
  {
  }

  /** The assignee who is not the reporter is refused as written, though
      the class is meant to let the assignee in. */
  lemma {:induction false} AssigneeRefused(u: User, m: string, reporterNetworkUser: string)
    requires !u.isStaff && reporterNetworkUser != u.username
    ensures !TicketOwnerOrAssigned(Request(m, Some(u)), reporterNetworkUser, Some(u.username))
    ensures TicketOwnerOrAssignedIntended(Request(m, Some(u)), reporterNetworkUser, Some(u.username))
  {
  }

  /** The check as intended: the assignee's network user, the key the
      ticket holds, is compared with the username. */
  predicate TicketOwnerOrAssignedIntended(req: Request, reporterNetworkUser: string, assignedTo: Option<string>)
    requires req.user.Some?
  {
    if req.user.value.isStaff then true
    else
      || reporterNetworkUser == req.user.value.username
      || assignedTo == Some(req.user.value.username)
  }

  /** As intended, staff pass and anyone else passes exactly as the reporter
      or the assignee, whatever the method; every request the written check
      lets through is let through by the intended one. */
  lemma {:induction false} TicketOwnerOrAssignedIntendedRule(req: Request, reporterNetworkUser: string, assignedTo: Option<string>)
    requires req.user.Some?
    ensures req.user.value.isStaff ==> TicketOwnerOrAssignedIntended(req, reporterNetworkUser, assignedTo)
    ensures !req.user.value.isStaff ==>
      (TicketOwnerOrAssignedIntended(req, reporterNetworkUser, assignedTo) <==>
        reporterNetworkUser == req.user.value.username
        || assignedTo == Some(req.user.value.username))
    ensures forall m :: (TicketOwnerOrAssignedIntended(Request(m, req.user), reporterNetworkUser, assignedTo) ==
      TicketOwnerOrAssignedIntended(req, reporterNetworkUser, assignedTo))
    ensures TicketOwnerOrAssigned(req, reporterNetworkUser, assignedTo) ==>
      TicketOwnerOrAssignedIntended(req, reporterNetworkUser, assignedTo)
  {
  }

  // ---------------------------------------------------------------------
  // IsNoteOwnerOrStaff

  /** `IsNoteOwnerOrStaff.has_permission`. */
  predicate NoteAccess(req: Request)
  {
    req.user.Some? && req.user.value.isAuthenticated
  }

  /** `IsNoteOwnerOrStaff.has_object_permission`, with the note's
      `visible_to_client` flag. */
  predicate NoteObjectAccess(req: Request, visibleToClient: bool)
    requires req.user.Some?
  {
    if req.user.value.isStaff then true
    else if IsSafe(req.httpMethod) then visibleToClient
    else false
  }

  /** A non-staff user is never let through to change a note, visible or not. */
  lemma {:induction false} NonStaffCannotChangeNotes(u: User, m: string, visibleToClient: bool)
    requires !u.isStaff && m !in {"GET", "HEAD", "OPTIONS"}
    ensures !NoteObjectAccess(Request(m, Some(u)), visibleToClient)
  {
  }

  /** Notes are closed to a request without a user even for reading,
      though `IsAdminOrReadOnly` lets such a request read; a user who is
      merely authenticated passes the note view check whatever the method. */
  lemma {:induction false} NotesNeedAUser(m: string, u: User)
    requires IsSafe(m)
    ensures AdminOrReadOnly(Request(m, None)) && !NoteAccess(Request(m, None))
    ensures u.isAuthenticated ==> forall m' :: NoteAccess(Request(m', Some(u)))
  {
  }

  // ---------------------------------------------------------------------
  // CanManageTickets

  /** `CanManageTickets.has_permission`. */
  predicate ManageTickets(req: Request)
  {
    req.user.Some? && (req.user.value.isStaff || req.user.value.isSuperuser)
  }

  /** A superuser who is not staff may manage tickets, yet is refused every
      write by `IsAdminOrReadOnly`; for staff the two agree. */
  lemma {:induction false} SuperuserManagesButCannotWrite(u: User, m: string)
    requires u.isSuperuser && !u.isStaff && !IsSafe(m)
    ensures ManageTickets(Request(m, Some(u)))
    ensures !AdminOrReadOnly(Request(m, Some(u)))
  {
  }

  lemma {:induction false} ManageTicketsRule(req: Request)
    ensures ManageTickets(req) <==> req.user.Some? && (req.user.value.isStaff || req.user.value.isSuperuser)
    ensures IsStaff(req) ==> ManageTickets(req) && AdminOrReadOnly(req)
    ensures req.user.None? ==> !ManageTickets(req)
  {
  }

  // ---------------------------------------------------------------------
  // IsOwnerOrReadOnly

  /** The attributes `IsOwnerOrReadOnly` looks for on an object: `user` (as
      the outcome of `obj.user == request.user`) and `network_user` (as its
      value), each absent when the object has no such attribute. An `EUser`
      or `User` row holds its own network user as a string; a `Note` or a
      `ReportedTime` holds the `EUser` row it points to, or `None`. */
  datatype Owned = Owned(userMatches: Option<bool>, networkUser: Option<Value>)

  /** `IsOwnerOrReadOnly.has_object_permission`. */
  predicate OwnerOrReadOnly(req: Request, obj: Owned)
    requires req.user.Some?
  {
    if IsSafe(req.httpMethod) then true
    else if req.user.value.isStaff then true
    else if obj.userMatches.Some? then obj.userMatches.value
    else if obj.networkUser.Some? then obj.networkUser.value == Str(req.user.value.username)
    else false
  }

  /** Reads and staff always pass. A write by anyone else passes through
      the `user` attribute when the object has one, whatever its
      `network_user`; through `network_user` otherwise; and never for an
      object with neither. */
  lemma {:induction false} OwnerOrReadOnlyRule(req: Request, obj: Owned)
    requires req.user.Some?
    ensures IsSafe(req.httpMethod) || req.user.value.isStaff ==> OwnerOrReadOnly(req, obj)
    ensures !IsSafe(req.httpMethod) && !req.user.value.isStaff ==>
      (OwnerOrReadOnly(req, obj) <==>
        if obj.userMatches.Some? then obj.userMatches.value
        else obj.networkUser == Some(Str(req.user.value.username)))
  {
  }

  /** As written, the author of a note or of a reported time is refused a
      write: the object's `network_user` is the author's `EUser` row, which
      never equals the username string. The intended check lets them in. */
  lemma {:induction false} AuthorRefused(u: User, m: string)
    requires !u.isStaff && !IsSafe(m)
    ensures !OwnerOrReadOnly(Request(m, Some(u)), Owned(None, Some(KeyRow("EUser", u.username))))
    ensures OwnerOrReadOnlyIntended(Request(m, Some(u)), Owned(None, Some(KeyRow("EUser", u.username))))
  {
  }

  /** The network user an attribute names: the string itself, or the key of
      the `EUser` row it holds. */
  function NetworkUserKey(v: Value): (r: Option<string>)
    ensures v.Str? ==> r == Some(v.s)
    ensures v.KeyRow? && v.model == "EUser" ==> r == Some(v.key)
    ensures r.Some? ==> v.Str? || v.KeyRow?
  {
    match v
    case Str(s) => Some(s)
    case KeyRow(model, key) => if model == "EUser" then Some(key) else None
    case _ => None
  }

  /** `IsOwnerOrReadOnly.has_object_permission` as intended: the network
      user named by `network_user` is compared with the username. */
  predicate OwnerOrReadOnlyIntended(req: Request, obj: Owned)
    requires req.user.Some?
  {
    if IsSafe(req.httpMethod) then true
    else if req.user.value.isStaff then true
    else if obj.userMatches.Some? then obj.userMatches.value
    else if obj.networkUser.Some? then NetworkUserKey(obj.networkUser.value) == Some(req.user.value.username)
    else false
  }

  /** As intended, a write by someone other than staff passes through
      `network_user` exactly when it names that user, whether it holds the
      string or the `EUser` row; the written check is never laxer, and the
      two agree on objects whose `network_user` is a string. */
  lemma {:induction false} OwnerOrReadOnlyIntendedRule(req: Request, obj: Owned)
    requires req.user.Some?
    ensures OwnerOrReadOnly(req, obj) ==> OwnerOrReadOnlyIntended(req, obj)
    ensures obj.userMatches.None? && obj.networkUser.Some? && !IsSafe(req.httpMethod) && !req.user.value.isStaff ==>
      (OwnerOrReadOnlyIntended(req, obj) <==> NetworkUserKey(obj.networkUser.value) == Some(req.user.value.username))
    ensures obj.networkUser.None? || obj.networkUser.value.Str? ==>
      (OwnerOrReadOnly(req, obj) <==> OwnerOrReadOnlyIntended(req, obj))
  {
  }

  /** The `user` attribute shadows `network_user`: an object whose user
      does not match is refused even when its network user does. */
  lemma {:induction false} UserAttributeFirst(u: User, m: string)
    requires !u.isStaff && !IsSafe(m)
    ensures !OwnerOrReadOnly(Request(m, Some(u)), Owned(Some(false), Some(Str(u.username))))
    ensures OwnerOrReadOnly(Request(m, Some(u)), Owned(None, Some(Str(u.username))))
    ensures !OwnerOrReadOnly(Request(m, Some(u)), Owned(None, None))
  {
  }

  /** Staff may write through `IsOwnerOrReadOnly` exactly as through
      `IsNoteOwnerOrStaff`: both let staff do anything. For a non-staff
      user, the note rule is never more permissive on a write. */
  lemma {:induction false} NoteRuleNoLaxerOnWrites(req: Request, visibleToClient: bool, obj: Owned)
    requires req.user.Some? && !IsSafe(req.httpMethod)
    ensures NoteObjectAccess(req, visibleToClient) ==> OwnerOrReadOnly(req, obj)
  {
  }
}
