/**
 * The admin page: a role check decides whether the signed-in user may see
 * the contact submissions, which are then fetched and can be marked read or
 * unread one by one.
 */
module Admin {
  import opened Wrappers
  import opened Backend

  /** A row of `contact_submissions`. */
  datatype ContactSubmission = ContactSubmission(
    id: string,
    name: string,
    email: string,
    phone: Option<string>,
    message: string,
    createdAt: string,
    read: bool)

  /** The signed-in user, as far as this page reads it. */
  datatype User = User(id: string, email: string)

  /** A row of `user_roles` as the role query selects it. */
  datatype RoleRow = RoleRow(role: string)

  const AdminRole := "admin"

  /** The update `toggleRead` sends: set `read` of the rows with this `id`. */
  datatype ReadUpdate = ReadUpdate(id: string, read: bool)

  /** What the page renders. */
  datatype View = Loading | AccessDenied | Submissions(list: seq<ContactSubmission>)

  /** `!!data`: an admin exactly when the role query returned a row; a failed query returns none. */
  function IsAdmin(roleReply: Reply<RoleRow>): (admin: bool)
    ensures admin <==> roleReply.data.Some?
    ensures roleReply.failed && roleReply.data.None? ==> !admin
  {
    roleReply.data.Some?
  }

  /** Where the page sends a visitor once auth has loaded: to "/" when nobody is signed in. */
  function Redirect(authLoading: bool, user: Option<User>): (route: Option<string>)
    ensures route.Some? <==> !authLoading && user.None?
    ensures route.Some? ==> route.value == "/"
  {
    if !authLoading && user.None? then Some("/") else None
  }

  /**
   * `prev.map(s => s.id === id ? { ...s, read: !currentRead } : s)`: every entry
   * with that id gets `read == !currentRead`; nothing else changes, in place or order.
   */
  function Toggled(subs: seq<ContactSubmission>, id: string, currentRead: bool): (r: seq<ContactSubmission>)
    ensures |r| == |subs|
    ensures forall i :: 0 <= i < |subs| ==> r[i].(read := subs[i].read) == subs[i]
    ensures forall i :: 0 <= i < |subs| ==>
      r[i].read == if subs[i].id == id then !currentRead else subs[i].read
  {
    if subs == [] then []
    else
      var s := subs[0];
      [if s.id == id then s.(read := !currentRead) else s] + Toggled(subs[1..], id, currentRead)
  }

  /** Submission ids are distinct, as the table's key makes them. */
  predicate UniqueIds(subs: seq<ContactSubmission>) {
    forall i, j :: 0 <= i < j < |subs| ==> subs[i].id != subs[j].id
  }

  /** Toggling an entry twice, each time passing the flag it displays, restores that entry. */
  lemma ToggleTwiceRestoresEntry(subs: seq<ContactSubmission>, k: nat)
    requires k < |subs|
    ensures var once := Toggled(subs, subs[k].id, subs[k].read);
      Toggled(once, once[k].id, once[k].read)[k] == subs[k]
  {
  }

  /** With distinct ids, toggling an entry twice restores the whole list. */
  lemma ToggleTwiceRestoresList(subs: seq<ContactSubmission>, k: nat)
    requires k < |subs| && UniqueIds(subs)
    ensures var once := Toggled(subs, subs[k].id, subs[k].read);
      Toggled(once, once[k].id, once[k].read) == subs
  {
    var once := Toggled(subs, subs[k].id, subs[k].read);
    var twice := Toggled(once, once[k].id, once[k].read);
    forall i | 0 <= i < |subs| ensures twice[i] == subs[i] {
      assert twice[i].(read := subs[i].read) == subs[i];
    }
  }

  /** The render gate: Loading while auth or the role check runs, then Access Denied unless admin. */
  function Gate(authLoading: bool, checkingRole: bool, isAdmin: bool,
                subs: seq<ContactSubmission>): (v: View)
    ensures v.Loading? <==> authLoading || checkingRole
    ensures v.AccessDenied? <==> !authLoading && !checkingRole && !isAdmin
    ensures v.Submissions? ==> isAdmin && v.list == subs
  {
    if authLoading || checkingRole then Loading
    else if !isAdmin then AccessDenied
    else Submissions(subs)
  }

  /** A user whose role query returns no row is denied once the check is done, whatever was loaded. */
  lemma NoRoleRowDenied(roleReply: Reply<RoleRow>, subs: seq<ContactSubmission>)
    requires roleReply.data.None?
    ensures Gate(false, false, IsAdmin(roleReply), subs) == AccessDenied
  {
  }

  /** The page's state: one field per `useState` of the source; `useAuth` is a parameter. */
  class AdminPage {
    var submissions: seq<ContactSubmission>
    var isAdmin: bool
    var checkingRole: bool

    /** Admin is only ever granted by a finished role check. */
    ghost predicate Valid()
      reads this
    {
      isAdmin ==> !checkingRole
    }

    function Render(authLoading: bool): View
      reads this
    {
      Gate(authLoading, checkingRole, isAdmin, submissions)
    }

    constructor ()
      ensures Valid()
      ensures submissions == [] && !isAdmin && checkingRole
      ensures forall authLoading :: Render(authLoading) == Loading
    {
      submissions := [];
      isAdmin := false;
      checkingRole := true;
    }

    /**
     * `checkAdminRole`: with a user, ask `roles` for the row `(user.id, "admin")`
     * and record whether one came back. `query` is what was asked, if anything.
     */
    method CheckAdminRole(user: Option<User>, roles: (string, string) -> Reply<RoleRow>)
      returns (query: Option<(string, string)>)
      requires Valid()
      modifies this`isAdmin, this`checkingRole
      ensures Valid()
      ensures user.None? ==> query.None? && isAdmin == old(isAdmin) && checkingRole == old(checkingRole)
      ensures user.Some? ==>
        && query == Some((user.value.id, AdminRole))
        && isAdmin == IsAdmin(roles(user.value.id, AdminRole))
        && !checkingRole
    {
      if user.None? {
        return None;
      }
      query := Some((user.value.id, AdminRole));
      var reply := roles(user.value.id, AdminRole);
      isAdmin := IsAdmin(reply);
      checkingRole := false;
    }

    /** `fetchSubmissions`: only for an admin; the list is replaced only by a successful, non-null answer. */
    method FetchSubmissions(reply: Reply<seq<ContactSubmission>>) returns (fetched: bool)
      requires Valid()
      modifies this`submissions
      ensures Valid()
      ensures fetched == isAdmin
      ensures fetched ==> !checkingRole
      ensures submissions ==
        if isAdmin && !reply.failed && reply.data.Some? then reply.data.value else old(submissions)
    {
      if !isAdmin {
        return false;
      }
      fetched := true;
      if !reply.failed && reply.data.Some? {
        submissions := reply.data.value;
      }
    }

    /** `toggleRead(id, currentRead)`: the update is sent; the list changes only if it succeeded. */
    method ToggleRead(id: string, currentRead: bool, failed: bool) returns (sent: ReadUpdate)
      requires Valid()
      modifies this`submissions
      ensures Valid()
      ensures sent == ReadUpdate(id, !currentRead)
      ensures submissions == if failed then old(submissions) else Toggled(old(submissions), id, currentRead)
    {
      sent := ReadUpdate(id, !currentRead);
      if !failed {
        submissions := Toggled(submissions, id, currentRead);
      }
    }
  }
}
