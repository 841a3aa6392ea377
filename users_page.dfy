/**
 * The users dashboard: role derivation for the listed identities, the
 * search/role filter, and the set-role and delete handlers.
 */
module UsersPage {
  import opened Wrappers
  import opened Strings
  import opened Seqs
  import opened Backend

  /** An identity as the users endpoint returns it (only the fields the page reads). */
  datatype AuthUser = AuthUser(
    id: string,
    email: Option<string>,
    userMetadataRole: Option<string>,
    appMetadataRole: Option<string>,
    createdAt: Option<string>,
    lastSignInAt: Option<string>)

  /** A listed user. */
  datatype User = User(
    id: string,
    email: Option<string>,
    role: string,
    createdAt: Option<string>,
    lastSignInAt: Option<string>)

  /**
   * `user_metadata?.role || app_metadata?.role || "authenticated"`: the first
   * truthy role wins, so every listed user has a non-empty role.
   */
  function DeriveRole(u: AuthUser): (role: string)
    ensures role != ""
    ensures Truthy(u.userMetadataRole) ==> Some(role) == u.userMetadataRole
    ensures !Truthy(u.userMetadataRole) && Truthy(u.appMetadataRole) ==> Some(role) == u.appMetadataRole
    ensures !Truthy(u.userMetadataRole) && !Truthy(u.appMetadataRole) ==> role == "authenticated"
  {
    OrElse(u.userMetadataRole, OrElse(u.appMetadataRole, "authenticated"))
  }

  /** The record `fetchUsers` builds for one identity. */
  function FormatUser(u: AuthUser): (r: User)
    ensures r.id == u.id && r.email == u.email && r.role == DeriveRole(u)
    ensures r.createdAt == u.createdAt && r.lastSignInAt == u.lastSignInAt
  {
    User(u.id, u.email, DeriveRole(u), u.createdAt, u.lastSignInAt)
  }

  /** The search half of the filter: the lower-cased email or id contains the lower-cased query. */
  predicate MatchesSearch(u: User, query: string) {
    Contains(Lower(u.email.GetOr("")), Lower(query)) || Contains(Lower(u.id), Lower(query))
  }

  /** Whether a user is listed under the current search text and role filter. */
  predicate Shown(u: User, query: string, roleFilter: string) {
    MatchesSearch(u, query) && (roleFilter == "all" || u.role == roleFilter)
  }

  /** `filteredUsers`: exactly the shown users, in their order. */
  function FilteredUsers(users: seq<User>, query: string, roleFilter: string): (r: seq<User>)
    ensures forall k :: 0 <= k < |r| ==> Shown(r[k], query, roleFilter)
    ensures forall k :: 0 <= k < |users| && Shown(users[k], query, roleFilter) ==> users[k] in r
    ensures IsSubsequence(r, users) && |r| <= |users|
  {
    FilterIsSubsequence((u: User) => Shown(u, query, roleFilter), users);
    Filter((u: User) => Shown(u, query, roleFilter), users)
  }

  /** An empty search under the "all" role filter lists every user. */
  lemma EmptySearchShowsAll(users: seq<User>)
    ensures FilteredUsers(users, "", "all") == users
  {
    forall k | 0 <= k < |users| ensures Shown(users[k], "", "all") {
      assert Lower(users[k].id)[..0] == Lower("");
    }
    FilterKeepsAll((u: User) => Shown(u, "", "all"), users);
  }

  /** The list after a successful set-role: only the users with that id change, and only in their role. */
  function WithRole(users: seq<User>, userId: string, role: string): (r: seq<User>)
    ensures |r| == |users|
    ensures forall k :: 0 <= k < |users| && users[k].id != userId ==> r[k] == users[k]
    ensures forall k :: 0 <= k < |users| && users[k].id == userId ==> r[k] == users[k].(role := role)
  {
    seq(|users|, k requires 0 <= k < |users| => if users[k].id == userId then users[k].(role := role) else users[k])
  }

  /** The list after a successful delete: exactly the users with that id are gone. */
  function WithoutUser(users: seq<User>, userId: string): (r: seq<User>)
    ensures forall k :: 0 <= k < |r| ==> r[k].id != userId
    ensures forall k :: 0 <= k < |users| && users[k].id != userId ==> users[k] in r
    ensures IsSubsequence(r, users)
  {
    FilterIsSubsequence((u: User) => u.id != userId, users);
    Filter((u: User) => u.id != userId, users)
  }

  /** The banner shown after an action. */
  datatype Notification = NoNotification | Success(message: string) | Failure(message: string)

  /** The page's state fields. */
  class UsersPage {
    var users: seq<User>
    var searchQuery: string
    var roleFilter: string
    var editingUserId: Option<string>
    var selectedRole: string
    var isUpdating: bool
    var userToDelete: Option<string>
    var showDeleteConfirm: bool
    var notification: Notification

    constructor ()
      ensures users == [] && searchQuery == "" && roleFilter == "all"
      ensures editingUserId == None && selectedRole == "authenticated" && !isUpdating
      ensures userToDelete == None && !showDeleteConfirm && notification == NoNotification
    {
      users := [];
      searchQuery := "";
      roleFilter := "all";
      editingUserId := None;
      selectedRole := "authenticated";
      isUpdating := false;
      userToDelete := None;
      showDeleteConfirm := false;
      notification := NoNotification;
    }

    /** The users listed under the current search text and role filter. */
    function Listed(): (r: seq<User>)
      reads this
      ensures forall k :: 0 <= k < |r| ==> Shown(r[k], searchQuery, roleFilter)
      ensures forall k :: 0 <= k < |users| && Shown(users[k], searchQuery, roleFilter) ==> users[k] in r
      ensures |r| <= |users|
    {
      FilteredUsers(users, searchQuery, roleFilter)
    }

    /**
     * `handleSetRole`, given the endpoint's reply: on success only the matching
     * users take `selectedRole`; on failure the list stays and the error is shown.
     */
    method HandleSetRole(userId: string, reply: Reply<()>) returns (request: Request)
      modifies this
      ensures request == SetUserRole(userId, old(selectedRole))
      ensures reply.Ok? ==>
                users == WithRole(old(users), userId, old(selectedRole))
                && notification == Success("User role updated successfully") && editingUserId == None
      ensures reply.Err? ==>
                users == old(users) && editingUserId == old(editingUserId)
                && notification == Failure(ErrorTextOr(reply, "Failed to update user role"))
      ensures !isUpdating && selectedRole == old(selectedRole)
      ensures searchQuery == old(searchQuery) && roleFilter == old(roleFilter)
      ensures userToDelete == old(userToDelete) && showDeleteConfirm == old(showDeleteConfirm)
    {
      isUpdating := true;
      request := SetUserRole(userId, selectedRole);
      if reply.Ok? {
        users := WithRole(users, userId, selectedRole);
        notification := Success("User role updated successfully");
        editingUserId := None;
      } else {
        notification := Failure(ErrorTextOr(reply, "Failed to update user role"));
      }
      isUpdating := false;
    }

    /** `handleDeleteClick`: remembers the user and opens the dialog. */
    method HandleDeleteClick(userId: string)
      modifies this`userToDelete, this`showDeleteConfirm
      ensures userToDelete == Some(userId) && showDeleteConfirm
    {
      userToDelete := Some(userId);
      showDeleteConfirm := true;
    }

    /**
     * `handleConfirmDelete`, given the endpoint's reply. Without a pending user
     * nothing happens (the dialog stays as it is); otherwise exactly the users
     * with that id leave the list on success, and whatever the reply the dialog
     * closes and the pending id is cleared.
     */
    method HandleConfirmDelete(reply: Reply<()>) returns (request: Option<Request>)
      modifies this
      ensures !Truthy(old(userToDelete)) ==> request == None && unchanged(this)
      ensures Truthy(old(userToDelete)) ==>
                request == Some(DeleteUser(old(userToDelete).value))
                && !showDeleteConfirm && userToDelete == None && !isUpdating
      ensures Truthy(old(userToDelete)) && reply.Ok? ==>
                users == WithoutUser(old(users), old(userToDelete).value)
                && notification == Success("User deleted successfully")
      ensures Truthy(old(userToDelete)) && reply.Err? ==>
                users == old(users) && notification == Failure(ErrorTextOr(reply, "Failed to delete user"))
      ensures searchQuery == old(searchQuery) && roleFilter == old(roleFilter)
      ensures editingUserId == old(editingUserId) && selectedRole == old(selectedRole)
    {
      request := None;
      if !Truthy(userToDelete) {
        return;
      }
      var id := userToDelete.value;
      isUpdating := true;
      request := Some(DeleteUser(id));
      if reply.Ok? {
        users := WithoutUser(users, id);
        notification := Success("User deleted successfully");
      } else {
        notification := Failure(ErrorTextOr(reply, "Failed to delete user"));
      }
      isUpdating := false;
      showDeleteConfirm := false;
      userToDelete := None;
    }

    /** `handleCancelDelete`. */
    method HandleCancelDelete()
      modifies this`userToDelete, this`showDeleteConfirm
      ensures userToDelete == None && !showDeleteConfirm
    {
      showDeleteConfirm := false;
      userToDelete := None;
    }
  }
}
