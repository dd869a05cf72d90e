/**
 * The administrators' user list: which endpoint loads the users for the
 * status filter, the server-side search, the create, edit and
 * reset-password dialogs with their checks, the activate/deactivate toggle
 * and the role filter over the loaded users.
 */
module AdminUserManagement {
  import opened Common
  import opened Types

  /** The value of a role in the server's JSON and in the role filter. */
  function RoleName(r: UserRole): Text {
    match r
    case ADMIN => "ADMIN"
    case MODERATOR => "MODERATOR"
    case USER => "USER"
    case GUEST => "GUEST"
  }

  lemma RoleNameInjective(a: UserRole, b: UserRole)
    ensures RoleName(a) == RoleName(b) <==> a == b
  {
  }

  /** getRoleBadgeColor */
  function RoleBadgeColor(r: UserRole): Text {
    match r
    case ADMIN => "bg-red-100 text-red-700"
    case MODERATOR => "bg-purple-100 text-purple-700"
    case USER => "bg-blue-100 text-blue-700"
    case GUEST => "bg-gray-100 text-gray-700"
  }

  // ---------------------------------------------------------------------------
  // Loading and searching

  /** loadUsers: the endpoint for the status filter. */
  function LoadPath(statusFilter: Text): (p: Text)
    ensures statusFilter == "active" ==> p == "/api/users/active"
    ensures statusFilter == "inactive" ==> p == "/api/users/inactive"
    ensures statusFilter != "active" && statusFilter != "inactive" ==> p == "/api/users"
  {
    if statusFilter == "active" then "/api/users/active"
    else if statusFilter == "inactive" then "/api/users/inactive"
    else "/api/users"
  }

  function BoolText(b: bool): Text {
    if b then "true" else "false"
  }

  /**
   * The search endpoint; `encode` stands for encodeURIComponent. Only the
   * "active" status narrows the search.
   */
  function SearchPath(query: Text, statusFilter: Text, encode: Text -> Text): Text {
    "/api/users/search?keyword=" + encode(query) + "&activeOnly=" + BoolText(statusFilter == "active")
  }

  /** handleSearch: a blank query reloads the list, any other searches. */
  function SearchRequestPath(query: Text, statusFilter: Text, encode: Text -> Text): (p: Text)
    ensures IsBlank(query) ==> p == LoadPath(statusFilter)
    ensures !IsBlank(query) ==> p == SearchPath(query, statusFilter, encode)
  {
    if IsBlank(query) then LoadPath(statusFilter) else SearchPath(query, statusFilter, encode)
  }

  /** The search asks for active users only iff the status filter is "active". */
  lemma SearchActiveOnlyIff(query: Text, statusFilter: Text, encode: Text -> Text)
    ensures var p := SearchPath(query, statusFilter, encode);
      p[|p| - 4..] == "true" <==> statusFilter == "active"
  {
    var p := SearchPath(query, statusFilter, encode);
    if statusFilter != "active" {
      assert p[|p| - 5..] == "false";
      assert p[|p| - 4..] == "alse";
    }
  }

  // ---------------------------------------------------------------------------
  // Role filter

  /** filterUsers: everyone for "all", otherwise the users whose role is the value. */
  function FilterUsers(users: seq<User>, roleFilter: Text): (r: seq<User>)
    ensures roleFilter == "all" ==> r == users
    ensures roleFilter != "all" ==> forall u :: u in r <==> u in users && RoleName(u.role) == roleFilter
    ensures roleFilter != "all" ==> forall u :: multiset(r)[u] == if RoleName(u.role) == roleFilter then multiset(users)[u] else 0
    ensures IsSubsequence(r, users)
  {
    if roleFilter == "all" then
      SubsequenceRefl(users);
      users
    else
      FilterIsSubsequence(users, (u: User) => RoleName(u.role) == roleFilter);
      FilterCounts(users, (u: User) => RoleName(u.role) == roleFilter);
      Filter(users, (u: User) => RoleName(u.role) == roleFilter)
  }

  /** Choosing a role keeps exactly the users with that role. */
  lemma FilterByRole(users: seq<User>, role: UserRole, u: User)
    ensures u in FilterUsers(users, RoleName(role)) <==> u in users && u.role == role
  {
    RoleNameInjective(u.role, role);
    assert RoleName(role) != "all" by {
      assert RoleName(role)[0] != 'a';
    }
  }

  /** Every user is listed under exactly one role. */
  lemma {:induction false} RolesPartitionUsers(users: seq<User>)
    ensures |FilterUsers(users, "ADMIN")| + |FilterUsers(users, "MODERATOR")|
      + |FilterUsers(users, "USER")| + |FilterUsers(users, "GUEST")| == |users|
    decreases |users|
  {
    if users != [] {
      RolesPartitionUsers(users[1..]);
      FilterUsersCons(users, ADMIN);
      FilterUsersCons(users, MODERATOR);
      FilterUsersCons(users, USER);
      FilterUsersCons(users, GUEST);
    }
  }

  /** The role filter on a list with a first element. */
  lemma FilterUsersCons(users: seq<User>, role: UserRole)
    requires users != []
    ensures |FilterUsers(users, RoleName(role))| ==
      (if users[0].role == role then 1 else 0) + |FilterUsers(users[1..], RoleName(role))|
  {
    RoleNameInjective(users[0].role, role);
    assert RoleName(role)[0] != 'a';
  }

  // ---------------------------------------------------------------------------
  // Forms

  /** UserFormData; the password is absent after opening the edit dialog. */
  datatype UserForm = UserForm(
    email: Text,
    firstName: Text,
    lastName: Text,
    username: Text,
    phoneNumber: Text,
    role: UserRole,
    password: Option<Text>)

  /** resetForm's form: every field empty and the role USER. */
  const EMPTY_FORM := UserForm("", "", "", "", "", USER, Some(""))

  /** openEditModal's form: the user's fields and no password. */
  function EditFormOf(u: User): UserForm {
    UserForm(u.email, u.firstName, u.lastName, u.username, u.phoneNumber, u.role, None)
  }

  /** handleCreateUser's guard: everything but the phone number is required. */
  predicate MayCreate(f: UserForm) {
    f.email != [] && f.firstName != [] && f.lastName != [] && f.username != []
    && f.password.Some? && f.password.value != []
  }

  /** The update request carries the name, the e-mail and the role only. */
  datatype UserUpdate = UserUpdate(email: Text, firstName: Text, lastName: Text, role: UserRole)

  /** handleUpdateUser's guard: a selected user, an e-mail and both names. */
  predicate MayUpdate(selected: Option<User>, f: UserForm) {
    selected.Some? && f.email != [] && f.firstName != [] && f.lastName != []
  }

  /** A user opened for editing can be saved unchanged iff the three fields are set. */
  lemma EditedUserSavable(u: User)
    ensures MayUpdate(Some(u), EditFormOf(u)) <==> u.email != [] && u.firstName != [] && u.lastName != []
    ensures !MayCreate(EditFormOf(u))
  {
  }

  function UserPath(id: int): Text {
    "/api/users/" + IntToString(id)
  }

  /** handleToggleActive: the endpoint that flips the user's status. */
  function TogglePath(id: int, currentlyActive: bool): Text {
    UserPath(id) + (if currentlyActive then "/deactivate" else "/activate")
  }

  /** The toggle deactivates exactly the active users. */
  lemma TogglePathIff(id: int, currentlyActive: bool)
    ensures EndsWith(TogglePath(id, currentlyActive), "/deactivate") <==> currentlyActive
  {
    var p := TogglePath(id, currentlyActive);
    var q := UserPath(id);
    if !currentlyActive {
      assert p == q + "/activate";
      assert IsDigit(q[|q| - 1]) by {
        var d := IntToString(id);
        assert q == "/api/users/" + d;
        assert q[|q| - 1] == d[|d| - 1];
        if id < 0 { assert d[|d| - 1] == NatDigits(-id)[|d| - 2]; }
      }
      assert p[|p| - 10] == q[|q| - 1];
    }
  }

  datatype ResetCheck = PasswordsDiffer | PasswordTooShort | ResetOk

  /** handleResetPassword's checks, in order: the two entries agree, then at least 6 characters. */
  function CheckReset(newPassword: Text, confirmPassword: Text): (r: ResetCheck)
    ensures r == PasswordsDiffer <==> newPassword != confirmPassword
    ensures r == ResetOk <==> newPassword == confirmPassword && |newPassword| >= 6
  {
    if newPassword != confirmPassword then PasswordsDiffer
    else if |newPassword| < 6 then PasswordTooShort
    else ResetOk
  }

  /** The server's answer to a request: accepted, or refused with its message (maybe empty). */
  datatype Outcome = Accepted | Refused(serverMessage: Text)

  /** `error.response?.data?.message || fallback` */
  function ErrorToast(serverMessage: Text, fallback: Text): (t: Text)
    ensures serverMessage != [] ==> t == serverMessage
    ensures serverMessage == [] ==> t == fallback
  {
    if serverMessage != [] then serverMessage else fallback
  }

  datatype Request =
    | Get(path: Text)
    | CreateUser(form: UserForm)
    | UpdateUser(path: Text, update: UserUpdate)
    | Patch(path: Text)
    | ResetPassword(path: Text, newPassword: Text)

  class AdminUserManagementPage {
    var users: seq<User>
    var searchQuery: Text
    var roleFilter: Text
    var statusFilter: Text
    var createModalOpen: bool
    var editModalOpen: bool
    var resetPasswordModalOpen: bool
    var selectedUser: Option<User>
    var formData: UserForm
    var newPassword: Text
    var confirmPassword: Text

    constructor()
      ensures users == [] && searchQuery == [] && roleFilter == "all" && statusFilter == "all"
      ensures !createModalOpen && !editModalOpen && !resetPasswordModalOpen
      ensures selectedUser.None? && formData == EMPTY_FORM && newPassword == [] && confirmPassword == []
    {
      users := [];
      searchQuery := [];
      roleFilter := "all";
      statusFilter := "all";
      createModalOpen := false;
      editModalOpen := false;
      resetPasswordModalOpen := false;
      selectedUser := None;
      formData := EMPTY_FORM;
      newPassword := [];
      confirmPassword := [];
    }

    /** The rows of the table. */
    function Shown(): seq<User>
      reads this
    {
      FilterUsers(users, roleFilter)
    }

    /** loadUsers: the endpoint for the status filter; a failure keeps the list. */
    method LoadUsers(response: Option<seq<User>>) returns (request: Request)
      modifies this`users
      ensures request == Get(LoadPath(statusFilter))
      ensures users == if response.Some? then response.value else old(users)
    {
      request := Get(LoadPath(statusFilter));
      if response.Some? {
        users := response.value;
      }
    }

    /**
     * Choosing a status: the `[statusFilter]` effect reloads the users from the
     * matching endpoint only when the value actually changes.
     */
    method ChangeStatusFilter(value: Text, response: Option<seq<User>>) returns (request: Option<Request>)
      modifies this`statusFilter, this`users
      ensures statusFilter == value
      ensures request.Some? <==> value != old(statusFilter)
      ensures request.Some? ==> request.value == Get(LoadPath(value))
      ensures users == if request.Some? && response.Some? then response.value else old(users)
    {
      if value == statusFilter {
        return None;
      }
      statusFilter := value;
      var r := LoadUsers(response);
      request := Some(r);
    }

    /** handleSearch: the search endpoint, or a plain reload for a blank query. */
    method Search(encode: Text -> Text, response: Option<seq<User>>) returns (request: Request)
      modifies this`users
      ensures request == Get(SearchRequestPath(searchQuery, statusFilter, encode))
      ensures users == if response.Some? then response.value else old(users)
    {
      if IsBlank(searchQuery) {
        request := LoadUsers(response);
        return;
      }
      request := Get(SearchPath(searchQuery, statusFilter, encode));
      if response.Some? {
        users := response.value;
      }
    }

    /** resetForm: the empty form and no selected user. */
    method ResetForm()
      modifies this`formData, this`selectedUser
      ensures formData == EMPTY_FORM && selectedUser.None?
    {
      formData := EMPTY_FORM;
      selectedUser := None;
    }

    method OpenEditModal(u: User)
      modifies this`formData, this`selectedUser, this`editModalOpen
      ensures selectedUser == Some(u) && formData == EditFormOf(u) && editModalOpen
    {
      selectedUser := Some(u);
      formData := EditFormOf(u);
      editModalOpen := true;
    }

    method OpenResetPasswordModal(u: User)
      modifies this`selectedUser, this`resetPasswordModalOpen
      ensures selectedUser == Some(u) && resetPasswordModalOpen
    {
      selectedUser := Some(u);
      resetPasswordModalOpen := true;
    }

    /**
     * handleCreateUser: nothing is sent with a required field missing.
     * Otherwise the form is posted; on success the dialog closes, the form is
     * reset and the list reloaded; on failure the server's message, or the
     * fallback, is shown and the form stays.
     */
    method CreateUserSubmit(outcome: Outcome, reload: Option<seq<User>>) returns (request: Option<Request>, error: Option<Text>)
      modifies this`createModalOpen, this`formData, this`selectedUser, this`users
      ensures request.Some? <==> MayCreate(old(formData))
      ensures request.Some? ==> request.value == CreateUser(old(formData))
      ensures request.Some? && outcome.Accepted? ==>
        !createModalOpen && formData == EMPTY_FORM && selectedUser.None?
        && users == (if reload.Some? then reload.value else old(users))
      ensures request.Some? && outcome.Refused? ==>
        error == Some(ErrorToast(outcome.serverMessage, "Failed to create user"))
      ensures !(request.Some? && outcome.Accepted?) ==>
        createModalOpen == old(createModalOpen) && formData == old(formData)
        && selectedUser == old(selectedUser) && users == old(users)
    {
      request, error := None, None;
      if !MayCreate(formData) {
        error := Some("Please fill in all required fields");
        return;
      }
      request := Some(CreateUser(formData));
      match outcome
      case Accepted =>
        createModalOpen := false;
        ResetForm();
        var _ := LoadUsers(reload);
      case Refused(message) =>
        error := Some(ErrorToast(message, "Failed to create user"));
    }

    /**
     * handleUpdateUser: nothing is sent without a selected user or with the
     * e-mail or a name missing; otherwise the user's e-mail, names and role
     * are sent, and a success closes the dialog, resets the form and reloads.
     */
    method UpdateUserSubmit(outcome: Outcome, reload: Option<seq<User>>) returns (request: Option<Request>, error: Option<Text>)
      modifies this`editModalOpen, this`formData, this`selectedUser, this`users
      ensures request.Some? <==> MayUpdate(old(selectedUser), old(formData))
      ensures request.Some? ==> request.value == UpdateUser(UserPath(old(selectedUser).value.id),
        UserUpdate(old(formData).email, old(formData).firstName, old(formData).lastName, old(formData).role))
      ensures request.Some? && outcome.Accepted? ==>
        !editModalOpen && formData == EMPTY_FORM && selectedUser.None?
        && users == (if reload.Some? then reload.value else old(users))
      ensures request.Some? && outcome.Refused? ==>
        error == Some(ErrorToast(outcome.serverMessage, "Failed to update user"))
      ensures !(request.Some? && outcome.Accepted?) ==>
        editModalOpen == old(editModalOpen) && formData == old(formData)
        && selectedUser == old(selectedUser) && users == old(users)
    {
      request, error := None, None;
      if !MayUpdate(selectedUser, formData) {
        error := Some("Please fill in all required fields");
        return;
      }
      var f := formData;
      request := Some(UpdateUser(UserPath(selectedUser.value.id), UserUpdate(f.email, f.firstName, f.lastName, f.role)));
      match outcome
      case Accepted =>
        editModalOpen := false;
        ResetForm();
        var _ := LoadUsers(reload);
      case Refused(message) =>
        error := Some(ErrorToast(message, "Failed to update user"));
    }

    /** handleToggleActive: the flip request, then a reload when it succeeds. */
    method ToggleActive(id: int, currentlyActive: bool, accepted: bool, reload: Option<seq<User>>) returns (request: Request)
      modifies this`users
      ensures request == Patch(TogglePath(id, currentlyActive))
      ensures users == if accepted && reload.Some? then reload.value else old(users)
    {
      request := Patch(TogglePath(id, currentlyActive));
      if accepted {
        var _ := LoadUsers(reload);
      }
    }

    /**
     * handleResetPassword: nothing at all, not even a message, without a
     * selected user; then the two checks, in order, before any request. On
     * success the dialog closes and both the passwords and the selection are
     * cleared.
     */
    method ResetPasswordSubmit(outcome: Outcome) returns (check: Option<ResetCheck>, request: Option<Request>)
      modifies this`resetPasswordModalOpen, this`newPassword, this`confirmPassword, this`selectedUser
      ensures check.None? <==> old(selectedUser).None?
      ensures check.Some? ==> check.value == CheckReset(old(newPassword), old(confirmPassword))
      ensures request.Some? <==> check == Some(ResetOk)
      ensures request.Some? ==>
        request.value == ResetPassword(UserPath(old(selectedUser).value.id) + "/reset-password", old(newPassword))
      ensures request.Some? && outcome.Accepted? ==>
        !resetPasswordModalOpen && newPassword == [] && confirmPassword == [] && selectedUser.None?
      ensures !(request.Some? && outcome.Accepted?) ==>
        resetPasswordModalOpen == old(resetPasswordModalOpen) && newPassword == old(newPassword)
        && confirmPassword == old(confirmPassword) && selectedUser == old(selectedUser)
    {
      check, request := None, None;
      if selectedUser.None? {
        return;
      }
      var result := CheckReset(newPassword, confirmPassword);
      check := Some(result);
      if result != ResetOk {
        return;
      }
      request := Some(ResetPassword(UserPath(selectedUser.value.id) + "/reset-password", newPassword));
      if outcome.Accepted? {
        resetPasswordModalOpen := false;
        newPassword, confirmPassword := [], [];
        selectedUser := None;
      }
    }
  }
}
