/**
 * The mock user directory of the school-administration screens: the list of
 * users held in the page's state, adding a user at the top, deleting by id,
 * and the search/role/status filter that decides which users the table shows.
 */
module UserDirectory {
  import opened Common

  /**
   * A directory entry. Ids are text; `status` is "Active" or "Inactive" in
   * every entry the screens create, but nothing stops another value, so it is
   * kept as text.
   */
  datatype DirectoryUser = DirectoryUser(
    id: Text, name: Text, email: Text, role: Text, className: Text, status: Text, lastLogin: Text)

  /** initialUsers */
  const INITIAL_USERS: seq<DirectoryUser> := [
    DirectoryUser("1", "Adaego Johnson", "adaego.john@schooladmin.org", "Teacher", "SS2A", "Active", "2 hours ago"),
    DirectoryUser("2", "Okonma Chibuor", "okonma.chibuor@schooladmin.org", "Student", "SS1B", "Active", "1 day ago"),
    DirectoryUser("3", "Kemi Adebola", "kemi.adebola@schooladmin.org", "Admin", "-", "Active", "10 minutes ago"),
    DirectoryUser("4", "Emeka Nwosu", "emeka.nwosu@schooladmin.org", "Teacher", "JS2C", "Inactive", "1 week ago"),
    DirectoryUser("5", "Fatima Bello", "fatima.bello@schooladmin.org", "Student", "SS2A", "Active", "3 hours ago"),
    DirectoryUser("6", "Tunde Bakare", "tunde.bakare@schooladmin.org", "Admin", "JS1B", "Active", "2 days ago"),
    DirectoryUser("7", "Grace Okoro", "grace.okoro@schooladmin.org", "Teacher", "JS1A", "Active", "4 hours ago"),
    DirectoryUser("8", "Yusuf Ibrahim", "yusuf.ibrahim@schooladmin.org", "Student", "SS2C", "Active", "6 hours ago")
  ]

  // ---------------------------------------------------------------------------
  // The filter

  /** The search box matches the name or the e-mail, ignoring case. */
  predicate MatchesSearch(u: DirectoryUser, query: Text) {
    ContainsIgnoringCase(u.name, query) || ContainsIgnoringCase(u.email, query)
  }

  /** "all" keeps every user; any other value is compared with the role, ignoring case. */
  predicate MatchesRole(u: DirectoryUser, roleFilter: Text) {
    roleFilter == "all" || Lower(u.role) == Lower(roleFilter)
  }

  /** The same rule for the status. */
  predicate MatchesStatus(u: DirectoryUser, statusFilter: Text) {
    statusFilter == "all" || Lower(u.status) == Lower(statusFilter)
  }

  predicate Listed(u: DirectoryUser, query: Text, roleFilter: Text, statusFilter: Text) {
    MatchesSearch(u, query) && MatchesRole(u, roleFilter) && MatchesStatus(u, statusFilter)
  }

  /** filteredUsers: the users passing all three tests, in list order. */
  function FilteredUsers(users: seq<DirectoryUser>, query: Text, roleFilter: Text, statusFilter: Text): (r: seq<DirectoryUser>)
    ensures forall u :: u in r <==> u in users && Listed(u, query, roleFilter, statusFilter)
    ensures forall u :: multiset(r)[u] == if Listed(u, query, roleFilter, statusFilter) then multiset(users)[u] else 0
    ensures IsSubsequence(r, users)
  {
    var keep := (u: DirectoryUser) => Listed(u, query, roleFilter, statusFilter);
    FilterIsSubsequence(users, keep);
    FilterCounts(users, keep);
    Filter(users, keep)
  }

  /** With an empty search and both selects on "all", the table shows every user. */
  lemma NoFilterListsAll(users: seq<DirectoryUser>)
    ensures FilteredUsers(users, "", "all", "all") == users
  {
    forall u | u in users
      ensures Listed(u, "", "all", "all")
    {
      IncludesEmpty(Lower(u.name));
    }
    FilterAll(users, (u: DirectoryUser) => Listed(u, "", "all", "all"));
  }

  /** Narrowing the search never shows a user the wider search hid. */
  lemma {:induction false} LongerQueryNarrows(users: seq<DirectoryUser>, query: Text, more: Text, roleFilter: Text, statusFilter: Text)
    ensures forall u :: u in FilteredUsers(users, query + more, roleFilter, statusFilter) ==>
      u in FilteredUsers(users, query, roleFilter, statusFilter)
  {
    forall u | u in FilteredUsers(users, query + more, roleFilter, statusFilter)
      ensures MatchesSearch(u, query)
    {
      assert Lower(query + more) == Lower(query) + Lower(more);
      if ContainsIgnoringCase(u.name, query + more) {
        IncludesPrefixOf(Lower(u.name), Lower(query), Lower(more));
      } else {
        IncludesPrefixOf(Lower(u.email), Lower(query), Lower(more));
      }
    }
  }

  /** A text that contains `p + q` contains `p`. */
  lemma IncludesPrefixOf(s: Text, p: Text, q: Text)
    requires Includes(s, p + q)
    ensures Includes(s, p)
  {
    IncludesAt(s, p + q);
    var i :| OccursAt(s, p + q, i);
    assert s[i..i + |p|] == (p + q)[..|p|] == p;
    assert OccursAt(s, p, i);
    IncludesAt(s, p);
  }

  // ---------------------------------------------------------------------------
  // Deleting

  /** users.find: the first user with that id. */
  function FindById(users: seq<DirectoryUser>, id: Text): (r: Option<DirectoryUser>)
    ensures r.None? <==> forall u :: u in users ==> u.id != id
    ensures r.Some? ==> r.value in users && r.value.id == id
    ensures r.Some? ==> r.value == Filter(users, (u: DirectoryUser) => u.id == id)[0]
    decreases |users|
  {
    if users == [] then None
    else if users[0].id == id then Some(users[0])
    else FindById(users[1..], id)
  }

  /** The list after a delete: every user with that id is gone. */
  function WithoutId(users: seq<DirectoryUser>, id: Text): (r: seq<DirectoryUser>)
    ensures forall u :: u in r <==> u in users && u.id != id
    ensures forall u :: multiset(r)[u] == if u.id != id then multiset(users)[u] else 0
    ensures IsSubsequence(r, users)
  {
    FilterIsSubsequence(users, (u: DirectoryUser) => u.id != id);
    FilterCounts(users, (u: DirectoryUser) => u.id != id);
    Filter(users, (u: DirectoryUser) => u.id != id)
  }

  /** Deleting removes exactly the users carrying the id. */
  lemma DeleteCount(users: seq<DirectoryUser>, id: Text)
    ensures |WithoutId(users, id)| == |users| - Count(users, (u: DirectoryUser) => u.id == id)
  {
    CountSplit(users, (u: DirectoryUser) => u.id == id, (u: DirectoryUser) => u.id != id);
  }

  /** Deleting an id nobody has changes nothing; deleting twice is deleting once. */
  lemma DeleteAbsentOrTwice(users: seq<DirectoryUser>, id: Text)
    ensures FindById(users, id).None? ==> WithoutId(users, id) == users
    ensures WithoutId(WithoutId(users, id), id) == WithoutId(users, id)
  {
    if FindById(users, id).None? {
      FilterAll(users, (u: DirectoryUser) => u.id != id);
    }
    FilterAll(WithoutId(users, id), (u: DirectoryUser) => u.id != id);
  }

  /** The confirmation after a delete names the user who had the id. */
  function DeletedToast(u: DirectoryUser): Text {
    u.name + " has been deleted successfully."
  }

  function AddedToast(u: DirectoryUser): Text {
    u.name + " has been added successfully!"
  }

  class UserDirectoryPage {
    var users: seq<DirectoryUser>
    var searchQuery: Text
    var roleFilter: Text
    var statusFilter: Text
    var isAddModalOpen: bool

    constructor()
      ensures users == INITIAL_USERS && searchQuery == [] && roleFilter == "all" && statusFilter == "all"
      ensures !isAddModalOpen
    {
      users := INITIAL_USERS;
      searchQuery, roleFilter, statusFilter := "", "all", "all";
      isAddModalOpen := false;
    }

    /** The users the table shows; the heading's count is its length. */
    function Shown(): (r: seq<DirectoryUser>)
      reads this
      ensures |r| <= |users|
      ensures forall u :: u in r ==> u in users
    {
      FilteredUsers(users, searchQuery, roleFilter, statusFilter)
    }

    /** The heading's "(n users)". */
    function ShownCount(): (n: nat)
      reads this
      ensures n <= |users|
    {
      |Shown()|
    }

    method OpenAddModal()
      modifies this`isAddModalOpen
      ensures isAddModalOpen
    {
      isAddModalOpen := true;
    }

    method CloseModal()
      modifies this`isAddModalOpen
      ensures !isAddModalOpen
    {
      isAddModalOpen := false;
    }

    method Search(query: Text)
      modifies this`searchQuery
      ensures searchQuery == query
    {
      searchQuery := query;
    }

    method ChangeRoleFilter(value: Text)
      modifies this`roleFilter
      ensures roleFilter == value
    {
      roleFilter := value;
    }

    method ChangeStatusFilter(value: Text)
      modifies this`statusFilter
      ensures statusFilter == value
    {
      statusFilter := value;
    }

    /** handleAddUser: the new user goes to the top of the list. */
    method AddUser(newUser: DirectoryUser) returns (toast: Text)
      modifies this`users
      ensures users == [newUser] + old(users)
      ensures toast == AddedToast(newUser)
      ensures Shown() == (if Listed(newUser, searchQuery, roleFilter, statusFilter) then [newUser] else []) + old(Shown())
    {
      users := [newUser] + users;
      assert users[1..] == old(users);
      toast := AddedToast(newUser);
    }

    /**
     * handleDeleteUser: every user with the id leaves the list; the
     * confirmation appears only when some user had it.
     */
    method DeleteUser(id: Text) returns (toast: Option<Text>)
      modifies this`users
      ensures users == WithoutId(old(users), id)
      ensures toast.Some? <==> exists u :: u in old(users) && u.id == id
      ensures toast.Some? ==> toast.value == DeletedToast(FindById(old(users), id).value)
    {
      var user := FindById(users, id);
      users := WithoutId(users, id);
      toast := if user.Some? then Some(DeletedToast(user.value)) else None;
    }
  }
}
