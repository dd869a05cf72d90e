/**
 * The page frame's navigation: the ten menu entries with the roles that may
 * see them, the entries the signed-in user sees, the four-entry bar on small
 * screens with its one-word labels, and which entry is highlighted.
 */
module Layout {
  import opened Common
  import opened Types

  datatype NavItem = NavItem(path: Text, caption: Text, roles: seq<UserRole>)

  const EVERYONE: seq<UserRole> := [ADMIN, MODERATOR, USER, GUEST]
  const STAFF: seq<UserRole> := [ADMIN, MODERATOR]

  /** The entries everyone sees. */
  const LEARNING_ITEMS: seq<NavItem> := [
    NavItem("/dashboard", "Dashboard", EVERYONE),
    NavItem("/topics", "Topics", EVERYONE),
    NavItem("/quizzes", "Quizzes", EVERYONE)
  ]

  /** The moderators' management entries. */
  const MANAGEMENT_ITEMS: seq<NavItem> := [
    NavItem("/moderator/topics", "Manage Topics", STAFF),
    NavItem("/moderator/resources", "Manage Resources", STAFF),
    NavItem("/moderator/quizzes", "Manage Quizzes", STAFF),
    NavItem("/moderator/questions", "Question Bank", STAFF)
  ]

  /** The admin-only entries. */
  const ADMIN_ITEMS: seq<NavItem> := [
    NavItem("/admin/users", "User Management", [ADMIN]),
    NavItem("/admin/analytics", "Quiz Analytics", [ADMIN])
  ]

  /** The results entry, for admins and moderators. */
  const RESULTS_ITEMS: seq<NavItem> := [
    NavItem("/admin/quiz-results", "Quiz Results", STAFF)
  ]

  /** navItems, in menu order. */
  const NAV_ITEMS: seq<NavItem> := LEARNING_ITEMS + MANAGEMENT_ITEMS + ADMIN_ITEMS + RESULTS_ITEMS

  /** The entries among `items` whose roles include `role`, in order. */
  function VisibleAmong(role: UserRole, items: seq<NavItem>): (r: seq<NavItem>)
    ensures forall item :: item in r <==> item in items && role in item.roles
    ensures IsSubsequence(r, items)
    decreases |items|
  {
    if items == [] then []
    else
      var rest := VisibleAmong(role, items[1..]);
      if role in items[0].roles then
        assert forall item :: item in items <==> item == items[0] || item in items[1..];
        [items[0]] + rest
      else
        SubsequenceExtend(rest, items);
        rest
  }

  /** visibleNavItems: with a user, the entries whose roles include the user's role, in order. */
  function VisibleNavItems(role: Option<UserRole>): (r: seq<NavItem>)
    ensures role.None? ==> r == []
    ensures role.Some? ==> forall item :: item in r <==> item in NAV_ITEMS && role.value in item.roles
    ensures IsSubsequence(r, NAV_ITEMS)
  {
    if role.None? then [] else VisibleAmong(role.value, NAV_ITEMS)
  }

  /** Entries that all admit the role are all visible. */
  lemma {:induction false} VisibleAmongAll(role: UserRole, items: seq<NavItem>)
    requires forall i :: 0 <= i < |items| ==> role in items[i].roles
    ensures VisibleAmong(role, items) == items
    decreases |items|
  {
    if items != [] {
      VisibleAmongAll(role, items[1..]);
    }
  }

  /** Entries none of which admits the role are all hidden. */
  lemma {:induction false} VisibleAmongNone(role: UserRole, items: seq<NavItem>)
    requires forall i :: 0 <= i < |items| ==> role !in items[i].roles
    ensures VisibleAmong(role, items) == []
    decreases |items|
  {
    if items != [] {
      VisibleAmongNone(role, items[1..]);
    }
  }

  /** The visible part of two runs of entries is the visible part of each, in order. */
  lemma {:induction false} VisibleAmongAppend(role: UserRole, a: seq<NavItem>, b: seq<NavItem>)
    ensures VisibleAmong(role, a + b) == VisibleAmong(role, a) + VisibleAmong(role, b)
    decreases |a|
  {
    if a != [] {
      assert (a + b)[1..] == a[1..] + b;
      VisibleAmongAppend(role, a[1..], b);
    } else {
      assert a + b == b;
    }
  }

  /** NAV_ITEMS as its four runs. */
  lemma NavItemsRuns(role: UserRole)
    ensures VisibleAmong(role, NAV_ITEMS) ==
      VisibleAmong(role, LEARNING_ITEMS) + VisibleAmong(role, MANAGEMENT_ITEMS) +
      VisibleAmong(role, ADMIN_ITEMS) + VisibleAmong(role, RESULTS_ITEMS)
  {
    var a, b, c, d := LEARNING_ITEMS, MANAGEMENT_ITEMS, ADMIN_ITEMS, RESULTS_ITEMS;
    VisibleAmongAppend(role, a + b + c, d);
    VisibleAmongAppend(role, a + b, c);
    VisibleAmongAppend(role, a, b);
  }

  /** Everyone sees the learning entries. */
  lemma LearningVisible(role: UserRole)
    ensures VisibleAmong(role, LEARNING_ITEMS) == LEARNING_ITEMS
  {
    assert role in EVERYONE;
    VisibleAmongAll(role, LEARNING_ITEMS);
  }

  /** Exactly the staff see the management entries and the results entry. */
  lemma StaffItemsVisible(role: UserRole)
    ensures VisibleAmong(role, MANAGEMENT_ITEMS) == if role in STAFF then MANAGEMENT_ITEMS else []
    ensures VisibleAmong(role, RESULTS_ITEMS) == if role in STAFF then RESULTS_ITEMS else []
  {
    if role in STAFF {
      VisibleAmongAll(role, MANAGEMENT_ITEMS);
      VisibleAmongAll(role, RESULTS_ITEMS);
    } else {
      VisibleAmongNone(role, MANAGEMENT_ITEMS);
      VisibleAmongNone(role, RESULTS_ITEMS);
    }
  }

  /** Only ADMIN sees the admin entries. */
  lemma AdminItemsVisible(role: UserRole)
    ensures VisibleAmong(role, ADMIN_ITEMS) == if role == ADMIN then ADMIN_ITEMS else []
  {
    if role == ADMIN {
      VisibleAmongAll(role, ADMIN_ITEMS);
    } else {
      VisibleAmongNone(role, ADMIN_ITEMS);
    }
  }

  /** ADMIN sees every entry. */
  lemma AdminSeesAll()
    ensures VisibleNavItems(Some(ADMIN)) == NAV_ITEMS
  {
    NavItemsRuns(ADMIN);
    LearningVisible(ADMIN);
    StaffItemsVisible(ADMIN);
    AdminItemsVisible(ADMIN);
  }

  /** MODERATOR sees all but the two admin-only entries. */
  lemma ModeratorSees()
    ensures VisibleNavItems(Some(MODERATOR)) == LEARNING_ITEMS + MANAGEMENT_ITEMS + RESULTS_ITEMS
  {
    var l, m, r := LEARNING_ITEMS, MANAGEMENT_ITEMS, RESULTS_ITEMS;
    assert VisibleAmong(MODERATOR, NAV_ITEMS) == l + m + [] + r by {
      NavItemsRuns(MODERATOR);
      LearningVisible(MODERATOR);
      StaffItemsVisible(MODERATOR);
      AdminItemsVisible(MODERATOR);
    }
    assert l + m + [] == l + m;
  }

  /** USER and GUEST see the first three entries only. */
  lemma LearnersSeeThreeEntries(role: UserRole)
    requires role == USER || role == GUEST
    ensures VisibleNavItems(Some(role)) == LEARNING_ITEMS
  {
    if role == USER {
      UserSees();
    } else {
      GuestSees();
    }
  }

  lemma UserSees()
    ensures VisibleAmong(USER, NAV_ITEMS) == LEARNING_ITEMS
  {
    var l: seq<NavItem> := LEARNING_ITEMS;
    assert VisibleAmong(USER, NAV_ITEMS) == l + [] + [] + [] by {
      NavItemsRuns(USER);
      LearningVisible(USER);
      StaffItemsVisible(USER);
      AdminItemsVisible(USER);
    }
    assert l + [] + [] + [] == l;
  }

  lemma GuestSees()
    ensures VisibleAmong(GUEST, NAV_ITEMS) == LEARNING_ITEMS
  {
    var l: seq<NavItem> := LEARNING_ITEMS;
    assert VisibleAmong(GUEST, NAV_ITEMS) == l + [] + [] + [] by {
      NavItemsRuns(GUEST);
      LearningVisible(GUEST);
      StaffItemsVisible(GUEST);
      AdminItemsVisible(GUEST);
    }
    assert l + [] + [] + [] == l;
  }

  /** No two entries share a path. */
  lemma PathsDistinct()
    ensures forall i, j :: 0 <= i < j < |NAV_ITEMS| ==> NAV_ITEMS[i].path != NAV_ITEMS[j].path
  {
  }

  /** isActive: the entry's path is exactly the current location. */
  predicate IsActive(item: NavItem, pathname: Text) {
    item.path == pathname
  }

  /** At most one entry is highlighted, wherever the user is. */
  lemma AtMostOneActive(role: Option<UserRole>, pathname: Text, a: NavItem, b: NavItem)
    requires a in VisibleNavItems(role) && b in VisibleNavItems(role)
    requires IsActive(a, pathname) && IsActive(b, pathname)
    ensures a == b
  {
    var i :| 0 <= i < |NAV_ITEMS| && NAV_ITEMS[i] == a;
    var j :| 0 <= j < |NAV_ITEMS| && NAV_ITEMS[j] == b;
    PathsDistinct();
    assert !(i < j) && !(j < i);
  }

  /** The bottom bar on small screens: the first four visible entries, or all when fewer. */
  function MobileNavItems(role: Option<UserRole>): (r: seq<NavItem>)
    ensures |r| == Min(4, |VisibleNavItems(role)|)
    ensures r == VisibleNavItems(role)[..|r|]
  {
    var v := VisibleNavItems(role);
    v[..Min(4, |v|)]
  }

  /** A bottom-bar label: `label.split(' ')[0]`, the label up to its first space. */
  function MobileLabel(caption: Text): (w: Text)
    ensures ' ' !in w
    ensures ' ' !in caption ==> w == caption
    ensures ' ' in caption ==> caption == w + [' '] + SplitAtFirstSpace(caption).1
  {
    SplitAtFirstSpaceRejoins(caption);
    SplitAtFirstSpace(caption).0
  }
}
