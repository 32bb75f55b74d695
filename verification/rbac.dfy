/** The role-based access-control policy: a fixed table of
    (role, resource, action) grants, the exact-match decision over it, the
    projection of allowed actions, and the independent rank comparison. */
module Rbac {
  import opened Types
  import opened Seqs

  datatype Resource = Dashboard | Tickets | Users | Settings

  datatype Action = View | Create | Update | Delete

  datatype Grant = Grant(role: Role, resource: Resource, action: Action)

  /** The permission table, in source order. */
  const Permissions: seq<Grant> := [
    // admin: full access
    Grant(Admin, Dashboard, View),
    Grant(Admin, Tickets, View),
    Grant(Admin, Tickets, Create),
    Grant(Admin, Tickets, Update),
    Grant(Admin, Tickets, Delete),
    Grant(Admin, Users, View),
    Grant(Admin, Users, Create),
    Grant(Admin, Users, Update),
    Grant(Admin, Users, Delete),
    Grant(Admin, Settings, View),
    Grant(Admin, Settings, Update),
    // staff: manage tickets without deleting, view users
    Grant(Staff, Dashboard, View),
    Grant(Staff, Tickets, View),
    Grant(Staff, Tickets, Create),
    Grant(Staff, Tickets, Update),
    Grant(Staff, Users, View),
    Grant(Staff, Settings, View),
    Grant(Staff, Settings, Update),
    // viewer: reads, plus updating its own settings
    Grant(Viewer, Dashboard, View),
    Grant(Viewer, Tickets, View),
    Grant(Viewer, Settings, View),
    Grant(Viewer, Settings, Update)
  ]

  /** `permissions.some(p => ...)`: a linear scan for the exact triple. */
  function AnyGrant(table: seq<Grant>, role: Role, resource: Resource, action: Action): (b: bool)
    ensures b <==> Grant(role, resource, action) in table
  {
    exists i :: 0 <= i < |table| && table[i].role == role && table[i].resource == resource && table[i].action == action
  }

  /** `canAccess`: default-deny without a role, otherwise an exact match. */
  function CanAccess(role: Option<Role>, resource: Resource, action: Action): (b: bool)
    ensures role.None? ==> !b
    ensures role.Some? ==> (b <==> Grant(role.value, resource, action) in Permissions)
  {
    if role.None? then false else AnyGrant(Permissions, role.value, resource, action)
  }

  /** `permissions.filter(p => role and resource match).map(p => p.action)`. */
  function ActionsOf(table: seq<Grant>, role: Role, resource: Resource): (r: seq<Action>)
    ensures |r| <= |table|
    ensures forall a :: a in r <==> Grant(role, resource, a) in table
  {
    if |table| == 0 then []
    else
      var p := table[0];
      var rest := ActionsOf(table[1..], role, resource);
      assert table == [p] + table[1..];
      if p.role == role && p.resource == resource then [p.action] + rest else rest
  }

  /** `getAllowedActions`: the actions of the role's grants on the resource,
      in table order; empty without a role. */
  function GetAllowedActions(role: Option<Role>, resource: Resource): (r: seq<Action>)
    ensures role.None? ==> r == []
    ensures forall a :: a in r <==> CanAccess(role, resource, a)
  {
    if role.None? then [] else ActionsOf(Permissions, role.value, resource)
  }

  /** The rank of a role in the hierarchy admin > staff > viewer. */
  function Level(r: Role): nat {
    match r
    case Admin => 3
    case Staff => 2
    case Viewer => 1
  }

  /** `hasRoleLevel`: the role is present and ranks at least as high as the
      required one. */
  function HasRoleLevel(role: Option<Role>, required: Role): (b: bool)
    ensures role.None? ==> !b
  {
    role.Some? && Level(role.value) >= Level(required)
  }

  // ------------------------------------------------------------ properties

  /** No repeated triples: every grant occurs exactly once in the table. */
  lemma PermissionsDistinct()
    ensures NoDuplicates(Permissions)
  {
    var P := Permissions;
    assert forall i, j :: 0 <= i < j < |P| ==> P[i] != P[j];
  }

  /** A table without repeated triples projects to a list without repeated
      actions. */
  lemma {:induction false} ActionsOfDistinct(table: seq<Grant>, role: Role, resource: Resource)
    requires NoDuplicates(table)
    ensures NoDuplicates(ActionsOf(table, role, resource))
  {
    if |table| > 0 {
      var p := table[0];
      var tail := table[1..];
      forall i, j | 0 <= i < j < |tail| ensures tail[i] != tail[j] {
        assert tail[i] == table[i + 1] && tail[j] == table[j + 1];
      }
      ActionsOfDistinct(tail, role, resource);
      var rest := ActionsOf(tail, role, resource);
      if p.role == role && p.resource == resource {
        forall k | 0 <= k < |tail| ensures tail[k] != p {
          assert tail[k] == table[k + 1];
        }
        assert p == Grant(role, resource, p.action);
        assert p.action !in rest;
        var r := [p.action] + rest;
        assert ActionsOf(table, role, resource) == r;
        forall i, j | 0 <= i < j < |r| ensures r[i] != r[j] {
          assert r[j] == rest[j - 1] && rest[j - 1] in rest;
          if i == 0 {
            assert r[i] == p.action;
          } else {
            assert r[i] == rest[i - 1];
          }
        }
      }
    }
  }

  /** The allowed-action list never repeats an action. */
  lemma AllowedActionsDistinct(role: Option<Role>, resource: Resource)
    ensures NoDuplicates(GetAllowedActions(role, resource))
  {
    if role.Some? {
      PermissionsDistinct();
      ActionsOfDistinct(Permissions, role.value, resource);
      assert GetAllowedActions(role, resource) == ActionsOf(Permissions, role.value, resource);
    }
  }

  /** The reference policy, resource by resource: the matrix the table
      spells out. */
  function ReferenceActions(role: Role, resource: Resource): set<Action> {
    match (role, resource)
    case (Admin, Dashboard) => {View}
    case (Admin, Tickets) => {View, Create, Update, Delete}
    case (Admin, Users) => {View, Create, Update, Delete}
    case (Admin, Settings) => {View, Update}
    case (Staff, Dashboard) => {View}
    case (Staff, Tickets) => {View, Create, Update}
    case (Staff, Users) => {View}
    case (Staff, Settings) => {View, Update}
    case (Viewer, Dashboard) => {View}
    case (Viewer, Tickets) => {View}
    case (Viewer, Users) => {}
    case (Viewer, Settings) => {View, Update}
  }

  /** Every row of the table is in the reference matrix. */
  lemma TableSound()
    ensures forall i :: 0 <= i < |Permissions| ==>
      Permissions[i].action in ReferenceActions(Permissions[i].role, Permissions[i].resource)
  {
  }

  /** Every entry of the reference matrix is a row of the table. */
  lemma TableComplete(role: Role, resource: Resource)
    ensures forall a :: a in ReferenceActions(role, resource) ==> Grant(role, resource, a) in Permissions
  {
    var P := Permissions;
    match (role, resource)
    case (Admin, Dashboard) => assert P[0] == Grant(Admin, Dashboard, View);
    case (Admin, Tickets) =>
      assert P[1] == Grant(Admin, Tickets, View) && P[2] == Grant(Admin, Tickets, Create);
      assert P[3] == Grant(Admin, Tickets, Update) && P[4] == Grant(Admin, Tickets, Delete);
    case (Admin, Users) =>
      assert P[5] == Grant(Admin, Users, View) && P[6] == Grant(Admin, Users, Create);
      assert P[7] == Grant(Admin, Users, Update) && P[8] == Grant(Admin, Users, Delete);
    case (Admin, Settings) =>
      assert P[9] == Grant(Admin, Settings, View) && P[10] == Grant(Admin, Settings, Update);
    case (Staff, Dashboard) => assert P[11] == Grant(Staff, Dashboard, View);
    case (Staff, Tickets) =>
      assert P[12] == Grant(Staff, Tickets, View) && P[13] == Grant(Staff, Tickets, Create);
      assert P[14] == Grant(Staff, Tickets, Update);
    case (Staff, Users) => assert P[15] == Grant(Staff, Users, View);
    case (Staff, Settings) =>
      assert P[16] == Grant(Staff, Settings, View) && P[17] == Grant(Staff, Settings, Update);
    case (Viewer, Dashboard) => assert P[18] == Grant(Viewer, Dashboard, View);
    case (Viewer, Tickets) => assert P[19] == Grant(Viewer, Tickets, View);
    case (Viewer, Users) =>
    case (Viewer, Settings) =>
      assert P[20] == Grant(Viewer, Settings, View) && P[21] == Grant(Viewer, Settings, Update);
  }

  /** Grant exactness: the decision agrees with the reference matrix on
      every triple, so a grant for one action implies nothing about another. */
  lemma CanAccessMatchesReference(role: Role, resource: Resource, action: Action)
    ensures CanAccess(Some(role), resource, action) <==> action in ReferenceActions(role, resource)
  {
    TableComplete(role, resource);
    TableSound();
  }

  /** The allowed actions of a role are exactly its reference set. */
  lemma AllowedActionsMatchReference(role: Role, resource: Resource)
    ensures forall a :: a in GetAllowedActions(Some(role), resource) <==> a in ReferenceActions(role, resource)
  {
    forall a ensures a in GetAllowedActions(Some(role), resource) <==> a in ReferenceActions(role, resource) {
      CanAccessMatchesReference(role, resource, a);
    }
  }

  /** Default deny: without a role nothing is allowed. */
  lemma DefaultDeny()
    ensures forall res, a :: !CanAccess(None, res, a)
    ensures forall res :: GetAllowedActions(None, res) == []
  {
  }

  /** The hierarchy is a total preorder, and an absent role never has a
      level. */
  lemma RoleLevelOrder()
    ensures forall r :: HasRoleLevel(Some(r), r)
    ensures forall a, b, c :: HasRoleLevel(Some(a), b) && HasRoleLevel(Some(b), c) ==> HasRoleLevel(Some(a), c)
    ensures forall a, b :: HasRoleLevel(Some(a), b) || HasRoleLevel(Some(b), a)
    ensures forall a, b :: HasRoleLevel(Some(a), b) && HasRoleLevel(Some(b), a) ==> a == b
    ensures forall r :: !HasRoleLevel(None, r)
  {
  }

  /** The rank comparison agrees with the order admin > staff > viewer. */
  lemma RoleLevelCases()
    ensures HasRoleLevel(Some(Admin), Staff)
    ensures !HasRoleLevel(Some(Viewer), Staff)
    ensures forall r :: HasRoleLevel(Some(Admin), r)
    ensures forall r :: HasRoleLevel(Some(r), Viewer)
  {
  }

  /** Hierarchy and grants are independent: staff outranks viewer, yet only
      admin may delete tickets. */
  lemma HierarchyIndependentOfGrants()
    ensures HasRoleLevel(Some(Staff), Viewer)
    ensures !CanAccess(Some(Staff), Tickets, Delete)
    ensures CanAccess(Some(Admin), Tickets, Delete)
  {
    CanAccessMatchesReference(Staff, Tickets, Delete);
    CanAccessMatchesReference(Admin, Tickets, Delete);
  }

  /** The concrete table happens to be monotone in the hierarchy: whatever a
      role may do, every role ranking at least as high may do too. */
  lemma GrantsMonotone(r1: Role, r2: Role, resource: Resource, action: Action)
    requires HasRoleLevel(Some(r1), r2)
    requires CanAccess(Some(r2), resource, action)
    ensures CanAccess(Some(r1), resource, action)
  {
    CanAccessMatchesReference(r1, resource, action);
    CanAccessMatchesReference(r2, resource, action);
  }

  /** The scenarios the policy is documented by. The viewer holding
      settings/update contradicts the "read-only" description of the role. */
  lemma ConcreteScenarios()
    ensures CanAccess(Some(Admin), Users, Delete)
    ensures !CanAccess(Some(Staff), Users, Delete)
    ensures !CanAccess(Some(Viewer), Tickets, Create)
    ensures !CanAccess(None, Dashboard, View)
    ensures forall a :: !CanAccess(Some(Viewer), Users, a)
    ensures CanAccess(Some(Viewer), Settings, Update)
    ensures GetAllowedActions(Some(Viewer), Settings) == [View, Update]
  {
    CanAccessMatchesReference(Admin, Users, Delete);
    CanAccessMatchesReference(Staff, Users, Delete);
    CanAccessMatchesReference(Viewer, Tickets, Create);
    CanAccessMatchesReference(Viewer, Settings, Update);
    forall a ensures !CanAccess(Some(Viewer), Users, a) {
      CanAccessMatchesReference(Viewer, Users, a);
    }
    ViewerSettingsActions();
  }

  /** The viewer's settings grants project, in table order, to view then
      update. */
  lemma ViewerSettingsActions()
    ensures GetAllowedActions(Some(Viewer), Settings) == [View, Update]
  {
    var P := Permissions;
    var tail := P[20..];
    assert tail == [Grant(Viewer, Settings, View), Grant(Viewer, Settings, Update)];
    assert ActionsOf(tail[2..], Viewer, Settings) == [];
    assert ActionsOf(tail, Viewer, Settings) == [View, Update];
    SkipOtherRows(P, 20, Viewer, Settings);
  }

  /** Rows of other (role, resource) pairs contribute nothing to the
      projection. */
  lemma {:induction false} SkipOtherRows(table: seq<Grant>, k: nat, role: Role, resource: Resource)
    requires k <= |table|
    requires forall i :: 0 <= i < k ==> table[i].role != role || table[i].resource != resource
    ensures ActionsOf(table, role, resource) == ActionsOf(table[k..], role, resource)
  {
    if k > 0 {
      assert forall i :: 0 <= i < k - 1 ==> table[1..][i] == table[i + 1];
      SkipOtherRows(table[1..], k - 1, role, resource);
      assert table[1..][k - 1..] == table[k..];
    }
  }
}
