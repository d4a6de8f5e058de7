/** Grants of assets to users and user groups: the lookup by hashed key against the relational scan. */
module Authorisation {
  import opened Wrappers
  import opened Signing

  /** The ids in use, by kind. They come from UUIDs, so the kinds do not overlap. */
  datatype Ids = Ids(assets: iset<string>, users: iset<string>, groups: iset<string>) {
    ghost predicate Valid() {
      && (forall a :: a in assets ==> IsUuid(a) && a !in users && a !in groups)
      && (forall u :: u in users ==> IsUserId(u) && u !in groups)
      && (forall g :: g in groups ==> IsUuid(g))
    }
  }

  /** MD5 with a hexadecimal result, taken to be free of collisions. */
  type Hash = h: string -> string | Injective(h) ghost witness s => s

  ghost predicate Injective(h: string -> string) {
    forall x, y :: h(x) == h(y) ==> x == y
  }

  /** A grant of an asset; an empty user or group id means none. */
  datatype Row = Row(assetId: string, userId: string, groupId: string, strategyId: string)

  function Sign(h: Hash, row: Row): string {
    h(PreImage([row.assetId, row.userId, row.groupId]))
  }

  function SignOf(h: Hash): Row -> string {
    (row: Row) => Sign(h, row)
  }

  function UserKey(h: Hash, u: string, a: string): string {
    h(PreImage([a, u, ""]))
  }

  function GroupKey(h: Hash, g: string, a: string): string {
    h(PreImage([a, "", g]))
  }

  datatype State = State(rows: map<string, Row>, members: set<(string, string)>)

  ghost predicate Fits(ids: Ids, row: Row) {
    row.assetId in ids.assets && (row.userId == "" || row.userId in ids.users)
      && (row.groupId == "" || row.groupId in ids.groups)
  }

  /** Each row stands under its own signature; memberships are (user, group) pairs. */
  ghost predicate Inv(ids: Ids, h: Hash, s: State) {
    && (forall k :: k in s.rows ==> Fits(ids, s.rows[k]) && k == Sign(h, s.rows[k]))
    && (forall m :: m in s.members ==> m.1 in ids.groups)
  }

  // ---------- a signature tells which grant it is ----------

  lemma UserKeyMeans(ids: Ids, h: Hash, row: Row, u: string, a: string)
    requires ids.Valid() && Fits(ids, row) && u in ids.users && a in ids.assets
    ensures Sign(h, row) == UserKey(h, u, a) <==> row.assetId == a && row.userId == u && row.groupId == ""
  {
    if Sign(h, row) == UserKey(h, u, a) {
      TripleLength(row.assetId, row.userId, row.groupId);
      TripleLength(a, u, "");
      PairOf(a, u);
      if row.groupId == "" && row.userId != "" {
        PairOf(row.assetId, row.userId);
        SamePair(row.assetId, row.userId, a, u);
      } else if row.groupId != "" && row.userId == "" {
        PairOf(row.assetId, row.groupId);
        SamePair(row.assetId, row.groupId, a, u);
      }
    }
  }

  lemma GroupKeyMeans(ids: Ids, h: Hash, row: Row, g: string, a: string)
    requires ids.Valid() && Fits(ids, row) && g in ids.groups && a in ids.assets
    ensures Sign(h, row) == GroupKey(h, g, a) <==> row.assetId == a && row.userId == "" && row.groupId == g
  {
    if Sign(h, row) == GroupKey(h, g, a) {
      TripleLength(row.assetId, row.userId, row.groupId);
      TripleLength(a, "", g);
      PairOf(a, g);
      if row.groupId == "" && row.userId != "" {
        PairOf(row.assetId, row.userId);
        SamePair(row.assetId, row.userId, a, g);
      } else if row.groupId != "" && row.userId == "" {
        PairOf(row.assetId, row.groupId);
        SamePair(row.assetId, row.groupId, a, g);
      }
    }
  }

  lemma SamePair(a: string, x: string, b: string, y: string)
    requires IsUuid(a) && IsUserId(x) && IsUuid(b) && IsUserId(y) && Pair(a, x) == Pair(b, y)
    ensures (a == b && x == y) || (a == y && x == b)
  {
    if x == SUPER_ADMIN {
      PairInjectiveSuper(a, b);
    } else {
      PairInjectiveUuid(a, x, b, y);
    }
  }

  // ---------- the two ways to ask ----------

  /** GetAuthorised finds something. */
  predicate Found(h: Hash, s: State, u: string, a: string) {
    UserKey(h, u, a) in s.rows || exists m :: m in s.members && m.0 == u && GroupKey(h, m.1, a) in s.rows
  }

  /** getAssetIdListByUserId. */
  function AssetList(s: State, u: string): set<string> {
    set k | k in s.rows && (s.rows[k].userId == u || (u, s.rows[k].groupId) in s.members) :: s.rows[k].assetId
  }

  predicate Mixed(row: Row) {
    row.userId != "" && row.groupId != ""
  }

  predicate Reaches(s: State, row: Row, u: string, a: string) {
    row.assetId == a && (row.userId == u || (u, row.groupId) in s.members)
  }

  /** The asset reaches the user through a grant made to a user and a group at once. */
  predicate MixedGrant(s: State, u: string, a: string) {
    exists k :: k in s.rows && Mixed(s.rows[k]) && Reaches(s, s.rows[k], u, a)
  }

  lemma RowIsFound(ids: Ids, h: Hash, s: State, u: string, a: string, k: string)
    requires ids.Valid() && Inv(ids, h, s) && u in ids.users && a in ids.assets
    requires k in s.rows && Reaches(s, s.rows[k], u, a) && !Mixed(s.rows[k])
    ensures Found(h, s, u, a)
  {}

  lemma FoundReaches(ids: Ids, h: Hash, s: State, u: string, a: string) returns (k: string)
    requires ids.Valid() && Inv(ids, h, s) && u in ids.users && a in ids.assets && Found(h, s, u, a)
    ensures k in s.rows && Reaches(s, s.rows[k], u, a) && !Mixed(s.rows[k])
  {
    if UserKey(h, u, a) in s.rows {
      k := UserKey(h, u, a);
      UserKeyMeans(ids, h, s.rows[k], u, a);
    } else {
      var m :| m in s.members && m.0 == u && GroupKey(h, m.1, a) in s.rows;
      k := GroupKey(h, m.1, a);
      GroupKeyMeans(ids, h, s.rows[k], m.1, a);
      assert m == (u, m.1);
    }
  }

  /** In every state whose rows stand under their signatures: the scan sees what the lookup sees, and
      besides it the grants made to a user and a group at once. */
  lemma AgreementExactly(ids: Ids, h: Hash, s: State, u: string, a: string)
    requires ids.Valid() && Inv(ids, h, s) && u in ids.users && a in ids.assets
    ensures a in AssetList(s, u) <==> Found(h, s, u, a) || MixedGrant(s, u, a)
  {
    if a in AssetList(s, u) {
      var k :| k in s.rows && Reaches(s, s.rows[k], u, a);
      if !Mixed(s.rows[k]) {
        RowIsFound(ids, h, s, u, a, k);
      }
    }
    if Found(h, s, u, a) {
      var k := FoundReaches(ids, h, s, u, a);
    }
  }

  /** To whom an asset is granted directly. */
  function GrantedUsers(s: State, a: string): set<string> {
    set k | k in s.rows && s.rows[k].assetId == a && s.rows[k].groupId == "" :: s.rows[k].userId
  }

  function GrantedGroups(s: State, a: string): set<string> {
    set k | k in s.rows && s.rows[k].assetId == a && s.rows[k].userId == "" :: s.rows[k].groupId
  }

  predicate InOneOf(members: set<(string, string)>, u: string, groups: set<string>) {
    exists g :: (u, g) in members && g in groups
  }

  lemma UserKeyGrants(ids: Ids, h: Hash, s: State, u: string, a: string)
    requires ids.Valid() && Inv(ids, h, s) && u in ids.users && a in ids.assets
    ensures UserKey(h, u, a) in s.rows <==> u in GrantedUsers(s, a)
  {
    forall k | k in s.rows
      ensures k == UserKey(h, u, a) <==> s.rows[k].assetId == a && s.rows[k].userId == u && s.rows[k].groupId == ""
    {
      UserKeyMeans(ids, h, s.rows[k], u, a);
    }
  }

  lemma GroupKeyGrants(ids: Ids, h: Hash, s: State, g: string, a: string)
    requires ids.Valid() && Inv(ids, h, s) && g in ids.groups && a in ids.assets
    ensures GroupKey(h, g, a) in s.rows <==> g in GrantedGroups(s, a)
  {
    forall k | k in s.rows
      ensures k == GroupKey(h, g, a) <==> s.rows[k].assetId == a && s.rows[k].userId == "" && s.rows[k].groupId == g
    {
      GroupKeyMeans(ids, h, s.rows[k], g, a);
    }
  }

  /** What the lookup by hashed keys finds, said without keys. */
  lemma FoundExactly(ids: Ids, h: Hash, s: State, u: string, a: string)
    requires ids.Valid() && Inv(ids, h, s) && u in ids.users && a in ids.assets
    ensures Found(h, s, u, a) <==> u in GrantedUsers(s, a) || InOneOf(s.members, u, GrantedGroups(s, a))
  {
    UserKeyGrants(ids, h, s, u, a);
    forall m | m in s.members ensures GroupKey(h, m.1, a) in s.rows <==> m.1 in GrantedGroups(s, a) {
      GroupKeyGrants(ids, h, s, m.1, a);
    }
    GroupsLookup(h, s, u, a, GrantedGroups(s, a));
  }

  lemma GroupsLookup(h: Hash, s: State, u: string, a: string, groups: set<string>)
    requires forall m :: m in s.members ==> (GroupKey(h, m.1, a) in s.rows <==> m.1 in groups)
    ensures (exists m :: m in s.members && m.0 == u && GroupKey(h, m.1, a) in s.rows) <==> InOneOf(s.members, u, groups)
  {
    if exists m :: m in s.members && m.0 == u && GroupKey(h, m.1, a) in s.rows {
      var m :| m in s.members && m.0 == u && GroupKey(h, m.1, a) in s.rows;
      assert (u, m.1) in s.members && m.1 in groups;
    }
    if InOneOf(s.members, u, groups) {
      var g :| (u, g) in s.members && g in groups;
      assert (u, g).0 == u && GroupKey(h, (u, g).1, a) in s.rows;
    }
  }

  // ---------- what changes the tables ----------

  function AddAll(sign: Row -> string, rows: map<string, Row>, items: seq<Row>): map<string, Row> {
    if items == [] then rows
    else AddAll(sign, rows, items[..|items| - 1])[sign(items[|items| - 1]) := items[|items| - 1]]
  }

  ghost predicate DistinctSigns(sign: Row -> string, items: seq<Row>) {
    forall i, j :: 0 <= i < j < |items| ==> sign(items[i]) != sign(items[j])
  }

  datatype Event =
    | Grant(items: seq<Row>)
    | Revoke(id: string)
    | DeleteAsset(a: string)
    | DeleteUser(u: string)
    | DeleteGroup(g: string)
    | SetMembers(g: string, users: seq<string>)

  function Keep(rows: map<string, Row>, p: Row -> bool): map<string, Row> {
    map k | k in rows && p(rows[k]) :: rows[k]
  }

  ghost predicate Distinct(users: seq<string>) {
    forall i, j :: 0 <= i < j < |users| ==> users[i] != users[j]
  }

  ghost function Step(h: Hash, s: State, e: Event): State {
    match e
    case Grant(items) => if DistinctSigns(SignOf(h), items) then s.(rows := AddAll(SignOf(h), s.rows, items)) else s
    case Revoke(id) => s.(rows := s.rows - {id})
    case DeleteAsset(a) => s.(rows := Keep(s.rows, (r: Row) => r.assetId != a))
    case DeleteUser(u) =>
      State(Keep(s.rows, (r: Row) => r.userId != u), set m | m in s.members && m.0 != u)
    case DeleteGroup(g) =>
      State(Keep(s.rows, (r: Row) => r.groupId != g), set m | m in s.members && m.1 != g)
    case SetMembers(g, users) =>
      if !Distinct(users) then s
      else s.(members := (set m | m in s.members && m.1 != g) + set u | u in users :: (u, g))
  }

  ghost function Run(h: Hash, s: State, events: seq<Event>): State
    decreases |events|
  {
    if events == [] then s else Run(h, Step(h, s, events[0]), events[1..])
  }

  ghost predicate Known(ids: Ids, e: Event) {
    && (e.Grant? ==> forall k :: 0 <= k < |e.items| ==> Fits(ids, e.items[k]))
    && (e.SetMembers? ==> e.g in ids.groups)
  }

  /** Every grant goes to exactly one of a user and a group. */
  predicate OneSided(e: Event) {
    e.Grant? ==> forall k :: 0 <= k < |e.items| ==> (e.items[k].userId == "" <==> e.items[k].groupId != "")
  }

  predicate NoMixed(s: State) {
    forall k :: k in s.rows ==> !Mixed(s.rows[k])
  }

  /** Such a grant: the asset is listed for the user, and the lookup does not find it. */
  lemma MixedGrantNotFound(ids: Ids, h: Hash, a: string, u: string, g: string)
    requires ids.Valid() && a in ids.assets && u in ids.users && g in ids.groups
    ensures var s := Step(h, State(map[], {}), Grant([Row(a, u, g, "")]));
            a in AssetList(s, u) && !Found(h, s, u, a)
  {
    var row := Row(a, u, g, "");
    var s := Step(h, State(map[], {}), Grant([row]));
    assert [row][..0] == [] && AddAll(SignOf(h), map[], []) == map[];
    assert s.rows == map[Sign(h, row) := row];
    assert Reaches(s, s.rows[Sign(h, row)], u, a);
    UserKeyMeans(ids, h, row, u, a);
  }

  lemma {:induction false} AddAllKeeps(ids: Ids, h: Hash, rows: map<string, Row>, items: seq<Row>)
    requires forall k :: k in rows ==> Fits(ids, rows[k]) && k == Sign(h, rows[k])
    requires forall k :: 0 <= k < |items| ==> Fits(ids, items[k])
    ensures forall k :: k in AddAll(SignOf(h), rows, items) ==>
      Fits(ids, AddAll(SignOf(h), rows, items)[k]) && k == Sign(h, AddAll(SignOf(h), rows, items)[k])
    ensures forall k :: k in AddAll(SignOf(h), rows, items) ==>
      AddAll(SignOf(h), rows, items)[k] in items || (k in rows && AddAll(SignOf(h), rows, items)[k] == rows[k])
  {
    if items == [] {
    } else {
      AddAllKeeps(ids, h, rows, items[..|items| - 1]);
    }
  }

  lemma StepKeeps(ids: Ids, h: Hash, s: State, e: Event)
    requires Inv(ids, h, s) && Known(ids, e)
    ensures Inv(ids, h, Step(h, s, e))
    ensures NoMixed(s) && OneSided(e) ==> NoMixed(Step(h, s, e))
  {
    if e.Grant? {
      AddAllKeeps(ids, h, s.rows, e.items);
    }
  }

  lemma {:induction false} RunKeeps(ids: Ids, h: Hash, s: State, events: seq<Event>)
    requires Inv(ids, h, s) && forall k :: 0 <= k < |events| ==> Known(ids, events[k])
    ensures Inv(ids, h, Run(h, s, events))
    ensures NoMixed(s) && (forall k :: 0 <= k < |events| ==> OneSided(events[k])) ==> NoMixed(Run(h, s, events))
    decreases |events|
  {
    if events == [] {
    } else {
      StepKeeps(ids, h, s, events[0]);
      RunKeeps(ids, h, Step(h, s, events[0]), events[1..]);
    }
  }

  /** In every state reachable by one-sided grants, revocations, deletions and membership changes, the
      lookup authorises a user for an asset exactly when the scan lists it. */
  lemma ReachableAgreement(ids: Ids, h: Hash, events: seq<Event>, u: string, a: string)
    requires ids.Valid() && u in ids.users && a in ids.assets
    requires forall k :: 0 <= k < |events| ==> Known(ids, events[k]) && OneSided(events[k])
    ensures
      var s := Run(h, State(map[], {}), events);
      Found(h, s, u, a) <==> a in AssetList(s, u)
  {
    RunKeeps(ids, h, State(map[], {}), events);
    AgreementExactly(ids, h, Run(h, State(map[], {}), events), u, a);
  }

  // ---------- who is authorised after each change ----------

  lemma SetMembersLeaves(h: Hash, s: State, g: string, users: seq<string>)
    requires Distinct(users)
    ensures var t := Step(h, s, SetMembers(g, users));
            && t.rows == s.rows
            && (forall x, y :: (x, y) in t.members <==> if y == g then x in users else (x, y) in s.members)
  {}

  /** New members: whoever is not listed any more is authorised only by a direct grant or through another group, and
      whoever is listed by a grant to the group, too. */
  lemma SetMembersExactly(ids: Ids, h: Hash, s: State, g: string, users: seq<string>, u: string, a: string)
    requires ids.Valid() && Inv(ids, h, s) && g in ids.groups && u in ids.users && a in ids.assets && Distinct(users)
    ensures Found(h, Step(h, s, SetMembers(g, users)), u, a) <==>
            || u in GrantedUsers(s, a)
            || (u in users && g in GrantedGroups(s, a))
            || InOneOf(s.members, u, GrantedGroups(s, a) - {g})
  {
    var t, groups := Step(h, s, SetMembers(g, users)), GrantedGroups(s, a);
    StepKeeps(ids, h, s, SetMembers(g, users));
    SetMembersLeaves(h, s, g, users);
    FoundIn(ids, h, t, u, a, GrantedUsers(s, a), groups);
    NewMembers(s.members, t.members, g, users, u, groups);
  }

  lemma NewMembers(before: set<(string, string)>, after: set<(string, string)>, g: string, users: seq<string>,
                   u: string, groups: set<string>)
    requires forall x, y :: (x, y) in after <==> if y == g then x in users else (x, y) in before
    ensures InOneOf(after, u, groups) <==> (u in users && g in groups) || InOneOf(before, u, groups - {g})
  {
    if u in users && g in groups {
      assert (u, g) in after;
    }
    if InOneOf(before, u, groups - {g}) {
      var y :| (u, y) in before && y in groups - {g};
      assert (u, y) in after;
    }
    if InOneOf(after, u, groups) {
      var y :| (u, y) in after && y in groups;
      assert y != g ==> (u, y) in before && y in groups - {g};
    }
  }

  /** A list that names a user twice changes nothing. */
  lemma SetMembersRefused(h: Hash, s: State, g: string, users: seq<string>)
    requires !Distinct(users)
    ensures Step(h, s, SetMembers(g, users)) == s
  {}

  /** Exactly the rows of this kind are left, as they were. */
  ghost predicate OnlyRows(s: State, t: State, kept: set<string>) {
    && (forall k :: k in t.rows <==> k in s.rows && k in kept)
    && (forall k :: k in t.rows ==> t.rows[k] == s.rows[k])
  }

  ghost predicate Fewer(s: State, t: State) {
    forall k :: k in t.rows ==> k in s.rows && t.rows[k] == s.rows[k]
  }

  lemma UsersLeft(s: State, t: State, a: string, gone: set<string>)
    requires Fewer(s, t)
    requires forall k :: k in s.rows && s.rows[k].assetId == a && s.rows[k].groupId == "" ==>
               (k in t.rows <==> s.rows[k].userId !in gone)
    ensures GrantedUsers(t, a) == GrantedUsers(s, a) - gone
  {
    forall u | u in GrantedUsers(s, a) - gone ensures u in GrantedUsers(t, a) {
      var k :| k in s.rows && s.rows[k].assetId == a && s.rows[k].groupId == "" && s.rows[k].userId == u;
      assert k in t.rows;
    }
    forall u | u in GrantedUsers(t, a) ensures u in GrantedUsers(s, a) - gone {
      var k :| k in t.rows && t.rows[k].assetId == a && t.rows[k].groupId == "" && t.rows[k].userId == u;
      assert k in s.rows;
    }
  }

  lemma GroupsLeft(s: State, t: State, a: string, gone: set<string>)
    requires Fewer(s, t)
    requires forall k :: k in s.rows && s.rows[k].assetId == a && s.rows[k].userId == "" ==>
               (k in t.rows <==> s.rows[k].groupId !in gone)
    ensures GrantedGroups(t, a) == GrantedGroups(s, a) - gone
  {
    forall g | g in GrantedGroups(s, a) - gone ensures g in GrantedGroups(t, a) {
      var k :| k in s.rows && s.rows[k].assetId == a && s.rows[k].userId == "" && s.rows[k].groupId == g;
      assert k in t.rows;
    }
    forall g | g in GrantedGroups(t, a) ensures g in GrantedGroups(s, a) - gone {
      var k :| k in t.rows && t.rows[k].assetId == a && t.rows[k].userId == "" && t.rows[k].groupId == g;
      assert k in s.rows;
    }
  }

  /** The lookup in a state of which the grants and the memberships are known. */
  lemma FoundIn(ids: Ids, h: Hash, t: State, u: string, a: string, users: set<string>, groups: set<string>)
    requires ids.Valid() && Inv(ids, h, t) && u in ids.users && a in ids.assets
    requires GrantedUsers(t, a) == users && GrantedGroups(t, a) == groups
    ensures Found(h, t, u, a) <==> u in users || InOneOf(t.members, u, groups)
  {
    FoundExactly(ids, h, t, u, a);
  }

  lemma DeleteGroupLeaves(h: Hash, s: State, g: string, a: string)
    requires g != ""
    ensures var t := Step(h, s, DeleteGroup(g));
            && (forall x, y :: (x, y) in t.members <==> y != g && (x, y) in s.members)
            && OnlyRows(s, t, set k | k in s.rows && s.rows[k].groupId != g)
            && GrantedUsers(t, a) == GrantedUsers(s, a) && GrantedGroups(t, a) == GrantedGroups(s, a) - {g}
  {
    var t := Step(h, s, DeleteGroup(g));
    UsersLeft(s, t, a, {});
    GroupsLeft(s, t, a, {g});
  }

  /** Deleting a group: its members keep their direct grants and those of their other groups. */
  lemma DeleteGroupExactly(ids: Ids, h: Hash, s: State, g: string, u: string, a: string)
    requires ids.Valid() && Inv(ids, h, s) && g in ids.groups && u in ids.users && a in ids.assets
    ensures Found(h, Step(h, s, DeleteGroup(g)), u, a) <==>
            u in GrantedUsers(s, a) || InOneOf(s.members, u, GrantedGroups(s, a) - {g})
  {
    var t, groups := Step(h, s, DeleteGroup(g)), GrantedGroups(s, a) - {g};
    StepKeeps(ids, h, s, DeleteGroup(g));
    DeleteGroupLeaves(h, s, g, a);
    FoundIn(ids, h, t, u, a, GrantedUsers(s, a), groups);
    WithoutGroup(s.members, t.members, g, u, groups);
  }

  lemma WithoutGroup(before: set<(string, string)>, after: set<(string, string)>, g: string, u: string,
                     groups: set<string>)
    requires (forall x, y :: (x, y) in after <==> y != g && (x, y) in before) && g !in groups
    ensures InOneOf(after, u, groups) <==> InOneOf(before, u, groups)
  {
    if InOneOf(before, u, groups) {
      var y :| (u, y) in before && y in groups;
      assert (u, y) in after;
    }
  }

  lemma DeleteUserLeaves(h: Hash, s: State, gone: string, a: string)
    requires gone != ""
    ensures var t := Step(h, s, DeleteUser(gone));
            && (forall x, y :: (x, y) in t.members <==> x != gone && (x, y) in s.members)
            && OnlyRows(s, t, set k | k in s.rows && s.rows[k].userId != gone)
            && GrantedUsers(t, a) == GrantedUsers(s, a) - {gone} && GrantedGroups(t, a) == GrantedGroups(s, a)
  {
    var t := Step(h, s, DeleteUser(gone));
    UsersLeft(s, t, a, {gone});
    GroupsLeft(s, t, a, {});
  }

  /** A deleted user is authorised for nothing, and everybody else as before. */
  lemma DeleteUserExactly(ids: Ids, h: Hash, s: State, gone: string, u: string, a: string)
    requires ids.Valid() && Inv(ids, h, s) && gone in ids.users && u in ids.users && a in ids.assets
    ensures Found(h, Step(h, s, DeleteUser(gone)), u, a) <==> u != gone && Found(h, s, u, a)
  {
    var t, groups := Step(h, s, DeleteUser(gone)), GrantedGroups(s, a);
    StepKeeps(ids, h, s, DeleteUser(gone));
    DeleteUserLeaves(h, s, gone, a);
    FoundIn(ids, h, s, u, a, GrantedUsers(s, a), groups);
    FoundIn(ids, h, t, u, a, GrantedUsers(s, a) - {gone}, groups);
    WithoutUser(s.members, t.members, u, gone, groups);
  }

  lemma WithoutUser(before: set<(string, string)>, after: set<(string, string)>, u: string, gone: string,
                    groups: set<string>)
    requires forall x, y :: (x, y) in after <==> x != gone && (x, y) in before
    ensures InOneOf(after, u, groups) <==> u != gone && InOneOf(before, u, groups)
  {
    if u != gone && InOneOf(before, u, groups) {
      var y :| (u, y) in before && y in groups;
      assert (u, y) in after;
    }
  }

  lemma DeleteAssetLeaves(h: Hash, s: State, gone: string, a: string)
    ensures var t := Step(h, s, DeleteAsset(gone));
            && t.members == s.members && OnlyRows(s, t, set k | k in s.rows && s.rows[k].assetId != gone)
            && GrantedUsers(t, a) == (if a == gone then {} else GrantedUsers(s, a))
            && GrantedGroups(t, a) == (if a == gone then {} else GrantedGroups(s, a))
  {
    var t := Step(h, s, DeleteAsset(gone));
    UsersLeft(s, t, a, if a == gone then GrantedUsers(s, a) else {});
    GroupsLeft(s, t, a, if a == gone then GrantedGroups(s, a) else {});
  }

  /** A deleted asset is granted to nobody, and all others as before. */
  lemma DeleteAssetExactly(ids: Ids, h: Hash, s: State, gone: string, u: string, a: string)
    requires ids.Valid() && Inv(ids, h, s) && u in ids.users && a in ids.assets
    ensures Found(h, Step(h, s, DeleteAsset(gone)), u, a) <==> a != gone && Found(h, s, u, a)
  {
    var t, users, groups := Step(h, s, DeleteAsset(gone)), GrantedUsers(s, a), GrantedGroups(s, a);
    StepKeeps(ids, h, s, DeleteAsset(gone));
    DeleteAssetLeaves(h, s, gone, a);
    FoundIn(ids, h, s, u, a, users, groups);
    FoundIn(ids, h, t, u, a, if a == gone then {} else users, if a == gone then {} else groups);
  }

  /** Taking a grant back: the other rows stay, and whom they authorise is authorised still. */
  lemma RevokeExactly(ids: Ids, h: Hash, s: State, id: string, u: string, a: string)
    requires ids.Valid() && Inv(ids, h, s) && u in ids.users && a in ids.assets
    ensures var t := Step(h, s, Revoke(id));
            && t.members == s.members && OnlyRows(s, t, s.rows.Keys - {id})
            && (Found(h, t, u, a) <==>
                || (u in GrantedUsers(s, a) && id != UserKey(h, u, a))
                || InOneOf(s.members, u, set g | g in GrantedGroups(s, a) && id != GroupKey(h, g, a)))
  {
    var t := Step(h, s, Revoke(id));
    var groups := set g | g in GrantedGroups(s, a) && id != GroupKey(h, g, a);
    UserKeyGrants(ids, h, s, u, a);
    forall m | m in t.members ensures GroupKey(h, m.1, a) in t.rows <==> m.1 in groups {
      GroupKeyGrants(ids, h, s, m.1, a);
    }
    GroupsLookup(h, t, u, a, groups);
  }

  /** The rows granted reach their user, or the members of their group. */
  ghost predicate Reached(s: State, items: seq<Row>, u: string, a: string) {
    exists item :: item in items && Reaches(s, item, u, a) && !Mixed(item)
  }

  /** After a grant the table holds its rows, strategies included, and the others as before; the lookup finds what it
      found and what was granted. */
  lemma GrantExactly(ids: Ids, h: Hash, s: State, items: seq<Row>, u: string, a: string)
    requires ids.Valid() && Inv(ids, h, s) && u in ids.users && a in ids.assets
    requires Known(ids, Grant(items)) && DistinctSigns(SignOf(h), items)
    ensures var t := Step(h, s, Grant(items));
            && t.members == s.members
            && (forall i :: 0 <= i < |items| ==> Sign(h, items[i]) in t.rows && t.rows[Sign(h, items[i])] == items[i])
            && (forall k :: k in s.rows ==> k in t.rows)
            && (forall k :: k in t.rows ==> t.rows[k] in items || (k in s.rows && t.rows[k] == s.rows[k]))
            && (Found(h, t, u, a) <==> Found(h, s, u, a) || Reached(s, items, u, a))
  {
    var t := Step(h, s, Grant(items));
    StepKeeps(ids, h, s, Grant(items));
    AddAllKeeps(ids, h, s.rows, items);
    AddAllLookup(SignOf(h), s.rows, items);
    forall i | 0 <= i < |items|
      ensures Sign(h, items[i]) in t.rows && t.rows[Sign(h, items[i])] == items[i]
    {
      LastIsOnly(SignOf(h), items, i);
    }
    FoundKept(ids, h, s, t, u, a);
    if Found(h, t, u, a) {
      var k := FoundReaches(ids, h, t, u, a);
      if t.rows[k] !in items {
        RowIsFound(ids, h, s, u, a, k);
      }
    }
    if Reached(s, items, u, a) {
      var item :| item in items && Reaches(s, item, u, a) && !Mixed(item);
      var i :| 0 <= i < |items| && items[i] == item;
      RowIsFound(ids, h, t, u, a, Sign(h, items[i]));
    }
  }

  /** More keys, and the same members: what was found is found. */
  lemma FoundKept(ids: Ids, h: Hash, s: State, t: State, u: string, a: string)
    requires t.members == s.members && forall k :: k in s.rows ==> k in t.rows
    ensures Found(h, s, u, a) ==> Found(h, t, u, a)
  {}

  lemma {:induction false} LastIsOnly(sign: Row -> string, items: seq<Row>, i: nat)
    requires i < |items| && DistinctSigns(sign, items)
    ensures sign(items[i]) in Signs(sign, items) && LastWith(sign, items, sign(items[i])) == items[i]
  {
    assert sign(items[i]) in Signs(sign, items);
    var n := |items| - 1;
    if i < n {
      LastIsOnly(sign, items[..n], i);
    }
  }

  // ---------- the services ----------

  class Services {
    const h: Hash
    var rows: map<string, Row>
    var members: set<(string, string)>

    constructor (h: Hash)
      ensures this.h == h && View() == State(map[], {})
    {
      this.h, rows, members := h, map[], {};
    }

    function View(): State
      reads this
    {
      State(rows, members)
    }

    /** The rows stand in the table. */
    ghost predicate Written(items: seq<Row>)
      reads this
    {
      forall i :: 0 <= i < |items| ==> Sign(h, items[i]) in rows && rows[Sign(h, items[i])] == items[i]
    }

    /** One transaction: the old rows under the new signatures go, then the new rows are inserted; a
        signature used twice breaks the primary key. */
    method GrantAll(items: seq<Row>) returns (r: Outcome<()>)
      modifies this`rows
      ensures View() == Step(h, old(View()), Grant(items))
      ensures r.Ok? <==> DistinctSigns(SignOf(h), items)
      ensures r.Ok? ==> Written(items)
    {
      var kept := WithoutSigned(SignOf(h), rows, items);
      var written := InsertAll(SignOf(h), kept, items);
      if !written.Ok? {
        return Err;
      }
      AddAllForgets(SignOf(h), rows, items);
      AddAllLookup(SignOf(h), rows, items);
      forall i | 0 <= i < |items| ensures written.value[Sign(h, items[i])] == items[i] {
        LastIsOnly(SignOf(h), items, i);
      }
      rows := written.value;
      return Ok(());
    }

    method AuthorisedAssets(assetIds: seq<string>, userId: string, groupId: string, strategyId: string)
      returns (r: Outcome<()>)
      modifies this`rows
      ensures View() == Step(h, old(View()), Grant(AssetGrants(assetIds, userId, groupId, strategyId)))
      ensures r.Ok? ==> forall a :: a in assetIds ==> Written([Row(a, userId, groupId, strategyId)])
    {
      var items := AssetGrants(assetIds, userId, groupId, strategyId);
      r := GrantAll(items);
      if r.Ok? {
        forall a | a in assetIds ensures Written([Row(a, userId, groupId, strategyId)]) {
          var i :| 0 <= i < |assetIds| && assetIds[i] == a;
          assert items[i] == Row(a, userId, groupId, strategyId);
        }
      }
    }

    method AuthorisedUsers(assetId: string, userIds: seq<string>, strategyId: string) returns (r: Outcome<()>)
      modifies this`rows
      ensures View() == Step(h, old(View()), Grant(UserGrants(assetId, userIds, strategyId)))
      ensures r.Ok? ==> forall u :: u in userIds ==> Written([Row(assetId, u, "", strategyId)])
    {
      var items := UserGrants(assetId, userIds, strategyId);
      r := GrantAll(items);
      if r.Ok? {
        forall u | u in userIds ensures Written([Row(assetId, u, "", strategyId)]) {
          var i :| 0 <= i < |userIds| && userIds[i] == u;
          assert items[i] == Row(assetId, u, "", strategyId);
        }
      }
    }

    method AuthorisedUserGroups(assetId: string, groupIds: seq<string>, strategyId: string) returns (r: Outcome<()>)
      modifies this`rows
      ensures View() == Step(h, old(View()), Grant(GroupGrants(assetId, groupIds, strategyId)))
      ensures r.Ok? ==> forall g :: g in groupIds ==> Written([Row(assetId, "", g, strategyId)])
    {
      var items := GroupGrants(assetId, groupIds, strategyId);
      r := GrantAll(items);
      if r.Ok? {
        forall g | g in groupIds ensures Written([Row(assetId, "", g, strategyId)]) {
          var i :| 0 <= i < |groupIds| && groupIds[i] == g;
          assert items[i] == Row(assetId, "", g, strategyId);
        }
      }
    }

    method FindGroupIds(u: string) returns (groupIds: seq<string>)
      ensures forall g :: g in groupIds <==> (u, g) in members
    {
      groupIds := [];
      var todo := members;
      while todo != {}
        invariant todo <= members
        invariant forall g :: g in groupIds <==> (u, g) in members && (u, g) !in todo
        decreases |todo|
      {
        var m :| m in todo;
        todo := todo - {m};
        if m.0 == u {
          groupIds := groupIds + [m.1];
        }
      }
    }

    /** A direct grant comes first; else the first group that has a grant decides. */
    method GetAuthorised(u: string, a: string) returns (item: Option<Row>)
      ensures item.Some? <==> Found(h, View(), u, a)
      ensures UserKey(h, u, a) in rows ==> item == Some(rows[UserKey(h, u, a)])
      ensures UserKey(h, u, a) !in rows && item.Some? ==>
        exists m :: m in members && m.0 == u && GroupKey(h, m.1, a) in rows && item.value == rows[GroupKey(h, m.1, a)]
    {
      if UserKey(h, u, a) in rows {
        return Some(rows[UserKey(h, u, a)]);
      }
      var groupIds := FindGroupIds(u);
      for i := 0 to |groupIds|
        invariant forall j :: 0 <= j < i ==> GroupKey(h, groupIds[j], a) !in rows
      {
        if GroupKey(h, groupIds[i], a) in rows {
          assert (u, groupIds[i]) in members;
          return Some(rows[GroupKey(h, groupIds[i], a)]);
        }
      }
      return None;
    }

    method GetAssetIdListByUserId(u: string) returns (ids: set<string>)
      ensures ids == AssetList(View(), u)
    {
      ids := {};
      var groupIds := FindGroupIds(u);
      var todo := rows.Keys;
      while todo != {}
        invariant todo <= rows.Keys
        invariant ids == set k | k in rows && k !in todo
                                  && (rows[k].userId == u || (u, rows[k].groupId) in members) :: rows[k].assetId
        decreases |todo|
      {
        var k :| k in todo;
        todo := todo - {k};
        if rows[k].userId == u || rows[k].groupId in groupIds {
          ids := ids + {rows[k].assetId};
        }
      }
    }

    method CheckPermission(a: string, u: string) returns (ok: bool)
      ensures ok <==> a in AssetList(View(), u)
    {
      var list := GetAssetIdListByUserId(u);
      return a in list;
    }

    method DeleteGroup(g: string)
      modifies this
      ensures View() == Step(h, old(View()), Event.DeleteGroup(g))
      ensures forall u, y :: (u, y) in members <==> y != g && (u, y) in old(members)
      ensures forall k :: k in rows <==> k in old(rows) && old(rows)[k].groupId != g
    {
      members := set m | m in members && m.1 != g;
      rows := Keep(rows, (r: Row) => r.groupId != g);
    }

    /** The membership part of Create and Update of a user group: one transaction that fails on a user
        named twice. */
    method SetMembers(g: string, users: seq<string>) returns (r: Outcome<()>)
      modifies this`members
      ensures View() == Step(h, old(View()), Event.SetMembers(g, users))
      ensures r.Ok? <==> Distinct(users)
      ensures !r.Ok? ==> members == old(members)
      ensures r.Ok? ==> forall u, y :: (u, y) in members <==> if y == g then u in users else (u, y) in old(members)
    {
      var kept := set m | m in members && m.1 != g;
      var written := kept;
      for i := 0 to |users|
        invariant written == kept + set u | u in users[..i] :: (u, g)
        invariant Distinct(users[..i])
      {
        if (users[i], g) in written {
          assert users[i] in users[..i];
          return Err;
        }
        written := written + {(users[i], g)};
        assert users[..i + 1] == users[..i] + [users[i]];
      }
      assert users[..|users|] == users;
      members := written;
      return Ok(());
    }
  }

  method WithoutSigned(sign: Row -> string, rows: map<string, Row>, items: seq<Row>) returns (kept: map<string, Row>)
    ensures kept == rows - Signs(sign, items)
  {
    kept := rows;
    for i := 0 to |items|
      invariant kept == rows - Signs(sign, items[..i])
    {
      kept := kept - {sign(items[i])};
      SignsSnoc(sign, items, i);
    }
    assert items[..|items|] == items;
  }

  method InsertAll(sign: Row -> string, kept: map<string, Row>, items: seq<Row>) returns (r: Outcome<map<string, Row>>)
    requires kept.Keys !! Signs(sign, items)
    ensures r.Ok? <==> DistinctSigns(sign, items)
    ensures r.Ok? ==> r.value == AddAll(sign, kept, items)
  {
    var written := kept;
    for i := 0 to |items|
      invariant written == AddAll(sign, kept, items[..i])
      invariant written.Keys == kept.Keys + Signs(sign, items[..i])
      invariant DistinctSigns(sign, items[..i])
    {
      assert items[..i + 1][..i] == items[..i];
      SignsSnoc(sign, items, i);
      if sign(items[i]) in written {
        assert sign(items[i]) in Signs(sign, items[..i]);
        return Err;
      }
      written := written[sign(items[i]) := items[i]];
    }
    assert items[..|items|] == items;
    return Ok(written);
  }

  function Signs(sign: Row -> string, items: seq<Row>): set<string> {
    set k | 0 <= k < |items| :: sign(items[k])
  }

  lemma SignsSnoc(sign: Row -> string, items: seq<Row>, i: nat)
    requires i < |items|
    ensures Signs(sign, items[..i + 1]) == Signs(sign, items[..i]) + {sign(items[i])}
  {}

  /** The rows overwritten by a grant need not be there. */
  lemma {:induction false} AddAllForgets(sign: Row -> string, rows: map<string, Row>, items: seq<Row>)
    ensures AddAll(sign, rows - Signs(sign, items), items) == AddAll(sign, rows, items)
  {
    AddAllLookup(sign, rows, items);
    AddAllLookup(sign, rows - Signs(sign, items), items);
  }

  function LastWith(sign: Row -> string, items: seq<Row>, k: string): Row
    requires k in Signs(sign, items)
  {
    if sign(items[|items| - 1]) == k then items[|items| - 1]
    else
      assert k in Signs(sign, items[..|items| - 1]) by {
        SignsSnoc(sign, items, |items| - 1);
        assert items[..|items|] == items;
      }
      LastWith(sign, items[..|items| - 1], k)
  }

  lemma {:induction false} AddAllLookup(sign: Row -> string, rows: map<string, Row>, items: seq<Row>)
    ensures AddAll(sign, rows, items).Keys == rows.Keys + Signs(sign, items)
    ensures forall k :: k in AddAll(sign, rows, items) ==>
      AddAll(sign, rows, items)[k] == if k in Signs(sign, items) then LastWith(sign, items, k) else rows[k]
  {
    if items == [] {
    } else {
      AddAllLookup(sign, rows, items[..|items| - 1]);
      SignsSnoc(sign, items, |items| - 1);
      assert items[..|items|] == items;
    }
  }

  function AssetGrants(assetIds: seq<string>, userId: string, groupId: string, strategyId: string): seq<Row> {
    seq(|assetIds|, i requires 0 <= i < |assetIds| => Row(assetIds[i], userId, groupId, strategyId))
  }

  function UserGrants(assetId: string, userIds: seq<string>, strategyId: string): seq<Row> {
    seq(|userIds|, i requires 0 <= i < |userIds| => Row(assetId, userIds[i], "", strategyId))
  }

  function GroupGrants(assetId: string, groupIds: seq<string>, strategyId: string): seq<Row> {
    seq(|groupIds|, i requires 0 <= i < |groupIds| => Row(assetId, "", groupIds[i], strategyId))
  }
}
