/**
 The access record of an account, `authress-access.ts`: one statement per role, each listing the users
 that hold the role.
 */
module Access {
  import opened Options

  datatype Role = Admin | Member | Viewer

  datatype Statement = Statement(roles: seq<string>, resources: seq<string>, users: seq<string>)

  function RoleId(role: Role): string {
    match role
    case Admin => "ro_ag2b0hrztp7n84b25qxqijwewm"
    case Member => "ro_bvy5r9ri47n23zu4n7u6bgj0jx"
    case Viewer => "ro_a4d58mfmq074p8hdy4s7whwa0e"
  }

  /** No two roles share an id, so a grant tells its role. */
  lemma {:induction false} RolesDiffer(a: Role, b: Role)
    requires RoleId(a) == RoleId(b)
    ensures a == b
  {
    var admin, member, viewer := RoleId(Admin), RoleId(Member), RoleId(Viewer);
    assert admin[4] == 'g' && member[4] == 'v' && viewer[4] == '4';
  }

  function ResourceUri(accountId: string): string {
    "accounts/" + accountId
  }

  // ---------------------------------------------------------------------------
  // Statement lists
  // ---------------------------------------------------------------------------

  function Without(users: seq<string>, user: string): seq<string> {
    if users == [] then []
    else
      var k := |users| - 1;
      Without(users[..k], user) + if users[k] != user then [users[k]] else []
  }

  /** The statements without the user, and without those that this empties. */
  function Dropped(statements: seq<Statement>, user: string): seq<Statement> {
    if statements == [] then []
    else
      var k := |statements| - 1;
      Dropped(statements[..k], user) + Kept(statements[k], user)
  }

  function Kept(s: Statement, user: string): seq<Statement> {
    if Without(s.users, user) == [] then [] else [s.(users := Without(s.users, user))]
  }

  /** `statements.find((s) => s.roles.includes(roleId))`, as an index. */
  function FirstWith(statements: seq<Statement>, roleId: string): (k: Option<nat>)
    ensures k.Some? ==> k.value < |statements| && roleId in statements[k.value].roles
    ensures k.Some? ==> forall i :: 0 <= i < k.value ==> roleId !in statements[i].roles
    ensures k.None? ==> forall i :: 0 <= i < |statements| ==> roleId !in statements[i].roles
  {
    if statements == [] then None
    else
      var n := |statements| - 1;
      var before := FirstWith(statements[..n], roleId);
      assert forall i :: 0 <= i < n ==> statements[..n][i] == statements[i];
      if before.Some? then before else if roleId in statements[n].roles then Some(n) else None
  }

  function Added(statements: seq<Statement>, uri: string, user: string, roleId: string): seq<Statement> {
    var k := FirstWith(statements, roleId);
    if k.Some? then statements[k.value := statements[k.value].(users := statements[k.value].users + [user])]
    else statements + [Statement([roleId], [uri], [user])]
  }

  function Upserted(record: Option<seq<Statement>>, uri: string, user: string, role: Role): Option<seq<Statement>> {
    if record.None? then Some([Statement([RoleId(role)], [uri], [user])])
    else Some(Added(Dropped(record.value, user), uri, user, RoleId(role)))
  }

  function Removed(record: Option<seq<Statement>>, user: string): Option<seq<Statement>> {
    if record.None? then None else Some(Dropped(record.value, user))
  }

  // ---------------------------------------------------------------------------
  // What a record grants
  // ---------------------------------------------------------------------------

  ghost predicate Grants(s: Statement, user: string, roleId: string) {
    user in s.users && roleId in s.roles
  }

  ghost predicate Has(statements: seq<Statement>, user: string, roleId: string) {
    exists i :: 0 <= i < |statements| && Grants(statements[i], user, roleId)
  }

  function Statements(record: Option<seq<Statement>>): seq<Statement> {
    if record.None? then [] else record.value
  }

  ghost predicate NoRepeats(users: seq<string>) {
    forall i, j :: 0 <= i < j < |users| ==> users[i] != users[j]
  }

  ghost predicate Good(s: Statement, uri: string) {
    |s.roles| == 1 && s.resources == [uri] && s.users != [] && NoRepeats(s.users)
  }

  /** Two statements share neither a role nor a user. */
  ghost predicate Apart(s: Statement, t: Statement) {
    (forall r :: r in s.roles ==> r !in t.roles) && (forall u :: u in s.users ==> u !in t.users)
  }

  ghost predicate WellFormed(statements: seq<Statement>, uri: string) {
    && (forall i :: 0 <= i < |statements| ==> Good(statements[i], uri))
    && forall i, j :: 0 <= i < j < |statements| ==> Apart(statements[i], statements[j])
  }

  /** The user-to-role map that a record stands for. */
  function RoleMap(statements: seq<Statement>): map<string, string>
    requires forall i :: 0 <= i < |statements| ==> |statements[i].roles| == 1
  {
    if statements == [] then map[]
    else
      var k := |statements| - 1;
      RoleMap(statements[..k]) + map u | u in statements[k].users :: statements[k].roles[0]
  }

  lemma {:induction false} HasSnoc(statements: seq<Statement>, user: string, roleId: string)
    requires statements != []
    ensures var k := |statements| - 1;
            Has(statements, user, roleId) <==> Has(statements[..k], user, roleId) || Grants(statements[k], user, roleId)
  {
    var k := |statements| - 1;
    if Has(statements[..k], user, roleId) {
      var i :| 0 <= i < k && Grants(statements[..k][i], user, roleId);
      assert Grants(statements[i], user, roleId);
    }
    if Has(statements, user, roleId) && !Grants(statements[k], user, roleId) {
      var i :| 0 <= i < |statements| && Grants(statements[i], user, roleId);
      assert Grants(statements[..k][i], user, roleId);
    }
  }

  /** A well-formed record grants exactly what its map says, so no user holds two roles. */
  lemma {:induction false} RecordDenotesItsMap(statements: seq<Statement>, uri: string, user: string, roleId: string)
    requires WellFormed(statements, uri)
    ensures Has(statements, user, roleId) <==> user in RoleMap(statements) && RoleMap(statements)[user] == roleId
  {
    if statements != [] {
      var k := |statements| - 1;
      var last := statements[k];
      RecordDenotesItsMap(statements[..k], uri, user, roleId);
      HasSnoc(statements, user, roleId);
      assert Good(last, uri);
      assert last.roles == [last.roles[0]];
      if user in last.users {
      }
    }
  }

  /** A well-formed record gives no user two of the roles. */
  lemma {:induction false} OneRoleEach(statements: seq<Statement>, uri: string, user: string, a: Role, b: Role)
    requires WellFormed(statements, uri) && Has(statements, user, RoleId(a)) && Has(statements, user, RoleId(b))
    ensures a == b
  {
    RecordDenotesItsMap(statements, uri, user, RoleId(a));
    RecordDenotesItsMap(statements, uri, user, RoleId(b));
    RolesDiffer(a, b);
  }

  // ---------------------------------------------------------------------------
  // Dropping a user
  // ---------------------------------------------------------------------------

  lemma {:induction false} WithoutMembers(users: seq<string>, user: string)
    ensures forall u :: u in Without(users, user) <==> u in users && u != user
    ensures NoRepeats(users) ==> NoRepeats(Without(users, user))
  {
    if users != [] {
      var k := |users| - 1;
      WithoutMembers(users[..k], user);
      assert users == users[..k] + [users[k]];
      assert NoRepeats(users) ==> NoRepeats(users[..k]) && users[k] !in users[..k];
    }
  }

  /** Whatever the record looks like, dropping a user takes away that user's grants and no other. */
  lemma {:induction false} DropTakesOnlyTheUser(statements: seq<Statement>, user: string, v: string, roleId: string)
    ensures Has(Dropped(statements, user), v, roleId) <==> v != user && Has(statements, v, roleId)
  {
    if statements != [] {
      var k := |statements| - 1;
      DropTakesOnlyTheUser(statements[..k], user, v, roleId);
      HasSnoc(statements, v, roleId);
      WithoutMembers(statements[k].users, user);
      var rest := Dropped(statements[..k], user);
      if Kept(statements[k], user) == [] {
        assert Dropped(statements, user) == rest;
      } else {
        HasSnoc(Dropped(statements, user), v, roleId);
        assert Dropped(statements, user)[..|rest|] == rest;
      }
    }
  }

  /** A statement that survives comes from one with the same role and resource, and fewer users. */
  ghost predicate Comes(t: Statement, s: Statement, user: string) {
    t == s.(users := Without(s.users, user)) && t.users != []
  }

  lemma {:induction false} SurvivorOrigin(statements: seq<Statement>, user: string, t: Statement) returns (i: nat)
    requires t in Dropped(statements, user)
    ensures i < |statements| && Comes(t, statements[i], user)
  {
    var k := |statements| - 1;
    if t in Dropped(statements[..k], user) {
      i := SurvivorOrigin(statements[..k], user, t);
    } else {
      i := k;
    }
  }

  lemma {:induction false} DropKeepsForm(statements: seq<Statement>, user: string, uri: string)
    requires WellFormed(statements, uri)
    ensures WellFormed(Dropped(statements, user), uri)
    ensures forall t :: t in Dropped(statements, user) ==> user !in t.users
  {
    if statements != [] {
      var k := |statements| - 1;
      DropKeepsForm(statements[..k], user, uri);
      WithoutMembers(statements[k].users, user);
      if Kept(statements[k], user) != [] {
        var rest, t := Dropped(statements[..k], user), Kept(statements[k], user)[0];
        assert Good(statements[k], uri);
        forall s | s in rest ensures Apart(s, t) {
          var i := SurvivorOrigin(statements[..k], user, s);
          WithoutMembers(statements[i].users, user);
          assert Apart(statements[i], statements[k]);
        }
      }
    }
  }

  // ---------------------------------------------------------------------------
  // Adding a user
  // ---------------------------------------------------------------------------

  lemma {:induction false} AddKeepsForm(statements: seq<Statement>, uri: string, user: string, roleId: string)
    requires WellFormed(statements, uri) && forall s :: s in statements ==> user !in s.users
    ensures WellFormed(Added(statements, uri, user, roleId), uri)
  {
    var k := FirstWith(statements, roleId);
    if k.None? {
    } else {
      var s := statements[k.value];
      var t := s.(users := s.users + [user]);
      var after := statements[k.value := t];
      assert Good(s, uri);
      forall i, j | 0 <= i < j < |after| ensures Apart(after[i], after[j]) {
        assert Apart(statements[i], statements[j]);
        assert user !in statements[i].users && user !in statements[j].users;
      }
    }
  }

  /** The roles that adding gives: those of the statement found, or the one asked for. */
  function Given(statements: seq<Statement>, roleId: string): seq<string> {
    var k := FirstWith(statements, roleId);
    if k.Some? then statements[k.value].roles else [roleId]
  }

  lemma {:induction false} AddGivesOnlyTheUser(statements: seq<Statement>, uri: string, user: string, roleId: string,
                                               v: string, r: string)
    ensures Has(Added(statements, uri, user, roleId), v, r)
       <==> Has(statements, v, r) || (v == user && r in Given(statements, roleId))
  {
    var k := FirstWith(statements, roleId);
    var after := Added(statements, uri, user, roleId);
    if k.None? {
      HasSnoc(after, v, r);
      assert after[..|after| - 1] == statements;
    } else {
      assert Grants(after[k.value], v, r) <==>
          Grants(statements[k.value], v, r) || (v == user && r in statements[k.value].roles);
      assert forall i :: 0 <= i < |statements| && i != k.value ==> after[i] == statements[i];
      if Has(statements, v, r) {
        var i :| 0 <= i < |statements| && Grants(statements[i], v, r);
        assert Grants(after[i], v, r);
      }
    }
  }

  // ---------------------------------------------------------------------------
  // Main results
  // ---------------------------------------------------------------------------

  /**
   For any record, well formed or not: an upsert leaves every other user's grants alone, and the user ends
   with the roles of one statement that grants the role asked for, and no others.
   */
  lemma {:induction false} UpsertTouchesOneUser(record: Option<seq<Statement>>, uri: string, user: string, role: Role,
                                                v: string, r: string)
    ensures v != user ==> (Has(Upserted(record, uri, user, role).value, v, r) <==> Has(Statements(record), v, r))
    ensures Has(Upserted(record, uri, user, role).value, user, RoleId(role))
    ensures Has(Upserted(record, uri, user, role).value, user, r)
       <==> r in Given(Dropped(Statements(record), user), RoleId(role))
  {
    var dropped := Dropped(Statements(record), user);
    assert Upserted(record, uri, user, role).value == Added(dropped, uri, user, RoleId(role));
    AddGivesOnlyTheUser(dropped, uri, user, RoleId(role), v, r);
    AddGivesOnlyTheUser(dropped, uri, user, RoleId(role), user, r);
    AddGivesOnlyTheUser(dropped, uri, user, RoleId(role), user, RoleId(role));
    DropTakesOnlyTheUser(Statements(record), user, v, r);
    DropTakesOnlyTheUser(Statements(record), user, user, r);
  }

  /** A well-formed record stays so, and its map changes at the user alone. */
  lemma {:induction false} UpsertUpdatesTheMap(record: Option<seq<Statement>>, uri: string, user: string, role: Role)
    requires WellFormed(Statements(record), uri)
    ensures var after := Upserted(record, uri, user, role).value;
            WellFormed(after, uri) && RoleMap(after) == RoleMap(Statements(record))[user := RoleId(role)]
  {
    UpsertKeepsForm(record, uri, user, role);
    var after, m := Upserted(record, uri, user, role).value, RoleMap(Statements(record));
    forall v, r ensures Has(after, v, r) <==> if v == user then r == RoleId(role) else v in m && m[v] == r {
      UpsertTouchesOneUser(record, uri, user, role, v, r);
      RecordDenotesItsMap(Statements(record), uri, v, r);
    }
    MapFromGrants(after, uri, m[user := RoleId(role)]);
  }

  lemma {:induction false} UpsertKeepsForm(record: Option<seq<Statement>>, uri: string, user: string, role: Role)
    requires WellFormed(Statements(record), uri)
    ensures WellFormed(Upserted(record, uri, user, role).value, uri)
    ensures Given(Dropped(Statements(record), user), RoleId(role)) == [RoleId(role)]
  {
    var dropped := Dropped(Statements(record), user);
    assert Upserted(record, uri, user, role).value == Added(dropped, uri, user, RoleId(role));
    DropKeepsForm(Statements(record), user, uri);
    AddKeepsForm(dropped, uri, user, RoleId(role));
  }

  lemma {:induction false} MapFromGrants(after: seq<Statement>, uri: string, m: map<string, string>)
    requires WellFormed(after, uri)
    requires forall v, r :: Has(after, v, r) <==> v in m && m[v] == r
    ensures RoleMap(after) == m
  {
    forall v ensures v in RoleMap(after) <==> v in m
      ensures v in m ==> RoleMap(after)[v] == m[v]
    {
      if v in m {
        RecordDenotesItsMap(after, uri, v, m[v]);
      }
      if v in RoleMap(after) {
        RecordDenotesItsMap(after, uri, v, RoleMap(after)[v]);
      }
    }
  }

  lemma {:induction false} RemoveUpdatesTheMap(record: Option<seq<Statement>>, uri: string, user: string)
    requires WellFormed(Statements(record), uri)
    ensures var after := Statements(Removed(record, user));
            WellFormed(after, uri) && RoleMap(after) == RoleMap(Statements(record)) - {user}
  {
    var before, after := Statements(record), Statements(Removed(record, user));
    assert after == Dropped(before, user);
    DropKeepsForm(before, user, uri);
    var m := RoleMap(before) - {user};
    forall v, r ensures Has(after, v, r) <==> v in m && m[v] == r {
      DropTakesOnlyTheUser(before, user, v, r);
      RecordDenotesItsMap(before, uri, v, r);
    }
    MapFromGrants(after, uri, m);
  }

  // ---------------------------------------------------------------------------
  // Runs
  // ---------------------------------------------------------------------------

  /** `addUser` and `updateUserRole` are both an upsert. */
  datatype Request = AddUser(user: string, role: Role) | UpdateUserRole(user: string, role: Role)
    | RemoveUser(user: string)

  function Handle(record: Option<seq<Statement>>, uri: string, q: Request): Option<seq<Statement>> {
    match q
    case AddUser(user, role) => Upserted(record, uri, user, role)
    case UpdateUserRole(user, role) => Upserted(record, uri, user, role)
    case RemoveUser(user) => Removed(record, user)
  }

  function Run(record: Option<seq<Statement>>, uri: string, requests: seq<Request>): Option<seq<Statement>> {
    if requests == [] then record
    else Handle(Run(record, uri, requests[..|requests| - 1]), uri, requests[|requests| - 1])
  }

  /** The last request about the user decides: `None` for a user without a role. */
  function LastWord(requests: seq<Request>, user: string, start: Option<string>): Option<string> {
    if requests == [] then start
    else
      var q := requests[|requests| - 1];
      if q.user != user then LastWord(requests[..|requests| - 1], user, start)
      else if q.RemoveUser? then None else Some(RoleId(q.role))
  }

  function Lookup(m: map<string, string>, user: string): Option<string> {
    if user in m then Some(m[user]) else None
  }

  /** After any requests each user holds the role that the last request about them left, or the one they began with. */
  lemma {:induction false} LastRequestDecides(record: Option<seq<Statement>>, uri: string, requests: seq<Request>,
                                              user: string)
    requires WellFormed(Statements(record), uri)
    ensures WellFormed(Statements(Run(record, uri, requests)), uri)
    ensures Lookup(RoleMap(Statements(Run(record, uri, requests))), user)
         == LastWord(requests, user, Lookup(RoleMap(Statements(record)), user))
  {
    if requests != [] {
      var k := |requests| - 1;
      LastRequestDecides(record, uri, requests[..k], user);
      OneRequest(Run(record, uri, requests[..k]), uri, requests[k], user);
    }
  }

  lemma {:induction false} OneRequest(record: Option<seq<Statement>>, uri: string, q: Request, user: string)
    requires WellFormed(Statements(record), uri)
    ensures WellFormed(Statements(Handle(record, uri, q)), uri)
    ensures Lookup(RoleMap(Statements(Handle(record, uri, q))), user)
         == if q.user != user then Lookup(RoleMap(Statements(record)), user)
            else if q.RemoveUser? then None else Some(RoleId(q.role))
  {
    if q.RemoveUser? {
      RemoveUpdatesTheMap(record, uri, q.user);
    } else {
      UpsertUpdatesTheMap(record, uri, q.user, q.role);
    }
  }

  // ---------------------------------------------------------------------------
  // The stored record
  // ---------------------------------------------------------------------------

  class AccessRecord {
    const accountId: string
    var statements: Option<seq<Statement>>

    constructor (accountId: string)
      ensures this.accountId == accountId && statements == None
    {
      this.accountId := accountId;
      statements := None;
    }

    /** `_upsertUser`, which `addUser` and `updateUserRole` call. */
    method UpsertUser(user: string, role: Role)
      modifies this
      ensures statements == Upserted(old(statements), ResourceUri(accountId), user, role)
      ensures var uri := ResourceUri(accountId);
              WellFormed(Statements(old(statements)), uri) ==>
                && WellFormed(Statements(statements), uri)
                && RoleMap(Statements(statements)) == RoleMap(Statements(old(statements)))[user := RoleId(role)]
    {
      ghost var uri := ResourceUri(accountId);
      if WellFormed(Statements(statements), uri) {
        UpsertUpdatesTheMap(statements, uri, user, role);
      }
      var resourceUri, roleId := ResourceUri(accountId), RoleId(role);
      if statements.None? {
        statements := Some([Statement([roleId], [resourceUri], [user])]);
        return;
      }
      var kept := Dropped(statements.value, user);
      var existing := FirstWith(kept, roleId);
      if existing.Some? {
        var s := kept[existing.value];
        kept := kept[existing.value := s.(users := s.users + [user])];
      } else {
        kept := kept + [Statement([roleId], [resourceUri], [user])];
      }
      statements := Some(kept);
    }

    method RemoveUser(user: string)
      modifies this
      ensures statements == Removed(old(statements), user)
      ensures var uri := ResourceUri(accountId);
              WellFormed(Statements(old(statements)), uri) ==>
                && WellFormed(Statements(statements), uri)
                && RoleMap(Statements(statements)) == RoleMap(Statements(old(statements))) - {user}
    {
      if WellFormed(Statements(statements), ResourceUri(accountId)) {
        RemoveUpdatesTheMap(statements, ResourceUri(accountId), user);
      }
      if statements.None? {
        return;
      }
      statements := Some(Dropped(statements.value, user));
    }
  }
}
