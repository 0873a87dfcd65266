/** Permissions in the database are brought in line with those in the code. */
module Authz {
  import opened Options

  datatype Permission = Permission(name: string, description: Option<string>)

  datatype Role = Role(id: int, defaults: seq<string>)

  /** What the code defines: permission names in order, their descriptions, and the
      known roles with their default permissions. */
  datatype Config = Config(names: seq<string>, descriptions: map<string, Option<string>>, roles: seq<Role>)

  type Permissions = map<int, Permission>

  ghost predicate ConfigOk(c: Config) {
    && (forall i, j :: 0 <= i < j < |c.names| ==> c.names[i] != c.names[j])
    && (forall n :: n in c.descriptions <==> n in c.names)
    && (forall r, s :: r in c.roles && s in c.roles && r.id == s.id ==> r == s)
  }

  /** The tables: ids come from a sequence, names are unique, and a mapping refers to
      a permission that exists. */
  ghost predicate TablesOk(permissions: Permissions, mappings: set<(int, int)>, nextId: int) {
    && (forall id :: id in permissions ==> id < nextId)
    && UniqueNames(permissions)
    && (forall m :: m in mappings ==> m.1 in permissions)
  }

  ghost predicate UniqueNames(permissions: Permissions) {
    forall a, b :: a in permissions && b in permissions && permissions[a].name == permissions[b].name ==> a == b
  }

  function Names(permissions: Permissions): set<string> {
    set id | id in permissions :: permissions[id].name
  }

  // ---------- permission definitions ----------

  function Missing(names: seq<string>, present: set<string>): (r: seq<string>)
    ensures forall n :: n in r <==> n in names && n !in present
  {
    if names == [] then []
    else
      var rest := Missing(names[..|names| - 1], present);
      var n := names[|names| - 1];
      assert names == names[..|names| - 1] + [n];
      if n in present then rest else rest + [n]
  }

  /** Rows the code knows, with the code's description. */
  function Kept(c: Config, permissions: Permissions): Permissions {
    map id | id in permissions && permissions[id].name in c.descriptions ::
      Permission(permissions[id].name, c.descriptions[permissions[id].name])
  }

  /** One new row per name, with ids taken from the sequence. */
  function Inserted(c: Config, names: seq<string>, nextId: int): (rows: Permissions)
    requires forall n :: n in names ==> n in c.descriptions
    ensures forall id :: id in rows <==> nextId <= id < nextId + |names|
    ensures forall id :: id in rows ==> rows[id] == Permission(names[id - nextId], c.descriptions[names[id - nextId]])
  {
    if names == [] then map[]
    else
      var n := |names| - 1;
      Inserted(c, names[..n], nextId)[nextId + n := Permission(names[n], c.descriptions[names[n]])]
  }

  ghost function SyncedDefs(c: Config, permissions: Permissions, nextId: int): Permissions
    requires ConfigOk(c)
  {
    Kept(c, permissions) + Inserted(c, Missing(c.names, Names(permissions)), nextId)
  }

  /** Nothing to do for the definitions. */
  ghost predicate DefsSettled(c: Config, permissions: Permissions) {
    && (forall n :: n in c.names ==> n in Names(permissions))
    && (forall id :: id in permissions ==>
          permissions[id].name in c.descriptions && permissions[id].description == c.descriptions[permissions[id].name])
  }

  predicate Known(c: Config, permissions: Permissions, id: int)
    requires id in permissions
  {
    permissions[id].name in c.descriptions
  }

  function Expected(c: Config, p: Permission): Permission {
    if p.name in c.descriptions then Permission(p.name, c.descriptions[p.name]) else p
  }

  /** The table once the rows of `done` have their descriptions. */
  function Described(c: Config, permissions: Permissions, done: set<int>): Permissions {
    map id | id in permissions :: if id in done then Expected(c, permissions[id]) else permissions[id]
  }

  ghost predicate DescriptionsSettled(c: Config, permissions: Permissions, done: set<int>) {
    forall id :: id in done && id in permissions ==> permissions[id] == Expected(c, permissions[id])
  }

  function KnownNames(c: Config, permissions: Permissions, done: set<int>): set<string> {
    set id | id in done && id in permissions && Known(c, permissions, id) :: permissions[id].name
  }

  function Unknown(c: Config, permissions: Permissions, done: set<int>): set<int> {
    set id | id in done && id in permissions && !Known(c, permissions, id)
  }

  // ---------- role mappings ----------

  /** The permissions of the code a role holds. */
  function Held(c: Config, permissions: Permissions, mappings: set<(int, int)>, role: int): set<string> {
    set m | m in mappings && m.0 == role && m.1 in permissions && Known(c, permissions, m.1) :: permissions[m.1].name
  }

  function IdsByName(permissions: Permissions): (ids: map<string, int>)
    requires UniqueNames(permissions)
    ensures ids.Keys == Names(permissions)
    ensures forall n :: n in ids ==> ids[n] in permissions && permissions[ids[n]].name == n
  {
    map id | id in permissions :: permissions[id].name := id
  }

  predicate CanSettle(c: Config, permissions: Permissions, mappings: set<(int, int)>, role: Role) {
    && (forall n :: n in Held(c, permissions, mappings, role.id) ==> n in role.defaults)
    && (forall n :: n in role.defaults ==> n in c.descriptions)
  }

  function RoleNews(c: Config, permissions: Permissions, mappings: set<(int, int)>, role: Role): set<(int, int)> {
    set id | id in permissions && permissions[id].name in role.defaults
             && permissions[id].name !in Held(c, permissions, mappings, role.id) :: (role.id, id)
  }

  function NewMappings(
    c: Config, permissions: Permissions, mappings: set<(int, int)>, roles: seq<Role>): set<(int, int)>
  {
    if roles == [] then {}
    else
      NewMappings(c, permissions, mappings, roles[..|roles| - 1])
      + RoleNews(c, permissions, mappings, roles[|roles| - 1])
  }

  /** One turn of the role loop agrees with the declarative account of it. */
  lemma SettleStep(c: Config, permissions: Permissions, mappings: set<(int, int)>, role: Role)
    requires UniqueNames(permissions) && Names(permissions) == c.descriptions.Keys
    ensures var ids := IdsByName(permissions);
            var held := Held(c, permissions, mappings, role.id);
            && (CanSettle(c, permissions, mappings, role) <==>
                  && (forall n :: n in held ==> n in role.defaults)
                  && (forall n :: n in role.defaults ==> n in held || n in ids))
            && (CanSettle(c, permissions, mappings, role) ==>
                  (set n | n in role.defaults && n !in held :: (role.id, ids[n]))
                  == RoleNews(c, permissions, mappings, role))
  {
    var ids := IdsByName(permissions);
    var held := Held(c, permissions, mappings, role.id);
    assert forall n :: n in held ==> n in c.descriptions;
    if CanSettle(c, permissions, mappings, role) {
      var news := set n | n in role.defaults && n !in held :: (role.id, ids[n]);
      forall m | m in RoleNews(c, permissions, mappings, role) ensures m in news {
        NameOf(permissions, m.1);
        var n := permissions[m.1].name;
        assert ids[n] == m.1;
        assert n in role.defaults && n !in held && m == (role.id, ids[n]);
      }
    }
  }

  /** One turn of the description loop. */
  lemma DescribeOne(c: Config, rows: Permissions, done: set<int>, id: int)
    requires id in rows && id !in done
    ensures Described(c, rows, done + {id}) == Described(c, rows, done)[id := Expected(c, rows[id])]
    ensures KnownNames(c, rows, done + {id})
         == KnownNames(c, rows, done) + if Known(c, rows, id) then {rows[id].name} else {}
    ensures Unknown(c, rows, done + {id}) == Unknown(c, rows, done) + if Known(c, rows, id) then {} else {id}
    ensures DescriptionsSettled(c, rows, done + {id})
       <==> DescriptionsSettled(c, rows, done) && rows[id] == Expected(c, rows[id])
    ensures Described(c, rows, done).Keys == rows.Keys && Described(c, rows, done)[id] == rows[id]
  {
  }

  lemma NothingDescribed(c: Config, rows: Permissions)
    ensures Described(c, rows, {}) == rows && DescriptionsSettled(c, rows, {})
    ensures KnownNames(c, rows, {}) == {} && Unknown(c, rows, {}) == {}
  {
  }

  class AuthzStore {
    var permissions: Permissions
    var mappings: set<(int, int)>
    var nextId: int
    /** How many statements that write were run. */
    var writes: nat

    ghost predicate Valid()
      reads this
    {
      TablesOk(permissions, mappings, nextId)
    }

    /** The first loop: rows the code knows get its description, the others are collected. */
    method UpdateKnown(c: Config) returns (existingNames: set<string>, unknownIds: set<int>)
      modifies this`permissions, this`writes
      ensures permissions == Described(c, old(permissions), old(permissions).Keys)
      ensures existingNames == KnownNames(c, old(permissions), old(permissions).Keys)
      ensures unknownIds == Unknown(c, old(permissions), old(permissions).Keys)
      ensures writes >= old(writes)
      ensures writes == old(writes) <==> DescriptionsSettled(c, old(permissions), old(permissions).Keys)
    {
      hide Described, KnownNames, Unknown, DescriptionsSettled;
      var existing := Listing(permissions.Keys);
      ghost var before := permissions;
      NothingDescribed(c, before);
      ghost var done: set<int> := {};
      existingNames, unknownIds := {}, {};
      for i := 0 to |existing|
        invariant done == set j | 0 <= j < i :: existing[j]
        invariant existingNames == KnownNames(c, before, done) && unknownIds == Unknown(c, before, done)
        invariant permissions == Described(c, before, done)
        invariant writes >= old(writes) && (writes == old(writes) <==> DescriptionsSettled(c, before, done))
      {
        var id := existing[i];
        assert id in existing && id !in done;
        DescribeOne(c, before, done, id);
        var model := permissions[id];
        done := done + {id};
        if model.name !in c.descriptions {
          unknownIds := unknownIds + {id};
        } else {
          existingNames := existingNames + {model.name};
          if model.description != c.descriptions[model.name] {
            permissions := permissions[id := Permission(model.name, c.descriptions[model.name])];
            writes := writes + 1;
          }
        }
      }
      assert done == before.Keys;
    }

    /** Definitions without a row are inserted in one statement. */
    method InsertMissing(c: Config, existingNames: set<string>)
      requires forall n :: n in c.names ==> n in c.descriptions
      modifies this`permissions, this`nextId, this`writes
      ensures permissions == old(permissions) + Inserted(c, Missing(c.names, existingNames), old(nextId))
      ensures nextId == old(nextId) + |Missing(c.names, existingNames)|
      ensures writes >= old(writes)
      ensures writes == old(writes) <==> Missing(c.names, existingNames) == []
    {
      var missing: seq<string> := [];
      for i := 0 to |c.names|
        invariant missing == Missing(c.names[..i], existingNames)
      {
        assert c.names[..i + 1][..i] == c.names[..i];
        if c.names[i] !in existingNames {
          missing := missing + [c.names[i]];
        }
      }
      assert c.names[..|c.names|] == c.names;
      if missing != [] {
        permissions := permissions + Inserted(c, missing, nextId);
        nextId := nextId + |missing|;
        writes := writes + 1;
      }
    }

    /** Rows the code does not know go, with their mappings. */
    method DeleteUnknown(unknownIds: set<int>)
      modifies this`permissions, this`mappings, this`writes
      ensures permissions == old(permissions) - unknownIds
      ensures mappings == set m | m in old(mappings) && m.1 !in unknownIds
      ensures writes >= old(writes) && (writes == old(writes) <==> unknownIds == {})
    {
      if unknownIds != {} {
        mappings := set m | m in mappings && m.1 !in unknownIds;
        permissions := permissions - unknownIds;
        writes := writes + 2;
      }
    }

    method SyncPermissionDefs(c: Config)
      requires ConfigOk(c) && Valid()
      modifies this
      ensures permissions == SyncedDefs(c, old(permissions), old(nextId))
      ensures mappings == SyncedMappings(c, old(permissions), old(mappings))
      ensures Valid()
      ensures Names(permissions) == c.descriptions.Keys
      ensures writes >= old(writes) && (writes == old(writes) <==> DefsSettled(c, old(permissions)))
    {
      hide Described, KnownNames, Unknown, DescriptionsSettled, Missing, Names, Inserted;
      hide SyncedDefs, SyncedMappings, DefsSettled, UniqueNames;
      var existingNames, unknownIds := UpdateKnown(c);
      InsertMissing(c, existingNames);
      DeleteUnknown(unknownIds);
      PresentNames(c, old(permissions));
      SettledParts(c, old(permissions));
      DefsAssemble(c, old(permissions), old(mappings), old(nextId), Missing(c.names, Names(old(permissions))));
      SyncedTablesOk(c, old(permissions), old(mappings), old(nextId));
      SyncedNames(c, old(permissions), old(nextId));
    }

    /** What one role still needs; false if it holds more than its defaults or a
        default permission has no row. */
    method RoleMappings(c: Config, role: Role, permissionIds: map<string, int>)
      returns (ok: bool, news: set<(int, int)>)
      requires UniqueNames(permissions) && Names(permissions) == c.descriptions.Keys
      requires permissionIds == IdsByName(permissions)
      ensures ok <==> CanSettle(c, permissions, mappings, role)
      ensures ok ==> news == RoleNews(c, permissions, mappings, role)
    {
      hide CanSettle, RoleNews, Held, IdsByName, Names, UniqueNames;
      news := {};
      var held := Held(c, permissions, mappings, role.id);
      SettleStep(c, permissions, mappings, role);
      if exists n :: n in held && n !in role.defaults {
        return false, news;
      }
      for i := 0 to |role.defaults|
        invariant forall n :: n in role.defaults[..i] ==> n in held || n in permissionIds
        invariant news == set n | n in role.defaults[..i] && n !in held :: (role.id, permissionIds[n])
      {
        var name := role.defaults[i];
        assert role.defaults[..i + 1] == role.defaults[..i] + [name];
        if name !in held {
          if name !in permissionIds {
            return false, news;
          }
          news := news + {(role.id, permissionIds[name])};
        }
      }
      assert role.defaults[..|role.defaults|] == role.defaults;
      ok := true;
    }

    /** Every known role gets its missing defaults in one statement; false, and nothing
        written, if some role cannot be settled. */
    method SyncRolePermissions(c: Config) returns (ok: bool)
      requires ConfigOk(c) && Valid() && Names(permissions) == c.descriptions.Keys
      modifies this`mappings, this`writes
      ensures ok <==> forall r :: r in c.roles ==> CanSettle(c, permissions, old(mappings), r)
      ensures ok ==> mappings == old(mappings) + NewMappings(c, permissions, old(mappings), c.roles)
      ensures !ok ==> mappings == old(mappings) && writes == old(writes)
      ensures writes >= old(writes)
      ensures ok ==> (writes == old(writes) <==> NewMappings(c, permissions, old(mappings), c.roles) == {})
    {
      hide CanSettle, RoleNews, IdsByName, Names, UniqueNames, ConfigOk;
      var permissionIds := IdsByName(permissions);
      var news: set<(int, int)> := {};
      for i := 0 to |c.roles|
        invariant mappings == old(mappings) && writes == old(writes)
        invariant forall j :: 0 <= j < i ==> CanSettle(c, permissions, mappings, c.roles[j])
        invariant news == NewMappings(c, permissions, mappings, c.roles[..i])
      {
        var settled, more := RoleMappings(c, c.roles[i], permissionIds);
        assert c.roles[..i + 1][..i] == c.roles[..i];
        if !settled {
          assert c.roles[i] in c.roles;
          return false;
        }
        news := news + more;
      }
      assert c.roles[..|c.roles|] == c.roles;
      if news != {} {
        mappings := mappings + news;
        writes := writes + 1;
      }
      ok := true;
    }

    /** The whole sync in one transaction: if a role cannot be settled, nothing is kept. */
    method SyncPermissions(c: Config) returns (ok: bool)
      requires ConfigOk(c) && Valid()
      modifies this
      ensures ok <==> CanSync(c, old(permissions), old(mappings))
      ensures ok ==> permissions == SyncedDefs(c, old(permissions), old(nextId))
      ensures ok ==> mappings == SyncedAll(c, old(permissions), old(mappings), old(nextId))
      ensures ok ==> writes >= old(writes)
      ensures ok ==> (writes == old(writes) <==> Settled(c, old(permissions), old(mappings)))
      ensures !ok ==> permissions == old(permissions) && mappings == old(mappings)
      ensures Valid()
    {
      hide CanSettle, Names, NewMappings, SyncedDefs, SyncedMappings, DefsSettled, ConfigOk, UniqueNames;
      var permissions0, mappings0, nextId0 := permissions, mappings, nextId;
      SyncPermissionDefs(c);
      ghost var mappings1 := mappings;
      ok := SyncRolePermissions(c);
      SyncCondition(c, permissions0, mappings0, nextId0);
      if !ok {
        permissions, mappings, nextId := permissions0, mappings0, nextId0;
      } else {
        NewMappingsExist(c, permissions, mappings1, c.roles);
        SettledIff(c, permissions0, mappings0, nextId0);
      }
    }
  }

  // ---------- the sync as a whole ----------

  /** What a caller can check beforehand: no known role holds a permission of the code
      outside its defaults, and the defaults are defined. */
  ghost predicate CanSync(c: Config, permissions: Permissions, mappings: set<(int, int)>) {
    forall r :: r in c.roles ==> CanSettle(c, permissions, mappings, r)
  }

  /** Nothing is left to write. */
  ghost predicate Settled(c: Config, permissions: Permissions, mappings: set<(int, int)>) {
    && DefsSettled(c, permissions)
    && NewMappings(c, permissions, mappings, c.roles) == {}
  }

  ghost function SyncedAll(c: Config, permissions: Permissions, mappings: set<(int, int)>, nextId: int): set<(int, int)>
    requires ConfigOk(c)
  {
    var kept := SyncedMappings(c, permissions, mappings);
    kept + NewMappings(c, SyncedDefs(c, permissions, nextId), kept, c.roles)
  }

  /** What a role holds of the code's permissions is the same before and after the
      definitions are synced. */
  lemma HeldSame(c: Config, permissions: Permissions, mappings: set<(int, int)>, nextId: int, role: int)
    requires ConfigOk(c) && TablesOk(permissions, mappings, nextId)
    ensures Held(c, SyncedDefs(c, permissions, nextId), SyncedMappings(c, permissions, mappings), role)
         == Held(c, permissions, mappings, role)
  {
    hide SyncedDefs, Missing, Names, UniqueNames;
    SyncedRows(c, permissions, nextId, Missing(c.names, Names(permissions)));
    var synced, kept := SyncedDefs(c, permissions, nextId), SyncedMappings(c, permissions, mappings);
    forall m | m in mappings && m.0 == role && Known(c, permissions, m.1)
      ensures m in kept && synced[m.1].name == permissions[m.1].name && Known(c, synced, m.1)
    {}
    assert forall m :: m in kept ==>
      m in mappings && Known(c, permissions, m.1) && synced[m.1].name == permissions[m.1].name;
  }

  lemma SyncCondition(c: Config, permissions: Permissions, mappings: set<(int, int)>, nextId: int)
    requires ConfigOk(c) && TablesOk(permissions, mappings, nextId)
    ensures CanSync(c, permissions, mappings)
       <==> forall r :: r in c.roles ==>
              CanSettle(c, SyncedDefs(c, permissions, nextId), SyncedMappings(c, permissions, mappings), r)
  {
    hide SyncedDefs, SyncedMappings, TablesOk, ConfigOk, Held;
    forall r | r in c.roles
      ensures CanSettle(c, SyncedDefs(c, permissions, nextId), SyncedMappings(c, permissions, mappings), r)
         <==> CanSettle(c, permissions, mappings, r)
    {
      HeldSame(c, permissions, mappings, nextId, r.id);
    }
  }

  lemma {:induction false} NewMappingsExist(
    c: Config, permissions: Permissions, mappings: set<(int, int)>, roles: seq<Role>)
    ensures forall m :: m in NewMappings(c, permissions, mappings, roles) <==>
              exists r :: r in roles && m in RoleNews(c, permissions, mappings, r)
    ensures forall m :: m in NewMappings(c, permissions, mappings, roles) ==> m.1 in permissions
  {
    hide Held;
    if roles != [] {
      var n := |roles| - 1;
      NewMappingsExist(c, permissions, mappings, roles[..n]);
      assert roles == roles[..n] + [roles[n]];
    }
  }

  /** When the definitions are settled they, and the mappings, stay as they are. */
  lemma {:induction false} SettledSame(c: Config, permissions: Permissions, mappings: set<(int, int)>, nextId: int)
    requires ConfigOk(c) && TablesOk(permissions, mappings, nextId) && DefsSettled(c, permissions)
    ensures SyncedDefs(c, permissions, nextId) == permissions
    ensures SyncedMappings(c, permissions, mappings) == mappings
  {
    hide Names, UniqueNames, Inserted, ConfigOk, Missing, Unknown;
    SettledParts(c, permissions);
    hide Kept;
    KeptRows(c, permissions);
    var kept := Kept(c, permissions);
    forall id | id in permissions ensures id in kept && kept[id] == permissions[id] {
      assert permissions[id] == Expected(c, permissions[id]) && Known(c, permissions, id);
    }
    assert kept == permissions;
    assert Inserted(c, [], nextId) == map[];
  }

  lemma SettledIff(c: Config, permissions: Permissions, mappings: set<(int, int)>, nextId: int)
    requires ConfigOk(c) && TablesOk(permissions, mappings, nextId)
    ensures Settled(c, permissions, mappings) <==>
              && DefsSettled(c, permissions)
              && var synced, kept := SyncedDefs(c, permissions, nextId), SyncedMappings(c, permissions, mappings);
                 NewMappings(c, synced, kept, c.roles) == {}
  {
    if DefsSettled(c, permissions) {
      SettledSame(c, permissions, mappings, nextId);
    }
  }

  ghost function SyncedMappings(c: Config, permissions: Permissions, mappings: set<(int, int)>): set<(int, int)> {
    set m | m in mappings && m.1 in Kept(c, permissions)
  }

  lemma NameOf(permissions: Permissions, id: int)
    requires id in permissions
    ensures permissions[id].name in Names(permissions)
  {}

  lemma {:induction false} MissingSame(names: seq<string>, a: set<string>, b: set<string>)
    requires forall n :: n in names ==> (n in a <==> n in b)
    ensures Missing(names, a) == Missing(names, b)
  {
    if names != [] {
      assert names == names[..|names| - 1] + [names[|names| - 1]];
      MissingSame(names[..|names| - 1], a, b);
    }
  }

  lemma {:induction false} MissingDistinct(names: seq<string>, present: set<string>)
    requires forall i, j :: 0 <= i < j < |names| ==> names[i] != names[j]
    ensures Distinct(Missing(names, present))
  {
    if names != [] {
      var n := |names| - 1;
      MissingDistinct(names[..n], present);
      var rest := Missing(names[..n], present);
      assert names[n] !in names[..n];
      forall i | 0 <= i < |rest| ensures rest[i] != names[n] {
        assert rest[i] in rest;
      }
      assert Distinct(rest + [names[n]]);
    }
  }

  ghost predicate Distinct(names: seq<string>) {
    forall i, j :: 0 <= i < j < |names| ==> names[i] != names[j]
  }

  lemma PresentNames(c: Config, permissions: Permissions)
    requires ConfigOk(c)
    ensures Missing(c.names, KnownNames(c, permissions, permissions.Keys)) == Missing(c.names, Names(permissions))
  {
    forall n | n in c.names ensures n in KnownNames(c, permissions, permissions.Keys) <==> n in Names(permissions) {
      assert n in c.descriptions;
    }
    MissingSame(c.names, KnownNames(c, permissions, permissions.Keys), Names(permissions));
  }

  lemma ConfigNames(c: Config)
    requires ConfigOk(c)
    ensures forall n :: n in c.descriptions <==> n in c.names
  {}

  lemma KeptRows(c: Config, permissions: Permissions)
    ensures forall id :: id in Kept(c, permissions) <==> id in permissions && Known(c, permissions, id)
    ensures forall id :: id in Kept(c, permissions) ==> Kept(c, permissions)[id] == Expected(c, permissions[id])
  {}

  lemma InsertedRows(c: Config, names: seq<string>, nextId: int)
    requires forall n :: n in names ==> n in c.descriptions
    ensures var rows := Inserted(c, names, nextId);
            && (forall id :: id in rows <==> nextId <= id < nextId + |names|)
            && (forall i :: 0 <= i < |names| ==>
                  names[i] in c.descriptions && nextId + i in rows
                  && rows[nextId + i] == Permission(names[i], c.descriptions[names[i]]))
  {
    forall i | 0 <= i < |names|
      ensures names[i] in c.descriptions && nextId + i in Inserted(c, names, nextId)
      ensures Inserted(c, names, nextId)[nextId + i] == Permission(names[i], c.descriptions[names[i]])
    {
      InsertedRow(c, names, nextId, i, nextId + i);
    }
  }

  lemma InsertedRow(c: Config, names: seq<string>, nextId: int, i: nat, id: int)
    requires forall n :: n in names ==> n in c.descriptions
    requires i < |names| && id == nextId + i
    ensures names[i] in c.descriptions && id in Inserted(c, names, nextId)
    ensures Inserted(c, names, nextId)[id] == Permission(names[i], c.descriptions[names[i]])
  {
    hide Inserted;
    assert names[i] in names;
    var rows := Inserted(c, names, nextId);
    assert rows[id] == Permission(names[id - nextId], c.descriptions[names[id - nextId]]);
  }

  /** The synced table row by row. */
  lemma {:induction false} SyncedRows(c: Config, permissions: Permissions, nextId: int, missing: seq<string>)
    requires ConfigOk(c) && forall id :: id in permissions ==> id < nextId
    requires missing == Missing(c.names, Names(permissions))
    ensures var synced := SyncedDefs(c, permissions, nextId);
            && (forall id :: id in synced <==>
                  (id in permissions && Known(c, permissions, id)) || nextId <= id < nextId + |missing|)
            && (forall id :: id in permissions && Known(c, permissions, id) ==>
                  synced[id] == Expected(c, permissions[id]))
            && (forall i :: 0 <= i < |missing| ==>
                  missing[i] in c.descriptions && nextId + i in synced
                  && synced[nextId + i] == Permission(missing[i], c.descriptions[missing[i]]))
  {
    hide Names, Missing, Inserted, ConfigOk, Kept;
    assert forall n :: n in missing ==> n in c.names;
    assert forall n :: n in missing ==> n in c.descriptions by { ConfigNames(c); }
    KeptRows(c, permissions);
    InsertedRows(c, missing, nextId);
    var kept, news := Kept(c, permissions), Inserted(c, missing, nextId);
    assert SyncedDefs(c, permissions, nextId) == kept + news;
    assert forall id :: id in kept ==> id !in news;
  }

  lemma DescribedKept(c: Config, permissions: Permissions)
    ensures Described(c, permissions, permissions.Keys) - Unknown(c, permissions, permissions.Keys)
         == Kept(c, permissions)
  {}

  lemma MinusLast(rows: Permissions, added: Permissions, gone: set<int>)
    requires added.Keys !! gone
    ensures (rows + added) - gone == (rows - gone) + added
  {}

  /** Updating, inserting and deleting, put together. */
  lemma DefsAssemble(c: Config, permissions: Permissions, mappings: set<(int, int)>, nextId: int, missing: seq<string>)
    requires ConfigOk(c) && TablesOk(permissions, mappings, nextId)
    requires missing == Missing(c.names, Names(permissions))
    ensures var all := permissions.Keys;
            var unknown := Unknown(c, permissions, all);
            && (Described(c, permissions, all) + Inserted(c, missing, nextId)) - unknown
               == SyncedDefs(c, permissions, nextId)
            && (set m | m in mappings && m.1 !in unknown) == SyncedMappings(c, permissions, mappings)
  {
    hide UniqueNames, Names, Missing, Described, Inserted;
    DescribedKept(c, permissions);
    MinusLast(Described(c, permissions, permissions.Keys), Inserted(c, missing, nextId),
              Unknown(c, permissions, permissions.Keys));
  }

  lemma SettledParts(c: Config, permissions: Permissions)
    requires ConfigOk(c)
    ensures DefsSettled(c, permissions) <==>
              && DescriptionsSettled(c, permissions, permissions.Keys)
              && Missing(c.names, Names(permissions)) == []
              && Unknown(c, permissions, permissions.Keys) == {}
  {
    var missing := Missing(c.names, Names(permissions));
    var unknown := Unknown(c, permissions, permissions.Keys);
    if missing != [] {
      assert missing[0] in missing;
    }
    if DefsSettled(c, permissions) {
      assert missing == [] && unknown == {};
    } else if missing == [] && unknown == {} {
      assert forall id :: id in permissions ==> id !in unknown;
    }
  }

  lemma SyncedNames(c: Config, permissions: Permissions, nextId: int)
    requires ConfigOk(c) && forall id :: id in permissions ==> id < nextId
    ensures Names(SyncedDefs(c, permissions, nextId)) == c.descriptions.Keys
  {
    hide SyncedDefs, Missing, Kept, Inserted;
    var synced := SyncedDefs(c, permissions, nextId);
    var missing := Missing(c.names, Names(permissions));
    SyncedRows(c, permissions, nextId, missing);
    forall n | n in c.descriptions ensures n in Names(synced) {
      if n in missing {
        var i := IndexOf(missing, n);
        NameOf(synced, nextId + i);
      } else {
        var id :| id in permissions && permissions[id].name == n;
        NameOf(synced, id);
      }
    }
    forall n | n in Names(synced) ensures n in c.descriptions {
      var id :| id in synced && synced[id].name == n;
      if id >= nextId {
        assert missing[id - nextId] in c.descriptions;
        assert synced[nextId + (id - nextId)].name == missing[id - nextId];
      }
    }
  }

  lemma IndexOf(names: seq<string>, n: string) returns (i: nat)
    requires n in names
    ensures i < |names| && names[i] == n
  {
    i :| i < |names| && names[i] == n;
  }

  /** A row that was there has no missing name. */
  lemma OldAndNew(permissions: Permissions, names: seq<string>, id: int, i: nat)
    requires id in permissions && i < |Missing(names, Names(permissions))|
    ensures permissions[id].name != Missing(names, Names(permissions))[i]
  {
    hide Missing;
    NameOf(permissions, id);
    var missing := Missing(names, Names(permissions));
    assert missing[i] in missing;
  }

  lemma {:induction false} SyncedTablesOk(c: Config, permissions: Permissions, mappings: set<(int, int)>, nextId: int)
    requires ConfigOk(c) && TablesOk(permissions, mappings, nextId)
    ensures var missing := Missing(c.names, Names(permissions));
            TablesOk(SyncedDefs(c, permissions, nextId), SyncedMappings(c, permissions, mappings), nextId + |missing|)
  {
    hide SyncedDefs, Missing, Inserted, Names;
    var synced := SyncedDefs(c, permissions, nextId);
    var missing := Missing(c.names, Names(permissions));
    SyncedRows(c, permissions, nextId, missing);
    MissingDistinct(c.names, Names(permissions));
    forall a, b | a in synced && b in synced && synced[a].name == synced[b].name ensures a == b {
      if a < nextId <= b {
        assert synced[nextId + (b - nextId)].name == missing[b - nextId];
        OldAndNew(permissions, c.names, a, b - nextId);
      } else if b < nextId <= a {
        assert synced[nextId + (a - nextId)].name == missing[a - nextId];
        OldAndNew(permissions, c.names, b, a - nextId);
      } else if a >= nextId {
        assert synced[nextId + (a - nextId)].name == missing[a - nextId];
        assert synced[nextId + (b - nextId)].name == missing[b - nextId];
      }
    }
  }
}
