/** What a permission sync leaves behind, and what users are then allowed. */
module AuthzTheorems {
  import opened Authz

  /** The definitions are exactly the code's, rows the code knows keep their ids, the
      others are gone, and no mapping refers to a missing permission. */
  lemma DefinitionsConverge(c: Config, permissions: Permissions, mappings: set<(int, int)>, nextId: int)
    requires ConfigOk(c) && TablesOk(permissions, mappings, nextId)
    ensures var synced := SyncedDefs(c, permissions, nextId);
            && Names(synced) == c.descriptions.Keys && UniqueNames(synced)
            && (forall id :: id in synced ==>
                  synced[id].name in c.descriptions && synced[id].description == c.descriptions[synced[id].name])
            && (forall id :: id in permissions && permissions[id].name in c.descriptions ==>
                  id in synced && synced[id].name == permissions[id].name)
            && (forall id :: id in permissions && permissions[id].name !in c.descriptions ==> id !in synced)
            && (forall m :: m in SyncedAll(c, permissions, mappings, nextId) ==> m.1 in synced)
  {
    hide SyncedDefs, Missing, Names, UniqueNames, NewMappings;
    var missing := Missing(c.names, Names(permissions));
    var synced := SyncedDefs(c, permissions, nextId);
    SyncedRows(c, permissions, nextId, missing);
    SyncedNames(c, permissions, nextId);
    SyncedTablesOk(c, permissions, mappings, nextId);
    NewMappingsExist(c, synced, SyncedMappings(c, permissions, mappings), c.roles);
    forall id | id in synced
      ensures synced[id].name in c.descriptions && synced[id].description == c.descriptions[synced[id].name]
    {
      if id >= nextId {
        assert synced[nextId + (id - nextId)].name == missing[id - nextId];
      }
    }
  }

  ghost predicate HasName(permissions: Permissions, id: int, name: string) {
    id in permissions && permissions[id].name == name
  }

  /** After the role part, each known role that could be settled holds exactly its defaults. */
  lemma RolesSettle(c: Config, permissions: Permissions, mappings: set<(int, int)>, r: Role)
    requires ConfigOk(c) && Names(permissions) == c.descriptions.Keys
    requires r in c.roles && CanSettle(c, permissions, mappings, r)
    ensures forall n :: n in Held(c, permissions, mappings + NewMappings(c, permissions, mappings, c.roles), r.id)
                   <==> n in r.defaults
  {
    hide NewMappings, Names;
    var news := NewMappings(c, permissions, mappings, c.roles);
    NewMappingsExist(c, permissions, mappings, c.roles);
    var all := mappings + news;
    forall n | n in r.defaults ensures n in Held(c, permissions, all, r.id) {
      if n in Held(c, permissions, mappings, r.id) {
        var m :|
          m in mappings && m.0 == r.id && m.1 in permissions
          && Known(c, permissions, m.1) && permissions[m.1].name == n;
        assert m in all;
      } else {
        var id := IdOf(c, permissions, n);
        assert (r.id, id) in RoleNews(c, permissions, mappings, r);
        assert (r.id, id) in all;
      }
    }
    forall n | n in Held(c, permissions, all, r.id) ensures n in r.defaults {
      var m :|
        m in all && m.0 == r.id && m.1 in permissions && Known(c, permissions, m.1) && permissions[m.1].name == n;
      if m in mappings {
        assert n in Held(c, permissions, mappings, r.id);
      }
    }
  }

  lemma IdOf(c: Config, permissions: Permissions, n: string) returns (id: int)
    requires Names(permissions) == c.descriptions.Keys && n in c.descriptions
    ensures HasName(permissions, id, n) && Known(c, permissions, id)
  {
    assert n in Names(permissions);
    id :| id in permissions && permissions[id].name == n;
  }

  /** A successful sync gives every known role exactly its default permissions. */
  lemma RolesConverge(c: Config, permissions: Permissions, mappings: set<(int, int)>, nextId: int, r: Role)
    requires ConfigOk(c) && TablesOk(permissions, mappings, nextId) && CanSync(c, permissions, mappings)
    requires r in c.roles
    ensures var synced, all := SyncedDefs(c, permissions, nextId), SyncedAll(c, permissions, mappings, nextId);
            forall n :: n in Held(c, synced, all, r.id) <==> n in r.defaults
  {
    hide SyncedDefs, Names, Held, NewMappings, UniqueNames;
    SyncedNames(c, permissions, nextId);
    SyncCondition(c, permissions, mappings, nextId);
    RolesSettle(c, SyncedDefs(c, permissions, nextId), SyncedMappings(c, permissions, mappings), r);
  }

  /** After a successful sync there is nothing to write: a second sync changes nothing. */
  lemma SecondSyncWritesNothing(c: Config, permissions: Permissions, mappings: set<(int, int)>, nextId: int)
    requires ConfigOk(c) && TablesOk(permissions, mappings, nextId) && CanSync(c, permissions, mappings)
    ensures var synced := SyncedDefs(c, permissions, nextId);
            var all := SyncedAll(c, permissions, mappings, nextId);
            && CanSync(c, synced, all)
            && Settled(c, synced, all)
            && forall next: int :: TablesOk(synced, all, next) ==>
                 SyncedDefs(c, synced, next) == synced && SyncedAll(c, synced, all, next) == all
  {
    hide SyncedDefs, SyncedMappings, Names, Held, NewMappings, UniqueNames, TablesOk, ConfigOk;
    var synced := SyncedDefs(c, permissions, nextId);
    var all := SyncedAll(c, permissions, mappings, nextId);
    SyncedSettles(c, permissions, mappings, nextId);
    forall r | r in c.roles
      ensures CanSettle(c, synced, all, r) && RoleNews(c, synced, all, r) == {}
    {
      RolesConverge(c, permissions, mappings, nextId, r);
      SyncedNamesHeld(c, synced, all, r);
      SyncCondition(c, permissions, mappings, nextId);
    }
    NewMappingsExist(c, synced, all, c.roles);
    assert NewMappings(c, synced, all, c.roles) == {};
    forall next: int | TablesOk(synced, all, next)
      ensures SyncedDefs(c, synced, next) == synced && SyncedAll(c, synced, all, next) == all
    {
      SettledSame(c, synced, all, next);
    }
  }

  lemma SyncedNamesHeld(c: Config, permissions: Permissions, mappings: set<(int, int)>, r: Role)
    requires forall n :: n in Held(c, permissions, mappings, r.id) <==> n in r.defaults
    ensures RoleNews(c, permissions, mappings, r) == {}
  {
    hide Held;
  }

  lemma {:induction false} SyncedSettles(c: Config, permissions: Permissions, mappings: set<(int, int)>, nextId: int)
    requires ConfigOk(c) && TablesOk(permissions, mappings, nextId)
    ensures DefsSettled(c, SyncedDefs(c, permissions, nextId))
  {
    hide SyncedDefs, UniqueNames, SyncedAll;
    DefinitionsConverge(c, permissions, mappings, nextId);
  }

  // ---------- when a sync succeeds, and what it leaves alone ----------

  /** The mapping gives the role a permission of the code outside its defaults. */
  ghost predicate Oversteps(c: Config, permissions: Permissions, mappings: set<(int, int)>, r: Role, m: (int, int)) {
    && m in mappings && m.0 == r.id && m.1 in permissions
    && permissions[m.1].name in c.descriptions && permissions[m.1].name !in r.defaults
  }

  /** A sync succeeds exactly when the defaults of every known role are defined and no
      mapping oversteps the defaults of one. */
  lemma CanSyncIff(c: Config, permissions: Permissions, mappings: set<(int, int)>)
    ensures CanSync(c, permissions, mappings) <==>
              && (forall r, n :: r in c.roles && n in r.defaults ==> n in c.descriptions)
              && (forall r, m :: r in c.roles ==> !Oversteps(c, permissions, mappings, r, m))
  {
    hide CanSettle;
    forall r ensures CanSettle(c, permissions, mappings, r) <==> WithinDefaults(c, permissions, mappings, r) {
      CanSettleIff(c, permissions, mappings, r);
    }
  }

  ghost predicate WithinDefaults(c: Config, permissions: Permissions, mappings: set<(int, int)>, r: Role) {
    && (forall n :: n in r.defaults ==> n in c.descriptions)
    && (forall m :: !Oversteps(c, permissions, mappings, r, m))
  }

  lemma CanSettleIff(c: Config, permissions: Permissions, mappings: set<(int, int)>, r: Role)
    ensures CanSettle(c, permissions, mappings, r) <==> WithinDefaults(c, permissions, mappings, r)
  {
    hide Held;
    HeldMeaning(c, permissions, mappings, r.id);
    if CanSettle(c, permissions, mappings, r) {
      forall m ensures !Oversteps(c, permissions, mappings, r, m) {}
    }
    if WithinDefaults(c, permissions, mappings, r) {
      forall n | n in Held(c, permissions, mappings, r.id) ensures n in r.defaults {
        var m :| m in mappings && m.0 == r.id && m.1 in permissions && permissions[m.1].name == n;
        assert !Oversteps(c, permissions, mappings, r, m);
      }
    }
  }

  lemma HeldMeaning(c: Config, permissions: Permissions, mappings: set<(int, int)>, role: int)
    ensures forall m :: m in mappings && m.0 == role && m.1 in permissions
                        && permissions[m.1].name in c.descriptions ==>
              permissions[m.1].name in Held(c, permissions, mappings, role)
    ensures forall n :: n in Held(c, permissions, mappings, role) ==>
              exists m :: m in mappings && m.0 == role && m.1 in permissions && permissions[m.1].name == n
                          && n in c.descriptions
  {}

  lemma {:induction false} NewMappingsOfRoles(
    c: Config, permissions: Permissions, mappings: set<(int, int)>, roles: seq<Role>, m: (int, int))
    requires m in NewMappings(c, permissions, mappings, roles)
    ensures m.1 in permissions && exists r :: r in roles && r.id == m.0 && permissions[m.1].name in r.defaults
  {
    var n := |roles| - 1;
    assert roles == roles[..n] + [roles[n]];
    if m in NewMappings(c, permissions, mappings, roles[..n]) {
      NewMappingsOfRoles(c, permissions, mappings, roles[..n], m);
    }
  }

  /** A sync keeps every mapping to a permission it keeps, and adds only mappings of known
      roles to defaults of theirs; so other roles keep exactly what they had of those. */
  lemma MappingsKept(c: Config, permissions: Permissions, mappings: set<(int, int)>, nextId: int, m: (int, int))
    requires ConfigOk(c) && TablesOk(permissions, mappings, nextId)
    ensures var synced, all := SyncedDefs(c, permissions, nextId), SyncedAll(c, permissions, mappings, nextId);
            && (m in mappings && permissions[m.1].name in c.descriptions ==> m in all)
            && (m in all && m !in mappings ==>
                  m.1 in synced && exists r :: r in c.roles && r.id == m.0 && synced[m.1].name in r.defaults)
            && ((forall r :: r in c.roles ==> r.id != m.0) ==>
                  (m in all <==> m in mappings && permissions[m.1].name in c.descriptions))
  {
    hide SyncedDefs, NewMappings, UniqueNames, ConfigOk;
    var synced, kept := SyncedDefs(c, permissions, nextId), SyncedMappings(c, permissions, mappings);
    if m in NewMappings(c, synced, kept, c.roles) {
      NewMappingsOfRoles(c, synced, kept, c.roles, m);
    }
  }

  // ---------- asking for a permission ----------

  /** The query: some role of the user is mapped to the permission of that name. */
  ghost predicate UserHasPermission(
    permissions: Permissions, mappings: set<(int, int)>, userRoles: set<(int, int)>, user: int, name: string)
  {
    exists u, m :: u in userRoles && u.0 == user && m in mappings && m.0 == u.1 && HasName(permissions, m.1, name)
  }

  /** After a successful sync a user whose roles are all known has a permission exactly
      when one of the roles has it by default. */
  lemma UserPermissionIsDefault(
    c: Config, permissions: Permissions, mappings: set<(int, int)>, nextId: int,
    userRoles: set<(int, int)>, user: int, name: string)
    requires ConfigOk(c) && TablesOk(permissions, mappings, nextId) && CanSync(c, permissions, mappings)
    requires name in c.descriptions
    requires forall u :: u in userRoles && u.0 == user ==> exists r :: r in c.roles && r.id == u.1
    ensures UserHasPermission(
              SyncedDefs(c, permissions, nextId), SyncedAll(c, permissions, mappings, nextId), userRoles, user, name)
       <==> exists r :: r in c.roles && (user, r.id) in userRoles && name in r.defaults
  {
    hide SyncedDefs, SyncedAll, Names, UniqueNames, TablesOk;
    var synced, all := SyncedDefs(c, permissions, nextId), SyncedAll(c, permissions, mappings, nextId);
    if u, m :| u in userRoles && u.0 == user && m in all && m.0 == u.1 && HasName(synced, m.1, name) {
      var r :| r in c.roles && r.id == u.1;
      RolesConverge(c, permissions, mappings, nextId, r);
      assert name in Held(c, synced, all, r.id);
      assert u == (user, r.id);
    }
    if r :| r in c.roles && (user, r.id) in userRoles && name in r.defaults {
      RolesConverge(c, permissions, mappings, nextId, r);
      assert name in Held(c, synced, all, r.id);
      var m :| m in all && m.0 == r.id && m.1 in synced && Known(c, synced, m.1) && synced[m.1].name == name;
      assert (user, r.id) in userRoles && HasName(synced, m.1, name);
    }
  }
}
