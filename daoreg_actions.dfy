/** The `daoreg` contract's actions over its `daos` table (src/daoreg.cpp).

    Each action is given twice: as a function from the table before to an
    `Outcome` (the new table, or the error that aborts the action), and as a
    method of `Registry`, which holds the table and changes it in place.
    `require_auth(a)` succeeds when `a` is among the accounts that signed the
    action; a failing `check` or `require_auth` aborts the whole action, so a
    failed action leaves the table as it was. */
module DaoRegistry {
  import opened FixedWidth
  import opened DaoTables

  /** The `daos` table, by primary key. */
  type Table = map<Uint64, Dao>

  datatype Error =
    | MissingAuthority(account: Name)  // "missing authority of <account>"
    | OrganizationNotFound             // "Organization not found"
    | PrimaryKeyInUse                  // `emplace` onto a primary key already stored

  datatype Outcome = Ok(table: Table) | Fail(error: Error)

  /** What a method reports: the action went through, or why it aborted. */
  datatype Status = Success | Failure(error: Error)

  function StatusOf(r: Outcome): Status
  {
    if r.Ok? then Success else Failure(r.error)
  }

  /** The table once the action has run: unchanged when it aborted. */
  function After(t: Table, r: Outcome): Table
  {
    if r.Ok? then r.table else t
  }

  /** Every row is stored under its own primary key. */
  ghost predicate KeyedByPrimaryKey(t: Table)
  {
    forall k :: k in t ==> PrimaryKey(t[k]) == k
  }

  /** `update` finds the row by `dao.value`, which in a well-keyed table is
      the row's own `dao_id`; it then stores that same name in the row's
      `dao` field, so after a successful update the row's name and id are
      both the looked-up value, whatever name the row had before. */
  lemma UpdateRenamesToKey(t: Table, signers: set<Name>, dao: Name, ipfs: string)
    requires KeyedByPrimaryKey(t)
    requires UpdateAction(t, signers, dao, ipfs).Ok?
    ensures var row := UpdateAction(t, signers, dao, ipfs).table[dao];
      row.dao == row.daoId == PrimaryKey(row) == dao
  {
  }

  /** A freshly created organization: no attributes, no tokens. */
  function NewDao(daoId: Uint64, dao: Name, creator: Name, ipfs: string): Dao
  {
    Dao(daoId, dao, creator, ipfs, map[], [])
  }

  /** `reset`: needs the contract's own authority, then erases every row. */
  function ResetAction(t: Table, self: Name, signers: set<Name>): (r: Outcome)
    ensures r.Ok? <==> self in signers
    ensures r.Fail? ==> r.error == MissingAuthority(self)
    ensures r.Ok? ==> |r.table| == 0
  {
    if self !in signers then Fail(MissingAuthority(self))
    else Ok(map[])
  }

  /** `create`: needs the contract's own authority (not the creator's), then
      stores one new row under `key`, the primary key the table gives it. */
  function CreateAction(t: Table, self: Name, signers: set<Name>,
                        key: Uint64, dao: Name, creator: Name, ipfs: string): (r: Outcome)
    ensures r.Ok? <==> self in signers && key !in t
    ensures self !in signers ==> r == Fail(MissingAuthority(self))
    ensures self in signers && key in t ==> r == Fail(PrimaryKeyInUse)
    ensures r.Ok? ==> r.table.Keys == t.Keys + {key} && |r.table| == |t| + 1
    ensures r.Ok? ==> var row := r.table[key];
      && row.daoId == key && row.dao == dao && row.creator == creator && row.ipfs == ipfs
      && row.attributes == map[] && row.tokens == []
    ensures r.Ok? ==> forall k :: k in t ==> r.table[k] == t[k]
    ensures r.Ok? && KeyedByPrimaryKey(t) ==> KeyedByPrimaryKey(r.table)
  {
    if self !in signers then Fail(MissingAuthority(self))
    else if key in t then Fail(PrimaryKeyInUse)
    else Ok(t[key := NewDao(key, dao, creator, ipfs)])
  }

  /** `update`: looks the row up by `dao`'s value, fails when it is absent
      (whoever signed), then needs the stored creator's authority, and
      rewrites the row's `dao` and `ipfs` only. */
  function UpdateAction(t: Table, signers: set<Name>, dao: Name, ipfs: string): (r: Outcome)
    ensures dao !in t ==> r == Fail(OrganizationNotFound)
    ensures dao in t ==> (r.Ok? <==> t[dao].creator in signers)
    ensures dao in t && t[dao].creator !in signers ==> r == Fail(MissingAuthority(t[dao].creator))
    ensures r.Ok? ==> r.table.Keys == t.Keys
    ensures r.Ok? ==> var row := r.table[dao];
      && row.dao == dao && row.ipfs == ipfs
      && row.daoId == t[dao].daoId && row.creator == t[dao].creator
      && row.attributes == t[dao].attributes && row.tokens == t[dao].tokens
    ensures r.Ok? ==> forall k :: k in t && k != dao ==> r.table[k] == t[k]
    ensures r.Ok? && KeyedByPrimaryKey(t) ==> KeyedByPrimaryKey(r.table)
  {
    if dao !in t then Fail(OrganizationNotFound)
    else if t[dao].creator !in signers then Fail(MissingAuthority(t[dao].creator))
    else Ok(t[dao := t[dao].(dao := dao, ipfs := ipfs)])
  }

  /** `delorg`: the same lookup and checks as `update`, then erases that row. */
  function DelOrgAction(t: Table, signers: set<Name>, dao: Name): (r: Outcome)
    ensures dao !in t ==> r == Fail(OrganizationNotFound)
    ensures dao in t ==> (r.Ok? <==> t[dao].creator in signers)
    ensures dao in t && t[dao].creator !in signers ==> r == Fail(MissingAuthority(t[dao].creator))
    ensures r.Ok? ==> r.table.Keys == t.Keys - {dao} && |r.table| == |t| - 1
    ensures r.Ok? ==> forall k :: k in r.table ==> r.table[k] == t[k]
    ensures r.Ok? && KeyedByPrimaryKey(t) ==> KeyedByPrimaryKey(r.table)
  {
    if dao !in t then Fail(OrganizationNotFound)
    else if t[dao].creator !in signers then Fail(MissingAuthority(t[dao].creator))
    else Ok(t - {dao})
  }

  /** Resetting twice leaves the same, empty, table as resetting once; on an
      empty table a signed reset succeeds and changes nothing. */
  lemma ResetIdempotent(t: Table, self: Name, signers: set<Name>)
    ensures var once := After(t, ResetAction(t, self, signers));
      After(once, ResetAction(once, self, signers)) == once
    ensures self in signers ==> ResetAction(map[], self, signers) == Ok(map[])
  {
  }

  /** Deleting, with the creator's signature, the organization just created
      gives back the table as it was before the `create`. */
  lemma CreateThenDelOrg(t: Table, self: Name, signers: set<Name>, key: Uint64,
                         dao: Name, creator: Name, ipfs: string, signers': set<Name>)
    requires CreateAction(t, self, signers, key, dao, creator, ipfs).Ok?
    requires creator in signers'
    ensures DelOrgAction(CreateAction(t, self, signers, key, dao, creator, ipfs).table, signers', key) == Ok(t)
  {
    var t' := CreateAction(t, self, signers, key, dao, creator, ipfs).table;
    assert t' - {key} == t;
  }

  /** Of two successful updates of the same organization, the second one
      decides the stored `ipfs`: together they act as the second alone. */
  lemma UpdateLastWins(t: Table, signers: set<Name>, dao: Name, ipfs1: string, ipfs2: string)
    requires UpdateAction(t, signers, dao, ipfs1).Ok?
    ensures var t1 := UpdateAction(t, signers, dao, ipfs1).table;
      UpdateAction(t1, signers, dao, ipfs2) == UpdateAction(t, signers, dao, ipfs2)
  {
  }

  /** The scenario "Create DAO": after the reset that precedes each test,
      whatever the table held before, the contract creates `org1`
      with itself as creator; a second `create` signed by another account
      fails for lack of the contract's authority; one row remains, with id 0. */
  lemma CreateScenario(t: Table, self: Name, other: Name, org1: Name, org2: Name, creator2: Name)
    requires other != self
    ensures var t0 := After(t, ResetAction(t, self, {self}));
      var t1 := After(t0, CreateAction(t0, self, {self}, 0, org1, self, "HASH_1"));
      && CreateAction(t1, self, {other}, 1, org2, creator2, "HASH_2") == Fail(MissingAuthority(self))
      && t1 == map[0 := Dao(0, org1, self, "HASH_1", map[], [])]
  {
  }

  /** The scenario "Update IPFS DAO", from any table reset before the test:
      an update by the creator succeeds, one
      by another account fails with the creator's missing authority, one on
      an absent id fails with "Organization not found"; the table then holds
      the first update only. The update rewrites `dao` with the looked-up
      name, whose value is the id 0. */
  lemma UpdateScenario(t: Table, self: Name, other: Name, org1: Name)
    requires other != self
    ensures var t0 := After(t, ResetAction(t, self, {self}));
      var t1 := After(t0, CreateAction(t0, self, {self}, 0, org1, self, "HASH_1"));
      var r2 := UpdateAction(t1, {self}, 0, "NEW_HASH_1");
      var t2 := After(t1, r2);
      var r3 := UpdateAction(t2, {other}, 0, "NEW_HASH_2");
      var r4 := UpdateAction(After(t2, r3), {self}, 1, "NEW_HASH3");
      && r2.Ok?
      && r3 == Fail(MissingAuthority(self))
      && r4 == Fail(OrganizationNotFound)
      && After(After(t2, r3), r4) == map[0 := Dao(0, 0, self, "NEW_HASH_1", map[], [])]
  {
  }

  /** The scenario "Delete DAO", from any table reset before the test and
      one organization created: a `delorg` by another account and one on an
      absent id fail, and the creator's `delorg` then empties the table. */
  lemma DeleteScenario(t: Table, self: Name, other: Name, org1: Name)
    requires other != self
    ensures var t0 := After(t, ResetAction(t, self, {self}));
      var t1 := After(t0, CreateAction(t0, self, {self}, 0, org1, self, "HASH_1"));
      && DelOrgAction(t1, {other}, 0) == Fail(MissingAuthority(self))
      && DelOrgAction(t1, {self}, 1) == Fail(OrganizationNotFound)
      && DelOrgAction(t1, {self}, 0) == Ok(map[])
  {
  }

  /** The contract's table, changed in place by its actions. `self` is the
      account the contract is deployed on. */
  class Registry {
    const self: Name
    var rows: Table

    ghost predicate Valid()
      reads this
    {
      KeyedByPrimaryKey(rows)
    }

    constructor (self: Name)
      ensures Valid() && this.self == self && rows == map[]
    {
      this.self := self;
      rows := map[];
    }

    method Reset(signers: set<Name>) returns (s: Status)
      requires Valid()
      modifies this
      ensures Valid()
      ensures s == StatusOf(ResetAction(old(rows), self, signers))
      ensures rows == After(old(rows), ResetAction(old(rows), self, signers))
    {
      if self !in signers {
        return Failure(MissingAuthority(self));
      }
      // erase one row per step until the table is empty
      while rows != map[]
        decreases |rows|
      {
        var k :| k in rows;
        rows := rows - {k};
      }
      return Success;
    }

    method Create(signers: set<Name>, key: Uint64, dao: Name, creator: Name, ipfs: string)
      returns (s: Status)
      requires Valid()
      modifies this
      ensures Valid()
      ensures s == StatusOf(CreateAction(old(rows), self, signers, key, dao, creator, ipfs))
      ensures rows == After(old(rows), CreateAction(old(rows), self, signers, key, dao, creator, ipfs))
    {
      if self !in signers {
        return Failure(MissingAuthority(self));
      }
      if key in rows {
        return Failure(PrimaryKeyInUse);
      }
      rows := rows[key := NewDao(key, dao, creator, ipfs)];
      return Success;
    }

    method Update(signers: set<Name>, dao: Name, ipfs: string) returns (s: Status)
      requires Valid()
      modifies this
      ensures Valid()
      ensures s == StatusOf(UpdateAction(old(rows), signers, dao, ipfs))
      ensures rows == After(old(rows), UpdateAction(old(rows), signers, dao, ipfs))
    {
      if dao !in rows {
        return Failure(OrganizationNotFound);
      }
      var org := rows[dao];
      if org.creator !in signers {
        return Failure(MissingAuthority(org.creator));
      }
      rows := rows[dao := org.(dao := dao, ipfs := ipfs)];
      return Success;
    }

    method DelOrg(signers: set<Name>, dao: Name) returns (s: Status)
      requires Valid()
      modifies this
      ensures Valid()
      ensures s == StatusOf(DelOrgAction(old(rows), signers, dao))
      ensures rows == After(old(rows), DelOrgAction(old(rows), signers, dao))
    {
      if dao !in rows {
        return Failure(OrganizationNotFound);
      }
      if rows[dao].creator !in signers {
        return Failure(MissingAuthority(rows[dao].creator));
      }
      rows := rows - {dao};
      return Success;
    }
  }

  /** The "Update IPFS DAO" scenario run against a `Registry`: what the
      methods' contracts promise is enough to know every outcome and the
      final table. */
  method UpdateSession(self: Name, other: Name, org1: Name) returns (outcomes: seq<Status>, final: Table)
    requires other != self
    ensures outcomes == [Success, Success, Success, Failure(MissingAuthority(self)), Failure(OrganizationNotFound)]
    ensures final == map[0 := Dao(0, 0, self, "NEW_HASH_1", map[], [])]
  {
    var registry := new Registry(self);
    var s0 := registry.Reset({self});
    var s1 := registry.Create({self}, 0, org1, self, "HASH_1");
    var s2 := registry.Update({self}, 0, "NEW_HASH_1");
    var s3 := registry.Update({other}, 0, "NEW_HASH_2");
    var s4 := registry.Update({self}, 1, "NEW_HASH3");
    outcomes := [s0, s1, s2, s3, s4];
    final := registry.rows;
  }
}
