/**
 The per-tenant change feed: writers take an ordering lock, draw a feed id from one shared
 sequence, and commit later; readers follow a cursor. Id allocation and commit are separate steps,
 so every interleaving of them is a run of `Apply`.
 */
module ChangeFeed {
  import opened Ordering

  type Tenant = string
  type TxId = nat

  datatype Source = Event | Audit

  /** A pointer to a changed row. `ref` numbers row ids in their own (UUIDv7) order. */
  datatype Entry = Entry(tenant: Tenant, source: Source, ref: nat, kind: string)

  function ScopeKeyFor(kind: string): string {
    if kind == "" then "unscoped" else kind
  }

  /** An open transaction: rows it inserted under ids already drawn from the sequence. */
  datatype Tx = Tx(tenant: Tenant, staged: map<nat, Entry>)

  datatype Log = Log(next: nat, locks: map<nat, TxId>, open: map<TxId, Tx>, feed: map<nat, Entry>)

  /** `key` maps a tenant to its advisory-lock key and may collide; a constant `key` is SQLite's
      one write lock. `serialize` is false only for the run that shows why the lock is needed. */
  datatype Config = Config(key: Tenant -> nat, serialize: bool)

  const EMPTY_LOG := Log(1, map[], map[], map[])

  datatype Op =
    | Begin(t: TxId, tenant: Tenant)
    | Lock(t: TxId)
    | Allocate(t: TxId, entry: Entry)
    | Commit(t: TxId)
    | Rollback(t: TxId)
    | Burn  // the sequence serves another table's insert, or a rolled-back one

  predicate Holds(c: Config, l: Log, t: TxId) {
    t in l.open && c.key(l.open[t].tenant) in l.locks && l.locks[c.key(l.open[t].tenant)] == t
  }

  function Release(locks: map<nat, TxId>, t: TxId): (r: map<nat, TxId>)
    ensures forall k :: k in r <==> k in locks && locks[k] != t
    ensures forall k :: k in r ==> r[k] == locks[k]
  {
    map k | k in locks && locks[k] != t :: locks[k]
  }

  /** One step of one transaction. A step that must wait, or names no open transaction, changes nothing. */
  function Apply(c: Config, l: Log, op: Op): Log {
    match op
    case Begin(t, tenant) =>
      if t in l.open || t in l.locks.Values then l else l.(open := l.open[t := Tx(tenant, map[])])
    case Lock(t) =>
      if t in l.open && c.key(l.open[t].tenant) !in l.locks
      then l.(locks := l.locks[c.key(l.open[t].tenant) := t])
      else l
    case Allocate(t, entry) =>
      if t in l.open && entry.tenant == l.open[t].tenant && (c.serialize ==> Holds(c, l, t))
      then l.(next := l.next + 1,
              open := l.open[t := Tx(l.open[t].tenant, l.open[t].staged[l.next := entry])])
      else l
    case Commit(t) =>
      if t in l.open
      then Log(l.next, Release(l.locks, t), l.open - {t}, l.feed + l.open[t].staged)
      else l
    case Rollback(t) =>
      if t in l.open then Log(l.next, Release(l.locks, t), l.open - {t}, l.feed) else l
    case Burn => l.(next := l.next + 1)
  }

  function Run(c: Config, l: Log, ops: seq<Op>): Log {
    if ops == [] then l else Apply(c, Run(c, l, ops[..|ops| - 1]), ops[|ops| - 1])
  }

  // ---- What every step keeps ----

  ghost predicate Fresh(l: Log) {
    && 1 <= l.next
    && (forall id :: id in l.feed ==> 1 <= id < l.next)
    && (forall t, id :: t in l.open && id in l.open[t].staged ==>
          1 <= id < l.next && id !in l.feed && l.open[t].staged[id].tenant == l.open[t].tenant)
    && (forall t, u, id :: t in l.open && u in l.open && t != u && id in l.open[t].staged ==>
          id !in l.open[u].staged)
  }

  ghost predicate Locked(c: Config, l: Log) {
    forall t, id :: t in l.open && id in l.open[t].staged ==> Holds(c, l, t)
  }

  /** `c` is a position below which this tenant's feed can no longer change. */
  ghost predicate Settled(l: Log, tenant: Tenant, c: int) {
    && c < l.next
    && (forall t, id :: t in l.open && l.open[t].tenant == tenant && id in l.open[t].staged ==> c < id)
  }

  /** Commit order is id order: every committed position is settled. */
  ghost predicate Ordered(l: Log) {
    forall id :: id in l.feed ==> Settled(l, l.feed[id].tenant, id)
  }

  ghost predicate Inv(c: Config, l: Log) {
    Fresh(l) && (c.serialize ==> Locked(c, l) && Ordered(l))
  }

  lemma ApplyKeepsFresh(c: Config, l: Log, op: Op)
    requires Fresh(l)
    ensures Fresh(Apply(c, l, op))
  {
  }

  lemma ApplyKeepsLocked(c: Config, l: Log, op: Op)
    requires c.serialize && Fresh(l) && Locked(c, l)
    ensures Locked(c, Apply(c, l, op))
  {
  }

  /** A settled position stays settled, and nothing of its tenant is ever committed at or below it. */
  lemma SettledStays(c: Config, l: Log, op: Op, tenant: Tenant, pos: int)
    requires Fresh(l) && Settled(l, tenant, pos)
    ensures Settled(Apply(c, l, op), tenant, pos)
    ensures forall id | id in Apply(c, l, op).feed && id !in l.feed
              && Apply(c, l, op).feed[id].tenant == tenant :: pos < id
    ensures forall id :: id in l.feed ==> id in Apply(c, l, op).feed && Apply(c, l, op).feed[id] == l.feed[id]
  {
  }

  lemma ApplyKeepsOrdered(c: Config, l: Log, op: Op)
    requires c.serialize && Fresh(l) && Locked(c, l) && Ordered(l)
    ensures Ordered(Apply(c, l, op))
  {
    var l' := Apply(c, l, op);
    forall id | id in l'.feed ensures Settled(l', l'.feed[id].tenant, id) {
      if id in l.feed {
        SettledStays(c, l, op, l.feed[id].tenant, id);
      } else {
        // A new id was staged by the committing transaction, which held its tenant's lock, so no
        // other transaction of that tenant has drawn an id.
        assert op.Commit? && id in l.open[op.t].staged && Holds(c, l, op.t);
        forall u | u in l'.open && l'.open[u].tenant == l'.feed[id].tenant ensures !Holds(c, l, u) {
          assert u != op.t;
        }
      }
    }
  }

  lemma ApplyKeepsInv(c: Config, l: Log, op: Op)
    requires Inv(c, l)
    ensures Inv(c, Apply(c, l, op))
  {
    ApplyKeepsFresh(c, l, op);
    if c.serialize {
      ApplyKeepsLocked(c, l, op);
      ApplyKeepsOrdered(c, l, op);
    }
  }
}
