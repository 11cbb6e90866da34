/**
 * The paste table. The database is modelled as a map from id to row plus the
 * id sequence; the pure functions say what each query returns and what each
 * write leaves behind, and the class PasteRepository holds the table and
 * implements the queries and writes against them.
 */
module PasteRepository {
  import opened Wrappers
  import opened Errors
  import opened Pastes

  type Table = map<uint64, Paste>

  /** Every row is stored under its own id, and no row has id 0 (GORM's "no id yet"). */
  ghost predicate WellKeyed(t: Table) {
    forall k :: k in t ==> t[k].id == k && k != 0
  }

  /** `First(&paste, id)`: the row with that primary key, or ErrRecordNotFound. */
  function FindByID(t: Table, id: uint64): (r: Result<Paste, Error>)
    ensures r.Ok? <==> id in t
    ensures r.Ok? ==> r.value == t[id]
    ensures r.Err? ==> r.error == RecordNotFound
  {
    if id in t then Ok(t[id]) else Err(RecordNotFound)
  }

  /** The ids of the rows whose access token is `token`. */
  function TokenHits(t: Table, token: string): set<uint64> {
    set k | k in t && t[k].privateAccessId == token
  }

  ghost function MinOf(s: set<uint64>): (m: uint64)
    requires s != {}
    ensures m in s && forall j :: j in s ==> m <= j
    decreases |s|
  {
    var x :| x in s;
    if s == {x} then x
    else
      var m' := MinOf(s - {x});
      assert forall j :: j in s ==> j == x || j in s - {x};
      if x <= m' then x else m'
  }

  /**
   * `Where("private_access_id = ?", token).First(&paste)`: First orders by
   * primary key, so among rows sharing the token the one with the smallest id
   * is returned.
   */
  function FindByToken(t: Table, token: string): (r: Result<Paste, Error>)
    ensures r.Err? <==> TokenHits(t, token) == {}
    ensures r.Err? ==> r.error == RecordNotFound
    ensures r.Ok? ==> r.value.privateAccessId == token
    ensures r.Ok? ==> exists k :: k in TokenHits(t, token) && t[k] == r.value
                                && forall j :: j in TokenHits(t, token) ==> k <= j
  {
    var hits := TokenHits(t, token);
    if hits == {} then Err(RecordNotFound)
    else
      assert MinOf(hits) in hits;
      var k :| k in hits && forall j :: j in hits ==> k <= j;
      Ok(t[k])
  }

  /** With a well-keyed table, a row found by its token is the row stored under its id. */
  lemma FoundByTokenIsStored(t: Table, token: string)
    requires WellKeyed(t)
    requires FindByToken(t, token).Ok?
    ensures FindByID(t, FindByToken(t, token).value.id) == FindByToken(t, token)
  {
  }

  /** When only one row carries a token, the token finds exactly that row. */
  lemma UniqueTokenFindsItsRow(t: Table, id: uint64)
    requires id in t
    requires forall k :: k in t && k != id ==> t[k].privateAccessId != t[id].privateAccessId
    ensures FindByToken(t, t[id].privateAccessId) == Ok(t[id])
  {
    assert TokenHits(t, t[id].privateAccessId) == {id};
  }

  /** The row an insert writes: column defaults applied, the id set, and CreatedAt stamped if unset. */
  function Inserted(p: Paste, id: uint64, now: Time): (q: Paste)
    ensures q.id == id
    ensures q.createdAt == if p.createdAt == ZeroTime then now else p.createdAt
    ensures q == WithColumnDefaults(p).(id := id, createdAt := q.createdAt)
  {
    WithColumnDefaults(p).(id := id, createdAt := if p.createdAt == ZeroTime then now else p.createdAt)
  }

  /** What a write returns and what it leaves in the table and the id sequence. */
  datatype Effect = Effect(result: Result<Paste, Error>, table: Table, nextId: nat)

  /**
   * `db.Create(&paste)`. A paste without an id takes the next value of the
   * sequence, which advances even when the insert then fails; a paste with
   * an id keeps it. An id already in the table is a duplicate-key error.
   */
  function InsertEffect(t: Table, nextId: nat, p: Paste, now: Time): (e: Effect)
    requires WellKeyed(t) && nextId >= 1
    ensures WellKeyed(e.table) && e.nextId >= 1
    ensures e.result.Err? ==> e.table == t
    ensures e.result.Ok? ==>
              && e.result.value.id !in t
              && e.result.value == Inserted(p, e.result.value.id, now)
              && e.table == t[e.result.value.id := e.result.value]
    ensures p.id != 0 ==> e.nextId == nextId && (e.result.Ok? <==> p.id !in t)
    ensures p.id == 0 && e.result.Ok? ==> e.result.value.id == nextId && e.nextId == nextId + 1
    ensures p.id == 0 && nextId <= 0xFFFF_FFFF_FFFF_FFFF ==> e.nextId == nextId + 1 && (e.result.Ok? <==> nextId !in t)
    ensures p.id == 0 && nextId > 0xFFFF_FFFF_FFFF_FFFF ==> e == Effect(Err(SequenceExhausted), t, nextId)
  {
    if p.id != 0 then
      if p.id in t then Effect(Err(DuplicateKey), t, nextId)
      else
        var row := Inserted(p, p.id, now);
        Effect(Ok(row), t[p.id := row], nextId)
    else if nextId > 0xFFFF_FFFF_FFFF_FFFF then Effect(Err(SequenceExhausted), t, nextId)
    else if nextId in t then Effect(Err(DuplicateKey), t, nextId + 1)
    else
      var row := Inserted(p, nextId, now);
      Effect(Ok(row), t[nextId := row], nextId + 1)
  }

  /**
   * `db.Save(&paste)`: a paste with an id is written whole under that id
   * (updated, or inserted when no row has it); a paste without one is inserted.
   */
  function SaveEffect(t: Table, nextId: nat, p: Paste, now: Time): (e: Effect)
    requires WellKeyed(t) && nextId >= 1
    ensures WellKeyed(e.table) && e.nextId >= 1
    ensures p.id != 0 ==> e == Effect(Ok(p), t[p.id := p], nextId)
    ensures p.id == 0 ==> e == InsertEffect(t, nextId, p, now)
  {
    if p.id != 0 then Effect(Ok(p), t[p.id := p], nextId)
    else InsertEffect(t, nextId, p, now)
  }

  class PasteRepository {
    var table: Table
    /** The next value of the id sequence. */
    var nextId: nat

    ghost predicate Valid()
      reads this
    {
      WellKeyed(table) && nextId >= 1
    }

    constructor ()
      ensures Valid() && table == map[] && nextId == 1
    {
      table := map[];
      nextId := 1;
    }

    /** The stored rows that satisfy `keep`, each once, in no particular order. */
    method Select(keep: Paste -> bool) returns (rows: seq<Paste>)
      requires Valid()
      ensures forall p :: p in rows <==> p.id in table && table[p.id] == p && keep(p)
      ensures forall i, j :: 0 <= i < j < |rows| ==> rows[i].id != rows[j].id
    {
      rows := [];
      var rest := table.Keys;
      while rest != {}
        invariant rest <= table.Keys
        invariant forall p :: p in rows <==> p.id in table && p.id !in rest && table[p.id] == p && keep(p)
        invariant forall i, j :: 0 <= i < j < |rows| ==> rows[i].id != rows[j].id
        decreases |rest|
      {
        var k :| k in rest;
        if keep(table[k]) {
          rows := rows + [table[k]];
        }
        rest := rest - {k};
      }
    }

    /** `Where("privacy = ?", "public").Find(&pastes)`: exactly the public pastes. */
    method GetAll() returns (pastes: seq<Paste>)
      requires Valid()
      ensures forall p :: p in pastes <==> p.id in table && table[p.id] == p && p.privacy == Public
      ensures forall i, j :: 0 <= i < j < |pastes| ==> pastes[i].id != pastes[j].id
    {
      pastes := Select((p: Paste) => p.privacy == Public);
    }

    method GetByID(id: uint64) returns (r: Result<Paste, Error>)
      ensures r == FindByID(table, id)
    {
      r := if id in table then Ok(table[id]) else Err(RecordNotFound);
    }

    /** Scans the rows for the token, keeping the smallest matching id. */
    method GetByPrivateAccessID(token: string) returns (r: Result<Paste, Error>)
      ensures r == FindByToken(table, token)
    {
      var best: Option<uint64> := None;
      var rest := table.Keys;
      while rest != {}
        invariant rest <= table.Keys
        invariant best.None? ==> forall k :: k in TokenHits(table, token) ==> k in rest
        invariant best.Some? ==> best.value in TokenHits(table, token) - rest
        invariant best.Some? ==> forall k :: k in TokenHits(table, token) && k !in rest ==> best.value <= k
        decreases |rest|
      {
        var k :| k in rest;
        if table[k].privateAccessId == token && (best.None? || k < best.value) {
          best := Some(k);
        }
        rest := rest - {k};
      }
      if best.None? {
        r := Err(RecordNotFound);
      } else {
        r := Ok(table[best.value]);
      }
    }

    /** `Where("private_access_id IN ?", tokens).Find(&pastes)`: exactly the pastes whose token is listed. */
    method GetByPrivateAccessIDs(tokens: seq<string>) returns (pastes: seq<Paste>)
      requires Valid()
      ensures forall p :: p in pastes <==> p.id in table && table[p.id] == p && p.privateAccessId in tokens
      ensures forall i, j :: 0 <= i < j < |pastes| ==> pastes[i].id != pastes[j].id
    {
      pastes := Select((p: Paste) => p.privateAccessId in tokens);
    }

    method Create(p: Paste, now: Time) returns (r: Result<Paste, Error>)
      requires Valid()
      modifies this
      ensures Valid()
      ensures var e := InsertEffect(old(table), old(nextId), p, now);
              r == e.result && table == e.table && nextId == e.nextId
    {
      var e := InsertEffect(table, nextId, p, now);
      table, nextId := e.table, e.nextId;
      r := e.result;
    }

    method Update(p: Paste, now: Time) returns (r: Result<Paste, Error>)
      requires Valid()
      modifies this
      ensures Valid()
      ensures var e := SaveEffect(old(table), old(nextId), p, now);
              r == e.result && table == e.table && nextId == e.nextId
    {
      if p.id != 0 {
        table := table[p.id := p];
        r := Ok(p);
      } else {
        r := Create(p, now);
      }
    }

    /** `db.Delete(&paste, id)` checks nothing: the row goes if present, and the id is returned either way. */
    method Delete(id: uint64) returns (deleted: uint64)
      requires Valid()
      modifies this
      ensures Valid()
      ensures deleted == id && table == old(table) - {id} && nextId == old(nextId)
    {
      table := table - {id};
      deleted := id;
    }
  }
}
