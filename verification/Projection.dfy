/** The SQL read projection of a household's transactions, kept up to date incrementally. */
module Projection {
  import opened Prelude
  import opened Money

  datatype Kind = Income | Purchase | Fee | Transfer | Refund

  datatype Progress = Pending | Posted | Reconciled | Reversed

  /** reflected is one of the fields that the wire encoding leaves out. */
  datatype Tx = Tx(
    id: string, accountId: string, date: int, amount: real, description: string, category: Option<string>,
    kind: Kind, progress: Progress, reflected: bool)

  /** The wire form: the amount rounded to cents and shown with its sign, and flags computed from the unrounded values. */
  datatype Payload = Payload(
    id: string, accountId: string, date: int, cents: int, minus: bool, description: string,
    category: Option<string>, kind: Kind, progress: Progress, income: bool, spending: bool)

  datatype Row = Row(accountId: string, postedOn: int, category: string, description: string, payload: Payload)

  /** Rows are keyed by household and transaction id. */
  type Table = map<(string, string), Row>

  function WireForm(tx: Tx): Payload {
    Payload(tx.id, tx.accountId, tx.date, RoundHalfUp(tx.amount), tx.amount < 0.0, tx.description, tx.category,
            tx.kind, tx.progress,
            tx.kind == Income && (tx.progress == Posted || tx.progress == Reconciled),
            (tx.kind == Purchase || tx.kind == Fee) && tx.amount < 0.0 && tx.progress != Reversed)
  }

  function Encoded(tx: Tx): Row {
    Row(tx.accountId, tx.date, if tx.category.Some? then tx.category.value else "", tx.description, WireForm(tx))
  }

  /** Rows with the same payload are the same row: the other columns are copies of payload fields. */
  lemma PayloadDeterminesRow(a: Tx, b: Tx)
    ensures WireForm(a) == WireForm(b) ==> Encoded(a) == Encoded(b)
  {
  }

  // ---- the transaction lists ------------------------------------------

  ghost predicate UniqueIds(txs: seq<Tx>) {
    forall i, j :: 0 <= i < j < |txs| ==> txs[i].id != txs[j].id
  }

  /** The copies taken before the transaction, by id; a repeated id keeps its last copy. */
  function Original(txs: seq<Tx>): map<string, Tx> {
    if txs == [] then map[] else Original(txs[..|txs| - 1])[txs[|txs| - 1].id := txs[|txs| - 1]]
  }

  predicate Unchanged(original: map<string, Tx>, tx: Tx) {
    tx.id in original && original[tx.id] == tx
  }

  function Changed(original: map<string, Tx>, txs: seq<Tx>): seq<Tx> {
    if txs == [] then []
    else
      var tx := txs[|txs| - 1];
      Changed(original, txs[..|txs| - 1]) + if Unchanged(original, tx) then [] else [tx]
  }

  function Ids(txs: seq<Tx>): set<string> {
    set k | 0 <= k < |txs| :: txs[k].id
  }

  function Removed(original: map<string, Tx>, txs: seq<Tx>): set<string> {
    original.Keys - Ids(txs)
  }

  // ---- what the statements do -----------------------------------------

  function DeleteAll(rows: Table, hh: string, ids: set<string>): Table {
    map key | key in rows && !(key.0 == hh && key.1 in ids) :: rows[key]
  }

  /** Nothing is written when a row with the same payload is already there. */
  function Upsert(rows: Table, hh: string, tx: Tx): Table {
    if (hh, tx.id) in rows && rows[(hh, tx.id)].payload == WireForm(tx) then rows
    else rows[(hh, tx.id) := Encoded(tx)]
  }

  function UpsertAll(rows: Table, hh: string, txs: seq<Tx>): Table {
    if txs == [] then rows else Upsert(UpsertAll(rows, hh, txs[..|txs| - 1]), hh, txs[|txs| - 1])
  }

  function Synced(rows: Table, hh: string, original: map<string, Tx>, txs: seq<Tx>): Table {
    UpsertAll(DeleteAll(rows, hh, Removed(original, txs)), hh, Changed(original, txs))
  }

  lemma {:induction false} UpsertsElsewhere(rows: Table, hh: string, txs: seq<Tx>, key: (string, string))
    requires forall k :: 0 <= k < |txs| ==> key != (hh, txs[k].id)
    ensures key in UpsertAll(rows, hh, txs) <==> key in rows
    ensures key in rows ==> UpsertAll(rows, hh, txs)[key] == rows[key]
  {
    if txs != [] {
      UpsertsElsewhere(rows, hh, txs[..|txs| - 1], key);
    }
  }

  lemma {:induction false} UpsertsThere(rows: Table, hh: string, txs: seq<Tx>, k: nat)
    requires k < |txs| && UniqueIds(txs)
    ensures var key, tx := (hh, txs[k].id), txs[k];
      && key in UpsertAll(rows, hh, txs)
      && UpsertAll(rows, hh, txs)[key] == if key in rows && rows[key].payload == WireForm(tx) then rows[key] else Encoded(tx)
  {
    var n := |txs| - 1;
    if k == n {
      UpsertsElsewhere(rows, hh, txs[..n], (hh, txs[k].id));
    } else {
      UpsertsThere(rows, hh, txs[..n], k);
    }
  }

  lemma {:induction false} ChangedAre(original: map<string, Tx>, txs: seq<Tx>)
    requires UniqueIds(txs)
    ensures UniqueIds(Changed(original, txs))
    ensures forall tx :: tx in Changed(original, txs) <==> tx in txs && !Unchanged(original, tx)
  {
    if txs != [] {
      var n := |txs| - 1;
      ChangedAre(original, txs[..n]);
      assert txs == txs[..n] + [txs[n]];
      var before := Changed(original, txs[..n]);
      forall i | 0 <= i < |before|
        ensures before[i].id != txs[n].id
      {
        assert before[i] in txs[..n];
      }
    }
  }

  // ---- the table object -----------------------------------------------

  const BATCH: nat := 500

  class Transactions {
    var rows: Table

    constructor ()
      ensures rows == map[]
    {
      rows := map[];
    }

    /** DELETE ... WHERE id IN (...), at most 500 ids at a time. */
    method DeleteRemoved(hh: string, removed: seq<string>)
      modifies this
      ensures rows == DeleteAll(old(rows), hh, set id | id in removed)
    {
      var offset := 0;
      while offset < |removed|
        invariant 0 <= offset
        invariant rows == DeleteAll(old(rows), hh, set id | id in removed[..Min(offset, |removed|)])
      {
        var end := Min(offset + BATCH, |removed|);
        var batch := removed[offset..end];
        assert removed[..end] == removed[..offset] + batch;
        rows := map key | key in rows && !(key.0 == hh && key.1 in batch) :: rows[key];
        offset := offset + BATCH;
      }
      assert removed[..|removed|] == removed;
    }

    /** One batch: select the rows that exist, then insert, edit or skip one transaction at a time. */
    method UpsertBatch(hh: string, batch: seq<Tx>)
      requires UniqueIds(batch)
      modifies this
      ensures rows == UpsertAll(old(rows), hh, batch)
    {
      hide UpsertAll, WireForm;
      UpsertNothing(rows, hh);
      var ids := Ids(batch);
      var existing := map id | id in ids && (hh, id) in rows :: rows[(hh, id)];
      for k := 0 to |batch|
        invariant rows == UpsertAll(old(rows), hh, batch[..k])
      {
        var tx := batch[k];
        UpsertLast(old(rows), hh, batch, k);
        UpsertsElsewhere(old(rows), hh, batch[..k], (hh, tx.id));
        var payload := WireForm(tx);
        if tx.id in existing && existing[tx.id].payload == payload {
          continue;
        }
        rows := rows[(hh, tx.id) :=
          Row(tx.accountId, tx.date, if tx.category.Some? then tx.category.value else "", tx.description, payload)];
      }
      assert batch[..|batch|] == batch;
    }

    method UpsertChanged(hh: string, changed: seq<Tx>)
      requires UniqueIds(changed)
      modifies this
      ensures rows == UpsertAll(old(rows), hh, changed)
    {
      hide UpsertAll;
      UpsertNothing(rows, hh);
      var offset := 0;
      while offset < |changed|
        invariant 0 <= offset
        invariant rows == UpsertAll(old(rows), hh, changed[..Min(offset, |changed|)])
      {
        var end := Min(offset + BATCH, |changed|);
        UpsertBatch(hh, changed[offset..end]);
        UpsertsCompose(old(rows), hh, changed[..offset], changed[offset..end]);
        assert changed[..end] == changed[..offset] + changed[offset..end];
        offset := offset + BATCH;
      }
      assert changed[..|changed|] == changed;
    }

    /** original holds copies of the old list; the table is written only where it has to be. */
    method Sync(hh: string, original: map<string, Tx>, txs: seq<Tx>)
      requires UniqueIds(txs)
      modifies this
      ensures rows == Synced(old(rows), hh, original, txs)
    {
      var changed := [];
      for k := 0 to |txs|
        invariant changed == Changed(original, txs[..k])
      {
        assert txs[..k + 1][..k] == txs[..k];
        if !Unchanged(original, txs[k]) {
          changed := changed + [txs[k]];
        }
      }
      assert txs[..|txs|] == txs;
      ChangedAre(original, txs);
      var removed := Listed(original.Keys - Ids(txs));
      DeleteRemoved(hh, removed);
      assert (set id | id in removed) == Removed(original, txs);
      UpsertChanged(hh, changed);
    }
  }

  /** The elements of a set in some order. */
  method Listed(s: set<string>) returns (l: seq<string>)
    ensures forall x :: x in l <==> x in s
  {
    var rest := s;
    l := [];
    while rest != {}
      invariant rest <= s && forall x :: x in l <==> x in s - rest
      decreases rest
    {
      var x :| x in rest;
      l, rest := l + [x], rest - {x};
    }
  }

  lemma UpsertNothing(rows: Table, hh: string)
    ensures UpsertAll(rows, hh, []) == rows
  {
  }

  lemma UpsertLast(rows: Table, hh: string, txs: seq<Tx>, k: nat)
    requires k < |txs|
    ensures UpsertAll(rows, hh, txs[..k + 1]) == Upsert(UpsertAll(rows, hh, txs[..k]), hh, txs[k])
  {
    assert txs[..k + 1][..k] == txs[..k];
  }

  lemma {:induction false} UpsertsCompose(rows: Table, hh: string, a: seq<Tx>, b: seq<Tx>)
    ensures UpsertAll(rows, hh, a + b) == UpsertAll(UpsertAll(rows, hh, a), hh, b)
  {
    if b == [] {
      assert a + b == a;
    } else {
      assert (a + b)[..|a + b| - 1] == a + b[..|b| - 1];
      UpsertsCompose(rows, hh, a, b[..|b| - 1]);
    }
  }

  // ---- incremental is full --------------------------------------------

  /** The household's part of the table is the encoding of the whole list. */
  ghost predicate Matches(rows: Table, hh: string, txs: seq<Tx>) {
    && (forall id :: (hh, id) in rows <==> id in Ids(txs))
    && (forall k :: 0 <= k < |txs| ==> (hh, txs[k].id) in rows && rows[(hh, txs[k].id)] == Encoded(txs[k]))
  }

  /**
   * What the table must hold beforehand: the rows of unchanged transactions, no row that neither list
   * knows, and under a changed transaction's payload its own columns.
   */
  ghost predicate Repairable(rows: Table, hh: string, original: map<string, Tx>, txs: seq<Tx>) {
    && (forall id :: (hh, id) in rows ==> id in Ids(txs) || id in original)
    && (forall k :: 0 <= k < |txs| && Unchanged(original, txs[k]) ==>
          (hh, txs[k].id) in rows && rows[(hh, txs[k].id)] == Encoded(txs[k]))
    && (forall k :: 0 <= k < |txs| && !Unchanged(original, txs[k]) && (hh, txs[k].id) in rows ==>
          rows[(hh, txs[k].id)].payload == WireForm(txs[k]) ==> rows[(hh, txs[k].id)] == Encoded(txs[k]))
  }

  lemma SyncedElsewhere(rows: Table, hh: string, original: map<string, Tx>, txs: seq<Tx>, key: (string, string))
    requires UniqueIds(txs) && (key.0 != hh || key.1 !in Ids(txs))
    ensures key in Synced(rows, hh, original, txs) <==> key in rows && !(key.0 == hh && key.1 in original)
    ensures key in Synced(rows, hh, original, txs) ==> Synced(rows, hh, original, txs)[key] == rows[key]
  {
    ChangedAre(original, txs);
    var changed := Changed(original, txs);
    forall k | 0 <= k < |changed|
      ensures key != (hh, changed[k].id)
    {
      assert changed[k] in txs;
    }
    UpsertsElsewhere(DeleteAll(rows, hh, Removed(original, txs)), hh, changed, key);
  }

  lemma SyncedThere(rows: Table, hh: string, original: map<string, Tx>, txs: seq<Tx>, k: nat)
    requires UniqueIds(txs) && k < |txs|
    ensures var key, tx, after := (hh, txs[k].id), txs[k], Synced(rows, hh, original, txs);
      && (Unchanged(original, tx) ==> (key in after <==> key in rows) && (key in rows ==> after[key] == rows[key]))
      && (!Unchanged(original, tx) ==> key in after)
      && (!Unchanged(original, tx) ==>
            after[key] == if key in rows && rows[key].payload == WireForm(tx) then rows[key] else Encoded(tx))
  {
    ChangedAre(original, txs);
    var changed, tx, kept := Changed(original, txs), txs[k], DeleteAll(rows, hh, Removed(original, txs));
    assert tx.id in Ids(txs);
    if Unchanged(original, tx) {
      forall j | 0 <= j < |changed|
        ensures changed[j].id != tx.id
      {
        assert changed[j] in changed;
        var i :| 0 <= i < |txs| && txs[i] == changed[j];
      }
      UpsertsElsewhere(kept, hh, changed, (hh, tx.id));
    } else {
      assert tx in changed;
      var j :| 0 <= j < |changed| && changed[j] == tx;
      UpsertsThere(kept, hh, changed, j);
    }
  }

  /** After a sync the table is the encoding of the new list exactly when it was repairable before. */
  lemma SyncMatchesExactly(rows: Table, hh: string, original: map<string, Tx>, txs: seq<Tx>)
    requires UniqueIds(txs)
    ensures Matches(Synced(rows, hh, original, txs), hh, txs) <==> Repairable(rows, hh, original, txs)
  {
    var after := Synced(rows, hh, original, txs);
    forall k | 0 <= k < |txs|
      ensures txs[k].id in Ids(txs)
      ensures var key := (hh, txs[k].id);
        key in after && after[key] == Encoded(txs[k]) <==>
        if Unchanged(original, txs[k]) then key in rows && rows[key] == Encoded(txs[k])
        else key in rows && rows[key].payload == WireForm(txs[k]) ==> rows[key] == Encoded(txs[k])
    {
      SyncedThere(rows, hh, original, txs, k);
    }
    forall id | id !in Ids(txs)
      ensures (hh, id) in after <==> (hh, id) in rows && id !in original
    {
      SyncedElsewhere(rows, hh, original, txs, (hh, id));
    }
    hide Synced, Encoded, WireForm, Unchanged, Ids;
  }

  lemma {:induction false} OriginalHas(txs: seq<Tx>, k: nat)
    requires UniqueIds(txs) && k < |txs|
    ensures Unchanged(Original(txs), txs[k])
  {
    if k < |txs| - 1 {
      OriginalHas(txs[..|txs| - 1], k);
    }
  }

  lemma {:induction false} OriginalKeys(txs: seq<Tx>)
    ensures Original(txs).Keys == Ids(txs)
  {
    if txs != [] {
      var n := |txs| - 1;
      OriginalKeys(txs[..n]);
      assert Ids(txs) == Ids(txs[..n]) + {txs[n].id};
    }
  }

  /**
   * Incremental equals full: a table that encoded the old list encodes the new one afterwards,
   * whatever was added, removed or edited, and other households' rows are untouched.
   */
  lemma IncrementalIsFull(rows: Table, hh: string, before: seq<Tx>, txs: seq<Tx>)
    requires UniqueIds(before) && UniqueIds(txs) && Matches(rows, hh, before)
    ensures var after := Synced(rows, hh, Original(before), txs);
      && Matches(after, hh, txs)
      && forall key: (string, string) :: key.0 != hh ==> (key in after <==> key in rows) && (key in rows ==> after[key] == rows[key])
  {
    var original := Original(before);
    OriginalKeys(before);
    forall k | 0 <= k < |txs| && (hh, txs[k].id) in rows
      ensures Unchanged(original, txs[k]) ==> rows[(hh, txs[k].id)] == Encoded(txs[k])
      ensures rows[(hh, txs[k].id)].payload == WireForm(txs[k]) ==> rows[(hh, txs[k].id)] == Encoded(txs[k])
    {
      var i :| 0 <= i < |before| && before[i].id == txs[k].id;
      OriginalHas(before, i);
      PayloadDeterminesRow(before[i], txs[k]);
    }
    SyncMatchesExactly(rows, hh, original, txs);
    forall key: (string, string) | key.0 != hh
      ensures var after := Synced(rows, hh, original, txs);
        (key in after <==> key in rows) && (key in rows ==> after[key] == rows[key])
    {
      SyncedElsewhere(rows, hh, original, txs, key);
    }
  }

  /** What a row of a table that encodes the list says, read off its transaction. */
  lemma RowTells(rows: Table, hh: string, txs: seq<Tx>, k: nat)
    requires Matches(rows, hh, txs) && k < |txs|
    ensures (hh, txs[k].id) in rows
    ensures var tx, row := txs[k], rows[(hh, txs[k].id)];
      && row.accountId == row.payload.accountId == tx.accountId && row.postedOn == row.payload.date == tx.date
      && row.description == row.payload.description == tx.description && row.payload.id == tx.id
      && row.payload.category == tx.category && (tx.category == None ==> row.category == "")
      && (tx.category.Some? ==> row.category == tx.category.value)
      && row.payload.kind == tx.kind && row.payload.progress == tx.progress && (row.payload.minus <==> tx.amount < 0.0)
      && row.payload.cents as real - 0.5 <= tx.amount <= row.payload.cents as real + 0.5
      && (row.payload.income <==> tx.kind == Income && tx.progress in {Posted, Reconciled})
      && (row.payload.spending <==> tx.kind in {Purchase, Fee} && tx.amount < 0.0 && tx.progress != Reversed)
  {
    HalfUpIs(txs[k].amount);
    hide RoundHalfUp;
  }
}
