/**
 Batches of upserts into a keyed table.  An upsert gives a new row a fresh id
 and leaves the id of an existing row alone.
 */
module Upserts {
  import opened Prelude

  datatype Stored<D> = Stored(id: string, data: D)

  type Table<K, D> = map<K, Stored<D>>

  function Upsert<K, D>(t: Table<K, D>, k: K, d: D, uuid: K -> string): Table<K, D> {
    t[k := Stored(if k in t then t[k].id else uuid(k), d)]
  }

  function UpsertAll<K, D>(t: Table<K, D>, batch: seq<(K, D)>, uuid: K -> string): Table<K, D> {
    if batch == [] then t
    else Upsert(UpsertAll(t, batch[..|batch| - 1], uuid), batch[|batch| - 1].0, batch[|batch| - 1].1, uuid)
  }

  /** The last record of a batch for a key. */
  function LastFor<K(==), D>(batch: seq<(K, D)>, k: K): Option<D> {
    if batch == [] then None
    else if batch[|batch| - 1].0 == k then Some(batch[|batch| - 1].1)
    else LastFor(batch[..|batch| - 1], k)
  }

  /** What a batch leaves under a key: the last record for it, with the id the row had or was given. */
  lemma {:induction false} UpsertAllAt<K, D>(t: Table<K, D>, batch: seq<(K, D)>, uuid: K -> string, k: K)
    ensures
      var u := UpsertAll(t, batch, uuid);
      && (k in u <==> k in t || LastFor(batch, k).Some?)
      && (k in u ==>
            match LastFor(batch, k)
            case None => u[k] == t[k]
            case Some(d) => u[k] == Stored(if k in t then t[k].id else uuid(k), d))
  {
    if batch != [] { UpsertAllAt(t, batch[..|batch| - 1], uuid, k); }
  }

  /** Running the same batch again changes nothing, even when keys repeat inside it. */
  lemma UpsertAllTwice<K(!new), D>(t: Table<K, D>, batch: seq<(K, D)>, uuid: K -> string, uuid': K -> string)
    ensures UpsertAll(UpsertAll(t, batch, uuid), batch, uuid') == UpsertAll(t, batch, uuid)
  {
    hide UpsertAll;
    var u := UpsertAll(t, batch, uuid);
    var v := UpsertAll(u, batch, uuid');
    forall k ensures k in v <==> k in u {
      UpsertAllAt(t, batch, uuid, k);
      UpsertAllAt(u, batch, uuid', k);
    }
    forall k | k in u ensures v[k] == u[k] {
      UpsertAllAt(t, batch, uuid, k);
      UpsertAllAt(u, batch, uuid', k);
    }
  }

  predicate DistinctKeys<K(==), D>(batch: seq<(K, D)>) {
    forall i, j | 0 <= i < j < |batch| :: batch[i].0 != batch[j].0
  }

  /** When no key repeats, the order of the batch is immaterial. */
  lemma {:induction false} LastForDistinct<K, D>(batch: seq<(K, D)>, i: nat)
    requires DistinctKeys(batch) && i < |batch|
    ensures LastFor(batch, batch[i].0) == Some(batch[i].1)
  {
    if i < |batch| - 1 { LastForDistinct(batch[..|batch| - 1], i); }
  }
}
