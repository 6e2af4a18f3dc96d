/** Idempotency reservations: the table and its three statements. */
module Idempotency {
  import opened Wrappers

  /** Tenant, actor, operation and the caller's key. */
  type Key = (int, int, int, int)
  type Hash = int
  type Response = int

  const IN_PROGRESS: nat := 102

  datatype Entry = Entry(hash: Hash, code: nat, response: Response)
  {
    predicate Open() { code == IN_PROGRESS }
  }

  type Entries = map<Key, Entry>

  const IN_PROGRESS_RESPONSE: Response := -1

  datatype ReserveError = KeyReused | InProgress

  // ---------------------------------------------------------------- the three statements, on the table

  /** None: the key is now reserved for the caller. Some: the stored answer of an earlier call. */
  function ReserveOn(t: Entries, key: Key, hash: Hash): (Entries, Result<Option<(nat, Response)>, ReserveError>) {
    if key !in t then (t[key := Entry(hash, IN_PROGRESS, IN_PROGRESS_RESPONSE)], Success(None))
    else if t[key].hash != hash then (t, Failure(KeyReused))
    else if t[key].Open() then (t, Failure(InProgress))
    else (t, Success(Some((t[key].code, t[key].response))))
  }

  predicate Matches(t: Entries, key: Key, hash: Hash) {
    key in t && t[key].hash == hash && t[key].Open()
  }

  /** False is the "completion failed" error. */
  function CompleteOn(t: Entries, key: Key, hash: Hash, code: nat, response: Response): (Entries, bool) {
    if Matches(t, key, hash) then (t[key := Entry(hash, code, response)], true) else (t, false)
  }

  function ReleaseOn(t: Entries, key: Key, hash: Hash): Entries {
    if Matches(t, key, hash) then t - {key} else t
  }

  // ---------------------------------------------------------------- the repository

  class IdempotencyRepository {
    var entries: Entries

    method Reserve(key: Key, hash: Hash) returns (r: Result<Option<(nat, Response)>, ReserveError>)
      modifies this
      ensures (entries, r) == ReserveOn(old(entries), key, hash)
    {
      var inserted := key !in entries;
      if inserted {
        entries := entries[key := Entry(hash, IN_PROGRESS, IN_PROGRESS_RESPONSE)];
      }
      var row := entries[key];
      if row.hash != hash {
        return Failure(KeyReused);
      }
      if inserted {
        return Success(None);
      }
      if row.code == IN_PROGRESS {
        return Failure(InProgress);
      }
      return Success(Some((row.code, row.response)));
    }

    method Complete(key: Key, hash: Hash, code: nat, response: Response) returns (completed: bool)
      modifies this
      ensures (entries, completed) == CompleteOn(old(entries), key, hash, code, response)
    {
      if key in entries && entries[key].hash == hash && entries[key].code == IN_PROGRESS {
        entries := entries[key := entries[key].(code := code, response := response)];
        return true;
      }
      return false;
    }

    method Release(key: Key, hash: Hash)
      modifies this
      ensures entries == ReleaseOn(old(entries), key, hash)
    {
      if key in entries && entries[key].hash == hash && entries[key].code == IN_PROGRESS {
        entries := entries - {key};
      }
    }
  }
}
