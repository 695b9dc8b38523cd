/**
 * The `photos_tokens` table the edge functions keep behind a REST client:
 * one record per Google user, read by id and written with an upsert that
 * merges into an existing row.
 */
module TokenStore {
  import opened Wrappers
  import opened Http

  /** A row; absent optional columns are None. The expiry is in milliseconds since the epoch. */
  datatype TokenRecord = TokenRecord(
    googleUserId: string,
    refreshToken: string,
    accessToken: Option<string>,
    tokenExpiresAt: Option<int>,
    profileEmail: Option<string>)

  /** When a token that lives `expiresInSeconds` seconds from `now` (in milliseconds) runs out. */
  function ExpiryOf(now: int, expiresInSeconds: int): int
  {
    now + expiresInSeconds * 1000
  }

  /** A column the upsert sends overrides; one it leaves out keeps the stored value. */
  function MergeField<T>(sent: Option<T>, stored: Option<T>): Option<T>
  {
    if sent.Some? then sent else stored
  }

  /**
   * The row an upsert with `resolution=merge-duplicates` leaves: the sent
   * row when there was none, otherwise the stored row with every sent
   * column replaced.
   */
  function Merge(stored: Option<TokenRecord>, row: TokenRecord): (r: TokenRecord)
    ensures r.googleUserId == row.googleUserId && r.refreshToken == row.refreshToken
    ensures row.accessToken.Some? ==> r.accessToken == row.accessToken
    ensures row.tokenExpiresAt.Some? ==> r.tokenExpiresAt == row.tokenExpiresAt
    ensures row.profileEmail.Some? ==> r.profileEmail == row.profileEmail
    ensures stored.Some? && row.accessToken.None? ==> r.accessToken == stored.value.accessToken
    ensures stored.Some? && row.tokenExpiresAt.None? ==> r.tokenExpiresAt == stored.value.tokenExpiresAt
    ensures stored.Some? && row.profileEmail.None? ==> r.profileEmail == stored.value.profileEmail
    ensures stored.None? ==> r == row
  {
    if stored.None? then row
    else
      TokenRecord(
        row.googleUserId,
        row.refreshToken,
        MergeField(row.accessToken, stored.value.accessToken),
        MergeField(row.tokenExpiresAt, stored.value.tokenExpiresAt),
        MergeField(row.profileEmail, stored.value.profileEmail))
  }

  /** Sending the same row twice leaves what sending it once left. */
  lemma MergeIdempotent(stored: Option<TokenRecord>, row: TokenRecord)
    ensures Merge(Some(Merge(stored, row)), row) == Merge(stored, row)
  {
  }

  /** Upserting the merged row has the same effect as upserting the row itself. */
  lemma MergeIdempotentRow(stored: Option<TokenRecord>, row: TokenRecord)
    ensures Merge(stored, Merge(stored, row)) == Merge(stored, row)
  {
  }

  /** A row with every column present replaces the stored one outright. */
  lemma MergeFullRow(stored: Option<TokenRecord>, row: TokenRecord)
    requires row.accessToken.Some? && row.tokenExpiresAt.Some? && row.profileEmail.Some?
    ensures Merge(stored, row) == row
  {
  }

  function Find(records: map<string, TokenRecord>, googleUserId: string): Option<TokenRecord>
  {
    if googleUserId in records then Some(records[googleUserId]) else None
  }

  /** The table after a successful upsert of `row`. */
  function Upserted(records: map<string, TokenRecord>, row: TokenRecord): (r: map<string, TokenRecord>)
    ensures r.Keys == records.Keys + {row.googleUserId}
    ensures forall id :: id in records && id != row.googleUserId ==> r[id] == records[id]
  {
    records[row.googleUserId := Merge(Find(records, row.googleUserId), row)]
  }

  /** After an upsert the row's user holds the merged row, and upserting that merged row instead changes nothing. */
  lemma UpsertedRow(records: map<string, TokenRecord>, row: TokenRecord)
    ensures row.googleUserId in Upserted(records, row)
    ensures Upserted(records, row)[row.googleUserId] == Merge(Find(records, row.googleUserId), row)
    ensures Upserted(records, Upserted(records, row)[row.googleUserId]) == Upserted(records, row)
  {
    MergeIdempotentRow(Find(records, row.googleUserId), row);
  }

  /** Every row sits under its own user id. */
  ghost predicate Keyed(records: map<string, TokenRecord>)
  {
    forall id :: id in records ==> records[id].googleUserId == id
  }

  /** An upsert keeps the table keyed by user id. */
  lemma UpsertedKeyed(records: map<string, TokenRecord>, row: TokenRecord)
    requires Keyed(records)
    ensures Keyed(Upserted(records, row))
  {
  }

  /** The response an edge function sends and the table it leaves. */
  datatype Outcome = Outcome(response: Response, records: map<string, TokenRecord>)

  /** The store's faults, as the REST calls would report them: a non-ok response makes the call throw. */
  datatype Faults = Faults(getFails: bool, upsertFails: bool)

  class Store {
    var records: map<string, TokenRecord>

    ghost predicate Valid()
      reads this
    {
      Keyed(records)
    }

    constructor()
      ensures Valid() && records == map[]
    {
      records := map[];
    }

    /**
     * `getTokenRecord(googleUserId)`: the stored row or None (`null`); an
     * error when the table cannot be read.
     */
    method GetTokenRecord(googleUserId: string, fails: bool) returns (r: Result<Option<TokenRecord>>)
      requires Valid()
      ensures fails <==> r.Err?
      ensures r.Ok? ==> r.value == Find(records, googleUserId)
      ensures r.Ok? && r.value.Some? ==> r.value.value.googleUserId == googleUserId
    {
      if fails {
        return Err("Failed to fetch token record");
      }
      if googleUserId in records {
        r := Ok(Some(records[googleUserId]));
      } else {
        r := Ok(None);
      }
    }

    /**
     * `upsertTokenRecord(row)`: merges the row into the table, or throws and
     * writes nothing.
     */
    method UpsertTokenRecord(row: TokenRecord, fails: bool) returns (ok: bool)
      requires Valid()
      modifies this
      ensures Valid()
      ensures ok == !fails
      ensures records == if ok then Upserted(old(records), row) else old(records)
    {
      if fails {
        return false;
      }
      UpsertedKeyed(records, row);
      records := Upserted(records, row);
      ok := true;
    }
  }
}
