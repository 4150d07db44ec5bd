/** The stored tables, keyed by their primary keys, and the operations that change them. */
module Repositories {
  import opened Outcomes

  datatype Status = Active | Suspended

  datatype Client = Client(
    clientId: string,
    subject: string,
    allowedScopes: set<string>,
    allowedAudiences: set<string>,
    status: Status,
    tenant: string)
  {
    /** What the record's constructor insists on. */
    predicate Valid() {
      clientId != "" && subject != ""
    }
  }

  datatype IssuanceRecord = IssuanceRecord(
    jti: string,
    clientId: string,
    subject: string,
    audience: string,
    scope: string,
    issuedAt: int,
    expiresAt: int,
    rootSubject: string,
    taskId: Option<string>,
    delegationDepth: int)

  type ClientTable = map<string, Client>
  type Ledger = map<string, IssuanceRecord>
  /** (client, jti) to the moment the assertion expires. */
  type ReplayTable = map<(string, string), int>

  /** An insert against a primary key: refused when the key is taken. */
  function Inserted(rows: Ledger, row: IssuanceRecord): Result<Ledger> {
    if row.jti in rows then Err(StorageError) else Ok(rows[row.jti := row])
  }

  /** `DELETE ... WHERE expires_at < now()`. */
  function Unexpired(rows: ReplayTable, now: int): ReplayTable {
    map k | k in rows && rows[k] >= now :: rows[k]
  }

  class ClientRepository {
    var rows: ClientTable

    method Get(clientId: string) returns (client: Option<Client>)
      ensures client.Some? <==> clientId in rows
      ensures client.Some? ==> client.value == rows[clientId]
    {
      client := if clientId in rows then Some(rows[clientId]) else None;
    }

    method Upsert(client: Client)
      modifies this
      ensures rows == old(rows)[client.clientId := client]
    {
      rows := rows[client.clientId := client];
    }
  }

  class IssuedCredentialRepository {
    var rows: Ledger

    /** A write that cannot be made, or that meets a taken key, fails and changes nothing. */
    method Record(row: IssuanceRecord, reachable: bool) returns (r: Result<()>)
      modifies this
      ensures r.Ok? <==> reachable && row.jti !in old(rows)
      ensures r.Ok? ==> Inserted(old(rows), row) == Ok(rows)
      ensures r.Err? ==> rows == old(rows) && r.failure == StorageError
    {
      if !reachable || row.jti in rows {
        return Err(StorageError);
      }
      rows := rows[row.jti := row];
      return Ok(());
    }
  }

  class AssertionReplayRepository {
    var rows: ReplayTable

    /** `INSERT ... ON CONFLICT DO NOTHING`: true for the first to present the identifier. */
    method Claim(clientId: string, jti: string, expiresAt: int) returns (first: bool)
      modifies this
      ensures first <==> (clientId, jti) !in old(rows)
      ensures rows == if first then old(rows)[(clientId, jti) := expiresAt] else old(rows)
    {
      first := (clientId, jti) !in rows;
      if first {
        rows := rows[(clientId, jti) := expiresAt];
      }
    }

    method PurgeExpired(now: int) returns (removed: nat)
      modifies this
      ensures rows == Unexpired(old(rows), now)
      ensures removed == |old(rows)| - |rows|
    {
      var kept := Unexpired(rows, now);
      assert kept.Keys <= rows.Keys;
      CardinalityOfSubset(kept.Keys, rows.Keys);
      removed := |rows| - |kept|;
      rows := kept;
    }
  }

  lemma {:induction false} CardinalityOfSubset<T>(a: set<T>, b: set<T>)
    requires a <= b
    ensures |a| <= |b|
  {
    assert b == a + (b - a);
  }
}
