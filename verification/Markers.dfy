/** DB_OPs/tx_markers.go and the marker filter of DB_OPs/sync_anchor.go: which transactions
    count as applied. A marker is decimal text; -1 means the transaction was rolled back.
    The accounts database decides for every key it holds; the legacy database is consulted
    only for keys it does not hold. */
module Markers {
  import opened Types
  import opened Decimal

  const REVOKED: int := -1

  /** The stored `tx_processed:` values of one database, by transaction hash. */
  type MarkerDb = map<Hash, string>

  /** `markerOp`: the frozen encoding. */
  function Encode(v: int): string { Format(v) }

  /** `markerValueApplied`: anything unreadable counts as applied. */
  predicate ValueApplied(raw: string) {
    var v := ParseInt64(raw);
    v.None? || v.value != REVOKED
  }

  /** An encoded int64 reads back as applied exactly when it is not the revocation value. */
  lemma EncodedMarkerReads(v: int)
    requires IsInt64(v)
    ensures ParseInt64(Encode(v)) == Some(v)
    ensures ValueApplied(Encode(v)) <==> v != REVOKED
  {}

  /** `IsMarkerApplied`: the dual read of one key. */
  predicate IsApplied(accounts: MarkerDb, legacy: MarkerDb, h: Hash) {
    if h in accounts then ValueApplied(accounts[h])
    else h in legacy && ValueApplied(legacy[h])
  }

  /** The texts that stand for -1: a minus sign, any zeros, a one. */
  predicate MinusOneText(raw: string) {
    |raw| >= 2 && raw[0] == '-' && raw[|raw| - 1] == '1' && forall i :: 1 <= i < |raw| - 1 ==> raw[i] == '0'
  }

  /** A marker reads as not applied exactly for those texts; whatever cannot be read counts as applied. */
  lemma ReadsRevokedExactly(raw: string)
    ensures ValueApplied(raw) <==> !MinusOneText(raw)
  {
    if raw != [] && raw[0] == '-' {
      ReadsOne(raw[1..]);
      assert MinusOneText(raw) <==>
             raw[1..] != [] && raw[1..][|raw| - 2] == '1' && Zeros(raw[1..][..|raw| - 2]);
    }
  }

  /** The dual read on the stored texts: the accounts database decides for the keys it holds, the
      legacy database for the others, and a key in neither is not applied. */
  lemma DualReadExactly(accounts: MarkerDb, legacy: MarkerDb, h: Hash)
    ensures h in accounts ==> (IsApplied(accounts, legacy, h) <==> !MinusOneText(accounts[h]))
    ensures h !in accounts ==> (IsApplied(accounts, legacy, h) <==> h in legacy && !MinusOneText(legacy[h]))
  {
    if h in accounts {
      ReadsRevokedExactly(accounts[h]);
    } else if h in legacy {
      ReadsRevokedExactly(legacy[h]);
    }
  }

  /** A revocation in the accounts database is final, whatever the legacy database says. */
  lemma RevocationWins(accounts: MarkerDb, legacy: MarkerDb, h: Hash)
    ensures !IsApplied(accounts[h := Encode(REVOKED)], legacy, h)
  {
    EncodedMarkerReads(REVOKED);
  }

  // ----- The batched filter -----

  /** immudb `GetAll`: the entries of the keys that exist, in request order. */
  function GetAll(db: MarkerDb, keys: seq<Hash>): (entries: seq<(Hash, string)>)
    ensures forall e :: e in entries <==> e.0 in keys && e.0 in db && e.1 == db[e.0]
  {
    if keys == [] then []
    else
      var k := keys[|keys| - 1];
      GetAll(db, keys[..|keys| - 1]) + (if k in db then [(k, db[k])] else [])
  }

  const CHUNK: nat := 1000

  /** The part of a database that answers for `keys`. */
  ghost predicate Answers(out: map<Hash, string>, db: MarkerDb, keys: seq<Hash>) {
    && (forall h :: h in out <==> h in keys && h in db)
    && (forall h :: h in out ==> out[h] == db[h])
  }

  /** `collectMarkerValues`: one `GetAll` per thousand keys. */
  method CollectMarkerValues(db: MarkerDb, keys: seq<Hash>) returns (out: map<Hash, string>)
    ensures Answers(out, db, keys)
  {
    out := map[];
    var i := 0;
    while i < |keys|
      invariant 0 <= i <= |keys|
      invariant Answers(out, db, keys[..i])
    {
      var end := if i + CHUNK > |keys| then |keys| else i + CHUNK;
      var entries := GetAll(db, keys[i..end]);
      out := Record(out, entries, db);
      assert keys[..end] == keys[..i] + keys[i..end];
      i := end;
    }
    assert keys[..|keys|] == keys;
  }

  method Record(out0: map<Hash, string>, entries: seq<(Hash, string)>, ghost db: MarkerDb)
    returns (out: map<Hash, string>)
    requires forall h :: h in out0 ==> h in db && out0[h] == db[h]
    requires forall e :: e in entries ==> e.0 in db && e.1 == db[e.0]
    ensures forall h :: h in out ==> h in db && out[h] == db[h]
    ensures forall h :: h in out <==> h in out0 || (h in db && (h, db[h]) in entries)
  {
    out := out0;
    for j := 0 to |entries|
      invariant forall h :: h in out ==> h in db && out[h] == db[h]
      invariant forall h :: h in out <==> h in out0 || (h in db && (h, db[h]) in entries[..j])
    {
      assert entries[..j + 1] == entries[..j] + [entries[j]];
      out := out[entries[j].0 := entries[j].1];
    }
    assert entries[..|entries|] == entries;
  }

  /** `FilterProcessedTxMarkers` returns, for every list of hashes, exactly those the
      single-key dual read calls applied. */
  method FilterProcessedTxMarkers(accounts: MarkerDb, legacy: MarkerDb, hashes: seq<Hash>)
    returns (processed: set<Hash>)
    ensures processed == set h | h in hashes && IsApplied(accounts, legacy, h)
  {
    processed := {};
    if |hashes| == 0 {
      return;
    }
    var acctValues := CollectMarkerValues(accounts, hashes);
    processed := processed + AppliedKeys(acctValues);
    var legacyKeys: seq<Hash> := [];
    for i := 0 to |hashes|
      invariant forall h :: h in legacyKeys <==> h in hashes[..i] && h !in accounts
    {
      if hashes[i] !in acctValues {
        legacyKeys := legacyKeys + [hashes[i]];
      }
    }
    assert hashes[..|hashes|] == hashes;
    if |legacyKeys| > 0 {
      var mainValues := CollectMarkerValues(legacy, legacyKeys);
      processed := processed + AppliedKeys(mainValues);
    }
  }

  function AppliedKeys(values: map<Hash, string>): set<Hash> {
    set h | h in values && ValueApplied(values[h])
  }
}
