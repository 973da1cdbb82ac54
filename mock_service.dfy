/**
 * The in-memory mock store: a table from a 12-character hex id to the JSON
 * text stored under it. The reader/writer lock of Go's `MockStore` exists only
 * for concurrent callers and is not modelled; the operations run one at a time.
 */
module MockService {
  import opened Wrappers
  import Hex

  /** Number of random bytes behind an id. */
  const IdBytes: nat := 6

  type RandomBytes = b: seq<Hex.uint8> | |b| == IdBytes witness [0, 0, 0, 0, 0, 0]

  /** What the secure random source gives for the 6-byte buffer: the bytes, or its error. */
  datatype Entropy = Filled(bytes: RandomBytes) | RandomError(cause: string)

  /** The shape of every id the store hands out: 12 characters from `0-9a-f`. */
  predicate IsMockId(id: string) {
    |id| == 2 * IdBytes && Hex.IsLowerHex(id)
  }

  /** The id made from the random bytes: their hex encoding, which can be decoded back. */
  function IdOf(bytes: RandomBytes): (id: string)
    ensures IsMockId(id)
    ensures Hex.Decode(id) == Some(bytes)
  {
    Hex.DecodeEncode(bytes);
    Hex.Encode(bytes)
  }

  /** Writing a key that is present keeps the size; writing a new key adds one. */
  lemma UpdateCardinality<K, V>(m: map<K, V>, k: K, v: V)
    ensures |m[k := v]| == if k in m then |m| else |m| + 1
  {
    if k in m {
      assert m[k := v].Keys == m.Keys;
    } else {
      assert m[k := v].Keys == m.Keys + {k};
    }
  }

  class MockStore {
    var mocks: map<string, string>

    /** Every key of the table is an id the store generated. */
    ghost predicate Valid()
      reads this
    {
      forall id :: id in mocks ==> IsMockId(id)
    }

    /** `NewMockStore`: an empty table. */
    constructor ()
      ensures Valid()
      ensures mocks == map[]
    {
      mocks := map[];
    }

    /**
     * `CreateMock`: on a random-source error, returns that error and leaves the
     * table as it was; otherwise stores `jsonBody` under the hex id of the
     * random bytes, replacing any body already there, and returns the id.
     * Only that one entry changes.
     */
    method CreateMock(jsonBody: string, entropy: Entropy) returns (r: Result<string, string>)
      requires Valid()
      modifies this
      ensures Valid()
      ensures entropy.RandomError? ==> r == Failure(entropy.cause) && mocks == old(mocks)
      ensures entropy.Filled? ==> r == Success(IdOf(entropy.bytes))
      ensures r.Success? ==> IsMockId(r.value) && mocks == old(mocks)[r.value := jsonBody]
      ensures r.Success? ==> r.value in mocks && mocks[r.value] == jsonBody
      ensures r.Success? ==> forall id :: id != r.value ==> (id in mocks <==> id in old(mocks))
      ensures r.Success? ==> forall id :: id != r.value && id in mocks ==> mocks[id] == old(mocks)[id]
      ensures r.Success? ==> |mocks| == if r.value in old(mocks) then |old(mocks)| else |old(mocks)| + 1
    {
      match entropy
      case RandomError(cause) =>
        return Failure(cause);
      case Filled(bytes) =>
        var id := IdOf(bytes);
        UpdateCardinality(mocks, id, jsonBody);
        mocks := mocks[id := jsonBody];
        return Success(id);
    }

    /** `GetMock`: the body stored under `id` and `true`, or `""` and `false` when absent. */
    method GetMock(id: string) returns (body: string, found: bool)
      ensures found <==> id in mocks
      ensures found ==> body == mocks[id]
      ensures !found ==> body == ""
    {
      if id in mocks {
        body, found := mocks[id], true;
      } else {
        body, found := "", false;
      }
    }
  }

  /** A body stored by `CreateMock` is read back by `GetMock` under the returned id. */
  method CreateThenGet(store: MockStore, jsonBody: string, bytes: RandomBytes)
    returns (id: string, body: string, found: bool)
    requires store.Valid()
    modifies store
    ensures store.Valid()
    ensures id == IdOf(bytes) && found && body == jsonBody
  {
    var r := store.CreateMock(jsonBody, Filled(bytes));
    id := r.value;
    body, found := store.GetMock(id);
  }

  /** A valid store holds only generated ids, so a malformed id is never found. */
  method LookupMalformedId(store: MockStore, id: string) returns (body: string, found: bool)
    requires store.Valid() && !IsMockId(id)
    ensures !found && body == ""
  {
    body, found := store.GetMock(id);
  }

  /** A new store finds nothing, whatever the id. */
  method LookupInNewStore(id: string) returns (body: string, found: bool)
    ensures !found && body == ""
  {
    var store := new MockStore();
    body, found := store.GetMock(id);
  }
}
