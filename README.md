# Patient record manager — a verified model

This project models the patient record manager in `chaincode/smartcontract.go`: a
ledger contract that stores `Patient` records keyed by their national identity
number (NIN). The model covers:

- the `Patient` record and its stored document;
- the world state as an ordered key-value ledger with get, put, delete and
  range-scan primitives;
- the seven contract operations `InitLedger`, `CreatePatient`, `ReadPatient`,
  `UpdatePatient`, `DeletePatient`, `PatientExists` and `GetAllPatients`.

The proofs cover:

- the check-then-act discipline: a failed or negative existence check
  issues no write;
- the exact error each path returns, with the message texts the contract
  builds;
- reading back what was written;
- partial seeding when a put fails;
- the all-or-nothing, key-ordered listing.

Files:

- `basics.dfy`: `Option`, `Result`, and bytes as a `byte` newtype.
- `patients.dfy`: the record, a concrete stand-in for its JSON document, and
  the round trip `Decode(Encode(p)) == Some(p)`.
- `keys.dfy`: the ledger's key order (code-point lexicographic, which is the
  same order as the UTF-8 byte order of the keys). `Ascending` lists a key set
  in that order.
- `ledger.dfy`: the world state, a `class WorldState` holding the committed
  key-value map `kv` and a ghost log `writes` of every put and delete issued.
  A failed put or delete is still logged, so the proofs can tell "not
  attempted" apart from "attempted and failed". Whether a ledger call fails is
  decided outside the contract. Each call therefore takes its outcome as a
  parameter: `None` for success, `Some(msg)` for a failure with the ledger's
  message. A loop takes a `map<nat, string>` from call number to failure.
- `contract.dfy`: the operations, the error taxonomy, the listing
  specification and the lemmas about them.

A contract's transaction context is reduced to the `WorldState` it reaches
through `GetStub()`. The reads `PatientExists` and `ReadPatient` are functions
of the committed map. `GetAllPatients` is a method with a loop that is proved
equal to the specification function `AllPatients`. `SmartContract.Lifecycle` is
a client that replays create, exists, update, read, delete and read on one NIN.

Three behaviours of the code are worth noting:

- Put and delete failures are returned unwrapped
  (`chaincode/smartcontract.go:80`, `:131` and `:144`), as `PassThrough(LedgerFault(msg))`.
  The contract adds no text of its own to them. Only the seeding put
  prefixes its failure, with the text "failed to put to world state. ".
- Existence is "the get returned a non-nil slice"
  (`chaincode/smartcontract.go:154`). A stored empty value therefore counts as
  present. It cannot be read back as a record, because an empty document is
  malformed (`SmartContract.EmptyValuePresent`).
- The listing is an open range query, `GetStateByRange("", "")`
  (`chaincode/smartcontract.go:161`). The ledger starts that query at U+0001.
  So a record stored under a NIN that begins with U+0000 can be created and
  read but is never listed (`Ledger.InOpenRange`,
  `SmartContract.HiddenKeysNotListed`). The empty NIN never gets that far:
  it passes the existence check (`chaincode/smartcontract.go:149` and `:154`),
  but the ledger refuses the put of the empty key (`:80`), so no record is
  ever stored under it. `InOpenRange` also excludes the empty key. It matters
  only in the model, where a caller that supplies no put fault can store one.

## Model

| member | source | states |
|---|---|---|
| Patients.RoundTrip | chaincode/smartcontract.go:16-28 | Decoding the stored document of any record gives back exactly that record, all eleven fields. |
| Patients.Encode | chaincode/smartcontract.go:75 | The document marshalled for a record is never the empty value. |
| Patients.Decode | chaincode/smartcontract.go:93-97 | Unmarshalling an empty value is an error and never gives a record. |
| KeyOrder.AscendingIncreasing | chaincode/smartcontract.go:159-161 | The full-range scan order visits keys strictly increasingly, so no key is visited twice. |
| KeyOrder.Ascending | chaincode/smartcontract.go:159-161 | The scan order has one entry per key and holds exactly the keys of the set. |
| KeyOrder.LeastExists | chaincode/smartcontract.go:168-169 | Every non-empty key set has a least key, which the iterator yields next. |
| SmartContract.Message | chaincode/smartcontract.go:87 | The exact error texts: "failed to read from world state: " plus the ledger message (lines 87 and 151); "the patient with NIN ", the NIN and " already exists" (line 59); the same with " does not exist" (lines 90, 109 and 141); "failed to put to world state. " plus the ledger message (line 45); and a passed-through ledger error unchanged. The one deliberate difference is the decode error, which has a fixed text instead of the JSON decoder's message. |
| SmartContract.NinMessagesUnambiguous | chaincode/smartcontract.go:58-60 | The "already exists" text, and the "does not exist" text of lines 90, 109 and 141, each determine their NIN. The two never coincide. |
| SmartContract.PatientExists | chaincode/smartcontract.go:148-155 | A failed get gives "failed to read from world state: " plus the ledger message. Otherwise the result is true exactly when the key holds a value. |
| SmartContract.ReadPatient | chaincode/smartcontract.go:84-100 | A failed get gives the read error. An absent key gives NotFound(nin). An undecodable value gives the decode error. Otherwise the result is the decoded record. |
| SmartContract.EmptyValuePresent | chaincode/smartcontract.go:154 | A key holding an empty value exists, yet reading it gives the decode error. |
| SmartContract.ReadAfterWrite | chaincode/smartcontract.go:75-80 | After the store of a record under its NIN, reading that NIN returns the record, whatever was there before. |
| SmartContract.WellKeyedPut | chaincode/smartcontract.go:80 | Storing a record under its own NIN keeps every value decodable to a record whose NIN is its key. |
| SmartContract.CreatePatient | chaincode/smartcontract.go:53-81 | A failed existence read is returned with no write issued. A present NIN gives AlreadyExists(nin) with no write issued. Otherwise exactly one put of the record from the arguments is issued. A failed put returns its raw error and leaves the state unchanged. A successful put changes only that key, and the record then reads back. |
| SmartContract.UpdatePatient | chaincode/smartcontract.go:103-132 | As for create, with the presence test reversed: an absent NIN gives NotFound(nin). On success the whole record is replaced by the argument fields, so no old field survives, and only that key changes. |
| SmartContract.DeletePatient | chaincode/smartcontract.go:135-145 | A failed read is returned. An absent NIN gives NotFound(nin). In both cases no write is issued. Otherwise exactly one delete is issued. A failed delete returns its raw error and leaves the state unchanged. A successful delete removes only that key, and the NIN no longer exists. |
| SmartContract.FirstFault | chaincode/smartcontract.go:37-47 | The loop's abort point is the first failing call, and every call before it succeeded. |
| SmartContract.PutAll | chaincode/smartcontract.go:37-49 | Puts the records in order with no existence check. The first failing put stops the loop with "failed to put to world state. " plus its message. Every earlier put stays committed, and no later put is issued. Well-keyed states stay well-keyed. |
| SmartContract.InitLedger | chaincode/smartcontract.go:31-50 | The same as PutAll for the two fixed starter records. |
| SmartContract.SeededWellKeyed | chaincode/smartcontract.go:43 | Seeding records under their own NINs keeps a well-keyed state well-keyed. |
| SmartContract.SeededReadsBack | chaincode/smartcontract.go:37-47 | A seeded record that no later seeded record shares a NIN with reads back after the seeding. |
| SmartContract.SeedReadsBack | chaincode/smartcontract.go:32-35 | After a complete seeding, both starter records read back under their NINs. |
| SmartContract.SeededStep | chaincode/smartcontract.go:43 | Each seeding step adds exactly one put of the next record, and only its key changes. |
| Ledger.OpenRangeKeys | chaincode/smartcontract.go:159-161 | The keys the open range query visits are exactly the stored keys that are non-empty and do not begin with U+0000. |
| SmartContract.GetAllPatients | chaincode/smartcontract.go:158-183 | Returns exactly AllPatients: the failure to open the range, or else the outcome of scanning, in ascending order, every key the open range visits. |
| SmartContract.ThenAppend | chaincode/smartcontract.go:179 | Appending one decoded record and then the rest of the scan equals appending the longer prefix and then the rest. |
| SmartContract.CollectStep | chaincode/smartcontract.go:168-179 | One iteration visits the least remaining key and decodes its value. |
| SmartContract.CollectOk | chaincode/smartcontract.go:168-180 | A scan succeeds exactly when none of its Next calls fails and every visited value decodes. |
| SmartContract.CollectValues | chaincode/smartcontract.go:168-180 | A successful scan returns one record per visited key, in visit order, each the decoding of that key's value. |
| SmartContract.ScanCleanCons | chaincode/smartcontract.go:168-178 | A scan is clean exactly when its first Next call succeeds and its entry decodes, and the rest of the scan is clean. |
| SmartContract.AllPatientsSucceeds | chaincode/smartcontract.go:158-183 | Listing returns a list exactly when the range opens, no Next call over the visited entries fails, and every visited value decodes. In every other case no partial list is returned. |
| SmartContract.AllPatientsInKeyOrder | chaincode/smartcontract.go:161-182 | A returned list has one record per visited key, in ascending key order, each decoded from that key's value. |
| SmartContract.NinsFollowKeys | chaincode/smartcontract.go:159-161 | Records whose NINs follow the scan order of a key set position by position are in strictly ascending NIN order and carry each key of the set once. |
| SmartContract.AllPatientsByNin | chaincode/smartcontract.go:158-183 | When every value carries its own key, a returned list holds every stored NIN the open range visits exactly once, in ascending order, and no other NIN. There are no duplicates and no omissions. |
| SmartContract.CollectFirstFault | chaincode/smartcontract.go:168-172 | When every value decodes, the scan stops at its first failing Next call and returns that call's error. |
| SmartContract.ListingStopsAtFirstNextFault | chaincode/smartcontract.go:168-172 | In a well-keyed store, a failing Next call anywhere in the scan (on the second item, say) yields the first failure's message and no list. |
| SmartContract.FirstNextFails | chaincode/smartcontract_test.go:144-148 | When the store holds a visited key and the first Next call fails, its error is returned unwrapped and no list is returned. |
| SmartContract.HiddenKeysNotListed | chaincode/smartcontract.go:161 | A store whose keys all lie outside the open range lists no record at all. |
| SmartContract.Lifecycle | chaincode/smartcontract.go:53-145 | Start from an empty ledger whose calls all succeed. A create, then a second create of the same NIN, is refused with AlreadyExists. The NIN then exists. An update of the first name reads back as "Jane". After a delete, a read gives NotFound. |

## Left out

- The transaction context, the contract API plumbing and the generated mocks: the model talks to `WorldState` directly.
- The JSON byte format itself: documents are a concrete stand-in encoding of the attribute names and values. Only what the contract relies on is claimed: the round trip, a non-empty document, and the empty value being rejected. Unlike `json.Unmarshal`, the stand-in accepts only the one byte form `Encode` produces, not reordered or re-spaced documents.
- SmartContract.Message: the decode error has one fixed text ("malformed patient document") instead of the JSON decoder's message, because the real format is not modelled.
- The `json.Marshal` error branches (`chaincode/smartcontract.go:38-41`, `:75-78` and `:126-129`): marshalling a struct of strings cannot fail, so `Encode` is total and those branches are not modelled.
- Invalid UTF-8 in Go strings (which the JSON encoder replaces with U+FFFD): Dafny strings hold only Unicode scalar values, so no such input exists in the model.
- Closing the range iterator (`chaincode/smartcontract.go:165`): resource release leaves no observable state in the model.
- Concurrency between transactions and the window between the existence check and the write: the ledger serialises transactions, and each operation runs alone here.
- The ledger's put-side key rules: Fabric's `PutState` refuses the empty key, so `CreatePatient` with the NIN "" fails at `chaincode/smartcontract.go:80`. The model's put succeeds for any key unless a fault is given, and the caller supplies that refusal as the put fault. A model state can therefore hold the empty key, which the real ledger never does. Such a key is present for the reads, and like the ledger's range query the listing skips it. Keys beginning with U+0000 (the form of composite keys) are stored like any other key, in the ledger and in the model.
- The read-your-writes delays of a real ledger: within one transaction Fabric's `GetState` does not see that transaction's own puts. The model applies each successful put immediately, which matches the contract's behaviour across separate transactions, where `Lifecycle` runs each call.
- A nil list versus an empty list from `GetAllPatients` on an empty ledger, and pointers to records: both are `[]` and plain values here.
- InitLedger: its loop is written once in the generic `PutAll`, which it calls with the starter records, so the proof is not repeated on the literal records.
