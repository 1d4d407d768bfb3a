/** The patient record manager: create, read, update, delete and list
    operations over the world state, each checking for the key's presence
    before it acts. */
module SmartContract {
  import opened Basics
  import opened Patients
  import opened KeyOrder
  import opened Ledger

  // ---------------------------------------------------------------------
  // Errors

  /** What a raw error that the contract passes through came from. */
  datatype Cause =
    | LedgerFault(msg: string)   // a put, delete, range-scan or next failure, unwrapped
    | Malformed                  // stored bytes that do not decode into a Patient

  datatype Error =
    | ReadFail(msg: string)      // the existence read or the read itself failed
    | AlreadyExists(nin: string)
    | NotFound(nin: string)
    | PassThrough(cause: Cause)
    | InitPutFail(msg: string)   // a seeding put failed

  /** The text the caller sees for each error: the contract's own texts for
      read failures, presence errors and seeding failures, and the ledger's
      text unchanged for a failure it passes through. */
  function Message(e: Error): (r: string)
    ensures e.ReadFail? ==> r == "failed to read from world state: " + e.msg
    ensures e.AlreadyExists? ==> r == "the patient with NIN " + e.nin + " already exists"
    ensures e.NotFound? ==> r == "the patient with NIN " + e.nin + " does not exist"
    ensures e.PassThrough? && e.cause.LedgerFault? ==> r == e.cause.msg
    ensures e.InitPutFail? ==> r == "failed to put to world state. " + e.msg
  {
    match e
    case ReadFail(msg) => "failed to read from world state: " + msg
    case AlreadyExists(nin) => "the patient with NIN " + nin + " already exists"
    case NotFound(nin) => "the patient with NIN " + nin + " does not exist"
    case PassThrough(LedgerFault(msg)) => msg
    case PassThrough(Malformed) => "malformed patient document"
    case InitPutFail(msg) => "failed to put to world state. " + msg
  }

  /** The NIN and the kind of a presence error can be read back from its text. */
  lemma NinMessagesUnambiguous(n: string, m: string)
    ensures Message(NotFound(n)) == Message(NotFound(m)) ==> n == m
    ensures Message(AlreadyExists(n)) == Message(AlreadyExists(m)) ==> n == m
    ensures Message(NotFound(n)) != Message(AlreadyExists(m))
  {
    var prefix := "the patient with NIN ";
    if Message(NotFound(n)) == Message(NotFound(m)) {
      assert n == Message(NotFound(n))[|prefix|..|prefix| + |n|];
      assert m == Message(NotFound(m))[|prefix|..|prefix| + |m|];
    }
    if Message(AlreadyExists(n)) == Message(AlreadyExists(m)) {
      assert n == Message(AlreadyExists(n))[|prefix|..|prefix| + |n|];
      assert m == Message(AlreadyExists(m))[|prefix|..|prefix| + |m|];
    }
    if |n| == |m| {
      assert Message(NotFound(n))[|prefix| + |n| + 1] == 'd';
      assert Message(AlreadyExists(m))[|prefix| + |m| + 1] == 'a';
    }
  }

  // ---------------------------------------------------------------------
  // Reads

  /** True exactly when the ledger holds a value (possibly empty) for `nin`. */
  function PatientExists(kv: map<string, Bytes>, nin: string, getFault: Option<string>): (r: Result<bool, Error>)
    ensures getFault.Some? ==> r == Err(ReadFail(getFault.value))
    ensures getFault.None? ==> r == Ok(nin in kv)
  {
    match GetState(kv, nin, getFault)
    case Err(msg) => Err(ReadFail(msg))
    case Ok(value) => Ok(value.Some?)
  }

  function ReadPatient(kv: map<string, Bytes>, nin: string, getFault: Option<string>): (r: Result<Patient, Error>)
    ensures getFault.Some? ==> r == Err(ReadFail(getFault.value))
    ensures getFault.None? && nin !in kv ==> r == Err(NotFound(nin))
    ensures getFault.None? && nin in kv && Decode(kv[nin]).None? ==> r == Err(PassThrough(Malformed))
    ensures getFault.None? && nin in kv && Decode(kv[nin]).Some? ==> r == Ok(Decode(kv[nin]).value)
  {
    match GetState(kv, nin, getFault)
    case Err(msg) => Err(ReadFail(msg))
    case Ok(None) => Err(NotFound(nin))
    case Ok(Some(bytes)) =>
      match Decode(bytes)
      case None => Err(PassThrough(Malformed))
      case Some(p) => Ok(p)
  }

  /** An empty stored value counts as present, so creating over it is refused,
      but it does not read back as a record. */
  lemma EmptyValuePresent(kv: map<string, Bytes>, nin: string)
    requires nin in kv && kv[nin] == []
    ensures PatientExists(kv, nin, None) == Ok(true)
    ensures ReadPatient(kv, nin, None) == Err(PassThrough(Malformed))
  {
  }

  /** Reading the key just written returns the record written, whatever was
      stored there before. */
  lemma ReadAfterWrite(kv: map<string, Bytes>, p: Patient)
    ensures ReadPatient(kv[p.nin := Encode(p)], p.nin, None) == Ok(p)
  {
    RoundTrip(p);
  }

  /** Every stored value decodes into a record whose NIN is its key. */
  ghost predicate WellKeyed(kv: map<string, Bytes>) {
    forall k :: k in kv ==> Decode(kv[k]).Some? && Decode(kv[k]).value.nin == k
  }

  lemma WellKeyedPut(kv: map<string, Bytes>, p: Patient)
    requires WellKeyed(kv)
    ensures WellKeyed(kv[p.nin := Encode(p)])
  {
    RoundTrip(p);
  }

  // ---------------------------------------------------------------------
  // Writes

  method CreatePatient(stub: WorldState, nin: string, firstName: string, lastName: string,
                       dateOfBirth: string, sex: string, motherNin: string, fatherNin: string,
                       familyMedicalHistory: string, allergy: string, chronicIllnesses: string,
                       amendedFrom: string, getFault: Option<string>, putFault: Option<string>)
    returns (err: Option<Error>)
    modifies stub
    // a failed existence read is returned as is, and nothing is written
    ensures getFault.Some? ==>
      err == Some(ReadFail(getFault.value)) && stub.kv == old(stub.kv) && stub.writes == old(stub.writes)
    // a present NIN is refused, and nothing is written
    ensures getFault.None? && nin in old(stub.kv) ==>
      err == Some(AlreadyExists(nin)) && stub.kv == old(stub.kv) && stub.writes == old(stub.writes)
    // an absent NIN gets exactly one put of the record built from the arguments
    ensures getFault.None? && nin !in old(stub.kv) ==>
      var p := Patient(nin, firstName, lastName, dateOfBirth, sex, motherNin, fatherNin,
                       familyMedicalHistory, allergy, chronicIllnesses, amendedFrom);
      && stub.writes == old(stub.writes) + [Put(nin, Encode(p))]
      && (putFault.Some? ==> err == Some(PassThrough(LedgerFault(putFault.value))) && stub.kv == old(stub.kv))
      && (putFault.None? ==> err == None && stub.kv == old(stub.kv)[nin := Encode(p)])
    ensures err == None ==>
      ReadPatient(stub.kv, nin, None) == Ok(Patient(nin, firstName, lastName, dateOfBirth, sex, motherNin,
                                                    fatherNin, familyMedicalHistory, allergy,
                                                    chronicIllnesses, amendedFrom))
    ensures WellKeyed(old(stub.kv)) ==> WellKeyed(stub.kv)
  {
    var present := PatientExists(stub.kv, nin, getFault);
    if present.Err? {
      return Some(present.error);
    }
    if present.value {
      return Some(AlreadyExists(nin));
    }
    var patient := Patient(nin, firstName, lastName, dateOfBirth, sex, motherNin, fatherNin,
                           familyMedicalHistory, allergy, chronicIllnesses, amendedFrom);
    ghost var before := stub.kv;
    var putErr := stub.PutState(nin, Encode(patient), putFault);
    if putErr.Some? {
      return Some(PassThrough(LedgerFault(putErr.value)));
    }
    ReadAfterWrite(before, patient);
    if WellKeyed(before) {
      WellKeyedPut(before, patient);
    }
    return None;
  }

  /** Overwrites the whole stored record with the eleven supplied fields. */
  method UpdatePatient(stub: WorldState, nin: string, firstName: string, lastName: string,
                       dateOfBirth: string, sex: string, motherNin: string, fatherNin: string,
                       familyMedicalHistory: string, allergy: string, chronicIllnesses: string,
                       amendedFrom: string, getFault: Option<string>, putFault: Option<string>)
    returns (err: Option<Error>)
    modifies stub
    ensures getFault.Some? ==>
      err == Some(ReadFail(getFault.value)) && stub.kv == old(stub.kv) && stub.writes == old(stub.writes)
    ensures getFault.None? && nin !in old(stub.kv) ==>
      err == Some(NotFound(nin)) && stub.kv == old(stub.kv) && stub.writes == old(stub.writes)
    ensures getFault.None? && nin in old(stub.kv) ==>
      var p := Patient(nin, firstName, lastName, dateOfBirth, sex, motherNin, fatherNin,
                       familyMedicalHistory, allergy, chronicIllnesses, amendedFrom);
      && stub.writes == old(stub.writes) + [Put(nin, Encode(p))]
      && (putFault.Some? ==> err == Some(PassThrough(LedgerFault(putFault.value))) && stub.kv == old(stub.kv))
      && (putFault.None? ==> err == None && stub.kv == old(stub.kv)[nin := Encode(p)])
    // no field of the value stored before survives
    ensures err == None ==>
      ReadPatient(stub.kv, nin, None) == Ok(Patient(nin, firstName, lastName, dateOfBirth, sex, motherNin,
                                                    fatherNin, familyMedicalHistory, allergy,
                                                    chronicIllnesses, amendedFrom))
    ensures WellKeyed(old(stub.kv)) ==> WellKeyed(stub.kv)
  {
    var present := PatientExists(stub.kv, nin, getFault);
    if present.Err? {
      return Some(present.error);
    }
    if !present.value {
      return Some(NotFound(nin));
    }
    var patient := Patient(nin, firstName, lastName, dateOfBirth, sex, motherNin, fatherNin,
                           familyMedicalHistory, allergy, chronicIllnesses, amendedFrom);
    ghost var before := stub.kv;
    var putErr := stub.PutState(nin, Encode(patient), putFault);
    if putErr.Some? {
      return Some(PassThrough(LedgerFault(putErr.value)));
    }
    ReadAfterWrite(before, patient);
    if WellKeyed(before) {
      WellKeyedPut(before, patient);
    }
    return None;
  }

  method DeletePatient(stub: WorldState, nin: string, getFault: Option<string>, delFault: Option<string>)
    returns (err: Option<Error>)
    modifies stub
    ensures getFault.Some? ==>
      err == Some(ReadFail(getFault.value)) && stub.kv == old(stub.kv) && stub.writes == old(stub.writes)
    ensures getFault.None? && nin !in old(stub.kv) ==>
      err == Some(NotFound(nin)) && stub.kv == old(stub.kv) && stub.writes == old(stub.writes)
    ensures getFault.None? && nin in old(stub.kv) ==>
      && stub.writes == old(stub.writes) + [Del(nin)]
      && (delFault.Some? ==> err == Some(PassThrough(LedgerFault(delFault.value))) && stub.kv == old(stub.kv))
      && (delFault.None? ==> err == None && stub.kv == old(stub.kv) - {nin})
    ensures err == None ==> PatientExists(stub.kv, nin, None) == Ok(false)
    ensures WellKeyed(old(stub.kv)) ==> WellKeyed(stub.kv)
  {
    var present := PatientExists(stub.kv, nin, getFault);
    if present.Err? {
      return Some(present.error);
    }
    if !present.value {
      return Some(NotFound(nin));
    }
    var delErr := stub.DelState(nin, delFault);
    if delErr.Some? {
      return Some(PassThrough(LedgerFault(delErr.value)));
    }
    return None;
  }

  // ---------------------------------------------------------------------
  // Seeding

  /** The fixed starter records, in the order they are written. */
  const SEED: seq<Patient> := [
    Patient("123456789", "John", "Doe", "1990-01-01", "M", "987654321", "876543210",
            "None", "Peanuts", "Asthma", ""),
    Patient("987654321", "Jane", "Smith", "1985-02-02", "F", "123456789", "234567890",
            "Diabetes", "None", "None", "")]

  /** The index of the first of calls `from`, ..., `n - 1` that `faults` makes
      fail, or `n` when none does. */
  function FirstFault(faults: map<nat, string>, from: nat, n: nat): (r: nat)
    requires from <= n
    ensures from <= r <= n
    ensures forall j :: from <= j < r ==> j !in faults
    ensures r < n ==> r in faults
    decreases n - from
  {
    if from == n then n
    else if from in faults then from
    else FirstFault(faults, from + 1, n)
  }

  /** `kv` after the successful puts of `ps`, in order. */
  ghost function Seeded(kv: map<string, Bytes>, ps: seq<Patient>): map<string, Bytes> {
    if ps == [] then kv
    else
      var last := ps[|ps| - 1];
      Seeded(kv, ps[..|ps| - 1])[last.nin := Encode(last)]
  }

  /** The puts issued for `ps`, in order. */
  ghost function Puts(ps: seq<Patient>): seq<Write> {
    if ps == [] then []
    else
      var last := ps[|ps| - 1];
      Puts(ps[..|ps| - 1]) + [Put(last.nin, Encode(last))]
  }

  lemma {:induction false} SeededWellKeyed(kv: map<string, Bytes>, ps: seq<Patient>)
    requires WellKeyed(kv)
    ensures WellKeyed(Seeded(kv, ps))
  {
    if ps != [] {
      SeededWellKeyed(kv, ps[..|ps| - 1]);
      WellKeyedPut(Seeded(kv, ps[..|ps| - 1]), ps[|ps| - 1]);
    }
  }

  /** A record seeded after every other record with its NIN reads back. */
  lemma {:induction false} SeededReadsBack(kv: map<string, Bytes>, ps: seq<Patient>, i: nat)
    requires i < |ps|
    requires forall j :: i < j < |ps| ==> ps[j].nin != ps[i].nin
    ensures ReadPatient(Seeded(kv, ps), ps[i].nin, None) == Ok(ps[i])
  {
    if i == |ps| - 1 {
      ReadAfterWrite(Seeded(kv, ps[..|ps| - 1]), ps[i]);
    } else {
      SeededReadsBack(kv, ps[..|ps| - 1], i);
    }
  }

  /** After a complete seeding each starter record reads back under its NIN. */
  lemma SeedReadsBack(kv: map<string, Bytes>)
    ensures ReadPatient(Seeded(kv, SEED), SEED[0].nin, None) == Ok(SEED[0])
    ensures ReadPatient(Seeded(kv, SEED), SEED[1].nin, None) == Ok(SEED[1])
  {
    SeededReadsBack(kv, SEED, 0);
    SeededReadsBack(kv, SEED, 1);
  }

  lemma SeededStep(kv: map<string, Bytes>, ps: seq<Patient>, i: nat)
    requires i < |ps|
    ensures Seeded(kv, ps[..i + 1]) == Seeded(kv, ps[..i])[ps[i].nin := Encode(ps[i])]
    ensures Puts(ps[..i + 1]) == Puts(ps[..i]) + [Put(ps[i].nin, Encode(ps[i]))]
  {
    assert ps[..i + 1][..i] == ps[..i];
  }

  /** The seeding loop: puts each of `patients`, in order, with no existence
      check. A failed put aborts the loop; the puts made before it remain. */
  method PutAll(stub: WorldState, patients: seq<Patient>, putFaults: map<nat, string>) returns (err: Option<Error>)
    modifies stub
    ensures var n := FirstFault(putFaults, 0, |patients|);
      && err == (if n < |patients| then Some(InitPutFail(putFaults[n])) else None)
      && stub.kv == Seeded(old(stub.kv), patients[..n])
      && stub.writes == old(stub.writes) + Puts(patients[..if n < |patients| then n + 1 else n])
    ensures WellKeyed(old(stub.kv)) ==> WellKeyed(stub.kv)
  {
    ghost var n := FirstFault(putFaults, 0, |patients|);
    var i := 0;
    while i < |patients|
      invariant 0 <= i <= n
      invariant stub.kv == Seeded(old(stub.kv), patients[..i])
      invariant stub.writes == old(stub.writes) + Puts(patients[..i])
    {
      var patient := patients[i];
      var fault := if i in putFaults then Some(putFaults[i]) else None;
      var putErr := stub.PutState(patient.nin, Encode(patient), fault);
      SeededStep(old(stub.kv), patients, i);
      if putErr.Some? {
        assert i == n;
        if WellKeyed(old(stub.kv)) {
          SeededWellKeyed(old(stub.kv), patients[..i]);
        }
        return Some(InitPutFail(putErr.value));
      }
      i := i + 1;
    }
    if WellKeyed(old(stub.kv)) {
      SeededWellKeyed(old(stub.kv), patients[..i]);
    }
    return None;
  }

  /** Loads the starter records. */
  method InitLedger(stub: WorldState, putFaults: map<nat, string>) returns (err: Option<Error>)
    modifies stub
    ensures var n := FirstFault(putFaults, 0, |SEED|);
      && err == (if n < |SEED| then Some(InitPutFail(putFaults[n])) else None)
      && stub.kv == Seeded(old(stub.kv), SEED[..n])
      && stub.writes == old(stub.writes) + Puts(SEED[..if n < |SEED| then n + 1 else n])
    ensures WellKeyed(old(stub.kv)) ==> WellKeyed(stub.kv)
  {
    err := PutAll(stub, SEED, putFaults);
  }

  // ---------------------------------------------------------------------
  // Listing

  /** The scan's outcome from step `step` on, over the remaining `keys`:
      each step first asks the iterator for the next entry (call number
      `step`, which fails when `nextFaults` says so) and then decodes its
      value with `decode`. */
  ghost function Collect(kv: map<string, Bytes>, keys: seq<string>, step: nat, nextFaults: map<nat, string>,
                         decode: Bytes -> Option<Patient>): Result<seq<Patient>, Error>
    requires forall k :: k in keys ==> k in kv
    decreases |keys|
  {
    if keys == [] then Ok([])
    else if step in nextFaults then Err(PassThrough(LedgerFault(nextFaults[step])))
    else
      match decode(kv[keys[0]])
      case None => Err(PassThrough(Malformed))
      case Some(p) =>
        match Collect(kv, keys[1..], step + 1, nextFaults, decode)
        case Err(e) => Err(e)
        case Ok(ps) => Ok([p] + ps)
  }

  /** What listing the whole key space yields: the failure to open the range,
      else the scan over every key the open range visits, in ascending order. */
  ghost function AllPatients(kv: map<string, Bytes>, scanFault: Option<string>, nextFaults: map<nat, string>)
    : Result<seq<Patient>, Error>
  {
    if scanFault.Some? then Err(PassThrough(LedgerFault(scanFault.value)))
    else Collect(kv, Ascending(OpenRangeKeys(kv)), 0, nextFaults, Decode)
  }

  /** `ps` followed by the outcome of the rest of the scan. */
  function Then(ps: seq<Patient>, rest: Result<seq<Patient>, Error>): Result<seq<Patient>, Error> {
    match rest
    case Err(e) => Err(e)
    case Ok(qs) => Ok(ps + qs)
  }

  lemma ThenAppend(ps: seq<Patient>, p: Patient, rest: Result<seq<Patient>, Error>)
    ensures Then(ps, Then([p], rest)) == Then(ps + [p], rest)
  {
    if rest.Ok? {
      assert (ps + [p]) + rest.value == ps + ([p] + rest.value);
    }
  }

  /** One step of the scan: the least remaining key is visited next. */
  lemma CollectStep(kv: map<string, Bytes>, remaining: set<string>, key: string, step: nat,
                    nextFaults: map<nat, string>, decode: Bytes -> Option<Patient>)
    requires remaining <= kv.Keys && IsLeast(key, remaining) && step !in nextFaults
    ensures Collect(kv, Ascending(remaining), step, nextFaults, decode)
         == match decode(kv[key])
            case None => Err(PassThrough(Malformed))
            case Some(p) => Then([p], Collect(kv, Ascending(remaining - {key}), step + 1, nextFaults, decode))
  {
    LeastUnique(key, Least(remaining), remaining);
    var rest := Ascending(remaining - {key});
    assert Ascending(remaining) == [key] + rest;
    assert ([key] + rest)[1..] == rest;
  }

  method GetAllPatients(stub: WorldState, scanFault: Option<string>, nextFaults: map<nat, string>)
    returns (r: Result<seq<Patient>, Error>)
    ensures r == AllPatients(stub.kv, scanFault, nextFaults)
  {
    if scanFault.Some? {
      return Err(PassThrough(LedgerFault(scanFault.value)));
    }
    var remaining := OpenRangeKeys(stub.kv);
    var patients: seq<Patient> := [];
    var step: nat := 0;
    ghost var whole := Collect(stub.kv, Ascending(remaining), step, nextFaults, Decode);
    assert whole.Ok? ==> [] + whole.value == whole.value;
    while remaining != {}
      invariant remaining <= stub.kv.Keys
      invariant AllPatients(stub.kv, scanFault, nextFaults)
             == Then(patients, Collect(stub.kv, Ascending(remaining), step, nextFaults, Decode))
      decreases remaining
    {
      if step in nextFaults {
        return Err(PassThrough(LedgerFault(nextFaults[step])));
      }
      LeastExists(remaining);
      var key :| IsLeast(key, remaining);
      CollectStep(stub.kv, remaining, key, step, nextFaults, Decode);
      match Decode(stub.kv[key]) {
        case None =>
          return Err(PassThrough(Malformed));
        case Some(p) =>
          ThenAppend(patients, p, Collect(stub.kv, Ascending(remaining - {key}), step + 1, nextFaults, Decode));
          patients := patients + [p];
      }
      remaining := remaining - {key};
      step := step + 1;
    }
    assert patients + [] == patients;
    return Ok(patients);
  }

  /** Every step of a scan over `keys` from step `step` on gets its entry
      and decodes it. */
  ghost predicate ScanClean(kv: map<string, Bytes>, keys: seq<string>, step: nat, nextFaults: map<nat, string>,
                            decode: Bytes -> Option<Patient>)
  {
    && (forall j :: step <= j < step + |keys| ==> j !in nextFaults)
    && (forall k :: k in keys ==> k in kv && decode(kv[k]).Some?)
  }

  /** A non-empty scan is clean exactly when its first step is and the rest is. */
  lemma ScanCleanCons(kv: map<string, Bytes>, keys: seq<string>, step: nat, nextFaults: map<nat, string>,
                      decode: Bytes -> Option<Patient>)
    requires keys != []
    ensures ScanClean(kv, keys, step, nextFaults, decode) <==>
      && step !in nextFaults && keys[0] in kv && decode(kv[keys[0]]).Some?
      && ScanClean(kv, keys[1..], step + 1, nextFaults, decode)
  {
  }

  /** A scan succeeds exactly when no `Next` call fails and every value decodes. */
  lemma {:induction false} CollectOk(kv: map<string, Bytes>, keys: seq<string>, step: nat, nextFaults: map<nat, string>,
                                     decode: Bytes -> Option<Patient>)
    requires forall k :: k in keys ==> k in kv
    ensures Collect(kv, keys, step, nextFaults, decode).Ok? <==> ScanClean(kv, keys, step, nextFaults, decode)
    decreases |keys|
  {
    if keys != [] {
      var tail := keys[1..];
      assert keys[0] in keys;
      assert forall k :: k in tail ==> k in keys;
      CollectOk(kv, tail, step + 1, nextFaults, decode);
      ScanCleanCons(kv, keys, step, nextFaults, decode);
    }
  }

  /** A successful scan yields one record per key, each the decoding of that
      key's value. */
  lemma {:induction false} CollectValues(kv: map<string, Bytes>, keys: seq<string>, step: nat,
                                         nextFaults: map<nat, string>, decode: Bytes -> Option<Patient>)
    requires forall k :: k in keys ==> k in kv
    requires Collect(kv, keys, step, nextFaults, decode).Ok?
    ensures var ps := Collect(kv, keys, step, nextFaults, decode).value;
      |ps| == |keys| && forall i :: 0 <= i < |keys| ==> decode(kv[keys[i]]) == Some(ps[i])
    decreases |keys|
  {
    if keys != [] {
      var tail := keys[1..];
      CollectValues(kv, tail, step + 1, nextFaults, decode);
      var ps := Collect(kv, keys, step, nextFaults, decode).value;
      forall i | 0 <= i < |keys|
        ensures decode(kv[keys[i]]) == Some(ps[i])
      {
        if i > 0 {
          assert tail[i - 1] == keys[i];
        }
      }
    }
  }

  /** Listing succeeds exactly when the range opens, no `Next` call over the
      visited entries fails and every visited value decodes. */
  lemma AllPatientsSucceeds(kv: map<string, Bytes>, scanFault: Option<string>, nextFaults: map<nat, string>)
    ensures AllPatients(kv, scanFault, nextFaults).Ok? <==>
      && scanFault.None?
      && (forall i :: 0 <= i < |OpenRangeKeys(kv)| ==> i !in nextFaults)
      && (forall k :: k in kv && InOpenRange(k) ==> Decode(kv[k]).Some?)
  {
    CollectOk(kv, Ascending(OpenRangeKeys(kv)), 0, nextFaults, Decode);
  }

  /** A successful listing has one entry per visited key, in ascending key
      order, each the decoding of that key's value. */
  lemma AllPatientsInKeyOrder(kv: map<string, Bytes>, scanFault: Option<string>, nextFaults: map<nat, string>)
    requires AllPatients(kv, scanFault, nextFaults).Ok?
    ensures var ps := AllPatients(kv, scanFault, nextFaults).value;
      var keys := Ascending(OpenRangeKeys(kv));
      && |ps| == |OpenRangeKeys(kv)|
      && forall i :: 0 <= i < |ps| ==> Decode(kv[keys[i]]) == Some(ps[i])
  {
    CollectValues(kv, Ascending(OpenRangeKeys(kv)), 0, nextFaults, Decode);
  }

  /** Records whose NINs are, position by position, the keys of `s` in scan
      order are in ascending NIN order and carry each key of `s` once. */
  lemma NinsFollowKeys(ps: seq<Patient>, s: set<string>)
    requires |ps| == |Ascending(s)|
    requires forall i :: 0 <= i < |ps| ==> ps[i].nin == Ascending(s)[i]
    ensures forall i, j :: 0 <= i < j < |ps| ==> KeyLE(ps[i].nin, ps[j].nin) && ps[i].nin != ps[j].nin
    ensures forall k :: k in s <==> exists i :: 0 <= i < |ps| && ps[i].nin == k
  {
    var keys := Ascending(s);
    AscendingIncreasing(s);
    forall k | k in s
      ensures exists i :: 0 <= i < |ps| && ps[i].nin == k
    {
      assert k in keys;
      var i :| 0 <= i < |keys| && keys[i] == k;
      assert ps[i].nin == k;
    }
    forall k | exists i :: 0 <= i < |ps| && ps[i].nin == k
      ensures k in s
    {
      var i :| 0 <= i < |ps| && ps[i].nin == k;
      assert keys[i] in keys;
    }
  }

  /** Over a store whose values all carry their own key, a successful listing
      holds every stored NIN the open range visits exactly once, in ascending
      order, and no other. */
  lemma AllPatientsByNin(kv: map<string, Bytes>, scanFault: Option<string>, nextFaults: map<nat, string>)
    requires WellKeyed(kv)
    requires AllPatients(kv, scanFault, nextFaults).Ok?
    ensures var ps := AllPatients(kv, scanFault, nextFaults).value;
      && (forall i, j :: 0 <= i < j < |ps| ==> KeyLE(ps[i].nin, ps[j].nin) && ps[i].nin != ps[j].nin)
      && (forall k :: k in kv && InOpenRange(k) <==> exists i :: 0 <= i < |ps| && ps[i].nin == k)
  {
    var ps := AllPatients(kv, scanFault, nextFaults).value;
    var keys := Ascending(OpenRangeKeys(kv));
    AllPatientsInKeyOrder(kv, scanFault, nextFaults);
    forall i | 0 <= i < |ps|
      ensures ps[i].nin == keys[i]
    {
      assert keys[i] in kv;
    }
    NinsFollowKeys(ps, OpenRangeKeys(kv));
  }

  /** A failing `Next` on the first entry of a store that holds a visited key
      is returned, with no list. */
  lemma FirstNextFails(kv: map<string, Bytes>, key: string, msg: string)
    requires key in kv && InOpenRange(key)
    ensures AllPatients(kv, None, map[0 := msg]) == Err(PassThrough(LedgerFault(msg)))
  {
    assert key in OpenRangeKeys(kv);
  }

  /** A store whose keys all lie outside the open range lists no record, and
      no `Next` call fails because none is made. */
  lemma HiddenKeysNotListed(kv: map<string, Bytes>, nextFaults: map<nat, string>)
    requires forall k :: k in kv ==> !InOpenRange(k)
    ensures AllPatients(kv, None, nextFaults) == Ok([])
  {
    assert OpenRangeKeys(kv) == {};
  }

  /** When every value decodes, a scan stops at the first failing `Next` call
      and returns that call's error. */
  lemma {:induction false} CollectFirstFault(kv: map<string, Bytes>, keys: seq<string>, step: nat,
                                             nextFaults: map<nat, string>, decode: Bytes -> Option<Patient>)
    requires forall k :: k in keys ==> k in kv
    requires forall k :: k in keys ==> decode(kv[k]).Some?
    requires FirstFault(nextFaults, step, step + |keys|) < step + |keys|
    ensures Collect(kv, keys, step, nextFaults, decode)
         == Err(PassThrough(LedgerFault(nextFaults[FirstFault(nextFaults, step, step + |keys|)])))
    decreases |keys|
  {
    if step !in nextFaults {
      var tail := keys[1..];
      assert FirstFault(nextFaults, step, step + |keys|) == FirstFault(nextFaults, step + 1, step + 1 + |tail|);
      assert forall k :: k in tail ==> k in keys;
      CollectFirstFault(kv, tail, step + 1, nextFaults, decode);
      assert keys[0] in keys;
    }
  }

  /** Over a store whose values all decode, a failing `Next` call anywhere in
      the scan yields the first such failure and no list. */
  lemma ListingStopsAtFirstNextFault(kv: map<string, Bytes>, nextFaults: map<nat, string>)
    requires WellKeyed(kv)
    requires FirstFault(nextFaults, 0, |OpenRangeKeys(kv)|) < |OpenRangeKeys(kv)|
    ensures AllPatients(kv, None, nextFaults)
         == Err(PassThrough(LedgerFault(nextFaults[FirstFault(nextFaults, 0, |OpenRangeKeys(kv)|)])))
  {
    var keys := Ascending(OpenRangeKeys(kv));
    assert forall k :: k in keys ==> Decode(kv[k]).Some?;
    CollectFirstFault(kv, keys, 0, nextFaults, Decode);
  }

  // ---------------------------------------------------------------------
  // A client

  /** Create, check, update, read, delete and read again one NIN on an empty
      ledger whose primitives all succeed; a second create of the same NIN is
      refused. */
  method Lifecycle() returns (secondCreate: Option<Error>, present: Result<bool, Error>,
                             updatedName: string, finalRead: Result<Patient, Error>)
    ensures secondCreate == Some(AlreadyExists("123456789"))
    ensures present == Ok(true)
    ensures updatedName == "Jane"
    ensures finalRead == Err(NotFound("123456789"))
  {
    var nin := "123456789";
    var stub := new WorldState(map[]);
    var err := CreatePatient(stub, nin, "John", "Doe", "1990-01-01", "M", "987654321", "876543210",
                             "None", "Peanuts", "Asthma", "", None, None);
    assert err == None;
    secondCreate := CreatePatient(stub, nin, "John", "Doe", "1990-01-01", "M", "987654321", "876543210",
                                  "None", "Peanuts", "Asthma", "", None, None);
    present := PatientExists(stub.kv, nin, None);
    err := UpdatePatient(stub, nin, "Jane", "Doe", "1990-01-01", "M", "987654321", "876543210",
                         "None", "Peanuts", "Asthma", "", None, None);
    var read := ReadPatient(stub.kv, nin, None);
    updatedName := if read.Ok? then read.value.firstName else "";
    err := DeletePatient(stub, nin, None, None);
    finalRead := ReadPatient(stub.kv, nin, None);
  }
}
