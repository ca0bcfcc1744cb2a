/** The operation journal: an atomic claim per operation, and one terminal status. */
module Journal {
  import opened Wrappers

  datatype Status = Started | Completed | Failed

  datatype Record = Record(status: Status, scope: string)

  type Records = map<string, Record>

  datatype Claim = Proceed | Already | Refused

  predicate ValidOperationId(id: string) {
    id != "" && forall i :: 0 <= i < |id| ==> ' ' <= id[i] <= '~' && id[i] != '/' && id[i] != '\\' && id[i] != ':'
  }

  /** The records and the answer after `Start`. */
  function AfterStart(j: Records, id: string, scope: string, fault: Fault): (Records, Claim) {
    if !ValidOperationId(id) || scope == "" then (j, Refused)
    else if id in j then (j, if j[id].scope == scope then Already else Refused)
    else
      match fault
      case Sound => (j[id := Record(Started, scope)], Proceed)
      case NotWritten => (j, Refused)
      case Unreported => (j[id := Record(Started, scope)], Refused)
  }

  /** The records after `Complete` or `Fail`: only a started operation takes a terminal status. */
  function AfterFinish(j: Records, id: string, status: Status, fault: Fault): Records {
    if id in j && j[id].status.Started? && !fault.NotWritten? then j[id := j[id].(status := status)] else j
  }

  /** Later records keep every claim, its scope and its terminal status. */
  ghost predicate Preserves(j: Records, k: Records) {
    forall id :: id in j ==> id in k && k[id].scope == j[id].scope && (!j[id].status.Started? ==> k[id] == j[id])
  }

  lemma StartPreserves(j: Records, id: string, scope: string, fault: Fault)
    ensures var (k, claim) := AfterStart(j, id, scope, fault);
            && Preserves(j, k)
            && (claim.Proceed? ==> id !in j && id in k && k[id] == Record(Started, scope))
            && (claim.Already? ==> k == j && id in j && j[id].scope == scope)
            && (forall x :: x in k ==> x in j || x == id)
  {
  }

  lemma FinishPreserves(j: Records, id: string, status: Status, fault: Fault)
    ensures Preserves(j, AfterFinish(j, id, status, fault))
    ensures AfterFinish(j, id, status, fault).Keys == j.Keys
    ensures forall x :: x in j && x != id ==> AfterFinish(j, id, status, fault)[x] == j[x]
  {
    if id in j {
      assert j.Keys + {id} == j.Keys;
    }
  }

  class OperationJournal {
    var records: Records

    constructor ()
      ensures records == map[]
    {
      records := map[];
    }

    /** A record that cannot be read is reported as missing. */
    method Lookup(id: string, readable: bool) returns (r: Option<Record>)
      ensures r == if readable && id in records then Some(records[id]) else None
    {
      return if readable && id in records then Some(records[id]) else None;
    }

    /** An atomic claim: `started` is true for one caller of an ID at most, ever. */
    method Start(id: string, scope: string, fault: Fault) returns (r: Result<bool, ()>)
      modifies this
      ensures (records, if r.Err? then Refused else if r.value then Proceed else Already) == AfterStart(old(records), id, scope, fault)
      ensures Preserves(old(records), records)
    {
      if !ValidOperationId(id) || scope == "" {
        return Err(());
      }
      if id in records {
        if records[id].scope != scope {
          return Err(());
        }
        return Ok(false);
      }
      if fault.NotWritten? {
        return Err(());
      }
      records := records[id := Record(Started, scope)];
      if fault.Unreported? {
        return Err(());
      }
      return Ok(true);
    }

    /** `Complete` and `Fail` share the write-once transition. */
    method Finish(id: string, status: Status, fault: Fault) returns (ok: bool)
      modifies this
      ensures records == AfterFinish(old(records), id, status, fault)
      ensures ok <==> id in old(records) && old(records)[id].status.Started? && fault.Sound?
      ensures Preserves(old(records), records)
    {
      if id !in records {
        return false;
      }
      if !records[id].status.Started? {
        return false;
      }
      if fault.NotWritten? {
        return false;
      }
      records := records[id := records[id].(status := status)];
      return fault.Sound?;
    }
  }

  /** What a caller learns from a claim. */
  datatype Verdict = Go | AlreadyDone | FailedBefore | Indeterminate | Error

  /** `claimOperation`: go on only with the claim; otherwise report what the record says. */
  method ClaimOperation(journal: OperationJournal, id: string, scope: string, fault: Fault, readable: bool) returns (v: Verdict)
    modifies journal
    ensures journal.records == AfterStart(old(journal.records), id, scope, fault).0
    ensures v.Go? <==> AfterStart(old(journal.records), id, scope, fault).1.Proceed?
    ensures v.Go? ==> id !in old(journal.records)
    ensures AfterStart(old(journal.records), id, scope, fault).1.Already? ==> (v.Error? <==> !readable)
    ensures v.AlreadyDone? ==> id in old(journal.records) && old(journal.records)[id] == Record(Completed, scope)
    ensures v.FailedBefore? ==> id in old(journal.records) && old(journal.records)[id] == Record(Failed, scope)
    ensures v.Indeterminate? ==> id in old(journal.records) && old(journal.records)[id] == Record(Started, scope)
  {
    var started := journal.Start(id, scope, fault);
    if started.Err? {
      return Error;
    }
    if started.value {
      return Go;
    }
    var record := journal.Lookup(id, readable);
    if record.None? {
      return Error;
    }
    match record.value.status
    case Completed => return AlreadyDone;
    case Failed => return FailedBefore;
    case Started => return Indeterminate;
  }

  const MAX_TOKEN := 64

  predicate ValidToken(token: string) {
    |token| <= MAX_TOKEN && ValidOperationId(token)
  }

  /** The operation of one recovery attempt; `derive` is the hash of the token. */
  function RecoveryId(original: string, token: string, derive: string -> string): string {
    original + "-recovery-" + derive(token)
  }

  /** A recovery may start only for a recorded, unfinished operation on the same digest and target. */
  predicate Recoverable(j: Records, original: string, scope: string) {
    original in j && j[original].scope == scope && !j[original].status.Completed?
  }

  /** `claimRecovery`: never goes on once the original is completed. */
  method ClaimRecovery(journal: OperationJournal, original: string, scope: string, token: string, derive: string -> string,
                       fault: Fault, originalReadable: bool, readable: bool)
    returns (v: Verdict)
    modifies journal
    ensures v.Go? <==> ValidToken(token) && originalReadable && Recoverable(old(journal.records), original, scope)
                       && AfterStart(old(journal.records), RecoveryId(original, token, derive), scope, fault).1.Proceed?
    ensures ValidToken(token) && originalReadable && Recoverable(old(journal.records), original, scope)
            ==> journal.records == AfterStart(old(journal.records), RecoveryId(original, token, derive), scope, fault).0
    ensures !(ValidToken(token) && originalReadable && Recoverable(old(journal.records), original, scope)) ==> journal.records == old(journal.records)
    ensures ValidToken(token) && originalReadable && original in old(journal.records) && old(journal.records)[original] == Record(Completed, scope)
            ==> v.AlreadyDone?
  {
    if token == "" || |token| > MAX_TOKEN || !ValidOperationId(token) {
      return Error;
    }
    var record := journal.Lookup(original, originalReadable);
    if record.None? {
      return Error;
    }
    if record.value.scope != scope {
      return Error;
    }
    if record.value.status.Completed? {
      return AlreadyDone;
    }
    v := ClaimOperation(journal, RecoveryId(original, token, derive), scope, fault, readable);
  }

  /** Printable ASCII but for the slash, the backslash and the colon, by code. */
  lemma ValidIdMeans(id: string)
    ensures ValidOperationId(id) <==>
            |id| > 0 && forall i :: 0 <= i < |id| ==> 32 <= id[i] as int <= 126 && id[i] as int !in {47, 92, 58}
  {
    forall i | 0 <= i < |id|
      ensures (' ' <= id[i] <= '~' && id[i] != '/' && id[i] != '\\' && id[i] != ':') <==> (32 <= id[i] as int <= 126 && id[i] as int !in {47, 92, 58})
    {
      assert '/' as int == 47 && '\\' as int == 92 && ':' as int == 58 && ' ' as int == 32 && '~' as int == 126;
      assert id[i] as int == 47 ==> id[i] == '/';
      assert id[i] as int == 92 ==> id[i] == '\\';
      assert id[i] as int == 58 ==> id[i] == ':';
    }
  }

  /** A recovery's operation is named after the original; recoveries of one original are told apart by their tokens' hashes. */
  lemma RecoveryIdMeans(original: string, a: string, b: string, derive: string -> string)
    ensures original < RecoveryId(original, a, derive) && RecoveryId(original, a, derive)[|original|..] == "-recovery-" + derive(a)
    ensures RecoveryId(original, a, derive) == RecoveryId(original, b, derive) <==> derive(a) == derive(b)
  {
    var n := |original| + 10;
    assert RecoveryId(original, a, derive)[n..] == derive(a) && RecoveryId(original, b, derive)[n..] == derive(b);
  }
}
