/** The choice of the next lease for a worker: platform, capabilities, priority, locality, age. */
module Placement {
  import opened Sorting
  import opened Strings

  datatype Worker = Worker(platform: string, capabilities: seq<string>, cachedContent: seq<string>)

  datatype Candidate = Candidate(
    requiredPlatform: string,
    requiredCapabilities: seq<string>,
    preferredContent: string,
    priority: int)

  /** What `Worker` demands of the lists a binary search will look into. */
  ghost predicate WellFormed(w: Worker) {
    SortedBy(Less, w.capabilities) && SortedBy(Less, w.cachedContent)
  }

  /** Membership by binary search: the least index whose value is not below `wanted`. */
  method ContainsSorted(values: seq<string>, wanted: string) returns (found: bool)
    requires SortedBy(Less, values)
    ensures found <==> wanted in values
  {
    LessIsStrictOrder();
    var lo, hi := 0, |values|;
    while lo < hi
      invariant 0 <= lo <= hi <= |values|
      invariant forall k :: 0 <= k < lo ==> Less(values[k], wanted)
      invariant forall k :: hi <= k < |values| ==> !Less(values[k], wanted)
    {
      var mid := (lo + hi) / 2;
      if Less(values[mid], wanted) {
        forall k | 0 <= k <= mid ensures Less(values[k], wanted) {
          assert k < mid ==> !Less(values[mid], values[k]);
        }
        lo := mid + 1;
      } else {
        forall k | mid <= k < |values| ensures !Less(values[k], wanted) {
          assert mid < k ==> !Less(values[k], values[mid]);
        }
        hi := mid;
      }
    }
    found := lo < |values| && values[lo] == wanted;
    if wanted in values {
      var k :| 0 <= k < |values| && values[k] == wanted;
      LessConnected(values[lo], wanted);
    }
  }

  /** The worker has the platform and every capability the candidate asks for. */
  ghost predicate IsEligible(w: Worker, c: Candidate) {
    && (c.requiredPlatform == "" || c.requiredPlatform == w.platform)
    && forall k :: k in c.requiredCapabilities ==> k in w.capabilities
  }

  ghost predicate Cached(w: Worker, c: Candidate) {
    c.preferredContent != "" && c.preferredContent in w.cachedContent
  }

  /** Strictly preferred: a higher priority, or equal priority and only this one cached. */
  ghost predicate Preferred(w: Worker, a: Candidate, b: Candidate) {
    a.priority > b.priority || (a.priority == b.priority && Cached(w, a) && !Cached(w, b))
  }

  method Eligible(w: Worker, c: Candidate) returns (ok: bool)
    requires WellFormed(w)
    ensures ok == IsEligible(w, c)
  {
    if c.requiredPlatform != "" && c.requiredPlatform != w.platform {
      return false;
    }
    for i := 0 to |c.requiredCapabilities|
      invariant forall k :: 0 <= k < i ==> c.requiredCapabilities[k] in w.capabilities
    {
      var has := ContainsSorted(w.capabilities, c.requiredCapabilities[i]);
      if !has {
        return false;
      }
    }
    return true;
  }

  method BetterCandidate(w: Worker, candidate: Candidate, current: Candidate) returns (better: bool)
    requires WellFormed(w)
    ensures better == Preferred(w, candidate, current)
  {
    if candidate.priority != current.priority {
      return candidate.priority > current.priority;
    }
    var a := ContainsSorted(w.cachedContent, candidate.preferredContent);
    var b := ContainsSorted(w.cachedContent, current.preferredContent);
    return candidate.preferredContent != "" && a && !(current.preferredContent != "" && b);
  }

  /** Index `i` is the choice: eligible, nothing eligible is preferred to it, earliest among equals. */
  ghost predicate IsChoice(w: Worker, pending: seq<Candidate>, i: int) {
    && 0 <= i < |pending| && IsEligible(w, pending[i])
    && (forall j :: 0 <= j < |pending| && IsEligible(w, pending[j]) ==> !Preferred(w, pending[j], pending[i]))
    && (forall j :: 0 <= j < i && IsEligible(w, pending[j]) ==> Preferred(w, pending[i], pending[j]))
  }

  /** There is at most one choice, so assignment is a function of worker and queue. */
  lemma ChoiceIsUnique(w: Worker, pending: seq<Candidate>, i: int, j: int)
    requires IsChoice(w, pending, i) && IsChoice(w, pending, j)
    ensures i == j
  {
  }

  method Select(w: Worker, pending: seq<Candidate>) returns (index: nat, ok: bool)
    requires WellFormed(w)
    ensures ok ==> IsChoice(w, pending, index)
    ensures !ok ==> index == 0 && forall j :: 0 <= j < |pending| ==> !IsEligible(w, pending[j])
  {
    var best := -1;
    for i := 0 to |pending|
      invariant -1 <= best < i
      invariant best == -1 ==> forall j :: 0 <= j < i ==> !IsEligible(w, pending[j])
      invariant best >= 0 ==> IsChoice(w, pending[..i], best)
    {
      var eligible := Eligible(w, pending[i]);
      if eligible {
        if best < 0 {
          best := i;
        } else {
          var better := BetterCandidate(w, pending[i], pending[best]);
          if better {
            best := i;
          }
        }
      }
      assert pending[..i + 1][..i] == pending[..i];
      assert forall j :: 0 <= j < i ==> pending[..i + 1][j] == pending[..i][j];
    }
    assert pending[..|pending|] == pending;
    if best < 0 {
      return 0, false;
    }
    return best, true;
  }
}
