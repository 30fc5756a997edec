/**
 * `ArucoTracker`: the register of tracked markers, updated in place once per
 * frame. Each method is proved to leave the register in the state that the
 * value-level definitions of module TrackerSpec describe.
 */
module Tracker {
  import opened Wrappers
  import opened Strings
  import opened Aruco
  import opened TrackerSpec

  function Reversed<T>(s: seq<T>): (r: seq<T>)
    ensures |r| == |s| && forall k :: 0 <= k < |s| ==> r[k] == s[|s| - 1 - k]
  {
    if s == [] then [] else Reversed(s[1..]) + [s[0]]
  }

  class ArucoTracker {
    /** `self._register`: UID to entry. */
    var register: Register
    /** `self.MAX_FRAMES_MISSING` */
    const maxFramesMissing: int
    /** `self.MAX_DISTANCE` */
    const maxDistance: int

    ghost predicate Valid()
      reads this
    {
      WellFormed(register) && Bounded(register, maxFramesMissing)
    }

    constructor (maxFramesMissing: int := 5, maxDistance: int := 5000)
      ensures Valid() && register == map[]
      ensures this.maxFramesMissing == maxFramesMissing && this.maxDistance == maxDistance
    {
      register := map[];
      this.maxFramesMissing := maxFramesMissing;
      this.maxDistance := maxDistance;
    }

    /** `delete(uid)`: removes the entry; a missing UID is ignored. */
    method Delete(uid: string)
      modifies this
      ensures register == old(register) - {uid}
    {
      if uid in register {
        register := register - {uid};
      }
    }

    /** `registered_uids(ascending)`: the registered UIDs, sorted. */
    method RegisteredUids(ascending: bool := true) returns (uids: seq<string>)
      ensures ascending ==> uids == SortedOf(register.Keys)
      ensures !ascending ==> uids == Reversed(SortedOf(register.Keys))
    {
      var rest := register.Keys;
      var sorted: seq<string> := [];
      while rest != {}
        invariant rest <= register.Keys
        invariant StrictlySorted(sorted)
        invariant forall y :: y in sorted <==> y in register && y !in rest
        decreases rest
      {
        var k :| k in rest;
        sorted := InsertSorted(sorted, k);
        rest := rest - {k};
      }
      SortedUnique(sorted, SortedOf(register.Keys));
      uids := if ascending then sorted else Reversed(sorted);
    }

    /** `_generate_new_uid(aruco)` */
    method GenerateNewUid(aruco: Observation) returns (uid: string)
      requires WellFormed(register)
      ensures NewUid(SortedOf(register.Keys), aruco) == Some(uid)
    {
      var uids := RegisteredUids();
      uids := Containing(uids, ClassOf(aruco));
      var nonce: int;
      if |uids| > 0 {
        NewUidDefined(register, aruco);
        nonce := ParseInt(Split(uids[|uids| - 1], '#')[1]).value + 1;
      } else {
        nonce := 0;
      }
      uid := Uid(aruco.dictionary, aruco.id, nonce);
    }

    /** Lines 86-92: the candidate pairs, observation by observation. */
    method CollectCandidates(arucos: seq<Observation>, uids: seq<string>, dist: Distance) returns (distances: seq<Candidate>)
      requires forall u :: u in uids ==> u in register
      ensures distances == Candidates(arucos, |arucos|, uids, register, dist)
    {
      distances := [];
      var i := 0;
      while i < |arucos|
        invariant 0 <= i <= |arucos|
        invariant distances == Candidates(arucos, i, uids, register, dist)
      {
        var row := CollectRow(arucos, i, uids, dist);
        distances := distances + row;
        i := i + 1;
      }
    }

    /** Lines 88-92: the candidates of observation `i`. */
    method CollectRow(arucos: seq<Observation>, i: nat, uids: seq<string>, dist: Distance) returns (row: seq<Candidate>)
      requires i < |arucos|
      requires forall u :: u in uids ==> u in register
      ensures row == Row(arucos, i, ClassOf(arucos[i]), uids, |uids|, register, dist)
    {
      row := [];
      var j := 0;
      while j < |uids|
        invariant 0 <= j <= |uids|
        invariant row == Row(arucos, i, ClassOf(arucos[i]), uids, j, register, dist)
      {
        var uid := uids[j];
        assert uid in uids;
        if BaseOf(uid) == ClassOf(arucos[i]) {
          row := row + [Candidate(dist(arucos[i], register[uid].aruco), i, uid)];
        }
        j := j + 1;
      }
    }

    /** Lines 96-111: the walk over the sorted candidates. */
    method CommitMatches(arucos: seq<Observation>, sorted: seq<Candidate>)
      returns (pending: seq<nat>, updatedUids: seq<string>, matched: seq<(string, Observation)>)
      requires forall c :: c in sorted ==> c.uid in register && c.index < |arucos|
      modifies this
      ensures register == ApplyMatches(old(register), arucos, Walk(sorted, maxDistance as real))
      ensures pending == Pending(|arucos|, Walk(sorted, maxDistance as real))
      ensures updatedUids == MatchedUids(Walk(sorted, maxDistance as real))
      ensures matched == MatchUpdates(arucos, Walk(sorted, maxDistance as real))
    {
      ghost var reg0 := register;
      ghost var m: seq<Candidate> := [];
      pending := Range(|arucos|);
      PendingNone(|arucos|);
      updatedUids := [];
      matched := [];
      var k := 0;
      while k < |sorted|
        invariant 0 <= k <= |sorted|
        invariant m == Walk(sorted[..k], maxDistance as real)
        invariant register == ApplyMatches(reg0, arucos, m)
        invariant pending == Pending(|arucos|, m)
        invariant updatedUids == MatchedUids(m)
        invariant matched == MatchUpdates(arucos, m)
      {
        var c := sorted[k];
        VisitCandidate(reg0, arucos, sorted, k, maxDistance as real);
        if c.index in pending && c.uid !in updatedUids && c.distance <= maxDistance as real {
          register := register[c.uid := Entry(0, arucos[c.index])];
          pending := RemoveFirst(pending, c.index);
          updatedUids := updatedUids + [c.uid];
          matched := matched + [(c.uid, arucos[c.index])];
          m := m + [c];
        }
        k := k + 1;
      }
      assert sorted[..k] == sorted;
    }

    /** Lines 75-80 and 113-117: registers each pending observation under a new UID. */
    method RegisterObservations(arucos: seq<Observation>, pending: seq<nat>) returns (added: seq<(string, Observation)>)
      requires WellFormed(register)
      requires forall j :: 0 <= j < |pending| ==> pending[j] < |arucos|
      modifies this
      ensures (register, added) == RegisterNew(old(register), arucos, pending)
    {
      ghost var reg0 := register;
      added := [];
      var k := 0;
      while k < |pending|
        invariant 0 <= k <= |pending|
        invariant (register, added) == RegisterNew(reg0, arucos, pending[..k])
        invariant WellFormed(register)
      {
        assert pending[..k + 1][..k] == pending[..k] && pending[..k + 1][k] == pending[k];
        var aruco := arucos[pending[k]];
        var uid := GenerateNewUid(aruco);
        assert uid == GeneratedUid(register, aruco);
        RegisterOneWellFormed(register, aruco);
        register := register[uid := Entry(0, aruco)];
        added := added + [(uid, aruco)];
        k := k + 1;
      }
      assert pending[..k] == pending;
    }

    /** Lines 64-69 and 119-125: ages every UID not in `exempt`. */
    method AgeRegister(exempt: seq<string>)
      modifies this
      ensures register == AgeAll(old(register), exempt, maxFramesMissing)
    {
      ghost var reg0 := register;
      var uids := RegisteredUids();
      StrictlySortedDistinct(uids);
      var k := 0;
      while k < |uids|
        invariant 0 <= k <= |uids|
        invariant register == AgeKeys(reg0, exempt, uids[..k], maxFramesMissing)
      {
        var uid := uids[k];
        AgeKeysVisit(reg0, exempt, uids, k, maxFramesMissing);
        if uid !in exempt {
          var entry := register[uid];
          register := register[uid := entry.(missingFrames := entry.missingFrames + 1)];
          if entry.missingFrames + 1 > maxFramesMissing {
            // `self.delete(uid)`, inlined; the key is present here
            register := register - {uid};
          }
        }
        k := k + 1;
      }
      assert uids[..k] == uids;
      AgeKeysAged(reg0, exempt, uids, maxFramesMissing);
      AgedComplete(reg0, exempt, uids, maxFramesMissing);
    }

    /** `update(arucos)`: one frame. */
    method Update(arucos: seq<Observation>, dist: Distance) returns (updates: seq<(string, Observation)>)
      requires Valid()
      modifies this
      ensures Valid()
      ensures (register, updates) == Step(old(register), arucos, dist, maxFramesMissing, maxDistance as real)
    {
      StepKeeps(register, arucos, dist, maxFramesMissing, maxDistance as real);
      updates := [];
      if |arucos| == 0 {
        AgeRegister([]);
      } else if |register| == 0 {
        updates := RegisterObservations(arucos, Range(|arucos|));
      } else {
        StepMatching(register, arucos, dist, maxFramesMissing, maxDistance as real);
        var uids := RegisteredUids();
        var distances := CollectCandidates(arucos, uids, dist);
        distances := SortByDistance(distances);
        var pending, updatedUids, matched := CommitMatches(arucos, distances);
        var added := RegisterObservations(arucos, pending);
        updates := matched + added;
        AgeRegister(updatedUids);
      }
    }
  }
}
