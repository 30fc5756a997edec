/**
 * The three cases of one `ArucoTracker.update` call: what ends up in the
 * register and what is returned, stated about `Step` of module TrackerSpec.
 */
module TrackerCalls {
  import opened Wrappers
  import opened Strings
  import opened Aruco
  import opened TrackerSpec
  import opened TrackerProperties

  /** The UIDs named in a list of `(uid, aruco)` updates. */
  function UpdatedUids(us: seq<(string, Observation)>): set<string> {
    set k | 0 <= k < |us| :: us[k].0
  }

  // ---------------------------------------------------------------------
  // Registration of new observations (lines 75-80 and 113-117)

  /** The register after storing each `(uid, aruco)` of `us`, in order, with `missing_frames` 0. */
  function Stored(reg: Register, us: seq<(string, Observation)>): Register {
    if us == [] then reg
    else Stored(reg, us[..|us| - 1])[us[|us| - 1].0 := Entry(0, us[|us| - 1].1)]
  }

  /**
   * Registration returns the pending observations in order, and leaves the
   * register its returned pairs describe.
   */
  lemma {:induction false} RegisterNewStored(reg: Register, arucos: seq<Observation>, pending: seq<nat>)
    requires WellFormed(reg)
    requires forall k :: 0 <= k < |pending| ==> pending[k] < |arucos|
    ensures forall k :: 0 <= k < |pending| ==> RegisterNew(reg, arucos, pending).1[k].1 == arucos[pending[k]]
    ensures RegisterNew(reg, arucos, pending).0 == Stored(reg, RegisterNew(reg, arucos, pending).1)
  {
    if pending != [] {
      var init := pending[..|pending| - 1];
      RegisterNewLast(reg, arucos, pending);
      RegisterNewStored(reg, arucos, init);
      var prev := RegisterNew(reg, arucos, init);
      var o := arucos[pending[|pending| - 1]];
      var uid := GeneratedUid(prev.0, o);
      var r := RegisterNew(reg, arucos, pending);
      assert r.1 == prev.1 + [(uid, o)];
      assert r.1[..|r.1| - 1] == prev.1;
      assert Stored(reg, r.1) == Stored(reg, prev.1)[uid := Entry(0, o)];
      forall k | 0 <= k < |pending| ensures r.1[k].1 == arucos[pending[k]] {
        if k < |init| {
          assert r.1[k] == prev.1[k] && init[k] == pending[k];
        }
      }
    }
  }

  /** One step of registration: the last pending observation is stored under the UID the earlier ones leave. */
  lemma RegisterNewLast(reg: Register, arucos: seq<Observation>, pending: seq<nat>)
    requires WellFormed(reg) && pending != []
    requires forall k :: 0 <= k < |pending| ==> pending[k] < |arucos|
    ensures var prev := RegisterNew(reg, arucos, pending[..|pending| - 1]);
      var o := arucos[pending[|pending| - 1]];
      RegisterNew(reg, arucos, pending) == (prev.0[GeneratedUid(prev.0, o) := Entry(0, o)], prev.1 + [(GeneratedUid(prev.0, o), o)])
  {
  }

  /**
   * Each registration's UID is generated from the register as the earlier
   * registrations of the same call have left it.
   */
  lemma RegisterNewSees(reg: Register, arucos: seq<Observation>, pending: seq<nat>)
    requires WellFormed(reg)
    requires forall k :: 0 <= k < |pending| ==> pending[k] < |arucos|
    ensures forall k :: 0 <= k < |pending| ==>
      RegisterNew(reg, arucos, pending).1[k].0 == GeneratedUid(RegisterNew(reg, arucos, pending[..k]).0, arucos[pending[k]])
  {
    forall k | 0 <= k < |pending|
      ensures RegisterNew(reg, arucos, pending).1[k].0 == GeneratedUid(RegisterNew(reg, arucos, pending[..k]).0, arucos[pending[k]])
    {
      RegisterNewSeesOne(reg, arucos, pending, k);
    }
  }

  /** The registration at position `k` sees the register the first `k` registrations leave. */
  lemma RegisterNewSeesOne(reg: Register, arucos: seq<Observation>, pending: seq<nat>, k: nat)
    requires WellFormed(reg) && k < |pending|
    requires forall j :: 0 <= j < |pending| ==> pending[j] < |arucos|
    ensures RegisterNew(reg, arucos, pending).1[k].0 == GeneratedUid(RegisterNew(reg, arucos, pending[..k]).0, arucos[pending[k]])
  {
    var upto := pending[..k + 1];
    assert upto[..k] == pending[..k] && upto[k] == pending[k];
    RegisterNewLast(reg, arucos, upto);
    RegisterNewPrefix(reg, arucos, pending, k + 1);
    assert RegisterNew(reg, arucos, pending).1[k] == RegisterNew(reg, arucos, upto).1[k];
  }

  /** Registering a prefix of the pending list returns a prefix of the updates. */
  lemma {:induction false} RegisterNewPrefix(reg: Register, arucos: seq<Observation>, pending: seq<nat>, k: nat)
    requires WellFormed(reg) && k <= |pending|
    requires forall j :: 0 <= j < |pending| ==> pending[j] < |arucos|
    ensures RegisterNew(reg, arucos, pending[..k]).1 == RegisterNew(reg, arucos, pending).1[..k]
    decreases |pending|
  {
    if k < |pending| {
      var init := pending[..|pending| - 1];
      var whole := RegisterNew(reg, arucos, pending).1;
      var a := RegisterNew(reg, arucos, init).1;
      assert a == whole[..|pending| - 1] by {
        RegisterNewInit(reg, arucos, pending);
      }
      assert init[..k] == pending[..k];
      calc {
        RegisterNew(reg, arucos, pending[..k]).1;
        RegisterNew(reg, arucos, init[..k]).1;
        { RegisterNewPrefix(reg, arucos, init, k); }
        a[..k];
        whole[..k];
      }
    } else {
      assert pending[..k] == pending;
    }
  }

  /** Dropping the last pending observation drops the last update. */
  lemma RegisterNewInit(reg: Register, arucos: seq<Observation>, pending: seq<nat>)
    requires WellFormed(reg) && pending != []
    requires forall k :: 0 <= k < |pending| ==> pending[k] < |arucos|
    ensures RegisterNew(reg, arucos, pending[..|pending| - 1]).1 == RegisterNew(reg, arucos, pending).1[..|pending| - 1]
  {
    RegisterNewLast(reg, arucos, pending);
  }

  lemma UpdatedUidsSnoc(us: seq<(string, Observation)>, x: (string, Observation))
    ensures UpdatedUids(us + [x]) == UpdatedUids(us) + {x.0}
  {
    var s := us + [x];
    forall u | u in UpdatedUids(s) ensures u in UpdatedUids(us) + {x.0} {
      var k :| 0 <= k < |s| && s[k].0 == u;
      if k < |us| {
        assert us[k] == s[k];
      }
    }
    forall u | u in UpdatedUids(us) ensures u in UpdatedUids(s) {
      var k :| 0 <= k < |us| && us[k].0 == u;
      assert s[k] == us[k];
    }
    assert s[|us|] == x;
  }

  /**
   * Storing keeps the old keys and adds the stored UIDs; every stored UID
   * holds a fresh entry; every other key is untouched.
   */
  lemma {:induction false} StoredKeys(reg: Register, us: seq<(string, Observation)>)
    ensures Stored(reg, us).Keys == reg.Keys + UpdatedUids(us)
    ensures forall u :: u in UpdatedUids(us) ==> Stored(reg, us)[u].missingFrames == 0
    ensures forall u :: u in reg && u !in UpdatedUids(us) ==> Stored(reg, us)[u] == reg[u]
  {
    if us != [] {
      var init := us[..|us| - 1];
      var x := us[|us| - 1];
      StoredKeys(reg, init);
      assert us == init + [x];
      UpdatedUidsSnoc(init, x);
    }
  }

  /** A UID holds the observation of its last store. */
  lemma {:induction false} StoredLast(reg: Register, us: seq<(string, Observation)>)
    ensures forall k :: 0 <= k < |us| && us[k].0 !in UpdatedUids(us[k + 1..]) ==>
      us[k].0 in Stored(reg, us) && Stored(reg, us)[us[k].0] == Entry(0, us[k].1)
  {
    if us != [] {
      var init := us[..|us| - 1];
      var x := us[|us| - 1];
      StoredLast(reg, init);
      forall k | 0 <= k < |us| && us[k].0 !in UpdatedUids(us[k + 1..])
        ensures us[k].0 in Stored(reg, us) && Stored(reg, us)[us[k].0] == Entry(0, us[k].1)
      {
        if k < |init| {
          assert us[k + 1..] == init[k + 1..] + [x];
          UpdatedUidsSnoc(init[k + 1..], x);
          assert init[k] == us[k];
        }
      }
    }
  }

  // ---------------------------------------------------------------------
  // Committed matches (lines 100-111)

  /** Dropping the last committed pair keeps the matching one-to-one; that pair shares nothing with the rest. */
  lemma OneToOneInit(m: seq<Candidate>)
    requires OneToOne(m) && |m| > 0
    ensures OneToOne(m[..|m| - 1])
    ensures forall d :: d in m[..|m| - 1] ==> d.uid != m[|m| - 1].uid && d.index != m[|m| - 1].index
    ensures MatchedUids(m) == MatchedUids(m[..|m| - 1]) + [m[|m| - 1].uid]
  {
    var init := m[..|m| - 1];
    forall a, b | 0 <= a < b < |init| ensures init[a].index != init[b].index && init[a].uid != init[b].uid {
      assert init[a] == m[a] && init[b] == m[b];
    }
    forall d | d in init ensures d.uid != m[|m| - 1].uid && d.index != m[|m| - 1].index {
      var a :| 0 <= a < |init| && init[a] == d;
      assert m[a] == d;
    }
  }

  /** With each UID committed once, every committed UID holds its observation with count 0. */
  lemma {:induction false} ApplyMatchesStores(reg: Register, arucos: seq<Observation>, m: seq<Candidate>)
    requires forall c :: c in m ==> c.uid in reg && c.index < |arucos|
    requires OneToOne(m)
    ensures forall c :: c in m ==> ApplyMatches(reg, arucos, m)[c.uid] == Entry(0, arucos[c.index])
    ensures forall u :: u in reg && u !in MatchedUids(m) ==> ApplyMatches(reg, arucos, m)[u] == reg[u]
  {
    if m != [] {
      var init := m[..|m| - 1];
      var c := m[|m| - 1];
      assert forall d :: d in init ==> d in m;
      OneToOneInit(m);
      ApplyMatchesStores(reg, arucos, init);
      assert m == init + [c];
    }
  }

  // ---------------------------------------------------------------------
  // One call

  /** The pairs the walk commits in the third case of `update`. */
  ghost function Matches(reg: Register, arucos: seq<Observation>, dist: Distance, maxDistance: real): seq<Candidate> {
    Walk(SortByDistance(Candidates(arucos, |arucos|, SortedOf(reg.Keys), reg, dist)), maxDistance)
  }

  /** The input index behind each returned `(uid, aruco)` pair, in return order. */
  ghost function Sources(reg: Register, arucos: seq<Observation>, dist: Distance, maxDistance: real): seq<nat> {
    if |arucos| == 0 then []
    else if |reg| == 0 then Range(|arucos|)
    else
      var m := Matches(reg, arucos, dist, maxDistance);
      MatchedIndices(m) + Pending(|arucos|, m)
  }

  /**
   * Case A (lines 62-69): with no observation, every entry's count rises by
   * one, entries over the limit are dropped, nothing else changes, and
   * nothing is returned.
   */
  lemma StepEmptyFrame(reg: Register, dist: Distance, maxFramesMissing: int, maxDistance: real)
    requires WellFormed(reg)
    ensures Step(reg, [], dist, maxFramesMissing, maxDistance).1 == []
    ensures forall u :: u in Step(reg, [], dist, maxFramesMissing, maxDistance).0 <==>
      u in reg && reg[u].missingFrames + 1 <= maxFramesMissing
    ensures forall u :: u in Step(reg, [], dist, maxFramesMissing, maxDistance).0 ==>
      Step(reg, [], dist, maxFramesMissing, maxDistance).0[u] == reg[u].(missingFrames := reg[u].missingFrames + 1)
  {
  }

  /**
   * Case B_1 (lines 73-80): on an empty register every observation is
   * registered, in input order, each under the UID generated from the
   * register the earlier ones left, with `missing_frames` 0; there is no
   * ageing in this case.
   */
  lemma StepEmptyRegister(arucos: seq<Observation>, dist: Distance, maxFramesMissing: int, maxDistance: real)
    requires |arucos| > 0
    ensures var r := Step(map[], arucos, dist, maxFramesMissing, maxDistance);
      && |r.1| == |arucos|
      && (forall k :: 0 <= k < |arucos| ==> r.1[k].1 == arucos[k])
      && (forall k :: 0 <= k < |arucos| ==>
            r.1[k].0 == GeneratedUid(RegisterNew(map[], arucos, Range(k)).0, arucos[k]))
      && r.0.Keys == UpdatedUids(r.1)
      && (forall u :: u in r.0 ==> r.0[u].missingFrames == 0)
      && (forall k :: 0 <= k < |arucos| && r.1[k].0 !in UpdatedUids(r.1[k + 1..]) ==> r.0[r.1[k].0] == Entry(0, arucos[k]))
  {
    StepEmptyRegisterIs(arucos, dist, maxFramesMissing, maxDistance);
    RegisterAllOrder(arucos);
    RegisterAllStores(arucos);
  }

  lemma StepEmptyRegisterIs(arucos: seq<Observation>, dist: Distance, maxFramesMissing: int, maxDistance: real)
    requires |arucos| > 0
    ensures Step(map[], arucos, dist, maxFramesMissing, maxDistance) == RegisterNew(map[], arucos, Range(|arucos|))
  {
  }

  /** Registering every observation of the frame on an empty register: the order. */
  lemma RegisterAllOrder(arucos: seq<Observation>)
    ensures |RegisterNew(map[], arucos, Range(|arucos|)).1| == |arucos|
    ensures forall k :: 0 <= k < |arucos| ==> RegisterNew(map[], arucos, Range(|arucos|)).1[k].1 == arucos[k]
    ensures forall k :: 0 <= k < |arucos| ==>
      RegisterNew(map[], arucos, Range(|arucos|)).1[k].0 == GeneratedUid(RegisterNew(map[], arucos, Range(k)).0, arucos[k])
  {
    var pending := Range(|arucos|);
    RegisterNewStored(map[], arucos, pending);
    RegisterNewSees(map[], arucos, pending);
    forall k | 0 <= k < |arucos| ensures pending[..k] == Range(k) {
      assert |pending[..k]| == k;
    }
  }

  /** Registering every observation of the frame on an empty register: the register left. */
  lemma RegisterAllStores(arucos: seq<Observation>)
    ensures var r := RegisterNew(map[], arucos, Range(|arucos|));
      && r.0.Keys == UpdatedUids(r.1)
      && (forall u :: u in r.0 ==> r.0[u].missingFrames == 0)
      && (forall k :: 0 <= k < |r.1| && r.1[k].0 !in UpdatedUids(r.1[k + 1..]) ==> r.0[r.1[k].0] == Entry(0, r.1[k].1))
  {
    var pending := Range(|arucos|);
    RegisterNewStored(map[], arucos, pending);
    var r := RegisterNew(map[], arucos, pending);
    StoredKeys(map[], r.1);
    StoredLast(map[], r.1);
  }

  /**
   * Case B_2, the matching (lines 84-111): every committed pair is a
   * candidate (same class, its distance the distance of the two
   * observations, at most `MAX_DISTANCE`), no observation or UID is
   * committed twice, and every candidate within range is committed or
   * blocked by a committed pair no further apart.
   */
  lemma StepMatchesAdmissible(reg: Register, arucos: seq<Observation>, dist: Distance, maxDistance: real)
    requires WellFormed(reg)
    ensures forall c :: c in Matches(reg, arucos, dist, maxDistance) ==>
      && c.index < |arucos| && c.uid in reg
      && SameClass(c.uid, arucos[c.index])
      && c.distance == dist(arucos[c.index], reg[c.uid].aruco)
      && c.distance <= maxDistance
    ensures OneToOne(Matches(reg, arucos, dist, maxDistance))
    ensures forall c :: c in Candidates(arucos, |arucos|, SortedOf(reg.Keys), reg, dist) && c.distance <= maxDistance ==>
      Blocked(c, Matches(reg, arucos, dist, maxDistance))
  {
    var cs := Candidates(arucos, |arucos|, SortedOf(reg.Keys), reg, dist);
    CandidatesSameClass(arucos, |arucos|, SortedOf(reg.Keys), reg, dist);
    CandidatesDistance(arucos, |arucos|, SortedOf(reg.Keys), reg, dist);
    var sorted := SortByDistance(cs);
    forall c ensures c in sorted <==> c in cs {
      assert c in multiset(sorted) <==> c in multiset(cs);
    }
    WalkWithin(sorted, maxDistance);
    WalkInjective(sorted, maxDistance);
    SortByDistanceSorted(cs);
    WalkMaximal(sorted, maxDistance);
  }

  /** `Pending` lists distinct indices. */
  lemma {:induction false} PendingDistinct(n: nat, m: seq<Candidate>)
    ensures Distinct(Pending(n, m))
  {
    if n > 0 {
      PendingDistinct(n - 1, m);
      var p := Pending(n - 1, m);
      assert n - 1 !in p;
    }
  }

  /** Matched indices followed by the pending ones name each input exactly once. */
  lemma CoverInputs(n: nat, m: seq<Candidate>)
    requires OneToOne(m)
    requires forall c :: c in m ==> c.index < n
    ensures Distinct(MatchedIndices(m) + Pending(n, m))
    ensures forall i :: i in MatchedIndices(m) + Pending(n, m) <==> 0 <= i < n
  {
    var a := MatchedIndices(m);
    var p := Pending(n, m);
    PendingDistinct(n, m);
    var s := a + p;
    forall i, j | 0 <= i < j < |s| ensures s[i] != s[j] {
      if j < |a| {
        assert m[i].index != m[j].index;
      } else if i >= |a| {
        assert s[i] == p[i - |a|] && s[j] == p[j - |a|];
      } else {
        assert s[i] in a && s[j] in p;
      }
    }
    forall i | i in a ensures i < n {
      var k :| 0 <= k < |a| && a[k] == i;
      assert m[k] in m;
    }
  }

  /**
   * `out` returns the inputs named by `src` in that order, and `src` names
   * every input index exactly once.
   */
  ghost predicate Covers(out: seq<(string, Observation)>, src: seq<nat>, arucos: seq<Observation>) {
    && |out| == |src|
    && (forall k :: 0 <= k < |src| ==> src[k] < |arucos| && out[k].1 == arucos[src[k]])
    && Distinct(src)
    && (forall i :: i in src <==> 0 <= i < |arucos|)
  }

  /**
   * Lines 96-117: every input observation is returned exactly once, either
   * as a match or as a new registration.
   */
  lemma StepCoversInputs(reg: Register, arucos: seq<Observation>, dist: Distance, maxFramesMissing: int, maxDistance: real)
    requires WellFormed(reg)
    ensures Covers(Step(reg, arucos, dist, maxFramesMissing, maxDistance).1, Sources(reg, arucos, dist, maxDistance), arucos)
  {
    var out := Step(reg, arucos, dist, maxFramesMissing, maxDistance).1;
    var src := Sources(reg, arucos, dist, maxDistance);
    if |arucos| == 0 {
      assert src == [] && out == [];
    } else if |reg| == 0 {
      StepEmptyRegisterIs(arucos, dist, maxFramesMissing, maxDistance);
      assert reg == map[];
      assert src == Range(|arucos|);
      assert out == RegisterNew(map[], arucos, Range(|arucos|)).1;
      RangeCovers(arucos);
    } else {
      var m := Matches(reg, arucos, dist, maxDistance);
      assert src == MatchedIndices(m) + Pending(|arucos|, m);
      StepMatching(reg, arucos, dist, maxFramesMissing, maxDistance);
      assert out == MatchUpdates(arucos, m) + RegisterNew(ApplyMatches(reg, arucos, m), arucos, Pending(|arucos|, m)).1;
      StepMatchesAdmissible(reg, arucos, dist, maxDistance);
      MatchOutputs(reg, arucos, m);
    }
  }

  lemma RangeCovers(arucos: seq<Observation>)
    ensures Covers(RegisterNew(map[], arucos, Range(|arucos|)).1, Range(|arucos|), arucos)
  {
    RegisterNewStored(map[], arucos, Range(|arucos|));
    RangeDistinct(|arucos|);
  }

  lemma RangeDistinct(n: nat)
    ensures Distinct(Range(n)) && forall i :: i in Range(n) <==> 0 <= i < n
  {
    var r := Range(n);
    forall i | 0 <= i < n ensures i in r {
      assert r[i] == i;
    }
  }

  /** The returned list of the third case, for any one-to-one matching `m` of in-range pairs. */
  lemma MatchOutputs(reg: Register, arucos: seq<Observation>, m: seq<Candidate>)
    requires WellFormed(reg) && OneToOne(m)
    requires forall c :: c in m ==> c.uid in reg && c.index < |arucos| && SameClass(c.uid, arucos[c.index])
    ensures WellFormed(ApplyMatches(reg, arucos, m))
    ensures forall p :: p in Pending(|arucos|, m) ==> p < |arucos|
    ensures Covers(MatchUpdates(arucos, m) + RegisterNew(ApplyMatches(reg, arucos, m), arucos, Pending(|arucos|, m)).1,
      MatchedIndices(m) + Pending(|arucos|, m), arucos)
  {
    ApplyMatchesWellFormed(reg, arucos, m);
    CoverInputs(|arucos|, m);
    var p := Pending(|arucos|, m);
    assert forall k :: 0 <= k < |p| ==> p[k] in p;
    var reg1 := ApplyMatches(reg, arucos, m);
    RegisterNewStored(reg1, arucos, p);
    var a := MatchedIndices(m);
    var u := MatchUpdates(arucos, m);
    forall k | 0 <= k < |a| ensures a[k] < |arucos| && u[k].1 == arucos[a[k]] {
      assert m[k] in m;
    }
    CoversConcat(u, RegisterNew(reg1, arucos, p).1, a, p, arucos);
  }

  /** Two output lists, each returning the inputs its source list names, cover the inputs together. */
  lemma CoversConcat(u: seq<(string, Observation)>, added: seq<(string, Observation)>, a: seq<nat>, p: seq<nat>, arucos: seq<Observation>)
    requires |u| == |a| && |added| == |p|
    requires forall k :: 0 <= k < |a| ==> a[k] < |arucos| && u[k].1 == arucos[a[k]]
    requires forall k :: 0 <= k < |p| ==> p[k] < |arucos| && added[k].1 == arucos[p[k]]
    requires Distinct(a + p)
    requires forall i :: i in a + p <==> 0 <= i < |arucos|
    ensures Covers(u + added, a + p, arucos)
  {
    var out, src := u + added, a + p;
    forall k | 0 <= k < |src| ensures src[k] < |arucos| && out[k].1 == arucos[src[k]] {
      if k < |a| {
        assert src[k] == a[k] && out[k] == u[k];
      } else {
        assert src[k] == p[k - |a|] && out[k] == added[k - |a|];
      }
    }
  }

  /**
   * The register at the end of the third case, for the matching `m` and the
   * set `added` of UIDs registered in the call: each matched UID holds its
   * new observation with count 0 (unless a registration of the same call
   * reused the UID); each newly registered UID ends with count 1, or is
   * gone when the limit is below 1; every other entry is aged; no other key
   * appears.
   */
  ghost predicate EndState(final: Register, reg: Register, arucos: seq<Observation>, m: seq<Candidate>, added: set<string>, maxFramesMissing: int)
    requires forall c :: c in m ==> c.index < |arucos|
  {
    && (forall c :: c in m ==>
          c.uid in final && final[c.uid].missingFrames == 0 &&
          (c.uid in added || final[c.uid] == Entry(0, arucos[c.index])))
    && (forall u :: u in added && u !in MatchedUids(m) ==>
          (u in final <==> 1 <= maxFramesMissing) && (u in final ==> final[u].missingFrames == 1))
    && (forall u :: u in reg && u !in MatchedUids(m) && u !in added ==>
          (u in final <==> reg[u].missingFrames + 1 <= maxFramesMissing) &&
          (u in final ==> final[u] == reg[u].(missingFrames := reg[u].missingFrames + 1)))
    && final.Keys <= reg.Keys + added
  }

  /** `EndState` from the facts about each stage: matched entries stored, registrations stored, ageing. */
  lemma EndStateOf(reg: Register, reg1: Register, arucos: seq<Observation>, m: seq<Candidate>, us: seq<(string, Observation)>, maxFramesMissing: int)
    requires forall c :: c in m ==> c.index < |arucos| && c.uid in reg1 && reg1[c.uid] == Entry(0, arucos[c.index])
    requires forall u :: u in reg && u !in MatchedUids(m) ==> u in reg1 && reg1[u] == reg[u]
    requires reg1.Keys == reg.Keys
    requires forall c :: c in m ==> c.uid in MatchedUids(m)
    ensures EndState(AgeAll(Stored(reg1, us), MatchedUids(m), maxFramesMissing), reg, arucos, m, UpdatedUids(us), maxFramesMissing)
  {
    StoredKeys(reg1, us);
  }

  lemma MatchedUidsOf(m: seq<Candidate>)
    ensures forall c :: c in m ==> c.uid in MatchedUids(m)
  {
    forall c | c in m ensures c.uid in MatchedUids(m) {
      var k :| 0 <= k < |m| && m[k] == c;
      assert MatchedUids(m)[k] == c.uid;
    }
  }

  /** The end state of the third case, for any one-to-one matching of in-range same-class pairs. */
  lemma MatchEndState(reg: Register, arucos: seq<Observation>, m: seq<Candidate>, maxFramesMissing: int)
    requires WellFormed(reg) && OneToOne(m)
    requires forall c :: c in m ==> c.uid in reg && c.index < |arucos| && SameClass(c.uid, arucos[c.index])
    ensures WellFormed(ApplyMatches(reg, arucos, m))
    ensures forall p :: p in Pending(|arucos|, m) ==> p < |arucos|
    ensures var added := RegisterNew(ApplyMatches(reg, arucos, m), arucos, Pending(|arucos|, m));
      EndState(AgeAll(added.0, MatchedUids(m), maxFramesMissing), reg, arucos, m, UpdatedUids(added.1), maxFramesMissing)
  {
    ApplyMatchesWellFormed(reg, arucos, m);
    var reg1 := ApplyMatches(reg, arucos, m);
    ApplyMatchesStores(reg, arucos, m);
    var p := Pending(|arucos|, m);
    assert forall k :: 0 <= k < |p| ==> p[k] in p;
    RegisterNewStored(reg1, arucos, p);
    var added := RegisterNew(reg1, arucos, p);
    MatchedUidsOf(m);
    EndStateOf(reg, reg1, arucos, m, added.1, maxFramesMissing);
  }

  /** The third case of `update` ends in `EndState`. */
  lemma StepEndState(reg: Register, arucos: seq<Observation>, dist: Distance, maxFramesMissing: int, maxDistance: real)
    requires WellFormed(reg) && |reg| > 0 && |arucos| > 0
    ensures forall c :: c in Matches(reg, arucos, dist, maxDistance) ==> c.index < |arucos|
    ensures |Matches(reg, arucos, dist, maxDistance)| <= |Step(reg, arucos, dist, maxFramesMissing, maxDistance).1|
    ensures EndState(Step(reg, arucos, dist, maxFramesMissing, maxDistance).0, reg, arucos, Matches(reg, arucos, dist, maxDistance),
      UpdatedUids(Step(reg, arucos, dist, maxFramesMissing, maxDistance).1[|Matches(reg, arucos, dist, maxDistance)|..]), maxFramesMissing)
  {
    var m := Matches(reg, arucos, dist, maxDistance);
    StepMatching(reg, arucos, dist, maxFramesMissing, maxDistance);
    StepMatchesAdmissible(reg, arucos, dist, maxDistance);
    MatchEndState(reg, arucos, m, maxFramesMissing);
    var added := RegisterNew(ApplyMatches(reg, arucos, m), arucos, Pending(|arucos|, m));
    var out := MatchUpdates(arucos, m) + added.1;
    assert out[|m|..] == added.1;
  }
}
