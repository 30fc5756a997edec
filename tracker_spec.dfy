/**
 * The marker identity tracker on values: UIDs, the candidate list, the stable
 * sort by distance, the greedy walk, and the register transformations that one
 * call of `ArucoTracker.update` performs. The class in module Tracker runs the
 * same steps in place and is proved to end in the state `Step` describes.
 */
module TrackerSpec {
  import opened Wrappers
  import opened Strings
  import opened Aruco

  /** A register value: `{"missing_frames": ..., "aruco": ...}`. */
  datatype Entry = Entry(missingFrames: int, aruco: Observation)

  type Register = map<string, Entry>

  /**
   * `round(dist(a.center(), b.center()), 3)`, left abstract: the tracker
   * only compares these values.
   */
  type Distance = (Observation, Observation) -> real

  // ---------------------------------------------------------------------
  // UIDs: dict{A}id{B}#{C}

  function UidPrefix(dictionary: int, id: int): string {
    "dict" + IntToString(dictionary) + "id" + IntToString(id)
  }

  /** `f"dict{aruco.dictionary}id{aruco.id}"` */
  function ClassOf(o: Observation): string {
    UidPrefix(o.dictionary, o.id)
  }

  function Uid(dictionary: int, id: int, nonce: int): string {
    UidPrefix(dictionary, id) + "#" + IntToString(nonce)
  }

  /** `uid.split("#")[0]` */
  function BaseOf(uid: string): string {
    Split(uid, '#')[0]
  }

  /** `int(uid.split("#")[1])`; None where Python raises IndexError or ValueError. */
  function Nonce(uid: string): Option<int> {
    var fields := Split(uid, '#');
    if |fields| < 2 then None else ParseInt(fields[1])
  }

  lemma IntToStringNoLetters(n: int)
    ensures '#' !in IntToString(n) && 'i' !in IntToString(n)
  {
    IntToStringChars(n);
  }

  lemma UidPrefixNoHash(dictionary: int, id: int)
    ensures '#' !in UidPrefix(dictionary, id)
  {
    IntToStringNoLetters(dictionary);
    IntToStringNoLetters(id);
  }

  /** A generated UID splits at `#` into its class prefix and its nonce. */
  lemma UidParts(dictionary: int, id: int, nonce: int)
    ensures Split(Uid(dictionary, id, nonce), '#') == [UidPrefix(dictionary, id), IntToString(nonce)]
    ensures BaseOf(Uid(dictionary, id, nonce)) == UidPrefix(dictionary, id)
    ensures Nonce(Uid(dictionary, id, nonce)) == Some(nonce)
  {
    UidPrefixNoHash(dictionary, id);
    IntToStringNoLetters(nonce);
    SplitAtFirst(UidPrefix(dictionary, id), '#', IntToString(nonce));
    SplitNoSeparator(IntToString(nonce), '#');
    ParseIntOfIntToString(nonce);
  }

  lemma {:induction false} NoLetterPrefixes(a: string, b: string, c: string, d: string)
    requires 'i' !in a && 'i' !in c
    requires a + "id" + b == c + "id" + d
    ensures a == c && b == d
  {
    var s := a + "id" + b;
    assert s[|a|] == 'i' && s[..|a|] == a;
    assert s == c + "id" + d;
    assert s[|c|] == 'i' && s[..|c|] == c;
    assert |a| == |c|;
    assert a == s[..|a|] == c;
    assert b == s[|a| + 2..] == d;
  }

  /** Different (dictionary, id) classes have different prefixes. */
  lemma UidPrefixInjective(d1: int, i1: int, d2: int, i2: int)
    requires UidPrefix(d1, i1) == UidPrefix(d2, i2)
    ensures d1 == d2 && i1 == i2
  {
    var a, b := IntToString(d1), IntToString(i1);
    var c, d := IntToString(d2), IntToString(i2);
    assert "dict" + a + "id" + b == "dict" + (a + "id" + b);
    assert "dict" + c + "id" + d == "dict" + (c + "id" + d);
    assert a + "id" + b == c + "id" + d by {
      assert ("dict" + (a + "id" + b))[4..] == a + "id" + b;
      assert ("dict" + (c + "id" + d))[4..] == c + "id" + d;
    }
    IntToStringNoLetters(d1);
    IntToStringNoLetters(d2);
    NoLetterPrefixes(a, b, c, d);
    IntToStringInjective(d1, d2);
    IntToStringInjective(i1, i2);
  }

  /** `uid.split("#")[0] == f"dict{aruco.dictionary}id{aruco.id}"` */
  predicate SameClass(uid: string, o: Observation) {
    BaseOf(uid) == ClassOf(o)
  }

  /**
   * Every key names the class of the observation it holds; this is what keeps
   * `int(uid.split("#")[1])` from raising.
   */
  ghost predicate WellFormed(reg: Register) {
    && (forall k :: k in reg ==> Nonce(k).Some?)
    && (forall k :: k in reg ==> k == Uid(reg[k].aruco.dictionary, reg[k].aruco.id, Nonce(k).value))
  }

  /** `[uid for uid in uids if prefix in uid]` */
  function Containing(uids: seq<string>, prefix: string): (r: seq<string>)
    ensures forall u :: u in r <==> u in uids && Contains(u, prefix)
  {
    if uids == [] then []
    else
      var r := Containing(uids[..|uids| - 1], prefix);
      var u := uids[|uids| - 1];
      assert uids == uids[..|uids| - 1] + [u];
      if Contains(u, prefix) then r + [u] else r
  }

  lemma {:induction false} ContainingSorted(uids: seq<string>, prefix: string)
    requires StrictlySorted(uids)
    ensures StrictlySorted(Containing(uids, prefix))
  {
    if uids != [] {
      var init := uids[..|uids| - 1];
      assert StrictlySorted(init);
      ContainingSorted(init, prefix);
      var r := Containing(init, prefix);
      var u := uids[|uids| - 1];
      forall j | 0 <= j < |r| ensures Less(r[j], u) {
        assert r[j] in init;
      }
    }
  }

  /**
   * `_generate_new_uid` on the ascending list of registered UIDs: the nonce
   * is one more than that of the last UID containing the class prefix, or 0
   * when there is none. None where the source raises.
   */
  function NewUid(sortedUids: seq<string>, o: Observation): Option<string> {
    var uids := Containing(sortedUids, ClassOf(o));
    if |uids| > 0 then
      var fields := Split(uids[|uids| - 1], '#');
      if |fields| < 2 then None
      else match ParseInt(fields[1])
        case None => None
        case Some(n) => Some(Uid(o.dictionary, o.id, n + 1))
    else Some(Uid(o.dictionary, o.id, 0))
  }

  /** On a well-formed register, UID generation never raises. */
  lemma NewUidDefined(reg: Register, o: Observation)
    requires WellFormed(reg)
    ensures NewUid(SortedOf(reg.Keys), o).Some?
  {
    var sorted := SortedOf(reg.Keys);
    assert forall u :: u in sorted ==> Nonce(u).Some?;
    NewUidSome(sorted, o);
  }

  lemma NewUidSome(sortedUids: seq<string>, o: Observation)
    requires forall u :: u in sortedUids ==> Nonce(u).Some?
    ensures NewUid(sortedUids, o).Some?
  {
    var uids := Containing(sortedUids, ClassOf(o));
    if |uids| > 0 {
      var last := uids[|uids| - 1];
      assert last in uids;
      assert Nonce(last).Some?;
    }
  }

  ghost function GeneratedUid(reg: Register, o: Observation): (uid: string)
    requires WellFormed(reg)
    ensures NewUid(SortedOf(reg.Keys), o) == Some(uid)
  {
    NewUidDefined(reg, o);
    NewUid(SortedOf(reg.Keys), o).value
  }

  // ---------------------------------------------------------------------
  // Candidate pairs: `distances.append([distance, f"{i}->{uid}"])`

  datatype Candidate = Candidate(distance: real, index: nat, uid: string)

  /**
   * The candidates of observation `i` against the first `m` UIDs; `cls` is
   * the observation's class, `f"dict{aruco.dictionary}id{aruco.id}"`.
   */
  function Row(arucos: seq<Observation>, i: nat, cls: string, uids: seq<string>, m: nat, reg: Register, dist: Distance): (r: seq<Candidate>)
    requires i < |arucos| && m <= |uids|
    requires forall u :: u in uids ==> u in reg
    ensures forall c :: c in r ==> c.index == i && c.uid in uids[..m]
  {
    if m == 0 then []
    else
      var u := uids[m - 1];
      var rest := Row(arucos, i, cls, uids, m - 1, reg, dist);
      assert forall c :: c in rest ==> c.uid in uids[..m] by {
        assert uids[..m - 1] <= uids[..m];
      }
      if BaseOf(u) == cls then
        rest + [Candidate(dist(arucos[i], reg[u].aruco), i, u)]
      else rest
  }

  /** The candidates of the first `n` observations, observation-major. */
  function Candidates(arucos: seq<Observation>, n: nat, uids: seq<string>, reg: Register, dist: Distance): (r: seq<Candidate>)
    requires n <= |arucos|
    requires forall u :: u in uids ==> u in reg
    ensures forall c :: c in r ==> c.index < n && c.uid in uids
  {
    if n == 0 then []
    else
      var before := Candidates(arucos, n - 1, uids, reg, dist);
      var row := Row(arucos, n - 1, ClassOf(arucos[n - 1]), uids, |uids|, reg, dist);
      assert uids[..|uids|] == uids;
      before + row
  }

  /** A candidate pairs an observation only with a UID of its own class. */
  lemma {:induction false} RowSameClass(arucos: seq<Observation>, i: nat, cls: string, uids: seq<string>, m: nat, reg: Register, dist: Distance)
    requires i < |arucos| && m <= |uids|
    requires forall u :: u in uids ==> u in reg
    ensures forall c :: c in Row(arucos, i, cls, uids, m, reg, dist) ==> BaseOf(c.uid) == cls
  {
    if m > 0 {
      RowSameClass(arucos, i, cls, uids, m - 1, reg, dist);
    }
  }

  /** The row of observation `i`, tested against its own class. */
  lemma RowOwnClass(arucos: seq<Observation>, i: nat, uids: seq<string>, reg: Register, dist: Distance)
    requires i < |arucos|
    requires forall u :: u in uids ==> u in reg
    ensures forall c :: c in Row(arucos, i, ClassOf(arucos[i]), uids, |uids|, reg, dist) ==>
      c.index < |arucos| && SameClass(c.uid, arucos[c.index])
  {
    RowSameClass(arucos, i, ClassOf(arucos[i]), uids, |uids|, reg, dist);
  }

  lemma {:induction false} CandidatesSameClass(arucos: seq<Observation>, n: nat, uids: seq<string>, reg: Register, dist: Distance)
    requires n <= |arucos|
    requires forall u :: u in uids ==> u in reg
    ensures forall c :: c in Candidates(arucos, n, uids, reg, dist) ==> c.index < |arucos| && SameClass(c.uid, arucos[c.index])
  {
    if n > 0 {
      CandidatesSameClass(arucos, n - 1, uids, reg, dist);
      RowOwnClass(arucos, n - 1, uids, reg, dist);
    }
  }

  // ---------------------------------------------------------------------
  // `distances.sort(key=lambda x: x[0])`: Python's sort is stable

  ghost predicate SortedByDistance(s: seq<Candidate>) {
    forall a, b :: 0 <= a < b < |s| ==> s[a].distance <= s[b].distance
  }

  /** Inserts `x` in front of the first element that is not closer than it. */
  function InsertByDistance(x: Candidate, s: seq<Candidate>): (r: seq<Candidate>)
    ensures multiset(r) == multiset(s) + multiset{x}
  {
    if s == [] then [x]
    else if x.distance <= s[0].distance then [x] + s
    else
      assert s == [s[0]] + s[1..];
      [s[0]] + InsertByDistance(x, s[1..])
  }

  function SortByDistance(s: seq<Candidate>): (r: seq<Candidate>)
    ensures multiset(r) == multiset(s)
  {
    if s == [] then []
    else
      assert s == [s[0]] + s[1..];
      InsertByDistance(s[0], SortByDistance(s[1..]))
  }

  // ---------------------------------------------------------------------
  // The greedy walk over the sorted candidates

  function MatchedIndices(m: seq<Candidate>): (r: seq<nat>)
    ensures |r| == |m| && forall k :: 0 <= k < |m| ==> r[k] == m[k].index
  {
    seq(|m|, k requires 0 <= k < |m| => m[k].index)
  }

  function MatchedUids(m: seq<Candidate>): (r: seq<string>)
    ensures |r| == |m| && forall k :: 0 <= k < |m| ==> r[k] == m[k].uid
  {
    seq(|m|, k requires 0 <= k < |m| => m[k].uid)
  }

  /**
   * `aruco in pending_arucos and uid not in updated_uids and distance <= MAX_DISTANCE`,
   * with `matched` the pairs committed so far.
   */
  predicate Admissible(c: Candidate, matched: seq<Candidate>, maxDistance: real) {
    c.index !in MatchedIndices(matched) && c.uid !in MatchedUids(matched) && c.distance <= maxDistance
  }

  /** The pairs that the walk over `sorted` commits, in commit order. */
  function Walk(sorted: seq<Candidate>, maxDistance: real): (m: seq<Candidate>)
    ensures forall c :: c in m ==> c in sorted
  {
    if sorted == [] then []
    else
      var init := sorted[..|sorted| - 1];
      var c := sorted[|sorted| - 1];
      var m := Walk(init, maxDistance);
      assert forall d :: d in init ==> d in sorted;
      if Admissible(c, m, maxDistance) then m + [c] else m
  }

  /** The observations left in `pending_arucos`: indices below n not matched, in input order. */
  function Pending(n: nat, m: seq<Candidate>): (r: seq<nat>)
    ensures forall i :: i in r <==> 0 <= i < n && i !in MatchedIndices(m)
    ensures forall k :: 0 <= k < |r| ==> r[k] < n
  {
    if n == 0 then []
    else
      var r := Pending(n - 1, m);
      assert forall i :: i in r + [n - 1] <==> i in r || i == n - 1;
      if n - 1 in MatchedIndices(m) then r else r + [n - 1]
  }

  /** `[0, 1, ..., n - 1]` */
  function Range(n: nat): (r: seq<nat>)
    ensures |r| == n && forall k :: 0 <= k < n ==> r[k] == k
  {
    if n == 0 then [] else Range(n - 1) + [n - 1]
  }

  // ---------------------------------------------------------------------
  // Register transformations

  /** Lines 106-107 for each committed pair. */
  function ApplyMatches(reg: Register, arucos: seq<Observation>, m: seq<Candidate>): (r: Register)
    requires forall c :: c in m ==> c.uid in reg && c.index < |arucos|
    ensures r.Keys == reg.Keys
  {
    if m == [] then reg
    else
      var c := m[|m| - 1];
      assert forall d :: d in m[..|m| - 1] ==> d in m;
      ApplyMatches(reg, arucos, m[..|m| - 1])[c.uid := Entry(0, arucos[c.index])]
  }

  /** A generated UID is of the same class as an observation only if they share dictionary and id. */
  lemma SameClassUid(dictionary: int, id: int, nonce: int, o: Observation)
    requires SameClass(Uid(dictionary, id, nonce), o)
    ensures dictionary == o.dictionary && id == o.id
  {
    UidParts(dictionary, id, nonce);
    UidPrefixInjective(dictionary, id, o.dictionary, o.id);
  }

  /** Storing a same-class observation under a well-formed key keeps the register well formed. */
  lemma StoreWellFormed(reg: Register, uid: string, o: Observation)
    requires WellFormed(reg) && uid in reg && SameClass(uid, o)
    ensures WellFormed(reg[uid := Entry(0, o)])
  {
    var e := reg[uid];
    SameClassUid(e.aruco.dictionary, e.aruco.id, Nonce(uid).value, o);
  }

  /** Only same-class pairs are committed, so matches keep the register well formed. */
  lemma {:induction false} ApplyMatchesWellFormed(reg: Register, arucos: seq<Observation>, m: seq<Candidate>)
    requires WellFormed(reg)
    requires forall c :: c in m ==> c.uid in reg && c.index < |arucos| && SameClass(c.uid, arucos[c.index])
    ensures WellFormed(ApplyMatches(reg, arucos, m))
  {
    if m != [] {
      var c := m[|m| - 1];
      assert c in m;
      assert forall d :: d in m[..|m| - 1] ==> d in m;
      ApplyMatchesWellFormed(reg, arucos, m[..|m| - 1]);
      StoreWellFormed(ApplyMatches(reg, arucos, m[..|m| - 1]), c.uid, arucos[c.index]);
    }
  }

  /** The `(uid, aruco)` pairs of the committed matches. */
  function MatchUpdates(arucos: seq<Observation>, m: seq<Candidate>): (r: seq<(string, Observation)>)
    requires forall c :: c in m ==> c.index < |arucos|
    ensures |r| == |m|
    ensures forall k :: 0 <= k < |m| ==> r[k] == (m[k].uid, arucos[m[k].index])
  {
    seq(|m|, k requires 0 <= k < |m| => (m[k].uid, arucos[m[k].index]))
  }

  /** Registering a new observation under a fresh key keeps the register well formed. */
  lemma RegisterOneWellFormed(reg: Register, o: Observation)
    requires WellFormed(reg)
    ensures WellFormed(reg[GeneratedUid(reg, o) := Entry(0, o)])
  {
    var uid := GeneratedUid(reg, o);
    var uids := Containing(SortedOf(reg.Keys), ClassOf(o));
    if |uids| > 0 {
      var fields := Split(uids[|uids| - 1], '#');
      UidParts(o.dictionary, o.id, ParseInt(fields[1]).value + 1);
    } else {
      UidParts(o.dictionary, o.id, 0);
    }
  }

  /**
   * Lines 75-80 and 113-117: each pending observation, in order, gets the
   * UID generated from the register as it is at that moment and is stored
   * with `missing_frames` 0.
   */
  ghost function RegisterNew(reg: Register, arucos: seq<Observation>, pending: seq<nat>): (r: (Register, seq<(string, Observation)>))
    requires WellFormed(reg)
    requires forall k :: 0 <= k < |pending| ==> pending[k] < |arucos|
    ensures WellFormed(r.0)
    ensures |r.1| == |pending|
  {
    if pending == [] then (reg, [])
    else
      var init := pending[..|pending| - 1];
      var prev := RegisterNew(reg, arucos, init);
      var o := arucos[pending[|pending| - 1]];
      var uid := GeneratedUid(prev.0, o);
      RegisterOneWellFormed(prev.0, o);
      (prev.0[uid := Entry(0, o)], prev.1 + [(uid, o)])
  }

  /**
   * Lines 64-69 and 119-125: every UID not in `exempt` has its count raised
   * by one and is dropped once the count exceeds `maxFramesMissing`.
   */
  function AgeAll(reg: Register, exempt: seq<string>, maxFramesMissing: int): Register {
    map k | k in reg && (k in exempt || reg[k].missingFrames + 1 <= maxFramesMissing) ::
      if k in exempt then reg[k] else reg[k].(missingFrames := reg[k].missingFrames + 1)
  }

  /** The same, part way through the loop: only the UIDs in `done` have been visited. */
  function Aged(reg: Register, exempt: seq<string>, done: seq<string>, maxFramesMissing: int): Register {
    map k | k in reg && (k !in done || k in exempt || reg[k].missingFrames + 1 <= maxFramesMissing) ::
      if k in done && k !in exempt then reg[k].(missingFrames := reg[k].missingFrames + 1) else reg[k]
  }

  /** Missing-frame counts are never negative, and above the threshold only when 0. */
  ghost predicate Bounded(reg: Register, maxFramesMissing: int) {
    forall k :: k in reg ==>
      0 <= reg[k].missingFrames && (reg[k].missingFrames <= maxFramesMissing || reg[k].missingFrames == 0)
  }

  /** The state and the return value of one `update(arucos)` call. */
  ghost function Step(reg: Register, arucos: seq<Observation>, dist: Distance, maxFramesMissing: int, maxDistance: real)
    : (r: (Register, seq<(string, Observation)>))
    requires WellFormed(reg)
  {
    if |arucos| == 0 then
      (AgeAll(reg, [], maxFramesMissing), [])
    else if |reg| == 0 then
      RegisterNew(reg, arucos, Range(|arucos|))
    else
      var cs := Candidates(arucos, |arucos|, SortedOf(reg.Keys), reg, dist);
      CandidatesSameClass(arucos, |arucos|, SortedOf(reg.Keys), reg, dist);
      var m := Walk(SortByDistance(cs), maxDistance);
      assert forall c :: c in m ==> c in cs by {
        forall c | c in m ensures c in cs {
          assert c in multiset(SortByDistance(cs));
        }
      }
      var reg1 := ApplyMatches(reg, arucos, m);
      ApplyMatchesWellFormed(reg, arucos, m);
      var added := RegisterNew(reg1, arucos, Pending(|arucos|, m));
      (AgeAll(added.0, MatchedUids(m), maxFramesMissing), MatchUpdates(arucos, m) + added.1)
  }

  /** The third case of `Step` spelled out, with the facts its parts need. */
  lemma StepMatching(reg: Register, arucos: seq<Observation>, dist: Distance, maxFramesMissing: int, maxDistance: real)
    requires WellFormed(reg) && |reg| > 0 && |arucos| > 0
    ensures var cs := Candidates(arucos, |arucos|, SortedOf(reg.Keys), reg, dist);
      var m := Walk(SortByDistance(cs), maxDistance);
      && (forall c :: c in SortByDistance(cs) ==> c.uid in reg && c.index < |arucos|)
      && (forall c :: c in m ==> c.uid in reg && c.index < |arucos| && SameClass(c.uid, arucos[c.index]))
      && WellFormed(ApplyMatches(reg, arucos, m))
      && (forall p :: p in Pending(|arucos|, m) ==> p < |arucos|)
      && var added := RegisterNew(ApplyMatches(reg, arucos, m), arucos, Pending(|arucos|, m));
         Step(reg, arucos, dist, maxFramesMissing, maxDistance) ==
           (AgeAll(added.0, MatchedUids(m), maxFramesMissing), MatchUpdates(arucos, m) + added.1)
  {
    var cs := Candidates(arucos, |arucos|, SortedOf(reg.Keys), reg, dist);
    CandidatesSameClass(arucos, |arucos|, SortedOf(reg.Keys), reg, dist);
    var sorted := SortByDistance(cs);
    forall c | c in sorted ensures c in cs {
      assert c in multiset(sorted);
    }
    var m := Walk(sorted, maxDistance);
    ApplyMatchesWellFormed(reg, arucos, m);
  }

  // ---------------------------------------------------------------------
  // Facts the in-place implementation relies on

  /** Python's `pending.remove(x)`: drops the first occurrence, if any. */
  function RemoveFirst(s: seq<nat>, x: nat): seq<nat> {
    if s == [] then []
    else if s[0] == x then s[1..]
    else [s[0]] + RemoveFirst(s[1..], x)
  }

  lemma {:induction false} RemoveFirstAppend(a: seq<nat>, b: seq<nat>, x: nat)
    ensures x in a ==> RemoveFirst(a + b, x) == RemoveFirst(a, x) + b
    ensures x !in a ==> RemoveFirst(a + b, x) == a + RemoveFirst(b, x)
  {
    if a != [] {
      assert (a + b)[1..] == a[1..] + b;
      RemoveFirstAppend(a[1..], b, x);
      assert a == [a[0]] + a[1..];
    } else {
      assert a + b == b;
    }
  }

  lemma {:induction false} PendingUnaffected(n: nat, m: seq<Candidate>, c: Candidate)
    requires n <= c.index
    ensures Pending(n, m + [c]) == Pending(n, m)
  {
    if n > 0 {
      PendingUnaffected(n - 1, m, c);
      assert MatchedIndices(m + [c]) == MatchedIndices(m) + [c.index];
      assert n - 1 in MatchedIndices(m + [c]) <==> n - 1 in MatchedIndices(m);
    }
  }

  /** Committing a pair removes its observation from the pending list. */
  lemma {:induction false} PendingAfterMatch(n: nat, m: seq<Candidate>, c: Candidate)
    requires c.index < n && c.index !in MatchedIndices(m)
    ensures Pending(n, m + [c]) == RemoveFirst(Pending(n, m), c.index)
  {
    var x := c.index;
    var mc := m + [c];
    assert MatchedIndices(mc) == MatchedIndices(m) + [x];
    var p := Pending(n - 1, m);
    if x == n - 1 {
      PendingUnaffected(n - 1, m, c);
      assert n - 1 !in MatchedIndices(m) && n - 1 in MatchedIndices(mc);
      assert Pending(n, m) == p + [x];
      assert Pending(n, mc) == p;
      assert x !in p;
      RemoveFirstAppend(p, [x], x);
      assert RemoveFirst([x], x) == [];
    } else {
      PendingAfterMatch(n - 1, m, c);
      assert x in p;
      var q := Pending(n - 1, mc);
      assert q == RemoveFirst(p, x);
      if n - 1 in MatchedIndices(m) {
        assert n - 1 in MatchedIndices(mc);
        assert Pending(n, m) == p;
        assert Pending(n, mc) == q;
      } else {
        assert n - 1 !in MatchedIndices(mc);
        assert Pending(n, m) == p + [n - 1];
        assert Pending(n, mc) == q + [n - 1];
        RemoveFirstAppend(p, [n - 1], x);
      }
    }
  }

  /** Once every key has been visited, the partial ageing is the full one. */
  lemma AgedComplete(reg: Register, exempt: seq<string>, done: seq<string>, maxFramesMissing: int)
    requires forall k :: k in reg ==> k in done
    ensures Aged(reg, exempt, done, maxFramesMissing) == AgeAll(reg, exempt, maxFramesMissing)
  {
  }

  lemma AgeAllKeeps(reg: Register, exempt: seq<string>, maxFramesMissing: int)
    requires WellFormed(reg) && Bounded(reg, maxFramesMissing)
    ensures WellFormed(AgeAll(reg, exempt, maxFramesMissing))
    ensures Bounded(AgeAll(reg, exempt, maxFramesMissing), maxFramesMissing)
  {
    var r := AgeAll(reg, exempt, maxFramesMissing);
    forall k | k in r
      ensures Nonce(k).Some? && k == Uid(r[k].aruco.dictionary, r[k].aruco.id, Nonce(k).value)
    {
      assert r[k].aruco == reg[k].aruco;
    }
  }

  lemma {:induction false} ApplyMatchesBounded(reg: Register, arucos: seq<Observation>, m: seq<Candidate>, maxFramesMissing: int)
    requires Bounded(reg, maxFramesMissing)
    requires forall c :: c in m ==> c.uid in reg && c.index < |arucos|
    ensures Bounded(ApplyMatches(reg, arucos, m), maxFramesMissing)
  {
    if m != [] {
      assert forall d :: d in m[..|m| - 1] ==> d in m;
      ApplyMatchesBounded(reg, arucos, m[..|m| - 1], maxFramesMissing);
    }
  }

  lemma {:induction false} RegisterNewBounded(reg: Register, arucos: seq<Observation>, pending: seq<nat>, maxFramesMissing: int)
    requires WellFormed(reg) && Bounded(reg, maxFramesMissing)
    requires forall k :: 0 <= k < |pending| ==> pending[k] < |arucos|
    ensures Bounded(RegisterNew(reg, arucos, pending).0, maxFramesMissing)
  {
    if pending != [] {
      var init := pending[..|pending| - 1];
      RegisterNewBounded(reg, arucos, init, maxFramesMissing);
    }
  }

  /** One call keeps the register well formed and its counts bounded. */
  lemma StepKeeps(reg: Register, arucos: seq<Observation>, dist: Distance, maxFramesMissing: int, maxDistance: real)
    requires WellFormed(reg) && Bounded(reg, maxFramesMissing)
    ensures WellFormed(Step(reg, arucos, dist, maxFramesMissing, maxDistance).0)
    ensures Bounded(Step(reg, arucos, dist, maxFramesMissing, maxDistance).0, maxFramesMissing)
  {
    if |arucos| == 0 {
      AgeAllKeeps(reg, [], maxFramesMissing);
    } else if |reg| == 0 {
      RegisterNewBounded(reg, arucos, Range(|arucos|), maxFramesMissing);
    } else {
      var cs := Candidates(arucos, |arucos|, SortedOf(reg.Keys), reg, dist);
      CandidatesSameClass(arucos, |arucos|, SortedOf(reg.Keys), reg, dist);
      var m := Walk(SortByDistance(cs), maxDistance);
      assert forall c :: c in m ==> c in cs by {
        forall c | c in m ensures c in cs {
          assert c in multiset(SortByDistance(cs));
        }
      }
      var reg1 := ApplyMatches(reg, arucos, m);
      ApplyMatchesWellFormed(reg, arucos, m);
      ApplyMatchesBounded(reg, arucos, m, maxFramesMissing);
      var added := RegisterNew(reg1, arucos, Pending(|arucos|, m));
      RegisterNewBounded(reg1, arucos, Pending(|arucos|, m), maxFramesMissing);
      AgeAllKeeps(added.0, MatchedUids(m), maxFramesMissing);
    }
  }

  /** Before any match every observation is pending. */
  lemma {:induction false} PendingNone(n: nat)
    ensures Pending(n, []) == Range(n)
  {
    if n > 0 {
      PendingNone(n - 1);
    }
  }

  /** Visiting one more key: the loop body of lines 119-125. */
  lemma AgedStep(reg: Register, exempt: seq<string>, done: seq<string>, uid: string, maxFramesMissing: int)
    requires uid in reg && uid !in done
    ensures uid in Aged(reg, exempt, done, maxFramesMissing)
    ensures uid in exempt ==>
      Aged(reg, exempt, done + [uid], maxFramesMissing) == Aged(reg, exempt, done, maxFramesMissing)
    ensures var a := Aged(reg, exempt, done, maxFramesMissing);
      var bumped := a[uid := a[uid].(missingFrames := a[uid].missingFrames + 1)];
      uid !in exempt ==>
        Aged(reg, exempt, done + [uid], maxFramesMissing) ==
          if a[uid].missingFrames + 1 > maxFramesMissing then bumped - {uid} else bumped
  {
  }

  /**
   * The ageing loop itself, key by key in the order of `uids`: bump the count
   * of a key not in `exempt`, and delete it once the count exceeds the limit.
   */
  function AgeKeys(reg: Register, exempt: seq<string>, uids: seq<string>, maxFramesMissing: int): Register {
    if uids == [] then reg
    else
      var a := AgeKeys(reg, exempt, uids[..|uids| - 1], maxFramesMissing);
      var uid := uids[|uids| - 1];
      if uid in exempt || uid !in a then a
      else
        var bumped := a[uid := a[uid].(missingFrames := a[uid].missingFrames + 1)];
        if bumped[uid].missingFrames > maxFramesMissing then bumped - {uid} else bumped
  }

  /** Over distinct registered keys, the loop computes the partial ageing. */
  lemma {:induction false} AgeKeysAged(reg: Register, exempt: seq<string>, uids: seq<string>, maxFramesMissing: int)
    requires Distinct(uids)
    requires forall u :: u in uids ==> u in reg
    ensures AgeKeys(reg, exempt, uids, maxFramesMissing) == Aged(reg, exempt, uids, maxFramesMissing)
  {
    if uids != [] {
      var init := uids[..|uids| - 1];
      var uid := uids[|uids| - 1];
      assert uids == init + [uid];
      assert Distinct(init);
      assert uid !in init by {
        forall j | 0 <= j < |init| ensures init[j] != uid {
          assert uids[j] != uids[|uids| - 1];
        }
      }
      AgeKeysAged(reg, exempt, init, maxFramesMissing);
      AgedStep(reg, exempt, init, uid, maxFramesMissing);
    }
  }

  /**
   * One pass of the ageing loop over the ascending keys: the key visited
   * next is still registered, and visiting it bumps or deletes it.
   */
  lemma AgeKeysVisit(reg: Register, exempt: seq<string>, uids: seq<string>, k: nat, maxFramesMissing: int)
    requires Distinct(uids) && k < |uids|
    requires forall u :: u in uids ==> u in reg
    ensures var a := AgeKeys(reg, exempt, uids[..k], maxFramesMissing);
      var uid := uids[k];
      && uid in a
      && (uid in exempt ==> AgeKeys(reg, exempt, uids[..k + 1], maxFramesMissing) == a)
      && (uid !in exempt ==>
            var bumped := a[uid := a[uid].(missingFrames := a[uid].missingFrames + 1)];
            AgeKeys(reg, exempt, uids[..k + 1], maxFramesMissing) ==
              if a[uid].missingFrames + 1 > maxFramesMissing then bumped - {uid} else bumped)
  {
    var init := uids[..k];
    assert uids[..k + 1][..k] == init && uids[..k + 1][k] == uids[k];
    assert uids[k] !in init by {
      forall j | 0 <= j < k ensures init[j] != uids[k] {
        assert uids[j] != uids[k];
      }
    }
    AgeKeysUnvisited(reg, exempt, init, uids[k], maxFramesMissing);
  }

  /** A key the loop has not reached yet is still there, unchanged. */
  lemma {:induction false} AgeKeysUnvisited(reg: Register, exempt: seq<string>, done: seq<string>, uid: string, maxFramesMissing: int)
    requires uid in reg && uid !in done
    ensures uid in AgeKeys(reg, exempt, done, maxFramesMissing)
    ensures AgeKeys(reg, exempt, done, maxFramesMissing)[uid] == reg[uid]
  {
    if done != [] {
      assert uid != done[|done| - 1];
      assert uid !in done[..|done| - 1] by {
        assert forall u :: u in done[..|done| - 1] ==> u in done;
      }
      AgeKeysUnvisited(reg, exempt, done[..|done| - 1], uid, maxFramesMissing);
    }
  }

  /** One more candidate visited by the walk. */
  lemma WalkSnoc(sorted: seq<Candidate>, k: nat, maxDistance: real)
    requires k < |sorted|
    ensures Admissible(sorted[k], Walk(sorted[..k], maxDistance), maxDistance) ==>
      Walk(sorted[..k + 1], maxDistance) == Walk(sorted[..k], maxDistance) + [sorted[k]]
    ensures !Admissible(sorted[k], Walk(sorted[..k], maxDistance), maxDistance) ==>
      Walk(sorted[..k + 1], maxDistance) == Walk(sorted[..k], maxDistance)
  {
    assert sorted[..k + 1][..k] == sorted[..k];
  }

  /** Committing one more pair extends every view of the matches by that pair. */
  lemma CommitOne(reg: Register, arucos: seq<Observation>, m: seq<Candidate>, c: Candidate)
    requires forall d :: d in m ==> d.uid in reg && d.index < |arucos|
    requires c.uid in reg && c.index < |arucos|
    ensures forall d :: d in m + [c] ==> d.uid in reg && d.index < |arucos|
    ensures ApplyMatches(reg, arucos, m + [c]) == ApplyMatches(reg, arucos, m)[c.uid := Entry(0, arucos[c.index])]
    ensures MatchedUids(m + [c]) == MatchedUids(m) + [c.uid]
    ensures MatchUpdates(arucos, m + [c]) == MatchUpdates(arucos, m) + [(c.uid, arucos[c.index])]
  {
    assert (m + [c])[..|m|] == m;
  }

  /**
   * The loop body of lines 96-111 on values: what visiting `sorted[k]` does to
   * the matches, the pending observations, the updated UIDs and the register.
   */
  lemma VisitCandidate(reg: Register, arucos: seq<Observation>, sorted: seq<Candidate>, k: nat, maxDistance: real)
    requires k < |sorted|
    requires forall c :: c in sorted ==> c.uid in reg && c.index < |arucos|
    ensures forall c :: c in Walk(sorted[..k], maxDistance) ==> c.uid in reg && c.index < |arucos|
    ensures forall c :: c in Walk(sorted[..k + 1], maxDistance) ==> c.uid in reg && c.index < |arucos|
    ensures var m := Walk(sorted[..k], maxDistance);
      var c := sorted[k];
      var m' := Walk(sorted[..k + 1], maxDistance);
      if c.index in Pending(|arucos|, m) && c.uid !in MatchedUids(m) && c.distance <= maxDistance then
        && m' == m + [c]
        && ApplyMatches(reg, arucos, m') == ApplyMatches(reg, arucos, m)[c.uid := Entry(0, arucos[c.index])]
        && Pending(|arucos|, m') == RemoveFirst(Pending(|arucos|, m), c.index)
        && MatchedUids(m') == MatchedUids(m) + [c.uid]
        && MatchUpdates(arucos, m') == MatchUpdates(arucos, m) + [(c.uid, arucos[c.index])]
      else m' == m
  {
    var m := Walk(sorted[..k], maxDistance);
    var c := sorted[k];
    assert c in sorted;
    assert forall d :: d in sorted[..k] ==> d in sorted;
    assert forall d :: d in sorted[..k + 1] ==> d in sorted;
    WalkSnoc(sorted, k, maxDistance);
    if c.index in Pending(|arucos|, m) && c.uid !in MatchedUids(m) && c.distance <= maxDistance {
      CommitOne(reg, arucos, m, c);
      PendingAfterMatch(|arucos|, m, c);
    }
  }
}
