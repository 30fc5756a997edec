/**
 * What one call of `ArucoTracker.update` promises, proved about the
 * value-level definitions of module TrackerSpec: the stable sort, the greedy
 * walk, UID generation, and the register and return value of each case.
 */
module TrackerProperties {
  import opened Wrappers
  import opened Strings
  import opened Aruco
  import opened TrackerSpec

  // ---------------------------------------------------------------------
  // The candidate list and its stable sort

  ghost predicate UidsAscending(r: seq<Candidate>) {
    forall a, b :: 0 <= a < b < |r| ==> Less(r[a].uid, r[b].uid)
  }

  /** Observation index first, then UID: the order of the nested loops of lines 86-92. */
  ghost predicate LoopOrder(cs: seq<Candidate>) {
    forall a, b :: 0 <= a < b < |cs| ==>
      cs[a].index < cs[b].index || (cs[a].index == cs[b].index && Less(cs[a].uid, cs[b].uid))
  }

  /** A row lists its UIDs in the order of `uids`. */
  lemma {:induction false} RowOrdered(arucos: seq<Observation>, i: nat, cls: string, uids: seq<string>, m: nat, reg: Register, dist: Distance)
    requires i < |arucos| && m <= |uids|
    requires forall u :: u in uids ==> u in reg
    requires StrictlySorted(uids)
    ensures UidsAscending(Row(arucos, i, cls, uids, m, reg, dist))
  {
    if m > 0 {
      RowOrdered(arucos, i, cls, uids, m - 1, reg, dist);
      var rest := Row(arucos, i, cls, uids, m - 1, reg, dist);
      var u := uids[m - 1];
      if BaseOf(u) == cls {
        var r := rest + [Candidate(dist(arucos[i], reg[u].aruco), i, u)];
        assert Row(arucos, i, cls, uids, m, reg, dist) == r;
        forall a, b | 0 <= a < b < |r| ensures Less(r[a].uid, r[b].uid) {
          assert r[a] == rest[a];
          if b == |rest| {
            assert rest[a] in rest;
            var j :| 0 <= j < m - 1 && uids[..m - 1][j] == rest[a].uid;
            assert uids[j] == rest[a].uid;
          } else {
            assert r[b] == rest[b];
          }
        }
      }
    }
  }

  /**
   * Candidates come observation by observation, and within one observation
   * in ascending UID order.
   */
  lemma {:induction false} CandidatesOrdered(arucos: seq<Observation>, n: nat, uids: seq<string>, reg: Register, dist: Distance)
    requires n <= |arucos|
    requires forall u :: u in uids ==> u in reg
    requires StrictlySorted(uids)
    ensures LoopOrder(Candidates(arucos, n, uids, reg, dist))
  {
    if n > 0 {
      CandidatesOrdered(arucos, n - 1, uids, reg, dist);
      RowOrdered(arucos, n - 1, ClassOf(arucos[n - 1]), uids, |uids|, reg, dist);
      var before := Candidates(arucos, n - 1, uids, reg, dist);
      var row := Row(arucos, n - 1, ClassOf(arucos[n - 1]), uids, |uids|, reg, dist);
      var cs := before + row;
      forall a, b | 0 <= a < b < |cs|
        ensures cs[a].index < cs[b].index || (cs[a].index == cs[b].index && Less(cs[a].uid, cs[b].uid))
      {
        if b >= |before| && a < |before| {
          assert cs[a] in before && cs[b] in row;
        } else if a >= |before| {
          assert cs[a] == row[a - |before|] && cs[b] == row[b - |before|];
        } else {
          assert cs[a] == before[a] && cs[b] == before[b];
        }
      }
    }
  }

  /** Each candidate carries the distance between its two observations. */
  lemma {:induction false} RowDistance(arucos: seq<Observation>, i: nat, cls: string, uids: seq<string>, m: nat, reg: Register, dist: Distance)
    requires i < |arucos| && m <= |uids|
    requires forall u :: u in uids ==> u in reg
    ensures forall c :: c in Row(arucos, i, cls, uids, m, reg, dist) ==> c.distance == dist(arucos[c.index], reg[c.uid].aruco)
  {
    if m > 0 {
      RowDistance(arucos, i, cls, uids, m - 1, reg, dist);
    }
  }

  lemma {:induction false} CandidatesDistance(arucos: seq<Observation>, n: nat, uids: seq<string>, reg: Register, dist: Distance)
    requires n <= |arucos|
    requires forall u :: u in uids ==> u in reg
    ensures forall c :: c in Candidates(arucos, n, uids, reg, dist) ==>
      c.index < |arucos| && c.uid in reg && c.distance == dist(arucos[c.index], reg[c.uid].aruco)
  {
    if n > 0 {
      CandidatesDistance(arucos, n - 1, uids, reg, dist);
      RowDistance(arucos, n - 1, ClassOf(arucos[n - 1]), uids, |uids|, reg, dist);
    }
  }

  /** The candidates of distance exactly `d`, in their order in `s`. */
  function WithDistance(s: seq<Candidate>, d: real): (r: seq<Candidate>)
    ensures forall c :: c in r ==> c in s && c.distance == d
  {
    if s == [] then []
    else (if s[0].distance == d then [s[0]] else []) + WithDistance(s[1..], d)
  }

  /** The elements of an insertion are the inserted one and the old ones. */
  lemma {:induction false} InsertByDistanceMembers(x: Candidate, s: seq<Candidate>)
    ensures forall c :: c in InsertByDistance(x, s) ==> c == x || c in s
  {
    if s != [] && x.distance > s[0].distance {
      InsertByDistanceMembers(x, s[1..]);
      assert forall c :: c in s[1..] ==> c in s;
    }
  }

  lemma SortedCons(h: Candidate, t: seq<Candidate>)
    requires SortedByDistance(t)
    requires forall c :: c in t ==> h.distance <= c.distance
    ensures SortedByDistance([h] + t)
  {
    var r := [h] + t;
    forall a, b | 0 <= a < b < |r| ensures r[a].distance <= r[b].distance {
      assert r[b] == t[b - 1];
      if a == 0 {
        assert t[b - 1] in t;
      } else {
        assert r[a] == t[a - 1];
      }
    }
  }

  lemma {:induction false} InsertByDistanceSorted(x: Candidate, s: seq<Candidate>)
    requires SortedByDistance(s)
    ensures SortedByDistance(InsertByDistance(x, s))
  {
    if s == [] {
    } else if x.distance <= s[0].distance {
      forall c | c in s ensures x.distance <= c.distance {
        var k :| 0 <= k < |s| && s[k] == c;
      }
      SortedCons(x, s);
    } else {
      var t := InsertByDistance(x, s[1..]);
      assert SortedByDistance(s[1..]);
      InsertByDistanceSorted(x, s[1..]);
      InsertByDistanceMembers(x, s[1..]);
      forall c | c in t ensures s[0].distance <= c.distance {
        if c != x {
          var k :| 0 <= k < |s[1..]| && s[1..][k] == c;
          assert s[k + 1] == c;
        }
      }
      SortedCons(s[0], t);
    }
  }

  /** Inserting keeps the order among the elements of one distance. */
  lemma {:induction false} InsertByDistanceStable(x: Candidate, s: seq<Candidate>, d: real)
    requires SortedByDistance(s)
    ensures WithDistance(InsertByDistance(x, s), d) ==
      if x.distance == d then [x] + WithDistance(s, d) else WithDistance(s, d)
  {
    if s == [] {
      assert WithDistance([x], d) == (if x.distance == d then [x] else []) + WithDistance([], d);
    } else if x.distance <= s[0].distance {
      assert ([x] + s)[1..] == s;
    } else {
      InsertByDistanceStable(x, s[1..], d);
      var t := InsertByDistance(x, s[1..]);
      assert ([s[0]] + t)[1..] == t;
    }
  }

  /** `list.sort(key=...)`: ascending in the key. */
  lemma {:induction false} SortByDistanceSorted(s: seq<Candidate>)
    ensures SortedByDistance(SortByDistance(s))
  {
    if s != [] {
      SortByDistanceSorted(s[1..]);
      InsertByDistanceSorted(s[0], SortByDistance(s[1..]));
    }
  }

  /** `list.sort` is stable: elements of equal key keep their relative order. */
  lemma {:induction false} SortByDistanceStable(s: seq<Candidate>, d: real)
    ensures WithDistance(SortByDistance(s), d) == WithDistance(s, d)
  {
    if s != [] {
      SortByDistanceStable(s[1..], d);
      SortByDistanceSorted(s[1..]);
      InsertByDistanceStable(s[0], SortByDistance(s[1..]), d);
    }
  }

  // ---------------------------------------------------------------------
  // The greedy walk

  ghost predicate OneToOne(m: seq<Candidate>) {
    forall a, b :: 0 <= a < b < |m| ==> m[a].index != m[b].index && m[a].uid != m[b].uid
  }

  /** Each observation and each UID is committed at most once. */
  lemma {:induction false} WalkInjective(sorted: seq<Candidate>, maxDistance: real)
    ensures OneToOne(Walk(sorted, maxDistance))
  {
    if sorted != [] {
      var init := sorted[..|sorted| - 1];
      var c := sorted[|sorted| - 1];
      WalkInjective(init, maxDistance);
      var m0 := Walk(init, maxDistance);
      if Admissible(c, m0, maxDistance) {
        var m := m0 + [c];
        assert Walk(sorted, maxDistance) == m;
        forall a, b | 0 <= a < b < |m| ensures m[a].index != m[b].index && m[a].uid != m[b].uid {
          if b == |m0| {
            assert m[a] == m0[a] && m[b] == c;
            assert MatchedIndices(m0)[a] == m0[a].index && MatchedUids(m0)[a] == m0[a].uid;
          } else {
            assert m[a] == m0[a] && m[b] == m0[b];
          }
        }
      }
    }
  }

  /** Only pairs within `maxDistance` are committed. */
  lemma {:induction false} WalkWithin(sorted: seq<Candidate>, maxDistance: real)
    ensures forall c :: c in Walk(sorted, maxDistance) ==> c.distance <= maxDistance
  {
    if sorted != [] {
      WalkWithin(sorted[..|sorted| - 1], maxDistance);
    }
  }

  /** Some committed pair shares an observation or a UID with `c` and is no further apart. */
  ghost predicate Blocked(c: Candidate, m: seq<Candidate>) {
    exists d :: d in m && (d.index == c.index || d.uid == c.uid) && d.distance <= c.distance
  }

  /**
   * Greedy maximality: on a list sorted by distance, every candidate within
   * `maxDistance` is committed or blocked by a committed pair that shares
   * its observation or its UID and is no further apart.
   */
  lemma {:induction false} WalkMaximal(sorted: seq<Candidate>, maxDistance: real)
    requires SortedByDistance(sorted)
    ensures forall c :: c in sorted && c.distance <= maxDistance ==> Blocked(c, Walk(sorted, maxDistance))
  {
    if sorted != [] {
      var init := sorted[..|sorted| - 1];
      var c := sorted[|sorted| - 1];
      assert SortedByDistance(init);
      WalkMaximal(init, maxDistance);
      var m0 := Walk(init, maxDistance);
      var m := Walk(sorted, maxDistance);
      assert m0 <= m;
      forall e | e in sorted && e.distance <= maxDistance ensures Blocked(e, m) {
        if e in init {
          assert Blocked(e, m0);
          var d :| d in m0 && (d.index == e.index || d.uid == e.uid) && d.distance <= e.distance;
          assert d in m;
        } else {
          assert e == c;
          LastBlocked(sorted, maxDistance);
        }
      }
    }
  }

  /** The last candidate of a sorted list within range is committed or blocked. */
  lemma LastBlocked(sorted: seq<Candidate>, maxDistance: real)
    requires SortedByDistance(sorted) && |sorted| > 0
    requires sorted[|sorted| - 1].distance <= maxDistance
    ensures Blocked(sorted[|sorted| - 1], Walk(sorted, maxDistance))
  {
    var init := sorted[..|sorted| - 1];
    var c := sorted[|sorted| - 1];
    var m0 := Walk(init, maxDistance);
    var m := Walk(sorted, maxDistance);
    if Admissible(c, m0, maxDistance) {
      assert m == m0 + [c];
      assert c in m;
    } else {
      assert m == m0;
      var k: nat;
      if c.index in MatchedIndices(m0) {
        k :| k < |m0| && MatchedIndices(m0)[k] == c.index;
      } else {
        k :| k < |m0| && MatchedUids(m0)[k] == c.uid;
      }
      var d := m0[k];
      assert d in m0;
      assert d in init;
      var j :| 0 <= j < |init| && init[j] == d;
      assert sorted[j] == d;
      assert d in m && (d.index == c.index || d.uid == c.uid) && d.distance <= c.distance;
    }
  }

  /** The closest candidate of all is committed first when it is within range. */
  lemma ClosestCommittedFirst(sorted: seq<Candidate>, maxDistance: real)
    requires |sorted| > 0 && sorted[0].distance <= maxDistance
    ensures |Walk(sorted, maxDistance)| > 0 && Walk(sorted, maxDistance)[0] == sorted[0]
  {
    WalkPrefix(sorted, 1, maxDistance);
    assert sorted[..1] == [sorted[0]];
    assert sorted[..1][..0] == [];
  }

  /** The walk over a prefix is a prefix of the walk. */
  lemma {:induction false} WalkPrefix(sorted: seq<Candidate>, k: nat, maxDistance: real)
    requires k <= |sorted|
    ensures Walk(sorted[..k], maxDistance) <= Walk(sorted, maxDistance)
    decreases |sorted| - k
  {
    if k < |sorted| {
      WalkPrefix(sorted, k + 1, maxDistance);
      WalkSnoc(sorted, k, maxDistance);
    } else {
      assert sorted[..k] == sorted;
    }
  }

  // ---------------------------------------------------------------------
  // UID generation

  /** With no registered UID containing the class prefix, the nonce is 0. */
  lemma NewUidFirst(reg: Register, o: Observation)
    requires WellFormed(reg)
    requires forall k :: k in reg ==> !Contains(k, ClassOf(o))
    ensures GeneratedUid(reg, o) == Uid(o.dictionary, o.id, 0)
  {
    ContainingNone(SortedOf(reg.Keys), ClassOf(o));
  }

  lemma {:induction false} ContainingNone(uids: seq<string>, prefix: string)
    requires forall u :: u in uids ==> !Contains(u, prefix)
    ensures Containing(uids, prefix) == []
  {
    if uids != [] {
      assert forall u :: u in uids[..|uids| - 1] ==> u in uids;
      ContainingNone(uids[..|uids| - 1], prefix);
      assert uids[|uids| - 1] in uids;
    }
  }

  /**
   * Otherwise the nonce is one more than that of the lexicographically
   * greatest registered UID containing the class prefix.
   */
  lemma NewUidNext(reg: Register, o: Observation, g: string)
    requires WellFormed(reg)
    requires g in reg && Contains(g, ClassOf(o))
    requires forall k :: k in reg && Contains(k, ClassOf(o)) && k != g ==> Less(k, g)
    ensures GeneratedUid(reg, o) == Uid(o.dictionary, o.id, Nonce(g).value + 1)
  {
    var sorted := SortedOf(reg.Keys);
    forall i | 0 <= i < |sorted| && sorted[i] != g && Contains(sorted[i], ClassOf(o))
      ensures Less(sorted[i], g)
    {
      assert sorted[i] in reg;
    }
    ContainingSorted(sorted, ClassOf(o));
    LastContaining(sorted, ClassOf(o), g);
    NewUidOfLast(sorted, o, g);
  }

  /** In an ascending list, the greatest UID containing the prefix is the last one `Containing` keeps. */
  lemma LastContaining(sorted: seq<string>, prefix: string, g: string)
    requires StrictlySorted(Containing(sorted, prefix))
    requires g in sorted && Contains(g, prefix)
    requires forall i :: 0 <= i < |sorted| && sorted[i] != g && Contains(sorted[i], prefix) ==> Less(sorted[i], g)
    ensures Containing(sorted, prefix) != [] && Containing(sorted, prefix)[|Containing(sorted, prefix)| - 1] == g
  {
    var uids := Containing(sorted, prefix);
    assert g in uids;
    var last := uids[|uids| - 1];
    assert last in sorted && Contains(last, prefix);
    var i :| 0 <= i < |sorted| && sorted[i] == last;
    assert last == g || Less(last, g);
    LastOfSorted(uids, g);
  }

  /** An element of an ascending list that is not below the last one is the last one. */
  lemma LastOfSorted(uids: seq<string>, g: string)
    requires StrictlySorted(uids) && g in uids
    requires uids[|uids| - 1] == g || Less(uids[|uids| - 1], g)
    ensures uids[|uids| - 1] == g
  {
    var j :| 0 <= j < |uids| && uids[j] == g;
    if j != |uids| - 1 {
      assert Less(g, uids[|uids| - 1]);
      LessAsymmetric(g, uids[|uids| - 1]);
    }
  }

  /** The last UID `Containing` keeps from an ascending list is greater than every other it keeps. */
  lemma GreatestContaining(sorted: seq<string>, prefix: string)
    requires StrictlySorted(sorted) && Containing(sorted, prefix) != []
    ensures var last := Containing(sorted, prefix)[|Containing(sorted, prefix)| - 1];
      last in sorted && Contains(last, prefix) &&
      forall k :: k in sorted && Contains(k, prefix) && k != last ==> Less(k, last)
  {
    var uids := Containing(sorted, prefix);
    ContainingSorted(sorted, prefix);
    var last := uids[|uids| - 1];
    assert last in uids;
    forall k | k in sorted && Contains(k, prefix) && k != last ensures Less(k, last) {
      assert k in uids;
      var j :| 0 <= j < |uids| && uids[j] == k;
    }
  }

  /** The nonce step of `_generate_new_uid`, once the last containing UID is known. */
  lemma NewUidOfLast(sortedUids: seq<string>, o: Observation, last: string)
    requires Containing(sortedUids, ClassOf(o)) != []
    requires last == Containing(sortedUids, ClassOf(o))[|Containing(sortedUids, ClassOf(o))| - 1]
    requires Nonce(last).Some?
    ensures NewUid(sortedUids, o) == Some(Uid(o.dictionary, o.id, Nonce(last).value + 1))
  {
  }

  /** Single-digit nonces compare like their values. */
  lemma DigitUidLess(dictionary: int, id: int, a: nat, b: nat)
    requires a < 10 && b < 10
    requires Less(Uid(dictionary, id, a), Uid(dictionary, id, b))
    ensures a < b
  {
    var p := UidPrefix(dictionary, id) + "#";
    assert IntToString(a) == [DigitChar(a)] && IntToString(b) == [DigitChar(b)];
    assert Uid(dictionary, id, a) == p + [DigitChar(a)];
    assert Uid(dictionary, id, b) == p + [DigitChar(b)];
    LessCommonPrefix(p, [DigitChar(a)], [DigitChar(b)]);
  }

  /** A generated UID contains its own class prefix. */
  lemma UidContainsClass(o: Observation, nonce: int)
    ensures Contains(Uid(o.dictionary, o.id, nonce), ClassOf(o))
  {
    ContainsPrefix(ClassOf(o), "#" + IntToString(nonce));
    assert Uid(o.dictionary, o.id, nonce) == ClassOf(o) + ("#" + IntToString(nonce));
  }

  /**
   * The generated UID is fresh when every registered UID containing the
   * class prefix is of that class and has a single-digit nonce.
   */
  lemma NewUidFresh(reg: Register, o: Observation)
    requires WellFormed(reg)
    requires forall k :: k in reg && Contains(k, ClassOf(o)) ==> SameClass(k, o) && 0 <= Nonce(k).value < 10
    ensures GeneratedUid(reg, o) !in reg
  {
    var sorted := SortedOf(reg.Keys);
    var uids := Containing(sorted, ClassOf(o));
    if |uids| > 0 {
      var last := uids[|uids| - 1];
      GreatestRegistered(reg, o);
      var n := Nonce(last).value;
      RegisteredUidOfClass(reg, o, last);
      NewUidNext(reg, o, last);
      NextUidFresh(reg, o, last, n);
    } else {
      FirstUidFresh(reg, o);
    }
  }

  /** With no registered UID containing the class prefix, nonce 0 is generated and is free. */
  lemma FirstUidFresh(reg: Register, o: Observation)
    requires WellFormed(reg) && Containing(SortedOf(reg.Keys), ClassOf(o)) == []
    ensures GeneratedUid(reg, o) !in reg
  {
    var uid := GeneratedUid(reg, o);
    assert uid == Uid(o.dictionary, o.id, 0);
    UidContainsClass(o, 0);
  }

  /** The last registered UID containing the class prefix is the greatest such key of the register. */
  lemma GreatestRegistered(reg: Register, o: Observation)
    requires Containing(SortedOf(reg.Keys), ClassOf(o)) != []
    ensures var uids := Containing(SortedOf(reg.Keys), ClassOf(o)); var last := uids[|uids| - 1];
      last in reg && Contains(last, ClassOf(o)) &&
      forall k :: k in reg && Contains(k, ClassOf(o)) && k != last ==> Less(k, last)
  {
    var sorted := SortedOf(reg.Keys);
    GreatestContaining(sorted, ClassOf(o));
  }

  /** A well-formed key of the observation's class is that class's UID with the key's own nonce. */
  lemma RegisteredUidOfClass(reg: Register, o: Observation, k: string)
    requires WellFormed(reg) && k in reg && SameClass(k, o)
    ensures Nonce(k).Some? && k == Uid(o.dictionary, o.id, Nonce(k).value)
  {
    SameClassUid(reg[k].aruco.dictionary, reg[k].aruco.id, Nonce(k).value, o);
  }

  /** One past the nonce of the greatest containing UID is not registered, when nonces have one digit. */
  lemma NextUidFresh(reg: Register, o: Observation, last: string, n: int)
    requires WellFormed(reg)
    requires forall k :: k in reg && Contains(k, ClassOf(o)) ==> SameClass(k, o) && 0 <= Nonce(k).value < 10
    requires last in reg && last == Uid(o.dictionary, o.id, n)
    requires forall k :: k in reg && Contains(k, ClassOf(o)) && k != last ==> Less(k, last)
    ensures Uid(o.dictionary, o.id, n + 1) !in reg
  {
    var uid := Uid(o.dictionary, o.id, n + 1);
    UidContainsClass(o, n);
    UidContainsClass(o, n + 1);
    UidParts(o.dictionary, o.id, n);
    UidParts(o.dictionary, o.id, n + 1);
    if uid in reg {
      assert Nonce(uid) != Nonce(last);
      DigitUidLess(o.dictionary, o.id, n + 1, n);
    }
  }

  /**
   * The rule as written: with eleven live markers of one class, nonces 0 to
   * 10, the UID generated for a twelfth is `...#10` again, because `"#9"`
   * sorts after `"#10"`. Registering it overwrites a live entry.
   */
  lemma ElevenLiveMarkersCollide(reg: Register, o: Observation)
    requires WellFormed(reg)
    requires forall j :: 0 <= j <= 10 ==> Uid(o.dictionary, o.id, j) in reg
    requires forall k :: k in reg && Contains(k, ClassOf(o)) ==> SameClass(k, o) && 0 <= Nonce(k).value <= 10
    ensures GeneratedUid(reg, o) == Uid(o.dictionary, o.id, 10)
    ensures GeneratedUid(reg, o) in reg
  {
    var g := Uid(o.dictionary, o.id, 9);
    assert g in reg;
    UidContainsClass(o, 9);
    forall k | k in reg && Contains(k, ClassOf(o)) && k != g ensures Less(k, g) {
      var n := Nonce(k).value;
      SameClassUid(reg[k].aruco.dictionary, reg[k].aruco.id, n, o);
      assert k == Uid(o.dictionary, o.id, n);
      var p := UidPrefix(o.dictionary, o.id) + "#";
      assert g == p + ['9'];
      if n == 10 {
        assert IntToString(10) == ['1', '0'];
        assert k == p + ['1', '0'];
        LessCommonPrefix(p, ['1', '0'], ['9']);
      } else {
        assert n != 9;
        assert IntToString(n) == [DigitChar(n)];
        assert k == p + [DigitChar(n)];
        LessCommonPrefix(p, [DigitChar(n)], ['9']);
      }
    }
    NewUidNext(reg, o, g);
    UidParts(o.dictionary, o.id, 9);
  }

  /** Eleven live markers of one class: a register that meets the lemma above. */
  lemma ElevenLiveMarkersExist(o: Observation)
    ensures var reg := map j | 0 <= j <= 10 :: Uid(o.dictionary, o.id, j) := Entry(0, o);
      && WellFormed(reg)
      && (forall j :: 0 <= j <= 10 ==> Uid(o.dictionary, o.id, j) in reg)
      && (forall k :: k in reg && Contains(k, ClassOf(o)) ==> SameClass(k, o) && 0 <= Nonce(k).value <= 10)
  {
    var reg := map j | 0 <= j <= 10 :: Uid(o.dictionary, o.id, j) := Entry(0, o);
    forall k | k in reg
      ensures Nonce(k).Some? && 0 <= Nonce(k).value <= 10 && SameClass(k, o)
      ensures k == Uid(reg[k].aruco.dictionary, reg[k].aruco.id, Nonce(k).value)
    {
      var j :| 0 <= j <= 10 && k == Uid(o.dictionary, o.id, j);
      UidParts(o.dictionary, o.id, j);
    }
  }
}
