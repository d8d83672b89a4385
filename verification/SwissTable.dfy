/** The fixed-size Swiss table: an open-addressing hash table probed sixteen
    control bytes at a time. A slot's control byte is EMPTY, DELETED (a
    tombstone) or the seven-bit fingerprint of the key in the slot. */
module SwissTable {
  import opened Wrappers
  import opened Bits
  import opened Bytes

  type U64 = h: int | 0 <= h < 0x1_0000_0000_0000_0000

  const EMPTY: Byte := 0xFF
  const DELETED: Byte := 0x80
  const CAPACITY: nat := 128
  const LANES: nat := 16
  const GROUPS: nat := 8

  type Slot<K, V> = Option<(K, V)>

  // ---- Where a key is looked for ----

  /** The group that holds slot `hash mod CAPACITY` */
  function Home(hash: U64): (g: nat)
    ensures g < GROUPS && (hash - LANES * g) % CAPACITY < LANES
  {
    hash % CAPACITY / LANES
  }

  /** The leftmost seven bits of the hash */
  function Fingerprint(hash: U64): (f: Byte)
    ensures f < 0x80 && f * 0x200_0000_0000_0000 <= hash < (f + 1) * 0x200_0000_0000_0000
  {
    hash / 0x200_0000_0000_0000
  }

  function GroupOf(slot: nat): nat { slot / LANES }

  /** The i-th group on the cyclic probe path that starts at `home` */
  function PathGroup(home: nat, i: nat): (g: nat)
    requires home < GROUPS && i < GROUPS
    ensures g < GROUPS
    ensures Distance(home, g) == i
  {
    if home + i < GROUPS then home + i else home + i - GROUPS
  }

  /** How many groups the path from `home` visits before `group` */
  function Distance(home: nat, group: nat): (d: nat)
    requires home < GROUPS && group < GROUPS
    ensures d < GROUPS
  {
    if home <= group then group - home else group + GROUPS - home
  }

  // ---- The representation invariant, on values ----

  ghost predicate HoldsEmpty(ctrl: seq<Byte>, group: nat) {
    exists s :: 0 <= s < |ctrl| && GroupOf(s) == group && ctrl[s] == EMPTY
  }

  ghost predicate HasEmpty(ctrl: seq<Byte>) {
    exists s :: 0 <= s < |ctrl| && ctrl[s] == EMPTY
  }

  /** Slot `s` and its control byte agree: the byte is FULL exactly when the slot
      holds a pair, and then it is that key's fingerprint. */
  ghost predicate SlotAgrees<K, V>(ctrl: seq<Byte>, slots: seq<Slot<K, V>>, at: map<K, nat>, hash: K -> U64, s: nat)
    requires s < |ctrl| && s < |slots|
  {
    if slots[s].None? then ctrl[s] == EMPTY || ctrl[s] == DELETED
    else var k := slots[s].value.0; ctrl[s] == Fingerprint(hash(k)) && k in at && at[k] == s
  }

  /** No group on the path from the key's home to just before its own group has
      an EMPTY, so no probe for the key stops short of it. */
  ghost predicate Reachable(ctrl: seq<Byte>, home: nat, slot: nat)
    requires home < GROUPS && slot < CAPACITY
  {
    forall i :: 0 <= i < Distance(home, GroupOf(slot)) ==> !HoldsEmpty(ctrl, PathGroup(home, i))
  }

  /** `at` gives the one slot of each key in the table. */
  ghost predicate Consistent<K, V>(ctrl: seq<Byte>, slots: seq<Slot<K, V>>, at: map<K, nat>, hash: K -> U64) {
    && |ctrl| == |slots| == CAPACITY
    && (forall s :: 0 <= s < CAPACITY ==> SlotAgrees(ctrl, slots, at, hash, s))
    && (forall k :: k in at ==> at[k] < CAPACITY && slots[at[k]].Some? && slots[at[k]].value.0 == k)
    && (forall k :: k in at ==> Reachable(ctrl, Home(hash(k)), at[k]))
  }

  ghost function MapOf<K, V>(ctrl: seq<Byte>, slots: seq<Slot<K, V>>, at: map<K, nat>, hash: K -> U64): map<K, V>
    requires Consistent(ctrl, slots, at, hash)
  {
    map k | k in at :: slots[at[k]].value.1
  }

  // ---- Where an absent key goes ----

  /** The probe from `home` stops at the i-th group of its path: the first with an EMPTY. */
  ghost predicate StopsAt(ctrl: seq<Byte>, home: nat, i: nat)
    requires home < GROUPS
  {
    && i < GROUPS
    && HoldsEmpty(ctrl, PathGroup(home, i))
    && forall j :: 0 <= j < i ==> !HoldsEmpty(ctrl, PathGroup(home, j))
  }

  /** `t` is the first tombstone on the path up to and including group `last`. */
  ghost predicate FirstTombstone(ctrl: seq<Byte>, home: nat, last: nat, t: nat)
    requires |ctrl| == CAPACITY && home < GROUPS
  {
    && t < CAPACITY && ctrl[t] == DELETED && Distance(home, GroupOf(t)) <= last
    && forall s :: 0 <= s < CAPACITY && ctrl[s] == DELETED ==>
         || Distance(home, GroupOf(s)) > Distance(home, GroupOf(t))
         || (GroupOf(s) == GroupOf(t) && s >= t)
  }

  ghost predicate NoTombstone(ctrl: seq<Byte>, home: nat, last: nat)
    requires |ctrl| == CAPACITY && home < GROUPS
  {
    forall s :: 0 <= s < CAPACITY && ctrl[s] == DELETED ==> Distance(home, GroupOf(s)) > last
  }

  /** An absent key takes the first tombstone on the probed path, and an EMPTY
      (the first of the group where the probe stops) only if there is none. */
  ghost predicate TargetSlot(ctrl: seq<Byte>, home: nat, slot: nat)
    requires |ctrl| == CAPACITY && home < GROUPS
  {
    exists last :: StopsAt(ctrl, home, last) &&
      if NoTombstone(ctrl, home, last) then
        && slot < CAPACITY && ctrl[slot] == EMPTY
        && GroupOf(slot) == PathGroup(home, last)
        && (forall s :: 0 <= s < slot && GroupOf(s) == GroupOf(slot) ==> ctrl[s] != EMPTY)
      else
        FirstTombstone(ctrl, home, last, slot)
  }

  // ---- Probing as a mathematical walk ----

  ghost predicate HoldsKey<K, V>(slots: seq<Slot<K, V>>, group: nat, key: K) {
    exists s :: 0 <= s < |slots| && GroupOf(s) == group && slots[s].Some? && slots[s].value.0 == key
  }

  /** The next group start, with the wrap at the end of the table */
  function NextStart(start: nat): (n: nat)
  {
    And(start + LANES, CAPACITY - 1)
  }

  /** Where the n-th group read by a probe starts, if it gets that far */
  function WalkStart(home: nat, n: nat): nat {
    if n == 0 then home * LANES else NextStart(WalkStart(home, n - 1))
  }

  lemma CapacityIsPower()
    ensures Pow2(7) == CAPACITY
  {
    assert Pow2(2) == 4 && Pow2(4) == 16 && Pow2(6) == 64;
  }

  lemma NextStartIsNextGroup(g: nat)
    requires g < GROUPS
    ensures NextStart(g * LANES) == (if g + 1 < GROUPS then g + 1 else 0) * LANES
  {
    hide And, Pow2;
    CapacityIsPower();
    LowMaskIsRemainder(g * LANES + LANES, 7);
    assert (g * LANES + LANES) % CAPACITY == if g + 1 < GROUPS then g * LANES + LANES else 0;
  }

  lemma PathGoesOn(home: nat, i: nat)
    requires home < GROUPS && i < GROUPS
    ensures var g := PathGroup(home, i);
            PathGroup(home, if i + 1 < GROUPS then i + 1 else 0) == (if g + 1 < GROUPS then g + 1 else 0)
  {
  }

  lemma {:induction false} WalkFollowsPath(home: nat, n: nat)
    requires home < GROUPS
    ensures WalkStart(home, n) == PathGroup(home, n % GROUPS) * LANES
  {
    if n > 0 {
      var i := (n - 1) % GROUPS;
      NextRemainder(n - 1);
      WalkFollowsPath(home, n - 1);
      NextStartIsNextGroup(PathGroup(home, i));
      PathGoesOn(home, i);
      assert WalkStart(home, n) == NextStart(WalkStart(home, n - 1));
      hide *;
    }
  }

  lemma NextRemainder(n: nat)
    ensures (n + 1) % GROUPS == if n % GROUPS + 1 < GROUPS then n % GROUPS + 1 else 0
  {
  }

  /** A probe for `key` has returned after reading at most `n` groups. */
  ghost predicate ReturnsWithin<K, V>(ctrl: seq<Byte>, slots: seq<Slot<K, V>>, home: nat, key: K, n: nat) {
    exists i :: 0 <= i < n &&
      var g := GroupOf(WalkStart(home, i)); HoldsKey(slots, g, key) || HoldsEmpty(ctrl, g)
  }

  lemma ProbeReturns<K, V>(ctrl: seq<Byte>, slots: seq<Slot<K, V>>, home: nat, key: K, s: nat)
    requires |ctrl| == |slots| == CAPACITY && home < GROUPS && s < CAPACITY
    requires ctrl[s] == EMPTY || (slots[s].Some? && slots[s].value.0 == key)
    ensures ReturnsWithin(ctrl, slots, home, key, GROUPS)
  {
    var i := Distance(home, GroupOf(s));
    assert i % GROUPS == i && PathGroup(home, i) == GroupOf(s);
    assert GroupOf(WalkStart(home, i)) == GroupOf(s) by {
      WalkFollowsPath(home, i);
    }
    hide WalkStart, GroupOf;
    assert HoldsKey(slots, GroupOf(s), key) || HoldsEmpty(ctrl, GroupOf(s));
  }

  lemma ProbeRunsForever<K, V>(ctrl: seq<Byte>, slots: seq<Slot<K, V>>, home: nat, key: K, n: nat)
    requires !HasEmpty(ctrl)
    requires forall s :: 0 <= s < |slots| && slots[s].Some? ==> slots[s].value.0 != key
    ensures !ReturnsWithin(ctrl, slots, home, key, n)
  {
  }

  /** A probe returns at all exactly when the key is present or some slot is
      EMPTY, and then it reads no group twice. On a table with no EMPTY a probe for
      an absent key runs for ever. */
  lemma ProbeReturnsExactlyWhen<K, V>(ctrl: seq<Byte>, slots: seq<Slot<K, V>>, at: map<K, nat>, hash: K -> U64, key: K)
    requires Consistent(ctrl, slots, at, hash)
    ensures (exists n :: ReturnsWithin(ctrl, slots, Home(hash(key)), key, n)) <==> key in at || HasEmpty(ctrl)
    ensures key in at || HasEmpty(ctrl) ==> ReturnsWithin(ctrl, slots, Home(hash(key)), key, GROUPS)
  {
    var home := Home(hash(key));
    if key in at {
      ProbeReturns(ctrl, slots, home, key, at[key]);
    } else if HasEmpty(ctrl) {
      var s :| 0 <= s < |ctrl| && ctrl[s] == EMPTY;
      ProbeReturns(ctrl, slots, home, key, s);
    } else {
      forall s | 0 <= s < |slots| && slots[s].Some? ensures slots[s].value.0 != key {
        assert SlotAgrees(ctrl, slots, at, hash, s);
      }
      forall n: nat ensures !ReturnsWithin(ctrl, slots, home, key, n) {
        ProbeRunsForever(ctrl, slots, home, key, n);
      }
    }
  }

  lemma TargetIsFree(ctrl: seq<Byte>, home: nat, slot: nat)
    requires |ctrl| == CAPACITY && home < GROUPS
    requires TargetSlot(ctrl, home, slot)
    ensures slot < CAPACITY && ctrl[slot] >= 0x80
    ensures Reachable(ctrl, home, slot)
  {
    var last :| StopsAt(ctrl, home, last) &&
      if NoTombstone(ctrl, home, last) then
        && slot < CAPACITY && ctrl[slot] == EMPTY
        && GroupOf(slot) == PathGroup(home, last)
        && (forall s :: 0 <= s < slot && GroupOf(s) == GroupOf(slot) ==> ctrl[s] != EMPTY)
      else
        FirstTombstone(ctrl, home, last, slot);
  }

  /** No write of a non-EMPTY byte makes a group hold an EMPTY. */
  lemma EmptiesOnlyShrink(ctrl: seq<Byte>, slot: nat, b: Byte)
    requires slot < |ctrl| && b != EMPTY
    ensures forall g :: HoldsEmpty(ctrl[slot := b], g) ==> HoldsEmpty(ctrl, g)
  {
    forall g | HoldsEmpty(ctrl[slot := b], g) ensures HoldsEmpty(ctrl, g) {
      var s :| 0 <= s < |ctrl| && GroupOf(s) == g && ctrl[slot := b][s] == EMPTY;
      assert ctrl[s] == EMPTY;
    }
  }

  /** Writing an absent key into its target slot keeps the invariant, with the map
      extended by the pair. */
  lemma InsertKeepsConsistent<K, V>(ctrl: seq<Byte>, slots: seq<Slot<K, V>>, at: map<K, nat>, hash: K -> U64,
                                    key: K, value: V, slot: nat)
    requires Consistent(ctrl, slots, at, hash) && key !in at
    requires TargetSlot(ctrl, Home(hash(key)), slot)
    ensures slot < CAPACITY
    ensures var ctrl', slots', at' := ctrl[slot := Fingerprint(hash(key))], slots[slot := Some((key, value))], at[key := slot];
            && Consistent(ctrl', slots', at', hash)
            && MapOf(ctrl', slots', at', hash) == MapOf(ctrl, slots, at, hash)[key := value]
  {
    TargetIsFree(ctrl, Home(hash(key)), slot);
    var ctrl', slots', at' := ctrl[slot := Fingerprint(hash(key))], slots[slot := Some((key, value))], at[key := slot];
    EmptiesOnlyShrink(ctrl, slot, Fingerprint(hash(key)));
    assert slots[slot] == None by { assert SlotAgrees(ctrl, slots, at, hash, slot); }
    forall s | 0 <= s < CAPACITY ensures SlotAgrees(ctrl', slots', at', hash, s) {
      assert SlotAgrees(ctrl, slots, at, hash, s);
    }
    forall k | k in at' ensures Reachable(ctrl', Home(hash(k)), at'[k]) {
      if k != key {
        assert Reachable(ctrl, Home(hash(k)), at[k]);
      }
    }
  }

  /** Turning a key's slot into a tombstone keeps the invariant: it hides no other
      key, since no EMPTY appears. */
  lemma DeleteKeepsConsistent<K, V>(ctrl: seq<Byte>, slots: seq<Slot<K, V>>, at: map<K, nat>, hash: K -> U64, key: K)
    requires Consistent(ctrl, slots, at, hash) && key in at
    ensures var ctrl', slots', at' := ctrl[at[key] := DELETED], slots[at[key] := None], at - {key};
            && Consistent(ctrl', slots', at', hash)
            && MapOf(ctrl', slots', at', hash) == MapOf(ctrl, slots, at, hash) - {key}
  {
    var ctrl', slots', at' := ctrl[at[key] := DELETED], slots[at[key] := None], at - {key};
    forall s | 0 <= s < CAPACITY ensures SlotAgrees(ctrl', slots', at', hash, s) {
      assert SlotAgrees(ctrl, slots, at, hash, s);
    }
    EmptiesOnlyShrink(ctrl, at[key], DELETED);
    forall k | k in at' ensures Reachable(ctrl', Home(hash(k)), at'[k]) {
      assert Reachable(ctrl, Home(hash(k)), at[k]);
    }
  }

  /** Replacing the value of a present key touches no control byte. */
  lemma OverwriteKeepsConsistent<K, V>(ctrl: seq<Byte>, slots: seq<Slot<K, V>>, at: map<K, nat>, hash: K -> U64,
                                       key: K, value: V)
    requires Consistent(ctrl, slots, at, hash) && key in at
    ensures var slots' := slots[at[key] := Some((key, value))];
            && Consistent(ctrl, slots', at, hash)
            && MapOf(ctrl, slots', at, hash) == MapOf(ctrl, slots, at, hash)[key := value]
  {
    var slots' := slots[at[key] := Some((key, value))];
    forall s | 0 <= s < CAPACITY ensures SlotAgrees(ctrl, slots', at, hash, s) {
      assert SlotAgrees(ctrl, slots, at, hash, s);
    }
  }

  lemma MasksOfCapacity(hash: U64)
    ensures And(hash, CAPACITY - 1) == hash % CAPACITY
    ensures AndNot(hash % CAPACITY, LANES - 1) == Home(hash) * LANES
  {
    assert Pow2(4) == LANES by { assert Pow2(2) == 4; }
    assert Pow2(7) == CAPACITY by { assert Pow2(5) == 32; }
    LowMaskIsRemainder(hash, 7);
    LowMaskIsRemainder(hash % CAPACITY, 4);
    AndNotComplement(hash % CAPACITY, LANES - 1);
  }

  /** What a probe knows before it reads group `n` of its path: no EMPTY so far,
      and the key, if present, lies further along. */
  ghost predicate Unseen<K>(ctrl: seq<Byte>, home: nat, n: nat, key: K, at: map<K, nat>)
    requires home < GROUPS && n <= GROUPS
  {
    && (forall j :: 0 <= j < n ==> !HoldsEmpty(ctrl, PathGroup(home, j)))
    && (key in at && at[key] < CAPACITY ==> n <= Distance(home, GroupOf(at[key])))
  }

  /** A group without the key and without an EMPTY is not the last one. */
  lemma NextUnseen<K, V>(ctrl: seq<Byte>, slots: seq<Slot<K, V>>, at: map<K, nat>, hash: K -> U64, key: K, n: nat)
    requires Consistent(ctrl, slots, at, hash) && n < GROUPS
    requires Unseen(ctrl, Home(hash(key)), n, key, at)
    requires FirstOf(ctrl, PathGroup(Home(hash(key)), n) * LANES, EMPTY, None)
    requires key in at ==> !InGroup(PathGroup(Home(hash(key)), n) * LANES, at[key])
    requires key in at || HasEmpty(ctrl)
    ensures n + 1 < GROUPS
    ensures Unseen(ctrl, Home(hash(key)), n + 1, key, at)
  {
    var home := Home(hash(key));
    assert !HoldsEmpty(ctrl, PathGroup(home, n));
    if key in at {
      assert PathGroup(home, Distance(home, GroupOf(at[key]))) == GroupOf(at[key]);
    } else {
      var s :| 0 <= s < |ctrl| && ctrl[s] == EMPTY;
      assert HoldsEmpty(ctrl, GroupOf(s));
      assert PathGroup(home, Distance(home, GroupOf(s))) == GroupOf(s);
    }
  }

  /** A group without the key but with an EMPTY ends the probe: the key is absent. */
  lemma UnseenAndStopped<K, V>(ctrl: seq<Byte>, slots: seq<Slot<K, V>>, at: map<K, nat>, hash: K -> U64, key: K, n: nat, e: nat)
    requires Consistent(ctrl, slots, at, hash) && n < GROUPS
    requires Unseen(ctrl, Home(hash(key)), n, key, at)
    requires FirstOf(ctrl, PathGroup(Home(hash(key)), n) * LANES, EMPTY, Some(e))
    requires key in at ==> !InGroup(PathGroup(Home(hash(key)), n) * LANES, at[key])
    ensures key !in at && StopsAt(ctrl, Home(hash(key)), n)
  {
    var home := Home(hash(key));
    assert HoldsEmpty(ctrl, PathGroup(home, n));
  }

  lemma ProbeBegins<K>(ctrl: seq<Byte>, home: nat, key: K, at: map<K, nat>)
    requires |ctrl| == CAPACITY && home < GROUPS
    ensures PathGroup(home, 0) == home && Unseen(ctrl, home, 0, key, at) && TombstoneSoFar(ctrl, home, 0, None)
  {
  }

  lemma NextOnPath(home: nat, n: nat)
    requires home < GROUPS && n + 1 < GROUPS
    ensures NextStart(PathGroup(home, n) * LANES) == PathGroup(home, n + 1) * LANES
  {
    NextStartIsNextGroup(PathGroup(home, n));
  }

  lemma TargetFound(ctrl: seq<Byte>, home: nat, n: nat, first: Option<nat>, e: nat)
    requires |ctrl| == CAPACITY && home < GROUPS && n < GROUPS
    requires StopsAt(ctrl, home, n) && TombstoneSoFar(ctrl, home, n + 1, first)
    requires FirstOf(ctrl, PathGroup(home, n) * LANES, EMPTY, Some(e))
    ensures TargetSlot(ctrl, home, if first.Some? then first.value else e)
  {
  }

  // ---- The table itself ----

  /** Which of the sixteen bytes from `start` equal `b` */
  ghost function EqualLanes(ctrl: seq<Byte>, start: nat, b: Byte): (lanes: seq<bool>)
    requires start + LANES <= |ctrl|
    ensures |lanes| == LANES && forall i :: 0 <= i < LANES ==> lanes[i] == (ctrl[start + i] == b)
  {
    seq(LANES, i requires 0 <= i < LANES => ctrl[start + i] == b)
  }

  /** A slot whose byte is the key's fingerprint holds a pair, and the slot that
      holds the key, if there is one, has that byte. */
  lemma FingerprintsGuide<K, V>(ctrl: seq<Byte>, slots: seq<Slot<K, V>>, at: map<K, nat>, hash: K -> U64, key: K)
    requires Consistent(ctrl, slots, at, hash)
    ensures forall s :: 0 <= s < CAPACITY && ctrl[s] == Fingerprint(hash(key)) ==> slots[s].Some?
    ensures forall s :: 0 <= s < CAPACITY && slots[s].Some? && slots[s].value.0 == key ==> key in at && at[key] == s
    ensures key in at ==> ctrl[at[key]] == Fingerprint(hash(key)) && slots[at[key]].Some? && slots[at[key]].value.0 == key
  {
    forall s | 0 <= s < CAPACITY && ctrl[s] < 0x80 ensures slots[s].Some? {
      assert SlotAgrees(ctrl, slots, at, hash, s);
    }
    forall s | 0 <= s < CAPACITY && slots[s].Some? && slots[s].value.0 == key ensures key in at && at[key] == s {
      assert SlotAgrees(ctrl, slots, at, hash, s);
    }
    if key in at {
      assert SlotAgrees(ctrl, slots, at, hash, at[key]);
    }
  }

  predicate InGroup(start: nat, s: int) {
    start <= s < start + LANES
  }

  /** `found` is the lowest slot of the group at `start` whose byte is `b`, if any. */
  ghost predicate FirstOf(ctrl: seq<Byte>, start: nat, b: Byte, found: Option<nat>) {
    match found
    case None => forall s :: 0 <= s < |ctrl| && InGroup(start, s) ==> ctrl[s] != b
    case Some(f) => InGroup(start, f) && f < |ctrl| && ctrl[f] == b && forall s :: start <= s < f ==> ctrl[s] != b
  }

  /** One more group: the first tombstone so far, given the first of this group */
  lemma TombstoneStep(ctrl: seq<Byte>, home: nat, n: nat, first: Option<nat>, here: Option<nat>)
    requires |ctrl| == CAPACITY && home < GROUPS && n < GROUPS
    requires TombstoneSoFar(ctrl, home, n, first)
    requires FirstOf(ctrl, PathGroup(home, n) * LANES, DELETED, here)
    ensures TombstoneSoFar(ctrl, home, n + 1, if first.None? then here else first)
  {
    forall s | 0 <= s < CAPACITY && Distance(home, GroupOf(s)) == n ensures GroupOf(s) == PathGroup(home, n) {
    }
  }

  /** `first` is the first tombstone in the first `n` groups of the path, if any. */
  ghost predicate TombstoneSoFar(ctrl: seq<Byte>, home: nat, n: nat, first: Option<nat>)
    requires |ctrl| == CAPACITY && home < GROUPS
  {
    match first
    case None => n == 0 || NoTombstone(ctrl, home, n - 1)
    case Some(t) => n > 0 && FirstTombstone(ctrl, home, n - 1, t)
  }

  class HashMap<K(==), V> {
    const ctrl: array<Byte>
    const hashtable: array<Slot<K, V>>
    const hash: K -> U64
    ghost var at: map<K, nat>

    ghost predicate Valid()
      reads this, ctrl, hashtable
    {
      Consistent(ctrl[..], hashtable[..], at, hash)
    }

    ghost function Contents(): map<K, V>
      reads this, ctrl, hashtable
      requires Valid()
    {
      MapOf(ctrl[..], hashtable[..], at, hash)
    }

    constructor (hash: K -> U64)
      ensures Valid() && fresh(ctrl) && fresh(hashtable) && this.hash == hash
      ensures Contents() == map[]
      ensures forall s :: 0 <= s < CAPACITY ==> ctrl[s] == EMPTY
    {
      this.hash := hash;
      ctrl := new Byte[CAPACITY](_ => EMPTY);
      hashtable := new Slot<K, V>[CAPACITY](_ => None);
      at := map[];
    }

    /** Compare sixteen control bytes with `b`; digit i of the mask is lane i. */
    method CompareMask(start: nat, b: Byte) returns (mask: nat)
      requires start + LANES <= ctrl.Length
      ensures mask == Movemask(EqualLanes(ctrl[..], start, b))
    {
      ghost var lanes := EqualLanes(ctrl[..], start, b);
      mask := 0;
      var lane := LANES;
      while lane > 0
        invariant 0 <= lane <= LANES
        invariant mask == Movemask(lanes[lane..])
      {
        lane := lane - 1;
        mask := (if ctrl[start + lane] == b then 1 else 0) + 2 * mask;
        assert lanes[lane..][1..] == lanes[lane + 1..];
      }
      assert lanes[0..] == lanes;
    }

    /** Check every lane whose control byte is the fingerprint against the key. */
    method MatchInGroup(start: nat, fingerprint: Byte, key: K) returns (found: Option<nat>)
      requires start + LANES <= ctrl.Length == hashtable.Length
      requires forall s :: start <= s < start + LANES && ctrl[s] == fingerprint ==> hashtable[s].Some?
      ensures found.Some? ==>
                && start <= found.value < start + LANES && ctrl[found.value] == fingerprint
                && hashtable[found.value].value.0 == key
      ensures found.None? ==>
                forall s :: start <= s < start + LANES && ctrl[s] == fingerprint ==> hashtable[s].value.0 != key
    {
      hide And, Movemask, TrailingZeros;
      var mask := CompareMask(start, fingerprint);
      ghost var lanes := EqualLanes(ctrl[..], start, fingerprint);
      while mask != 0
        invariant |lanes| == LANES && mask == Movemask(lanes)
        invariant forall i :: 0 <= i < LANES && lanes[i] ==> ctrl[start + i] == fingerprint
        invariant forall s :: start <= s < start + LANES && ctrl[s] == fingerprint ==>
                    lanes[s - start] || hashtable[s].value.0 != key
        decreases mask
      {
        LowestLane(lanes);
        var lane := TrailingZeros(mask);
        var slot := start + lane;
        if hashtable[slot].value.0 == key {
          return Some(slot);
        }
        mask := And(mask, mask - 1);
        lanes := lanes[lane := false];
      }
      return None;
    }

    /** The key's slot, if it lies in the group that begins at `start` */
    method KeyInGroup(start: nat, fingerprint: Byte, key: K) returns (found: Option<nat>)
      requires Valid() && start + LANES <= CAPACITY && fingerprint == Fingerprint(hash(key))
      ensures found.Some? ==> key in at && found.value == at[key]
      ensures found.None? && key in at ==> !InGroup(start, at[key])
    {
      FingerprintsGuide(ctrl[..], hashtable[..], at, hash, key);
      found := MatchInGroup(start, fingerprint, key);
    }

    /** The lowest slot of the group whose control byte is `b` */
    method FirstInGroup(start: nat, b: Byte) returns (found: Option<nat>)
      requires start + LANES <= ctrl.Length
      ensures FirstOf(ctrl[..], start, b, found)
    {
      var mask := CompareMask(start, b);
      ghost var lanes := EqualLanes(ctrl[..], start, b);
      if mask == 0 {
        forall s | start <= s < start + LANES ensures ctrl[s] != b {
          assert !lanes[s - start];
        }
        return None;
      }
      LowestLane(lanes);
      forall s | start <= s < start + TrailingZeros(mask) ensures ctrl[s] != b {
        assert !lanes[s - start];
      }
      return Some(start + TrailingZeros(mask));
    }

    /** The start of the group a probe for `hash` reads first */
    static method ProbeStart(hash: U64) returns (start: nat)
      ensures start == Home(hash) * LANES
    {
      MasksOfCapacity(hash);
      var idx := And(hash, CAPACITY - 1);
      start := AndNot(idx, LANES - 1);
    }

    /** `Some(v)` exactly when the map holds `key` with value `v`. A probe for an
        absent key needs an EMPTY slot to stop at. */
    method Get(key: K) returns (value: Option<V>)
      requires Valid()
      requires key in Contents() || HasEmpty(ctrl[..])
      ensures value == if key in Contents() then Some(Contents()[key]) else None
    {
      var fingerprint := Fingerprint(hash(key));
      var start := ProbeStart(hash(key));
      ghost var home, n := Home(hash(key)), 0;
      ProbeBegins(ctrl[..], home, key, at);
      hide Unseen, StopsAt, PathGroup, FirstOf, InGroup, HasEmpty;
      while true
        invariant n < GROUPS && start == PathGroup(home, n) * LANES
        invariant Unseen(ctrl[..], home, n, key, at)
        decreases GROUPS - n
      {
        var found := KeyInGroup(start, fingerprint, key);
        if found.Some? {
          return Some(hashtable[found.value].value.1);
        }
        var empty := FirstInGroup(start, EMPTY);
        if empty.Some? {
          UnseenAndStopped(ctrl[..], hashtable[..], at, hash, key, n, empty.value);
          return None;
        }
        NextUnseen(ctrl[..], hashtable[..], at, hash, key, n);
        NextOnPath(home, n);
        start, n := NextStart(start), n + 1;
      }
    }

    /** The probing half of an insert: the slot that holds the key, or else the slot
        an absent key goes to. */
    method FindForInsert(key: K) returns (present: bool, slot: nat)
      requires Valid()
      requires key in at || HasEmpty(ctrl[..])
      ensures present <==> key in at
      ensures if present then slot == at[key] else TargetSlot(ctrl[..], Home(hash(key)), slot)
    {
      var fingerprint := Fingerprint(hash(key));
      var start := ProbeStart(hash(key));
      var firstTombstone: Option<nat> := None;
      ghost var home, n := Home(hash(key)), 0;
      ProbeBegins(ctrl[..], home, key, at);
      hide Consistent, Unseen, StopsAt, PathGroup, FirstOf, InGroup, HasEmpty, TombstoneSoFar, TargetSlot;
      while true
        invariant n < GROUPS && start == PathGroup(home, n) * LANES
        invariant Unseen(ctrl[..], home, n, key, at)
        invariant TombstoneSoFar(ctrl[..], home, n, firstTombstone)
        decreases GROUPS - n
      {
        var found := KeyInGroup(start, fingerprint, key);
        if found.Some? {
          return true, found.value;
        }
        var deleted := FirstInGroup(start, DELETED);
        TombstoneStep(ctrl[..], home, n, firstTombstone, deleted);
        if firstTombstone.None? && deleted.Some? {
          firstTombstone := deleted;
        }
        var empty := FirstInGroup(start, EMPTY);
        if empty.Some? {
          UnseenAndStopped(ctrl[..], hashtable[..], at, hash, key, n, empty.value);
          TargetFound(ctrl[..], home, n, firstTombstone, empty.value);
          return false, if firstTombstone.Some? then firstTombstone.value else empty.value;
        }
        NextUnseen(ctrl[..], hashtable[..], at, hash, key, n);
        NextOnPath(home, n);
        start, n := NextStart(start), n + 1;
      }
    }

    /** The map gains or overwrites the pair. An overwrite changes no control byte;
        an absent key takes its target slot and nothing else changes. */
    method Insert(key: K, value: V)
      requires Valid()
      requires key in Contents() || HasEmpty(ctrl[..])
      modifies this, ctrl, hashtable
      ensures Valid() && Contents() == old(Contents())[key := value]
      ensures key in old(at) ==> ctrl[..] == old(ctrl[..]) && at == old(at)
      ensures key !in old(at) ==>
                && key in at
                && TargetSlot(old(ctrl[..]), Home(hash(key)), at[key])
                && at == old(at)[key := at[key]]
                && ctrl[..] == old(ctrl[..])[at[key] := Fingerprint(hash(key))]
    {
      var present, slot := FindForInsert(key);
      if present {
        OverwriteKeepsConsistent(ctrl[..], hashtable[..], at, hash, key, value);
        hashtable[slot] := Some((key, value));
      } else {
        InsertKeepsConsistent(ctrl[..], hashtable[..], at, hash, key, value, slot);
        ctrl[slot] := Fingerprint(hash(key));
        hashtable[slot] := Some((key, value));
        at := at[key := slot];
      }
    }

    /** The map loses `key`. A present key's slot becomes a tombstone; an absent key
        changes nothing. */
    method Delete(key: K)
      requires Valid()
      requires key in Contents() || HasEmpty(ctrl[..])
      modifies this, ctrl, hashtable
      ensures Valid() && Contents() == old(Contents()) - {key}
      ensures at == old(at) - {key}
      ensures ctrl[..] == if key in old(at) then old(ctrl[..])[old(at)[key] := DELETED] else old(ctrl[..])
    {
      var fingerprint := Fingerprint(hash(key));
      var start := ProbeStart(hash(key));
      ghost var home, n := Home(hash(key)), 0;
      var found;
      ghost var c, h := ctrl[..], hashtable[..];
      ProbeBegins(c, home, key, at);
      hide Consistent, Unseen, StopsAt, PathGroup, FirstOf, InGroup, HasEmpty;
      while true
        invariant ctrl[..] == c && hashtable[..] == h
        invariant n < GROUPS && start == PathGroup(home, n) * LANES
        invariant Unseen(c, home, n, key, at)
        modifies {}
        decreases GROUPS - n
      {
        found := KeyInGroup(start, fingerprint, key);
        if found.Some? {
          break;
        }
        var empty := FirstInGroup(start, EMPTY);
        if empty.Some? {
          UnseenAndStopped(c, h, at, hash, key, n, empty.value);
          return;
        }
        NextUnseen(c, h, at, hash, key, n);
        NextOnPath(home, n);
        start, n := NextStart(start), n + 1;
      }
      DeleteKeepsConsistent(c, h, at, hash, key);
      hashtable[found.value] := None;
      ctrl[found.value] := DELETED;
      at := at - {key};
    }
  }
}
