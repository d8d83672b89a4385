/** Why tombstone reuse keeps the fixed-size table alive: as long as fewer than
    CAPACITY distinct keys have ever been inserted, an EMPTY slot remains, whatever
    the order of inserts, overwrites and deletes, and so every probe returns.

    The invariant is a credit held by every stretch of groups that starts just after
    a group with an EMPTY: the keys ever inserted with their home in the stretch pay
    for its used slots and for the live keys that have spilled out of it. */
module SwissCapacity {
  import opened Wrappers
  import opened Bytes
  import opened Sequences
  import opened SwissTable

  function Before(group: nat): (b: nat)
    requires group < GROUPS
    ensures b < GROUPS
  {
    if group == 0 then GROUPS - 1 else group - 1
  }

  function After(group: nat): (a: nat)
    requires group < GROUPS
    ensures a < GROUPS && Before(a) == group
  {
    if group == GROUPS - 1 then 0 else group + 1
  }

  /** The keys of `keys` whose home is one of the `len` groups from `start` on */
  ghost function HomedIn<K>(keys: set<K>, hash: K -> U64, start: nat, len: nat): set<K>
    requires start < GROUPS
  {
    set k | k in keys && Distance(start, Home(hash(k))) < len
  }

  /** The slots of those groups that are not EMPTY */
  ghost function UsedIn(ctrl: seq<Byte>, start: nat, len: nat): set<nat>
    requires start < GROUPS && |ctrl| == CAPACITY
  {
    set s: nat | s < CAPACITY && ctrl[s] != EMPTY && Distance(start, GroupOf(s)) < len
  }

  /** The live keys that have their home in those groups and their slot beyond them */
  ghost function Spilled<K>(at: map<K, nat>, hash: K -> U64, start: nat, len: nat): set<K>
    requires start < GROUPS
  {
    set k | k in at && at[k] < CAPACITY && Distance(start, Home(hash(k))) < len <= Distance(start, GroupOf(at[k]))
  }

  ghost predicate CreditAt<K>(ctrl: seq<Byte>, at: map<K, nat>, hash: K -> U64, seen: set<K>, start: nat, len: nat)
    requires start < GROUPS && |ctrl| == CAPACITY
  {
    |HomedIn(seen, hash, start, len)| >= |UsedIn(ctrl, start, len)| + |Spilled(at, hash, start, len)|
  }

  ghost predicate Credit<K>(ctrl: seq<Byte>, at: map<K, nat>, hash: K -> U64, seen: set<K>)
    requires |ctrl| == CAPACITY
  {
    && at.Keys <= seen
    && forall start, len :: 0 <= start < GROUPS && 0 <= len <= GROUPS && HoldsEmpty(ctrl, Before(start)) ==>
         CreditAt(ctrl, at, hash, seen, start, len)
  }

  // ---- Cardinality ----

  lemma {:induction false} BijectionKeepsSize<K>(m: map<K, nat>, keys: set<K>, slots: set<nat>)
    requires keys <= m.Keys
    requires forall k :: k in keys ==> m[k] in slots
    requires forall k, l :: k in keys && l in keys && m[k] == m[l] ==> k == l
    requires forall s :: s in slots ==> exists k :: k in keys && m[k] == s
    ensures |keys| == |slots|
    decreases keys
  {
    if keys == {} {
      assert slots == {};
    } else {
      var k :| k in keys;
      BijectionKeepsSize(m, keys - {k}, slots - {m[k]});
    }
  }

  lemma SubsetIsSmaller<T>(a: set<T>, b: set<T>)
    requires a <= b
    ensures |a| <= |b|
  {
    assert b == a + (b - a);
  }

  ghost function SlotsBelow(n: nat): (slots: set<nat>)
    ensures |slots| == n && forall s: nat :: s in slots <==> s < n
  {
    if n == 0 then {} else SlotsBelow(n - 1) + {n - 1}
  }

  lemma CountDisjoint<K>(a: set<K>, b: set<K>, key: K, c: set<K>, d: set<K>)
    requires a !! b && key !in a && key !in b
    requires a + b + {key} <= c + d
    ensures |a| + |b| + 1 <= |c| + |d|
  {
    assert |a + b + {key}| == |a| + |b| + 1;
    SubsetIsSmaller(a + b + {key}, c + d);
    assert c + d == c + (d - c);
    SubsetIsSmaller(d - c, d);
  }

  // ---- Stretches after an EMPTY ----

  /** A path never runs past a group with an EMPTY, so from just after such a group
      a key's home comes no later than its slot. */
  lemma HomeBeforeSlot(ctrl: seq<Byte>, home: nat, slot: nat, start: nat)
    requires |ctrl| == CAPACITY && home < GROUPS && slot < CAPACITY && start < GROUPS
    requires Reachable(ctrl, home, slot) && HoldsEmpty(ctrl, Before(start))
    ensures Distance(start, home) <= Distance(start, GroupOf(slot))
    ensures Distance(home, GroupOf(slot)) == Distance(start, GroupOf(slot)) - Distance(start, home)
  {
    assert PathGroup(home, GROUPS - 1 - Distance(start, home)) == Before(start);
  }

  /** The live keys in groups `g` to `len - 1` of the stretch, the keys spilled past
      it, and a new key homed in group `g`: where they have their homes. */
  lemma SpilledOrHomed<K, V>(ctrl: seq<Byte>, slots: seq<Slot<K, V>>, at: map<K, nat>, hash: K -> U64, seen: set<K>,
                             key: K, start: nat, len: nat)
    requires Consistent(ctrl, slots, at, hash) && at.Keys <= seen && start < GROUPS
    requires HoldsEmpty(ctrl, Before(start)) && Distance(start, Home(hash(key))) < len <= GROUPS
    ensures var g := Distance(start, Home(hash(key)));
            var within := set k | k in at && g <= Distance(start, GroupOf(at[k])) < len;
            within + Spilled(at, hash, start, len) + {key} <=
              Spilled(at, hash, start, g) + (HomedIn(seen + {key}, hash, start, len) - HomedIn(seen + {key}, hash, start, g))
  {
    forall k | k in at ensures Distance(start, Home(hash(k))) <= Distance(start, GroupOf(at[k])) {
      assert Reachable(ctrl, Home(hash(k)), at[k]);
      HomeBeforeSlot(ctrl, Home(hash(k)), at[k], start);
    }
  }

  /** If the groups from a new key's home to the end of a stretch hold no tombstone,
      the stretch has credit for one slot more than it uses. */
  lemma SpareCredit<K, V>(ctrl: seq<Byte>, slots: seq<Slot<K, V>>, at: map<K, nat>, hash: K -> U64, seen: set<K>,
                          key: K, start: nat, len: nat)
    requires Consistent(ctrl, slots, at, hash) && Credit(ctrl, at, hash, seen) && key !in at
    requires start < GROUPS && HoldsEmpty(ctrl, Before(start))
    requires Distance(start, Home(hash(key))) < len <= GROUPS
    requires forall s :: 0 <= s < CAPACITY && Distance(start, Home(hash(key))) <= Distance(start, GroupOf(s)) < len ==>
               ctrl[s] != DELETED
    ensures |HomedIn(seen + {key}, hash, start, len)| >=
              |UsedIn(ctrl, start, len)| + |Spilled(at, hash, start, len)| + 1
  {
    var g := Distance(start, Home(hash(key)));
    var within := set k | k in at && g <= Distance(start, GroupOf(at[k])) < len;
    var used, usedLow := UsedIn(ctrl, start, len), UsedIn(ctrl, start, g);
    var homed, homedLow := HomedIn(seen + {key}, hash, start, len), HomedIn(seen + {key}, hash, start, g);
    LiveKeysFillGroups(ctrl, slots, at, hash, start, g, len);
    SpilledOrHomed(ctrl, slots, at, hash, seen, key, start, len);
    CountDisjoint(within, Spilled(at, hash, start, len), key, Spilled(at, hash, start, g), homed - homedLow);
    assert CreditAt(ctrl, at, hash, seen, start, g);
    SubsetIsSmaller(HomedIn(seen, hash, start, g), homedLow);
    SplitSize(homed, homedLow);
    SplitSize(used, usedLow);
  }

  lemma SplitSize<T>(whole: set<T>, part: set<T>)
    requires part <= whole
    ensures |whole| == |part| + |whole - part|
  {
    assert whole == part + (whole - part);
  }

  lemma LiveKeysFillGroups<K, V>(ctrl: seq<Byte>, slots: seq<Slot<K, V>>, at: map<K, nat>, hash: K -> U64,
                                 start: nat, g: nat, len: nat)
    requires Consistent(ctrl, slots, at, hash) && start < GROUPS && g <= len
    requires forall s :: 0 <= s < CAPACITY && g <= Distance(start, GroupOf(s)) < len ==> ctrl[s] != DELETED
    ensures |set k | k in at && g <= Distance(start, GroupOf(at[k])) < len| ==
              |UsedIn(ctrl, start, len) - UsedIn(ctrl, start, g)|
  {
    var within := set k | k in at && g <= Distance(start, GroupOf(at[k])) < len;
    var used := UsedIn(ctrl, start, len) - UsedIn(ctrl, start, g);
    forall s | s in used ensures exists k :: k in within && at[k] == s {
      assert SlotAgrees(ctrl, slots, at, hash, s);
      assert slots[s].value.0 in within;
    }
    forall k | k in within ensures at[k] in used {
      assert SlotAgrees(ctrl, slots, at, hash, at[k]);
    }
    BijectionKeepsSize(at, within, used);
  }

  lemma DistanceShifts(start: nat, j: nat, group: nat)
    requires start < GROUPS && j < GROUPS && group < GROUPS
    ensures Distance(After(PathGroup(start, j)), group) ==
              if Distance(start, group) > j then Distance(start, group) - j - 1 else Distance(start, group) + GROUPS - j - 1
  {
  }

  lemma HomedSplits<K>(hash: K -> U64, keys: set<K>, start: nat, j: nat, len: nat)
    requires start < GROUPS && j + 1 < len <= GROUPS
    ensures |HomedIn(keys, hash, start, len)| ==
              |HomedIn(keys, hash, start, j + 1)| + |HomedIn(keys, hash, After(PathGroup(start, j)), len - j - 1)|
  {
    var rest := HomedIn(keys, hash, After(PathGroup(start, j)), len - j - 1);
    forall k | k in keys ensures k in rest <==> j < Distance(start, Home(hash(k))) < len {
      DistanceShifts(start, j, Home(hash(k)));
    }
    SplitSize(HomedIn(keys, hash, start, len), HomedIn(keys, hash, start, j + 1));
    assert rest == HomedIn(keys, hash, start, len) - HomedIn(keys, hash, start, j + 1);
  }

  lemma UsedSplits(ctrl: seq<Byte>, start: nat, j: nat, len: nat)
    requires |ctrl| == CAPACITY && start < GROUPS && j + 1 < len <= GROUPS
    ensures |UsedIn(ctrl, start, len)| ==
              |UsedIn(ctrl, start, j + 1)| + |UsedIn(ctrl, After(PathGroup(start, j)), len - j - 1)|
  {
    var rest := UsedIn(ctrl, After(PathGroup(start, j)), len - j - 1);
    forall s: nat | s < CAPACITY && ctrl[s] != EMPTY ensures s in rest <==> j < Distance(start, GroupOf(s)) < len {
      DistanceShifts(start, j, GroupOf(s));
    }
    SplitSize(UsedIn(ctrl, start, len), UsedIn(ctrl, start, j + 1));
    assert rest == UsedIn(ctrl, start, len) - UsedIn(ctrl, start, j + 1);
  }

  /** Nothing spills past a group with an EMPTY. */
  lemma SpilledAfter<K, V>(ctrl: seq<Byte>, slots: seq<Slot<K, V>>, at: map<K, nat>, hash: K -> U64,
                           start: nat, j: nat, len: nat)
    requires Consistent(ctrl, slots, at, hash) && start < GROUPS && j + 1 < len <= GROUPS
    requires HoldsEmpty(ctrl, PathGroup(start, j))
    ensures |Spilled(at, hash, start, len)| <= |Spilled(at, hash, After(PathGroup(start, j)), len - j - 1)|
  {
    var next := After(PathGroup(start, j));
    forall k | k in Spilled(at, hash, start, len) ensures k in Spilled(at, hash, next, len - j - 1) {
      assert Reachable(ctrl, Home(hash(k)), at[k]);
      HomeBeforeSlot(ctrl, Home(hash(k)), at[k], next);
      DistanceShifts(start, j, Home(hash(k)));
      DistanceShifts(start, j, GroupOf(at[k]));
    }
    SubsetIsSmaller(Spilled(at, hash, start, len), Spilled(at, hash, next, len - j - 1));
  }

  // ---- Each operation keeps the credit ----

  /** Where the target slot lies, seen from the start of a stretch: at or after the
      key's home, with no tombstone in the groups between, and none in its own group
      either if the slot is an EMPTY. */
  lemma TargetInStretch(ctrl: seq<Byte>, home: nat, slot: nat, start: nat)
    requires |ctrl| == CAPACITY && home < GROUPS && start < GROUPS
    requires TargetSlot(ctrl, home, slot) && HoldsEmpty(ctrl, Before(start))
    ensures slot < CAPACITY && ctrl[slot] >= 0x80 && Distance(start, home) <= Distance(start, GroupOf(slot))
    ensures forall s :: 0 <= s < CAPACITY && Distance(start, home) <= Distance(start, GroupOf(s)) < Distance(start, GroupOf(slot)) ==>
              ctrl[s] != DELETED
    ensures ctrl[slot] == EMPTY ==>
              forall s :: 0 <= s < CAPACITY && GroupOf(s) == GroupOf(slot) ==> ctrl[s] != DELETED
  {
    TargetIsFree(ctrl, home, slot);
    HomeBeforeSlot(ctrl, home, slot, start);
    assert forall g :: 0 <= g < GROUPS && Distance(start, home) <= Distance(start, g) ==>
      Distance(home, g) == Distance(start, g) - Distance(start, home);
  }

  lemma UsedAfterWrite(ctrl: seq<Byte>, slot: nat, b: Byte, start: nat, len: nat)
    requires |ctrl| == CAPACITY && slot < CAPACITY && start < GROUPS && b != EMPTY
    ensures UsedIn(ctrl[slot := b], start, len) ==
              UsedIn(ctrl, start, len) + if Distance(start, GroupOf(slot)) < len then {slot} else {}
    ensures ctrl[slot] != EMPTY ==> UsedIn(ctrl[slot := b], start, len) == UsedIn(ctrl, start, len)
  {
  }

  lemma SpilledAfterInsert<K>(at: map<K, nat>, hash: K -> U64, key: K, slot: nat, start: nat, len: nat)
    requires key !in at && slot < CAPACITY && start < GROUPS
    ensures Spilled(at[key := slot], hash, start, len) ==
              Spilled(at, hash, start, len) +
              if Distance(start, Home(hash(key))) < len <= Distance(start, GroupOf(slot)) then {key} else {}
  {
  }

  lemma HomedGrows<K>(seen: set<K>, key: K, hash: K -> U64, start: nat, len: nat)
    requires start < GROUPS
    ensures |HomedIn(seen, hash, start, len)| <= |HomedIn(seen + {key}, hash, start, len)|
  {
    SubsetIsSmaller(HomedIn(seen, hash, start, len), HomedIn(seen + {key}, hash, start, len));
  }

  /** The groups from a new key's home to its EMPTY slot hold no tombstone. */
  lemma CreditToEmpty<K, V>(ctrl: seq<Byte>, slots: seq<Slot<K, V>>, at: map<K, nat>, hash: K -> U64, seen: set<K>,
                            key: K, slot: nat, start: nat)
    requires Consistent(ctrl, slots, at, hash) && Credit(ctrl, at, hash, seen) && key !in at
    requires TargetSlot(ctrl, Home(hash(key)), slot) && slot < CAPACITY && ctrl[slot] == EMPTY
    requires start < GROUPS && HoldsEmpty(ctrl, Before(start))
    ensures var len := Distance(start, GroupOf(slot)) + 1;
            |HomedIn(seen + {key}, hash, start, len)| >= |UsedIn(ctrl, start, len)| + 1 + |Spilled(at, hash, start, len)|
  {
    var j := Distance(start, GroupOf(slot));
    TargetInStretch(ctrl, Home(hash(key)), slot, start);
    assert forall g :: 0 <= g < GROUPS && Distance(start, g) == j ==> g == GroupOf(slot);
    hide HomedIn, UsedIn, Spilled, Consistent, TargetSlot, Credit, HoldsEmpty;
    SpareCredit(ctrl, slots, at, hash, seen, key, start, j + 1);
  }

  /** Past a group with an EMPTY, the credit of what follows is added. */
  lemma CreditPastEmpty<K, V>(ctrl: seq<Byte>, slots: seq<Slot<K, V>>, at: map<K, nat>, hash: K -> U64, seen: set<K>,
                              key: K, start: nat, j: nat, len: nat)
    requires Consistent(ctrl, slots, at, hash) && Credit(ctrl, at, hash, seen)
    requires start < GROUPS && j + 1 < len <= GROUPS && HoldsEmpty(ctrl, PathGroup(start, j))
    requires |HomedIn(seen + {key}, hash, start, j + 1)| >= |UsedIn(ctrl, start, j + 1)| + 1
    ensures |HomedIn(seen + {key}, hash, start, len)| >=
              |UsedIn(ctrl, start, len)| + 1 + |Spilled(at, hash, start, len)|
  {
    var next := After(PathGroup(start, j));
    assert CreditAt(ctrl, at, hash, seen, next, len - j - 1);
    hide HomedIn, UsedIn, Spilled, Consistent, Credit, HoldsEmpty;
    HomedSplits(hash, seen + {key}, start, j, len);
    UsedSplits(ctrl, start, j, len);
    SpilledAfter(ctrl, slots, at, hash, start, j, len);
    HomedGrows(seen, key, hash, next, len - j - 1);
  }

  /** A slot taken at group `j` of the stretch: its first `j + 1` groups can pay for it. */
  lemma CreditForEmpty<K, V>(ctrl: seq<Byte>, slots: seq<Slot<K, V>>, at: map<K, nat>, hash: K -> U64, seen: set<K>,
                             key: K, slot: nat, start: nat, len: nat)
    requires Consistent(ctrl, slots, at, hash) && Credit(ctrl, at, hash, seen) && key !in at
    requires TargetSlot(ctrl, Home(hash(key)), slot) && slot < CAPACITY && ctrl[slot] == EMPTY
    requires start < GROUPS && HoldsEmpty(ctrl, Before(start))
    requires Distance(start, GroupOf(slot)) < len <= GROUPS
    ensures |HomedIn(seen + {key}, hash, start, len)| >=
              |UsedIn(ctrl, start, len)| + 1 + |Spilled(at, hash, start, len)|
  {
    var j := Distance(start, GroupOf(slot));
    CreditToEmpty(ctrl, slots, at, hash, seen, key, slot, start);
    if j + 1 < len {
      assert PathGroup(start, j) == GroupOf(slot);
      assert HoldsEmpty(ctrl, PathGroup(start, j));
      hide *;
      CreditPastEmpty(ctrl, slots, at, hash, seen, key, start, j, len);
    }
  }

  /** An insert keeps every stretch's credit. */
  lemma InsertKeepsCreditAt<K, V>(ctrl: seq<Byte>, slots: seq<Slot<K, V>>, at: map<K, nat>, hash: K -> U64, seen: set<K>,
                                  key: K, slot: nat, start: nat, len: nat)
    requires Consistent(ctrl, slots, at, hash) && Credit(ctrl, at, hash, seen) && key !in at
    requires TargetSlot(ctrl, Home(hash(key)), slot) && slot < CAPACITY
    requires start < GROUPS && len <= GROUPS && HoldsEmpty(ctrl, Before(start))
    ensures CreditAt(ctrl[slot := Fingerprint(hash(key))], at[key := slot], hash, seen + {key}, start, len)
  {
    var j := Distance(start, GroupOf(slot));
    TargetInStretch(ctrl, Home(hash(key)), slot, start);
    assert CreditAt(ctrl, at, hash, seen, start, len);
    SubsetIsSmaller(HomedIn(seen, hash, start, len), HomedIn(seen + {key}, hash, start, len));
    UsedAfterWrite(ctrl, slot, Fingerprint(hash(key)), start, len);
    SpilledAfterInsert(at, hash, key, slot, start, len);
    if Distance(start, Home(hash(key))) < len <= j {
      SpareCredit(ctrl, slots, at, hash, seen, key, start, len);
    } else if j < len && ctrl[slot] == EMPTY {
      CreditForEmpty(ctrl, slots, at, hash, seen, key, slot, start, len);
    }
  }

  /** An insert keeps the credit. */
  lemma InsertKeepsCredit<K, V>(ctrl: seq<Byte>, slots: seq<Slot<K, V>>, at: map<K, nat>, hash: K -> U64, seen: set<K>,
                                key: K, slot: nat)
    requires Consistent(ctrl, slots, at, hash) && Credit(ctrl, at, hash, seen) && key !in at
    requires TargetSlot(ctrl, Home(hash(key)), slot) && slot < CAPACITY
    ensures Credit(ctrl[slot := Fingerprint(hash(key))], at[key := slot], hash, seen + {key})
  {
    var ctrl', at', seen' := ctrl[slot := Fingerprint(hash(key))], at[key := slot], seen + {key};
    EmptiesOnlyShrink(ctrl, slot, Fingerprint(hash(key)));
    forall start, len | 0 <= start < GROUPS && 0 <= len <= GROUPS && HoldsEmpty(ctrl, Before(start))
      ensures CreditAt(ctrl', at', hash, seen', start, len)
    {
      InsertKeepsCreditAt(ctrl, slots, at, hash, seen, key, slot, start, len);
    }
  }

  lemma WithoutEmpty(ctrl: seq<Byte>, start: nat)
    requires |ctrl| == CAPACITY && start < GROUPS && !HasEmpty(ctrl)
    ensures |UsedIn(ctrl, start, GROUPS)| == CAPACITY
  {
    assert UsedIn(ctrl, start, GROUPS) == SlotsBelow(CAPACITY);
  }

  /** An insert leaves an EMPTY as long as fewer than CAPACITY distinct keys have ever
      been inserted, whatever was deleted in between. */
  lemma InsertKeepsEmpty<K, V>(ctrl: seq<Byte>, slots: seq<Slot<K, V>>, at: map<K, nat>, hash: K -> U64, seen: set<K>,
                               key: K, slot: nat)
    requires Consistent(ctrl, slots, at, hash) && Credit(ctrl, at, hash, seen) && key !in at
    requires TargetSlot(ctrl, Home(hash(key)), slot) && slot < CAPACITY
    requires |seen + {key}| < CAPACITY
    ensures HasEmpty(ctrl[slot := Fingerprint(hash(key))])
  {
    var ctrl' := ctrl[slot := Fingerprint(hash(key))];
    var last :| StopsAt(ctrl, Home(hash(key)), last);
    var start := After(PathGroup(Home(hash(key)), last));
    InsertKeepsCreditAt(ctrl, slots, at, hash, seen, key, slot, start, GROUPS);
    SubsetIsSmaller(HomedIn(seen + {key}, hash, start, GROUPS), seen + {key});
    hide *;
    if !HasEmpty(ctrl') {
      WithoutEmpty(ctrl', start);
    }
  }

  lemma DeleteKeepsCredit<K, V>(ctrl: seq<Byte>, slots: seq<Slot<K, V>>, at: map<K, nat>, hash: K -> U64, seen: set<K>, key: K)
    requires Consistent(ctrl, slots, at, hash) && Credit(ctrl, at, hash, seen) && key in at
    ensures Credit(ctrl[at[key] := DELETED], at - {key}, hash, seen)
    ensures HasEmpty(ctrl) ==> HasEmpty(ctrl[at[key] := DELETED])
  {
    var ctrl', at' := ctrl[at[key] := DELETED], at - {key};
    assert SlotAgrees(ctrl, slots, at, hash, at[key]);
    EmptiesOnlyShrink(ctrl, at[key], DELETED);
    forall start, len | 0 <= start < GROUPS && 0 <= len <= GROUPS && HoldsEmpty(ctrl', Before(start))
      ensures CreditAt(ctrl', at', hash, seen, start, len)
    {
      assert CreditAt(ctrl, at, hash, seen, start, len);
      assert UsedIn(ctrl', start, len) == UsedIn(ctrl, start, len);
      SubsetIsSmaller(Spilled(at', hash, start, len), Spilled(at, hash, start, len));
    }
    if HasEmpty(ctrl) {
      var s :| 0 <= s < |ctrl| && ctrl[s] == EMPTY;
      assert ctrl'[s] == EMPTY;
    }
  }

  // ---- Whole runs ----

  datatype Op<K, V> = Get(key: K) | Insert(key: K, value: V) | Delete(key: K)

  /** What a run of operations leaves in a map, and what its gets return */
  ghost function MapAfter<K, V>(ops: seq<Op<K, V>>): map<K, V> {
    if ops == [] then map[]
    else
      var m := MapAfter(ops[..|ops| - 1]);
      match ops[|ops| - 1]
      case Get(_) => m
      case Insert(k, v) => m[k := v]
      case Delete(k) => m - {k}
  }

  ghost function GetsOf<K, V>(ops: seq<Op<K, V>>): seq<Option<V>> {
    if ops == [] then []
    else
      var before := ops[..|ops| - 1];
      match ops[|ops| - 1]
      case Get(k) => GetsOf(before) + [if k in MapAfter(before) then Some(MapAfter(before)[k]) else None]
      case Insert(_, _) => GetsOf(before)
      case Delete(_) => GetsOf(before)
  }

  ghost function InsertedKeys<K, V>(ops: seq<Op<K, V>>): set<K> {
    set op | op in ops && op.Insert? :: op.key
  }

  /** The table is what the run `ops` makes of a new one: the map it leaves, the
      credit of the keys it inserted, and an EMPTY to stop at. */
  ghost predicate Tracks<K, V>(table: HashMap<K, V>, ops: seq<Op<K, V>>)
    reads table, table.ctrl, table.hashtable
  {
    && table.Valid() && table.Contents() == MapAfter(ops)
    && Credit(table.ctrl[..], table.at, table.hash, InsertedKeys(ops))
    && HasEmpty(table.ctrl[..])
  }

  lemma MapOfMore<K, V>(ops: seq<Op<K, V>>, op: Op<K, V>)
    ensures MapAfter(ops + [op]) == if op.Insert? then MapAfter(ops)[op.key := op.value]
                                    else if op.Delete? then MapAfter(ops) - {op.key}
                                    else MapAfter(ops)
  {
    assert (ops + [op])[..|ops|] == ops;
  }

  lemma GetsOfMore<K, V>(ops: seq<Op<K, V>>, op: Op<K, V>)
    ensures GetsOf(ops + [op]) == GetsOf(ops) + if !op.Get? then []
                                                else [if op.key in MapAfter(ops) then Some(MapAfter(ops)[op.key]) else None]
  {
    assert (ops + [op])[..|ops|] == ops;
    assert GetsOf(ops) + [] == GetsOf(ops);
    hide MapAfter;
  }

  method GetStep<K, V>(table: HashMap<K, V>, k: K, ghost ops: seq<Op<K, V>>) returns (v: Option<V>)
    requires Tracks(table, ops)
    ensures Tracks(table, ops + [Op<K, V>.Get(k)])
    ensures GetsOf(ops + [Op<K, V>.Get(k)]) == GetsOf(ops) + [v]
  {
    GetsOfMore(ops, Op<K, V>.Get(k));
    MapOfMore(ops, Op<K, V>.Get(k));
    InsertedKeysGrow(ops, Op<K, V>.Get(k));
    hide Credit, InsertedKeys, HasEmpty;
    v := table.Get(k);
  }

  lemma SeenAlready<K>(ctrl: seq<Byte>, at: map<K, nat>, hash: K -> U64, seen: set<K>, k: K)
    requires |ctrl| == CAPACITY && Credit(ctrl, at, hash, seen) && k in at
    ensures seen + {k} == seen
  {
  }

  method InsertStep<K, V>(table: HashMap<K, V>, k: K, v: V, ghost ops: seq<Op<K, V>>)
    requires Tracks(table, ops) && |InsertedKeys(ops + [Op<K, V>.Insert(k, v)])| < CAPACITY
    modifies table, table.ctrl, table.hashtable
    ensures Tracks(table, ops + [Op<K, V>.Insert(k, v)])
  {
    MapOfMore(ops, Op<K, V>.Insert(k, v));
    InsertedKeysGrow(ops, Op<K, V>.Insert(k, v));
    hide Credit, InsertedKeys, HasEmpty, MapAfter, TargetSlot, MapOf;
    ghost var ctrl, slots, at, seen := table.ctrl[..], table.hashtable[..], table.at, InsertedKeys(ops);
    table.Insert(k, v);
    if k !in at {
      InsertKeepsCredit(ctrl, slots, at, table.hash, seen, k, table.at[k]);
      InsertKeepsEmpty(ctrl, slots, at, table.hash, seen, k, table.at[k]);
    } else {
      SeenAlready(ctrl, at, table.hash, seen, k);
    }
  }

  method DeleteStep<K, V>(table: HashMap<K, V>, k: K, ghost ops: seq<Op<K, V>>)
    requires Tracks(table, ops)
    modifies table, table.ctrl, table.hashtable
    ensures Tracks(table, ops + [Op<K, V>.Delete(k)])
  {
    MapOfMore(ops, Op<K, V>.Delete(k));
    InsertedKeysGrow(ops, Op<K, V>.Delete(k));
    hide Credit, InsertedKeys, HasEmpty, MapAfter, MapOf;
    ghost var ctrl, slots, at, seen := table.ctrl[..], table.hashtable[..], table.at, InsertedKeys(ops);
    table.Delete(k);
    if k in at {
      DeleteKeepsCredit(ctrl, slots, at, table.hash, seen, k);
    } else {
      assert at - {k} == at;
    }
  }

  method Step<K, V>(table: HashMap<K, V>, op: Op<K, V>, ghost ops: seq<Op<K, V>>) returns (got: seq<Option<V>>)
    requires Tracks(table, ops) && |InsertedKeys(ops + [op])| < CAPACITY
    modifies table, table.ctrl, table.hashtable
    ensures Tracks(table, ops + [op])
    ensures GetsOf(ops + [op]) == GetsOf(ops) + got
  {
    hide *;
    GetsOfMore(ops, op);
    got := [];
    match op
    case Get(k) =>
      var v := GetStep(table, k, ops);
      got := [v];
    case Insert(k, v) =>
      InsertStep(table, k, v, ops);
    case Delete(k) =>
      DeleteStep(table, k, ops);
  }

  lemma InsertedKeysGrow<K, V>(ops: seq<Op<K, V>>, op: Op<K, V>)
    ensures InsertedKeys(ops + [op]) == if op.Insert? then InsertedKeys(ops) + {op.key} else InsertedKeys(ops)
  {
  }

  lemma InsertedKeysOfPrefix<K, V>(ops: seq<Op<K, V>>, i: nat)
    requires i <= |ops|
    ensures |InsertedKeys(ops[..i])| <= |InsertedKeys(ops)|
  {
    SubsetIsSmaller(InsertedKeys(ops[..i]), InsertedKeys(ops));
  }

  /** Any run, of any length, that inserts fewer than CAPACITY distinct keys comes to
      an end with every get answered as by a map. */
  method Run<K(==), V>(hash: K -> U64, ops: seq<Op<K, V>>) returns (gets: seq<Option<V>>)
    requires |InsertedKeys(ops)| < CAPACITY
    ensures gets == GetsOf(ops)
  {
    var table := new HashMap<K, V>(hash);
    gets := [];
    NewTableHasCredit(table.ctrl[..], hash);
    assert InsertedKeys(ops[..0]) == {};
    for i := 0 to |ops|
      invariant fresh(table) && fresh(table.ctrl) && fresh(table.hashtable)
      invariant Tracks(table, ops[..i])
      invariant gets == GetsOf(ops[..i])
    {
      assert ops[..i + 1] == ops[..i] + [ops[i]];
      InsertedKeysOfPrefix(ops, i + 1);
      var got := Step(table, ops[i], ops[..i]);
      gets := gets + got;
    }
    assert ops[..|ops|] == ops;
  }

  lemma NewTableHasCredit<K>(ctrl: seq<Byte>, hash: K -> U64)
    requires |ctrl| == CAPACITY && forall s :: 0 <= s < CAPACITY ==> ctrl[s] == EMPTY
    ensures Credit(ctrl, map[], hash, {}) && HasEmpty(ctrl)
  {
    assert ctrl[0] == EMPTY;
    forall start, len | 0 <= start < GROUPS && 0 <= len <= GROUPS
      ensures CreditAt(ctrl, map[], hash, {}, start, len)
    {
      var used := UsedIn(ctrl, start, len);
      assert used == {};
    }
  }

  // ---- The bound is sharp ----

  lemma LiveSlots<K, V>(ctrl: seq<Byte>, slots: seq<Slot<K, V>>, at: map<K, nat>, hash: K -> U64, s: nat)
    requires Consistent(ctrl, slots, at, hash) && s < CAPACITY && ctrl[s] == EMPTY
    ensures forall k :: k in at ==> at[k] < CAPACITY && at[k] != s
    ensures forall k, l :: k in at && l in at && at[k] == at[l] ==> k == l
  {
    assert SlotAgrees(ctrl, slots, at, hash, s);
  }

  lemma EmptyIsNotLive<K, V>(ctrl: seq<Byte>, slots: seq<Slot<K, V>>, at: map<K, nat>, hash: K -> U64, s: nat)
    requires Consistent(ctrl, slots, at, hash) && s < |ctrl| == CAPACITY && ctrl[s] == EMPTY
    ensures |at| < CAPACITY
  {
    hide *;
    LiveSlots(ctrl, slots, at, hash, s);
    var taken := set k | k in at :: at[k];
    BijectionKeepsSize(at, at.Keys, taken);
    SubsetIsSmaller(taken, SlotsBelow(CAPACITY) - {s});
  }

  /** A table with a key in every slot has no EMPTY, so by `ProbeReturnsExactlyWhen` a
      probe for any other key goes round for ever. */
  lemma FullTableNeverReturns<K, V>(ctrl: seq<Byte>, slots: seq<Slot<K, V>>, at: map<K, nat>, hash: K -> U64, key: K)
    requires Consistent(ctrl, slots, at, hash) && |at| == CAPACITY
    ensures !HasEmpty(ctrl)
    ensures key !in at ==> forall n: nat :: !ReturnsWithin(ctrl, slots, Home(hash(key)), key, n)
  {
    if HasEmpty(ctrl) {
      var s :| 0 <= s < |ctrl| && ctrl[s] == EMPTY;
      EmptyIsNotLive(ctrl, slots, at, hash, s);
    }
    hide *;
    ProbeReturnsExactlyWhen(ctrl, slots, at, hash, key);
  }

  ghost function KeysIn<K, V>(pairs: seq<(K, V)>): (keys: seq<K>)
    ensures |keys| == |pairs| && forall i :: 0 <= i < |pairs| ==> keys[i] == pairs[i].0
  {
    seq(|pairs|, i requires 0 <= i < |pairs| => pairs[i].0)
  }

  ghost function Inserts<K, V>(pairs: seq<(K, V)>): (ops: seq<Op<K, V>>)
    ensures |ops| == |pairs| && forall i :: 0 <= i < |pairs| ==> ops[i] == Insert(pairs[i].0, pairs[i].1)
  {
    seq(|pairs|, i requires 0 <= i < |pairs| => Insert(pairs[i].0, pairs[i].1))
  }

  lemma {:induction false} DistinctElements<T>(s: seq<T>)
    requires Distinct(s)
    ensures |Elements(s)| == |s|
  {
    if s != [] {
      DistinctElements(s[..|s| - 1]);
      ElementsStep(s[..|s| - 1], s[|s| - 1]);
      assert s == s[..|s| - 1] + [s[|s| - 1]];
    }
  }

  lemma ElementsStep<T>(s: seq<T>, x: T)
    ensures Elements(s + [x]) == Elements(s) + {x}
  {
  }

  lemma {:induction false} InsertsLeaveKeys<K, V>(pairs: seq<(K, V)>)
    ensures InsertedKeys(Inserts(pairs)) == MapAfter(Inserts(pairs)).Keys == Elements(KeysIn(pairs))
  {
    if pairs != [] {
      var front, last := pairs[..|pairs| - 1], pairs[|pairs| - 1];
      InsertsLeaveKeys(front);
      assert Inserts(pairs) == Inserts(front) + [Insert(last.0, last.1)];
      assert KeysIn(pairs) == KeysIn(front) + [last.0];
      InsertedKeysGrow(Inserts(front), Insert(last.0, last.1));
      ElementsStep(KeysIn(front), last.0);
      assert Inserts(pairs)[..|front|] == Inserts(front);
      hide InsertedKeys, Elements;
    }
  }

  lemma DistinctInserts<K, V>(pairs: seq<(K, V)>)
    requires Distinct(KeysIn(pairs))
    ensures |InsertedKeys(Inserts(pairs))| == |MapAfter(Inserts(pairs))| == |pairs|
    ensures MapAfter(Inserts(pairs)).Keys == Elements(KeysIn(pairs))
  {
    InsertsLeaveKeys(pairs);
    DistinctElements(KeysIn(pairs));
    assert |MapAfter(Inserts(pairs))| == |MapAfter(Inserts(pairs)).Keys|;
  }

  lemma NextInsert<K, V>(pairs: seq<(K, V)>, i: nat)
    requires i < |pairs| && Distinct(KeysIn(pairs))
    ensures Inserts(pairs[..i + 1]) == Inserts(pairs[..i]) + [Op<K, V>.Insert(pairs[i].0, pairs[i].1)]
    ensures |InsertedKeys(Inserts(pairs[..i + 1]))| == i + 1
  {
    assert forall j :: 0 <= j < i + 1 ==> KeysIn(pairs[..i + 1])[j] == KeysIn(pairs)[j];
    hide InsertedKeys;
    DistinctInserts(pairs[..i + 1]);
  }

  method FillWith<K(==), V>(hash: K -> U64, pairs: seq<(K, V)>) returns (table: HashMap<K, V>)
    requires |pairs| < CAPACITY && Distinct(KeysIn(pairs))
    ensures fresh(table) && fresh(table.ctrl) && fresh(table.hashtable) && table.hash == hash
    ensures Tracks(table, Inserts(pairs))
  {
    hide *;
    table := EmptyTable(hash);
    assert Inserts(pairs[..0]) == [];
    for i := 0 to |pairs|
      invariant fresh(table) && fresh(table.ctrl) && fresh(table.hashtable) && table.hash == hash
      invariant Tracks(table, Inserts(pairs[..i]))
    {
      NextInsert(pairs, i);
      var _ := Step(table, Op<K, V>.Insert(pairs[i].0, pairs[i].1), Inserts(pairs[..i]));
    }
    Whole(pairs);
  }

  lemma KeysOfLast<K, V>(pairs: seq<(K, V)>)
    requires pairs != [] && Distinct(KeysIn(pairs))
    ensures var last := |pairs| - 1;
            Distinct(KeysIn(pairs[..last])) && pairs[last].0 !in Elements(KeysIn(pairs[..last])) && |Elements(KeysIn(pairs[..last]))| == last
  {
    var last := |pairs| - 1;
    assert forall j :: 0 <= j < last ==> KeysIn(pairs[..last])[j] == KeysIn(pairs)[j];
    DistinctElements(KeysIn(pairs[..last]));
    assert KeysIn(pairs)[last] == pairs[last].0;
  }

  /** One key more than `Run` allows: 128 inserts of distinct keys into a new table all
      return, and after them no operation on an absent key ever does. */
  method Fill<K(==), V>(hash: K -> U64, pairs: seq<(K, V)>) returns (table: HashMap<K, V>)
    requires |pairs| == CAPACITY && Distinct(KeysIn(pairs))
    ensures fresh(table) && table.Valid() && table.hash == hash && !HasEmpty(table.ctrl[..])
    ensures forall key, n: nat :: key !in table.Contents() ==>
              !ReturnsWithin(table.ctrl[..], table.hashtable[..], Home(hash(key)), key, n)
  {
    hide Distinct, KeysIn, Elements, Credit, ReturnsWithin, InsertedKeys, TargetSlot, Consistent, MapOf, Inserts, MapAfter;
    var last := CAPACITY - 1;
    KeysOfLast(pairs);
    table := FillWith(hash, pairs[..last]);
    InsertsLeaveKeys(pairs[..last]);
    assert table.Valid() && HasEmpty(table.ctrl[..]) && table.Contents().Keys == Elements(KeysIn(pairs[..last]));
    hide *;
    table.Insert(pairs[last].0, pairs[last].1);
    FullTable(table, Elements(KeysIn(pairs[..last])), pairs[last].0);
  }

  method EmptyTable<K(==), V>(hash: K -> U64) returns (table: HashMap<K, V>)
    ensures fresh(table) && fresh(table.ctrl) && fresh(table.hashtable) && table.hash == hash
    ensures Tracks(table, [])
  {
    table := new HashMap<K, V>(hash);
    NewTableHasCredit(table.ctrl[..], hash);
    assert table.at.Keys == table.Contents().Keys;
    assert table.at == map[] && InsertedKeys<K, V>([]) == {};
  }

  lemma FullTable<K, V>(table: HashMap<K, V>, keys: set<K>, last: K)
    requires table.Valid() && |keys| == CAPACITY - 1 && last !in keys && table.Contents().Keys == keys + {last}
    ensures !HasEmpty(table.ctrl[..])
    ensures forall key, n: nat :: key !in table.Contents() ==>
              !ReturnsWithin(table.ctrl[..], table.hashtable[..], Home(table.hash(key)), key, n)
  {
    assert table.at.Keys == table.Contents().Keys;
    assert |table.at.Keys| == CAPACITY;
    hide ReturnsWithin, Consistent;
    FullTableNeverReturns(table.ctrl[..], table.hashtable[..], table.at, table.hash, last);
    forall key | key !in table.Contents()
      ensures forall n: nat :: !ReturnsWithin(table.ctrl[..], table.hashtable[..], Home(table.hash(key)), key, n)
    {
      FullTableNeverReturns(table.ctrl[..], table.hashtable[..], table.at, table.hash, key);
    }
  }
}
