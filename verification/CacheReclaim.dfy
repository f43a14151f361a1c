/** The disk budget of the asset cache: pins, reclamation of least recently used entries, and the write
    transaction that relies on it. */
module CacheReclaim {

  /** One child of the cache directory. */
  datatype Child = Child(name: string, bytes: nat, regular: bool, modified: nat)

  type Directory = seq<Child>

  const MAX_UINT64: nat := 0xFFFF_FFFF_FFFF_FFFF

  predicate HexDigit(c: char) { '0' <= c <= '9' || 'a' <= c <= 'f' }

  predicate ValidKey(key: string) { |key| == 64 && forall i | 0 <= i < |key| :: HexDigit(key[i]) }

  /** A regular file named by a key: only these count, and only these are ever deleted. */
  predicate IsEntry(c: Child) {
    c.regular && |c.name| >= 5 && c.name[|c.name| - 5..] == ".ptac" && ValidKey(c.name[..|c.name| - 5])
  }

  predicate UniqueNames(d: Directory) { forall i, j | 0 <= i < j < |d| :: d[i].name != d[j].name }

  /** Which entries a sum counts: all of them, or those with one of some names. */
  datatype Selection = All | Named(names: set<string>)

  predicate Picks(chosen: Selection, c: Child) { IsEntry(c) && (chosen.All? || c.name in chosen.names) }

  function Bytes(d: Directory, chosen: Selection): nat {
    if d == [] then 0
    else Bytes(d[..|d| - 1], chosen) + if Picks(chosen, d[|d| - 1]) then d[|d| - 1].bytes else 0
  }

  function Usage(d: Directory): nat { Bytes(d, All) }

  function PinnedBytes(d: Directory, pinned: set<string>): nat { Bytes(d, Named(pinned)) }

  function Without(d: Directory, name: string): (r: Directory)
    ensures forall c :: c in r <==> c in d && c.name != name
  {
    if d == [] then []
    else
      var rest := Without(d[..|d| - 1], name);
      var last := d[|d| - 1];
      assert d == d[..|d| - 1] + [last];
      if last.name == name then rest else rest + [last]
  }

  lemma {:induction false} WithoutKeepsUnique(d: Directory, name: string)
    requires UniqueNames(d)
    ensures UniqueNames(Without(d, name))
  {
    hide IsEntry, Picks;
    if d != [] {
      var init, last := d[..|d| - 1], d[|d| - 1];
      WithoutKeepsUnique(init, name);
      forall c | c in Without(init, name) ensures c.name != last.name {
        var i :| 0 <= i < |init| && init[i] == c;
        assert d[i].name != d[|d| - 1].name;
      }
    }
  }

  lemma {:induction false} WithoutAbsent(d: Directory, name: string)
    requires forall c | c in d :: c.name != name
    ensures Without(d, name) == d
  {
    hide IsEntry, Picks;
    if d != [] {
      assert d == d[..|d| - 1] + [d[|d| - 1]];
      assert d[|d| - 1] in d;
      WithoutAbsent(d[..|d| - 1], name);
    }
  }

  lemma LastOfUnique(d: Directory, c: Child)
    requires UniqueNames(d) && c in d && d[|d| - 1].name == c.name
    ensures c == d[|d| - 1] && forall x | x in d[..|d| - 1] :: x.name != c.name
  {
    var i :| 0 <= i < |d| && d[i] == c;
    forall x | x in d[..|d| - 1] ensures x.name != c.name {
      var j :| 0 <= j < |d| - 1 && d[j] == x;
    }
  }

  lemma BytesSnoc(d: Directory, c: Child, chosen: Selection)
    ensures Bytes(d + [c], chosen) == Bytes(d, chosen) + if Picks(chosen, c) then c.bytes else 0
  {
    hide IsEntry, Picks;
    assert (d + [c])[..|d + [c]| - 1] == d;
  }

  /** Removing a child takes exactly its own bytes out of every sum that counted it. */
  lemma {:induction false} WithoutBytes(d: Directory, c: Child, chosen: Selection)
    requires UniqueNames(d) && c in d
    ensures Bytes(d, chosen) == Bytes(Without(d, c.name), chosen) + if Picks(chosen, c) then c.bytes else 0
  {
    hide IsEntry, Picks;
    var init, last := d[..|d| - 1], d[|d| - 1];
    if last.name == c.name {
      LastOfUnique(d, c);
      WithoutAbsent(init, c.name);
    } else {
      NotLast(d, c);
      WithoutBytes(init, c, chosen);
      BytesSnoc(Without(init, c.name), last, chosen);
    }
  }

  lemma NotLast(d: Directory, c: Child)
    requires UniqueNames(d) && c in d && d[|d| - 1] != c
    ensures UniqueNames(d[..|d| - 1]) && c in d[..|d| - 1]
  {
    var i :| 0 <= i < |d| && d[i] == c;
    assert d[..|d| - 1][i] == c;
  }

  lemma {:induction false} PinnedWithinUsage(d: Directory, pinned: set<string>)
    ensures PinnedBytes(d, pinned) <= Usage(d)
    ensures (forall c | c in d && IsEntry(c) :: c.name in pinned) ==> PinnedBytes(d, pinned) == Usage(d)
  {
    if d != [] {
      assert d == d[..|d| - 1] + [d[|d| - 1]] && d[|d| - 1] in d;
      PinnedWithinUsage(d[..|d| - 1], pinned);
    }
  }

  lemma {:induction false} UsageGrows(d: Directory, k: nat)
    requires k <= |d|
    ensures Usage(d[..k]) <= Usage(d)
    decreases |d| - k
  {
    if k == |d| {
      assert d[..k] == d;
    } else {
      assert d[..k + 1][..k] == d[..k];
      UsageGrows(d, k + 1);
    }
  }

  predicate ByAge(s: seq<Child>) { forall i, j | 0 <= i < j < |s| :: s[i].modified <= s[j].modified }

  lemma InitDiffersFromLast(s: seq<Child>)
    requires UniqueNames(s) && s != []
    ensures forall c | c in s[..|s| - 1] :: c.name != s[|s| - 1].name
  {
    forall c | c in s[..|s| - 1] ensures c.name != s[|s| - 1].name {
      var i :| 0 <= i < |s| - 1 && s[i] == c;
    }
  }

  lemma InitPrecedesLast(s: seq<Child>)
    requires ByAge(s) && UniqueNames(s) && s != []
    ensures ByAge(s[..|s| - 1]) && UniqueNames(s[..|s| - 1])
    ensures forall c | c in s[..|s| - 1] :: c.modified <= s[|s| - 1].modified && c.name != s[|s| - 1].name
  {
    InitDiffersFromLast(s);
    forall c | c in s[..|s| - 1] ensures c.modified <= s[|s| - 1].modified {
      var i :| 0 <= i < |s| - 1 && s[i] == c;
    }
  }

  lemma AppendLatest(s: seq<Child>, last: Child)
    requires ByAge(s) && UniqueNames(s)
    requires forall c | c in s :: c.modified <= last.modified && c.name != last.name
    ensures ByAge(s + [last]) && UniqueNames(s + [last])
  {
    assert forall i | 0 <= i < |s| :: s[i] in s;
  }

  function InsertByAge(s: seq<Child>, e: Child): (r: seq<Child>)
    requires ByAge(s) && UniqueNames(s) && forall c | c in s :: c.name != e.name
    ensures ByAge(r) && UniqueNames(r)
    ensures forall c :: c in r <==> c in s || c == e
  {
    if s == [] || s[|s| - 1].modified <= e.modified then
      s + [e]
    else
      var init, last := s[..|s| - 1], s[|s| - 1];
      assert s == init + [last];
      InitPrecedesLast(s);
      var front := InsertByAge(init, e);
      AppendLatest(front, last);
      front + [last]
  }

  /** The same entries, the oldest first. */
  function SortByAge(entries: seq<Child>): (order: seq<Child>)
    requires UniqueNames(entries)
    ensures ByAge(order) && UniqueNames(order)
    ensures forall c :: c in order <==> c in entries
  {
    if entries == [] then []
    else
      var init, last := entries[..|entries| - 1], entries[|entries| - 1];
      assert entries == init + [last];
      InitDiffersFromLast(entries);
      InsertByAge(SortByAge(init), last)
  }

  datatype Reclaimed = Done | TooLarge | Overflow | Occupied | DeleteFailed

  /** The directory after deleting `victims`, in that order. */
  function WithoutAll(d: Directory, victims: seq<Child>): Directory {
    if victims == [] then d
    else Without(WithoutAll(d, victims[..|victims| - 1]), victims[|victims| - 1].name)
  }

  /** Usage after the first `k` deletions. */
  function UsageAfter(d: Directory, victims: seq<Child>, k: nat): nat
    requires k <= |victims|
  {
    Usage(WithoutAll(d, victims[..k]))
  }

  /** The deletions, in order, respect pins and age. */
  ghost predicate Evicted(before: Directory, after: Directory, pinned: set<string>, victims: seq<Child>) {
    && after == WithoutAll(before, victims) && UniqueNames(after)
    && (forall c :: c in after <==> c in before && c !in victims)
    && ByAge(victims) && UniqueNames(victims)
    && (forall v | v in victims :: v in before && IsEntry(v) && v.name !in pinned)
    && (forall v, s | v in victims && s in after && IsEntry(s) && s.name !in pinned :: v.modified <= s.modified)
  }

  /** Before every single deletion, the last one included, there was still too little room: stopping any earlier
      would not have been enough. */
  ghost predicate Needed(before: Directory, victims: seq<Child>, maximum: nat, required: nat) {
    forall k | 0 <= k < |victims| :: UsageAfter(before, victims, k) + required > maximum
  }

  lemma NeededSnoc(before: Directory, now: Directory, victims: seq<Child>, v: Child, maximum: nat, required: nat)
    requires Needed(before, victims, maximum, required)
    requires now == WithoutAll(before, victims) && Usage(now) + required > maximum
    ensures Needed(before, victims + [v], maximum, required)
  {
    hide Usage, WithoutAll;
    forall k | 0 <= k < |victims| + 1 ensures UsageAfter(before, victims + [v], k) + required > maximum {
      assert (victims + [v])[..k] == victims[..k];
      if k == |victims| {
        assert victims[..k] == victims;
      } else {
        assert UsageAfter(before, victims, k) + required > maximum;
      }
    }
  }

  lemma PicksOutside(c: Child, pinned: set<string>)
    requires IsEntry(c) && c.name !in pinned
    ensures Picks(All, c) && !Picks(Named(pinned), c)
  {
  }

  /** What the eviction loop knows after the first `i` of `order`. */
  ghost predicate Evicting(before: Directory, now: Directory, order: seq<Child>, i: nat, pinned: set<string>,
                           victims: seq<Child>)
  {
    && i <= |order|
    && now == WithoutAll(before, victims) && UniqueNames(now)
    && (forall c :: c in now <==> c in before && c !in victims)
    && (forall v :: v in victims <==> v in order[..i] && v.name !in pinned)
    && ByAge(victims) && UniqueNames(victims)
  }

  lemma NotYetDeleted(order: seq<Child>, i: nat)
    requires i < |order| && UniqueNames(order)
    ensures order[i] !in order[..i]
  {
    forall j | 0 <= j < i ensures order[j] != order[i] {
      assert order[j].name != order[i].name;
    }
  }

  /** What comes in the first `i` of an order by age is no newer than what comes after. */
  lemma LaterIsNewer(order: seq<Child>, i: nat, v: Child, s: Child)
    requires i <= |order| && ByAge(order) && v in order[..i] && s in order && s !in order[..i]
    ensures v.modified <= s.modified
  {
    var j :| 0 <= j < i && order[j] == v;
    assert order == order[..i] + order[i..];
    var k :| 0 <= k < |order[i..]| && order[i..][k] == s;
    assert order[i + k] == s;
  }

  lemma EvictedSoFar(before: Directory, now: Directory, order: seq<Child>, i: nat, pinned: set<string>,
                     victims: seq<Child>)
    requires Evicting(before, now, order, i, pinned, victims)
    requires ByAge(order) && forall c :: c in order <==> c in before && IsEntry(c)
    ensures Evicted(before, now, pinned, victims)
  {
    hide IsEntry, WithoutAll, UniqueNames;
    forall v, s | v in victims && s in now && IsEntry(s) && s.name !in pinned ensures v.modified <= s.modified {
      LaterIsNewer(order, i, v, s);
    }
    forall v | v in victims ensures v in before && IsEntry(v) && v.name !in pinned {
      assert v in order;
    }
  }

  lemma PrefixGrows(order: seq<Child>, i: nat)
    requires i < |order|
    ensures forall v :: v in order[..i + 1] <==> v in order[..i] || v == order[i]
  {
    assert order[..i + 1] == order[..i] + [order[i]];
  }

  lemma SameNameSameChild(d: Directory, a: Child, b: Child)
    requires UniqueNames(d) && a in d && b in d && a.name == b.name
    ensures a == b
  {
    var i :| 0 <= i < |d| && d[i] == a;
    var j :| 0 <= j < |d| && d[j] == b;
  }

  /** The next of `order` was modified no earlier than the victims before it, and is none of them. */
  lemma NextIsLatest(order: seq<Child>, i: nat, victims: seq<Child>)
    requires i < |order| && ByAge(order) && UniqueNames(order) && forall v | v in victims :: v in order[..i]
    ensures forall v | v in victims :: v.modified <= order[i].modified && v.name != order[i].name
  {
    forall v | v in victims ensures v.modified <= order[i].modified && v.name != order[i].name {
      var j :| 0 <= j < i && order[j] == v;
    }
  }

  lemma EvictOne(before: Directory, now: Directory, order: seq<Child>, i: nat, pinned: set<string>,
                 victims: seq<Child>)
    requires Evicting(before, now, order, i, pinned, victims) && UniqueNames(before) && UniqueNames(order) && ByAge(order)
    requires i < |order| && order[i].name !in pinned && order[i] in before
    ensures order[i] in now
    ensures Evicting(before, Without(now, order[i].name), order, i + 1, pinned, victims + [order[i]])
  {
    var entry := order[i];
    NotYetDeleted(order, i);
    WithoutKeepsUnique(now, entry.name);
    PrefixGrows(order, i);
    NextIsLatest(order, i, victims);
    AppendLatest(victims, entry);
    hide IsEntry, UniqueNames, Without, ByAge;
    assert (victims + [entry])[..|victims|] == victims;
    forall c | c in now && c.name == entry.name ensures c == entry {
      SameNameSameChild(before, c, entry);
    }
  }

  ghost predicate Candidates(d: Directory, order: seq<Child>) {
    && UniqueNames(d) && UniqueNames(order) && ByAge(order)
    && forall c :: c in order <==> c in d && IsEntry(c)
  }

  /** The eviction loop's whole state. */
  ghost predicate Reclaiming(before: Directory, now: Directory, order: seq<Child>, i: nat, pinned: set<string>,
                             victims: seq<Child>, total: nat, maximum: nat, required: nat)
  {
    && Evicting(before, now, order, i, pinned, victims) && Needed(before, victims, maximum, required)
    && total == Usage(now) <= Usage(before) && PinnedBytes(now, pinned) == PinnedBytes(before, pinned)
  }

  ghost predicate AllPinned(d: Directory, pinned: set<string>) { forall c | c in d && IsEntry(c) :: c.name in pinned }

  /** An unpinned entry whose deletion fails. */
  ghost predicate StuckEntry(c: Child, d: Directory, undeletable: set<string>, pinned: set<string>) {
    c in d && IsEntry(c) && c.name in undeletable && c.name !in pinned
  }

  lemma Stuck(c: Child, d: Directory, undeletable: set<string>, pinned: set<string>)
    requires c in d && IsEntry(c) && c.name in undeletable && c.name !in pinned
    ensures StuckEntry(c, d, undeletable, pinned)
  {
  }

  lemma ReclaimingStarts(before: Directory, order: seq<Child>, pinned: set<string>, maximum: nat, required: nat)
    requires Candidates(before, order)
    ensures Reclaiming(before, before, order, 0, pinned, [], Usage(before), maximum, required)
  {
    hide Usage, PinnedBytes;
  }

  lemma ReclaimingDeletes(before: Directory, now: Directory, order: seq<Child>, i: nat, pinned: set<string>,
                          victims: seq<Child>, total: nat, maximum: nat, required: nat)
    requires Reclaiming(before, now, order, i, pinned, victims, total, maximum, required) && Candidates(before, order)
    requires i < |order| && order[i].name !in pinned && total + required > maximum
    ensures order[i].bytes <= total && order[i] in now && IsEntry(order[i])
    ensures Reclaiming(before, Without(now, order[i].name), order, i + 1, pinned, victims + [order[i]],
                       total - order[i].bytes, maximum, required)
  {
    var entry := order[i];
    EvictOne(before, now, order, i, pinned, victims);
    WithoutBytes(now, entry, All);
    WithoutBytes(now, entry, Named(pinned));
    PicksOutside(entry, pinned);
    NeededSnoc(before, now, victims, entry, maximum, required);
    hide IsEntry, Picks, ByAge, Needed, UniqueNames, WithoutAll, Without, Bytes;
  }

  lemma ReclaimingSkips(before: Directory, now: Directory, order: seq<Child>, i: nat, pinned: set<string>,
                        victims: seq<Child>, total: nat, maximum: nat, required: nat)
    requires Reclaiming(before, now, order, i, pinned, victims, total, maximum, required)
    requires i < |order| && order[i].name in pinned
    ensures Reclaiming(before, now, order, i + 1, pinned, victims, total, maximum, required)
  {
    PrefixGrows(order, i);
    hide IsEntry, Picks, ByAge, Needed, UniqueNames, WithoutAll, Bytes;
  }

  /** What holds when the loop stops, whether because there is room or because it is through. */
  lemma ReclaimingEnds(before: Directory, now: Directory, order: seq<Child>, i: nat, pinned: set<string>,
                       victims: seq<Child>, total: nat, maximum: nat, required: nat)
    requires Reclaiming(before, now, order, i, pinned, victims, total, maximum, required) && Candidates(before, order)
    ensures UniqueNames(now) && Evicted(before, now, pinned, victims) && Needed(before, victims, maximum, required)
    ensures total == Usage(now) <= Usage(before)
    ensures PinnedBytes(before, pinned) <= total
    ensures i == |order| ==> PinnedBytes(before, pinned) == total && AllPinned(now, pinned)
  {
    EvictedSoFar(before, now, order, i, pinned, victims);
    PinnedWithinUsage(now, pinned);
    hide IsEntry, Picks, ByAge, Needed, UniqueNames, WithoutAll, Bytes, Evicted;
    if i == |order| {
      assert order[..i] == order;
    }
  }

  /** The process-wide table of weak references to pins, keyed by normalised path. Pin `id` was made for
      `owner[id]` and is held `holders[id]` times; it has expired when nobody holds it. */
  class PinRegistry {
    var pins: map<string, nat>
    var owner: seq<string>
    var holders: seq<nat>

    /** A live pin is the one the table names for its path. */
    ghost predicate Valid() reads this {
      && |owner| == |holders|
      && (forall p | p in pins :: pins[p] < |owner| && owner[pins[p]] == p)
      && (forall id | 0 <= id < |holders| && holders[id] > 0 :: owner[id] in pins && pins[owner[id]] == id)
    }

    ghost predicate Held(path: string)
      requires |owner| == |holders|
      reads this
    {
      exists id | 0 <= id < |holders| :: holders[id] > 0 && owner[id] == path
    }

    /** The paths somebody holds. */
    ghost function HeldNames(): (names: set<string>)
      requires Valid()
      reads this
      ensures forall p :: p in names <==> Held(p)
    {
      set p | p in pins && holders[pins[p]] > 0
    }

    /** The weak lookup says a path is pinned exactly when somebody still holds a pin made for it. */
    method IsPinned(path: string) returns (r: bool)
      requires Valid()
      ensures (r <==> Held(path)) && (r <==> path in HeldNames())
    {
      r := path in pins && holders[pins[path]] > 0;
    }

    /** Drops expired references. */
    method EraseExpired()
      requires Valid()
      modifies this`pins
      ensures Valid() && forall p :: p in pins <==> Held(p)
    {
      var table := pins;
      pins := map p | p in table && holders[table[p]] > 0 :: table[p];
    }

    /** A live pin for the path is shared, else a new one is made; nobody else's pin changes. */
    method PinEntry(path: string) returns (pin: nat)
      requires Valid()
      modifies this
      ensures Valid() && pin < |holders| && holders[pin] > 0 && owner[pin] == path
      ensures old(Held(path)) ==> pin < old(|holders|) && owner == old(owner) && holders == old(holders)[pin := old(holders)[pin] + 1]
      ensures !old(Held(path)) ==> pin == old(|holders|) && owner == old(owner) + [path] && holders == old(holders) + [1]
      ensures if old(Held(path)) then holders[pin] > 1 else holders[pin] == 1
      ensures HeldNames() == old(HeldNames()) + {path}
    {
      EraseExpired();
      if path in pins {
        pin := Share(path);
      } else {
        pin := Make(path);
      }
    }

    method Share(path: string) returns (pin: nat)
      requires Valid() && path in pins && Held(path)
      modifies this`holders
      ensures Valid() && pin == pins[path] && pin < |holders| && owner[pin] == path && holders[pin] > 1
      ensures holders == old(holders)[pin := old(holders)[pin] + 1]
      ensures HeldNames() == old(HeldNames()) + {path}
    {
      pin := pins[path];
      holders := holders[pin := holders[pin] + 1];
    }

    method Make(path: string) returns (pin: nat)
      requires Valid() && path !in pins
      modifies this
      ensures Valid() && pin == old(|owner|) && owner == old(owner) + [path] && holders == old(holders) + [1]
      ensures HeldNames() == old(HeldNames()) + {path}
    {
      pin := |owner|;
      owner, holders, pins := owner + [path], holders + [1], pins[path := pin];
      assert forall p | p in old(pins) :: pins[p] == old(pins)[p] < pin;
    }

    method Release(pin: nat)
      requires Valid() && pin < |holders| && holders[pin] > 0
      modifies this`holders
      ensures Valid() && holders == old(holders)[pin := old(holders)[pin] - 1]
      ensures HeldNames() == if holders[pin] > 0 then old(HeldNames()) else old(HeldNames()) - {owner[pin]}
    {
      holders := holders[pin := holders[pin] - 1];
    }
  }

  class DiskCache {
    var children: Directory

    method Delete(entry: Child, undeletable: set<string>) returns (ok: bool)
      modifies this
      ensures ok <==> entry.name !in undeletable
      ensures children == if ok then Without(old(children), entry.name) else old(children)
    {
      ok := entry.name !in undeletable;
      if ok {
        children := Without(children, entry.name);
      }
    }

    /** Collects the entries and their total size; fails if the total does not fit 64 bits. */
    method Enumerate() returns (entries: seq<Child>, total: nat, overflow: bool)
      requires UniqueNames(children)
      ensures overflow <==> Usage(children) > MAX_UINT64
      ensures !overflow ==> total == Usage(children)
      ensures !overflow ==> forall c :: c in entries <==> c in children && IsEntry(c)
      ensures !overflow ==> UniqueNames(entries)
    {
      entries, total, overflow := [], 0, false;
      for i := 0 to |children|
        invariant total == Usage(children[..i]) <= MAX_UINT64
        invariant forall c :: c in entries <==> c in children[..i] && IsEntry(c)
        invariant UniqueNames(entries)
      {
        var child := children[i];
        assert children[..i + 1] == children[..i] + [child] && children[..i + 1][..i] == children[..i];
        if IsEntry(child) {
          if child.bytes > MAX_UINT64 - total {
            UsageGrows(children, i + 1);
            return entries, total, true;
          }
          forall c | c in entries ensures c.name != child.name {
            var j :| 0 <= j < i && children[j] == c;
          }
          total := total + child.bytes;
          entries := entries + [child];
        }
      }
      assert children[..|children|] == children;
    }

    /** Deletes least recently used unpinned entries until `required` more bytes fit the budget. */
    method Reclaim(maximum: nat, required: nat, registry: PinRegistry, undeletable: set<string>)
      returns (r: Reclaimed, ghost victims: seq<Child>)
      requires UniqueNames(children) && registry.Valid()
      modifies this
      ensures UniqueNames(children) && Evicted(old(children), children, registry.HeldNames(), victims)
      ensures Needed(old(children), victims, maximum, required)
      ensures r == TooLarge <==> required > maximum
      ensures r == Overflow <==> required <= maximum && Usage(old(children)) > MAX_UINT64
      ensures r == TooLarge || r == Overflow ==> children == old(children)
      ensures r == Done ==> Usage(children) + required <= maximum
      ensures r == Occupied ==> AllPinned(children, registry.HeldNames())
      ensures r == Occupied ==> PinnedBytes(old(children), registry.HeldNames()) + required > maximum
      ensures r == Done ==> PinnedBytes(old(children), registry.HeldNames()) + required <= maximum
      ensures r == DeleteFailed ==> exists c :: StuckEntry(c, children, undeletable, registry.HeldNames())
      ensures Usage(children) <= Usage(old(children))
    {
      victims := [];
      if required > maximum {
        return TooLarge, victims;
      }
      var entries, total, overflow := Enumerate();
      if overflow {
        return Overflow, victims;
      }
      var order := SortByAge(entries);
      hide UniqueNames, ByAge, IsEntry, Bytes, Evicted, Needed, PinRegistry.Valid, PinRegistry.HeldNames, PinRegistry.Held;
      r, victims := Evict(order, total, maximum, required, registry, undeletable, registry.HeldNames());
    }

    method Evict(order: seq<Child>, used: nat, maximum: nat, required: nat, registry: PinRegistry, undeletable: set<string>,
                 ghost pinned: set<string>)
      returns (r: Reclaimed, ghost victims: seq<Child>)
      requires Candidates(children, order) && required <= maximum && used == Usage(children)
      requires registry.Valid() && pinned == registry.HeldNames()
      modifies this
      ensures UniqueNames(children) && Evicted(old(children), children, pinned, victims)
      ensures Needed(old(children), victims, maximum, required)
      ensures r == Done || r == Occupied || r == DeleteFailed
      ensures r == Done ==> Usage(children) + required <= maximum && PinnedBytes(old(children), pinned) + required <= maximum
      ensures r == Occupied ==> AllPinned(children, pinned) && PinnedBytes(old(children), pinned) + required > maximum
      ensures r == DeleteFailed ==> exists c :: StuckEntry(c, children, undeletable, pinned)
      ensures Usage(children) <= Usage(old(children))
    {
      ghost var before := children;
      hide *;
      ReclaimingStarts(before, order, pinned, maximum, required);
      victims := [];
      var total: nat := used;
      var i: nat := 0;
      while i < |order| && total > maximum - required
        invariant i <= |order| && Reclaiming(before, children, order, i, pinned, victims, total, maximum, required)
      {
        var entry := order[i];
        var held := registry.IsPinned(entry.name);
        if held {
          ReclaimingSkips(before, children, order, i, pinned, victims, total, maximum, required);
        } else {
          ReclaimingDeletes(before, children, order, i, pinned, victims, total, maximum, required);
          var ok := Delete(entry, undeletable);
          if !ok {
            Stuck(entry, children, undeletable, pinned);
            break;
          }
          total := total - entry.bytes;
          victims := victims + [entry];
        }
        i := i + 1;
      }
      ReclaimingEnds(before, children, order, i, pinned, victims, total, maximum, required);
      r := if total <= maximum - required then Done else if i < |order| then DeleteFailed else Occupied;
    }

    /** One write: it pins its own entry while room is made, and the new file, complete or cut short by a failed
        write, takes the place of the old one when the stream closes. The pin outlives a successful write only. */
    method Write(key: string, full: nat, maximum: nat, registry: PinRegistry, undeletable: set<string>,
                 publication: Publication, now: nat) returns (ok: bool, pin: nat)
      requires UniqueNames(children) && registry.Valid()
      modifies this, registry
      ensures registry.Valid()
      ensures Wrote(old(children), children, key, full, maximum, old(registry.HeldNames()))
      ensures forall c | c in old(children) && old(registry.Held(c.name)) && c.name != EntryName(key) :: c in children
      ensures ok ==> Child(EntryName(key), full, true, now) in children && Usage(children) <= maximum
      ensures ok ==> Stored(old(children), children, key, full, maximum, old(registry.HeldNames()))
      ensures ok ==> pin < |registry.holders| && registry.holders[pin] > 0 && registry.owner[pin] == EntryName(key)
      ensures registry.HeldNames() == old(registry.HeldNames()) + if ok then {EntryName(key)} else {}
      ensures !ValidKey(key) ==> !ok && children == old(children)
    {
      hide Evicted, Needed, Usage, UniqueNames, PinRegistry.HeldNames, PinRegistry.Valid, Wrote, Published, Stored;
      ghost var before, pinned := children, registry.HeldNames();
      pin := 0;
      if !ValidKey(key) {
        NothingEvicted(before, pinned + {EntryName(key)}, maximum, full);
        WroteNothing(before, before, key, full, maximum, pinned, []);
        WroteWithin(before, before, key, full, maximum, pinned);
        return false, pin;
      }
      pin := registry.PinEntry(EntryName(key));
      var r, victims := Reclaim(maximum, full, registry, undeletable);
      ghost var made := children;
      if r != Done || publication == NotReplaced {
        WroteNothing(before, made, key, full, maximum, pinned, victims);
        WroteWithin(before, made, key, full, maximum, pinned);
        registry.Release(pin);
        return false, pin;
      }
      var bytes := if publication.Truncated? && publication.bytes < full then publication.bytes else full;
      children := Published(children, key, bytes, now);
      PublishedFits(made, key, bytes, now);
      WrotePublished(before, made, key, full, maximum, pinned, victims, bytes, now);
      WroteWithin(before, children, key, full, maximum, pinned);
      ok := publication == Complete;
      if ok {
        PublishedIsStored(before, made, key, full, maximum, pinned, victims, now);
      } else {
        registry.Release(pin);
      }
    }
  }

  /** How creating and filling the replacement went. */
  datatype Publication = NotReplaced | Truncated(bytes: nat) | Complete

  function EntryName(key: string): string { key + ".ptac" }

  /** A file published under a key counts as a cache entry, so it is charged to the budget and can be evicted. */
  lemma PublishedIsEntry(key: string, bytes: nat, now: nat)
    requires ValidKey(key)
    ensures IsEntry(Child(EntryName(key), bytes, true, now))
  {
    assert EntryName(key)[..|key|] == key;
  }

  /** The entries are exactly the regular files that some key names, and a name belongs to one key. */
  lemma EntriesAreKeyed(c: Child)
    ensures IsEntry(c) <==> c.regular && exists key :: ValidKey(key) && c.name == EntryName(key)
    ensures IsEntry(c) <==> c.regular && |c.name| == 69 && c.name[64..] == ".ptac"
                            && forall i | 0 <= i < 64 :: '0' <= c.name[i] <= '9' || 'a' <= c.name[i] <= 'f'
    ensures forall a, b :: EntryName(a) == EntryName(b) ==> a == b
  {
    if IsEntry(c) {
      var key := c.name[..|c.name| - 5];
      assert ValidKey(key) && c.name == EntryName(key);
    }
    forall key | ValidKey(key) && c.name == EntryName(key) ensures c.regular ==> IsEntry(c) {
      assert c.name[..|key|] == key;
    }
    forall a, b | EntryName(a) == EntryName(b) ensures a == b {
      assert a == EntryName(a)[..|EntryName(a)| - 5] && b == EntryName(b)[..|EntryName(b)| - 5];
    }
  }

  function Published(d: Directory, key: string, bytes: nat, now: nat): Directory {
    Without(d, EntryName(key)) + [Child(EntryName(key), bytes, true, now)]
  }

  lemma NothingEvicted(d: Directory, pinned: set<string>, maximum: nat, required: nat)
    requires UniqueNames(d)
    ensures Evicted(d, d, pinned, []) && Needed(d, [], maximum, required)
  {
  }

  /** What one write may have done: nothing but evictions, or evictions and a published file that fits. */
  ghost predicate Wrote(before: Directory, after: Directory, key: string, full: nat, maximum: nat, pinned: set<string>) {
    exists victims, made ::
      && Evicted(before, made, pinned + {EntryName(key)}, victims) && Needed(before, victims, maximum, full)
      && Usage(made) <= Usage(before)
      && (after == made || Fits(made, after, key, full, maximum))
  }

  ghost predicate Fits(made: Directory, after: Directory, key: string, full: nat, maximum: nat) {
    && Usage(made) + full <= maximum
    && exists bytes: nat, now: nat :: bytes <= full && after == Published(made, key, bytes, now)
  }

  lemma WroteNothing(before: Directory, made: Directory, key: string, full: nat, maximum: nat, pinned: set<string>,
                     victims: seq<Child>)
    requires Needed(before, victims, maximum, full)
    requires Evicted(before, made, pinned + {EntryName(key)}, victims) && Usage(made) <= Usage(before)
    ensures Wrote(before, made, key, full, maximum, pinned)
  {
    hide Evicted, Usage, Fits, Needed;
  }

  lemma WrotePublished(before: Directory, made: Directory, key: string, full: nat, maximum: nat, pinned: set<string>,
                       victims: seq<Child>, bytes: nat, now: nat)
    requires Needed(before, victims, maximum, full)
    requires Evicted(before, made, pinned + {EntryName(key)}, victims) && Usage(made) <= Usage(before)
    requires Usage(made) + full <= maximum && bytes <= full
    ensures Wrote(before, Published(made, key, bytes, now), key, full, maximum, pinned)
  {
    hide Evicted, Usage, Published, Needed;
    assert Fits(made, Published(made, key, bytes, now), key, full, maximum);
  }

  lemma {:induction false} NoneNamed(d: Directory, name: string)
    requires forall c | c in d :: c.name != name
    ensures PinnedBytes(d, {name}) == 0
  {
    hide IsEntry;
    if d != [] {
      assert d[|d| - 1] in d;
      NoneNamed(d[..|d| - 1], name);
    }
  }

  /** What one name takes up is its one child's size, if that is an entry. */
  lemma OneNamed(d: Directory, c: Child)
    requires UniqueNames(d) && c in d
    ensures PinnedBytes(d, {c.name}) == if IsEntry(c) then c.bytes else 0
  {
    WithoutBytes(d, c, Named({c.name}));
    NoneNamed(Without(d, c.name), c.name);
    hide IsEntry, Bytes, Without;
  }

  /** An eviction that spares a name leaves its bytes as they were. */
  lemma SparedBytes(before: Directory, after: Directory, pinned: set<string>, victims: seq<Child>, name: string)
    requires UniqueNames(before) && Evicted(before, after, pinned, victims) && name in pinned
    ensures PinnedBytes(after, {name}) == PinnedBytes(before, {name})
  {
    hide IsEntry, Bytes, WithoutAll, UniqueNames, ByAge;
    if c :| c in before && c.name == name {
      OneNamed(before, c);
      OneNamed(after, c);
    } else {
      NoneNamed(before, name);
      NoneNamed(after, name);
    }
  }

  /** A stored entry: the evictions that were needed, and then exactly `full` bytes in the place of the old entry. */
  ghost predicate Stored(before: Directory, after: Directory, key: string, full: nat, maximum: nat, pinned: set<string>) {
    exists victims ::
      && Evicted(before, WithoutAll(before, victims), pinned + {EntryName(key)}, victims)
      && Needed(before, victims, maximum, full)
      && Usage(after) + PinnedBytes(before, {EntryName(key)}) == UsageAfter(before, victims, |victims|) + full
  }

  lemma PublishedIsStored(before: Directory, made: Directory, key: string, full: nat, maximum: nat, pinned: set<string>,
                          victims: seq<Child>, now: nat)
    requires UniqueNames(before) && ValidKey(key) && Needed(before, victims, maximum, full)
    requires Evicted(before, made, pinned + {EntryName(key)}, victims)
    ensures Stored(before, Published(made, key, full, now), key, full, maximum, pinned)
  {
    SparedBytes(before, made, pinned + {EntryName(key)}, victims, EntryName(key));
    PublishedTakes(made, key, full, now);
    assert victims[..|victims|] == victims;
    hide UniqueNames, Bytes, Published, Needed, ValidKey, EntryName, ByAge, IsEntry;
    assert UsageAfter(before, victims, |victims|) == Usage(made);
  }

  lemma WithoutShrinks(d: Directory, name: string)
    requires UniqueNames(d)
    ensures UniqueNames(Without(d, name)) && Usage(Without(d, name)) <= Usage(d)
  {
    WithoutKeepsUnique(d, name);
    if c :| c in d && c.name == name {
      WithoutBytes(d, c, All);
    } else {
      WithoutAbsent(d, name);
    }
  }

  lemma PublishedFits(d: Directory, key: string, bytes: nat, now: nat)
    requires UniqueNames(d)
    ensures UniqueNames(Published(d, key, bytes, now))
    ensures Usage(Published(d, key, bytes, now)) <= Usage(d) + bytes
    ensures forall c :: c in Published(d, key, bytes, now) <==>
              (c in d && c.name != EntryName(key)) || c == Child(EntryName(key), bytes, true, now)
  {
    hide IsEntry;
    var rest, child := Without(d, EntryName(key)), Child(EntryName(key), bytes, true, now);
    WithoutShrinks(d, EntryName(key));
    BytesSnoc(rest, child, All);
    forall i | 0 <= i < |rest| ensures rest[i].name != child.name {
      assert rest[i] in rest;
    }
  }

  /** A published entry takes the place of what its name took up before. */
  lemma PublishedTakes(d: Directory, key: string, bytes: nat, now: nat)
    requires UniqueNames(d) && ValidKey(key)
    ensures Usage(Published(d, key, bytes, now)) == Usage(d) - PinnedBytes(d, {EntryName(key)}) + bytes
  {
    var name := EntryName(key);
    PublishedIsEntry(key, bytes, now);
    BytesSnoc(Without(d, name), Child(name, bytes, true, now), All);
    hide IsEntry, Bytes, Without, EntryName, ValidKey, UniqueNames;
    if c :| c in d && c.name == name {
      WithoutBytes(d, c, All);
      OneNamed(d, c);
    } else {
      WithoutAbsent(d, name);
      NoneNamed(d, name);
    }
  }

  /** A write request of a run: its key, its size, and what was pinned while it ran. */
  datatype Request = Request(key: string, full: nat, pinned: set<string>)

  /** Every directory of `trace` follows from the one before by the request between them. */
  ghost predicate IsRun(trace: seq<Directory>, requests: seq<Request>, maximum: nat) {
    && |trace| == |requests| + 1 && UniqueNames(trace[0])
    && forall i | 0 <= i < |requests| :: WroteAt(trace, requests, maximum, i)
  }

  ghost predicate WroteAt(trace: seq<Directory>, requests: seq<Request>, maximum: nat, i: nat)
    requires i < |requests| && |trace| == |requests| + 1
  {
    Wrote(trace[i], trace[i + 1], requests[i].key, requests[i].full, maximum, requests[i].pinned)
  }

  lemma WroteWithin(before: Directory, after: Directory, key: string, full: nat, maximum: nat, pinned: set<string>)
    requires Wrote(before, after, key, full, maximum, pinned)
    ensures UniqueNames(after)
    ensures Usage(after) <= maximum || Usage(after) <= Usage(before)
    ensures forall c | c in before && c.name != EntryName(key) && (c.name in pinned || !IsEntry(c)) :: c in after
  {
    hide IsEntry, UniqueNames, Usage, Published, Needed, WithoutAll;
    var victims, made :|
      && Evicted(before, made, pinned + {EntryName(key)}, victims) && Needed(before, victims, maximum, full)
      && Usage(made) <= Usage(before)
      && (after == made || Fits(made, after, key, full, maximum));
    if after != made {
      var bytes: nat, now: nat :| bytes <= full && after == Published(made, key, bytes, now);
      PublishedFits(made, key, bytes, now);
    }
  }

  /** Once within the budget, the cache stays within it whatever is written and however writes fail; a child that
      is pinned throughout, or is no cache entry, survives every write to another key. */
  lemma {:induction false} BudgetHolds(trace: seq<Directory>, requests: seq<Request>, maximum: nat, c: Child)
    requires IsRun(trace, requests, maximum) && Usage(trace[0]) <= maximum
    ensures UniqueNames(trace[|requests|]) && Usage(trace[|requests|]) <= maximum
    ensures c in trace[0] && (forall r | r in requests :: c.name != EntryName(r.key) && (c.name in r.pinned || !IsEntry(c)))
            ==> c in trace[|requests|]
    decreases |requests|
  {
    hide IsEntry, UniqueNames, Usage, Wrote, EntryName;
    var n := |requests|;
    if n > 0 {
      var last := requests[n - 1];
      var front, earlier := trace[..n], requests[..n - 1];
      assert IsRun(front, earlier, maximum) by {
        forall i | 0 <= i < n - 1 ensures WroteAt(front, earlier, maximum, i) {
          assert WroteAt(trace, requests, maximum, i);
        }
      }
      BudgetHolds(front, earlier, maximum, c);
      assert WroteAt(trace, requests, maximum, n - 1);
      WroteWithin(trace[n - 1], trace[n], last.key, last.full, maximum, last.pinned);
      assert last in requests;
    }
  }
}
