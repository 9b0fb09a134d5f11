/**
 * The bounded store of reusable representations: an insertion-ordered map whose order is recency.
 * A body is a sequence of code units, so its length is what the byte bound counts.
 */
module RepresentationCache {
  import opened Wrappers
  import ClientRetry

  const MAX_ENTRIES := 1_000
  const MAX_BYTES := 20 * 1024 * 1024
  const MAX_ENTRY_BYTES := 512 * 1024

  datatype Representation = Representation(etag: string, variant: string, body: string, link: Option<string>)

  datatype Slot = Slot(url: string, entry: Representation)

  // ----- What the operations do to the order -----

  ghost predicate Distinct(slots: seq<Slot>) {
    slots != [] ==> (forall s :: s in slots[1..] ==> s.url != slots[0].url) && Distinct(slots[1..])
  }

  function Find(slots: seq<Slot>, url: string): (found: Option<Representation>)
    ensures found.Some? ==> Slot(url, found.value) in slots
    ensures found.None? <==> forall s :: s in slots ==> s.url != url
  {
    if slots == [] then None
    else if slots[0].url == url then Some(slots[0].entry)
    else Find(slots[1..], url)
  }

  function Without(slots: seq<Slot>, url: string): (rest: seq<Slot>)
    ensures forall s :: s in rest <==> s in slots && s.url != url
    ensures |rest| <= |slots|
  {
    if slots == [] then []
    else if slots[0].url == url then Without(slots[1..], url)
    else [slots[0]] + Without(slots[1..], url)
  }

  function Bytes(slots: seq<Slot>): nat {
    if slots == [] then 0 else |slots[0].entry.body| + Bytes(slots[1..])
  }

  predicate Fits(slots: seq<Slot>) {
    |slots| <= MAX_ENTRIES && Bytes(slots) <= MAX_BYTES
  }

  /** Drop the oldest until under both bounds. */
  function Evicted(slots: seq<Slot>): seq<Slot> {
    if Fits(slots) then slots else assert slots != [] by { EmptyFits(slots); } Evicted(slots[1..])
  }

  lemma EmptyFits(slots: seq<Slot>)
    ensures slots == [] ==> Fits(slots)
  {
  }

  function Stored(slots: seq<Slot>, url: string, entry: Representation): seq<Slot> {
    Evicted(Without(slots, url) + [Slot(url, entry)])
  }

  /** A hit is the entry under this very URL and variant. */
  function Hit(slots: seq<Slot>, url: string, variant: string): Option<Representation> {
    match Find(slots, url)
    case None => None
    case Some(entry) => if entry.variant == variant then Some(entry) else None
  }

  /** A hit makes its entry newest; a miss moves nothing. */
  function LookedUp(slots: seq<Slot>, url: string, variant: string): seq<Slot> {
    match Hit(slots, url, variant)
    case None => slots
    case Some(entry) => Without(slots, url) + [Slot(url, entry)]
  }

  predicate StartsWith(text: string, prefix: string) {
    |prefix| <= |text| && text[..|prefix|] == prefix
  }

  /** The resource's own URL, or that URL with a query after it. */
  predicate SameResource(url: string, resource: string) {
    url == resource || StartsWith(url, resource + "?")
  }

  /** A resource's URLs are its own and its own with any query, and none besides. */
  lemma AResourceIsItsUrlAndItsQueries(url: string, resource: string)
    ensures SameResource(url, resource) <==> url == resource || exists query :: url == resource + "?" + query
  {
    if StartsWith(url, resource + "?") {
      assert url == resource + "?" + url[|resource| + 1..];
    }
    if query :| url == resource + "?" + query {
      assert url[..|resource| + 1] == resource + "?";
    }
  }

  function WithoutResource(slots: seq<Slot>, resource: string): (rest: seq<Slot>)
    ensures forall s :: s in rest <==> s in slots && !SameResource(s.url, resource)
    ensures |rest| <= |slots|
  {
    if slots == [] then []
    else if SameResource(slots[0].url, resource) then WithoutResource(slots[1..], resource)
    else [slots[0]] + WithoutResource(slots[1..], resource)
  }

  // ----- Lists of slots -----

  lemma {:induction false} BytesAppend(a: seq<Slot>, b: seq<Slot>)
    ensures Bytes(a + b) == Bytes(a) + Bytes(b)
  {
    if a == [] {
      assert a + b == b;
    } else {
      assert (a + b)[1..] == a[1..] + b;
      BytesAppend(a[1..], b);
    }
  }

  lemma {:induction false} WithoutIsSmaller(slots: seq<Slot>, url: string)
    requires Distinct(slots)
    ensures Distinct(Without(slots, url))
    ensures Bytes(Without(slots, url)) == Bytes(slots) - match Find(slots, url) case None => 0 case Some(e) => |e.body|
    ensures |Without(slots, url)| == |slots| - match Find(slots, url) case None => 0 case Some(_) => 1
  {
    if slots != [] {
      WithoutIsSmaller(slots[1..], url);
      var rest := Without(slots[1..], url);
      if slots[0].url == url {
        WithoutAbsent(slots[1..], url);
        assert Without(slots, url) == rest;
      } else {
        assert Without(slots, url)[1..] == rest;
      }
    }
  }

  lemma {:induction false} DistinctAppend(slots: seq<Slot>, last: Slot)
    requires Distinct(slots) && forall s :: s in slots ==> s.url != last.url
    ensures Distinct(slots + [last])
  {
    if slots != [] {
      DistinctAppend(slots[1..], last);
      assert (slots + [last])[1..] == slots[1..] + [last];
    }
  }

  lemma {:induction false} WithoutAbsent(slots: seq<Slot>, url: string)
    requires forall s :: s in slots ==> s.url != url
    ensures Without(slots, url) == slots
  {
    if slots != [] {
      WithoutAbsent(slots[1..], url);
    }
  }

  lemma {:induction false} WithoutResourceIsSmaller(slots: seq<Slot>, resource: string)
    requires Distinct(slots)
    ensures Distinct(WithoutResource(slots, resource))
    ensures Bytes(WithoutResource(slots, resource)) <= Bytes(slots)
  {
    if slots != [] {
      WithoutResourceIsSmaller(slots[1..], resource);
      var rest := WithoutResource(slots[1..], resource);
      if SameResource(slots[0].url, resource) {
        assert WithoutResource(slots, resource) == rest;
      } else {
        assert WithoutResource(slots, resource)[1..] == rest;
      }
    }
  }

  lemma {:induction false} EvictedIsDistinct(slots: seq<Slot>)
    requires Distinct(slots)
    ensures Distinct(Evicted(slots)) && Fits(Evicted(slots)) && forall s :: s in Evicted(slots) ==> s in slots
  {
    if !Fits(slots) {
      EmptyFits(slots);
      EvictedIsDistinct(slots[1..]);
    }
  }

  /**
   * Eviction takes the oldest and no more than it must: what remains is the longest suffix of the recency order
   * that meets both bounds.
   */
  lemma {:induction false} EvictionIsLeast(slots: seq<Slot>) returns (k: nat)
    ensures k <= |slots| && Evicted(slots) == slots[k..]
    ensures |slots| - k <= MAX_ENTRIES && Bytes(slots[k..]) <= MAX_BYTES
    ensures forall j :: 0 <= j < k ==> |slots| - j > MAX_ENTRIES || Bytes(slots[j..]) > MAX_BYTES
  {
    if Fits(slots) {
      k := 0;
    } else {
      EmptyFits(slots);
      var rest := EvictionIsLeast(slots[1..]);
      k := rest + 1;
      assert slots[1..][rest..] == slots[k..];
      forall j | 0 <= j < k ensures |slots| - j > MAX_ENTRIES || Bytes(slots[j..]) > MAX_BYTES {
        if j > 0 {
          assert slots[1..][j - 1..] == slots[j..];
        }
      }
    }
  }

  /** An entry small enough to be retained at all is never evicted by its own arrival. */
  lemma StoringHolds(slots: seq<Slot>, url: string, entry: Representation)
    requires |entry.body| <= MAX_ENTRY_BYTES
    ensures Hit(Stored(slots, url, entry), url, entry.variant) == Some(entry)
  {
    var all := Without(slots, url) + [Slot(url, entry)];
    var k := EvictionIsLeast(all);
    var last := all[|all| - 1..];
    assert last == [Slot(url, entry)];
    assert last[1..] == [];
    assert Fits(all[|all| - 1..]);
    assert k <= |all| - 1;
    assert Slot(url, entry) == all[k..][|all| - 1 - k];
    FindLast(all[k..], url, entry);
  }

  lemma {:induction false} FindLast(slots: seq<Slot>, url: string, entry: Representation)
    requires slots != [] && slots[|slots| - 1] == Slot(url, entry)
    requires forall s :: s in slots ==> s == Slot(url, entry) || s.url != url
    ensures Find(slots, url) == Some(entry)
  {
    assert slots[|slots| - 1] in slots;
  }

  // ----- The store as an object -----

  function WithoutAll(slots: seq<Slot>, resources: seq<string>): seq<Slot> {
    if resources == [] then slots
    else WithoutResource(WithoutAll(slots, resources[..|resources| - 1]), resources[|resources| - 1])
  }

  lemma {:induction false} WithoutAllHolds(slots: seq<Slot>, resources: seq<string>)
    ensures forall s :: s in WithoutAll(slots, resources) <==>
              s in slots && !(exists r :: r in resources && SameResource(s.url, r))
  {
    if resources != [] {
      var shorter, last := resources[..|resources| - 1], resources[|resources| - 1];
      WithoutAllHolds(slots, shorter);
      assert forall r :: r in resources <==> r in shorter || r == last;
    }
  }

  class Cache {
    var slots: seq<Slot>
    var retainedBytes: int

    /** The count of retained bytes is the sum of the bodies held, and both bounds hold. */
    ghost predicate Valid() reads this {
      Distinct(slots) && retainedBytes == Bytes(slots) && Fits(slots)
    }

    constructor ()
      ensures Valid() && slots == []
    {
      slots := [];
      retainedBytes := 0;
    }

    method RemoveSlot(url: string)
      requires Distinct(slots) && retainedBytes == Bytes(slots)
      modifies this
      ensures slots == Without(old(slots), url)
      ensures Distinct(slots) && retainedBytes == Bytes(slots) <= Bytes(old(slots))
    {
      WithoutIsSmaller(slots, url);
      var found := Find(slots, url);
      if found.Some? {
        retainedBytes := retainedBytes - |found.value.body|;
        slots := Without(slots, url);
      } else {
        WithoutAbsent(slots, url);
      }
    }

    method Lookup(url: string, variant: string) returns (hit: Option<Representation>)
      requires Valid()
      modifies this
      ensures Valid()
      ensures hit == Hit(old(slots), url, variant) && slots == LookedUp(old(slots), url, variant)
    {
      hit := Hit(slots, url, variant);
      if hit.Some? {
        WithoutIsSmaller(slots, url);
        BytesAppend(Without(slots, url), [Slot(url, hit.value)]);
        DistinctAppend(Without(slots, url), Slot(url, hit.value));
        slots := Without(slots, url) + [Slot(url, hit.value)];
      }
    }

    /** The entry takes the newest place, and slots leave from the oldest end while either bound is passed. */
    method Store(url: string, entry: Representation)
      requires Valid()
      modifies this
      ensures Valid()
      ensures slots == Stored(old(slots), url, entry)
    {
      RemoveSlot(url);
      BytesAppend(slots, [Slot(url, entry)]);
      DistinctAppend(slots, Slot(url, entry));
      slots := slots + [Slot(url, entry)];
      retainedBytes := retainedBytes + |entry.body|;
      ghost var all := slots;
      while |slots| > MAX_ENTRIES || retainedBytes > MAX_BYTES
        invariant Distinct(slots) && retainedBytes == Bytes(slots)
        invariant Evicted(slots) == Evicted(all)
        decreases |slots|
      {
        EmptyFits(slots);
        WithoutAbsent(slots[1..], slots[0].url);
        assert Without(slots, slots[0].url) == slots[1..];
        RemoveSlot(slots[0].url);
      }
    }

    method Remove(url: string)
      requires Valid()
      modifies this
      ensures Valid()
      ensures slots == Without(old(slots), url)
    {
      RemoveSlot(url);
    }

    method RemoveResource(resource: string)
      requires Valid()
      modifies this
      ensures Valid()
      ensures slots == WithoutResource(old(slots), resource)
    {
      var keys := seq(|slots|, i requires 0 <= i < |slots| reads this => slots[i].url);
      ghost var before := slots;
      for i := 0 to |keys|
        invariant Valid()
        invariant slots == WithoutResource(before[..i], resource) + before[i..]
      {
        ResourceStep(before, i, resource);
        if SameResource(keys[i], resource) {
          RemoveSlot(keys[i]);
        }
      }
      assert before[..|keys|] == before;
    }

    /** What a write's answer leaves held: all of it when nothing was sent, and none of the resources it names otherwise. */
    method DropStale(resources: seq<string>, answer: ClientRetry.Answer)
      requires Valid()
      modifies this
      ensures Valid()
      ensures slots == if ClientRetry.Invalidates(answer) then WithoutAll(old(slots), resources) else old(slots)
      ensures forall s :: s in slots <==>
                s in old(slots) && !(ClientRetry.Invalidates(answer) && exists r :: r in resources && SameResource(s.url, r))
    {
      ghost var before := slots;
      if ClientRetry.Invalidates(answer) {
        for i := 0 to |resources|
          invariant Valid()
          invariant slots == WithoutAll(before, resources[..i])
        {
          assert resources[..i + 1][..i] == resources[..i] && resources[..i + 1][i] == resources[i];
          RemoveResource(resources[i]);
        }
        assert resources[..|resources|] == resources;
        WithoutAllHolds(before, resources);
      }
    }
  }

  lemma {:induction false} WithoutMiddle(a: seq<Slot>, slot: Slot, b: seq<Slot>)
    requires Distinct(a + ([slot] + b))
    ensures Without(a + ([slot] + b), slot.url) == a + b
  {
    var all := a + ([slot] + b);
    if a == [] {
      assert all == [slot] + b;
      assert all[1..] == b;
      WithoutAbsent(b, slot.url);
      assert a + b == b;
    } else {
      assert all[1..] == a[1..] + ([slot] + b);
      assert slot in all[1..];
      WithoutMiddle(a[1..], slot, b);
      assert a + b == [a[0]] + (a[1..] + b);
    }
  }

  lemma {:induction false} WithoutResourceOfAppend(a: seq<Slot>, last: Slot, resource: string)
    ensures var before := WithoutResource(a, resource);
            WithoutResource(a + [last], resource) == if SameResource(last.url, resource) then before else before + [last]
  {
    if a == [] {
      assert a + [last] == [last];
    } else {
      assert (a + [last])[1..] == a[1..] + [last];
      WithoutResourceOfAppend(a[1..], last, resource);
    }
  }

  /** One key of the sweep: what is done, then this slot and the rest, becomes a longer part done and the rest. */
  lemma ResourceStep(before: seq<Slot>, i: nat, resource: string)
    requires i < |before| && Distinct(WithoutResource(before[..i], resource) + before[i..])
    ensures var now, next := WithoutResource(before[..i], resource) + before[i..],
                             WithoutResource(before[..i + 1], resource) + before[i + 1..];
            next == if SameResource(before[i].url, resource) then Without(now, before[i].url) else now
  {
    var done, slot, ahead := WithoutResource(before[..i], resource), before[i], before[i + 1..];
    assert before[i..] == [slot] + ahead;
    assert before[..i + 1] == before[..i] + [slot];
    WithoutResourceOfAppend(before[..i], slot, resource);
    if SameResource(slot.url, resource) {
      WithoutMiddle(done, slot, ahead);
    } else {
      Regroups(done, slot, ahead);
    }
  }

  lemma Regroups(done: seq<Slot>, slot: Slot, ahead: seq<Slot>)
    ensures done + [slot] + ahead == done + ([slot] + ahead)
  {
  }

  // ----- Runs: the store refines a plain map -----

  datatype Op =
    | Looking(url: string, variant: string)
    | Storing(url: string, entry: Representation)
    | Removing(url: string)
    | RemovingResource(resource: string)

  function SlotsAfter(slots: seq<Slot>, op: Op): seq<Slot> {
    match op
    case Looking(url, variant) => LookedUp(slots, url, variant)
    case Storing(url, entry) => Stored(slots, url, entry)
    case Removing(url) => Without(slots, url)
    case RemovingResource(resource) => WithoutResource(slots, resource)
  }

  /** The same operations on a map that forgets nothing it is not told to. */
  function PlainAfter(plain: map<string, Representation>, op: Op): map<string, Representation> {
    match op
    case Looking(_, _) => plain
    case Storing(url, entry) => plain[url := entry]
    case Removing(url) => plain - {url}
    case RemovingResource(resource) => map url | url in plain && !SameResource(url, resource) :: plain[url]
  }

  /** When each URL was last stored or hit, counted in operations. */
  function UsedAfter(used: map<string, nat>, slots: seq<Slot>, op: Op, now: nat): map<string, nat> {
    match op
    case Looking(url, variant) => if Hit(slots, url, variant).Some? then used[url := now] else used
    case Storing(url, _) => used[url := now]
    case _ => used
  }

  function SlotsOf(ops: seq<Op>): seq<Slot> {
    if ops == [] then [] else SlotsAfter(SlotsOf(ops[..|ops| - 1]), ops[|ops| - 1])
  }

  function PlainOf(ops: seq<Op>): map<string, Representation> {
    if ops == [] then map[] else PlainAfter(PlainOf(ops[..|ops| - 1]), ops[|ops| - 1])
  }

  function UsedOf(ops: seq<Op>): map<string, nat> {
    if ops == [] then map[]
    else UsedAfter(UsedOf(ops[..|ops| - 1]), SlotsOf(ops[..|ops| - 1]), ops[|ops| - 1], |ops|)
  }

  predicate Earlier(used: map<string, nat>, a: Slot, b: Slot) {
    a.url in used && b.url in used && used[a.url] < used[b.url]
  }

  /** The order of the slots is the order of last use. */
  ghost predicate ByUse(slots: seq<Slot>, used: map<string, nat>) {
    slots != [] ==> (forall s :: s in slots[1..] ==> Earlier(used, slots[0], s)) && ByUse(slots[1..], used)
  }

  ghost predicate Backed(slots: seq<Slot>, plain: map<string, Representation>) {
    forall s :: s in slots ==> s.url in plain && plain[s.url] == s.entry
  }

  ghost predicate UsedBy(slots: seq<Slot>, used: map<string, nat>, now: nat) {
    forall s :: s in slots ==> s.url in used && used[s.url] <= now
  }

  /** Held means held by the plain map too, under both bounds, in order of last use. */
  ghost predicate Refines(slots: seq<Slot>, plain: map<string, Representation>, used: map<string, nat>, now: nat) {
    Distinct(slots) && Fits(slots) && Backed(slots, plain) && UsedBy(slots, used, now) && ByUse(slots, used)
  }

  lemma {:induction false} ByUseWithout(slots: seq<Slot>, used: map<string, nat>, url: string, now: nat)
    requires ByUse(slots, used)
    ensures ByUse(Without(slots, url), used[url := now])
  {
    if slots != [] {
      ByUseWithout(slots[1..], used, url, now);
      var rest := Without(slots[1..], url);
      if slots[0].url == url {
        assert Without(slots, url) == rest;
      } else {
        assert Without(slots, url)[1..] == rest;
        assert forall s :: s in rest ==> Earlier(used, slots[0], s);
      }
    }
  }

  lemma {:induction false} ByUseRemoved(slots: seq<Slot>, used: map<string, nat>, url: string)
    requires ByUse(slots, used)
    ensures ByUse(Without(slots, url), used)
  {
    if slots != [] {
      ByUseRemoved(slots[1..], used, url);
      if slots[0].url == url {
        assert Without(slots, url) == Without(slots[1..], url);
      } else {
        assert Without(slots, url)[1..] == Without(slots[1..], url);
      }
    }
  }

  lemma {:induction false} ByUseResource(slots: seq<Slot>, used: map<string, nat>, resource: string)
    requires ByUse(slots, used)
    ensures ByUse(WithoutResource(slots, resource), used)
  {
    if slots != [] {
      ByUseResource(slots[1..], used, resource);
      if SameResource(slots[0].url, resource) {
        assert WithoutResource(slots, resource) == WithoutResource(slots[1..], resource);
      } else {
        assert WithoutResource(slots, resource)[1..] == WithoutResource(slots[1..], resource);
      }
    }
  }

  lemma {:induction false} ByUseAppend(slots: seq<Slot>, used: map<string, nat>, last: Slot)
    requires ByUse(slots, used) && forall s :: s in slots ==> Earlier(used, s, last)
    ensures ByUse(slots + [last], used)
  {
    if slots != [] {
      ByUseAppend(slots[1..], used, last);
      assert (slots + [last])[1..] == slots[1..] + [last];
    }
  }

  lemma {:induction false} ByUseEvicted(slots: seq<Slot>, used: map<string, nat>)
    requires ByUse(slots, used)
    ensures ByUse(Evicted(slots), used)
  {
    if !Fits(slots) {
      EmptyFits(slots);
      ByUseEvicted(slots[1..], used);
    }
  }

  /** Making one slot newest, whether by a hit or by a store, keeps everything but the bounds. */
  lemma NewestKeepsOrder(slots: seq<Slot>, plain: map<string, Representation>, used: map<string, nat>, now: nat,
                         url: string, entry: Representation)
    requires Refines(slots, plain, used, now)
    ensures var all := Without(slots, url) + [Slot(url, entry)];
            && Distinct(all)
            && Backed(all, plain[url := entry])
            && UsedBy(all, used[url := now + 1], now + 1)
            && ByUse(all, used[url := now + 1])
  {
    WithoutIsSmaller(slots, url);
    DistinctAppend(Without(slots, url), Slot(url, entry));
    ByUseWithout(slots, used, url, now + 1);
    ByUseAppend(Without(slots, url), used[url := now + 1], Slot(url, entry));
  }

  lemma RefinementStep(slots: seq<Slot>, plain: map<string, Representation>, used: map<string, nat>, now: nat, op: Op)
    requires Refines(slots, plain, used, now)
    ensures Refines(SlotsAfter(slots, op), PlainAfter(plain, op), UsedAfter(used, slots, op, now + 1), now + 1)
  {
    match op
    case Looking(url, variant) =>
      var hit := Hit(slots, url, variant);
      if hit.Some? {
        NewestKeepsOrder(slots, plain, used, now, url, hit.value);
        assert plain[url := hit.value] == plain;
        WithoutIsSmaller(slots, url);
        BytesAppend(Without(slots, url), [Slot(url, hit.value)]);
      }
    case Storing(url, entry) =>
      NewestKeepsOrder(slots, plain, used, now, url, entry);
      var all := Without(slots, url) + [Slot(url, entry)];
      EvictedIsDistinct(all);
      ByUseEvicted(all, used[url := now + 1]);
    case Removing(url) =>
      WithoutIsSmaller(slots, url);
      ByUseRemoved(slots, used, url);
    case RemovingResource(resource) =>
      WithoutResourceIsSmaller(slots, resource);
      ByUseResource(slots, used, resource);
  }

  /**
   * The cache refines a plain map over every run of operations: it holds only what the plain map holds, its bounds
   * hold throughout, and its slots stand in order of last use, so what eviction takes is least recently used.
   */
  lemma {:induction false} CacheRefinesAPlainMap(ops: seq<Op>)
    ensures Refines(SlotsOf(ops), PlainOf(ops), UsedOf(ops), |ops|)
    decreases |ops|
  {
    if ops != [] {
      var shorter := ops[..|ops| - 1];
      CacheRefinesAPlainMap(shorter);
      RefinementStep(SlotsOf(shorter), PlainOf(shorter), UsedOf(shorter), |shorter|, ops[|ops| - 1]);
    }
  }

  /** A lookup answers only the latest entry stored for that exact URL and variant and not removed since. */
  lemma LookupAnswersTheLatest(ops: seq<Op>, url: string, variant: string)
    ensures var hit := Hit(SlotsOf(ops), url, variant);
            hit.Some? ==> url in PlainOf(ops) && PlainOf(ops)[url] == hit.value && hit.value.variant == variant
  {
    CacheRefinesAPlainMap(ops);
  }

  ghost predicate Stores(ops: seq<Op>, url: string) {
    exists i :: 0 <= i < |ops| && ops[i].Storing? && ops[i].url == url
  }

  lemma {:induction false} UnstoredStaysAbsent(before: seq<Op>, after: seq<Op>, url: string)
    requires url !in PlainOf(before) && !Stores(after, url)
    ensures url !in PlainOf(before + after)
    decreases |after|
  {
    if after == [] {
      assert before + after == before;
    } else {
      var shorter := after[..|after| - 1];
      assert forall i :: 0 <= i < |shorter| ==> shorter[i] == after[i];
      UnstoredStaysAbsent(before, shorter, url);
      assert (before + after)[..|before + after| - 1] == before + shorter;
      assert !(after[|after| - 1].Storing? && after[|after| - 1].url == url);
    }
  }

  /**
   * After a write that may have landed invalidates a resource, no URL of that resource, query variants included,
   * can hit again until it is stored again.
   */
  lemma InvalidatedCannotHit(before: seq<Op>, resource: string, after: seq<Op>, url: string, variant: string)
    requires SameResource(url, resource) && !Stores(after, url)
    ensures Hit(SlotsOf(before + [RemovingResource(resource)] + after), url, variant).None?
  {
    var cut := before + [RemovingResource(resource)];
    assert cut[..|before|] == before;
    UnstoredStaysAbsent(cut, after, url);
    CacheRefinesAPlainMap(cut + after);
  }

  /** What a write does to the cache: a removal for each resource it names, where its answer invalidates. */
  function WriteOps(resources: seq<string>, answer: ClientRetry.Answer): seq<Op> {
    if !ClientRetry.Invalidates(answer) || resources == [] then []
    else [RemovingResource(resources[0])] + WriteOps(resources[1..], answer)
  }

  lemma {:induction false} WritesStoreNothing(resources: seq<string>, answer: ClientRetry.Answer, url: string)
    ensures !Stores(WriteOps(resources, answer), url)
  {
    if resources != [] {
      WritesStoreNothing(resources[1..], answer, url);
    }
  }

  lemma StoresAppend(a: seq<Op>, b: seq<Op>, url: string)
    ensures Stores(a + b, url) <==> Stores(a, url) || Stores(b, url)
  {
    assert forall i :: 0 <= i < |a| ==> (a + b)[i] == a[i];
    assert forall i :: 0 <= i < |b| ==> (a + b)[|a| + i] == b[i];
  }

  /**
   * After a write whose answer leaves it possible that it landed, no URL of any resource it names, query variants
   * included, can hit until it is stored again.
   */
  lemma {:induction false} AWriteThatMayHaveLandedCannotHit(before: seq<Op>, resources: seq<string>,
                                                            answer: ClientRetry.Answer, resource: string,
                                                            after: seq<Op>, url: string, variant: string)
    requires ClientRetry.Invalidates(answer) && resource in resources && SameResource(url, resource) && !Stores(after, url)
    ensures Hit(SlotsOf(before + WriteOps(resources, answer) + after), url, variant).None?
    decreases |resources|
  {
    var first, others := [RemovingResource(resources[0])], WriteOps(resources[1..], answer);
    assert before + WriteOps(resources, answer) + after == (before + first) + others + after;
    if resources[0] == resource {
      WritesStoreNothing(resources[1..], answer, url);
      StoresAppend(others, after, url);
      InvalidatedCannotHit(before, resource, others + after, url, variant);
      assert before + first + (others + after) == (before + first) + others + after;
    } else {
      AWriteThatMayHaveLandedCannotHit(before + first, resources[1..], answer, resource, after, url, variant);
    }
  }
}
