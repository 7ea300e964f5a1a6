/** Cleaning up files by age and by total size, with removals that may fail. */
module FileJanitor {
  import opened Wrappers
  import opened Sorting

  datatype Item = Item(name: string, size: nat, modTime: int)

  datatype Reason = Retention | MaxBytes

  /** One call of the remove callback. */
  datatype Attempt = Attempt(item: Item, reason: Reason, ok: bool)

  function OldestFirst(): (Item, Item) -> bool
  {
    (a: Item, b: Item) => a.modTime < b.modTime || (a.modTime == b.modTime && NotAfter()(a.name, b.name))
  }

  lemma OldestFirstIsTotal()
    ensures TotalPreorder(OldestFirst())
  {
    NotAfterIsTotal();
    var before := NotAfter();
    forall a, b ensures OldestFirst()(a, b) || OldestFirst()(b, a) {
      assert before(a.name, b.name) || before(b.name, a.name);
    }
    forall a, b, c | OldestFirst()(a, b) && OldestFirst()(b, c) ensures OldestFirst()(a, c) {
      assert before(a.name, b.name) && before(b.name, c.name) ==> before(a.name, c.name);
    }
  }

  predicate Expired(x: Item, now: int, retention: int)
  {
    retention > 0 && now - x.modTime > retention
  }

  function SizeOf(): Item -> nat
  {
    (x: Item) => x.size
  }

  /** The expired items, or the others, in their order. */
  function Aged(s: seq<Item>, now: int, retention: int, expired: bool): seq<Item>
  {
    if s == [] then []
    else
      var rest := Aged(s[1..], now, retention, expired);
      if Expired(s[0], now, retention) == expired then [s[0]] + rest else rest
  }

  function Tried(attempts: seq<Attempt>): (items: seq<Item>)
    ensures |items| == |attempts|
  {
    if attempts == [] then [] else [attempts[0].item] + Tried(attempts[1..])
  }

  /** The items whose removal succeeded, or failed. */
  function Ended(attempts: seq<Attempt>, ok: bool): seq<Item>
  {
    if attempts == [] then []
    else
      var rest := Ended(attempts[1..], ok);
      if attempts[0].ok == ok then [attempts[0].item] + rest else rest
  }

  /** The byte limit's attempts: the oldest young items in order, each tried while the bytes
      left were over the limit, and none once they are within it. */
  ghost predicate TrimsTo(young: seq<Item>, maxBytes: int, attempts: seq<Attempt>)
  {
    && |attempts| <= |young|
    && Tried(attempts) == young[..|attempts|]
    && (forall k :: 0 <= k < |attempts| ==>
          attempts[k].reason == MaxBytes && BytesLeft(young, attempts[..k]) > maxBytes)
    && (|attempts| == |young| || BytesLeft(young, attempts) <= maxBytes)
  }

  function BytesLeft(young: seq<Item>, attempts: seq<Attempt>): int
  {
    Sum(young, SizeOf()) - Sum(Ended(attempts, true), SizeOf())
  }

  function Survivors(young: seq<Item>, attempts: seq<Attempt>): seq<Item>
    requires |attempts| <= |young|
  {
    Ended(attempts, false) + young[|attempts|..]
  }

  ghost predicate DueFits(kept: seq<Item>, retention: int, due: Option<int>)
  {
    match due
    case None => retention <= 0 || kept == []
    case Some(t) =>
      retention > 0
      && (exists x :: x in kept && x.modTime + retention == t)
      && forall x :: x in kept ==> t <= x.modTime + retention
  }

  // ---------- appending to the specification functions ----------

  lemma {:induction false} AgedSplit(a: seq<Item>, b: seq<Item>, now: int, retention: int, expired: bool)
    ensures Aged(a + b, now, retention, expired) == Aged(a, now, retention, expired) + Aged(b, now, retention, expired)
    decreases |a|
  {
    if a == [] {
      assert a + b == b;
    } else {
      assert (a + b)[1..] == a[1..] + b;
      AgedSplit(a[1..], b, now, retention, expired);
    }
  }

  lemma {:induction false} EndedSplit(a: seq<Attempt>, b: seq<Attempt>, ok: bool)
    ensures Ended(a + b, ok) == Ended(a, ok) + Ended(b, ok)
    decreases |a|
  {
    if a == [] {
      assert a + b == b;
    } else {
      assert (a + b)[1..] == a[1..] + b;
      EndedSplit(a[1..], b, ok);
    }
  }

  lemma {:induction false} TriedSplit(a: seq<Attempt>, b: seq<Attempt>)
    ensures Tried(a + b) == Tried(a) + Tried(b)
    decreases |a|
  {
    if a == [] {
      assert a + b == b;
    } else {
      assert (a + b)[1..] == a[1..] + b;
      TriedSplit(a[1..], b);
    }
  }

  /** One more attempt. */
  lemma Attempted(attempts: seq<Attempt>, next: Attempt)
    ensures var longer := attempts + [next];
      && Tried(longer) == Tried(attempts) + [next.item]
      && Ended(longer, true) == Ended(attempts, true) + (if next.ok then [next.item] else [])
      && Ended(longer, false) == Ended(attempts, false) + (if next.ok then [] else [next.item])
      && |Ended(longer, true)| == |Ended(attempts, true)| + (if next.ok then 1 else 0)
      && Sum(Ended(longer, true), SizeOf()) == Sum(Ended(attempts, true), SizeOf())
          + (if next.ok then next.item.size else 0)
  {
    EndedSplit(attempts, [next], true);
    EndedSplit(attempts, [next], false);
    TriedSplit(attempts, [next]);
    assert [next][1..] == [];
    assert Tried([next]) == [next.item];
    if next.ok {
      SumSplit(Ended(attempts, true), [next.item], SizeOf());
      assert Sum([next.item], SizeOf()) == next.item.size + Sum([next.item][1..], SizeOf());
    } else {
      assert Ended(attempts, true) + [] == Ended(attempts, true);
    }
  }

  // ---------- what the specification promises ----------

  lemma {:induction false} AgedIsAPart(s: seq<Item>, now: int, retention: int, expired: bool)
    ensures forall x :: x in Aged(s, now, retention, expired) <==> x in s && Expired(x, now, retention) == expired
    ensures multiset(s) == multiset(Aged(s, now, retention, true)) + multiset(Aged(s, now, retention, false))
    decreases |s|
  {
    if s != [] {
      AgedIsAPart(s[1..], now, retention, expired);
      assert s == [s[0]] + s[1..];
    }
  }

  lemma {:induction false} AgedKeepsOrder(s: seq<Item>, now: int, retention: int, expired: bool)
    requires Sorted(s, OldestFirst())
    ensures Sorted(Aged(s, now, retention, expired), OldestFirst())
    decreases |s|
  {
    if s != [] {
      AgedKeepsOrder(s[1..], now, retention, expired);
      AgedIsAPart(s[1..], now, retention, expired);
      var rest := Aged(s[1..], now, retention, expired);
      forall j | 0 <= j < |rest| ensures OldestFirst()(s[0], rest[j]) {
        assert rest[j] in s[1..];
      }
    }
  }

  lemma {:induction false} EndedIsAPart(attempts: seq<Attempt>)
    ensures multiset(Tried(attempts)) == multiset(Ended(attempts, true)) + multiset(Ended(attempts, false))
    ensures Sum(Tried(attempts), SizeOf()) == Sum(Ended(attempts, true), SizeOf())
        + Sum(Ended(attempts, false), SizeOf())
    decreases |attempts|
  {
    if attempts != [] { EndedIsAPart(attempts[1..]); }
  }

  /** Trimming keeps or removes every young item, and none twice; what is left weighs what the
      running total says. */
  lemma TrimConserves(young: seq<Item>, attempts: seq<Attempt>)
    requires |attempts| <= |young| && Tried(attempts) == young[..|attempts|]
    ensures multiset(young) == multiset(Survivors(young, attempts)) + multiset(Ended(attempts, true))
    ensures Sum(Survivors(young, attempts), SizeOf()) == BytesLeft(young, attempts)
  {
    var m := |attempts|;
    assert young == young[..m] + young[m..];
    EndedIsAPart(attempts);
    SumSplit(young[..m], young[m..], SizeOf());
    SumSplit(Ended(attempts, false), young[m..], SizeOf());
  }

  lemma {:induction false} AllSucceeded(attempts: seq<Attempt>)
    requires forall k :: 0 <= k < |attempts| ==> attempts[k].ok
    ensures Ended(attempts, false) == []
    decreases |attempts|
  {
    if attempts != [] { AllSucceeded(attempts[1..]); }
  }

  /** The files kept are within the limit, unless every young file was tried and some removal
      failed. */
  lemma TrimReachesTheLimit(young: seq<Item>, maxBytes: int, attempts: seq<Attempt>)
    requires TrimsTo(young, maxBytes, attempts) && maxBytes > 0
    ensures Sum(Survivors(young, attempts), SizeOf()) <= maxBytes
         || (|attempts| == |young| && exists k :: 0 <= k < |attempts| && !attempts[k].ok)
  {
    TrimConserves(young, attempts);
    if forall k :: 0 <= k < |attempts| ==> attempts[k].ok {
      AllSucceeded(attempts);
      if |attempts| == |young| { assert Survivors(young, attempts) == []; }
    }
  }

  /** Every file of the list is kept, removed, or was expired and could not be removed; none is
      lost or doubled. */
  lemma FilesConserved(s: seq<Item>, now: int, retention: int, byAge: seq<Attempt>, byBytes: seq<Attempt>)
    requires Tried(byAge) == Aged(s, now, retention, true)
    requires var young := Aged(s, now, retention, false); |byBytes| <= |young| && Tried(byBytes) == young[..|byBytes|]
    ensures multiset(s) == multiset(Survivors(Aged(s, now, retention, false), byBytes))
                         + multiset(Ended(byAge + byBytes, true))
                         + multiset(Ended(byAge, false))
  {
    AgedIsAPart(s, now, retention, true);
    EndedIsAPart(byAge);
    EndedSplit(byAge, byBytes, true);
    TrimConserves(Aged(s, now, retention, false), byBytes);
  }

  /** Nothing kept has expired, so the next pass is never due in the past. */
  lemma DueIsNotPast(s: seq<Item>, now: int, retention: int, attempts: seq<Attempt>, due: Option<int>)
    requires var young := Aged(s, now, retention, false);
      |attempts| <= |young| && Tried(attempts) == young[..|attempts|]
          && DueFits(Survivors(young, attempts), retention, due)
    ensures due.Some? ==> due.value >= now
  {
    var young := Aged(s, now, retention, false);
    AgedIsAPart(s, now, retention, false);
    EndedIsAPart(attempts);
    forall x | x in Survivors(young, attempts) ensures !Expired(x, now, retention) {
      if x in Ended(attempts, false) {
        assert x in multiset(Tried(attempts));
        assert x in young[..|attempts|];
      }
      assert x in young;
    }
  }

  lemma NotAfterMeans(a: string, b: string)
    requires NotAfter()(a, b)
    ensures !Before(b, a)
  {
    BeforeTrichotomy(a, b);
  }

  /** In the order of the pass files are not younger than those after them. */
  lemma OrderIsByAge(s: seq<Item>)
    requires Sorted(s, OldestFirst())
    ensures forall i, j :: 0 <= i < j < |s| ==> s[i].modTime <= s[j].modTime
    ensures forall i, j :: 0 <= i < j < |s| && s[i].modTime == s[j].modTime ==> !Before(s[j].name, s[i].name)
  {
    forall i, j | 0 <= i < j < |s|
      ensures s[i].modTime <= s[j].modTime
      ensures s[i].modTime == s[j].modTime ==> !Before(s[j].name, s[i].name)
    {
      assert OldestFirst()(s[i], s[j]);
      if s[i].modTime == s[j].modTime { NotAfterMeans(s[i].name, s[j].name); }
    }
  }

  /** A file that is tried for the byte limit is not younger than one that is not tried, and is
      tried only while the files left are over the limit; and what is too old, and what is not, is
      a matter of the file's age alone. */
  lemma OldestFilesAreTried(s: seq<Item>, now: int, retention: int, maxBytes: int, byBytes: seq<Attempt>)
    requires Sorted(s, OldestFirst()) && TrimsTo(Aged(s, now, retention, false), maxBytes, byBytes)
    ensures var young := Aged(s, now, retention, false);
      && (forall k, j :: 0 <= k < |byBytes| <= j < |young| ==> byBytes[k].item.modTime <= young[j].modTime)
      && (forall k :: 0 <= k < |byBytes| ==> byBytes[k].item == young[k])
      && (forall k :: 0 <= k < |byBytes| ==>
            Sum(young, SizeOf()) - Sum(Ended(byBytes[..k], true), SizeOf()) > maxBytes)
    ensures forall x :: x in Aged(s, now, retention, true) <==>
      x in s && retention > 0 && now - x.modTime > retention
    ensures forall x :: x in Aged(s, now, retention, false) <==>
      x in s && (retention <= 0 || now - x.modTime <= retention)
  {
    var young := Aged(s, now, retention, false);
    AgedIsAPart(s, now, retention, true);
    AgedIsAPart(s, now, retention, false);
    AgedKeepsOrder(s, now, retention, false);
    OrderIsByAge(young);
    TriedInOrder(byBytes);
    forall k | 0 <= k < |byBytes| ensures byBytes[k].item == young[k] {
      assert Tried(byBytes)[k] == young[..|byBytes|][k];
    }
  }

  lemma {:induction false} TriedInOrder(attempts: seq<Attempt>)
    ensures forall k :: 0 <= k < |attempts| ==> Tried(attempts)[k] == attempts[k].item
    decreases |attempts|
  {
    if attempts != [] {
      TriedInOrder(attempts[1..]);
      forall k | 0 <= k < |attempts| ensures Tried(attempts)[k] == attempts[k].item {
        if k > 0 { assert attempts[k] == attempts[1..][k - 1]; }
      }
    }
  }

  /** The time to come back is when the first kept file is about to expire: none has up to that
      time and one has right after it; without a time none ever will. */
  lemma DueIsWhenOneExpires(kept: seq<Item>, retention: int, due: Option<int>, at: int)
    requires DueFits(kept, retention, due)
    ensures (forall x :: x in kept ==> !Expired(x, at, retention)) <==> due.None? || at <= due.value
  {
    if due.Some? {
      var x :| x in kept && x.modTime + retention == due.value;
      assert at > due.value ==> Expired(x, at, retention);
    }
  }

  // ---------- the pass ----------

  /** The attempts are the callback's answers in order, from the given call on. */
  ghost predicate Answered(attempts: seq<Attempt>, remove: nat -> bool, first: nat)
  {
    forall k :: 0 <= k < |attempts| ==> attempts[k].ok == remove(first + k)
  }

  /** How many removals succeeded, and the bytes they freed. */
  ghost predicate Counted(attempts: seq<Attempt>, count: nat, bytes: nat)
  {
    count == |Ended(attempts, true)| && bytes == Sum(Ended(attempts, true), SizeOf())
  }

  lemma OneMoreItem(s: seq<Item>, i: nat, now: int, retention: int)
    requires i < |s|
    ensures forall expired ::
      Aged(s[..i + 1], now, retention, expired)
      == Aged(s[..i], now, retention, expired) + (if Expired(s[i], now, retention) == expired then [s[i]] else [])
  {
    assert s[..i + 1] == s[..i] + [s[i]];
    assert [s[i]][1..] == [];
    forall expired ensures Aged(s[..i + 1], now, retention, expired)
                        == Aged(s[..i], now, retention, expired)
                            + (if Expired(s[i], now, retention) == expired then [s[i]] else [])
    {
      AgedSplit(s[..i], [s[i]], now, retention, expired);
    }
  }

  /** The first i files have been looked at and the expired ones tried. */
  ghost predicate Aging(s: seq<Item>, now: int, retention: int, attempts: seq<Attempt>, i: nat, remove: nat -> bool)
  {
    && i <= |s|
    && Tried(attempts) == Aged(s[..i], now, retention, true)
    && (forall k :: 0 <= k < |attempts| ==> attempts[k].reason == Retention)
    && Answered(attempts, remove, 0)
  }

  lemma AgeStep(s: seq<Item>, now: int, retention: int, attempts: seq<Attempt>, i: nat, remove: nat -> bool,
        next: Attempt)
    returns (longer: seq<Attempt>)
    requires Aging(s, now, retention, attempts, i, remove) && i < |s| && Expired(s[i], now, retention)
    requires next == Attempt(s[i], Retention, remove(|attempts|))
    ensures |longer| == |attempts| + 1
    ensures Aging(s, now, retention, longer, i + 1, remove)
    ensures Aged(s[..i + 1], now, retention, false) == Aged(s[..i], now, retention, false)
    ensures |Ended(longer, true)| == |Ended(attempts, true)| + (if next.ok then 1 else 0)
    ensures Sum(Ended(longer, true), SizeOf()) == Sum(Ended(attempts, true), SizeOf())
        + (if next.ok then next.item.size else 0)
  {
    longer := attempts + [next];
    OneMoreItem(s, i, now, retention);
    Attempted(attempts, next);
  }

  lemma YoungStep(s: seq<Item>, now: int, retention: int, attempts: seq<Attempt>, i: nat, remove: nat -> bool)
    requires Aging(s, now, retention, attempts, i, remove) && i < |s| && !Expired(s[i], now, retention)
    ensures Aging(s, now, retention, attempts, i + 1, remove)
    ensures Aged(s[..i + 1], now, retention, false) == Aged(s[..i], now, retention, false) + [s[i]]
  {
    OneMoreItem(s, i, now, retention);
  }

  /** Expired files are tried and dropped from the list whether or not the removal succeeds. */
  method RemoveExpired(items: array<Item>, now: int, retention: int, remove: nat -> bool)
    returns (kept: array<Item>, n: nat, removedCount: nat, removedBytes: nat, calls: nat, ghost attempts: seq<Attempt>)
    ensures fresh(kept) && n <= kept.Length && calls == |attempts|
    ensures kept[..n] == Aged(items[..], now, retention, false)
    ensures Aging(items[..], now, retention, attempts, items.Length, remove)
    ensures Tried(attempts) == Aged(items[..], now, retention, true)
    ensures Counted(attempts, removedCount, removedBytes)
  {
    kept := new Item[items.Length](_ => Item("", 0, 0));
    n, removedCount, removedBytes, calls, attempts := 0, 0, 0, 0, [];
    ghost var s := items[..];
    for i := 0 to items.Length
      invariant n <= i && calls == |attempts|
      invariant kept[..n] == Aged(s[..i], now, retention, false)
      invariant Aging(s, now, retention, attempts, i, remove)
      invariant Counted(attempts, removedCount, removedBytes)
    {
      var item := items[i];
      if retention > 0 && now - item.modTime > retention {
        var ok := remove(calls);
        attempts := AgeStep(s, now, retention, attempts, i, remove, Attempt(item, Retention, ok));
        calls := calls + 1;
        if ok {
          removedCount := removedCount + 1;
          removedBytes := removedBytes + item.size;
        }
        continue;
      }
      YoungStep(s, now, retention, attempts, i, remove);
      n := Keep(kept, n, i, items.Length, item);
    }
    assert s[..items.Length] == s;
  }

  method TotalSize(kept: array<Item>, n: nat) returns (total: nat)
    requires n <= kept.Length
    ensures total == Sum(kept[..n], SizeOf())
  {
    total := 0;
    for i := 0 to n
      invariant total == Sum(kept[..i], SizeOf())
    {
      assert kept[..i + 1] == kept[..i] + [kept[i]];
      SumSplit(kept[..i], [kept[i]], SizeOf());
      total := total + kept[i].size;
    }
  }

  /** Trimming has looked at the first i items. */
  ghost predicate Trimming(young: seq<Item>, maxBytes: int, attempts: seq<Attempt>, i: nat)
  {
    && |attempts| <= i <= |young|
    && Tried(attempts) == young[..|attempts|]
    && (forall k :: 0 <= k < |attempts| ==>
          attempts[k].reason == MaxBytes && BytesLeft(young, attempts[..k]) > maxBytes)
    && (|attempts| < i ==> BytesLeft(young, attempts) <= maxBytes)
  }

  /** What the filtered list holds by then. */
  function KeptSoFar(young: seq<Item>, attempts: seq<Attempt>, i: nat): seq<Item>
    requires |attempts| <= i <= |young|
  {
    Ended(attempts, false) + young[|attempts|..i]
  }

  lemma KeptStep(young: seq<Item>, attempts: seq<Attempt>, i: nat, ok: bool)
    requires |attempts| == i < |young|
    ensures KeptSoFar(young, attempts + [Attempt(young[i], MaxBytes, ok)], i + 1)
      == KeptSoFar(young, attempts, i) + (if ok then [] else [young[i]])
  {
    Attempted(attempts, Attempt(young[i], MaxBytes, ok));
  }

  lemma KeptStays(young: seq<Item>, attempts: seq<Attempt>, i: nat)
    requires |attempts| <= i < |young|
    ensures KeptSoFar(young, attempts, i + 1) == KeptSoFar(young, attempts, i) + [young[i]]
  { }

  /** Everything the loop knows about its attempts and totals. */
  ghost predicate TrimState(young: seq<Item>, maxBytes: int, attempts: seq<Attempt>, i: nat,
                            remove: nat -> bool, first: nat, total: int, count: nat, bytes: nat)
  {
    && Trimming(young, maxBytes, attempts, i) && Answered(attempts, remove, first)
    && total == BytesLeft(young, attempts) && Counted(attempts, count, bytes)
  }

  lemma TrimStep(young: seq<Item>, maxBytes: int, attempts: seq<Attempt>, i: nat, remove: nat -> bool, first: nat,
                 total: int, count: nat, bytes: nat, ok: bool)
    returns (longer: seq<Attempt>)
    requires TrimState(young, maxBytes, attempts, i, remove, first, total, count, bytes)
    requires i < |young| && total > maxBytes && ok == remove(first + |attempts|)
    ensures |longer| == |attempts| + 1
    ensures if ok
      then TrimState(young, maxBytes, longer, i + 1, remove, first,
                     total - young[i].size, count + 1, bytes + young[i].size)
      else TrimState(young, maxBytes, longer, i + 1, remove, first, total, count, bytes)
    ensures KeptSoFar(young, longer, i + 1) == KeptSoFar(young, attempts, i) + (if ok then [] else [young[i]])
  {
    var next := Attempt(young[i], MaxBytes, ok);
    longer := attempts + [next];
    Attempted(attempts, next);
    KeptStep(young, attempts, i, next.ok);
    forall k | 0 <= k < |longer| ensures longer[k].reason == MaxBytes && BytesLeft(young, longer[..k]) > maxBytes {
      assert longer[..k] == attempts[..k];
      if k == |attempts| { assert attempts[..k] == attempts; }
    }
  }

  lemma StayStep(young: seq<Item>, maxBytes: int, attempts: seq<Attempt>, i: nat, remove: nat -> bool, first: nat,
                 total: int, count: nat, bytes: nat)
    requires TrimState(young, maxBytes, attempts, i, remove, first, total, count, bytes)
    requires i < |young| && total <= maxBytes
    ensures TrimState(young, maxBytes, attempts, i + 1, remove, first, total, count, bytes)
    ensures KeptSoFar(young, attempts, i + 1) == KeptSoFar(young, attempts, i) + [young[i]]
  {
    KeptStays(young, attempts, i);
  }

  /** The list is filtered in place: files that stay are written over ones already looked at. */
  method TrimToLimit(kept: array<Item>, n: nat, maxBytes: int, remove: nat -> bool, firstCall: nat)
    returns (left: nat, removedCount: nat, removedBytes: nat, ghost attempts: seq<Attempt>)
    requires n <= kept.Length
    modifies kept
    ensures TrimsTo(old(kept[..n]), maxBytes, attempts) && Answered(attempts, remove, firstCall)
    ensures left <= n && kept[..left] == Survivors(old(kept[..n]), attempts)
    ensures Counted(attempts, removedCount, removedBytes)
  {
    ghost var young := kept[..n];
    var totalBytes: int := TotalSize(kept, n);
    left, removedCount, removedBytes, attempts := 0, 0, 0, [];
    var calls := firstCall;
    for i := 0 to n
      invariant left <= i && forall k :: i <= k < n ==> kept[k] == young[k]
      invariant calls == firstCall + |attempts|
      invariant TrimState(young, maxBytes, attempts, i, remove, firstCall, totalBytes, removedCount, removedBytes)
      invariant kept[..left] == KeptSoFar(young, attempts, i)
    {
      var gone := false;
      if totalBytes > maxBytes {
        gone := remove(calls);
        calls := calls + 1;
      }
      attempts := TrimTurn(young, maxBytes, attempts, i, remove, firstCall, totalBytes, removedCount, removedBytes,
          gone);
      if gone {
        removedCount, removedBytes := removedCount + 1, removedBytes + kept[i].size;
        totalBytes := totalBytes - kept[i].size;
      } else {
        left := Keep(kept, left, i, n, kept[i]);
      }
    }
    TrimDone(young, maxBytes, attempts, remove, firstCall, totalBytes, removedCount, removedBytes);
  }

  /** One turn of the loop: a try while the total is over the limit, nothing otherwise. */
  lemma TrimTurn(young: seq<Item>, maxBytes: int, attempts: seq<Attempt>, i: nat, remove: nat -> bool, first: nat,
                 total: int, count: nat, bytes: nat, gone: bool)
    returns (longer: seq<Attempt>)
    requires TrimState(young, maxBytes, attempts, i, remove, first, total, count, bytes) && i < |young|
    requires gone == (total > maxBytes && remove(first + |attempts|))
    ensures |longer| == |attempts| + (if total > maxBytes then 1 else 0)
    ensures TrimState(young, maxBytes, longer, i + 1, remove, first, if gone then total - young[i].size else total,
                      if gone then count + 1 else count, if gone then bytes + young[i].size else bytes)
    ensures KeptSoFar(young, longer, i + 1) == KeptSoFar(young, attempts, i) + (if gone then [] else [young[i]])
  {
    if total > maxBytes {
      longer := TrimStep(young, maxBytes, attempts, i, remove, first, total, count, bytes, gone);
    } else {
      longer := attempts;
      StayStep(young, maxBytes, attempts, i, remove, first, total, count, bytes);
    }
  }

  lemma TrimDone(young: seq<Item>, maxBytes: int, attempts: seq<Attempt>, remove: nat -> bool, first: nat,
                 total: int, count: nat, bytes: nat)
    requires TrimState(young, maxBytes, attempts, |young|, remove, first, total, count, bytes)
    ensures TrimsTo(young, maxBytes, attempts) && KeptSoFar(young, attempts, |young|) == Survivors(young, attempts)
  { }

  method Keep(kept: array<Item>, left: nat, i: nat, n: nat, item: Item) returns (left': nat)
    requires left <= i < n <= kept.Length
    modifies kept
    ensures left' == left + 1 && kept[..left'] == old(kept[..left]) + [item]
    ensures forall k :: i < k < n ==> kept[k] == old(kept[k])
  {
    kept[left] := item;
    return left + 1;
  }

  method NextDue(kept: array<Item>, n: nat, retention: int) returns (nextDue: Option<int>)
    requires n <= kept.Length
    ensures DueFits(kept[..n], retention, nextDue)
  {
    nextDue := None;
    if retention > 0 {
      for i := 0 to n
        invariant DueFits(kept[..i], retention, nextDue)
      {
        var expireAt := kept[i].modTime + retention;
        assert kept[..i + 1] == kept[..i] + [kept[i]];
        if nextDue.None? || expireAt < nextDue.value {
          nextDue := Some(expireAt);
        }
      }
    }
  }

  /** The byte limit's part: which files were tried for it, and what is then kept. */
  ghost predicate Trimmed(young: seq<Item>, maxBytes: int, byBytes: seq<Attempt>)
  {
    if maxBytes <= 0 then byBytes == [] else TrimsTo(young, maxBytes, byBytes)
  }

  /** The pass over the sorted files: byAge and byBytes are the removals tried for one reason and
      the other. */
  ghost predicate PassOver(s: seq<Item>, now: int, retention: int, maxBytes: int, remove: nat -> bool,
                           byAge: seq<Attempt>, byBytes: seq<Attempt>, count: nat, bytes: nat, due: Option<int>)
  {
    var young := Aged(s, now, retention, false);
    && Tried(byAge) == Aged(s, now, retention, true)
    && (forall k :: 0 <= k < |byAge| ==> byAge[k].reason == Retention)
    && |byBytes| <= |young| && Trimmed(young, maxBytes, byBytes)
    && Answered(byAge + byBytes, remove, 0)
    && Counted(byAge + byBytes, count, bytes)
    && DueFits(Survivors(young, byBytes), retention, due)
    && (due.Some? ==> due.value >= now)
  }

  method CleanupFilesByPolicy(items: array<Item>, now: int, retention: int, maxBytes: int, remove: nat -> bool)
    returns (removedCount: nat, removedBytes: nat, nextDue: Option<int>, ghost byAge: seq<Attempt>,
        ghost byBytes: seq<Attempt>)
    modifies items
    ensures multiset(items[..]) == multiset(old(items[..])) && Sorted(items[..], OldestFirst())
    ensures PassOver(items[..], now, retention, maxBytes, remove, byAge, byBytes, removedCount, removedBytes, nextDue)
  {
    if items.Length == 0 {
      return 0, 0, None, [], [];
    }
    OldestFirstIsTotal();
    SortInPlace(items, OldestFirst());
    removedCount, removedBytes, nextDue, byAge, byBytes := RemoveByPolicy(items, now, retention, maxBytes, remove);
  }

  /** The rest of the pass, on the sorted files. */
  method RemoveByPolicy(items: array<Item>, now: int, retention: int, maxBytes: int, remove: nat -> bool)
    returns (removedCount: nat, removedBytes: nat, nextDue: Option<int>, ghost byAge: seq<Attempt>,
        ghost byBytes: seq<Attempt>)
    ensures PassOver(items[..], now, retention, maxBytes, remove, byAge, byBytes, removedCount, removedBytes, nextDue)
  {
    byBytes := [];
    var kept, n, calls;
    kept, n, removedCount, removedBytes, calls, byAge := RemoveExpired(items, now, retention, remove);
    ghost var young := kept[..n];
    var c, b := 0, 0;
    if maxBytes <= 0 {
      NoneTried(young);
    } else {
      n, c, b, byBytes := TrimToLimit(kept, n, maxBytes, remove, calls);
    }
    nextDue := NextDue(kept, n, retention);
    BothParts(items[..], now, retention, maxBytes, remove, byAge, byBytes, removedCount, removedBytes, c, b, nextDue);
    removedCount, removedBytes := removedCount + c, removedBytes + b;
  }

  lemma BothParts(s: seq<Item>, now: int, retention: int, maxBytes: int, remove: nat -> bool,
                  byAge: seq<Attempt>, byBytes: seq<Attempt>, c1: nat, b1: nat, c2: nat, b2: nat, due: Option<int>)
    requires Aging(s, now, retention, byAge, |s|, remove) && Tried(byAge) == Aged(s, now, retention, true)
    requires var young := Aged(s, now, retention, false);
      && |byBytes| <= |young| && Tried(byBytes) == young[..|byBytes|] && Trimmed(young, maxBytes, byBytes)
      && DueFits(Survivors(young, byBytes), retention, due)
    requires Answered(byBytes, remove, |byAge|) && Counted(byAge, c1, b1) && Counted(byBytes, c2, b2)
    ensures PassOver(s, now, retention, maxBytes, remove, byAge, byBytes, c1 + c2, b1 + b2, due)
  {
    BothReasons(byAge, byBytes, remove);
    DueIsNotPast(s, now, retention, byBytes, due);
  }

  lemma NoneTried(young: seq<Item>)
    ensures Survivors(young, []) == young
  { }

  lemma BothReasons(byAge: seq<Attempt>, byBytes: seq<Attempt>, remove: nat -> bool)
    requires Answered(byAge, remove, 0) && Answered(byBytes, remove, |byAge|)
    ensures Answered(byAge + byBytes, remove, 0)
    ensures |Ended(byAge + byBytes, true)| == |Ended(byAge, true)| + |Ended(byBytes, true)|
    ensures Sum(Ended(byAge + byBytes, true), SizeOf())
        == Sum(Ended(byAge, true), SizeOf()) + Sum(Ended(byBytes, true), SizeOf())
  {
    EndedSplit(byAge, byBytes, true);
    SumSplit(Ended(byAge, true), Ended(byBytes, true), SizeOf());
    forall k | 0 <= k < |byAge + byBytes| ensures (byAge + byBytes)[k].ok == remove(0 + k) {
      if k >= |byAge| { assert byBytes[k - |byAge|].ok == remove(|byAge| + (k - |byAge|)); }
    }
  }
}
