/** The transactions table and its repository: the idempotent upsert that moves exactly three
    columns, the reads the categorizer needs, and the guarded category write-back.
    Rows are never removed, so the id of a row is its position. */
module Transactions {
  import opened Common
  import opened Categorizer

  /** How the database refuses a batch that meets one key twice. */
  const REPEATED_KEY: string := "ON CONFLICT DO UPDATE command cannot affect row a second time"

  /** What an importer delivers; the attributed day is already resolved. */
  datatype Item = Item(
    sourceId: string,
    amount: int,
    currency: string,
    time: int,
    payload: Payload,
    hold: bool,
    description: Option<Text>,
    mcc: Option<int>,
    day: int)

  datatype Tx = Tx(
    account: nat,
    sourceId: string,
    amount: int,
    currency: string,
    time: int,
    payload: Payload,
    deleted: bool,
    hold: bool,
    category: Option<int>,
    categorySource: Option<string>,
    locked: bool,
    mcc: Option<int>,
    description: Option<Text>,
    day: int)

  /** Equal but for hold, amount and payload. */
  predicate SameFrozen(a: Tx, b: Tx) {
    a == b.(hold := a.hold, amount := a.amount, payload := a.payload)
  }

  /** Equal but for hold, amount, payload and the two category columns. */
  predicate SameIdentity(a: Tx, b: Tx) {
    SameFrozen(a, b.(category := a.category, categorySource := a.categorySource))
  }

  function NewTx(account: nat, item: Item): Tx {
    Tx(account, item.sourceId, item.amount, item.currency, item.time, item.payload, false, item.hold,
       None, None, false, item.mcc, item.description, item.day)
  }

  predicate HasKey(t: Tx, account: nat, sourceId: string) {
    !t.deleted && t.account == account && t.sourceId == sourceId
  }

  /** Position of the first live row with the key, or |txs|. */
  function FindLive(txs: seq<Tx>, account: nat, sourceId: string): (i: nat)
    ensures i <= |txs|
    ensures i < |txs| ==> HasKey(txs[i], account, sourceId)
    ensures forall j | 0 <= j < i :: !HasKey(txs[j], account, sourceId)
    decreases |txs|
  {
    if txs == [] then 0
    else
      var n := |txs| - 1;
      var i := FindLive(txs[..n], account, sourceId);
      assert forall j | 0 <= j < n :: txs[..n][j] == txs[j];
      if i < n then i else if HasKey(txs[n], account, sourceId) then n else n + 1
  }

  /** The table seen as a map from keys to live rows. */
  function Lookup(txs: seq<Tx>, account: nat, sourceId: string): Option<Tx> {
    var i := FindLive(txs, account, sourceId);
    if i < |txs| then Some(txs[i]) else None
  }

  /** The partial unique index: no two live rows share (account, source id). */
  ghost predicate UniqueLive(txs: seq<Tx>) {
    forall i, j | 0 <= i < j < |txs| :: !(!txs[i].deleted && HasKey(txs[j], txs[i].account, txs[i].sourceId))
  }

  /** A row after a conflicting insert. */
  function Merged(t: Tx, item: Item): Tx {
    t.(hold := item.hold, amount := item.amount, payload := item.payload)
  }

  /** One row of INSERT ... ON CONFLICT (account_id, source_tx_id) WHERE NOT is_deleted DO UPDATE. */
  function UpsertRow(txs: seq<Tx>, account: nat, item: Item): (r: seq<Tx>)
    ensures |txs| <= |r| <= |txs| + 1
  {
    var i := FindLive(txs, account, item.sourceId);
    if i < |txs| then txs[i := Merged(txs[i], item)] else txs + [NewTx(account, item)]
  }

  function UpsertAll(txs: seq<Tx>, account: nat, items: seq<Item>): (r: seq<Tx>)
    ensures |txs| <= |r|
    decreases |items|
  {
    if items == [] then txs
    else UpsertRow(UpsertAll(txs, account, items[..|items| - 1]), account, items[|items| - 1])
  }

  /** The statement fails as a whole when two of its rows have the same key. */
  predicate DistinctIds(items: seq<Item>) {
    forall i, j | 0 <= i < j < |items| :: items[i].sourceId != items[j].sourceId
  }

  /** How many items have no live row in the table the statement starts from. */
  function Missing(txs: seq<Tx>, account: nat, items: seq<Item>): nat
    decreases |items|
  {
    if items == [] then 0
    else
      Missing(txs, account, items[..|items| - 1])
      + (if Lookup(txs, account, items[|items| - 1].sourceId).None? then 1 else 0)
  }

  // ----- the upsert refines a map update -----

  function MergeInto(prev: Option<Tx>, account: nat, item: Item): Tx {
    if prev.Some? then Merged(prev.value, item) else NewTx(account, item)
  }

  /** The first live row with the key is found wherever nothing before it has the key. */
  lemma FoundAt(txs: seq<Tx>, account: nat, sourceId: string, i: nat)
    requires i <= |txs| && (i < |txs| ==> HasKey(txs[i], account, sourceId))
    requires forall j | 0 <= j < i :: !HasKey(txs[j], account, sourceId)
    ensures FindLive(txs, account, sourceId) == i
  {
  }

  lemma LookupAfterMerge(txs: seq<Tx>, k: nat, item: Item, a: nat, s: string)
    requires k < |txs|
    ensures var i := FindLive(txs, a, s);
            Lookup(txs[k := Merged(txs[k], item)], a, s) ==
              if i == k then Some(Merged(txs[k], item)) else Lookup(txs, a, s)
  {
    var r := txs[k := Merged(txs[k], item)];
    assert forall n | 0 <= n < |txs| :: HasKey(r[n], a, s) == HasKey(txs[n], a, s);
    FoundAt(r, a, s, FindLive(txs, a, s));
  }

  lemma LookupAfterAppend(txs: seq<Tx>, t: Tx, a: nat, s: string)
    ensures Lookup(txs + [t], a, s) ==
            if Lookup(txs, a, s).Some? then Lookup(txs, a, s)
            else if HasKey(t, a, s) then Some(t) else None
  {
    var r := txs + [t];
    var i := FindLive(txs, a, s);
    assert forall n | 0 <= n < |txs| :: r[n] == txs[n];
    if i < |txs| {
      FoundAt(r, a, s, i);
    } else {
      FoundAt(r, a, s, if HasKey(t, a, s) then |txs| else |txs| + 1);
    }
  }

  lemma LookupAfterRow(txs: seq<Tx>, account: nat, item: Item, a: nat, s: string)
    ensures Lookup(UpsertRow(txs, account, item), a, s) ==
            if a == account && s == item.sourceId then Some(MergeInto(Lookup(txs, a, s), a, item))
            else Lookup(txs, a, s)
  {
    var k := FindLive(txs, account, item.sourceId);
    if k < |txs| {
      LookupAfterMerge(txs, k, item, a, s);
    } else {
      LookupAfterAppend(txs, NewTx(account, item), a, s);
    }
  }

  ghost predicate Delivers(items: seq<Item>, s: string) {
    exists k | 0 <= k < |items| :: items[k].sourceId == s
  }

  /** One accepted batch, seen through any key: a key it does not carry keeps its row; a key it
      carries gets a fresh row, or keeps its frozen columns and takes the three moving ones. */
  lemma {:induction false} LookupAfterBatch(txs: seq<Tx>, account: nat, items: seq<Item>, a: nat, s: string)
    requires DistinctIds(items)
    ensures a != account || !Delivers(items, s) ==>
              Lookup(UpsertAll(txs, account, items), a, s) == Lookup(txs, a, s)
    ensures a == account ==> forall k | 0 <= k < |items| && items[k].sourceId == s ::
              Lookup(UpsertAll(txs, account, items), a, s) == Some(MergeInto(Lookup(txs, a, s), a, items[k]))
    decreases |items|
  {
    if items != [] {
      var n := |items| - 1;
      var front := items[..n];
      LookupAfterBatch(txs, account, front, a, s);
      LookupAfterRow(UpsertAll(txs, account, front), account, items[n], a, s);
      assert forall k | 0 <= k < n :: front[k] == items[k];
      if items[n].sourceId == s {
        assert !Delivers(front, s);
      } else if Delivers(front, s) {
        var k :| 0 <= k < n && front[k].sourceId == s;
        assert items[k].sourceId == s;
      }
    }
  }

  /** The number of rows added is the number of missing keys. */
  lemma {:induction false} GrowsByMissing(txs: seq<Tx>, account: nat, items: seq<Item>)
    requires DistinctIds(items)
    ensures |UpsertAll(txs, account, items)| == |txs| + Missing(txs, account, items)
    decreases |items|
  {
    if items != [] {
      var n := |items| - 1;
      GrowsByMissing(txs, account, items[..n]);
      assert !Delivers(items[..n], items[n].sourceId);
      LookupAfterBatch(txs, account, items[..n], account, items[n].sourceId);
    }
  }

  lemma {:induction false} NoneMissing(txs: seq<Tx>, account: nat, items: seq<Item>)
    requires forall k | 0 <= k < |items| :: Lookup(txs, account, items[k].sourceId).Some?
    ensures Missing(txs, account, items) == 0
    decreases |items|
  {
    if items != [] {
      NoneMissing(txs, account, items[..|items| - 1]);
    }
  }

  lemma SettledRow(txs: seq<Tx>, account: nat, item: Item)
    requires var t := Lookup(txs, account, item.sourceId); t.Some? && Merged(t.value, item) == t.value
    ensures UpsertRow(txs, account, item) == txs
  {
  }

  lemma {:induction false} SettledIsFixed(txs: seq<Tx>, account: nat, items: seq<Item>)
    requires forall k | 0 <= k < |items| ::
      var t := Lookup(txs, account, items[k].sourceId); t.Some? && Merged(t.value, items[k]) == t.value
    ensures UpsertAll(txs, account, items) == txs
    decreases |items|
  {
    if items != [] {
      var n := |items| - 1;
      SettledIsFixed(txs, account, items[..n]);
      SettledRow(txs, account, items[n]);
    }
  }

  /** Importing an accepted batch again changes nothing and inserts nothing. */
  lemma ReimportIsNoOp(txs: seq<Tx>, account: nat, items: seq<Item>)
    requires DistinctIds(items)
    ensures var once := UpsertAll(txs, account, items);
            UpsertAll(once, account, items) == once && Missing(once, account, items) == 0
  {
    var once := UpsertAll(txs, account, items);
    forall k | 0 <= k < |items|
      ensures var t := Lookup(once, account, items[k].sourceId); t.Some? && Merged(t.value, items[k]) == t.value
    {
      LookupAfterBatch(txs, account, items, account, items[k].sourceId);
    }
    SettledIsFixed(once, account, items);
    NoneMissing(once, account, items);
  }

  // ----- one batch -----

  datatype Batch = Batch(account: nat, items: seq<Item>)

  /** A batch that repeats a key is rejected and leaves the table as it was. */
  function Ingest(txs: seq<Tx>, b: Batch): (r: seq<Tx>)
    ensures |txs| <= |r|
  {
    if DistinctIds(b.items) then UpsertAll(txs, b.account, b.items) else txs
  }

  function ItemsOf(items: seq<Item>, s: string): seq<Item>
    decreases |items|
  {
    if items == [] then []
    else if items[0].sourceId == s then [items[0]] + ItemsOf(items[1..], s)
    else ItemsOf(items[1..], s)
  }

  lemma {:induction false} ItemsOfDistinct(items: seq<Item>, s: string)
    requires DistinctIds(items)
    ensures !Delivers(items, s) ==> ItemsOf(items, s) == []
    ensures forall k | 0 <= k < |items| && items[k].sourceId == s :: ItemsOf(items, s) == [items[k]]
    decreases |items|
  {
    if items != [] {
      ItemsOfDistinct(items[1..], s);
      assert forall k | 1 <= k < |items| :: items[k] == items[1..][k - 1];
      if items[0].sourceId == s {
        assert !Delivers(items[1..], s);
      } else if Delivers(items[1..], s) {
        var k :| 0 <= k < |items[1..]| && items[1..][k].sourceId == s;
        assert items[k + 1].sourceId == s;
      }
    }
  }

  /** What one key sees after the deliveries ds, starting from no row. */
  function Delivered(account: nat, ds: seq<Item>): Option<Tx> {
    if ds == [] then None else Some(Merged(NewTx(account, ds[0]), ds[|ds| - 1]))
  }

  lemma OneMoreDelivery(account: nat, ds: seq<Item>, item: Item)
    ensures Delivered(account, ds + [item]) == Some(MergeInto(Delivered(account, ds), account, item))
  {
  }

  // ----- category write-back -----

  /** UPDATE ... WHERE id = tid AND NOT is_user_locked. */
  function ApplyOne(txs: seq<Tx>, u: (nat, Option<int>)): (r: seq<Tx>)
    ensures |r| == |txs|
  {
    if u.0 < |txs| && !txs[u.0].locked
    then txs[u.0 := txs[u.0].(category := u.1, categorySource := Some("rule"))]
    else txs
  }

  function ApplyAll(txs: seq<Tx>, updates: seq<(nat, Option<int>)>): (r: seq<Tx>)
    ensures |r| == |txs|
    decreases |updates|
  {
    if updates == [] then txs
    else ApplyOne(ApplyAll(txs, updates[..|updates| - 1]), updates[|updates| - 1])
  }

  predicate DistinctTargets(updates: seq<(nat, Option<int>)>) {
    forall i, j | 0 <= i < j < |updates| :: updates[i].0 != updates[j].0
  }

  /** What a write-back without repeated ids does to a row: the unlocked targets take their new
      category, stamped as the work of a rule; every other row and column stays. */
  lemma {:induction false} AppliedRow(txs: seq<Tx>, updates: seq<(nat, Option<int>)>, i: nat)
    requires DistinctTargets(updates) && i < |txs|
    ensures (forall k | 0 <= k < |updates| :: updates[k].0 != i) ==> ApplyAll(txs, updates)[i] == txs[i]
    ensures forall k | 0 <= k < |updates| && updates[k].0 == i :: ApplyAll(txs, updates)[i] ==
              if txs[i].locked then txs[i] else txs[i].(category := updates[k].1, categorySource := Some("rule"))
    decreases |updates|
  {
    if updates != [] {
      var n := |updates| - 1;
      AppliedRow(txs, updates[..n], i);
      assert forall k | 0 <= k < n :: updates[..n][k] == updates[k];
    }
  }

  // ----- everything the program ever does to the table -----

  datatype TxEvent =
    | Upserted(batch: Batch)
    | Applied(updates: seq<(nat, Option<int>)>)

  function Effect(txs: seq<Tx>, e: TxEvent): (r: seq<Tx>)
    ensures |txs| <= |r|
  {
    match e
    case Upserted(b) => Ingest(txs, b)
    case Applied(us) => ApplyAll(txs, us)
  }

  function After(txs: seq<Tx>, events: seq<TxEvent>): (r: seq<Tx>)
    ensures |txs| <= |r|
    decreases |events|
  {
    if events == [] then txs
    else Effect(After(txs, events[..|events| - 1]), events[|events| - 1])
  }

  predicate Kept(a: Tx, b: Tx) {
    SameIdentity(a, b) && (a.locked ==> SameFrozen(a, b))
  }

  lemma {:induction false} BatchKeeps(txs: seq<Tx>, account: nat, items: seq<Item>, i: nat)
    requires i < |txs|
    ensures Kept(txs[i], UpsertAll(txs, account, items)[i])
    decreases |items|
  {
    if items != [] {
      BatchKeeps(txs, account, items[..|items| - 1], i);
    }
  }

  lemma {:induction false} ApplyKeeps(txs: seq<Tx>, updates: seq<(nat, Option<int>)>, i: nat)
    requires i < |txs|
    ensures Kept(txs[i], ApplyAll(txs, updates)[i])
    decreases |updates|
  {
    if updates != [] {
      ApplyKeeps(txs, updates[..|updates| - 1], i);
    }
  }

  lemma EffectKeeps(txs: seq<Tx>, e: TxEvent, i: nat)
    requires i < |txs|
    ensures Kept(txs[i], Effect(txs, e)[i])
  {
    match e
    case Upserted(b) => if DistinctIds(b.items) { BatchKeeps(txs, b.account, b.items, i); }
    case Applied(us) => ApplyKeeps(txs, us, i);
  }

  /** Over any history of upserts and write-backs, with arbitrary ids in the latter: no row ever
      changes anything but hold, amount, payload and category, and a user-locked row stays locked
      and keeps its category and category source as well. */
  lemma {:induction false} LockSafety(txs: seq<Tx>, events: seq<TxEvent>, i: nat)
    requires i < |txs|
    ensures SameIdentity(txs[i], After(txs, events)[i])
    ensures txs[i].locked ==> SameFrozen(txs[i], After(txs, events)[i])
    decreases |events|
  {
    if events != [] {
      var n := |events| - 1;
      LockSafety(txs, events[..n], i);
      EffectKeeps(After(txs, events[..n]), events[n], i);
    }
  }

  // ----- what a history leaves for one key -----

  /** The deliveries of one key in an accepted batch. */
  function DeliveredBy(b: Batch, account: nat, s: string): seq<Item> {
    if DistinctIds(b.items) && b.account == account then ItemsOf(b.items, s) else []
  }

  /** And in all accepted batches of a history, oldest first. */
  function Deliveries(events: seq<TxEvent>, account: nat, s: string): seq<Item>
    decreases |events|
  {
    if events == [] then []
    else
      var e := events[|events| - 1];
      Deliveries(events[..|events| - 1], account, s) + (if e.Upserted? then DeliveredBy(e.batch, account, s) else [])
  }

  /** The same row but for the two category columns, or no row on either side. */
  predicate SameUpToCategory(a: Option<Tx>, b: Option<Tx>) {
    && (a.Some? <==> b.Some?)
    && (a.Some? ==> a.value == b.value.(category := a.value.category, categorySource := a.value.categorySource))
  }

  lemma {:induction false} LookupAfterApply(txs: seq<Tx>, updates: seq<(nat, Option<int>)>, account: nat, s: string)
    ensures SameUpToCategory(Lookup(ApplyAll(txs, updates), account, s), Lookup(txs, account, s))
    decreases |updates|
  {
    if updates != [] {
      var n := |updates| - 1;
      LookupAfterApply(txs, updates[..n], account, s);
      LookupAfterOne(ApplyAll(txs, updates[..n]), updates[n], account, s);
    }
  }

  lemma LookupAfterOne(txs: seq<Tx>, u: (nat, Option<int>), account: nat, s: string)
    ensures SameUpToCategory(Lookup(ApplyOne(txs, u), account, s), Lookup(txs, account, s))
  {
    FoundAt(ApplyOne(txs, u), account, s, FindLive(txs, account, s));
  }

  lemma DeliveredByBatch(txs: seq<Tx>, b: Batch, account: nat, s: string, ds: seq<Item>)
    requires DistinctIds(b.items) && SameUpToCategory(Lookup(txs, account, s), Delivered(account, ds))
    ensures SameUpToCategory(Lookup(Ingest(txs, b), account, s), Delivered(account, ds + DeliveredBy(b, account, s)))
  {
    LookupAfterBatch(txs, b.account, b.items, account, s);
    ItemsOfDistinct(b.items, s);
    if b.account == account && Delivers(b.items, s) {
      var k :| 0 <= k < |b.items| && b.items[k].sourceId == s;
      OneMoreDelivery(account, ds, b.items[k]);
    } else {
      assert ds + [] == ds;
    }
  }

  /** After any history of batches and write-backs on an empty table: a key has a live row exactly
      when it was delivered; the row's frozen columns are those of the first delivery, its hold, amount
      and payload those of the last, and it is not locked. Only its category is anybody else's. */
  lemma {:induction false} FirstAndLastDelivery(events: seq<TxEvent>, account: nat, s: string)
    ensures SameUpToCategory(Lookup(After([], events), account, s), Delivered(account, Deliveries(events, account, s)))
    decreases |events|
  {
    if events != [] {
      var n := |events| - 1;
      var before := After([], events[..n]);
      var earlier := Deliveries(events[..n], account, s);
      FirstAndLastDelivery(events[..n], account, s);
      match events[n]
      case Upserted(b) =>
        if DistinctIds(b.items) {
          DeliveredByBatch(before, b, account, s, earlier);
        } else {
          assert earlier + [] == earlier;
        }
      case Applied(us) =>
        LookupAfterApply(before, us, account, s);
        assert earlier + [] == earlier;
    }
  }

  /** The same column by column. After any history on an empty table, a key that was delivered has a
      row: it is live and not locked, shows the currency, the time, the merchant code, the description
      and the day of the first delivery, and the hold, the amount and the payload of the last. A key
      that was never delivered has none. */
  lemma DeliveredColumns(events: seq<TxEvent>, account: nat, s: string)
    ensures var ds := Deliveries(events, account, s);
            && (ds == [] <==>
                  forall t | t in After([], events) :: !(t.account == account && t.sourceId == s && !t.deleted))
            && (ds != [] ==>
                  var first, last := ds[0], ds[|ds| - 1];
                  exists t | t in After([], events) ::
                    && t.account == account && t.sourceId == s && !t.deleted && !t.locked
                    && t.hold == last.hold && t.amount == last.amount && t.payload == last.payload
                    && t.currency == first.currency && t.time == first.time && t.mcc == first.mcc
                    && t.description == first.description && t.day == first.day)
  {
    var ds := Deliveries(events, account, s);
    var txs := After([], events);
    FirstAndLastDelivery(events, account, s);
    var i := FindLive(txs, account, s);
    if ds == [] {
      forall t | t in txs ensures !(t.account == account && t.sourceId == s && !t.deleted) {
        var j :| 0 <= j < |txs| && txs[j] == t;
        assert !HasKey(txs[j], account, s);
      }
    } else {
      DeliveriesHaveKey(events, account, s, 0);
      assert txs[i] in txs && HasKey(txs[i], account, s);
    }
  }

  lemma {:induction false} DeliveriesHaveKey(events: seq<TxEvent>, account: nat, s: string, k: nat)
    requires k < |Deliveries(events, account, s)|
    ensures Deliveries(events, account, s)[k].sourceId == s
    decreases |events|
  {
    var e := events[|events| - 1];
    var earlier := Deliveries(events[..|events| - 1], account, s);
    if k < |earlier| {
      DeliveriesHaveKey(events[..|events| - 1], account, s, k);
    } else {
      ItemsHaveKey(e.batch.items, s, k - |earlier|);
    }
  }

  lemma {:induction false} ItemsHaveKey(items: seq<Item>, s: string, k: nat)
    requires k < |ItemsOf(items, s)|
    ensures ItemsOf(items, s)[k].sourceId == s
    decreases |items|
  {
    if items[0].sourceId == s {
      if k > 0 {
        ItemsHaveKey(items[1..], s, k - 1);
      }
    } else {
      ItemsHaveKey(items[1..], s, k);
    }
  }

  /** And one batch on any table, column by column: the row of a delivered key takes hold, amount and
      payload from its item; everything else is the old row's if there was one, and otherwise the
      item's, with no category and no lock. */
  lemma BatchColumns(txs: seq<Tx>, account: nat, items: seq<Item>, k: nat)
    requires DistinctIds(items) && k < |items|
    ensures var item := items[k];
            var before := Lookup(txs, account, item.sourceId);
            var after := Lookup(UpsertAll(txs, account, items), account, item.sourceId);
            && after.Some?
            && after.value.account == account && after.value.sourceId == item.sourceId && !after.value.deleted
            && after.value.hold == item.hold && after.value.amount == item.amount && after.value.payload == item.payload
            && (before.Some? ==>
                  var was, row := before.value, after.value;
                  && row.currency == was.currency && row.time == was.time && row.mcc == was.mcc
                  && row.description == was.description && row.day == was.day && row.locked == was.locked
                  && row.category == was.category && row.categorySource == was.categorySource)
            && (before.None? ==>
                  var row := after.value;
                  && row.currency == item.currency && row.time == item.time && row.mcc == item.mcc
                  && row.description == item.description && row.day == item.day && !row.locked
                  && row.category.None? && row.categorySource.None?)
  {
    LookupAfterBatch(txs, account, items, account, items[k].sourceId);
    var i := FindLive(txs, account, items[k].sourceId);
    assert i < |txs| ==> HasKey(txs[i], account, items[k].sourceId);
  }

  /** A soft-deleted row is invisible to every batch: it never changes. */
  lemma {:induction false} DeletedRowsStay(txs: seq<Tx>, account: nat, items: seq<Item>, i: nat)
    requires i < |txs| && txs[i].deleted
    ensures UpsertAll(txs, account, items)[i] == txs[i]
    decreases |items|
  {
    if items != [] {
      DeletedRowsStay(txs, account, items[..|items| - 1], i);
    }
  }

  function InsertedBy(txs: seq<Tx>, e: TxEvent): nat {
    if e.Upserted? && DistinctIds(e.batch.items) then Missing(txs, e.batch.account, e.batch.items) else 0
  }

  function InsertedTotal(events: seq<TxEvent>): nat
    decreases |events|
  {
    if events == [] then 0
    else
      var n := |events| - 1;
      InsertedTotal(events[..n]) + InsertedBy(After([], events[..n]), events[n])
  }

  ghost function LiveIds(txs: seq<Tx>): set<nat> {
    set i: nat | i < |txs| && !txs[i].deleted
  }

  /** The inserted counts of all batches of a history add up to the number of live rows. */
  lemma InsertedIsConserved(events: seq<TxEvent>)
    ensures |LiveIds(After([], events))| == InsertedTotal(events)
  {
    CountsAddUp(events);
    AllLive(After([], events));
  }

  lemma {:induction false} AllLive(txs: seq<Tx>)
    requires forall i | 0 <= i < |txs| :: !txs[i].deleted
    ensures |LiveIds(txs)| == |txs|
    decreases |txs|
  {
    if txs == [] {
      assert LiveIds(txs) == {};
    } else {
      var n := |txs| - 1;
      AllLive(txs[..n]);
      assert LiveIds(txs) == LiveIds(txs[..n]) + {n};
    }
  }

  lemma {:induction false} CountsAddUp(events: seq<TxEvent>)
    ensures |After([], events)| == InsertedTotal(events)
    ensures forall i | 0 <= i < |After([], events)| :: !After([], events)[i].deleted
    decreases |events|
  {
    if events != [] {
      var n := |events| - 1;
      CountsAddUp(events[..n]);
      OneEventCounts(After([], events[..n]), events[n]);
    }
  }

  lemma OneEventCounts(txs: seq<Tx>, e: TxEvent)
    requires forall i | 0 <= i < |txs| :: !txs[i].deleted
    ensures |Effect(txs, e)| == |txs| + InsertedBy(txs, e)
    ensures forall i | 0 <= i < |Effect(txs, e)| :: !Effect(txs, e)[i].deleted
  {
    match e
    case Upserted(b) =>
      if DistinctIds(b.items) {
        GrowsByMissing(txs, b.account, b.items);
        StaysLive(txs, b.account, b.items);
      }
    case Applied(us) =>
      forall i | 0 <= i < |txs| ensures !Effect(txs, e)[i].deleted {
        ApplyKeeps(txs, us, i);
      }
  }

  lemma {:induction false} StaysLive(txs: seq<Tx>, account: nat, items: seq<Item>)
    requires forall i | 0 <= i < |txs| :: !txs[i].deleted
    ensures forall i | 0 <= i < |UpsertAll(txs, account, items)| :: !UpsertAll(txs, account, items)[i].deleted
    decreases |items|
  {
    if items != [] {
      StaysLive(txs, account, items[..|items| - 1]);
    }
  }

  lemma UpsertRowUnique(txs: seq<Tx>, account: nat, item: Item)
    requires UniqueLive(txs)
    ensures UniqueLive(UpsertRow(txs, account, item))
  {
    var r := UpsertRow(txs, account, item);
    var k := FindLive(txs, account, item.sourceId);
    forall i, j | 0 <= i < j < |r|
      ensures !(!r[i].deleted && HasKey(r[j], r[i].account, r[i].sourceId))
    {
      if j < |txs| {
        assert !(!txs[i].deleted && HasKey(txs[j], txs[i].account, txs[i].sourceId));
      } else {
        assert !HasKey(txs[i], account, item.sourceId);
      }
    }
  }

  lemma {:induction false} UpsertAllUnique(txs: seq<Tx>, account: nat, items: seq<Item>)
    requires UniqueLive(txs)
    ensures UniqueLive(UpsertAll(txs, account, items))
    decreases |items|
  {
    if items != [] {
      UpsertAllUnique(txs, account, items[..|items| - 1]);
      UpsertRowUnique(UpsertAll(txs, account, items[..|items| - 1]), account, items[|items| - 1]);
    }
  }

  /** At most one live row per (account, source id), after any history. */
  lemma {:induction false} UniqueForever(txs: seq<Tx>, events: seq<TxEvent>)
    requires UniqueLive(txs)
    ensures UniqueLive(After(txs, events))
    decreases |events|
  {
    if events != [] {
      var n := |events| - 1;
      UniqueForever(txs, events[..n]);
      var before := After(txs, events[..n]);
      match events[n]
      case Upserted(b) => if DistinctIds(b.items) { UpsertAllUnique(before, b.account, b.items); }
      case Applied(us) =>
        var r := ApplyAll(before, us);
        forall i | 0 <= i < |before| ensures SameIdentity(before[i], r[i]) {
          ApplyKeeps(before, us, i);
        }
        forall i, j | 0 <= i < j < |r| ensures !(!r[i].deleted && HasKey(r[j], r[i].account, r[i].sourceId)) {
          assert SameIdentity(before[i], r[i]) && SameIdentity(before[j], r[j]);
        }
    }
  }

  // ----- reads -----

  function View(txs: seq<Tx>, i: nat): RowView
    requires i < |txs|
  {
    var t := txs[i];
    RowView(i, t.amount, t.hold, t.locked, t.category, t.description, t.mcc, Some(t.account), Some(t.currency),
            t.payload)
  }

  /** The column or payload key behind a text field. */
  function TextColumn(t: Tx, f: TextField): Option<Text> {
    match f
    case Description => t.description
    case Comment => if "comment" in t.payload.texts then Some(t.payload.texts["comment"]) else None
    case CounterIban => if "counterIban" in t.payload.texts then Some(t.payload.texts["counterIban"]) else None
    case CounterEdrpou => if "counterEdrpou" in t.payload.texts then Some(t.payload.texts["counterEdrpou"]) else None
  }

  /** What the conditions mean for a stored transaction: a needle is a part of the text, up to case; an
      absent text or number fulfils nothing; debits are negative and credits positive; bounds of a
      range are inclusive and may be missing. */
  lemma ConditionMeaning(txs: seq<Tx>, i: nat, c: Condition)
    requires i < |txs|
    ensures var t := txs[i];
            Holds(c, View(txs, i)) <==>
              match c
              case IContains(f, needle) =>
                TextColumn(t, f).Some? && exists a, b :: TextColumn(t, f).value.folded == a + needle.folded + b
              case EqualsText(f, text) => exists v :: TextColumn(t, f) == Some(v) && v.exact == text
              case EqualsCurrency(code) => t.currency == code
              case InInt(Mcc, ints) => t.mcc.Some? && t.mcc.value in ints
              case InInt(OriginalMcc, ints) => t.payload.originalMcc.Some? && t.payload.originalMcc.value in ints
              case InInt(AccountId, ints) => t.account in ints
              case InStr(codes) => t.currency in codes
              case AmountSign(true) => t.amount <= -1
              case AmountSign(false) => t.amount >= 1
              case AmountRange(None, None) => true
              case AmountRange(Some(lo), None) => lo <= t.amount
              case AmountRange(None, Some(hi)) => t.amount <= hi
              case AmountRange(Some(lo), Some(hi)) => lo <= t.amount <= hi
              case HoldIs(value) => t.hold == value
  {
    var t := txs[i];
    assert forall f :: View(txs, i).GetText(f) == TextColumn(t, f);
    match c
    case IContains(f, needle) =>
      if TextColumn(t, f).Some? {
        OccursExactly(needle.folded, TextColumn(t, f).value.folded);
      }
    case EqualsText(f, text) =>
      if TextColumn(t, f).Some? {
        assert TextColumn(t, f) == Some(TextColumn(t, f).value);
      }
    case InInt(f, ints) =>
      assert View(txs, i).GetInt(Mcc) == t.mcc && View(txs, i).GetInt(OriginalMcc) == t.payload.originalMcc;
      assert View(txs, i).GetInt(AccountId) == Some(t.account);
    case _ =>
  }

  lemma OccursExactly(needle: string, hay: string)
    ensures Occurs(needle, hay) <==> exists a, b :: hay == a + needle + b
  {
    if Occurs(needle, hay) {
      var i :| 0 <= i <= |hay| - |needle| && OccursAt(needle, hay, i);
      assert hay == hay[..i] + needle + hay[i + |needle|..];
    }
    if a, b :| hay == a + needle + b {
      assert OccursAt(needle, hay, |a|);
    }
  }

  predicate Sweepable(t: Tx, account: nat) {
    t.account == account && !t.locked && !t.deleted
  }

  ghost function SweepIds(txs: seq<Tx>, account: nat): set<nat> {
    set i: nat | i < |txs| && Sweepable(txs[i], account)
  }

  ghost function TouchedIds(txs: seq<Tx>, account: nat, sourceIds: seq<string>): set<nat> {
    set i: nat | i < |txs| && Sweepable(txs[i], account) && txs[i].sourceId in sourceIds
  }

  ghost function LockedIds(txs: seq<Tx>, account: nat): set<nat> {
    set i: nat | i < |txs| && txs[i].account == account && txs[i].locked && !txs[i].deleted
  }

  /** A query result without ORDER BY: each selected row once, in no promised order. */
  ghost predicate Lists(rows: seq<RowView>, txs: seq<Tx>, ids: set<nat>) {
    && (forall k | 0 <= k < |rows| :: rows[k].id in ids && rows[k].id < |txs| && rows[k] == View(txs, rows[k].id))
    && (forall i | i in ids :: exists k :: 0 <= k < |rows| && rows[k].id == i)
    && (forall k, m | 0 <= k < m < |rows| :: rows[k].id != rows[m].id)
  }

  class TransactionRepo {
    var rows: seq<Tx>

    constructor (stored: seq<Tx>)
      ensures rows == stored
    {
      rows := stored;
    }

    /** One row of the upsert; tells whether it was inserted (xmax = 0). */
    method UpsertOne(account: nat, item: Item) returns (isNew: bool)
      modifies this
      ensures rows == UpsertRow(old(rows), account, item)
      ensures isNew == Lookup(old(rows), account, item.sourceId).None?
    {
      var at := FindLive(rows, account, item.sourceId);
      isNew := at == |rows|;
      if isNew {
        rows := rows + [NewTx(account, item)];
      } else {
        rows := rows[at := Merged(rows[at], item)];
      }
    }

    /** The upsert statement: all of it or, when it meets one key twice, nothing. Reports how
        many rows are new and how many were updated in place. */
    method InsertMany(account: nat, items: seq<Item>) returns (counts: Result<(nat, nat), string>)
      modifies this
      ensures counts.Success? <==> DistinctIds(items)
      ensures rows == Ingest(old(rows), Batch(account, items))
      ensures counts.Failure? ==> rows == old(rows)
      ensures counts.Success? ==>
                && counts.value.0 == Missing(old(rows), account, items)
                && counts.value.0 + counts.value.1 == |items|
                && |rows| == |old(rows)| + counts.value.0
    {
      ghost var before := rows;
      var saved := rows;
      var inserted := 0;
      var seen: set<string> := {};
      for n := 0 to |items|
        invariant forall s :: s in seen <==> Delivers(items[..n], s)
        invariant DistinctIds(items[..n])
        invariant rows == UpsertAll(before, account, items[..n])
        invariant inserted == Missing(before, account, items[..n])
        invariant inserted <= n
      {
        if items[n].sourceId in seen {
          Repeated(items, n);
          rows := saved;
          return Failure(REPEATED_KEY);
        }
        LookupAfterBatch(before, account, items[..n], account, items[n].sourceId);
        var isNew := UpsertOne(account, items[n]);
        OneMoreItem(before, account, items, n);
        inserted := inserted + if isNew then 1 else 0;
        SeenGrows(items, n);
        seen := seen + {items[n].sourceId};
      }
      assert items[..|items|] == items;
      GrowsByMissing(before, account, items);
      counts := Success((inserted, |items| - inserted));
    }

    /** One guarded UPDATE per pair. */
    method ApplyCategories(updates: seq<(nat, Option<int>)>)
      modifies this
      ensures rows == ApplyAll(old(rows), updates)
    {
      var before := rows;
      for n := 0 to |updates|
        invariant rows == ApplyAll(before, updates[..n])
      {
        assert updates[..n + 1][..n] == updates[..n];
        var (tid, cid) := updates[n];
        if tid < |rows| && !rows[tid].locked {
          rows := rows[tid := rows[tid].(category := cid, categorySource := Some("rule"))];
        }
      }
      assert updates[..|updates|] == updates;
    }

    method FetchAllForCategorize(account: nat) returns (out: seq<RowView>)
      ensures Lists(out, rows, SweepIds(rows, account))
    {
      out := [];
      for i := 0 to |rows|
        invariant forall k | 0 <= k < |out| ::
                    out[k].id < i && Sweepable(rows[out[k].id], account) && out[k] == View(rows, out[k].id)
        invariant forall j: nat | j < i && Sweepable(rows[j], account) :: exists k :: 0 <= k < |out| && out[k].id == j
        invariant forall k, m | 0 <= k < m < |out| :: out[k].id != out[m].id
      {
        if Sweepable(rows[i], account) {
          var longer := out + [View(rows, i)];
          assert longer[|out|].id == i;
          assert forall k | 0 <= k < |out| :: longer[k] == out[k];
          out := longer;
        }
      }
    }

    method FetchForCategorize(account: nat, sourceIds: seq<string>) returns (out: seq<RowView>)
      ensures Lists(out, rows, TouchedIds(rows, account, sourceIds))
    {
      out := [];
      if sourceIds == [] {
        return;
      }
      for i := 0 to |rows|
        invariant forall k | 0 <= k < |out| ::
                    && out[k].id < i && out[k].id in TouchedIds(rows, account, sourceIds)
                    && out[k] == View(rows, out[k].id)
        invariant forall j: nat | j < i && j in TouchedIds(rows, account, sourceIds) ::
                    exists k :: 0 <= k < |out| && out[k].id == j
        invariant forall k, m | 0 <= k < m < |out| :: out[k].id != out[m].id
      {
        if Sweepable(rows[i], account) && rows[i].sourceId in sourceIds {
          var longer := out + [View(rows, i)];
          assert longer[|out|].id == i;
          assert forall k | 0 <= k < |out| :: longer[k] == out[k];
          out := longer;
        }
      }
    }

    method CountLocked(account: nat) returns (n: nat)
      ensures n == |LockedIds(rows, account)|
    {
      n := 0;
      ghost var counted: set<nat> := {};
      for i := 0 to |rows|
        invariant counted == set j: nat | j < i && j < |rows| && rows[j].account == account && rows[j].locked
                                          && !rows[j].deleted
        invariant n == |counted|
      {
        if rows[i].account == account && rows[i].locked && !rows[i].deleted {
          counted := counted + {i};
          n := n + 1;
        }
      }
      assert counted == LockedIds(rows, account);
    }
  }

  lemma OneMoreItem(txs: seq<Tx>, account: nat, items: seq<Item>, n: nat)
    requires n < |items|
    ensures UpsertAll(txs, account, items[..n + 1]) == UpsertRow(UpsertAll(txs, account, items[..n]), account, items[n])
    ensures Missing(txs, account, items[..n + 1]) == Missing(txs, account, items[..n])
              + (if Lookup(txs, account, items[n].sourceId).None? then 1 else 0)
  {
    assert items[..n + 1][..n] == items[..n];
  }

  lemma Repeated(items: seq<Item>, n: nat)
    requires n < |items| && Delivers(items[..n], items[n].sourceId)
    ensures !DistinctIds(items)
  {
    var k :| 0 <= k < n && items[..n][k].sourceId == items[n].sourceId;
    assert items[k].sourceId == items[n].sourceId;
  }

  lemma SeenGrows(items: seq<Item>, n: nat)
    requires n < |items| && DistinctIds(items[..n]) && !Delivers(items[..n], items[n].sourceId)
    ensures DistinctIds(items[..n + 1])
    ensures forall s :: Delivers(items[..n + 1], s) <==> Delivers(items[..n], s) || s == items[n].sourceId
  {
    assert items[..n + 1][n] == items[n];
    forall i, j | 0 <= i < j < n + 1 ensures items[i].sourceId != items[j].sourceId {
      assert items[..n][i] == items[i];
      if j < n {
        assert items[..n][j] == items[j];
      }
    }
    forall s ensures Delivers(items[..n + 1], s) <==> Delivers(items[..n], s) || s == items[n].sourceId {
      if Delivers(items[..n], s) {
        var k :| 0 <= k < n && items[..n][k].sourceId == s;
        assert items[..n + 1][k].sourceId == s;
      }
      if Delivers(items[..n + 1], s) {
        var k :| 0 <= k < n + 1 && items[..n + 1][k].sourceId == s;
        if k < n {
          assert items[..n][k].sourceId == s;
        }
      }
    }
  }
}
