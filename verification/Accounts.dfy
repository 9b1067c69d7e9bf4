/** The accounts table: discovery inserts, the first card, and the allowlist of polled cards.
    Accounts are never removed, so the id of an account is its position. */
module Accounts {
  import opened Common

  datatype Account = Account(sourceKind: string, sourceId: string, currency: string, monoType: Option<string>)

  predicate Pollable(a: Account) {
    a.sourceKind == "mono.card" && a.monoType.Some? && a.monoType.value in ["black", "platinum", "white"]
  }

  ghost predicate Ascending(ids: seq<nat>) {
    forall i, j | 0 <= i < j < |ids| :: ids[i] < ids[j]
  }

  /** The ids of the pollable cards, ascending. */
  function PollableIds(accounts: seq<Account>): (ids: seq<nat>)
    ensures forall c: nat :: c in ids <==> c < |accounts| && Pollable(accounts[c])
    ensures Ascending(ids)
    decreases |accounts|
  {
    if accounts == [] then []
    else
      var n := |accounts| - 1;
      var front := PollableIds(accounts[..n]);
      assert forall c | 0 <= c < n :: accounts[..n][c] == accounts[c];
      assert forall i | 0 <= i < |front| :: front[i] in front;
      if Pollable(accounts[n]) then front + [n] else front
  }

  /** The allowlist: cards, and of them the black, platinum and white ones. */
  lemma PollableExactly(accounts: seq<Account>, c: nat)
    ensures c in PollableIds(accounts) <==>
            && c < |accounts| && accounts[c].sourceKind == "mono.card"
            && accounts[c].monoType in {Some("black"), Some("platinum"), Some("white")}
  {
  }

  predicate Known(accounts: seq<Account>, kind: string, sourceId: string) {
    exists i | 0 <= i < |accounts| :: accounts[i].sourceKind == kind && accounts[i].sourceId == sourceId
  }

  function StoreAll(accounts: seq<Account>, found: seq<Account>): (r: seq<Account>)
    ensures |accounts| <= |r| && r[..|accounts|] == accounts
    decreases |found|
  {
    if found == [] then accounts
    else
      var sofar := StoreAll(accounts, found[..|found| - 1]);
      var a := found[|found| - 1];
      if Known(sofar, a.sourceKind, a.sourceId) then sofar else sofar + [a]
  }

  lemma {:induction false} NothingElseStored(accounts: seq<Account>, found: seq<Account>)
    ensures forall a | a in StoreAll(accounts, found) :: a in accounts || a in found
    decreases |found|
  {
    if found != [] {
      NothingElseStored(accounts, found[..|found| - 1]);
    }
  }

  predicate FirstFound(accounts: seq<Account>, found: seq<Account>, k: nat)
    requires k < |found|
  {
    && (forall a | a in accounts :: !(a.sourceKind == found[k].sourceKind && a.sourceId == found[k].sourceId))
    && forall j | 0 <= j < k :: !(found[j].sourceKind == found[k].sourceKind && found[j].sourceId == found[k].sourceId)
  }

  lemma NotYetKnown(accounts: seq<Account>, found: seq<Account>)
    requires found != [] && FirstFound(accounts, found, |found| - 1)
    ensures var n := |found| - 1;
            !Known(StoreAll(accounts, found[..n]), found[n].sourceKind, found[n].sourceId)
  {
    var n := |found| - 1;
    var sofar := StoreAll(accounts, found[..n]);
    NothingElseStored(accounts, found[..n]);
    forall a | a in sofar
      ensures !(a.sourceKind == found[n].sourceKind && a.sourceId == found[n].sourceId)
    {
      if a !in accounts {
        var j :| 0 <= j < n && found[..n][j] == a;
      }
    }
    assert forall i | 0 <= i < |sofar| :: sofar[i] in sofar;
  }

  lemma {:induction false} FirstIsStored(accounts: seq<Account>, found: seq<Account>, k: nat)
    requires k < |found| && FirstFound(accounts, found, k)
    ensures found[k] in StoreAll(accounts, found)
    decreases |found|
  {
    var n := |found| - 1;
    if k < n {
      assert forall j | 0 <= j <= k :: found[..n][j] == found[j];
      FirstIsStored(accounts, found[..n], k);
    } else {
      NotYetKnown(accounts, found);
    }
  }

  /** What discovery stores, with all its columns: nothing but accounts it found, each of them unless an
      account with its key is stored or was found before it. */
  lemma StoredAsFound(accounts: seq<Account>, found: seq<Account>)
    ensures forall a | a in StoreAll(accounts, found) :: a in accounts || a in found
    ensures forall k | 0 <= k < |found| && FirstFound(accounts, found, k) :: found[k] in StoreAll(accounts, found)
  {
    NothingElseStored(accounts, found);
    forall k | 0 <= k < |found| && FirstFound(accounts, found, k)
      ensures found[k] in StoreAll(accounts, found)
    {
      FirstIsStored(accounts, found, k);
    }
  }

  lemma KnownStays(a: seq<Account>, b: seq<Account>, kind: string, sourceId: string)
    requires |a| <= |b| && b[..|a|] == a && Known(a, kind, sourceId)
    ensures Known(b, kind, sourceId)
  {
    var i :| 0 <= i < |a| && a[i].sourceKind == kind && a[i].sourceId == sourceId;
    assert b[i] == b[..|a|][i];
  }

  lemma {:induction false} StoredAreKnown(accounts: seq<Account>, found: seq<Account>, k: nat)
    requires k < |found|
    ensures Known(StoreAll(accounts, found), found[k].sourceKind, found[k].sourceId)
    decreases |found|
  {
    var n := |found| - 1;
    var sofar := StoreAll(accounts, found[..n]);
    if k < n {
      StoredAreKnown(accounts, found[..n], k);
      KnownStays(sofar, StoreAll(accounts, found), found[k].sourceKind, found[k].sourceId);
    } else if !Known(sofar, found[n].sourceKind, found[n].sourceId) {
      assert (sofar + [found[n]])[|sofar|] == found[n];
    }
  }

  lemma {:induction false} StoreKnown(accounts: seq<Account>, found: seq<Account>)
    requires forall i | 0 <= i < |found| :: Known(accounts, found[i].sourceKind, found[i].sourceId)
    ensures StoreAll(accounts, found) == accounts
    decreases |found|
  {
    if found != [] {
      StoreKnown(accounts, found[..|found| - 1]);
    }
  }

  /** Discovering the same accounts again inserts nothing. */
  lemma DiscoveryIsIdempotent(accounts: seq<Account>, found: seq<Account>)
    ensures StoreAll(StoreAll(accounts, found), found) == StoreAll(accounts, found)
  {
    forall k | 0 <= k < |found|
      ensures Known(StoreAll(accounts, found), found[k].sourceKind, found[k].sourceId)
    {
      StoredAreKnown(accounts, found, k);
    }
    StoreKnown(StoreAll(accounts, found), found);
  }

  /** The card of least id, of any type. */
  predicate FirstCard(accounts: seq<Account>, c: nat) {
    c < |accounts| && accounts[c].sourceKind == "mono.card"
    && forall i | 0 <= i < c :: accounts[i].sourceKind != "mono.card"
  }

  class AccountRepo {
    var rows: seq<Account>

    constructor (stored: seq<Account>)
      ensures rows == stored
    {
      rows := stored;
    }

    /** The lowest-id card of any type. */
    method GetFirstCard() returns (card: Option<nat>)
      ensures card.Some? <==> exists i :: FirstCard(rows, i)
      ensures card.Some? ==> FirstCard(rows, card.value)
    {
      for i := 0 to |rows|
        invariant forall j | 0 <= j < i :: rows[j].sourceKind != "mono.card"
      {
        if rows[i].sourceKind == "mono.card" {
          assert FirstCard(rows, i);
          return Some(i);
        }
      }
      card := None;
    }

    /** INSERT ... ON CONFLICT DO NOTHING, for each account found. */
    method UpsertMany(found: seq<Account>) returns (inserted: nat)
      modifies this
      ensures rows == StoreAll(old(rows), found)
      ensures inserted == |rows| - |old(rows)|
    {
      ghost var before := rows;
      inserted := 0;
      for n := 0 to |found|
        invariant rows == StoreAll(before, found[..n])
        invariant inserted == |rows| - |before|
      {
        assert found[..n + 1][..n] == found[..n];
        if !Known(rows, found[n].sourceKind, found[n].sourceId) {
          rows := rows + [found[n]];
          inserted := inserted + 1;
        }
      }
      assert found[..|found|] == found;
    }
  }
}
