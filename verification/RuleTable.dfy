/** The rules table: unique priorities, the evaluation order, edits, and the two-phase
    renumbering that never breaks the uniqueness of priorities. */
module RuleTable {
  import opened Common
  import opened Categorizer

  type Table = map<int, Rule>

  const OFFSET := 1_000_000

  ghost predicate UniquePriority(t: Table) {
    forall x, y | x in t && y in t && x != y :: t[x].priority != t[y].priority
  }

  ghost predicate Valid(t: Table) {
    (forall x | x in t :: t[x].id == x) && UniquePriority(t)
  }

  predicate Before(a: Rule, b: Rule) {
    a.priority < b.priority || (a.priority == b.priority && a.id < b.id)
  }

  /** ORDER BY priority, id. */
  ghost predicate IsListing(l: seq<Rule>, t: Table) {
    (forall i, j | 0 <= i < j < |l| :: Before(l[i], l[j]))
    && forall r :: r in l <==> r.id in t && t[r.id] == r
  }

  lemma FirstOf(a: seq<Rule>) returns (r: Rule)
    requires a != []
    ensures r in a
  {
    r := a[0];
  }

  lemma {:induction false} SortedUnique(a: seq<Rule>, b: seq<Rule>)
    requires forall i, j | 0 <= i < j < |a| :: Before(a[i], a[j])
    requires forall i, j | 0 <= i < j < |b| :: Before(b[i], b[j])
    requires forall r :: r in a <==> r in b
    ensures a == b
    decreases |a|
  {
    if b == [] {
      if a != [] {
        var r := FirstOf(a);
        assert false;
      }
    } else if a == [] {
      var r := FirstOf(b);
      assert false;
    } else {
      assert a[0] in b && b[0] in a;
      assert a[0] == b[0];
      forall r ensures r in a[1..] <==> r in b[1..] {
        if r in a[1..] || r in b[1..] {
          assert r in a && r in b && r != a[0];
        }
      }
      SortedUnique(a[1..], b[1..]);
    }
  }

  /** The evaluation order is determined by the table. */
  lemma ListingUnique(a: seq<Rule>, b: seq<Rule>, t: Table)
    requires IsListing(a, t) && IsListing(b, t)
    ensures a == b
  {
    SortedUnique(a, b);
  }

  // ----- edits -----

  function Drop(l: seq<Rule>, id: int): seq<Rule>
    decreases |l|
  {
    if l == [] then []
    else if l[0].id == id then Drop(l[1..], id)
    else [l[0]] + Drop(l[1..], id)
  }

  lemma {:induction false} DropMembers(l: seq<Rule>, id: int)
    ensures forall r :: r in Drop(l, id) <==> r in l && r.id != id
    decreases |l|
  {
    if l != [] {
      DropMembers(l[1..], id);
    }
  }

  lemma {:induction false} DropSorted(l: seq<Rule>, id: int)
    requires forall i, j | 0 <= i < j < |l| :: Before(l[i], l[j])
    ensures forall i, j | 0 <= i < j < |Drop(l, id)| :: Before(Drop(l, id)[i], Drop(l, id)[j])
    decreases |l|
  {
    if l != [] {
      var rest := Drop(l[1..], id);
      DropSorted(l[1..], id);
      DropMembers(l[1..], id);
      assert forall j | 0 <= j < |rest| :: rest[j] in l[1..];
    }
  }

  lemma {:induction false} DropCompiles(l: seq<Rule>, id: int)
    ensures Compile(Drop(l, id)) == Without(Compile(l), id)
    decreases |l|
  {
    if l != [] {
      DropCompiles(l[1..], id);
      assert Compile(l)[1..] == Compile(l[1..]);
      if l[0].id != id {
        CompileFirst(l[0], Drop(l[1..], id));
      }
    }
  }

  lemma CompileFirst(r: Rule, l: seq<Rule>)
    ensures Compile([r] + l) == [CompileRule(r)] + Compile(l)
  {
  }

  /** Creating, deleting or rewriting one rule, its priority included, can change the verdict of
      a row only if the row is unlocked and that rule is its first match before or after. */
  lemma EditIsLocalInTable(t: Table, u: Table, id: int, before: seq<Rule>, after: seq<Rule>, row: RowView)
    requires t - {id} == u - {id}
    requires IsListing(before, t) && IsListing(after, u)
    requires CategorizeRow(row, Compile(before)) != CategorizeRow(row, Compile(after))
    ensures !row.locked
    ensures MatchedBy(row, Compile(before), id) || MatchedBy(row, Compile(after), id)
  {
    DropMembers(before, id);
    DropMembers(after, id);
    DropSorted(before, id);
    DropSorted(after, id);
    DropCompiles(before, id);
    DropCompiles(after, id);
    forall r ensures r in Drop(before, id) <==> r in Drop(after, id) {
      assert r.id in t - {id} <==> r.id in u - {id};
      if r.id in t && r.id != id {
        assert (t - {id})[r.id] == (u - {id})[r.id];
      }
    }
    SortedUnique(Drop(before, id), Drop(after, id));
    EditIsLocal(row, Compile(before), Compile(after), id);
  }

  // ----- reorder -----

  function LastPos(ids: seq<int>, y: int): (k: nat)
    requires y in ids
    ensures k < |ids| && ids[k] == y
    ensures forall j | k < j < |ids| :: ids[j] != y
    decreases |ids|
  {
    if ids[|ids| - 1] == y then |ids| - 1 else LastPos(ids[..|ids| - 1], y)
  }

  function ParkedPriority(t: Table, ids: seq<int>, i: nat, y: int): int
    requires i <= |ids| && y in t
  {
    if y in ids[..i] then OFFSET + y else t[y].priority
  }

  function NumberedPriority(t: Table, ids: seq<int>, k: nat, y: int): int
    requires k <= |ids| && y in t
  {
    if y in ids[..k] then LastPos(ids[..k], y) + 1 else ParkedPriority(t, ids, |ids|, y)
  }

  /** The table after i updates of the parking phase. */
  function Parked(t: Table, ids: seq<int>, i: nat): Table
    requires i <= |ids|
  {
    map y | y in t :: t[y].(priority := ParkedPriority(t, ids, i, y))
  }

  /** The table after k updates of the numbering phase. */
  function Numbered(t: Table, ids: seq<int>, k: nat): Table
    requires k <= |ids|
  {
    map y | y in t :: t[y].(priority := NumberedPriority(t, ids, k, y))
  }

  /** What a caller has to check: no rule that still has its old priority when id x is parked
      holds 1000000 + x, and no rule that is unlisted, or still parked, holds a final number
      at the moment it is given out. */
  ghost predicate ReorderOk(t: Table, ids: seq<int>) {
    ParkingFree(t, ids, |ids|) && NumberingFree(t, ids, |ids|)
  }

  ghost predicate ParkingFree(t: Table, ids: seq<int>, n: nat)
    requires n <= |ids|
  {
    forall i, y | 0 <= i < n && ids[i] in t && y in t && y != ids[i] && y !in ids[..i] ::
      t[y].priority != OFFSET + ids[i]
  }

  ghost predicate NumberingFree(t: Table, ids: seq<int>, n: nat)
    requires n <= |ids|
  {
    forall k, y | 0 <= k < n && ids[k] in t && y in t && y != ids[k] && y !in ids[..k] ::
      (if y in ids then OFFSET + y else t[y].priority) != k + 1
  }

  lemma ParkStep(t: Table, ids: seq<int>, i: nat, y: int)
    requires i < |ids| && y in t
    ensures ParkedPriority(t, ids, i + 1, y) == if y == ids[i] then OFFSET + y else ParkedPriority(t, ids, i, y)
  {
    assert ids[..i + 1] == ids[..i] + [ids[i]];
  }

  lemma NumberStep(t: Table, ids: seq<int>, k: nat, y: int)
    requires k < |ids| && y in t
    ensures NumberedPriority(t, ids, k + 1, y) == if y == ids[k] then k + 1 else NumberedPriority(t, ids, k, y)
  {
    assert ids[..k + 1] == ids[..k] + [ids[k]];
    if y in ids[..k + 1] && y != ids[k] {
      assert ids[..k + 1][..k] == ids[..k];
    }
  }

  lemma {:induction false} ParkedUnique(t: Table, ids: seq<int>, i: nat)
    requires UniquePriority(t) && ReorderOk(t, ids) && i <= |ids|
    ensures UniquePriority(Parked(t, ids, i))
    decreases i
  {
    if i == 0 {
      assert forall y | y in t :: Parked(t, ids, 0)[y].priority == t[y].priority;
    } else {
      ParkedUnique(t, ids, i - 1);
      forall x, y | x in t && y in t && x != y
        ensures ParkedPriority(t, ids, i, x) != ParkedPriority(t, ids, i, y)
      {
        ParkStep(t, ids, i - 1, x);
        ParkStep(t, ids, i - 1, y);
        assert Parked(t, ids, i - 1)[x].priority != Parked(t, ids, i - 1)[y].priority;
      }
    }
  }

  /** The numbering starts where the parking ends. */
  lemma NumberingStarts(t: Table, ids: seq<int>)
    ensures Numbered(t, ids, 0) == Parked(t, ids, |ids|)
  {
    assert ids[..|ids|] == ids;
  }

  lemma NumberedUniqueStart(t: Table, ids: seq<int>)
    requires UniquePriority(t) && ReorderOk(t, ids)
    ensures UniquePriority(Numbered(t, ids, 0))
  {
    ParkedUnique(t, ids, |ids|);
    NumberingStarts(t, ids);
  }

  lemma {:induction false} NumberedUnique(t: Table, ids: seq<int>, k: nat)
    requires UniquePriority(t) && ReorderOk(t, ids) && k <= |ids|
    ensures UniquePriority(Numbered(t, ids, k))
    decreases k
  {
    if k == 0 {
      NumberedUniqueStart(t, ids);
    } else {
      NumberedUnique(t, ids, k - 1);
      NumberedUniqueNext(t, ids, k);
    }
  }

  lemma NumberedUniqueNext(t: Table, ids: seq<int>, k: nat)
    requires ReorderOk(t, ids) && 0 < k <= |ids| && UniquePriority(Numbered(t, ids, k - 1))
    ensures UniquePriority(Numbered(t, ids, k))
  {
    var before := Numbered(t, ids, k - 1);
    forall x, y | x in t && y in t && x != y
      ensures NumberedPriority(t, ids, k, x) != NumberedPriority(t, ids, k, y)
    {
      assert before[x].priority != before[y].priority;
      NumberedApart(t, ids, k - 1, x, y);
    }
  }

  lemma NumberedApart(t: Table, ids: seq<int>, k: nat, x: int, y: int)
    requires ReorderOk(t, ids) && k < |ids| && x in t && y in t && x != y
    requires NumberedPriority(t, ids, k, x) != NumberedPriority(t, ids, k, y)
    ensures NumberedPriority(t, ids, k + 1, x) != NumberedPriority(t, ids, k + 1, y)
  {
    NumberStep(t, ids, k, x);
    NumberStep(t, ids, k, y);
    assert ids[..|ids|] == ids;
    if x == ids[k] {
      FreshNumber(t, ids, k, y);
    } else if y == ids[k] {
      FreshNumber(t, ids, k, x);
    }
  }

  lemma FreshNumber(t: Table, ids: seq<int>, k: nat, y: int)
    requires ReorderOk(t, ids) && k < |ids| && ids[k] in t && y in t && y != ids[k]
    ensures NumberedPriority(t, ids, k, y) != k + 1
  {
    assert ids[..|ids|] == ids;
    if y in ids[..k] {
      assert LastPos(ids[..k], y) < k;
    }
  }

  /** The check is exact: it holds precisely when priorities are distinct after every single
      UPDATE of both phases. Nothing is asked of the ids: they may repeat or not exist. */
  lemma ReorderOkExactly(t: Table, ids: seq<int>)
    requires UniquePriority(t)
    ensures ReorderOk(t, ids) <==>
            (forall i | 0 <= i <= |ids| :: UniquePriority(Parked(t, ids, i)))
            && (forall k | 0 <= k <= |ids| :: UniquePriority(Numbered(t, ids, k)))
  {
    if ReorderOk(t, ids) {
      forall i | 0 <= i <= |ids| ensures UniquePriority(Parked(t, ids, i)) {
        ParkedUnique(t, ids, i);
      }
      forall k | 0 <= k <= |ids| ensures UniquePriority(Numbered(t, ids, k)) {
        NumberedUnique(t, ids, k);
      }
    } else if (forall i | 0 <= i <= |ids| :: UniquePriority(Parked(t, ids, i)))
           && (forall k | 0 <= k <= |ids| :: UniquePriority(Numbered(t, ids, k))) {
      forall i, y | 0 <= i < |ids| && ids[i] in t && y in t && y != ids[i] && y !in ids[..i]
        ensures t[y].priority != OFFSET + ids[i]
      {
        ParkStep(t, ids, i, y);
        ParkStep(t, ids, i, ids[i]);
        assert UniquePriority(Parked(t, ids, i + 1));
        assert Parked(t, ids, i + 1)[y].priority != Parked(t, ids, i + 1)[ids[i]].priority;
      }
      forall k, y | 0 <= k < |ids| && ids[k] in t && y in t && y != ids[k] && y !in ids[..k]
        ensures (if y in ids then OFFSET + y else t[y].priority) != k + 1
      {
        NumberStep(t, ids, k, y);
        NumberStep(t, ids, k, ids[k]);
        assert ids[..|ids|] == ids;
        assert UniquePriority(Numbered(t, ids, k + 1));
        assert Numbered(t, ids, k + 1)[y].priority != Numbered(t, ids, k + 1)[ids[k]].priority;
      }
    }
  }

  /** The guarded case: at most a million ids, rule ids from 1, priorities in 1..1000000, and every
      unlisted rule above N. No UPDATE of either phase meets a taken priority. */
  lemma OrdinaryReorderSucceeds(t: Table, ids: seq<int>)
    requires UniquePriority(t) && |ids| <= 1_000_000
    requires forall y | y in t :: y >= 1 && 1 <= t[y].priority <= 1_000_000
    requires forall y | y in t && y !in ids :: t[y].priority > |ids|
    ensures ReorderOk(t, ids)
    ensures forall i | 0 <= i <= |ids| :: UniquePriority(Parked(t, ids, i)) && UniquePriority(Numbered(t, ids, i))
  {
    ReorderOkExactly(t, ids);
  }

  /** Without the guard it can fail: a priority above a million may sit where a row is parked. */
  lemma HighPriorityBreaksReorder(p: Predicate)
    ensures var t := map[1 := Rule(1, 1, 7, p, None), 2 := Rule(2, 1_000_001, 7, p, None)];
            Valid(t) && !ReorderOk(t, [1, 2])
  {
    var t := map[1 := Rule(1, 1, 7, p, None), 2 := Rule(2, 1_000_001, 7, p, None)];
    var ids := [1, 2];
    assert ids[0] in t && 2 in t && 2 !in ids[..0];
    assert t[2].priority == OFFSET + ids[0];
  }

  function Unlisted(l: seq<Rule>, ids: seq<int>): seq<Rule>
    decreases |l|
  {
    if l == [] then []
    else if l[0].id in ids then Unlisted(l[1..], ids)
    else [l[0]] + Unlisted(l[1..], ids)
  }

  lemma {:induction false} UnlistedMembers(l: seq<Rule>, ids: seq<int>)
    ensures forall r :: r in Unlisted(l, ids) <==> r in l && r.id !in ids
    decreases |l|
  {
    if l != [] {
      UnlistedMembers(l[1..], ids);
      assert l == [l[0]] + l[1..];
    }
  }

  lemma {:induction false} UnlistedKeepsOrder(l: seq<Rule>, ids: seq<int>)
    requires forall i, j | 0 <= i < j < |l| :: Before(l[i], l[j])
    ensures forall r :: r in Unlisted(l, ids) <==> r in l && r.id !in ids
    ensures forall i, j | 0 <= i < j < |Unlisted(l, ids)| :: Before(Unlisted(l, ids)[i], Unlisted(l, ids)[j])
    decreases |l|
  {
    UnlistedMembers(l, ids);
    if l != [] {
      UnlistedKeepsOrder(l[1..], ids);
      if l[0].id !in ids {
        assert Unlisted(l, ids)[1..] == Unlisted(l[1..], ids);
        assert forall j | 0 < j < |Unlisted(l, ids)| :: Unlisted(l, ids)[j] in l[1..];
      }
    }
  }

  predicate NoRepeats(ids: seq<int>) {
    forall i, j | 0 <= i < j < |ids| :: ids[i] != ids[j]
  }

  predicate AllExist(t: Table, ids: seq<int>) {
    forall k | 0 <= k < |ids| :: ids[k] in t
  }

  /** The requested rules with their new priorities, in the requested order. */
  function Requested(t: Table, ids: seq<int>): (r: seq<Rule>)
    requires AllExist(t, ids)
    ensures |r| == |ids|
    ensures forall k | 0 <= k < |ids| :: r[k] == t[ids[k]].(priority := k + 1)
  {
    seq(|ids|, k requires 0 <= k < |ids| => t[ids[k]].(priority := k + 1))
  }

  lemma RequestedMembers(t: Table, ids: seq<int>, r: Rule)
    requires Valid(t) && NoRepeats(ids) && AllExist(t, ids)
    ensures r in Requested(t, ids)
      <==> r.id in ids && r.id in t && Numbered(t, ids, |ids|)[r.id] == r
  {
    assert ids[..|ids|] == ids;
    if k :| 0 <= k < |ids| && Requested(t, ids)[k] == r {
      assert LastPos(ids, ids[k]) == k;
    }
    if r.id in ids && r.id in t && Numbered(t, ids, |ids|)[r.id] == r {
      assert Requested(t, ids)[LastPos(ids, r.id)] == r;
    }
  }

  /** A reorder gives the k-th of distinct ids the priority k, counted from 1, and moves nothing else. */
  lemma ReorderAssigns(t: Table, ids: seq<int>)
    requires NoRepeats(ids)
    ensures var u := Numbered(t, ids, |ids|);
            && u.Keys == t.Keys
            && (forall k | 0 <= k < |ids| && ids[k] in t :: u[ids[k]] == t[ids[k]].(priority := k + 1))
            && (forall y | y in t && y !in ids :: u[y] == t[y])
  {
    assert ids[..|ids|] == ids;
    forall k | 0 <= k < |ids| ensures LastPos(ids, ids[k]) == k {
      assert ids[LastPos(ids, ids[k])] == ids[k];
    }
  }

  /** After a reorder of distinct existing ids, with every unlisted rule above N, the evaluation
      order is the requested sequence followed by the unlisted rules in their old order. */
  lemma ReorderListing(t: Table, ids: seq<int>, l: seq<Rule>, m: seq<Rule>)
    requires Valid(t) && IsListing(l, t) && IsListing(m, Numbered(t, ids, |ids|))
    requires NoRepeats(ids) && AllExist(t, ids)
    requires forall y | y in t && y !in ids :: t[y].priority > |ids|
    ensures m == Requested(t, ids) + Unlisted(l, ids)
  {
    var u := Numbered(t, ids, |ids|);
    var tail := Unlisted(l, ids);
    UnlistedKeepsOrder(l, ids);
    forall r ensures r in Requested(t, ids) + tail <==> r.id in u && u[r.id] == r {
      RequestedMembers(t, ids, r);
      assert ids[..|ids|] == ids;
    }
    assert forall j | 0 <= j < |tail| :: tail[j] in tail;
    ListingUnique(m, Requested(t, ids) + tail, u);
  }

  lemma ListingCovers(t: Table, ids: seq<int>, l: seq<Rule>)
    requires Valid(t) && IsListing(l, t)
    requires |ids| == |l| && forall k | 0 <= k < |l| :: ids[k] == l[k].id
    ensures NoRepeats(ids) && AllExist(t, ids)
    ensures forall y | y in t :: y in ids
    ensures Unlisted(l, ids) == []
  {
    forall i, j | 0 <= i < j < |ids| ensures ids[i] != ids[j] {
      assert l[i] in l && l[j] in l && Before(l[i], l[j]);
    }
    forall k | 0 <= k < |ids| ensures ids[k] in t {
      assert l[k] in l;
    }
    forall y | y in t ensures y in ids {
      assert t[y] in l;
      var k :| 0 <= k < |l| && l[k] == t[y];
      assert ids[k] == y;
    }
    UnlistedKeepsOrder(l, ids);
    if Unlisted(l, ids) != [] {
      var r := FirstOf(Unlisted(l, ids));
      assert false;
    }
  }

  lemma RequestedSameMeaning(t: Table, ids: seq<int>, l: seq<Rule>)
    requires AllExist(t, ids) && |ids| == |l| && forall k | 0 <= k < |l| :: t[ids[k]] == l[k]
    ensures SameMeaning(Compile(Requested(t, ids)), Compile(l))
  {
  }

  /** Renumbering the rules in the order they already have changes no row's category. */
  lemma RenumberingKeepsVerdicts(t: Table, ids: seq<int>, l: seq<Rule>, m: seq<Rule>, row: RowView)
    requires Valid(t) && IsListing(l, t) && IsListing(m, Numbered(t, ids, |ids|))
    requires |ids| == |l| && forall k | 0 <= k < |l| :: ids[k] == l[k].id
    ensures CategorizeRow(row, Compile(m)) == CategorizeRow(row, Compile(l))
  {
    ListingCovers(t, ids, l);
    ReorderListing(t, ids, l, m);
    forall k | 0 <= k < |l| ensures t[ids[k]] == l[k] {
      assert l[k] in l;
    }
    assert m == Requested(t, ids);
    RequestedSameMeaning(t, ids, l);
    MatchDependsOnInputs(row, row, Compile(m), Compile(l));
  }

  ghost predicate IdsBelow(t: Table, next: int) {
    forall y | y in t :: y < next
  }

  class RuleRepo {
    var rules: Table
    var nextId: int

    constructor (stored: Table, next: int)
      ensures rules == stored && nextId == next
    {
      rules, nextId := stored, next;
    }

    /** INSERT under the UNIQUE constraint on priority. */
    method Create(priority: int, category: int, conditions: Predicate, description: Option<string>)
      returns (created: Option<Rule>)
      requires Valid(rules) && IdsBelow(rules, nextId)
      modifies this
      ensures Valid(rules) && IdsBelow(rules, nextId)
      ensures nextId == if created.Some? then old(nextId) + 1 else old(nextId)
      ensures created.Some? <==> forall y | y in old(rules) :: old(rules)[y].priority != priority
      ensures created.Some? ==> created.value == Rule(old(nextId), priority, category, conditions, description)
                                && rules == old(rules)[old(nextId) := created.value]
      ensures created.None? ==> rules == old(rules)
    {
      if y :| y in rules && rules[y].priority == priority {
        return None;
      }
      var r := Rule(nextId, priority, category, conditions, description);
      rules := rules[nextId := r];
      nextId := nextId + 1;
      created := Some(r);
    }

    /** Absent arguments leave their column alone; a priority held by another rule is refused. */
    method Update(rid: int, priority: Option<int>, category: Option<int>, conditions: Option<Predicate>,
                  description: Option<string>) returns (updated: Result<Option<Rule>, string>)
      requires Valid(rules)
      modifies this`rules
      ensures Valid(rules)
      ensures rules - {rid} == old(rules) - {rid}
      ensures rid !in old(rules) ==> updated == Success(None) && rules == old(rules)
      ensures rid in old(rules) ==>
                (updated.Failure? <==>
                   && priority.Some?
                   && exists y | y in old(rules) && y != rid :: old(rules)[y].priority == priority.value)
      ensures updated.Failure? ==> rules == old(rules)
      ensures rid in old(rules) && updated.Success? ==>
                var r := old(rules)[rid];
                rid in rules && updated.value == Some(rules[rid]) &&
                rules[rid] == Rule(rid, if priority.Some? then priority.value else r.priority,
                                   if category.Some? then category.value else r.category,
                                   if conditions.Some? then conditions.value else r.conditions,
                                   if description.Some? then description else r.description)
    {
      if rid !in rules {
        return Success(None);
      }
      var r := rules[rid];
      if priority.Some? {
        if y :| y in rules && y != rid && rules[y].priority == priority.value {
          return Failure("uq_rules_priority");
        }
        r := r.(priority := priority.value);
      }
      if category.Some? {
        r := r.(category := category.value);
      }
      if conditions.Some? {
        r := r.(conditions := conditions.value);
      }
      if description.Some? {
        r := r.(description := description);
      }
      rules := rules[rid := r];
      updated := Success(Some(r));
    }

    method Delete(rid: int)
      requires Valid(rules)
      modifies this`rules
      ensures Valid(rules) && rules == old(rules) - {rid}
    {
      rules := rules - {rid};
    }

    /** priority ASC, id ASC. */
    method ListActiveOrdered() returns (l: seq<Rule>)
      requires Valid(rules)
      ensures IsListing(l, rules)
    {
      l := [];
      var left := rules.Keys;
      while left != {}
        invariant left <= rules.Keys
        invariant forall r :: r in l <==> r.id in rules.Keys - left && rules[r.id] == r
        invariant forall i, j | 0 <= i < j < |l| :: Before(l[i], l[j])
        invariant forall r, x | r in l && x in left :: Before(r, rules[x])
        decreases |left|
      {
        var x := First(rules, left);
        l := l + [rules[x]];
        left := left - {x};
      }
    }

    /** UPDATE rules SET priority = p WHERE id = rid: nothing for an unknown id, refused when
        another rule holds p. */
    method SetPriority(rid: int, p: int) returns (ok: bool)
      modifies this`rules
      ensures ok <==> rid in old(rules) ==> forall y | y in old(rules) && y != rid :: old(rules)[y].priority != p
      ensures rules == if ok && rid in old(rules) then old(rules)[rid := old(rules)[rid].(priority := p)]
                       else old(rules)
    {
      if rid in rules {
        if y :| y in rules && y != rid && rules[y].priority == p {
          return false;
        }
        rules := rules[rid := rules[rid].(priority := p)];
      }
      ok := true;
    }

    /** Both phases in one transaction: a refused UPDATE rolls everything back. */
    method Reorder(ids: seq<int>) returns (ok: bool)
      requires Valid(rules)
      modifies this`rules
      ensures ok <==> ReorderOk(old(rules), ids)
      ensures rules == if ok then Numbered(old(rules), ids, |ids|) else old(rules)
      ensures Valid(rules)
    {
      var saved := rules;
      ok := Park(ids);
      if ok {
        NumberingStarts(saved, ids);
        ok := Number(ids, saved);
      }
      if ok {
        NumberedUnique(saved, ids, |ids|);
      } else {
        rules := saved;
      }
    }

    /** First phase: every id moves out of the way, until an UPDATE is refused. */
    method Park(ids: seq<int>) returns (ok: bool)
      modifies this`rules
      ensures ok <==> ParkingFree(old(rules), ids, |ids|)
      ensures ok ==> rules == Parked(old(rules), ids, |ids|)
    {
      ghost var saved := rules;
      assert saved == Parked(saved, ids, 0);
      for i := 0 to |ids|
        invariant rules == Parked(saved, ids, i)
        invariant ParkingFree(saved, ids, i)
      {
        var done := SetPriority(ids[i], OFFSET + ids[i]);
        if !done {
          ParkRefused(saved, ids, i);
          return false;
        }
        ParkAccepted(saved, ids, i);
      }
      ok := true;
    }

    /** Second phase, on the table the first one made of `saved`: every id gets its number. */
    method Number(ids: seq<int>, ghost saved: Table) returns (ok: bool)
      requires rules == Numbered(saved, ids, 0)
      modifies this`rules
      ensures ok <==> NumberingFree(saved, ids, |ids|)
      ensures ok ==> rules == Numbered(saved, ids, |ids|)
    {
      for k := 0 to |ids|
        invariant rules == Numbered(saved, ids, k)
        invariant NumberingFree(saved, ids, k)
      {
        var done := SetPriority(ids[k], k + 1);
        if !done {
          NumberRefused(saved, ids, k);
          return false;
        }
        NumberAccepted(saved, ids, k);
      }
      ok := true;
    }
  }

  ghost predicate Holder(t: Table, rid: int, p: int) {
    rid in t && exists y | y in t && y != rid :: t[y].priority == p
  }

  lemma ParkRefused(t: Table, ids: seq<int>, i: nat)
    requires i < |ids| && Holder(Parked(t, ids, i), ids[i], OFFSET + ids[i])
    ensures !ParkingFree(t, ids, |ids|)
  {
    var y :| y in t && y != ids[i] && Parked(t, ids, i)[y].priority == OFFSET + ids[i];
    assert y !in ids[..i];
  }

  lemma ParkAccepted(t: Table, ids: seq<int>, i: nat)
    requires i < |ids| && !Holder(Parked(t, ids, i), ids[i], OFFSET + ids[i])
    ensures var p := Parked(t, ids, i);
            Parked(t, ids, i + 1) == if ids[i] in p then p[ids[i] := p[ids[i]].(priority := OFFSET + ids[i])] else p
    ensures ParkingFree(t, ids, i) ==> ParkingFree(t, ids, i + 1)
  {
    var p := Parked(t, ids, i);
    forall y | y in t ensures ParkedPriority(t, ids, i + 1, y) == if y == ids[i] then OFFSET + y else p[y].priority {
      ParkStep(t, ids, i, y);
    }
    forall y | ids[i] in t && y in t && y != ids[i] && y !in ids[..i] ensures t[y].priority != OFFSET + ids[i] {
      assert p[y].priority == t[y].priority;
    }
  }

  lemma NumberRefused(t: Table, ids: seq<int>, k: nat)
    requires k < |ids| && Holder(Numbered(t, ids, k), ids[k], k + 1)
    ensures !NumberingFree(t, ids, |ids|)
  {
    var y :| y in t && y != ids[k] && Numbered(t, ids, k)[y].priority == k + 1;
    assert ids[..|ids|] == ids;
    assert y !in ids[..k];
  }

  lemma NumberAccepted(t: Table, ids: seq<int>, k: nat)
    requires k < |ids| && !Holder(Numbered(t, ids, k), ids[k], k + 1)
    ensures var p := Numbered(t, ids, k);
            Numbered(t, ids, k + 1) == if ids[k] in p then p[ids[k] := p[ids[k]].(priority := k + 1)] else p
    ensures NumberingFree(t, ids, k) ==> NumberingFree(t, ids, k + 1)
  {
    var p := Numbered(t, ids, k);
    forall y | y in t ensures NumberedPriority(t, ids, k + 1, y) == if y == ids[k] then k + 1 else p[y].priority {
      NumberStep(t, ids, k, y);
    }
    if NumberingFree(t, ids, k) {
      NumberFree(t, ids, k);
    }
  }

  lemma NumberFree(t: Table, ids: seq<int>, k: nat)
    requires k < |ids| && !Holder(Numbered(t, ids, k), ids[k], k + 1) && NumberingFree(t, ids, k)
    ensures NumberingFree(t, ids, k + 1)
  {
    var p := Numbered(t, ids, k);
    assert ids[..|ids|] == ids;
    forall y | ids[k] in t && y in t && y != ids[k] && y !in ids[..k]
      ensures (if y in ids then OFFSET + y else t[y].priority) != k + 1
    {
      assert p[y].priority == if y in ids then OFFSET + y else t[y].priority;
    }
  }

  /** The first rule of a non-empty set of ids, found by scanning. */
  method First(t: Table, ids: set<int>) returns (x: int)
    requires Valid(t) && ids != {} && ids <= t.Keys
    ensures x in ids && forall y | y in ids && y != x :: Before(t[x], t[y])
  {
    ghost var some := Member(ids);
    x :| x in ids;
    var left := ids - {x};
    while left != {}
      invariant left <= ids && x in ids
      invariant forall y | y in ids - left && y != x :: Before(t[x], t[y])
      decreases |left|
    {
      var y :| y in left;
      if Before(t[y], t[x]) {
        x := y;
      }
      left := left - {y};
    }
  }
}
