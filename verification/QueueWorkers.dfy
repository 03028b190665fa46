/**
 How the retry scheduler divides its workers among groups (util/queue.go, NewGQueue and
 getNumberFromPercent). Shares are tenths of MaxWorkers.
 */
module QueueWorkers {
  import RetryQueue

  const DEFAULT_WORKERS: nat := 10
  const DEFAULT_SHARE: int := 6

  datatype Options = Options(maxWorkers: int, maxRetry: int, groups: map<int, int>)

  /** Slots for a share of total: a share outside 1..10 counts as 1, and every group gets a slot. */
  function NumberFromPercent(total: int, percent: int): (slots: nat)
    ensures slots >= 1
  {
    var share := if percent > 10 || percent < 1 then 1 else percent;
    var v := total * share / 10;
    if v < 1 then 1 else v
  }

  function Workers(opt: Options): int {
    if opt.maxWorkers <= 0 then DEFAULT_WORKERS else opt.maxWorkers
  }

  /** The groups a queue ends up with: group 1 is always there, with a usable share. */
  function FinalGroups(groups: map<int, int>): map<int, int> {
    if groups == map[] then map[1 := 6, 2 := 3, 3 := 1]
    else if 1 !in groups || groups[1] < 1 then groups[1 := DEFAULT_SHARE]
    else groups
  }

  function Slots(total: int, groups: map<int, int>): map<int, nat> {
    map g | g in groups :: NumberFromPercent(total, groups[g])
  }

  /** Visits every group once, in any order. */
  method MakeWorkers(maxWorkers: int, groups: map<int, int>) returns (workers: map<int, nat>)
    ensures workers == Slots(maxWorkers, groups)
  {
    workers := map[];
    var todo := groups.Items;
    while todo != {}
      invariant todo <= groups.Items
      invariant workers == map g | g in groups && (g, groups[g]) !in todo :: NumberFromPercent(maxWorkers, groups[g])
      decreases |todo|
    {
      var kv :| kv in todo;
      workers := workers[kv.0 := NumberFromPercent(maxWorkers, kv.1)];
      todo := todo - {kv};
    }
  }

  /** The scheduler's configuration is valid for every option, so its runs cannot deadlock. */
  method NewGQueue(opt: Options, delay: (nat, nat) -> int) returns (cfg: RetryQueue.Config)
    ensures cfg.Valid()
    ensures cfg.caps == Slots(Workers(opt), FinalGroups(opt.groups))
    ensures cfg.channelCap == Workers(opt)
    ensures cfg.maxRetry == if opt.maxRetry < 1 then 1 else opt.maxRetry
    ensures cfg.delay == delay
  {
    var maxWorkers := opt.maxWorkers;
    if maxWorkers <= 0 {
      maxWorkers := DEFAULT_WORKERS;
    }
    var maxRetry := opt.maxRetry;
    if maxRetry < 1 {
      maxRetry := 1;
    }
    var groups := opt.groups;
    if |groups| < 1 {
      groups := map[1 := 6, 2 := 3, 3 := 1];
    }
    if 1 !in groups {
      groups := groups[1 := DEFAULT_SHARE];
    }
    if groups[1] < 1 {
      groups := groups[1 := DEFAULT_SHARE];
    }
    var workers := MakeWorkers(maxWorkers, groups);
    cfg := RetryQueue.Config(workers, maxWorkers, 100, maxRetry, delay);
  }

  // ---------- How far rounding up exceeds MaxWorkers ----------

  ghost function Sum(m: map<int, int>): int {
    if m.Items == {} then 0 else
      var kv :| kv in m.Items;
      kv.1 + Sum(m - {kv.0})
  }

  /** The sum does not depend on the order of the keys. */
  lemma {:induction false} SumWithout(m: map<int, int>, k: int)
    requires k in m
    ensures Sum(m) == m[k] + Sum(m - {k})
    decreases |m|
  {
    assert (k, m[k]) in m.Items;
    var kv :| kv in m.Items && Sum(m) == kv.1 + Sum(m - {kv.0});
    var k0 := kv.0;
    if k0 != k {
      SumWithout(m - {k0}, k);
      SumWithout(m - {k}, k0);
      assert m - {k0} - {k} == m - {k} - {k0};
    }
  }

  predicate Shares(groups: map<int, int>) {
    forall g | g in groups :: 1 <= groups[g] <= 10
  }

  /** Every group's share of total, in tenths of a slot. */
  function Tenths(total: nat, groups: map<int, int>): map<int, int> {
    map g | g in groups :: total * groups[g]
  }

  /** slots for groups with these tenths: a slot each, or at most the tenths plus one group's rounding for all but one. */
  predicate Rounded(tenths: int, slots: int, groups: nat) {
    tenths >= 0 && (slots == groups || 10 * slots <= tenths + 10 * (groups - 1))
  }

  /** A slot, or no more slots than the tenths pay for. */
  predicate RoundedOne(tenths: int, slots: int) {
    tenths >= 0 && (slots == 1 || 10 * slots <= tenths)
  }

  lemma AddGroup(tenths: int, slots: int, groups: nat, more: int, n: int)
    requires Rounded(tenths, slots, groups) && RoundedOne(more, n)
    ensures Rounded(tenths + more, slots + n, groups + 1)
  {
  }

  lemma {:induction false} SumRounded(tenths: map<int, int>, slots: map<int, int>)
    requires tenths.Keys == slots.Keys && forall g | g in tenths :: RoundedOne(tenths[g], slots[g])
    ensures Rounded(Sum(tenths), Sum(slots), |tenths.Keys|)
    decreases |tenths|
  {
    if tenths.Items == {} {
      assert tenths.Keys == {} && slots.Items == {};
    } else {
      var kv :| kv in tenths.Items;
      var k := kv.0;
      SumRounded(tenths - {k}, slots - {k});
      SumWithout(tenths, k);
      SumWithout(slots, k);
      assert tenths.Keys == (tenths - {k}).Keys + {k};
      AddGroup(Sum(tenths - {k}), Sum(slots - {k}), |(tenths - {k}).Keys|, tenths[k], slots[k]);
    }
  }

  lemma RoundedUp(total: nat, groups: map<int, int>)
    requires Shares(groups)
    ensures Rounded(Sum(Tenths(total, groups)), Sum(Slots(total, groups)), |groups|)
  {
    forall g | g in groups ensures RoundedOne(Tenths(total, groups)[g], Slots(total, groups)[g]) {
      ShareHonoured(total, groups[g]);
    }
    assert Tenths(total, groups).Keys == groups.Keys;
    SumRounded(Tenths(total, groups), Slots(total, groups));
  }

  lemma WithoutGroup(total: nat, groups: map<int, int>, k: int)
    requires k in groups
    ensures Sum(Tenths(total, groups)) == Tenths(total, groups)[k] + Sum(Tenths(total, groups - {k}))
  {
    SumWithout(Tenths(total, groups), k);
    assert Tenths(total, groups) - {k} == Tenths(total, groups - {k});
  }

  lemma {:induction false} SumOfTenths(total: nat, groups: map<int, int>)
    ensures Sum(Tenths(total, groups)) == total * Sum(groups)
    decreases |groups|
  {
    if groups.Items == {} {
      assert Tenths(total, groups).Items == {};
    } else {
      var kv :| kv in groups.Items;
      var rest, share := groups - {kv.0}, groups[kv.0];
      calc {
        Sum(Tenths(total, groups));
        { WithoutGroup(total, groups, kv.0); }
        total * share + Sum(Tenths(total, rest));
        { SumOfTenths(total, rest); }
        total * share + total * Sum(rest);
        { Distribute(total, share, Sum(rest)); }
        total * (share + Sum(rest));
        { SumWithout(groups, kv.0); }
        total * Sum(groups);
      }
    }
  }

  lemma Distribute(a: int, b: int, c: int)
    ensures a * (b + c) == a * b + a * c
  {
  }

  /** A group gets its share of total rounded down, but never less than one slot. */
  lemma ShareHonoured(total: nat, share: int)
    requires 1 <= share <= 10
    ensures var slots := NumberFromPercent(total, share);
            (slots == 1 || 10 * slots <= total * share) && total * share < 10 * (slots + 1)
  {
  }

  /** A share that makes no sense counts as one tenth. */
  lemma OddShareCountsAsOne(total: int, share: int)
    requires !(1 <= share <= 10)
    ensures NumberFromPercent(total, share) == NumberFromPercent(total, 1)
  {
  }

  /** With shares in 1..10 that sum to at most 10, k groups have at most total + k - 1 slots in all. */
  lemma SlotsBounded(total: nat, groups: map<int, int>)
    requires total >= 1 && groups != map[] && Shares(groups) && Sum(groups) <= 10
    ensures Sum(Slots(total, groups)) <= total + |groups| - 1
  {
    RoundedUp(total, groups);
    SumOfTenths(total, groups);
    TimesMonotone(total, Sum(groups), 10);
  }

  lemma TimesMonotone(a: nat, b: int, c: int)
    requires b <= c
    ensures a * b <= a * c
  {
  }
}
