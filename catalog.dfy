/**
 * The achievement catalog ACHIEVEMENTS (app.py:113-325): 100 tiered entries
 * built by ten loops over i = 1..10, then 15 player-status entries, two of
 * which take their max_progress from the length of the partly built list.
 * Display text (name, description, icon) is not part of the model.
 */
module Catalog {
  import opened Wrappers
  import opened Strings

  datatype Definition = Definition(id: string, maxProgress: int, hidden: bool)

  /** How a tier's max_progress grows with i: i * step, or a fixed value. */
  datatype Growth = Scaled(step: nat) | Fixed(value: nat)

  /** One of the ten tier loops: id f"{prefix}{idStep * i}". */
  datatype Tier = Tier(prefix: string, idStep: nat, max: Growth)

  /** Entries per tier loop (range(1, 11)). */
  const TierSize: nat := 10

  const Tiers: seq<Tier> := [
    Tier("correct_", 10, Scaled(10)),
    Tier("streak_", 5, Scaled(5)),
    Tier("speed_", 1, Scaled(5)),
    Tier("monster_", 1, Scaled(1)),
    Tier("perfect_", 1, Scaled(1)),
    Tier("games_", 1, Scaled(10)),
    Tier("category_", 1, Scaled(10)),
    Tier("comeback_", 1, Scaled(5)),
    Tier("accuracy_", 1, Scaled(10)),
    Tier("rare_", 1, Fixed(1))
  ]

  /** The 15 player-status entries; `total` is what len(ACHIEVEMENTS) + 15 evaluates to. */
  function StatusEntries(total: int): seq<Definition> {
    [ Definition("collector", 10, false),
      Definition("completionist", total, false),
      Definition("speedrunner", 1, false),
      Definition("perfectionist", 1, false),
      Definition("grinder", 100, false),
      Definition("casual", 1, true),
      Definition("hardcore", 10, false),
      Definition("newbie", 1, false),
      Definition("veteran", 500, false),
      Definition("legend", 1, false),
      Definition("myth", total, false),
      Definition("immortal", 1, false),
      Definition("unstoppable", 1, false),
      Definition("omniscient", 10, false),
      Definition("ai_whisperer", 5, false) ]
  }

  const StatusCount: nat := 15

  function TierMax(t: Tier, i: nat): nat {
    match t.max
    case Scaled(step) => step * i
    case Fixed(v) => v
  }

  /** The entry the loop of tier t appends for i. */
  function TierEntry(t: Tier, i: nat): Definition {
    Definition(t.prefix + Decimal(t.idStep * i), TierMax(t, i), false)
  }

  /** Entry k of the first phase: tier k / 10, loop value k % 10 + 1. */
  function Ranked(k: nat): Definition
    requires k < |Tiers| * TierSize
  {
    TierEntry(Tiers[k / TierSize], k % TierSize + 1)
  }

  /** The first phase: the ten tier loops, in order. */
  function Tiered(): (r: seq<Definition>)
    ensures |r| == |Tiers| * TierSize
  {
    seq(|Tiers| * TierSize, k requires 0 <= k < |Tiers| * TierSize => Ranked(k))
  }

  /** ACHIEVEMENTS once both phases have run. */
  function Defs(): seq<Definition> {
    var first := Tiered();
    first + StatusEntries(|first| + StatusCount)
  }

  /** The module-level construction: append loops, then the extend whose entries read len(ACHIEVEMENTS). */
  method Build() returns (c: seq<Definition>)
    ensures c == Defs()
  {
    c := [];
    for t := 0 to |Tiers|
      invariant |c| == TierSize * t
      invariant forall k :: 0 <= k < |c| ==> c[k] == Ranked(k)
    {
      for i := 1 to TierSize + 1
        invariant |c| == TierSize * t + i - 1
        invariant forall k :: 0 <= k < |c| ==> c[k] == Ranked(k)
      {
        var k := |c|;
        assert k / TierSize == t && k % TierSize + 1 == i;
        c := c + [TierEntry(Tiers[t], i)];
      }
    }
    assert c == Tiered();
    c := c + StatusEntries(|c| + StatusCount);
  }

  predicate DistinctIds(defs: seq<Definition>) {
    forall a, b :: 0 <= a < b < |defs| ==> defs[a].id != defs[b].id
  }

  /** The first definition with the given id. */
  function Lookup(defs: seq<Definition>, id: string): (r: Option<Definition>)
    ensures r.Some? ==> r.value in defs && r.value.id == id
    ensures r.None? <==> forall k :: 0 <= k < |defs| ==> defs[k].id != id
  {
    if defs == [] then None
    else if defs[0].id == id then Some(defs[0])
    else Lookup(defs[1..], id)
  }

  /** The ids a catalog defines. */
  function Ids(defs: seq<Definition>): (r: set<string>)
    ensures forall id :: id in r <==> exists k :: 0 <= k < |defs| && defs[k].id == id
  {
    set k | 0 <= k < |defs| :: defs[k].id
  }

  const Collector := "collector"
  const Completionist := "completionist"
  const Myth := "myth"

  /** What the achievement store needs of a catalog: unique ids, including the three collective ones. */
  predicate WellFormed(defs: seq<Definition>) {
    DistinctIds(defs) && Collector in Ids(defs) && Completionist in Ids(defs) && Myth in Ids(defs)
  }

  // ---- distinctness of the ids ----

  /** Where the trailing run of digits of s begins. */
  function DigitsStart(s: string): (r: nat)
    ensures r <= |s|
  {
    if s != [] && IsDigit(s[|s| - 1]) then DigitsStart(s[..|s| - 1]) else |s|
  }

  /** For a prefix ending in a non-digit, followed by digits only, the digits start right after it. */
  lemma {:induction false} DigitsStartOfTagged(p: string, d: string)
    requires p != [] && !IsDigit(p[|p| - 1])
    requires forall i :: 0 <= i < |d| ==> IsDigit(d[i])
    ensures DigitsStart(p + d) == |p|
    decreases |d|
  {
    if d == [] {
      assert p + d == p;
    } else {
      assert (p + d)[..|p + d| - 1] == p + d[..|d| - 1];
      DigitsStartOfTagged(p, d[..|d| - 1]);
    }
  }

  lemma TierPrefixesDistinct(t1: nat, t2: nat)
    requires t1 < |Tiers| && t2 < |Tiers| && Tiers[t1].prefix == Tiers[t2].prefix
    ensures t1 == t2
  {
  }

  lemma TierPrefixShape(t: nat)
    requires t < |Tiers|
    ensures Tiers[t].prefix != [] && Tiers[t].prefix[|Tiers[t].prefix| - 1] == '_'
    ensures Tiers[t].idStep >= 1
  {
  }

  /** Two loop values of the tier loops that give the same id are the same. */
  lemma TierIdInjective(t1: nat, i1: nat, t2: nat, i2: nat)
    requires t1 < |Tiers| && t2 < |Tiers|
    requires TierEntry(Tiers[t1], i1).id == TierEntry(Tiers[t2], i2).id
    ensures t1 == t2 && i1 == i2
  {
    var p1, p2 := Tiers[t1].prefix, Tiers[t2].prefix;
    var n1, n2 := Tiers[t1].idStep * i1, Tiers[t2].idStep * i2;
    TierPrefixShape(t1);
    TierPrefixShape(t2);
    DigitsStartOfTagged(p1, Decimal(n1));
    DigitsStartOfTagged(p2, Decimal(n2));
    var s := p1 + Decimal(n1);
    assert p1 == s[..|p1|] && p2 == s[..|p2|];
    TierPrefixesDistinct(t1, t2);
    assert Decimal(n1) == s[|p1|..] == Decimal(n2);
    DecimalInjective(n1, n2);
    MulCancel(Tiers[t1].idStep, i1, i2);
  }

  lemma MulCancel(k: nat, x: nat, y: nat)
    requires k >= 1 && k * x == k * y
    ensures x == y
  {
    assert k * (x - y) == 0;
  }

  /** Two tiered entries with the same id are the same entry. */
  lemma RankedInjective(a: nat, b: nat)
    requires a < |Tiers| * TierSize && b < |Tiers| * TierSize
    requires Ranked(a).id == Ranked(b).id
    ensures a == b
  {
    TierIdInjective(a / TierSize, a % TierSize + 1, b / TierSize, b % TierSize + 1);
  }

  lemma StatusIdsDistinct(total: int, i: nat, j: nat)
    requires i < StatusCount && j < StatusCount
    requires StatusEntries(total)[i].id == StatusEntries(total)[j].id
    ensures i == j
  {
  }

  /** Tiered ids end in a digit, status ids do not. */
  lemma LastCharOfId(k: nat)
    requires k < |Defs()|
    ensures Defs()[k].id != []
    ensures IsDigit(Defs()[k].id[|Defs()[k].id| - 1]) <==> k < |Tiered()|
  {
    if k < |Tiered()| {
      var t := Tiers[k / TierSize];
      var d := Decimal(t.idStep * (k % TierSize + 1));
      assert Defs()[k].id == t.prefix + d;
    } else {
      var e := StatusEntries(|Tiered()| + StatusCount);
      assert Defs()[k] == e[k - |Tiered()|];
    }
  }

  /** The catalog has 115 entries and no id appears twice. */
  lemma DefsDistinct()
    ensures |Defs()| == 115
    ensures DistinctIds(Defs())
  {
    var defs := Defs();
    forall a, b | 0 <= a < b < |defs| ensures defs[a].id != defs[b].id {
      if defs[a].id == defs[b].id {
        LastCharOfId(a);
        LastCharOfId(b);
        if b < |Tiered()| {
          RankedInjective(a, b);
        } else if a >= |Tiered()| {
          StatusIdsDistinct(|Tiered()| + StatusCount, a - |Tiered()|, b - |Tiered()|);
        }
      }
    }
  }

  /** Every catalog entry can be completed: max_progress is at least 1. */
  lemma MaxPositive(k: nat)
    requires k < |Defs()|
    ensures Defs()[k].maxProgress >= 1
  {
    if k < |Tiered()| {
      var t := k / TierSize;
      assert Defs()[k] == TierEntry(Tiers[t], k % TierSize + 1);
    } else {
      assert Defs()[k] == StatusEntries(|Tiered()| + StatusCount)[k - |Tiered()|];
    }
  }

  /**
   * The three collective entries: collector asks for 10 unlocks, completionist and myth for
   * as many unlocks as the catalog has entries; and the catalog is well formed.
   */
  lemma CollectiveEntries()
    ensures WellFormed(Defs())
    ensures Lookup(Defs(), Collector) == Some(Definition(Collector, 10, false))
    ensures Lookup(Defs(), Completionist) == Some(Definition(Completionist, |Defs()|, false))
    ensures Lookup(Defs(), Myth) == Some(Definition(Myth, |Defs()|, false))
  {
    DefsDistinct();
    var n := |Tiered()|;
    var defs := Defs();
    assert defs[n] == Definition(Collector, 10, false);
    assert defs[n + 1] == Definition(Completionist, 115, false);
    assert defs[n + 10] == Definition(Myth, 115, false);
    LookupDistinct(defs, n);
    LookupDistinct(defs, n + 1);
    LookupDistinct(defs, n + 10);
  }

  /** In a catalog with distinct ids, looking up an entry's id finds that entry. */
  lemma LookupDistinct(defs: seq<Definition>, k: nat)
    requires DistinctIds(defs) && k < |defs|
    ensures Lookup(defs, defs[k].id) == Some(defs[k])
  {
    if k > 0 {
      assert defs[0].id != defs[k].id;
      LookupDistinct(defs[1..], k - 1);
    }
  }
}
