/**
 * The per-player achievement records kept in achievements.json and the rules that change
 * them: seeding from the catalog (load_achievements, app.py:672-707), a single progress
 * update (update_achievement, app.py:715-745) and the collective pass
 * (check_collective_achievements, app.py:747-765). The functions here give the file's
 * contents after each operation; the Storage class runs the operations step by step.
 */
module Achievements {
  import opened Wrappers
  import opened Strings
  import opened Catalog

  /** One record {unlocked, progress, max, unlocked_date}. */
  datatype Record = Record(unlocked: bool, progress: int, max: int, unlockedDate: Option<string>)

  /** One player's records, keyed by achievement id. */
  type PlayerData = map<string, Record>

  /** The whole file: player name to records. */
  type Store = map<string, PlayerData>

  /** The record load_achievements creates for a definition the player lacks. */
  function Fresh(d: Definition): Record {
    Record(false, 0, d.maxProgress, None)
  }

  // ---- seeding (load_achievements) ----

  /** One iteration of the seeding loop: create the record, or patch its max, or leave it. */
  function SeedOne(p: PlayerData, d: Definition): PlayerData {
    if d.id !in p then p[d.id := Fresh(d)]
    else if p[d.id].max != d.maxProgress then p[d.id := p[d.id].(max := d.maxProgress)]
    else p
  }

  /** The player's records after the seeding loop has run over defs. */
  function Seeded(p: PlayerData, defs: seq<Definition>): PlayerData
    decreases |defs|
  {
    if defs == [] then p else SeedOne(Seeded(p, defs[..|defs| - 1]), defs[|defs| - 1])
  }

  /** The loop sets `modified` for a definition the player lacks or whose max differs. */
  predicate Stale(p: PlayerData, d: Definition) {
    d.id !in p || p[d.id].max != d.maxProgress
  }

  predicate NeedsSeed(p: PlayerData, defs: seq<Definition>) {
    exists k :: 0 <= k < |defs| && Stale(p, defs[k])
  }

  lemma DistinctPrefix(defs: seq<Definition>, n: nat)
    requires DistinctIds(defs) && n <= |defs|
    ensures DistinctIds(defs[..n])
    ensures forall k :: n <= k < |defs| ==> defs[k].id !in Ids(defs[..n])
  {
    forall k | n <= k < |defs| ensures defs[k].id !in Ids(defs[..n]) {
      forall j | 0 <= j < n ensures defs[..n][j].id != defs[k].id {
        assert defs[..n][j] == defs[j];
      }
    }
  }

  /** One step of the loop: only d's id changes, to a patched or a fresh record. */
  lemma SeedOneSpec(q: PlayerData, d: Definition)
    ensures SeedOne(q, d).Keys == q.Keys + {d.id}
    ensures SeedOne(q, d)[d.id] == if d.id in q then q[d.id].(max := d.maxProgress) else Fresh(d)
    ensures forall id :: id in q && id != d.id ==> SeedOne(q, d)[id] == q[id]
  {
  }

  /** The record seeding leaves for a catalog definition, given the records before. */
  function Expected(p: PlayerData, d: Definition): Record {
    if d.id in p then p[d.id].(max := d.maxProgress) else Fresh(d)
  }

  lemma {:induction false} SeededKeys(p: PlayerData, defs: seq<Definition>)
    ensures Seeded(p, defs).Keys == p.Keys + Ids(defs)
    decreases |defs|
  {
    if defs != [] {
      var n := |defs| - 1;
      SeededKeys(p, defs[..n]);
      SeedOneSpec(Seeded(p, defs[..n]), defs[n]);
      IdsSnoc(defs);
    }
  }

  lemma IdsSnoc(defs: seq<Definition>)
    requires defs != []
    ensures Ids(defs) == Ids(defs[..|defs| - 1]) + {defs[|defs| - 1].id}
  {
    var n := |defs| - 1;
    forall id | id in Ids(defs) ensures id in Ids(defs[..n]) + {defs[n].id} {
      var j :| 0 <= j < |defs| && defs[j].id == id;
      if j < n { assert defs[..n][j].id == id; }
    }
  }

  /** A catalog defines at most as many ids as it has entries. */
  lemma {:induction false} IdsBound(defs: seq<Definition>)
    ensures |Ids(defs)| <= |defs|
    decreases |defs|
  {
    if defs != [] {
      IdsSnoc(defs);
      IdsBound(defs[..|defs| - 1]);
    }
  }

  lemma {:induction false} SeededOutside(p: PlayerData, defs: seq<Definition>, id: string)
    requires id in p && id !in Ids(defs)
    ensures id in Seeded(p, defs) && Seeded(p, defs)[id] == p[id]
    decreases |defs|
  {
    if defs != [] {
      var n := |defs| - 1;
      assert defs[n].id in Ids(defs);
      assert id !in Ids(defs[..n]) by {
        forall j | 0 <= j < n ensures defs[..n][j].id != id {
          assert defs[..n][j] == defs[j];
        }
      }
      SeededKeys(p, defs[..n]);
      SeededOutside(p, defs[..n], id);
      SeedOneSpec(Seeded(p, defs[..n]), defs[n]);
    }
  }

  lemma {:induction false} SeededAt(p: PlayerData, defs: seq<Definition>, k: nat)
    requires DistinctIds(defs) && k < |defs|
    ensures defs[k].id in Seeded(p, defs) && Seeded(p, defs)[defs[k].id] == Expected(p, defs[k])
    decreases |defs|
  {
    var n := |defs| - 1;
    DistinctPrefix(defs, n);
    var q := Seeded(p, defs[..n]);
    SeedOneSpec(q, defs[n]);
    if k == n {
      if defs[n].id in p {
        SeededOutside(p, defs[..n], defs[n].id);
      } else {
        SeededKeys(p, defs[..n]);
      }
    } else {
      assert defs[..n][k] == defs[k];
      SeededAt(p, defs[..n], k);
      SeededKeys(p, defs[..n]);
      assert defs[k].id != defs[n].id;
    }
  }

  /**
   * What seeding does: every catalog id is present afterwards; a missing record is created
   * locked with progress 0, the catalog max and no date; an existing one keeps unlocked,
   * progress and date and only gets the catalog max (no unlock re-check); records of
   * non-catalog ids are untouched.
   */
  lemma SeededSpec(p: PlayerData, defs: seq<Definition>)
    requires DistinctIds(defs)
    ensures Seeded(p, defs).Keys == p.Keys + Ids(defs)
    ensures forall k :: 0 <= k < |defs| && defs[k].id !in p ==>
      Seeded(p, defs)[defs[k].id] == Record(false, 0, defs[k].maxProgress, None)
    ensures forall k :: 0 <= k < |defs| && defs[k].id in p ==>
      Seeded(p, defs)[defs[k].id] == p[defs[k].id].(max := defs[k].maxProgress)
    ensures forall id :: id in p && id !in Ids(defs) ==> Seeded(p, defs)[id] == p[id]
  {
    SeededKeys(p, defs);
    forall k | 0 <= k < |defs| ensures Seeded(p, defs)[defs[k].id] == Expected(p, defs[k]) {
      SeededAt(p, defs, k);
    }
    forall id | id in p && id !in Ids(defs) ensures Seeded(p, defs)[id] == p[id] {
      SeededOutside(p, defs, id);
    }
  }

  /** The loop finds something to create or patch exactly when the stored records change. */
  lemma NeedsSeedChanges(p: PlayerData, defs: seq<Definition>)
    requires DistinctIds(defs)
    ensures NeedsSeed(p, defs) <==> Seeded(p, defs) != p
  {
    SeededSpec(p, defs);
    var r := Seeded(p, defs);
    if NeedsSeed(p, defs) {
      var k :| 0 <= k < |defs| && Stale(p, defs[k]);
      if defs[k].id in p {
        assert r[defs[k].id].max != p[defs[k].id].max;
      }
    } else {
      forall id | id in Ids(defs) ensures id in p && r[id] == p[id] {
        var k :| 0 <= k < |defs| && defs[k].id == id;
        assert !Stale(p, defs[k]);
      }
      assert r.Keys == p.Keys;
    }
  }

  /** Seeding twice is seeding once, and the second pass writes nothing. */
  lemma SeededIdempotent(p: PlayerData, defs: seq<Definition>)
    requires DistinctIds(defs)
    ensures !NeedsSeed(Seeded(p, defs), defs)
    ensures Seeded(Seeded(p, defs), defs) == Seeded(p, defs)
  {
    var q := Seeded(p, defs);
    SeededSpec(p, defs);
    forall k | 0 <= k < |defs| ensures !Stale(q, defs[k]) {
      assert defs[k].id in Ids(defs);
    }
    NeedsSeedChanges(q, defs);
  }

  /** The seeding loop of load_achievements, with its `modified` flag. */
  method SeedRecords(base: PlayerData, defs: seq<Definition>) returns (p: PlayerData, modified: bool)
    requires DistinctIds(defs)
    ensures p == Seeded(base, defs)
    ensures modified <==> NeedsSeed(base, defs)
  {
    p := base;
    modified := false;
    for k := 0 to |defs|
      invariant p == Seeded(base, defs[..k])
      invariant modified <==> NeedsSeed(base, defs[..k])
    {
      assert defs[..k + 1][..k] == defs[..k];
      StaleAtStep(base, defs, k);
      NeedsSeedSnoc(base, defs, k);
      var d := defs[k];
      if d.id !in p {
        p := p[d.id := Record(false, 0, d.maxProgress, None)];
        modified := true;
      } else if p[d.id].max != d.maxProgress {
        p := p[d.id := p[d.id].(max := d.maxProgress)];
        modified := true;
      }
    }
    assert defs[..|defs|] == defs;
  }

  /** The flag after k + 1 iterations: set before, or set by iteration k. */
  lemma NeedsSeedSnoc(p: PlayerData, defs: seq<Definition>, k: nat)
    requires k < |defs|
    ensures NeedsSeed(p, defs[..k + 1]) <==> NeedsSeed(p, defs[..k]) || Stale(p, defs[k])
  {
    assert defs[..k + 1][k] == defs[k];
    if NeedsSeed(p, defs[..k + 1]) {
      var j :| 0 <= j < k + 1 && Stale(p, defs[..k + 1][j]);
      if j < k { assert defs[..k][j] == defs[..k + 1][j]; }
    }
    if NeedsSeed(p, defs[..k]) {
      var j :| 0 <= j < k && Stale(p, defs[..k][j]);
      assert defs[..k + 1][j] == defs[..k][j];
    }
  }

  /** With distinct ids, whether step k finds a stale record does not depend on the steps before it. */
  lemma StaleAtStep(p: PlayerData, defs: seq<Definition>, k: nat)
    requires DistinctIds(defs) && k < |defs|
    ensures Stale(Seeded(p, defs[..k]), defs[k]) <==> Stale(p, defs[k])
  {
    DistinctPrefix(defs, k);
    SeededSpec(p, defs[..k]);
  }

  // ---- one update (update_achievement) ----

  /** force_progress when given, otherwise the old progress plus the increment. */
  function NewProgress(r: Record, inc: int, force: Option<int>): int {
    if force.Some? then force.value else r.progress + inc
  }

  /** The update changes the record: it is locked and its progress actually moves. */
  predicate Moves(r: Record, inc: int, force: Option<int>) {
    !r.unlocked && NewProgress(r, inc, force) != r.progress
  }

  /** The record after a moving update: new progress, unlocked with the date once at max. */
  function Advanced(r: Record, inc: int, force: Option<int>, date: string): Record {
    var n := NewProgress(r, inc, force);
    if n >= r.max then Record(true, n, r.max, Some(date)) else r.(progress := n)
  }

  /** The record after an update: advanced if the update moves it, otherwise as it was. */
  function Stepped(r: Record, inc: int, force: Option<int>, date: string): Record {
    if Moves(r, inc, force) then Advanced(r, inc, force, date) else r
  }

  /** A stored player's update, without the collective pass (what a skip_collective call does). */
  function Touch(s: Store, player: string, id: string, inc: int, force: Option<int>, date: string): (r: Store)
    requires player in s
    ensures r.Keys == s.Keys && forall q :: q in s ==> r[q].Keys == s[q].Keys
  {
    if id in s[player] && Moves(s[player][id], inc, force)
    then s[player := s[player][id := Advanced(s[player][id], inc, force, date)]]
    else s
  }

  /** The ids whose records are unlocked. */
  function UnlockedIds(p: PlayerData): (r: set<string>)
    ensures r <= p.Keys
  {
    set id | id in p && p[id].unlocked
  }

  /** sum(1 for a in player_achs.values() if a["unlocked"]) */
  function UnlockedCount(p: PlayerData): nat {
    |UnlockedIds(p)|
  }

  predicate HasCollective(p: PlayerData) {
    Collector in p && Completionist in p && Myth in p
  }

  /** Every stored player carries the collective records. */
  predicate AllCollective(s: Store) {
    forall q :: q in s ==> HasCollective(s[q])
  }

  function Min(a: int, b: int): int {
    if a <= b then a else b
  }

  /**
   * The collective pass over the file contents s. The three conditions read the records and
   * the count as they were when the pass started; each forced update reads the file as the
   * previous one left it.
   */
  function Collective(s: Store, player: string, total: int, date: string): (r: Store)
    requires player in s && HasCollective(s[player])
    ensures r.Keys == s.Keys && forall q :: q in s ==> r[q].Keys == s[q].Keys
  {
    var p := s[player];
    var count := UnlockedCount(p);
    var target := Min(count, p[Collector].max);
    var s1 := TouchIf(!p[Collector].unlocked && target > p[Collector].progress, s, player, Collector, target, date);
    var s2 := TouchIf(!p[Completionist].unlocked && count >= total, s1, player, Completionist, total, date);
    TouchIf(!p[Myth].unlocked && count >= total, s2, player, Myth, total, date)
  }

  /** A forced, skip_collective update of one record, made only when the pass's condition holds. */
  function TouchIf(cond: bool, s: Store, player: string, id: string, force: int, date: string): (r: Store)
    requires player in s
    ensures r.Keys == s.Keys && forall q :: q in s ==> r[q].Keys == s[q].Keys
  {
    if cond then Touch(s, player, id, 1, Some(force), date) else s
  }

  /** Whether the collective pass writes the file: one of its forced updates moves its record. */
  predicate CollectiveSaves(s: Store, player: string, total: int)
    requires player in s && HasCollective(s[player])
  {
    var p := s[player];
    var count := UnlockedCount(p);
    var target := Min(count, p[Collector].max);
    || (!p[Collector].unlocked && target > p[Collector].progress)
    || (!p[Completionist].unlocked && count >= total && total != p[Completionist].progress)
    || (!p[Myth].unlocked && count >= total && total != p[Myth].progress)
  }

  /** The file after the missing-player branch: the player is seeded from the catalog. */
  function Admitted(s: Store, player: string, defs: seq<Definition>): (r: Store)
    ensures player in r && r.Keys == s.Keys + {player}
  {
    if player in s then s else s[player := Seeded(map[], defs)]
  }

  /** The update fires: the record exists and the new progress differs from the old. */
  predicate Fires(s: Store, player: string, id: string, inc: int, force: Option<int>)
    requires player in s
  {
    id in s[player] && Moves(s[player][id], inc, force)
  }

  /** A stored player whose update runs the collective pass must carry the collective records. */
  predicate CanUpdate(s: Store, player: string, id: string, inc: int, force: Option<int>, skip: bool, defs: seq<Definition>) {
    WellFormed(defs) &&
    (player in s && !skip && Fires(s, player, id, inc, force) ==> HasCollective(s[player]))
  }

  /** The file after update_achievement(player, id, inc, force, skip). */
  function Updated(s: Store, player: string, id: string, inc: int, force: Option<int>, skip: bool,
                   date: string, defs: seq<Definition>): (r: Store)
    requires CanUpdate(s, player, id, inc, force, skip, defs)
    ensures r.Keys == s.Keys + {player}
    ensures forall q :: q in s ==> r[q].Keys == s[q].Keys
    ensures r[player].Keys == Admitted(s, player, defs)[player].Keys
  {
    var s0 := Admitted(s, player, defs);
    if !Fires(s0, player, id, inc, force) then s0
    else
      var s1 := Touch(s0, player, id, inc, force, date);
      if skip then s1
      else
        assert HasCollective(s0[player]) by { AdmittedCollective(s, player, defs); }
        Collective(s1, player, |defs|, date)
  }

  lemma AdmittedCollective(s: Store, player: string, defs: seq<Definition>)
    requires WellFormed(defs)
    requires player in s ==> HasCollective(s[player])
    ensures HasCollective(Admitted(s, player, defs)[player])
  {
    if player !in s {
      SeededKeys(map[], defs);
    }
  }

  // ---- what an update does ----

  /**
   * r differs from s at most in the records of `player` named in `ids`, keeps every key, and
   * keeps every unlocked record.
   */
  predicate Preserves(s: Store, r: Store, player: string, ids: set<string>) {
    && r.Keys == s.Keys && player in s
    && (forall q :: q in s && q != player ==> r[q] == s[q])
    && r[player].Keys == s[player].Keys
    && (forall x :: x in s[player] && x !in ids ==> r[player][x] == s[player][x])
    && (forall q, x :: q in s && x in s[q] && s[q][x].unlocked ==> r[q][x] == s[q][x])
  }

  lemma PreservesChain(s: Store, r1: Store, r2: Store, player: string, a: set<string>, b: set<string>)
    requires Preserves(s, r1, player, a) && Preserves(r1, r2, player, b)
    ensures Preserves(s, r2, player, a + b)
  {
  }

  /** Touch changes one record of one player, and never an unlocked one. */
  lemma TouchFrame(s: Store, player: string, id: string, inc: int, force: Option<int>, date: string)
    requires player in s
    ensures Preserves(s, Touch(s, player, id, inc, force, date), player, {id})
  {
  }

  /** The collective pass changes only the player's collector, completionist and myth records, and no unlocked record. */
  lemma CollectiveFrame(s: Store, player: string, total: int, date: string)
    requires player in s && HasCollective(s[player])
    ensures Preserves(s, Collective(s, player, total, date), player, {Collector, Completionist, Myth})
  {
    var p := s[player];
    var count := UnlockedCount(p);
    var target := Min(count, p[Collector].max);
    var c1, c2, c3 := !p[Collector].unlocked && target > p[Collector].progress, !p[Completionist].unlocked && count >= total, !p[Myth].unlocked && count >= total;
    ThreeTouches(s, player, c1, c2, c3, target, total, date);
  }

  /** Three conditional updates of the collective records, in the order of the pass. */
  lemma ThreeTouches(s: Store, player: string, c1: bool, c2: bool, c3: bool, target: int, total: int, date: string)
    requires player in s
    ensures Preserves(s, TouchIf(c3, TouchIf(c2, TouchIf(c1, s, player, Collector, target, date), player, Completionist, total, date), player, Myth, total, date),
                      player, {Collector, Completionist, Myth})
  {
    var s1 := TouchIf(c1, s, player, Collector, target, date);
    TouchIfFrame(c1, s, player, Collector, target, date);
    var s2 := TouchIf(c2, s1, player, Completionist, total, date);
    TouchIfAfter(c2, s, s1, player, {Collector}, Completionist, total, date);
    TouchIfAfter(c3, s, s2, player, {Collector, Completionist}, Myth, total, date);
  }

  /** A further conditional update adds one record to what may have changed. */
  lemma TouchIfAfter(cond: bool, s: Store, r: Store, player: string, a: set<string>, id: string, force: int, date: string)
    requires Preserves(s, r, player, a)
    ensures Preserves(s, TouchIf(cond, r, player, id, force, date), player, a + {id})
  {
    TouchIfFrame(cond, r, player, id, force, date);
    PreservesChain(s, r, TouchIf(cond, r, player, id, force, date), player, a, {id});
  }

  lemma TouchIfFrame(cond: bool, s: Store, player: string, id: string, force: int, date: string)
    requires player in s
    ensures Preserves(s, TouchIf(cond, s, player, id, force, date), player, {id})
  {
    TouchFrame(s, player, id, 1, Some(force), date);
  }

  /**
   * update_achievement changes only the target record and, through the collective pass, the
   * player's collector, completionist and myth records; with skip_collective only the target.
   * Other players, and records that were already unlocked, are untouched.
   */
  lemma UpdateFrame(s: Store, player: string, id: string, inc: int, force: Option<int>, skip: bool,
                    date: string, defs: seq<Definition>)
    requires CanUpdate(s, player, id, inc, force, skip, defs)
    ensures Preserves(Admitted(s, player, defs), Updated(s, player, id, inc, force, skip, date, defs), player,
                      if skip then {id} else {id, Collector, Completionist, Myth})
    ensures forall q :: q in s && q != player ==> Updated(s, player, id, inc, force, skip, date, defs)[q] == s[q]
    ensures forall q, x :: q in s && x in s[q] && s[q][x].unlocked ==>
      Updated(s, player, id, inc, force, skip, date, defs)[q][x] == s[q][x]
  {
    var s0 := Admitted(s, player, defs);
    var r := Updated(s, player, id, inc, force, skip, date, defs);
    var ids := if skip then {id} else {id, Collector, Completionist, Myth};
    if Fires(s0, player, id, inc, force) {
      var s1 := Touch(s0, player, id, inc, force, date);
      TouchFrame(s0, player, id, inc, force, date);
      if !skip {
        AdmittedCollective(s, player, defs);
        CollectiveFrame(s1, player, |defs|, date);
        PreservesChain(s0, s1, r, player, {id}, {Collector, Completionist, Myth});
      }
    }
    assert Preserves(s0, r, player, ids);
    forall q | q in s ensures s0[q] == s[q] { }
  }

  /**
   * The target record of a locked, non-collective achievement: its progress becomes force or
   * old + increment (so a force can lower it), max is kept, and it unlocks, dated, exactly
   * when the progress moved and reached max. An update that does not move progress changes nothing.
   */
  lemma UpdateTarget(s: Store, player: string, id: string, inc: int, force: Option<int>, skip: bool,
                     date: string, defs: seq<Definition>)
    requires CanUpdate(s, player, id, inc, force, skip, defs)
    requires id in Admitted(s, player, defs)[player] && !Admitted(s, player, defs)[player][id].unlocked
    requires id != Collector && id != Completionist && id != Myth
    ensures var r := Admitted(s, player, defs)[player][id];
      var r' := Updated(s, player, id, inc, force, skip, date, defs)[player][id];
      && r'.progress == NewProgress(r, inc, force)
      && r'.max == r.max
      && (r'.unlocked <==> r'.progress != r.progress && r'.progress >= r.max)
      && r'.unlockedDate == (if r'.unlocked then Some(date) else r.unlockedDate)
    ensures !Fires(Admitted(s, player, defs), player, id, inc, force) ==>
      Updated(s, player, id, inc, force, skip, date, defs) == Admitted(s, player, defs)
  {
    var s0 := Admitted(s, player, defs);
    if Fires(s0, player, id, inc, force) && !skip {
      AdmittedCollective(s, player, defs);
      CollectiveFrame(Touch(s0, player, id, inc, force, date), player, |defs|, date);
    }
  }

  /** An update of a missing id or an unlocked record leaves a stored player's records as they are. */
  lemma UpdateNoop(s: Store, player: string, id: string, inc: int, force: Option<int>, skip: bool,
                   date: string, defs: seq<Definition>)
    requires CanUpdate(s, player, id, inc, force, skip, defs)
    requires player in s && (id !in s[player] || s[player][id].unlocked)
    ensures Updated(s, player, id, inc, force, skip, date, defs) == s
  {
  }

  /** Once an update has unlocked its record, repeating it changes nothing. */
  lemma UpdateIdempotent(s: Store, player: string, id: string, inc: int, force: Option<int>, skip: bool,
                         date: string, defs: seq<Definition>)
    requires CanUpdate(s, player, id, inc, force, skip, defs)
    requires var s' := Updated(s, player, id, inc, force, skip, date, defs); id in s'[player] && s'[player][id].unlocked
    ensures CanUpdate(Updated(s, player, id, inc, force, skip, date, defs), player, id, inc, force, skip, defs)
    ensures var s' := Updated(s, player, id, inc, force, skip, date, defs);
      Updated(s', player, id, inc, force, skip, date, defs) == s'
  {
  }

  /** A skip_collective update of a stored player is exactly Touch: the nesting stops there. */
  lemma SkipIsTouch(s: Store, player: string, id: string, inc: int, force: Option<int>, date: string, defs: seq<Definition>)
    requires WellFormed(defs) && player in s
    ensures Updated(s, player, id, inc, force, true, date, defs) == Touch(s, player, id, inc, force, date)
  {
  }

  function Max(a: int, b: int): int {
    if a >= b then a else b
  }

  /**
   * The collective pass raises a locked collector to min(unlocked count, max) when that is
   * higher, and never lowers it; it unlocks when that value reaches max.
   */
  lemma CollectorNeverDecreases(s: Store, player: string, total: int, date: string)
    requires player in s && HasCollective(s[player])
    ensures var c := s[player][Collector];
      var c' := Collective(s, player, total, date)[player][Collector];
      && c'.progress >= c.progress
      && (c.unlocked ==> c' == c)
      && (!c.unlocked ==> c'.progress == Max(c.progress, Min(UnlockedCount(s[player]), c.max)))
      && (!c.unlocked ==> (c'.unlocked <==> c'.progress > c.progress && c'.progress >= c.max))
  {
    var p := s[player];
    var count := UnlockedCount(p);
    var c := p[Collector];
    var target := Min(count, c.max);
    var c1 := !c.unlocked && target > c.progress;
    var s1 := TouchIf(c1, s, player, Collector, target, date);
    assert s1[player][Collector] == if c1 then Advanced(c, 1, Some(target), date) else c;
    var s2 := TouchIf(!p[Completionist].unlocked && count >= total, s1, player, Completionist, total, date);
    TouchIfFrame(!p[Completionist].unlocked && count >= total, s1, player, Completionist, total, date);
    TouchIfFrame(!p[Myth].unlocked && count >= total, s2, player, Myth, total, date);
    assert Collective(s, player, total, date)[player][Collector] == s1[player][Collector];
    CollectorRecord(c, count, date);
  }

  /** The collector record after its step of the pass, given the unlocked count. */
  lemma CollectorRecord(c: Record, count: nat, date: string)
    ensures var target := Min(count, c.max);
      var c' := if !c.unlocked && target > c.progress then Advanced(c, 1, Some(target), date) else c;
      && c'.progress >= c.progress
      && (!c.unlocked ==> c'.progress == Max(c.progress, target))
      && (!c.unlocked ==> (c'.unlocked <==> c'.progress > c.progress && c'.progress >= c.max))
  {
  }

  /**
   * completionist and myth need an unlocked count of at least the catalog size, and that
   * count includes themselves: a player holding only catalog records never gets them from
   * the collective pass while they are locked.
   */
  lemma CompletionistUnreachable(s: Store, player: string, date: string, defs: seq<Definition>)
    requires player in s && HasCollective(s[player])
    requires s[player].Keys <= Ids(defs)
    ensures !s[player][Completionist].unlocked ==>
      Collective(s, player, |defs|, date)[player][Completionist] == s[player][Completionist]
    ensures !s[player][Myth].unlocked ==>
      Collective(s, player, |defs|, date)[player][Myth] == s[player][Myth]
  {
    var p := s[player];
    IdsBound(defs);
    if !p[Completionist].unlocked || !p[Myth].unlocked {
      var locked := if !p[Completionist].unlocked then Completionist else Myth;
      assert UnlockedIds(p) <= Ids(defs) - {locked};
      SubsetSize(UnlockedIds(p), Ids(defs) - {locked});
      assert Ids(defs) == (Ids(defs) - {locked}) + {locked};
    }
    var target := Min(UnlockedCount(p), p[Collector].max);
    TouchFrame(s, player, Collector, 1, Some(target), date);
  }

  lemma {:induction false} SubsetSize(a: set<string>, b: set<string>)
    requires a <= b
    ensures |a| <= |b|
    decreases |b|
  {
    if a != {} {
      var x :| x in a;
      SubsetSize(a - {x}, b - {x});
    }
  }

  // ---- on_correct_answer ----

  const CorrectPrefix := "correct_"

  /** The store can take any update of the player: a well-formed catalog, collective records present. */
  predicate Ready(s: Store, player: string, defs: seq<Definition>) {
    WellFormed(defs) && (player in s ==> HasCollective(s[player]))
  }

  /**
   * The two loops over the catalog that update several records: on_correct_answer adds one to
   * every correct_ id (app.py:770-774); a streak bonus in the speed round forces every streak_ id
   * whose max the streak has reached to its max (app.py:1322-1324).
   */
  datatype Sweep = OnCorrect | OnStreak(streak: int)

  const StreakPrefix := "streak_"

  /** Whether the sweep updates definition d. */
  predicate Selects(rule: Sweep, d: Definition) {
    match rule
    case OnCorrect => StartsWith(d.id, CorrectPrefix)
    case OnStreak(n) => StartsWith(d.id, StreakPrefix) && n >= d.maxProgress
  }

  /** The force_progress a sweep passes: none for correct answers, the catalog max for streaks. */
  function SweepForce(rule: Sweep, d: Definition): Option<int> {
    if rule.OnCorrect? then None else Some(d.maxProgress)
  }

  /** One iteration of a sweep: the update it makes for d, if any. */
  function SweepStep(s: Store, player: string, d: Definition, rule: Sweep, date: string, defs: seq<Definition>): (r: Store)
    requires Ready(s, player, defs)
    ensures Ready(r, player, defs)
    ensures s.Keys <= r.Keys <= s.Keys + {player}
  {
    if Selects(rule, d) then
      AdmittedCollective(s, player, defs);
      Updated(s, player, d.id, 1, SweepForce(rule, d), false, date, defs)
    else s
  }

  /** The file after a sweep has run over ds (a prefix of the catalog). */
  function Swept(s: Store, player: string, ds: seq<Definition>, rule: Sweep, date: string, defs: seq<Definition>): (r: Store)
    requires Ready(s, player, defs)
    ensures Ready(r, player, defs)
    ensures s.Keys <= r.Keys <= s.Keys + {player}
    decreases |ds|
  {
    if ds == [] then s
    else SweepStep(Swept(s, player, ds[..|ds| - 1], rule, date, defs), player, ds[|ds| - 1], rule, date, defs)
  }

  predicate IsCollective(id: string) {
    id == Collector || id == Completionist || id == Myth
  }

  lemma CollectiveIdsUnprefixed()
    ensures !StartsWith(Collector, CorrectPrefix) && !StartsWith(Completionist, CorrectPrefix) && !StartsWith(Myth, CorrectPrefix)
    ensures !StartsWith(Collector, StreakPrefix) && !StartsWith(Completionist, StreakPrefix) && !StartsWith(Myth, StreakPrefix)
  {
    assert Collector[..|CorrectPrefix|][3] != CorrectPrefix[3];
    assert Completionist[..|CorrectPrefix|][2] != CorrectPrefix[2];
  }

  /** A sweep step for another definition leaves a non-collective record alone. */
  lemma SweepStepElsewhere(s: Store, player: string, d: Definition, rule: Sweep, date: string, defs: seq<Definition>, id: string)
    requires Ready(s, player, defs) && player in s && id in s[player]
    requires !IsCollective(id) && d.id != id
    ensures id in SweepStep(s, player, d, rule, date, defs)[player]
    ensures SweepStep(s, player, d, rule, date, defs)[player][id] == s[player][id]
  {
    if Selects(rule, d) {
      var ids := {d.id, Collector, Completionist, Myth};
      assert id !in ids;
      assert Admitted(s, player, defs) == s;
      UpdateFrame(s, player, d.id, 1, SweepForce(rule, d), false, date, defs);
      assert Preserves(s, Updated(s, player, d.id, 1, SweepForce(rule, d), false, date, defs), player, ids);
    }
  }

  /** The step for a selected, locked, non-collective record advances it. */
  lemma SweepStepHere(s: Store, player: string, d: Definition, rule: Sweep, date: string, defs: seq<Definition>)
    requires Ready(s, player, defs) && player in s && d.id in s[player] && !s[player][d.id].unlocked
    requires Selects(rule, d) && !IsCollective(d.id)
    ensures d.id in SweepStep(s, player, d, rule, date, defs)[player]
    ensures SweepStep(s, player, d, rule, date, defs)[player][d.id] == Stepped(s[player][d.id], 1, SweepForce(rule, d), date)
  {
    UpdateTarget(s, player, d.id, 1, SweepForce(rule, d), false, date, defs);
  }

  /** After the first j iterations, the selected record at position k is as it was, or advanced once. */
  lemma {:induction false} SweptPrefix(s: Store, player: string, defs: seq<Definition>, rule: Sweep, date: string, k: nat, j: nat)
    requires Ready(s, player, defs) && player in s
    requires k < |defs| && j <= |defs| && Selects(rule, defs[k]) && !IsCollective(defs[k].id)
    requires defs[k].id in s[player] && !s[player][defs[k].id].unlocked
    ensures var id := defs[k].id;
      var st := Swept(s, player, defs[..j], rule, date, defs);
      id in st[player] &&
      st[player][id] == (if j <= k then s[player][id] else Stepped(s[player][id], 1, SweepForce(rule, defs[k]), date))
    decreases j
  {
    if j > 0 {
      SweptPrefix(s, player, defs, rule, date, k, j - 1);
      assert defs[..j][..j - 1] == defs[..j - 1];
      var st := Swept(s, player, defs[..j - 1], rule, date, defs);
      var d := defs[j - 1];
      assert Swept(s, player, defs[..j], rule, date, defs) == SweepStep(st, player, d, rule, date, defs);
      if j - 1 == k {
        SweepStepHere(st, player, d, rule, date, defs);
      } else {
        assert d.id != defs[k].id;
        SweepStepElsewhere(st, player, d, rule, date, defs, defs[k].id);
      }
    }
  }

  /**
   * on_correct_answer gives every locked correct_ record of a stored player exactly one more
   * step of progress, unlocking it, dated, when that reaches max.
   */
  lemma CorrectAnswerCounted(s: Store, player: string, defs: seq<Definition>, date: string, k: nat)
    requires Ready(s, player, defs) && player in s
    requires k < |defs| && StartsWith(defs[k].id, CorrectPrefix)
    requires defs[k].id in s[player] && !s[player][defs[k].id].unlocked
    ensures defs[k].id in Swept(s, player, defs, OnCorrect, date, defs)[player]
    ensures var r := s[player][defs[k].id];
      var r' := Swept(s, player, defs, OnCorrect, date, defs)[player][defs[k].id];
      && r'.progress == r.progress + 1
      && r'.max == r.max
      && (r'.unlocked <==> r.progress + 1 >= r.max)
      && r'.unlockedDate == (if r'.unlocked then Some(date) else r.unlockedDate)
  {
    CollectiveIdsUnprefixed();
    SweptPrefix(s, player, defs, OnCorrect, date, k, |defs|);
    assert defs[..|defs|] == defs;
  }

  /**
   * A streak bonus forces every locked streak_ record whose catalog max the streak has
   * reached to that max, and it unlocks when that meets the record's own max; a record
   * already at that progress is left as it is (it stays locked).
   */
  lemma StreakAwarded(s: Store, player: string, defs: seq<Definition>, streak: int, date: string, k: nat)
    requires Ready(s, player, defs) && player in s
    requires k < |defs| && StartsWith(defs[k].id, StreakPrefix) && streak >= defs[k].maxProgress
    requires defs[k].id in s[player] && !s[player][defs[k].id].unlocked
    ensures defs[k].id in Swept(s, player, defs, OnStreak(streak), date, defs)[player]
    ensures var r := s[player][defs[k].id];
      var r' := Swept(s, player, defs, OnStreak(streak), date, defs)[player][defs[k].id];
      && r'.progress == defs[k].maxProgress
      && r'.max == r.max
      && (r'.unlocked <==> r.progress != defs[k].maxProgress && defs[k].maxProgress >= r.max)
  {
    CollectiveIdsUnprefixed();
    SweptPrefix(s, player, defs, OnStreak(streak), date, k, |defs|);
    assert defs[..|defs|] == defs;
  }

  // ---- the store-wide invariant ----

  /** A seeded player carries the collective records. */
  lemma SeededCollective(p: PlayerData, defs: seq<Definition>)
    requires WellFormed(defs)
    ensures HasCollective(Seeded(p, defs))
  {
    SeededKeys(p, defs);
  }

  /** Updates keep every stored player's collective records. */
  lemma UpdatedAllCollective(s: Store, player: string, id: string, inc: int, force: Option<int>, skip: bool,
                             date: string, defs: seq<Definition>)
    requires CanUpdate(s, player, id, inc, force, skip, defs) && AllCollective(s)
    ensures AllCollective(Updated(s, player, id, inc, force, skip, date, defs))
  {
    var r := Updated(s, player, id, inc, force, skip, date, defs);
    AdmittedCollective(s, player, defs);
    forall q | q in r ensures HasCollective(r[q]) {
      if q != player {
        assert r[q].Keys == s[q].Keys;
      }
    }
  }

  lemma CollectiveAllCollective(s: Store, player: string, total: int, date: string)
    requires player in s && AllCollective(s)
    ensures AllCollective(Collective(s, player, total, date))
  {
    var r := Collective(s, player, total, date);
    forall q | q in r ensures HasCollective(r[q]) {
      assert r[q].Keys == s[q].Keys;
    }
  }
}
