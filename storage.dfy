/**
 * The two JSON files and the backup directory, and the operations of app.py that read and
 * write them: backup_json (app.py:646-655), load/save_leaderboard (app.py:657-669),
 * load/save_achievements (app.py:672-713), update_achievement (app.py:715-745),
 * check_collective_achievements (app.py:747-765), on_correct_answer (app.py:770-774), the
 * streak loop of the speed round (app.py:1322-1324) and the high-score rule (app.py:1277-1281).
 * Saving is a field assignment; json.dump followed by json.load gives back the same value.
 */
module Storage {
  import opened Wrappers
  import opened Strings
  import opened Catalog
  import opened Achievements
  import opened Leaderboard
  import Backups

  /** A file on disk: missing, not parseable as JSON, or holding a value. */
  datatype JsonFile<T> = Absent | Corrupt | Present(contents: T)

  /** datetime.now() in the two formats used: "%Y-%m-%d %H:%M" and "%Y%m%d_%H%M%S". */
  datatype Clock = Clock(minute: string, second: string)

  const AchievementsFile := "achievements.json"
  const LeaderboardFile := "leaderboard.json"

  /** The backup directory after backup_json: a new name and pruning, when the file exists. */
  ghost function AfterBackup(dir: set<string>, base: string, present: bool, stamp: string): set<string> {
    if present then Backups.Backed(dir, base, stamp) else dir
  }

  /** Backing up twice within the same second is backing up once. */
  lemma AfterBackupTwice(dir: set<string>, base: string, a: bool, b: bool, stamp: string)
    ensures AfterBackup(AfterBackup(dir, base, a, stamp), base, b, stamp) == AfterBackup(dir, base, a || b, stamp)
  {
    if a && b {
      Backups.BackedTwice(dir, base, stamp);
    }
  }

  /** Two backup steps with the same stamp, as one. */
  lemma BackupChain(b: set<string>, b1: set<string>, b2: set<string>, base: string, x: bool, y: bool, stamp: string)
    requires b1 == AfterBackup(b, base, x, stamp) && b2 == AfterBackup(b1, base, y, stamp)
    ensures b2 == AfterBackup(b, base, x || y, stamp)
  {
    AfterBackupTwice(b, base, x, y, stamp);
  }

  /** What load_leaderboard returns for the file. */
  function LoadedBoard(f: JsonFile<Board>): Board {
    if f.Present? then f.contents else map[]
  }

  /** Whether update_achievement writes the file at least once while the file exists. */
  ghost predicate UpdateBacksUp(f: JsonFile<Store>, s: Store, player: string, id: string, inc: int,
                                force: Option<int>, defs: seq<Definition>) {
    (player !in s && f.Present?) || Fires(Admitted(s, player, defs), player, id, inc, force)
  }

  class Disk {
    /** ACHIEVEMENTS. */
    const defs: seq<Definition>
    var achievements: JsonFile<Store>
    var leaderboard: JsonFile<Board>
    /** The names in BACKUP_DIR. */
    var backups: set<string>

    /** The store as the program reads it; a missing file reads as {}. */
    function Stored(): Store
      reads this
    {
      if achievements.Present? then achievements.contents else map[]
    }

    /**
     * The catalog is well formed, the achievement file parses (json.load there is unguarded)
     * and every stored player has the three records the collective pass indexes.
     */
    ghost predicate Valid()
      reads this
    {
      WellFormed(defs) && !achievements.Corrupt? && AllCollective(Stored())
    }

    constructor (achievements: JsonFile<Store>, leaderboard: JsonFile<Board>, backups: set<string>)
      requires !achievements.Corrupt?
      requires achievements.Present? ==> AllCollective(achievements.contents)
      ensures Valid() && defs == Defs()
      ensures this.achievements == achievements && this.leaderboard == leaderboard && this.backups == backups
    {
      var catalog := Build();
      assert WellFormed(catalog) by { CollectiveEntries(); }
      defs := catalog;
      this.achievements := achievements;
      this.leaderboard := leaderboard;
      this.backups := backups;
    }

    /** backup_json: copy the file to a timestamped name when it exists, then keep the newest five. */
    method BackupJson(base: string, present: bool, clock: Clock)
      modifies this
      ensures backups == AfterBackup(old(backups), base, present, clock.second)
      ensures achievements == old(achievements) && leaderboard == old(leaderboard)
    {
      if present {
        backups := Backups.Prune(backups + {Backups.BackupName(base, clock.second)}, base);
      }
    }

    method SaveAchievements(all: Store, clock: Clock)
      modifies this
      ensures achievements == Present(all) && leaderboard == old(leaderboard)
      ensures backups == AfterBackup(old(backups), AchievementsFile, !old(achievements).Absent?, clock.second)
    {
      BackupJson(AchievementsFile, !achievements.Absent?, clock);
      achievements := Present(all);
    }

    /** load_achievements: seed the player's records from the catalog, writing the file only if anything changed. */
    method LoadAchievements(player: string, clock: Clock) returns (pd: PlayerData)
      requires Valid()
      modifies this
      ensures Valid() && leaderboard == old(leaderboard)
      ensures var base := if player in old(Stored()) then old(Stored())[player] else map[];
        && pd == Seeded(base, defs)
        && achievements == (if NeedsSeed(base, defs) then Present(old(Stored())[player := pd]) else old(achievements))
        && backups == AfterBackup(old(backups), AchievementsFile, NeedsSeed(base, defs) && old(achievements).Present?, clock.second)
    {
      var all: Store := Stored();
      if player !in all {
        all := all[player := map[]];
      }
      var p, modified := SeedRecords(all[player], defs);
      SeededCollective(all[player], defs);
      assert all[player := p] == old(Stored())[player := p];
      if modified {
        SaveAchievements(all[player := p], clock);
      }
      pd := p;
    }

    /**
     * update_achievement. A missing player is first seeded through load_achievements; a moving
     * update is saved, and unless skip is set the collective pass follows.
     */
    method UpdateAchievement(player: string, id: string, inc: int, force: Option<int>, skip: bool, clock: Clock)
      requires Valid()
      modifies this
      ensures Valid() && leaderboard == old(leaderboard)
      ensures achievements == Present(Updated(old(Stored()), player, id, inc, force, skip, clock.minute, defs))
      ensures backups == AfterBackup(old(backups), AchievementsFile,
        UpdateBacksUp(old(achievements), old(Stored()), player, id, inc, force, defs), clock.second)
      ensures skip && player in old(Stored()) ==>
        && achievements == Present(Touch(old(Stored()), player, id, inc, force, clock.minute))
        && backups == AfterBackup(old(backups), AchievementsFile, Fires(old(Stored()), player, id, inc, force), clock.second)
      decreases if skip then 0 else 3
    {
      ghost var s, b := Stored(), backups;
      AdmitPlayer(player, clock);
      ghost var s0, b0 := Stored(), backups;
      var moved := ApplyUpdate(player, id, inc, force, clock);
      ghost var s1, b1 := Stored(), backups;
      if moved && !skip {
        CheckCollective(player, clock);
      }
      UpdateSteps(s, s0, s1, Stored(), b, b0, b1, backups, player, id, inc, force, skip, clock, defs, old(achievements).Present?);
    }

    /**
     * The body of update_achievement for a stored player: a locked record whose progress moves
     * gets the new progress (unlocked with the date once at max) and the file is saved.
     */
    method ApplyUpdate(player: string, id: string, inc: int, force: Option<int>, clock: Clock) returns (moved: bool)
      requires Valid() && player in Stored() && achievements.Present?
      modifies this
      ensures Valid() && leaderboard == old(leaderboard) && achievements.Present?
      ensures moved == Fires(old(Stored()), player, id, inc, force)
      ensures Stored() == Touch(old(Stored()), player, id, inc, force, clock.minute)
      ensures backups == AfterBackup(old(backups), AchievementsFile, moved, clock.second)
    {
      moved := false;
      var all: Store := Stored();
      if id in all[player] {
        var r: Record := all[player][id];
        if !r.unlocked {
          var oldProgress := r.progress;
          var progress := if force.Some? then force.value else r.progress + inc;
          if progress != oldProgress {
            var r' := if progress >= r.max then Record(true, progress, r.max, Some(clock.minute)) else r.(progress := progress);
            all := all[player := all[player][id := r']];
            TouchAllCollective(old(Stored()), player, id, inc, force, clock.minute);
            SaveAchievements(all, clock);
            moved := true;
          }
        }
      }
    }

    /** The missing-player branch of update_achievement: load_achievements creates and saves the entry. */
    method AdmitPlayer(player: string, clock: Clock)
      requires Valid()
      modifies this
      ensures Valid() && leaderboard == old(leaderboard)
      ensures Stored() == Admitted(old(Stored()), player, defs) && achievements.Present?
      ensures backups == AfterBackup(old(backups), AchievementsFile, player !in old(Stored()) && old(achievements).Present?, clock.second)
    {
      if player !in Stored() {
        assert Stale(map[], defs[0]);
        var _ := LoadAchievements(player, clock);
      }
    }

    /**
     * check_collective_achievements over the file as just saved. The three conditions read the
     * records and the count from before the pass; each forced update is a skip_collective call.
     */
    method CheckCollective(player: string, clock: Clock)
      requires Valid() && player in Stored()
      modifies this
      ensures Valid() && leaderboard == old(leaderboard)
      ensures achievements == Present(Collective(old(Stored()), player, |defs|, clock.minute))
      ensures backups == AfterBackup(old(backups), AchievementsFile,
        CollectiveSaves(old(Stored()), player, |defs|), clock.second)
      decreases 2
    {
      var p := Stored()[player];
      var count := UnlockedCount(p);
      var total := |defs|;
      ghost var s, b := Stored(), backups;
      var newProgress := Min(count, p[Collector].max);
      ForceIf(!p[Collector].unlocked && newProgress > p[Collector].progress, player, Collector, newProgress, clock);
      ghost var s1, b1 := Stored(), backups;
      ForceIf(!p[Completionist].unlocked && count >= total, player, Completionist, total, clock);
      ghost var s2, b2 := Stored(), backups;
      ForceIf(!p[Myth].unlocked && count >= total, player, Myth, total, clock);
      CollectiveSteps(s, s1, s2, Stored(), b, b1, b2, backups, player, total, clock);
    }

    /** One guarded update of the pass: update_achievement(player, id, force_progress=v, skip_collective=True) when cond holds. */
    method ForceIf(cond: bool, player: string, id: string, v: int, clock: Clock)
      requires Valid() && player in Stored()
      modifies this
      ensures Valid() && leaderboard == old(leaderboard) && player in Stored()
      ensures Stored() == TouchIf(cond, old(Stored()), player, id, v, clock.minute)
      ensures backups == AfterBackup(old(backups), AchievementsFile, cond && Fires(old(Stored()), player, id, 1, Some(v)), clock.second)
      ensures cond || achievements == old(achievements)
      decreases 1
    {
      if cond {
        UpdateAchievement(player, id, 1, Some(v), true, clock);
      }
    }

    /**
     * A loop of update_achievement calls over the catalog: on_correct_answer (rule OnCorrect)
     * or the streak bonus of the speed round (rule OnStreak).
     */
    method RunSweep(player: string, rule: Sweep, clock: Clock)
      requires Valid()
      modifies this
      ensures Valid() && leaderboard == old(leaderboard)
      ensures Ready(old(Stored()), player, defs)
      ensures Stored() == Swept(old(Stored()), player, defs, rule, clock.minute, defs)
      ensures player !in Stored() ==> achievements == old(achievements)
      ensures backups == AfterBackup(old(backups), AchievementsFile,
        SweepWrites(old(achievements).Present?, old(Stored()), player, defs, rule, clock.minute, defs), clock.second)
    {
      ghost var s, b, present := Stored(), backups, achievements.Present?;
      assert Ready(s, player, defs) by {
        if player in s {
          assert HasCollective(s[player]);
        }
      }
      for k := 0 to |defs|
        invariant Valid() && leaderboard == old(leaderboard)
        invariant Stored() == Swept(s, player, defs[..k], rule, clock.minute, defs)
        invariant player !in Stored() ==> achievements == old(achievements)
        invariant backups == AfterBackup(b, AchievementsFile, SweepWrites(present, s, player, defs[..k], rule, clock.minute, defs), clock.second)
      {
        ghost var w := SweepWrites(present, s, player, defs[..k], rule, clock.minute, defs);
        ghost var before := backups;
        SweepUnfold(present, s, player, defs, k, rule, clock.minute);
        ghost var wrote := SweepOne(player, defs[k], rule, present, clock);
        BackupChain(b, before, backups, AchievementsFile, w, wrote, clock.second);
      }
      assert defs[..|defs|] == defs;
    }

    /** One iteration of a sweep: the update_achievement call for d when the rule selects it. */
    method SweepOne(player: string, d: Definition, rule: Sweep, ghost present: bool, clock: Clock) returns (ghost wrote: bool)
      requires Valid() && (player !in Stored() ==> achievements.Present? == present)
      modifies this
      ensures Valid() && leaderboard == old(leaderboard)
      ensures Ready(old(Stored()), player, defs)
      ensures Stored() == SweepStep(old(Stored()), player, d, rule, clock.minute, defs)
      ensures player !in Stored() ==> achievements == old(achievements)
      ensures wrote == (Selects(rule, d) &&
        UpdateBacksUp(if present then Present(old(Stored())) else Absent, old(Stored()), player, d.id, 1, SweepForce(rule, d), defs))
      ensures backups == AfterBackup(old(backups), AchievementsFile, wrote, clock.second)
    {
      ghost var s := Stored();
      assert Ready(s, player, defs) by {
        if player in s {
          assert HasCollective(s[player]);
        }
      }
      var selected := match rule
        case OnCorrect => StartsWith(d.id, CorrectPrefix)
        case OnStreak(n) => StartsWith(d.id, StreakPrefix) && n >= d.maxProgress;
      wrote := false;
      if selected {
        var force := if rule.OnCorrect? then None else Some(d.maxProgress);
        wrote := UpdateBacksUp(if present then Present(s) else Absent, s, player, d.id, 1, force, defs);
        UpdateAchievement(player, d.id, 1, force, false, clock);
      }
    }

    /**
     * The achievement side of a correct speed-round answer that brings the streak to streak:
     * on_correct_answer, then the streak loop when the streak is a multiple of five.
     */
    method Reward(player: string, streak: int, clock: Clock)
      requires Valid()
      modifies this
      ensures Valid() && leaderboard == old(leaderboard)
      ensures Stored() == Rewarded(old(Stored()), player, streak, clock.minute, defs)
      ensures backups == AfterBackup(old(backups), AchievementsFile,
        RewardWrites(old(achievements).Present?, old(Stored()), player, streak, clock.minute, defs), clock.second)
    {
      ghost var present, b := achievements.Present?, backups;
      ghost var w1 := SweepWrites(present, Stored(), player, defs, OnCorrect, clock.minute, defs);
      RunSweep(player, OnCorrect, clock);
      if streak % 5 == 0 {
        ghost var s1, p1 := Stored(), achievements.Present?;
        if player in s1 {
          SweepWritesPresence(p1, present, s1, player, defs, OnStreak(streak), clock.minute, defs);
        }
        RunSweep(player, OnStreak(streak), clock);
        AfterBackupTwice(b, AchievementsFile, w1, SweepWrites(present, s1, player, defs, OnStreak(streak), clock.minute, defs), clock.second);
      }
    }

    /** load_leaderboard: a missing or unparseable file reads as {}. */
    method LoadLeaderboard() returns (board: Board)
      ensures leaderboard.Present? ==> board == leaderboard.contents
      ensures leaderboard.Absent? || leaderboard.Corrupt? ==> board == map[]
    {
      board := if leaderboard.Present? then leaderboard.contents else map[];
    }

    /** save_leaderboard: back up the file if it exists, then write the board. */
    method SaveLeaderboard(board: Board, clock: Clock)
      modifies this
      ensures leaderboard == Present(board) && achievements == old(achievements)
      ensures backups == AfterBackup(old(backups), LeaderboardFile, !old(leaderboard).Absent?, clock.second)
    {
      BackupJson(LeaderboardFile, !leaderboard.Absent?, clock);
      leaderboard := Present(board);
    }

    /** The end of a timed game: a final score above the player's best (or a first score) is saved. */
    method RecordScore(player: string, score: int, clock: Clock) returns (saved: bool)
      modifies this
      ensures saved == Improves(LoadedBoard(old(leaderboard)), player, score)
      ensures leaderboard == (if saved then Present(Recorded(LoadedBoard(old(leaderboard)), player, score, clock.minute)) else old(leaderboard))
      ensures backups == AfterBackup(old(backups), LeaderboardFile, saved && !old(leaderboard).Absent?, clock.second)
      ensures achievements == old(achievements)
    {
      var board := LoadLeaderboard();
      saved := false;
      if player !in board || board[player].score < score {
        board := board[player := Entry(score, clock.minute)];
        SaveLeaderboard(board, clock);
        saved := true;
      }
    }
  }

  /**
   * Whether a sweep over ds writes the achievement file at least once: the first selected
   * update of a missing player saves the seeded entry if the file exists, and every
   * update that moves a record saves.
   */
  ghost predicate SweepWrites(present: bool, s: Store, player: string, ds: seq<Definition>, rule: Sweep,
                              date: string, defs: seq<Definition>)
    requires Ready(s, player, defs)
    decreases |ds|
  {
    if ds == [] then false
    else
      var prefix := ds[..|ds| - 1];
      var d := ds[|ds| - 1];
      var st := Swept(s, player, prefix, rule, date, defs);
      SweepWrites(present, s, player, prefix, rule, date, defs) ||
      (Selects(rule, d) && UpdateBacksUp(if present then Present(st) else Absent, st, player, d.id, 1, SweepForce(rule, d), defs))
  }

  /** The store after Reward: the correct-answer sweep, then the streak sweep on a multiple of five. */
  ghost function Rewarded(s: Store, player: string, streak: int, date: string, defs: seq<Definition>): Store
    requires Ready(s, player, defs)
  {
    var s1 := Swept(s, player, defs, OnCorrect, date, defs);
    if streak % 5 == 0 then Swept(s1, player, defs, OnStreak(streak), date, defs) else s1
  }

  /** Whether Reward writes the achievement file. */
  ghost predicate RewardWrites(present: bool, s: Store, player: string, streak: int, date: string, defs: seq<Definition>)
    requires Ready(s, player, defs)
  {
    SweepWrites(present, s, player, defs, OnCorrect, date, defs) ||
    (streak % 5 == 0 && SweepWrites(present, Swept(s, player, defs, OnCorrect, date, defs), player, defs, OnStreak(streak), date, defs))
  }

  /** One more iteration of a sweep over a prefix of the catalog. */
  lemma SweepUnfold(present: bool, s: Store, player: string, defs: seq<Definition>, k: nat, rule: Sweep, date: string)
    requires Ready(s, player, defs) && k < |defs|
    ensures var st := Swept(s, player, defs[..k], rule, date, defs);
      && Swept(s, player, defs[..k + 1], rule, date, defs) == SweepStep(st, player, defs[k], rule, date, defs)
      && SweepWrites(present, s, player, defs[..k + 1], rule, date, defs) ==
        (SweepWrites(present, s, player, defs[..k], rule, date, defs) ||
         (Selects(rule, defs[k]) &&
          UpdateBacksUp(if present then Present(st) else Absent, st, player, defs[k].id, 1, SweepForce(rule, defs[k]), defs)))
  {
    assert defs[..k + 1][..k] == defs[..k];
  }

  /** Once the player is stored, whether the file existed no longer matters to a sweep's writes. */
  lemma {:induction false} SweepWritesPresence(a: bool, b: bool, s: Store, player: string, ds: seq<Definition>, rule: Sweep,
                                               date: string, defs: seq<Definition>)
    requires Ready(s, player, defs) && player in s
    ensures SweepWrites(a, s, player, ds, rule, date, defs) == SweepWrites(b, s, player, ds, rule, date, defs)
    decreases |ds|
  {
    if ds != [] {
      SweepWritesPresence(a, b, s, player, ds[..|ds| - 1], rule, date, defs);
    }
  }

  /** The three guarded skip_collective updates of the pass compose to Collective, and their backups to one. */
  lemma CollectiveSteps(s: Store, s1: Store, s2: Store, s3: Store,
                        b: set<string>, b1: set<string>, b2: set<string>, b3: set<string>,
                        player: string, total: int, clock: Clock)
    requires player in s && HasCollective(s[player])
    requires var p := s[player]; var count := UnlockedCount(p); var target := Min(count, p[Collector].max);
      var c1 := !p[Collector].unlocked && target > p[Collector].progress;
      && s1 == TouchIf(c1, s, player, Collector, target, clock.minute)
      && b1 == AfterBackup(b, AchievementsFile, c1 && Fires(s, player, Collector, 1, Some(target)), clock.second)
    requires player in s1 && player in s2
    requires var p := s[player]; var c2 := !p[Completionist].unlocked && UnlockedCount(p) >= total;
      && s2 == TouchIf(c2, s1, player, Completionist, total, clock.minute)
      && b2 == AfterBackup(b1, AchievementsFile, c2 && Fires(s1, player, Completionist, 1, Some(total)), clock.second)
    requires var p := s[player]; var c3 := !p[Myth].unlocked && UnlockedCount(p) >= total;
      && s3 == TouchIf(c3, s2, player, Myth, total, clock.minute)
      && b3 == AfterBackup(b2, AchievementsFile, c3 && Fires(s2, player, Myth, 1, Some(total)), clock.second)
    ensures s3 == Collective(s, player, total, clock.minute)
    ensures b3 == AfterBackup(b, AchievementsFile, CollectiveSaves(s, player, total), clock.second)
  {
    var p := s[player];
    var count := UnlockedCount(p);
    var target := Min(count, p[Collector].max);
    var c1 := !p[Collector].unlocked && target > p[Collector].progress;
    var c2 := !p[Completionist].unlocked && count >= total;
    TouchIfFrame(c1, s, player, Collector, target, clock.minute);
    TouchIfFrame(c2, s1, player, Completionist, total, clock.minute);
    assert s1[player][Completionist] == p[Completionist];
    assert s2[player][Myth] == p[Myth];
    var f1 := c1 && Fires(s, player, Collector, 1, Some(target));
    var f2 := c2 && Fires(s1, player, Completionist, 1, Some(total));
    var f3 := !p[Myth].unlocked && count >= total && Fires(s2, player, Myth, 1, Some(total));
    AfterBackupTwice(b, AchievementsFile, f1, f2, clock.second);
    AfterBackupTwice(b, AchievementsFile, f1 || f2, f3, clock.second);
  }

  /** A single record update keeps every player's collective records. */
  lemma TouchAllCollective(s: Store, player: string, id: string, inc: int, force: Option<int>, date: string)
    requires player in s && AllCollective(s)
    ensures AllCollective(Touch(s, player, id, inc, force, date))
  {
    var r := Touch(s, player, id, inc, force, date);
    forall q | q in r ensures HasCollective(r[q]) {
      assert r[q].Keys == s[q].Keys;
    }
  }

  /**
   * The steps of update_achievement compose to Updated: seeding (s0, b0), the saved moving
   * update (s1, b1) and the collective pass (s2, b2); all saves share one timestamp.
   */
  lemma UpdateSteps(s: Store, s0: Store, s1: Store, s2: Store,
                    b: set<string>, b0: set<string>, b1: set<string>, b2: set<string>,
                    player: string, id: string, inc: int, force: Option<int>, skip: bool, clock: Clock,
                    defs: seq<Definition>, present: bool)
    requires WellFormed(defs) && AllCollective(s)
    requires s0 == Admitted(s, player, defs)
    requires b0 == AfterBackup(b, AchievementsFile, player !in s && present, clock.second)
    requires Fires(s0, player, id, inc, force) ==>
      s1 == Touch(s0, player, id, inc, force, clock.minute) && b1 == AfterBackup(b0, AchievementsFile, true, clock.second)
    requires !Fires(s0, player, id, inc, force) ==> s1 == s0 && b1 == b0
    requires Fires(s0, player, id, inc, force) && !skip ==>
      player in s1 && HasCollective(s1[player]) &&
      s2 == Collective(s1, player, |defs|, clock.minute) &&
      b2 == AfterBackup(b1, AchievementsFile, CollectiveSaves(s1, player, |defs|), clock.second)
    requires !(Fires(s0, player, id, inc, force) && !skip) ==> s2 == s1 && b2 == b1
    ensures CanUpdate(s, player, id, inc, force, skip, defs)
    ensures s2 == Updated(s, player, id, inc, force, skip, clock.minute, defs)
    ensures AllCollective(s2)
    ensures b2 == AfterBackup(b, AchievementsFile, (player !in s && present) || Fires(s0, player, id, inc, force), clock.second)
    ensures skip && player in s ==> s2 == Touch(s, player, id, inc, force, clock.minute)
  {
    UpdatedAllCollective(s, player, id, inc, force, skip, clock.minute, defs);
    var x := player !in s && present;
    if Fires(s0, player, id, inc, force) {
      AfterBackupTwice(b, AchievementsFile, x, true, clock.second);
      if !skip {
        AfterBackupTwice(b, AchievementsFile, true, CollectiveSaves(s1, player, |defs|), clock.second);
      }
    }
  }
}
