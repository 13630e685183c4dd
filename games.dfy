/**
 * The game-mode rules of app.py that are not classifier or UI: clearing a mode's session
 * keys (reset_game_mode, app.py:796-810), the speed round's score and streak counters with
 * their achievement calls (app.py:1313-1330) and the zoom mode's partial reveal
 * (app.py:1506-1510).
 */
module Games {
  import opened Wrappers
  import opened Achievements
  import Storage

  // ---- reset_game_mode ----

  const MindGame := "Mind-Game (Timed)"
  const SpeedRoundMode := "\U{26A1} Speed Round"
  const SurvivalMode := "\U{1F480} Survival Mode"
  const ExpertMode := "\U{1F9E0} Expert Mode"
  const SwapMode := "\U{1F504} Swap Mode (62)"
  const ZoomMode := "\U{1F50D} Zoom In (53)"
  const BattleMode := "\U{2694}\U{FE0F} Fact-Check Battle (65)"
  const TrainingMode := "\U{1F4DA} Training Mode (9)"

  /** mode_keys: the session keys each game mode owns. */
  const ModeTable: seq<(string, seq<string>)> := [
    (MindGame, ["mind_index", "mind_score", "timer_start"]),
    (SpeedRoundMode, ["speed_index", "speed_score", "speed_timer_start", "speed_streak"]),
    (SurvivalMode, ["survival_index", "survival_score", "survival_wrong", "survival_headlines"]),
    (ExpertMode, ["expert_index", "expert_score"]),
    (SwapMode, ["swap_index", "swap_score", "swap_headlines"]),
    (ZoomMode, ["zoom_index", "zoom_score", "zoom_start_time", "zoom_headline", "zoom_pred"]),
    (BattleMode, ["battle_index", "battle_player_score", "battle_ai_score", "battle_round", "battle_headlines"]),
    (TrainingMode, ["training_index", "training_score", "training_headlines", "training_explanation"])
  ]

  /** dict.get(mode, []) on a table of (name, keys) pairs. */
  function Get(table: seq<(string, seq<string>)>, mode: string): (r: seq<string>)
    ensures r == [] || exists i :: 0 <= i < |table| && table[i].0 == mode && r == table[i].1
    ensures (forall i :: 0 <= i < |table| ==> table[i].0 != mode) ==> r == []
    ensures forall i :: 0 <= i < |table| && table[i].0 == mode && (forall j :: 0 <= j < i ==> table[j].0 != mode) ==> r == table[i].1
  {
    if table == [] then []
    else if table[0].0 == mode then table[0].1
    else
      var r := Get(table[1..], mode);
      assert forall i :: 0 <= i < |table[1..]| ==> table[1..][i] == table[i + 1];
      r
  }

  /** The keys reset_game_mode clears for a mode; any other name owns none. */
  function ModeKeys(mode: string): seq<string> {
    Get(ModeTable, mode)
  }

  function KeySet(keys: seq<string>): (r: set<string>)
    ensures forall k :: k in r <==> k in keys
  {
    set k | k in keys
  }

  /** st.session_state: named values of any kind. */
  class Session<V> {
    var state: map<string, V>

    constructor (state: map<string, V>)
      ensures this.state == state
    {
      this.state := state;
    }

    /** reset_game_mode: delete each of the mode's keys that is present. */
    method ResetGameMode(mode: string)
      modifies this
      ensures state == old(state) - KeySet(ModeKeys(mode))
    {
      DeleteKeys(ModeKeys(mode));
    }

    /** The loop of reset_game_mode: `if key in st.session_state: del st.session_state[key]`. */
    method DeleteKeys(keys: seq<string>)
      modifies this
      ensures state == old(state) - KeySet(keys)
    {
      for i := 0 to |keys|
        invariant state == old(state) - KeySet(keys[..i])
      {
        if keys[i] in state {
          state := state - {keys[i]};
        }
        assert KeySet(keys[..i + 1]) == KeySet(keys[..i]) + {keys[i]} by {
          assert keys[..i + 1] == keys[..i] + [keys[i]];
        }
      }
      assert keys[..|keys|] == keys;
    }
  }

  /** The session after a reset: only the mode's keys are gone, every other value is kept. */
  lemma ResetSpec<V>(state: map<string, V>, mode: string)
    ensures var r := state - KeySet(ModeKeys(mode));
      && r.Keys == state.Keys - KeySet(ModeKeys(mode))
      && (forall k :: k in r ==> r[k] == state[k])
      && ((forall i :: 0 <= i < |ModeTable| ==> ModeTable[i].0 != mode) ==> r == state)
  {
    if forall i :: 0 <= i < |ModeTable| ==> ModeTable[i].0 != mode {
      assert KeySet(ModeKeys(mode)) == {};
    }
  }

  /** The mode a key belongs to, read off its first letters (every key is named after its mode). */
  function Owner(key: string): string {
    if |key| < 2 then ""
    else if key[0] == 'm' then MindGame
    else if key[0] == 't' then (if key[1] == 'i' then MindGame else TrainingMode)
    else if key[0] == 's' then
      (if key[1] == 'p' then SpeedRoundMode else if key[1] == 'u' then SurvivalMode else if key[1] == 'w' then SwapMode else "")
    else if key[0] == 'e' then ExpertMode
    else if key[0] == 'z' then ZoomMode
    else if key[0] == 'b' then BattleMode
    else ""
  }

  lemma OwnedLow()
    ensures forall i, k :: 0 <= i < 4 && 0 <= k < |ModeTable[i].1| ==> Owner(ModeTable[i].1[k]) == ModeTable[i].0
  {
  }

  lemma OwnedHigh()
    ensures forall i, k :: 4 <= i < |ModeTable| && 0 <= k < |ModeTable[i].1| ==> Owner(ModeTable[i].1[k]) == ModeTable[i].0
  {
  }

  /** Every key of the table is owned by the mode it is listed under. */
  lemma OwnerOfKeys(mode: string)
    ensures forall k :: k in ModeKeys(mode) ==> Owner(k) == mode
  {
    OwnedLow();
    OwnedHigh();
    var keys := ModeKeys(mode);
    if keys != [] {
      var i :| 0 <= i < |ModeTable| && ModeTable[i].0 == mode && keys == ModeTable[i].1;
      forall k | k in keys ensures Owner(k) == mode {
        var n :| 0 <= n < |keys| && keys[n] == k;
        assert Owner(ModeTable[i].1[n]) == ModeTable[i].0;
      }
    }
  }

  /** Resetting one mode never removes another mode's keys. */
  lemma ModesDisjoint(m1: string, m2: string)
    requires m1 != m2
    ensures KeySet(ModeKeys(m1)) !! KeySet(ModeKeys(m2))
  {
    OwnerOfKeys(m1);
    OwnerOfKeys(m2);
  }

  // ---- the speed round ----

  /** A speed round offers at most this many headlines. */
  const RoundLength := 20
  /** Every fifth consecutive correct answer earns a bonus. */
  const StreakBonusEvery := 5
  const StreakBonus := 2

  /** speed_index, speed_score and speed_streak. */
  datatype Tally = Tally(index: int, score: int, streak: int)

  /** The counters after one answer. */
  function SpeedStep(t: Tally, correct: bool): Tally {
    if correct then
      var streak := t.streak + 1;
      Tally(t.index + 1, t.score + 1 + (if streak % StreakBonusEvery == 0 then StreakBonus else 0), streak)
    else Tally(t.index + 1, t.score, 0)
  }

  /** A round, from the counters set when the game starts. */
  function Played(answers: seq<bool>): Tally
    decreases |answers|
  {
    if answers == [] then Tally(0, 0, 0)
    else SpeedStep(Played(answers[..|answers| - 1]), answers[|answers| - 1])
  }

  function CorrectCount(answers: seq<bool>): nat
    decreases |answers|
  {
    if answers == [] then 0
    else CorrectCount(answers[..|answers| - 1]) + (if answers[|answers| - 1] then 1 else 0)
  }

  /** The number of consecutive correct answers at the end. */
  function TrailingRun(answers: seq<bool>): nat
    decreases |answers|
  {
    if answers == [] || !answers[|answers| - 1] then 0
    else TrailingRun(answers[..|answers| - 1]) + 1
  }

  /** How many answers completed a streak that is a multiple of five. */
  function Bonuses(answers: seq<bool>): nat
    decreases |answers|
  {
    if answers == [] then 0
    else
      var prefix := answers[..|answers| - 1];
      Bonuses(prefix) + (if answers[|answers| - 1] && TrailingRun(answers) % StreakBonusEvery == 0 then 1 else 0)
  }

  /**
   * After a round the index counts the answers, the streak is the run of correct answers at
   * the end, and the score is one point per correct answer plus two per completed five-streak,
   * of which there is at most one per five correct answers.
   */
  lemma {:induction false} PlayedSpec(answers: seq<bool>)
    ensures var t := Played(answers);
      && t.index == |answers|
      && t.streak == TrailingRun(answers)
      && t.score == CorrectCount(answers) + StreakBonus * Bonuses(answers)
      && StreakBonusEvery * Bonuses(answers) + TrailingRun(answers) % StreakBonusEvery <= CorrectCount(answers)
    decreases |answers|
  {
    if answers != [] {
      PlayedSpec(answers[..|answers| - 1]);
    }
  }

  /** No round of at most 20 headlines scores more than 28: 20 correct answers and four bonuses. */
  lemma RoundMaximum(answers: seq<bool>)
    requires |answers| <= RoundLength
    ensures Played(answers).score <= RoundLength + StreakBonus * (RoundLength / StreakBonusEvery)
    ensures Played(answers).score >= CorrectCount(answers)
  {
    PlayedSpec(answers);
    CorrectBound(answers);
  }

  lemma {:induction false} CorrectBound(answers: seq<bool>)
    ensures CorrectCount(answers) <= |answers|
    decreases |answers|
  {
    if answers != [] {
      CorrectBound(answers[..|answers| - 1]);
    }
  }

  /** The speed round's counters, as the game loop changes them. */
  class SpeedRound {
    var index: int
    var score: int
    var streak: int

    /** The start of a round (app.py:1179-1182). */
    constructor ()
      ensures Tally(index, score, streak) == Played([])
    {
      index, score, streak := 0, 0, 0;
    }

    /**
     * One answered headline. A correct answer scores a point, extends the streak and runs
     * on_correct_answer; a streak reaching a multiple of five scores two more and runs the
     * streak-achievement loop. A wrong answer breaks the streak. The index moves on either way.
     */
    method Answer(correct: bool, disk: Storage.Disk, player: string, clock: Storage.Clock)
      requires disk.Valid()
      modifies this, disk
      ensures Tally(index, score, streak) == SpeedStep(old(Tally(index, score, streak)), correct)
      ensures disk.Valid() && disk.leaderboard == old(disk.leaderboard)
      ensures !correct ==> disk.achievements == old(disk.achievements) && disk.backups == old(disk.backups)
      ensures correct ==>
        && disk.Stored() == Storage.Rewarded(old(disk.Stored()), player, streak, clock.minute, disk.defs)
        && disk.backups == Storage.AfterBackup(old(disk.backups), Storage.AchievementsFile,
             Storage.RewardWrites(old(disk.achievements).Present?, old(disk.Stored()), player, streak, clock.minute, disk.defs),
             clock.second)
    {
      if correct {
        score := score + 1;
        streak := streak + 1;
        disk.Reward(player, streak, clock);
        if streak % StreakBonusEvery == 0 {
          score := score + StreakBonus;
        }
      } else {
        streak := 0;
      }
      index := index + 1;
    }
  }

  // ---- the zoom mode ----

  const Hidden := '\U{2588}'

  function Repeat(c: char, n: nat): (r: string)
    ensures |r| == n && forall i :: 0 <= i < n ==> r[i] == c
  {
    if n == 0 then [] else Repeat(c, n - 1) + [c]
  }

  /**
   * The headline as shown while it is being revealed: the first visible characters, an
   * ellipsis and one block per hidden character; all of it once nothing is hidden.
   */
  function ZoomDisplay(headline: string, visible: nat): (r: string)
    ensures visible >= |headline| ==> r == headline
    ensures visible < |headline| ==>
      && |r| == |headline| + 3
      && r[..visible] == headline[..visible]
      && r[visible..visible + 3] == "..."
      && (forall i :: visible + 3 <= i < |r| ==> r[i] == Hidden)
  {
    if visible < |headline| then headline[..visible] + "..." + Repeat(Hidden, |headline| - visible)
    else headline
  }

  /** As the reveal advances, the characters already shown stay as they were. */
  lemma ZoomRevealGrows(headline: string, visible: nat, more: nat)
    requires visible <= more < |headline|
    ensures ZoomDisplay(headline, more)[..visible] == ZoomDisplay(headline, visible)[..visible]
  {
    assert ZoomDisplay(headline, more)[..visible] == ZoomDisplay(headline, more)[..more][..visible];
  }
}
