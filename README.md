# Fake-news detector: achievements, leaderboard, games and assistant rules

This project is a Dafny model of the rule-bearing core of a Streamlit fake-news detector. The model covers four areas.

The achievement system of `app.py`:
- the 115-entry catalog built at import time;
- the per-player store in `achievements.json`;
- `load_achievements`, which seeds missing records and patches changed maxima;
- `update_achievement`, with its force/increment rule;
- the collective pass (collector, completionist, myth);
- `on_correct_answer`;
- the streak-achievement loop of the speed round;
- the timestamped backups that keep only the newest five.

The game rules of `app.py`:
- the leaderboard's high-score rule and its top-ten ranking;
- the input checks of `analyze_text`;
- the reasons `explain_reasoning` lists;
- `reset_game_mode`;
- the scoring of the speed round;
- the reveal string of the zoom mode.

The assistant of `chatbot.py`:
- the retry loop and response parsing of `chat_with_huggingface`;
- the backend decision table of `get_ai_response`;
- the prompt built by `generate_ai_explanation`.

The data preparation of `train_model.py`:
- the demo data set;
- the column resolution of `load_csv`;
- label normalisation;
- `dropna`.

The modules follow the program:

| Module | Contents |
|---|---|
| `Wrappers` | Option and Result |
| `Strings` | Python's `str(n)`, `startswith`, `in`, `lower`, `strip` and `join` |
| `Ordering` | string order and `sorted()` |
| `Backups` | backup names and the retention rule |
| `Catalog` | `ACHIEVEMENTS` |
| `Achievements` | the store as a value and every update as a function on it |
| `Leaderboard` | the high-score rule and the ranking |
| `Storage` | the files |
| `Games` | session reset, speed round and zoom |
| `Analysis` | analyze_text and explain_reasoning |
| `Chat` | chatbot.py |
| `Training` | train_model.py |

### How Storage models the files

`Storage` has a class `Disk`. Its fields are:
- the achievements file;
- the leaderboard file;
- the set of names in the backup directory.

Each file is absent, unparseable, or present with its contents. The methods of `Disk` are the program's file-handling functions. Each one states its new state through a function of `Achievements`, `Leaderboard` or `Backups`, and the properties are lemmas about those functions.

The other imperative parts are classes or methods over sequences:
- the session state and the speed-round counters are classes;
- the catalog loops, the seeding loop, the sweep loops, the reset loop, the retry loop, the column loop and the reason loops are methods over sequences.

Each of these is proved equal to a specification function.

## Model

| member | source | states |
|---|---|---|
| Catalog.Build | app.py:113-325 | the ten tier loops followed by the status extend produce exactly the catalog `Defs()` |
| Catalog.DefsDistinct | app.py:113-325 | the catalog has 115 entries and no id occurs twice |
| Catalog.MaxPositive | app.py:113-325 | every entry's max_progress is at least 1, so every achievement can be completed |
| Catalog.CollectiveEntries | app.py:218-239 | collector needs 10 unlocks; completionist and myth need as many as the catalog has entries; the catalog is well formed |
| Strings.Decimal | app.py:118 | `str(n)` is non-empty, all digits, one digit exactly below ten, and ends in `n % 10` |
| Strings.DecimalInjective | app.py:118 | different numbers render differently, which is what keeps the tier ids apart |
| Strings.Strip | app.py:579 | `strip()` returns the infix that is left once leading and trailing whitespace is removed |
| Strings.ContainsAt | app.py:636 | `sub in s` holds exactly when sub occurs at some position of s |
| Ordering.Sort | app.py:653 | `sorted()` gives an ordered permutation of its input |
| Ordering.SortedEnumeration | app.py:653 | every finite set of names has a strictly increasing listing |
| Backups.BackupName | app.py:649-650 | a backup's name starts with the file's base name |
| Backups.ListFamily | app.py:653 | the listing holds, without repetition, exactly the names starting with the base name |
| Backups.DeleteOldest | app.py:654-655 | the loop deletes exactly the first n-5 names of the sorted listing |
| Backups.Prune | app.py:653-655 | sorting the listing and deleting all but its last five leaves `Retain`: a backup of the file survives iff fewer than five of its backups sort after it, and other names always survive |
| Backups.RetainByDeletion | app.py:653-655 | retention is deletion of the first `len - 5` names of the increasing listing |
| Backups.RetainCount | app.py:653-655 | at most five backups of a file remain, and all of them when there were fewer than five |
| Backups.RetainKeepsNewest | app.py:653-655 | every surviving backup sorts after every deleted one |
| Backups.RetainIdempotent | app.py:653-655 | retaining again deletes nothing more |
| Backups.RetainReadded | app.py:653-655 | a deleted backup that is put back is deleted again |
| Backups.BackedTwice | app.py:646-655 | two backups within the same second leave the directory as one does |
| Backups.NewestBackupKept | app.py:646-655 | a new backup that sorts after the existing ones survives its own retention |
| Storage.Disk.BackupJson | app.py:646-655 | backup_json changes only the backup directory, to the copy-then-retain result when the file exists |
| Storage.AfterBackupTwice | app.py:646-655 | consecutive backups with one stamp compose to one backup |
| Storage.Disk.SaveAchievements | app.py:710-713 | the file holds the new store, after a backup that is taken only if the file existed |
| Achievements.SeedRecords | app.py:691-707 | the seeding loop returns `Seeded(base, defs)`, and its modified flag is set exactly when some definition was missing or had a different max |
| Achievements.SeededSpec | app.py:691-707 | every catalog id is present afterwards; a missing record is created locked at 0 with the catalog max and no date; an existing one keeps unlocked/progress/date and gets the catalog max; other ids are untouched |
| Achievements.NeedsSeedChanges | app.py:691-707 | the modified flag is set exactly when seeding changes the records |
| Achievements.SeededIdempotent | app.py:691-707 | seeding twice is seeding once, and the second pass would not save |
| Storage.Disk.LoadAchievements | app.py:672-707 | the returned records are the seeded ones (a new player starts from none); the file is rewritten, after a backup when it existed, exactly when seeding found a record to create or patch |
| Achievements.Updated | app.py:715-745 | update_achievement on the file contents keeps every key, adding only a missing player |
| Achievements.UpdateTarget | app.py:722-741 | a locked target's progress becomes force or old+increment (so a force can lower it), its max is kept, and it unlocks, dated, exactly when the progress moved and reached max; an update that does not move progress changes nothing |
| Achievements.UpdateNoop | app.py:722-745 | updating an unknown id or an unlocked record changes nothing |
| Achievements.UpdateIdempotent | app.py:722-745 | once an update has unlocked its record, repeating it changes nothing |
| Achievements.UpdateFrame | app.py:715-765 | update_achievement changes only the target and the player's three collective records; skip_collective changes only the target; other players and unlocked records are untouched |
| Achievements.SkipIsTouch | app.py:715-745 | a skip_collective update of a stored player runs no collective pass |
| Achievements.CollectiveFrame | app.py:747-765 | the collective pass changes only collector, completionist and myth, and never an unlocked record |
| Achievements.CollectorNeverDecreases | app.py:755-758 | the pass raises a locked collector to min(unlocked count, max) when that is higher, never lowers it, and unlocks it when that reaches max |
| Achievements.CompletionistUnreachable | app.py:759-765 | for a player holding only catalog records, a locked completionist or myth is never unlocked by the pass, because the count it needs includes itself |
| Achievements.UpdatedAllCollective | app.py:715-765 | updates keep every stored player's collective records, which the pass indexes |
| Storage.Disk.UpdateAchievement | app.py:715-745 | the file becomes `Updated(...)`; with the same stamp for every save, the directory gets one backup iff a new player was seeded into an existing file or the update moved its record (then the file exists when it is saved) |
| Storage.Disk.ApplyUpdate | app.py:722-741 | for a stored player, the record is touched and the file saved exactly when the update fires |
| Storage.Disk.AdmitPlayer | app.py:724-728 | a missing player is seeded through load_achievements before the update |
| Storage.Disk.CheckCollective | app.py:747-765 | the file becomes the collective pass's result, with one backup iff one of its forced updates moved its record |
| Achievements.CorrectAnswerCounted | app.py:770-774 | on_correct_answer gives every locked correct_ record exactly one more step, unlocking it, dated, at max |
| Storage.Disk.RunSweep | app.py:770-774 | the loop of update_achievement calls leaves the file as `Swept(...)` and backs up iff some call wrote |
| Achievements.StreakAwarded | app.py:1321-1324 | a five-streak forces every locked streak_ record whose max the streak reached to that max, unlocking it when that meets its own max |
| Storage.Disk.Reward | app.py:1313-1324 | a correct speed-round answer runs on_correct_answer, then the streak loop on a multiple of five |
| Leaderboard.RecordedSpec | app.py:1277-1281 | the rule writes exactly when it changes the board; the stored score is the maximum of the old and new; a tie keeps the old entry and date; other players untouched |
| Leaderboard.RunningMaximum | app.py:1277-1281 | from an empty board, a player is listed iff they finished a game, with the best score they ever reached |
| Leaderboard.ThreeGames | app.py:1277-1281 | scores 12, 9, 15 leave 15 dated by the third game |
| Storage.Disk.LoadLeaderboard | app.py:657-664 | a present leaderboard file is returned as stored; a missing or unparseable one reads as an empty board |
| Storage.Disk.SaveLeaderboard | app.py:666-669 | the file holds the board, after a backup when it existed |
| Storage.Disk.RecordScore | app.py:1277-1281 | the board is saved exactly when the score improves on the player's entry, and then holds `Recorded(...)`; the achievements are untouched |
| Leaderboard.SortDesc | app.py:1219 | `sorted(..., reverse=True)` by score is a non-increasing permutation |
| Leaderboard.InsertStable | app.py:1219 | inserting an item puts it first among the items with its score and keeps the order of the other ties |
| Leaderboard.SortStable | app.py:1219 | the sort is stable: for every score, the items with that score appear in the order the board lists them |
| Leaderboard.RankingStable | app.py:1219 | the tied items the top ten shows, for any score, are the first ones of that score in the board's order, in that order |
| Leaderboard.RankingSpec | app.py:1219 | the ranking shows at most ten board items in non-increasing order; every item left out scores no more than the last one shown; among tied items, those shown come first in the board's order |
| Games.Get | app.py:808 | `dict.get(mode, [])` returns the key list of the first entry named after the mode, and none for an unknown mode |
| Games.Session.ResetGameMode | app.py:796-810 | the session loses exactly the mode's keys that were present |
| Games.Session.DeleteKeys | app.py:808-810 | the loop deletes exactly the listed keys |
| Games.ResetSpec | app.py:796-810 | after a reset, the mode's keys are absent and every other value is kept |
| Games.OwnerOfKeys | app.py:797-807 | every key listed for a mode belongs to that mode |
| Games.ModesDisjoint | app.py:797-807 | resetting one mode never removes another mode's keys |
| Games.SpeedRound.constructor | app.py:1179-1182 | a round starts with index, score and streak all 0 |
| Games.SpeedRound.Answer | app.py:1313-1330 | one answer updates the counters by `SpeedStep`; a wrong answer leaves the achievements file, and so its backups, unchanged; a correct one runs `Reward` |
| Games.PlayedSpec | app.py:1313-1330 | after a round, the index counts the answers, the streak is the final run of correct answers, and the score is one per correct answer plus two per completed five-streak (at most one per five correct) |
| Games.RoundMaximum | app.py:1295-1330 | a 20-headline round scores between the number of correct answers and 28 |
| Games.ZoomDisplay | app.py:1506-1510 | the shown text is the first visible characters, "...", and one block per hidden character, or the whole headline |
| Games.ZoomRevealGrows | app.py:1506-1510 | as the reveal advances, characters already shown stay the same |
| Analysis.Prepared | app.py:579-588 | the text is refused iff its stripped form has fewer than 5 characters; otherwise it is exactly the stripped form when that has at most 1000 characters, and exactly its first 1000 characters when it is longer |
| Analysis.AnalyzeText | app.py:576-592 | the classifier is asked exactly about the prepared text, and a refused text gives no answer |
| Analysis.ExplainReasoning | app.py:618-641 | the loops build exactly `Reasons(text, signals)` |
| Analysis.IsUpperText | app.py:635 | the scan computes `isupper()`: some capital and no lower-case letter |
| Analysis.ClickbaitWarnings | app.py:637-640 | the loop lists one warning per clickbait word found, in list order |
| Analysis.Clickbait | app.py:637-640 | a word is found exactly when the lower-cased text contains it |
| Analysis.ClickbaitOrder | app.py:637-640 | the words found appear in the order of the word list: they embed into it at strictly increasing positions |
| Analysis.ReasonsSpec | app.py:618-641 | the classifier's reasons come first in order; the caps/punctuation warning appears iff "!!!" occurs or the text is all caps; a clickbait warning appears for a word iff the lower-cased text contains it; after the classifier's reasons come exactly the caps/punctuation warning, when it applies, and then the clickbait warnings in word-list order |
| Chat.Parse | chatbot.py:98-107 | a non-empty list uses its first element's text, an object uses its own, and anything else is "Unexpected API response format." |
| Chat.ChatWithHuggingface | chatbot.py:35-143 | the loop returns `HuggingFace(token, net)`; no request is made without a token; at most three are made; every attempt before the last one retried |
| Chat.NoTokenNoRequest | chatbot.py:41-48 | without a token the reply is "Hugging Face token not configured." |
| Chat.ThreeLoading | chatbot.py:81-92 | three 503 answers end in the loading timeout |
| Chat.TimeoutRetried | chatbot.py:115-123 | timeouts are retried on the first two attempts; three end in "Request timed out." |
| Chat.HttpErrorImmediate | chatbot.py:94-130 | a non-503 HTTP error ends the loop at once with its status code |
| Chat.SkipRetries | chatbot.py:81-92 | retried attempts do not affect the outcome |
| Chat.AiResponseSpec | chatbot.py:224-260 | the text comes from the backend its label names; the fallback is only asked after the preferred one failed; both failing returns the cloud error |
| Chat.PreferredDecides | chatbot.py:224-260 | once the preferred backend answers, the other's reply makes no difference |
| Chat.NoBackend | chatbot.py:41-260 | with no token and Ollama down, the user sees the token message labelled "cloud (failed)" |
| Chat.Verdict | chatbot.py:271 | the verdict reads real exactly when the prediction is 1 |
| Chat.Excerpt | chatbot.py:276 | `text[:200]` is the prefix of the text holding its first min(200, length) characters: the whole text when it is that short |
| Chat.ContextUsesExcerpt | chatbot.py:273-280 | texts that agree on their first 200 characters give the same context |
| Chat.ExplanationNamesVerdict | chatbot.py:271-287 | both the context and the question name the verdict |
| Training.DemoLayout | train_model.py:22-53 | the demo set has 1000 rows: the ten fake sentences fifty times with label 0, then the ten real ones fifty times with label 1 |
| Training.TimesAt | train_model.py:22-46 | element i of a ten-item list repeated n times is item i % 10 |
| Training.FirstPresent | train_model.py:61-64 | the first alternative that is a column, or none when no alternative is |
| Training.ResolveColumn | train_model.py:59-69 | each resolution loop computes `Resolved` and reports which column it took |
| Training.ResolvedSpec | train_model.py:59-69 | target becomes a column iff it or an alternative was one; an existing target is left alone; otherwise only the first alternative present is renamed |
| Training.LabelOriginOriginal | train_model.py:59-69 | the label column comes from the CSV's own header |
| Training.Normalised | train_model.py:76 | every label normalises to 0 or 1 |
| Training.NormalisedPositive | train_model.py:76 | "unreal", "10" and "True" normalise to 1: the match is a case-insensitive substring test |
| Training.NormalisedNegative | train_model.py:76 | "fake", "0" and a missing label ("nan") normalise to 0 |
| Training.ExamplesCount | train_model.py:76-77 | dropna drops exactly the rows with a missing text |
| Training.LoadCsv | train_model.py:56-77 | load_csv fails, listing the header, iff text or label is still missing after resolution; otherwise it returns the normalised rows with a text |

## Left out

- The classifier (TF-IDF and logistic regression), its probabilities and the floating point around them are not modelled. `AnalyzeText` takes the classifier as a function, and `ExplainReasoning` takes its signed top words.
- The Streamlit UI is not modelled. This covers `st.*` output, warnings, balloons, the HTML of the ranking and the game headers.
- The clock is not read. Each Storage operation receives one `Clock` that gives the date (`%Y-%m-%d %H:%M`) and the backup stamp, so all saves inside one operation share one stamp.
- `time.sleep` is not modelled.
- Random headline choice is not modelled.
- The speed round's timer is not modelled. Neither is the `index < 20 and time_left > 0` guard around the game loop: `Answer` models one answered headline.
- File contents are not bytes. JSON is modelled as parsed values. The backup directory is a set of names, and backup copies carry no contents.
- Storage.Disk.Valid: kept as an invariant over every stored player (each carries collector, completionist and myth), which is stricter than load_achievements needs: that function re-seeds any missing record of the player it loads without error. The one failure the invariant rules out is the KeyError of the collective pass (app.py:755-764), which indexes those three records directly. Valid also requires a parseable `achievements.json`, because the `json.load` there is unguarded and an unparseable file raises.
- check_collective_achievements receives `all_achs` at its single call site. That is the content just saved, so the model reads the file.
- Storage.Disk.RecordScore assumes the leaderboard rows carry `score`, and a missing `date` field is not modelled. The same rule appears at seven places in app.py (1277-1281, 1338-1342, 1387-1391, 1430-1434, 1483-1487, 1545-1549 and 1605-1609); it is cited once.
- Leaderboard.Ranking takes the board's items in the order the file lists them, as a parameter.
- Exception texts (`str(e)`) are not modelled. `Chat.Message(Crashed)` is the empty string.
- The HTTP request details (URL, headers, payload, system prompt) are not modelled, nor are failures other than a timeout and its status code. The connection is a function from the attempt number to its outcome.
- chat_with_ollama is not modelled apart from its success or failure. Its reply is a parameter of `AiResponse`.
- is_ollama_available, get_hf_token and check_rate_limit are not modelled. The token is a parameter, and the rate limit depends on the clock.
- Chat.ExplanationContext receives the credibility already formatted with one decimal, because floating-point formatting is not modelled.
- Lower-casing, `isupper()` and `isspace()` are modelled on ASCII letters and Python's ASCII and Unicode space characters. Unicode case folding is not modelled.
- The CSV parser is not modelled. A `Csv` is a header plus rows that have a cell for every column. pandas renaming of duplicate column names is not modelled.
- Training.LoadCsv reports the header as a list. The text of the ValueError, with its Python list repr, is not modelled.
- The training pipeline is not modelled: vectoriser, model fit, metrics and pickling. Neither are Test_model.py and check_env.py.
- The catalog's display strings (name, desc, icon) are not modelled, only ids and max_progress.
- Catalog.CollectiveEntries: completionist's max is `len(ACHIEVEMENTS) + 15` evaluated before the extend, which is 115. The lemma proves that this equals the catalog size.
