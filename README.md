# Superhot VR save manager: a Dafny model

The save manager keeps several named profiles for Superhot VR, which has only one save slot. It does this by renaming files in the game's save directory. The active profile's data is always in the unsuffixed file `VRsuper.hot`. The profile archived under label `L` is in `VRsuper.hot.L`. A small persisted record, `{"current_profile": name}`, remembers which profile is active.

This project models the menu wizard of `superhot_vr_save_manager.py`:

- `wrappers.dfy` (module `Wrappers`) holds `Option` and `Result`.
- `names.dfy` (module `Names`) holds the name check that the three name prompts share, and the re-prompting loop. Each reply of a dialog is an `Option<string>`, where `None` is a cancelled dialog. A prompt's replies are a sequence.
- `store.dfy` (module `Store`) holds the persisted record and the start-up load.
- `savedir.dfy` (module `SaveDir`) holds the file-name rules and the listing loop. It also gives, as pure functions with their lemmas, the effect on the directory of moving a file, archiving the active save, switching profiles and deleting one.
- `manager.dfy` (module `Manager`) holds the class `SaveManager`. It has the directory (`files`), the record (`db`) and the active profile (`current`) as fields. It has one method per menu action, and its invariant `Valid()` ties the record to `current`.

`prefixLen` stands for the length of the absolute path `%userprofile%\AppData\LocalLow\SUPERHOT_Team\SUPERHOT_VR\VRsuper.hot.`. The path check is `prefixLen + |name| <= 247`.

Three points where the code's behaviour is easy to miss:

- The code never checks that a new profile name is unused. This holds for both rename and create. `SaveDir.DuplicateNameBlocksSwitch` shows what happens next. While `VRsuper.hot` exists and the active profile's name matches an archive label up to letter case, every "Change profile" is refused.
- The code offers every archive label for deletion. If an archive happens to carry the active profile's name, that label is offered too.
- `os.rename` on Windows fails when the destination exists. Windows compares file names without regard to letter case, so `VRsuper.hot.Bob` clashes with `VRsuper.hot.bob`. The code does not catch that error, so the program ends. The model returns `RenameRefused` and leaves the state unchanged.

The directory invariant `SaveDir.WellNamed` says two things. No two file names differ only in letter case, which is what a Windows directory can hold. And the active save file carries exactly the name `VRsuper.hot`.

## Model

| member | source | states |
|---|---|---|
| Names.StripSeparators | superhot_vr_save_manager.py:154 | the stripped name holds exactly the characters of the name that are not `-` or `_`, and is no longer than it |
| Names.ValidNameChars | superhot_vr_save_manager.py:154-159 | a name is accepted iff it has at least one letter or digit, has only letters, digits, `-` and `_`, and its save path has at most 247 characters |
| Names.OverlongRejected | superhot_vr_save_manager.py:157-159 | a name whose save path is 248 characters long is refused |
| Names.ForeignCharRejected | superhot_vr_save_manager.py:180-182 | a name holding any character other than a letter, a digit, `-` or `_` (such as `bad name!`) is refused |
| Names.FirstAccepted | superhot_vr_save_manager.py:152-159 | the prompt loop stops at the first accepted reply; every earlier reply was cancelled or refused |
| Names.Chosen | superhot_vr_save_manager.py:178-185 | the name a prompt settles on is accepted and was typed by the user; there is none iff no reply is acceptable |
| Names.PromptName | superhot_vr_save_manager.py:202-209 | the re-prompting loop returns the first acceptable reply, or none when the replies run out |
| Store.Load | superhot_vr_save_manager.py:65-79 | a missing config file loads as the empty record, with no current profile; an undecodable one is the only failure; otherwise the decoded record is returned |
| SaveDir.Label | superhot_vr_save_manager.py:170 | the prefix is 12 characters long, and putting it back in front of the label gives the archive file's name |
| SaveDir.SaveNameLabel | superhot_vr_save_manager.py:168-170 | every label's archive name is recognised as an archive, and its label is the original one |
| SaveDir.BaseIsNoSave | superhot_vr_save_manager.py:168 | the bare `VRsuper.hot` is never an archive and is never any label's archive name |
| SaveDir.LabelSetSpec | superhot_vr_save_manager.py:164-170 | a label is offered iff the file `VRsuper.hot.<label>` exists |
| SaveDir.ListSaves | superhot_vr_save_manager.py:164-171 | the listing keeps exactly the entries that start with `VRsuper.hot.`, pairs each with its label, and lists a label iff its archive name is an entry |
| SaveDir.RenamedSpec | superhot_vr_save_manager.py:193 | a rename onto a free name moves one file with its content, keeps the file count and leaves every other file alone |
| SaveDir.RenamedBack | superhot_vr_save_manager.py:197 | renaming back undoes a rename |
| SaveDir.ArchivedSpec | superhot_vr_save_manager.py:199-200 | archiving fails iff `VRsuper.hot` exists and the outgoing profile's archive already exists, up to letter case; otherwise no unsuffixed save remains, the old active data is in the outgoing archive, the file count is kept and nothing else changes |
| Names.IsValidName | superhot_vr_save_manager.py:154-159 | the acceptance test itself; its meaning is stated by `Names.ValidNameChars` |
| SaveDir.LabelSet | superhot_vr_save_manager.py:164-170 | the offered labels; `SaveDir.LabelSetSpec` states that a label is offered iff its archive exists |
| SaveDir.ListingOffersLabelSet | superhot_vr_save_manager.py:164-172 | when the listed entries are exactly the directory's files, the listing offers exactly `LabelSet` |
| SaveDir.Renamed | superhot_vr_save_manager.py:193-200 | one rename; `SaveDir.RenamedSpec` and `SaveDir.RenamedBack` state its effect |
| SaveDir.FoldSaveName | superhot_vr_save_manager.py:193 | archive names match up to letter case iff their labels do, and never match `VRsuper.hot` |
| SaveDir.RenamedWellNamed | superhot_vr_save_manager.py:193 | a rename onto a name that clashes with no file keeps the directory one Windows can hold |
| SaveDir.Archived | superhot_vr_save_manager.py:192-200 | the archiving step shared by change and create; `SaveDir.ArchivedSpec` states its effect |
| SaveDir.ArchivedWellNamed | superhot_vr_save_manager.py:199-200 | archiving keeps the directory one Windows can hold and leaves no file clashing with `VRsuper.hot` |
| SaveDir.Switched | superhot_vr_save_manager.py:188-197 | the directory after a profile change; `SaveDir.SwitchWithActive` and `SaveDir.SwitchWithoutActive` state its effect |
| SaveDir.SwitchWithActive | superhot_vr_save_manager.py:188-197 | with `VRsuper.hot` present, a switch puts the old active data under the old name, activates the chosen archive, removes that archive, keeps the file count and leaves other files alone |
| SaveDir.SwitchWithoutActive | superhot_vr_save_manager.py:192-197 | with no `VRsuper.hot`, a switch only activates the chosen archive, keeping the file count and every other file |
| SaveDir.SwitchBack | superhot_vr_save_manager.py:193-197 | switching from A to B while `VRsuper.hot` exists and A has no archive, then back to A, restores the directory exactly |
| SaveDir.AliceToBob | superhot_vr_save_manager.py:188-197 | with alice active and bob archived, changing to bob leaves alice archived and bob active |
| SaveDir.DuplicateNameBlocksSwitch | superhot_vr_save_manager.py:192-193 | while `VRsuper.hot` exists and the active profile's name matches an archive label up to letter case, every switch is refused |
| SaveDir.CaseOnlyClash | superhot_vr_save_manager.py:192-193 | with `Bob` active and `bob` archived, changing to `bob` is refused |
| SaveDir.DeleteSpec | superhot_vr_save_manager.py:214-218 | deleting removes exactly the chosen archive; `VRsuper.hot` and all other files are kept |
| Manager.SaveManager.constructor | superhot_vr_save_manager.py:147-149 | on a directory Windows can hold, the active profile is the record's `current_profile`, or none when the record lacks it |
| Manager.SaveManager.Rename | superhot_vr_save_manager.py:193 | a rename succeeds iff no file matches the destination up to letter case, and then moves the file; otherwise nothing changes |
| Manager.SaveManager.FirstRun | superhot_vr_save_manager.py:148-161 | the first acceptable name becomes the active profile and is recorded; no file changes |
| Manager.SaveManager.RenameCurrent | superhot_vr_save_manager.py:173-187 | refused without `VRsuper.hot`; otherwise only the active name and the record change, to the first acceptable name; the files never change |
| Manager.SaveManager.ChangeProfile | superhot_vr_save_manager.py:188-197 | the directory becomes the switched one and the chosen label is active and recorded; when archiving is refused nothing changes |
| Manager.SaveManager.CreateProfile | superhot_vr_save_manager.py:198-213 | the active save is archived under the outgoing name and no unsuffixed save remains; the first acceptable name becomes active and is recorded; no file is created |
| Manager.SaveManager.DeleteProfile | superhot_vr_save_manager.py:214-218 | exactly the chosen archive file is removed; the active profile and the record are unchanged |

## Left out

- The windows and dialogs are replaced by method parameters. This covers the menu, the name dialogs, the pop-up messages and the licence prompt (`get_input`, `sg.Popup*`, `main`). A menu choice is a label argument, and a name dialog is a sequence of replies.
- The menu loop itself is left out: a caller calls one action method per loop turn. The "Exit" action and the `sys.exit(0)` after "Create new profile" end the process, and the model simply returns.
- A dialog keeps prompting until it gets an acceptable name. The model has finitely many replies, so `NoValidName` stands for a prompt that never ends. "Create new profile" has already archived the active save by then, and the model keeps that.
- `ChangeProfile` and `DeleteProfile` require an offered label. The selection dialog only returns an offered option. With no archives it never returns, and that case is not modelled.
- `run_checks` is left out: the platform check and the save-directory check are environment checks.
- `full()` is left out: path expansion becomes the parameter `prefixLen`.
- JSON encoding and file I/O in `get_db` and `write_db` are left out. `db` is the record as written after each change. A failed write only prints the record, so it changes no model state.
- `SaveDir.WellNamed` assumes the active save file is named exactly `VRsuper.hot`. A directory holding, say, `vrsuper.hot` is not modelled. The code's `os.path.isfile` would find that file, but the game writes the exact name and the program only renames onto it.
- `SaveDir.Fold` folds ASCII letters only. Windows also folds letter case outside ASCII.
- Record values are modelled as strings. Other JSON values are not.
- `Names.IsValidName`: `str.isalnum` accepts every Unicode letter and digit, but the model accepts ASCII letters and digits only.
- `SaveDir.ListSaves`: the directory holds regular files only. The `os.path.isfile` filter that skips subdirectories is not modelled.
- Being interrupted between a rename and the record update is not modelled. Each action runs to completion or stops at a refused rename.
