/**
 * The menu loop of the save manager: the save directory, the persisted
 * record and the name of the active profile, changed in place by one method
 * per menu action. The user's menu choice and the replies to the name
 * dialogs are parameters.
 */
module Manager {
  import opened Wrappers
  import opened Names
  import opened Store
  import opened SaveDir

  /** How a menu action ended. */
  datatype Status =
    | Done
      // "Rename current profile" with no active save file: the user is told so.
    | NoSaveFile
      // The replies ran out before an acceptable name was typed.
    | NoValidName
      // A rename hit an existing file; the uncaught error ends the program.
    | RenameRefused

  class SaveManager {
    /** Length of the absolute path `...\SUPERHOT_VR\VRsuper.hot.`. */
    const prefixLen: nat
    /** The save directory. */
    var files: Files
    /** The persisted record. */
    var db: Record
    /** The active profile; `None` until the first run names it. */
    var current: Option<string>

    /**
     * The directory is one Windows can hold; the record names the active
     * profile, and holds no name before the first run.
     */
    ghost predicate Valid()
      reads this
    {
      WellNamed(files) &&
      (CurrentKey in db <==> current.Some?) &&
      (current.Some? ==> db[CurrentKey] == current.value)
    }

    /** Start of the wizard: take the active profile from the loaded record. */
    constructor (prefixLen: nat, dir: Files, loaded: Record)
      requires WellNamed(dir)
      ensures Valid()
      ensures this.prefixLen == prefixLen && files == dir && db == loaded
      ensures current == (if CurrentKey in loaded then Some(loaded[CurrentKey]) else None)
    {
      this.prefixLen := prefixLen;
      files := dir;
      db := loaded;
      current := if CurrentKey in loaded then Some(loaded[CurrentKey]) else None;
    }

    /**
     * `os.rename` on Windows: refused when a file with the destination's name,
     * up to letter case, exists. The program only renames between the active
     * save file and an archive, whose names never match up to case.
     */
    method Rename(src: string, dst: string) returns (ok: bool)
      requires src in files && Fold(src) != Fold(dst)
      modifies this`files
      ensures ok <==> !Clashes(old(files), dst)
      ensures files == if ok then Renamed(old(files), src, dst) else old(files)
    {
      ok := !exists g | g in files :: Fold(g) == Fold(dst);
      if ok {
        files := Renamed(files, src, dst);
      }
    }

    /**
     * First run: the record names no profile, so the existing save file is
     * given a name. No file is renamed.
     */
    method FirstRun(answers: seq<Option<string>>) returns (status: Status)
      requires Valid() && current.None?
      modifies this`current, this`db
      ensures Valid() && files == old(files)
      ensures Chosen(answers, prefixLen).Some? ==>
        status == Done && current == Chosen(answers, prefixLen) &&
        db == old(db)[CurrentKey := current.value]
      ensures Chosen(answers, prefixLen).None? ==>
        status == NoValidName && current == old(current) && db == old(db)
    {
      var name := PromptName(answers, prefixLen);
      if name.None? {
        return NoValidName;
      }
      current := name;
      db := db[CurrentKey := name.value];
      status := Done;
    }

    /**
     * "Rename current profile": only the recorded name changes, since the
     * active data stays in the unsuffixed file. Refused without that file.
     */
    method RenameCurrent(answers: seq<Option<string>>) returns (status: Status)
      requires Valid() && current.Some?
      modifies this`current, this`db
      ensures Valid() && files == old(files)
      ensures Base !in files ==>
        status == NoSaveFile && current == old(current) && db == old(db)
      ensures Base in files && Chosen(answers, prefixLen).Some? ==>
        status == Done && current == Chosen(answers, prefixLen) &&
        db == old(db)[CurrentKey := current.value]
      ensures Base in files && Chosen(answers, prefixLen).None? ==>
        status == NoValidName && current == old(current) && db == old(db)
    {
      if Base !in files {
        return NoSaveFile;
      }
      var name := PromptName(answers, prefixLen);
      if name.None? {
        return NoValidName;
      }
      current := name;
      db := db[CurrentKey := name.value];
      status := Done;
    }

    /**
     * "Change profile" to an offered label: archive the active save under
     * the outgoing name, record the new name, then activate the chosen
     * archive.
     */
    method ChangeProfile(name: string) returns (status: Status)
      requires Valid() && current.Some? && name in LabelSet(files)
      modifies this`files, this`current, this`db
      ensures Valid()
      ensures Switched(old(files), old(current).value, name).None? ==>
        status == RenameRefused &&
        files == old(files) && current == old(current) && db == old(db)
      ensures Switched(old(files), old(current).value, name).Some? ==>
        status == Done &&
        files == Switched(old(files), old(current).value, name).value &&
        current == Some(name) && db == old(db)[CurrentKey := name]
    {
      LabelSetSpec(files, name);
      BaseIsNoSave();
      var outgoing := current.value;
      FoldSaveName(outgoing, name);
      ArchivedSpec(files, outgoing);
      if Archived(files, outgoing).Some? {
        ArchivedWellNamed(files, outgoing);
      }
      if Base in files {
        var archived := Rename(Base, SaveName(outgoing));
        if !archived {
          return RenameRefused;
        }
      }
      current := Some(name);
      db := db[CurrentKey := name];
      RenamedWellNamed(files, SaveName(name), Base);
      var activated := Rename(SaveName(name), Base);
      assert activated;
      status := Done;
    }

    /**
     * "Create new profile": archive the active save under the outgoing name,
     * then record a new name. No file is created; the game makes the new
     * save file when it is next started, and the program exits.
     */
    method CreateProfile(answers: seq<Option<string>>) returns (status: Status)
      requires Valid() && current.Some?
      modifies this`files, this`current, this`db
      ensures Valid()
      ensures Archived(old(files), old(current).value).None? ==>
        status == RenameRefused &&
        files == old(files) && current == old(current) && db == old(db)
      ensures Archived(old(files), old(current).value).Some? ==>
        files == Archived(old(files), old(current).value).value && Base !in files
      ensures Archived(old(files), old(current).value).Some? && Chosen(answers, prefixLen).Some? ==>
        status == Done && current == Chosen(answers, prefixLen) &&
        db == old(db)[CurrentKey := current.value]
      ensures Archived(old(files), old(current).value).Some? && Chosen(answers, prefixLen).None? ==>
        status == NoValidName && current == old(current) && db == old(db)
    {
      ArchivedSpec(files, current.value);
      FoldSaveName(current.value, current.value);
      if Archived(files, current.value).Some? {
        ArchivedWellNamed(files, current.value);
      }
      if Base in files {
        var archived := Rename(Base, SaveName(current.value));
        if !archived {
          return RenameRefused;
        }
      }
      var name := PromptName(answers, prefixLen);
      if name.None? {
        return NoValidName;
      }
      current := name;
      db := db[CurrentKey := name.value];
      status := Done;
    }

    /** "Delete profile": remove the chosen archive file. */
    method DeleteProfile(name: string)
      requires Valid() && name in LabelSet(files)
      modifies this`files
      ensures Valid()
      ensures files == old(files) - {SaveName(name)}
    {
      LabelSetSpec(files, name);
      files := files - {SaveName(name)};
    }
  }
}
