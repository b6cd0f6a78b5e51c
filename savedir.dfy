/**
 * The game's save directory, seen as a map from file names to contents.
 *
 * The active profile's data lives in the unsuffixed file `VRsuper.hot`; the
 * profile archived under label `L` lives in `VRsuper.hot.L`. This module
 * gives the file-name rules, the listing of labels, and the effect of each
 * menu action on the directory as a pure function, with the properties the
 * actions promise.
 */
module SaveDir {
  import opened Wrappers

  type Content = seq<bv8>

  type Files = map<string, Content>

  /** The save file the game reads: the active profile's data. */
  const Base: string := "VRsuper.hot"

  /** The prefix of every archived profile's file; it is 12 characters long. */
  const Prefix: string := "VRsuper.hot."

  /** The archive file of the profile labelled `name`. */
  function SaveName(name: string): string {
    Prefix + name
  }

  /** Whether a file in the directory is an archived profile. */
  predicate IsSaveName(f: string) {
    |Prefix| <= |f| && f[..|Prefix|] == Prefix
  }

  /** The label of an archive file: its name after the 12-character prefix. */
  function Label(f: string): (name: string)
    requires IsSaveName(f)
    ensures |Prefix| == 12 && SaveName(name) == f
  {
    f[|Prefix|..]
  }

  /** Labels and archive names are in one-to-one correspondence. */
  lemma SaveNameLabel(name: string)
    ensures IsSaveName(SaveName(name)) && Label(SaveName(name)) == name
  {
    assert SaveName(name)[..|Prefix|] == Prefix;
  }

  /** The active save file is never mistaken for an archive. */
  lemma BaseIsNoSave()
    ensures !IsSaveName(Base)
    ensures forall name :: SaveName(name) != Base
  {
    forall name ensures SaveName(name) != Base {
      assert |SaveName(name)| > |Base|;
    }
  }

  /** The labels the menu offers for the current directory. */
  function LabelSet(files: Files): set<string> {
    set f | f in files && IsSaveName(f) :: Label(f)
  }

  /** A label is offered exactly when its archive file exists. */
  lemma LabelSetSpec(files: Files, name: string)
    ensures name in LabelSet(files) <==> SaveName(name) in files
  {
    if SaveName(name) in files {
      SaveNameLabel(name);
    }
  }

  /**
   * The listing loop of the main menu: walk the directory entries, keep the
   * archive files and their labels, in listing order.
   */
  method ListSaves(entries: seq<string>) returns (saves: seq<string>, labels: seq<string>)
    ensures |saves| == |labels|
    ensures forall k :: 0 <= k < |labels| ==> saves[k] == SaveName(labels[k])
    ensures forall f :: f in saves <==> f in entries && IsSaveName(f)
    ensures forall name :: name in labels <==> SaveName(name) in entries
  {
    saves, labels := [], [];
    for i := 0 to |entries|
      invariant |saves| == |labels|
      invariant forall k :: 0 <= k < |labels| ==> saves[k] == SaveName(labels[k])
      invariant forall f :: f in saves <==> f in entries[..i] && IsSaveName(f)
    {
      var f := entries[i];
      assert entries[..i + 1] == entries[..i] + [f];
      if IsSaveName(f) {
        saves, labels := saves + [f], labels + [Label(f)];
      }
    }
    assert entries[..|entries|] == entries;
    forall name ensures name in labels <==> SaveName(name) in entries {
      SaveNameLabel(name);
      if name in labels {
        var k :| 0 <= k < |labels| && labels[k] == name;
        assert saves[k] in saves;
      }
      if SaveName(name) in entries {
        var k :| 0 <= k < |saves| && saves[k] == SaveName(name);
        SaveNameLabel(labels[k]);
      }
    }
  }

  /**
   * When the listed entries are exactly the directory's files, the listing
   * offers exactly the labels of `LabelSet`.
   */
  lemma ListingOffersLabelSet(files: Files, entries: seq<string>, labels: seq<string>)
    requires forall f :: f in entries <==> f in files
    requires forall name :: name in labels <==> SaveName(name) in entries
    ensures (set name | name in labels) == LabelSet(files)
  {
    forall name ensures name in labels <==> name in LabelSet(files) {
      LabelSetSpec(files, name);
    }
  }

  /** A character as Windows compares file names: ASCII letters fold to lower case. */
  function FoldChar(c: char): char {
    if 'A' <= c <= 'Z' then (c as int - 'A' as int + 'a' as int) as char else c
  }

  /** A file name as Windows compares it. */
  function Fold(s: string): string {
    seq(|s|, i requires 0 <= i < |s| => FoldChar(s[i]))
  }

  /** Whether a file named `f`, up to letter case, exists: what Windows tests before a rename. */
  predicate Clashes(files: Files, f: string) {
    exists g :: g in files && Fold(g) == Fold(f)
  }

  /**
   * A directory as Windows holds it: no two names differ only in letter case,
   * and the game's save file carries its exact name.
   */
  predicate WellNamed(files: Files) {
    (forall f, g :: f in files && g in files && Fold(f) == Fold(g) ==> f == g) &&
    (forall f :: f in files && Fold(f) == Fold(Base) ==> f == Base)
  }

  /**
   * Archive names are equal up to case exactly when their labels are, and
   * never equal the active save file's name up to case.
   */
  lemma FoldSaveName(a: string, b: string)
    ensures Fold(SaveName(a)) == Fold(SaveName(b)) <==> Fold(a) == Fold(b)
    ensures Fold(SaveName(a)) != Fold(Base)
  {
    assert Fold(SaveName(a)) == Fold(Prefix) + Fold(a);
    assert Fold(SaveName(b)) == Fold(Prefix) + Fold(b);
    if Fold(SaveName(a)) == Fold(SaveName(b)) {
      assert Fold(a) == Fold(SaveName(a))[|Prefix|..];
    }
  }

  /** `os.rename(src, dst)` on a directory where `dst` does not exist. */
  function Renamed(files: Files, src: string, dst: string): Files
    requires src in files
  {
    (files - {src})[dst := files[src]]
  }

  /** Renaming moves one file: its content is kept and the file count too. */
  lemma RenamedSpec(files: Files, src: string, dst: string)
    requires src in files && dst !in files
    ensures var r := Renamed(files, src, dst);
      r.Keys == files.Keys - {src} + {dst} && r[dst] == files[src] && |r| == |files| &&
      forall f :: f in files && f != src ==> f in r && r[f] == files[f]
  {
    var r := Renamed(files, src, dst);
    assert r.Keys == files.Keys - {src} + {dst};
    assert |files.Keys - {src}| == |files.Keys| - 1;
    assert |r.Keys| == |files.Keys - {src}| + 1;
  }

  /** Renaming back undoes a rename. */
  lemma RenamedBack(files: Files, src: string, dst: string)
    requires src in files && dst !in files
    ensures var r := Renamed(files, src, dst);
      dst in r && Renamed(r, dst, src) == files
  {
    var r := Renamed(files, src, dst);
    assert Renamed(r, dst, src).Keys == files.Keys;
  }

  /**
   * A rename onto a name that clashes with no file, up to case, keeps the
   * directory one that Windows can hold.
   */
  lemma RenamedWellNamed(files: Files, src: string, dst: string)
    requires WellNamed(files) && src in files && !Clashes(files, dst)
    requires Fold(dst) == Fold(Base) ==> dst == Base
    ensures WellNamed(Renamed(files, src, dst))
  {
  }

  /**
   * The first step of "Change profile" and "Create new profile": move the
   * active save file to the archive of the outgoing profile `current`, if
   * there is an active save file. `None` when that archive exists already,
   * up to letter case: Windows refuses to rename onto an existing file.
   */
  function Archived(files: Files, current: string): Option<Files> {
    if Base !in files then Some(files)
    else if Clashes(files, SaveName(current)) then None
    else Some(Renamed(files, Base, SaveName(current)))
  }

  /**
   * Archiving fails only when the active save exists and clashes with an
   * existing archive; afterwards there
   * is no active save file, no file was created or lost, the outgoing
   * profile's data is in its archive and every other file is untouched.
   */
  lemma ArchivedSpec(files: Files, current: string)
    ensures Archived(files, current).None? <==> Base in files && Clashes(files, SaveName(current))
    ensures Archived(files, current).Some? ==>
      var r := Archived(files, current).value;
      Base !in r && |r| == |files| &&
      (Base in files ==> r[SaveName(current)] == files[Base]) &&
      forall f :: f != Base && f != SaveName(current) ==>
        (f in r <==> f in files) && (f in r ==> r[f] == files[f])
  {
    BaseIsNoSave();
    if Base in files && !Clashes(files, SaveName(current)) {
      assert SaveName(current) !in files;
      RenamedSpec(files, Base, SaveName(current));
    }
  }

  /**
   * Archiving keeps the directory one that Windows can hold, and leaves no
   * file whose name clashes with the active save file's.
   */
  lemma ArchivedWellNamed(files: Files, current: string)
    requires WellNamed(files) && Archived(files, current).Some?
    ensures WellNamed(Archived(files, current).value)
    ensures !Clashes(Archived(files, current).value, Base)
  {
    var r := Archived(files, current).value;
    BaseIsNoSave();
    ArchivedSpec(files, current);
    if Base in files {
      FoldSaveName(current, current);
      RenamedWellNamed(files, Base, SaveName(current));
    }
  }

  /**
   * The directory after "Change profile" from the active profile `current` to
   * the archived profile `name`: archive the active save, then make the
   * chosen archive the active save. `None` when archiving is refused. On a
   * directory Windows can hold, activating is never refused
   * (`ArchivedWellNamed`).
   */
  function Switched(files: Files, current: string, name: string): Option<Files>
    requires SaveName(name) in files
  {
    match Archived(files, current)
    case None => None
    case Some(archived) =>
      assert SaveName(name) in archived by { ArchivedSpec(files, current); BaseIsNoSave(); }
      Some(Renamed(archived, SaveName(name), Base))
  }

  /**
   * With an active save file present, a successful switch leaves the old
   * active data in the outgoing profile's archive, the chosen archive's data
   * in the active save file, removes the chosen archive, keeps the file count
   * and touches no other file.
   */
  lemma SwitchWithActive(files: Files, current: string, name: string)
    requires SaveName(name) in files && Base in files
    requires Switched(files, current, name).Some?
    ensures var r := Switched(files, current, name).value;
      current != name &&
      SaveName(current) in r && r[SaveName(current)] == files[Base] &&
      Base in r && r[Base] == files[SaveName(name)] &&
      SaveName(name) !in r && |r| == |files| &&
      forall f :: f != Base && f != SaveName(current) && f != SaveName(name) ==>
        (f in r <==> f in files) && (f in r ==> r[f] == files[f])
  {
    BaseIsNoSave();
    ArchivedSpec(files, current);
    var archived := Archived(files, current).value;
    RenamedSpec(archived, SaveName(name), Base);
  }

  /**
   * With no active save file, a switch only activates the chosen archive;
   * the file count is kept and no other file is touched.
   */
  lemma SwitchWithoutActive(files: Files, current: string, name: string)
    requires SaveName(name) in files && Base !in files
    ensures Switched(files, current, name).Some?
    ensures var r := Switched(files, current, name).value;
      Base in r && r[Base] == files[SaveName(name)] &&
      SaveName(name) !in r && |r| == |files| &&
      forall f :: f != Base && f != SaveName(name) ==>
        (f in r <==> f in files) && (f in r ==> r[f] == files[f])
  {
    BaseIsNoSave();
    RenamedSpec(files, SaveName(name), Base);
  }

  /**
   * Switching from profile `a` to `b` and back to `a` restores the directory
   * exactly.
   */
  lemma SwitchBack(files: Files, a: string, b: string)
    requires WellNamed(files)
    requires Base in files && SaveName(b) in files && !Clashes(files, SaveName(a))
    ensures Switched(files, a, b).Some?
    ensures var m := Switched(files, a, b).value;
      SaveName(a) in m && Switched(m, b, a) == Some(files)
  {
    BaseIsNoSave();
    FoldSaveName(a, b);
    FoldSaveName(b, b);
    assert SaveName(a) !in files;
    var archived := Renamed(files, Base, SaveName(a));
    RenamedSpec(files, Base, SaveName(a));
    var m := Renamed(archived, SaveName(b), Base);
    RenamedSpec(archived, SaveName(b), Base);
    assert Switched(files, a, b) == Some(m);
    forall g | g in m ensures Fold(g) != Fold(SaveName(b)) {
      if g != Base && g != SaveName(a) {
        assert g in files && g != SaveName(b);
      }
    }
    var back := Renamed(m, Base, SaveName(b));
    RenamedSpec(m, Base, SaveName(b));
    assert Archived(m, b) == Some(back);
    RenamedBack(archived, SaveName(b), Base);
    assert back == archived;
    RenamedBack(files, Base, SaveName(a));
  }

  /**
   * Profile `alice` active, `bob` archived: changing to `bob` leaves alice's
   * data archived and bob's data active.
   */
  lemma AliceToBob(alice: Content, bob: Content)
    ensures var files := map[Base := alice, SaveName("bob") := bob];
      SaveName("bob") in files &&
      Switched(files, "alice", "bob") == Some(map[SaveName("alice") := alice, Base := bob])
  {
    var files := map[Base := alice, SaveName("bob") := bob];
    BaseIsNoSave();
    assert SaveName("alice") != SaveName("bob") by {
      assert SaveName("alice")[12] != SaveName("bob")[12];
    }
    assert SaveName("alice") !in files;
    forall g | g in files ensures Fold(g) != Fold(SaveName("alice")) {
      assert |Fold(g)| == |g| != |SaveName("alice")| == |Fold(SaveName("alice"))|;
    }
    var archived := map[SaveName("bob") := bob, SaveName("alice") := alice];
    assert files - {Base} == map[SaveName("bob") := bob];
    assert Archived(files, "alice") == Some(archived);
    assert archived - {SaveName("bob")} == map[SaveName("alice") := alice];
    assert Renamed(archived, SaveName("bob"), Base) == map[SaveName("alice") := alice, Base := bob];
  }

  /**
   * Rename and create never check that a new name is unused: while the
   * active save file exists and the active profile's name matches the label
   * of an archive up to letter case, every switch is refused.
   */
  lemma DuplicateNameBlocksSwitch(files: Files, current: string, taken: string, name: string)
    requires Base in files && SaveName(taken) in files && Fold(taken) == Fold(current)
    requires SaveName(name) in files
    ensures Switched(files, current, name).None?
  {
    FoldSaveName(taken, current);
  }

  /**
   * Profile `Bob` active, `bob` archived: changing to `bob` is refused,
   * because `VRsuper.hot.Bob` and `VRsuper.hot.bob` are one name on Windows.
   */
  lemma CaseOnlyClash(active: Content, bob: Content)
    ensures var files := map[Base := active, SaveName("bob") := bob];
      SaveName("bob") in files && Switched(files, "Bob", "bob").None?
  {
    var files := map[Base := active, SaveName("bob") := bob];
    assert Fold("bob") == Fold("Bob") by {
      assert Fold("bob")[0] == Fold("Bob")[0];
    }
    DuplicateNameBlocksSwitch(files, "Bob", "bob", "bob");
  }

  /**
   * "Delete profile" removes exactly the chosen archive; the active save file
   * and every other file are kept.
   */
  lemma DeleteSpec(files: Files, name: string)
    requires SaveName(name) in files
    ensures var r := files - {SaveName(name)};
      SaveName(name) !in r && |r| == |files| - 1 &&
      (Base in files ==> Base in r && r[Base] == files[Base]) &&
      forall f :: f in files && f != SaveName(name) ==> f in r && r[f] == files[f]
  {
    BaseIsNoSave();
    var r := files - {SaveName(name)};
    assert r.Keys == files.Keys - {SaveName(name)};
  }
}
