/**
 rotate_index: the database and its attribute file are replaced by newly written ones, and the previous ones are
 kept under another suffix. Four renames do it, and later failures undo the earlier ones.
 */
module IndexRotation {
  import opened Options

  // A file is what it is whatever its name: the number stands for the file with its contents.
  type Files = map<string, int>

  datatype Errno = Ok | NoEntry | NotDirectory | Other

  const BSIZE := 256

  // ----- Renaming -----

  // What rename reports for a fate that the system has in store: nothing can be done with a file that is not there.
  function Report(files: Files, fate: Errno, from: string): Errno {
    if fate == Ok && from !in files then NoEntry else fate
  }

  function Renamed(files: Files, fate: Errno, from: string, to: string): Files {
    if fate == Ok && from in files then (files - {from})[to := files[from]] else files
  }

  // The first error of a live file is passed over if it says that there is no such file.
  predicate Tolerated(e: Errno) {
    e == NoEntry || e == NotDirectory
  }

  // ----- The names -----

  datatype Names = Names(db: string, new0: string, old0: string, attr: string, new1: string, old1: string)

  function NamesOf(db: string, newSuffix: string, oldSuffix: string): Names {
    Names(db, db + "." + newSuffix, db + "." + oldSuffix,
          db + ".attr", db + ".attr." + newSuffix, db + ".attr." + oldSuffix)
  }

  predicate Distinct(n: Names) {
    && n.db != n.new0 && n.db != n.old0 && n.db != n.attr && n.db != n.new1 && n.db != n.old1
    && n.new0 != n.old0 && n.new0 != n.attr && n.new0 != n.new1 && n.new0 != n.old1
    && n.old0 != n.attr && n.old0 != n.new1 && n.old0 != n.old1
    && n.attr != n.new1 && n.attr != n.old1 && n.new1 != n.old1
  }

  predicate IsOther(n: Names, name: string) {
    name != n.db && name != n.new0 && name != n.old0 && name != n.attr && name != n.new1 && name != n.old1
  }

  lemma Prefixed(p: string, a: string, b: string)
    ensures p + a == p + b <==> a == b
  {
    assert (p + a)[|p|..] == a && (p + b)[|p|..] == b;
  }

  // Which suffixes give six different names
  lemma NamesAreDistinct(db: string, newSuffix: string, oldSuffix: string)
    ensures Distinct(NamesOf(db, newSuffix, oldSuffix))
       <==> && newSuffix != oldSuffix && "attr" !in {newSuffix, oldSuffix}
            && newSuffix != "attr." + oldSuffix && oldSuffix != "attr." + newSuffix
  {
    var d := db + ".";
    var n := NamesOf(db, newSuffix, oldSuffix);
    assert n.attr == d + "attr";
    assert n.new1 == d + ("attr." + newSuffix) && n.old1 == d + ("attr." + oldSuffix);
    Prefixed(d, newSuffix, oldSuffix);
    Prefixed(d, newSuffix, "attr");
    Prefixed(d, oldSuffix, "attr");
    Prefixed(d, newSuffix, "attr." + newSuffix);
    Prefixed(d, newSuffix, "attr." + oldSuffix);
    Prefixed(d, oldSuffix, "attr." + newSuffix);
    Prefixed(d, oldSuffix, "attr." + oldSuffix);
    Prefixed(d, "attr", "attr." + newSuffix);
    Prefixed(d, "attr", "attr." + oldSuffix);
    Prefixed(d, "attr." + newSuffix, "attr." + oldSuffix);
    Prefixed("attr.", newSuffix, oldSuffix);
  }

  // A text printed into a buffer of this size
  function Snprintf(text: string): string {
    if |text| < BSIZE then text else text[..BSIZE - 1]
  }

  predicate TooLong(db: string, newSuffix: string, oldSuffix: string) {
    var i, j := |db| + |oldSuffix|, |db| + |newSuffix|;
    (if i > j then i else j) + 6 >= BSIZE
  }

  // The check at the start refuses exactly the names that would be cut short.
  lemma NothingIsCut(db: string, newSuffix: string, oldSuffix: string)
    ensures var n := NamesOf(db, newSuffix, oldSuffix);
            var uncut := && Snprintf(n.attr) == n.attr && Snprintf(n.new0) == n.new0 && Snprintf(n.old0) == n.old0
                         && Snprintf(n.new1) == n.new1 && Snprintf(n.old1) == n.old1;
            !TooLong(db, newSuffix, oldSuffix) <==> uncut
  {
  }

  // ----- The rotation -----

  // The outcome with all states that were passed through
  datatype Outcome = Outcome(ok: bool, states: seq<Files>)

  // The fates of the four renames are numbered from 0, those of the six that undo them from 4.
  function Rotation(files: Files, fate: int -> Errno, n: Names): Outcome {
    var s0 := Renamed(files, fate(0), n.db, n.old0);
    var s1 := Renamed(s0, fate(1), n.new0, n.db);
    if Report(files, fate(0), n.db) == Other then Outcome(false, [files, s0])
    else if Report(s0, fate(1), n.new0) != Ok then
      Outcome(false, [files, s0, s1, Renamed(s1, fate(4), n.old0, n.db)])
    else AttrRotation(files, s0, s1, fate, n)
  }

  // The second half, for the attribute file
  function AttrRotation(files: Files, s0: Files, s1: Files, fate: int -> Errno, n: Names): Outcome {
    var s2 := Renamed(s1, fate(2), n.attr, n.old1);
    var s3 := Renamed(s2, fate(3), n.new1, n.attr);
    if Report(s1, fate(2), n.attr) == Other then
      var u0 := Renamed(s2, fate(5), n.db, n.new0);
      Outcome(false, [files, s0, s1, s2, u0, Renamed(u0, fate(6), n.old0, n.db)])
    else if Report(s2, fate(3), n.new1) != Ok then
      var u0 := Renamed(s3, fate(7), n.old1, n.attr);
      var u1 := Renamed(u0, fate(8), n.db, n.new0);
      Outcome(false, [files, s0, s1, s2, s3, u0, u1, Renamed(u1, fate(9), n.old0, n.db)])
    else Outcome(true, [files, s0, s1, s2, s3])
  }

  class FileSystem {
    var files: Files
    ghost var states: seq<Files>
    const fate: int -> Errno

    constructor (files: Files, fate: int -> Errno)
      ensures this.files == files && this.fate == fate && states == [files]
    {
      this.files, this.fate, this.states := files, fate, [files];
    }

    method Rename(site: int, from: string, to: string) returns (err: Errno)
      modifies this
      ensures err == Report(old(files), fate(site), from)
      ensures files == Renamed(old(files), fate(site), from, to)
      ensures states == old(states) + [files]
    {
      err := Report(files, fate(site), from);
      files := Renamed(files, fate(site), from, to);
      states := states + [files];
    }

    method RotateIndex(db: string, newSuffix: string, oldSuffix: string) returns (ok: bool)
      requires states == [files]
      modifies this
      ensures TooLong(db, newSuffix, oldSuffix) ==> !ok && files == old(files)
      ensures !TooLong(db, newSuffix, oldSuffix)
          ==> Outcome(ok, states) == Rotation(old(files), fate, NamesOf(db, newSuffix, oldSuffix))
      ensures states != [] && files == states[|states| - 1]
    {
      hide Rotation;
      NothingIsCut(db, newSuffix, oldSuffix);
      var i, j := |db| + |oldSuffix|, |db| + |newSuffix|;
      if i > j {
        j := i;
      }
      if j + 6 >= BSIZE {
        return false;
      }
      var buf4 := Snprintf(db + ".attr");
      var buf3 := Snprintf(db + ".attr." + oldSuffix);
      var buf2 := Snprintf(db + ".attr." + newSuffix);
      var buf1 := Snprintf(db + "." + oldSuffix);
      var buf0 := Snprintf(db + "." + newSuffix);
      ok := RenameAll(db, buf0, buf1, buf2, buf3, buf4);
    }

    // The four renames and what undoes them
    method RenameAll(db: string, buf0: string, buf1: string, buf2: string, buf3: string, buf4: string)
      returns (ok: bool)
      requires states == [files]
      modifies this
      ensures Outcome(ok, states) == Rotation(old(files), fate, Names(db, buf0, buf1, buf4, buf2, buf3))
      ensures states != [] && files == states[|states| - 1]
    {
      hide Renamed, Report, AttrRotation;
      var undo;
      ghost var before := files;
      var err := Rename(0, db, buf1);
      ghost var s0 := files;
      assert states == [before, s0];
      if err != Ok && !Tolerated(err) {
        return false;
      }
      err := Rename(1, buf0, db);
      ghost var s1 := files;
      assert states == [before, s0, s1];
      if err != Ok {
        undo := Rename(4, buf1, db);
        return false;
      }
      ok := RenameAttr(db, buf0, buf1, buf2, buf3, buf4, before, s0);
    }

    method RenameAttr(db: string, buf0: string, buf1: string, buf2: string, buf3: string, buf4: string,
                      ghost before: Files, ghost s0: Files)
      returns (ok: bool)
      requires states == [before, s0, files]
      modifies this
      ensures Outcome(ok, states)
           == AttrRotation(before, s0, old(files), fate, Names(db, buf0, buf1, buf4, buf2, buf3))
      ensures states != [] && files == states[|states| - 1]
    {
      hide Renamed, Report;
      ghost var s1 := files;
      var err := Rename(2, buf4, buf3);
      ghost var s2 := files;
      assert states == [before, s0, s1, s2];
      if err != Ok && !Tolerated(err) {
        UndoTwo(db, buf0, buf1, 5);
        assert states == [before, s0, s1, s2, states[4], states[5]];
        return false;
      }
      err := Rename(3, buf2, buf4);
      ghost var s3 := files;
      assert states == [before, s0, s1, s2, s3];
      if err != Ok {
        UndoThree(db, buf0, buf1, buf3, buf4);
        assert states == [before, s0, s1, s2, s3, states[5], states[6], states[7]];
        return false;
      }
      ok := true;
    }

    // The attribute file goes back first.
    method UndoThree(db: string, buf0: string, buf1: string, buf3: string, buf4: string)
      modifies this
      ensures var u0 := Renamed(old(files), fate(7), buf3, buf4);
              var u1 := Renamed(u0, fate(8), db, buf0);
              states == old(states) + [u0, u1, Renamed(u1, fate(9), buf1, db)]
      ensures states != [] && files == states[|states| - 1]
    {
      hide Renamed, Report;
      var undo := Rename(7, buf3, buf4);
      UndoTwo(db, buf0, buf1, 8);
    }

    // The database goes back to its new name and the previous one to its own.
    method UndoTwo(db: string, buf0: string, buf1: string, site: int)
      modifies this
      ensures var u := Renamed(old(files), fate(site), db, buf0);
              states == old(states) + [u, Renamed(u, fate(site + 1), buf1, db)]
      ensures states != [] && files == states[|states| - 1]
    {
      hide Renamed, Report;
      var undo := Rename(site, db, buf0);
      undo := Rename(site + 1, buf1, db);
    }
  }

  // ----- All or nothing -----

  // Different names are different files.
  predicate Injective(files: Files) {
    forall a, b :: a in files && b in files && files[a] == files[b] ==> a == b
  }

  // The file that had this name before is now under this one, if it was there.
  predicate Follows(before: Files, name: string, now: Files, to: string) {
    name in before ==> to in now && now[to] == before[name]
  }

  // Success: the new files are live, the live ones have become the previous ones, and no other file is touched.
  ghost predicate AllDone(before: Files, now: Files, n: Names) {
    && n.new0 in before && n.new1 in before && n.new0 !in now && n.new1 !in now
    && Follows(before, n.new0, now, n.db) && Follows(before, n.db, now, n.old0)
    && Follows(before, n.new1, now, n.attr) && Follows(before, n.attr, now, n.old1)
    && OthersSame(before, now, n)
  }

  // Whether the name stands for the same file, or for none, before and after
  predicate Same(before: Files, now: Files, name: string) {
    if name in before then name in now && now[name] == before[name] else name !in now
  }

  // Failure: all is as it was, except that a previous file of an earlier rotation may be gone.
  ghost predicate NothingDone(before: Files, now: Files, n: Names) {
    forall name :: name in before || name in now
      ==> Same(before, now, name) || ((name == n.old0 || name == n.old1) && name !in now)
  }

  ghost predicate AllOrNothing(before: Files, o: Outcome, n: Names) {
    var now := if o.states == [] then before else o.states[|o.states| - 1];
    if o.ok then AllDone(before, now, n) else NothingDone(before, now, n)
  }

  ghost predicate UndoWorks(fate: int -> Errno) {
    forall site :: 4 <= site <= 9 ==> fate(site) == Ok
  }

  // The report of no such file is right for this live file, and no file of an earlier rotation is in the way when
  // it comes to undoing.
  predicate MissingIsHarmless(files: Files, fate: Errno, live: string, previous: string, replaced: bool, done: bool) {
    Tolerated(Report(files, fate, live)) ==> !(replaced && live in files) && (done || previous !in files)
  }

  predicate Replaced(files: Files, fate: Errno, name: string) {
    fate == Ok && name in files
  }

  // The rename of the live database, and where it comes to that of the attribute file, has not been misjudged.
  predicate WellJudged(files: Files, fate: int -> Errno, n: Names) {
    var first, second := Replaced(files, fate(1), n.new0), Replaced(files, fate(3), n.new1);
    var reached := first && Report(files, fate(2), n.attr) != Other;
    && MissingIsHarmless(files, fate(0), n.db, n.old0, first, reached && second)
    && (fate(0) != Other && reached ==> MissingIsHarmless(files, fate(2), n.attr, n.old1, second, second))
  }

  // The four files of a rotation at some point: each under the name it had or the name it is to get.
  ghost predicate Kept(files: Files, now: Files, n: Names) {
    && (Follows(files, n.db, now, n.db) || Follows(files, n.db, now, n.old0))
    && (Follows(files, n.new0, now, n.new0) || Follows(files, n.new0, now, n.db))
    && (Follows(files, n.attr, now, n.attr) || Follows(files, n.attr, now, n.old1))
    && (Follows(files, n.new1, now, n.new1) || Follows(files, n.new1, now, n.attr))
  }

  ghost predicate AllKept(files: Files, o: Outcome, n: Names) {
    forall k :: 0 <= k < |o.states| ==> Kept(files, o.states[k], n)
  }

  // ----- What stands under the six names -----

  datatype Six = Six(db: Option<int>, new0: Option<int>, old0: Option<int>,
                     attr: Option<int>, new1: Option<int>, old1: Option<int>)

  function Under(files: Files, name: string): Option<int> {
    if name in files then Some(files[name]) else None
  }

  function View(files: Files, n: Names): Six {
    Six(Under(files, n.db), Under(files, n.new0), Under(files, n.old0),
        Under(files, n.attr), Under(files, n.new1), Under(files, n.old1))
  }

  // No other file is touched.
  ghost predicate OthersSame(before: Files, now: Files, n: Names) {
    forall name :: (name in before || name in now) && IsOther(n, name) ==> Same(before, now, name)
  }

  // The state that stands for v, among the files from before
  ghost predicate IsState(before: Files, now: Files, n: Names, v: Six) {
    View(now, n) == v && OthersSame(before, now, n)
  }

  lemma RenamedPoint(files: Files, fate: Errno, from: string, to: string, name: string)
    requires from != to
    ensures var now := Renamed(files, fate, from, to);
            Under(now, name) == if !Replaced(files, fate, from) then Under(files, name)
                                else if name == from then None
                                else if name == to then Under(files, from)
                                else Under(files, name)
  {
  }

  lemma RenamedOthers(before: Files, files: Files, fate: Errno, from: string, to: string, n: Names)
    requires from != to && !IsOther(n, from) && !IsOther(n, to) && OthersSame(before, files, n)
    ensures OthersSame(before, Renamed(files, fate, from, to), n)
  {
    hide Renamed;
    var now := Renamed(files, fate, from, to);
    forall name | (name in before || name in now) && IsOther(n, name) ensures Same(before, now, name) {
      RenamedPoint(files, fate, from, to, name);
      assert name in before || name in files ==> Same(before, files, name);
    }
  }

  // A rename of one of the six names to another
  lemma RenamedView(before: Files, files: Files, fate: Errno, from: string, to: string, n: Names)
    requires Distinct(n) && from != to && !IsOther(n, from) && !IsOther(n, to) && OthersSame(before, files, n)
    ensures var now, moved := Renamed(files, fate, from, to), Replaced(files, fate, from);
            && OthersSame(before, now, n)
            && View(now, n).db == After(View(files, n).db, moved, n.db, from, to, Under(files, from))
            && View(now, n).new0 == After(View(files, n).new0, moved, n.new0, from, to, Under(files, from))
            && View(now, n).old0 == After(View(files, n).old0, moved, n.old0, from, to, Under(files, from))
            && View(now, n).attr == After(View(files, n).attr, moved, n.attr, from, to, Under(files, from))
            && View(now, n).new1 == After(View(files, n).new1, moved, n.new1, from, to, Under(files, from))
            && View(now, n).old1 == After(View(files, n).old1, moved, n.old1, from, to, Under(files, from))
  {
    hide Renamed, OthersSame, Under;
    RenamedOthers(before, files, fate, from, to, n);
    RenamedPoint(files, fate, from, to, n.db);
    RenamedPoint(files, fate, from, to, n.new0);
    RenamedPoint(files, fate, from, to, n.old0);
    RenamedPoint(files, fate, from, to, n.attr);
    RenamedPoint(files, fate, from, to, n.new1);
    RenamedPoint(files, fate, from, to, n.old1);
  }

  function After(was: Option<int>, moved: bool, name: string, from: string, to: string, file: Option<int>)
    : Option<int>
  {
    if !moved then was else if name == from then None else if name == to then file else was
  }

  // The renames of a rotation on what stands under the six names; each takes place if its fate is Ok and its source
  // is there.
  function BackUp(v: Six, fate: Errno): Six {
    if fate == Ok && v.db.Some? then v.(old0 := v.db, db := None) else v
  }

  function Replace(v: Six, fate: Errno): Six {
    if fate == Ok && v.new0.Some? then v.(db := v.new0, new0 := None) else v
  }

  function BackUpAttr(v: Six, fate: Errno): Six {
    if fate == Ok && v.attr.Some? then v.(old1 := v.attr, attr := None) else v
  }

  function ReplaceAttr(v: Six, fate: Errno): Six {
    if fate == Ok && v.new1.Some? then v.(attr := v.new1, new1 := None) else v
  }

  function Restore(v: Six): Six {
    if v.old0.Some? then v.(db := v.old0, old0 := None) else v
  }

  function TakeBack(v: Six): Six {
    if v.db.Some? then v.(new0 := v.db, db := None) else v
  }

  function RestoreAttr(v: Six): Six {
    if v.old1.Some? then v.(attr := v.old1, old1 := None) else v
  }

  lemma BackUpState(before: Files, files: Files, n: Names, v: Six, fate: Errno)
    requires Distinct(n) && IsState(before, files, n, v)
    ensures IsState(before, Renamed(files, fate, n.db, n.old0), n, BackUp(v, fate))
  {
    hide Renamed, OthersSame;
    RenamedView(before, files, fate, n.db, n.old0, n);
  }

  lemma ReplaceState(before: Files, files: Files, n: Names, v: Six, fate: Errno)
    requires Distinct(n) && IsState(before, files, n, v)
    ensures IsState(before, Renamed(files, fate, n.new0, n.db), n, Replace(v, fate))
  {
    hide Renamed, OthersSame;
    RenamedView(before, files, fate, n.new0, n.db, n);
  }

  lemma BackUpAttrState(before: Files, files: Files, n: Names, v: Six, fate: Errno)
    requires Distinct(n) && IsState(before, files, n, v)
    ensures IsState(before, Renamed(files, fate, n.attr, n.old1), n, BackUpAttr(v, fate))
  {
    hide Renamed, OthersSame;
    RenamedView(before, files, fate, n.attr, n.old1, n);
  }

  lemma ReplaceAttrState(before: Files, files: Files, n: Names, v: Six, fate: Errno)
    requires Distinct(n) && IsState(before, files, n, v)
    ensures IsState(before, Renamed(files, fate, n.new1, n.attr), n, ReplaceAttr(v, fate))
  {
    hide Renamed, OthersSame;
    RenamedView(before, files, fate, n.new1, n.attr, n);
  }

  lemma RestoreState(before: Files, files: Files, n: Names, v: Six)
    requires Distinct(n) && IsState(before, files, n, v)
    ensures IsState(before, Renamed(files, Ok, n.old0, n.db), n, Restore(v))
  {
    hide Renamed, OthersSame;
    RenamedView(before, files, Ok, n.old0, n.db, n);
  }

  lemma TakeBackState(before: Files, files: Files, n: Names, v: Six)
    requires Distinct(n) && IsState(before, files, n, v)
    ensures IsState(before, Renamed(files, Ok, n.db, n.new0), n, TakeBack(v))
  {
    hide Renamed, OthersSame;
    RenamedView(before, files, Ok, n.db, n.new0, n);
  }

  lemma RestoreAttrState(before: Files, files: Files, n: Names, v: Six)
    requires Distinct(n) && IsState(before, files, n, v)
    ensures IsState(before, Renamed(files, Ok, n.old1, n.attr), n, RestoreAttr(v))
  {
    hide Renamed, OthersSame;
    RenamedView(before, files, Ok, n.old1, n.attr, n);
  }

  // ----- The same conditions on six -----

  predicate SixFollow(a: Option<int>, b: Option<int>) {
    a.Some? ==> b == a
  }

  predicate SixDone(u: Six, v: Six) {
    && u.new0.Some? && u.new1.Some? && v.new0.None? && v.new1.None?
    && v.db == u.new0 && SixFollow(u.db, v.old0) && v.attr == u.new1 && SixFollow(u.attr, v.old1)
  }

  predicate SixUndone(u: Six, v: Six) {
    && v.db == u.db && v.new0 == u.new0 && v.attr == u.attr && v.new1 == u.new1
    && (v.old0 == u.old0 || v.old0.None?) && (v.old1 == u.old1 || v.old1.None?)
  }

  predicate SixKept(u: Six, v: Six) {
    && (SixFollow(u.db, v.db) || SixFollow(u.db, v.old0))
    && (SixFollow(u.new0, v.new0) || SixFollow(u.new0, v.db))
    && (SixFollow(u.attr, v.attr) || SixFollow(u.attr, v.old1))
    && (SixFollow(u.new1, v.new1) || SixFollow(u.new1, v.attr))
  }

  // No file stands under two of the names.
  predicate SixInjective(u: Six) {
    && (u.db.Some? ==> u.db != u.new0 && u.db != u.old0 && u.db != u.attr && u.db != u.new1 && u.db != u.old1)
    && (u.new0.Some? ==> u.new0 != u.old0 && u.new0 != u.attr && u.new0 != u.new1 && u.new0 != u.old1)
    && (u.old0.Some? ==> u.old0 != u.attr && u.old0 != u.new1 && u.old0 != u.old1)
    && (u.attr.Some? ==> u.attr != u.new1 && u.attr != u.old1)
    && (u.new1.Some? ==> u.new1 != u.old1)
  }

  lemma ViewIsInjective(files: Files, n: Names)
    requires Distinct(n) && Injective(files)
    ensures SixInjective(View(files, n))
  {
  }

  lemma KeptInView(before: Files, now: Files, n: Names, v: Six)
    requires IsState(before, now, n, v)
    ensures Kept(before, now, n) <==> SixKept(View(before, n), v)
  {
    hide OthersSame;
  }

  lemma DoneInView(before: Files, now: Files, n: Names, v: Six)
    requires IsState(before, now, n, v)
    ensures AllDone(before, now, n) <==> SixDone(View(before, n), v)
  {
  }

  lemma NothingInView(before: Files, now: Files, n: Names, v: Six)
    requires Distinct(n) && IsState(before, now, n, v)
    ensures NothingDone(before, now, n) <==> SixUndone(View(before, n), v)
  {
    hide OthersSame;
    if NothingDone(before, now, n) {
      NothingAt(before, now, n, n.db);
      NothingAt(before, now, n, n.new0);
      NothingAt(before, now, n, n.old0);
      NothingAt(before, now, n, n.attr);
      NothingAt(before, now, n, n.new1);
      NothingAt(before, now, n, n.old1);
    } else {
      var name :| (name in before || name in now)
                  && !(Same(before, now, name) || ((name == n.old0 || name == n.old1) && name !in now));
      if IsOther(n, name) {
        OtherIsSame(before, now, n, name);
      }
    }
  }

  lemma OtherIsSame(before: Files, now: Files, n: Names, name: string)
    requires OthersSame(before, now, n) && IsOther(n, name) && (name in before || name in now)
    ensures Same(before, now, name)
  {
  }

  lemma NothingAt(before: Files, now: Files, n: Names, name: string)
    requires NothingDone(before, now, n)
    ensures Under(now, name) == Under(before, name) || ((name == n.old0 || name == n.old1) && Under(now, name).None?)
  {
    if name in before || name in now {
      assert Same(before, now, name) || ((name == n.old0 || name == n.old1) && name !in now);
    }
  }

  predicate SixHarmless(live: Option<int>, previous: Option<int>, fate: Errno, replaced: bool, done: bool) {
    Tolerated(SixReport(fate, live)) ==> !(replaced && live.Some?) && (done || previous.None?)
  }

  function SixReport(fate: Errno, from: Option<int>): Errno {
    if fate == Ok && from.None? then NoEntry else fate
  }

  predicate SixJudged(u: Six, f0: Errno, f1: Errno, f2: Errno, f3: Errno) {
    var first, second := f1 == Ok && u.new0.Some?, f3 == Ok && u.new1.Some?;
    var reached := first && SixReport(f2, u.attr) != Other;
    && SixHarmless(u.db, u.old0, f0, first, reached && second)
    && (f0 != Other && reached ==> SixHarmless(u.attr, u.old1, f2, second, second))
  }

  lemma JudgedInView(files: Files, fate: int -> Errno, n: Names)
    ensures WellJudged(files, fate, n) <==> SixJudged(View(files, n), fate(0), fate(1), fate(2), fate(3))
  {
  }

  // ----- The rotation on six -----

  datatype SixOutcome = SixOutcome(ok: bool, states: seq<Six>)

  function SixRotation(u: Six, f0: Errno, f1: Errno, f2: Errno, f3: Errno): SixOutcome {
    var v0 := BackUp(u, f0);
    var v1 := Replace(v0, f1);
    var v2 := BackUpAttr(v1, f2);
    var v3 := ReplaceAttr(v2, f3);
    if SixReport(f0, u.db) == Other then SixOutcome(false, [u, v0])
    else if SixReport(f1, v0.new0) != Ok then SixOutcome(false, [u, v0, v1, Restore(v1)])
    else if SixReport(f2, v1.attr) == Other then
      SixOutcome(false, [u, v0, v1, v2, TakeBack(v2), Restore(TakeBack(v2))])
    else if SixReport(f3, v2.new1) != Ok then
      var u0 := RestoreAttr(v3);
      SixOutcome(false, [u, v0, v1, v2, v3, u0, TakeBack(u0), Restore(TakeBack(u0))])
    else SixOutcome(true, [u, v0, v1, v2, v3])
  }

  // Every state of the rotation stands for the one on six.
  ghost predicate Stands(before: Files, o: Outcome, n: Names, x: SixOutcome) {
    && o.ok == x.ok && |o.states| == |x.states|
    && forall k :: 0 <= k < |o.states| ==> IsState(before, o.states[k], n, x.states[k])
  }

  // The four renames, whether or not they all come about
  lemma ForwardStates(files: Files, fate: int -> Errno, n: Names)
    returns (s0: Files, s1: Files, s2: Files, s3: Files, v0: Six, v1: Six, v2: Six, v3: Six)
    requires Distinct(n)
    ensures s0 == Renamed(files, fate(0), n.db, n.old0) && s1 == Renamed(s0, fate(1), n.new0, n.db)
    ensures s2 == Renamed(s1, fate(2), n.attr, n.old1) && s3 == Renamed(s2, fate(3), n.new1, n.attr)
    ensures v0 == BackUp(View(files, n), fate(0)) && v1 == Replace(v0, fate(1))
    ensures v2 == BackUpAttr(v1, fate(2)) && v3 == ReplaceAttr(v2, fate(3))
    ensures IsState(files, files, n, View(files, n)) && IsState(files, s0, n, v0) && IsState(files, s1, n, v1)
    ensures IsState(files, s2, n, v2) && IsState(files, s3, n, v3)
  {
    hide Renamed, IsState, View, Distinct, BackUp, Replace, BackUpAttr, ReplaceAttr;
    var v := View(files, n);
    StartState(files, n);
    s0, v0 := Renamed(files, fate(0), n.db, n.old0), BackUp(v, fate(0));
    BackUpState(files, files, n, v, fate(0));
    s1, v1 := Renamed(s0, fate(1), n.new0, n.db), Replace(v0, fate(1));
    ReplaceState(files, s0, n, v0, fate(1));
    s2, v2 := Renamed(s1, fate(2), n.attr, n.old1), BackUpAttr(v1, fate(2));
    BackUpAttrState(files, s1, n, v1, fate(2));
    s3, v3 := Renamed(s2, fate(3), n.new1, n.attr), ReplaceAttr(v2, fate(3));
    ReplaceAttrState(files, s2, n, v2, fate(3));
  }

  lemma StartState(files: Files, n: Names)
    ensures IsState(files, files, n, View(files, n))
  {
  }

  // What the rotation decides on is what stands under the names.
  lemma ReportsInView(before: Files, now: Files, n: Names, v: Six, fate: Errno)
    requires IsState(before, now, n, v)
    ensures Report(now, fate, n.db) == SixReport(fate, v.db) && Report(now, fate, n.new0) == SixReport(fate, v.new0)
    ensures Report(now, fate, n.attr) == SixReport(fate, v.attr) && Report(now, fate, n.new1) == SixReport(fate, v.new1)
  {
    hide OthersSame;
  }

  lemma RotationInView(files: Files, fate: int -> Errno, n: Names)
    requires Distinct(n) && UndoWorks(fate)
    ensures Stands(files, Rotation(files, fate, n), n, SixRotation(View(files, n), fate(0), fate(1), fate(2), fate(3)))
  {
    hide Renamed, IsState, View, Distinct, BackUp, Replace, BackUpAttr, ReplaceAttr, Report, SixReport;
    hide TakeBack, Restore, RestoreAttr;
    var v := View(files, n);
    var s0, s1, s2, s3, v0, v1, v2, v3 := ForwardStates(files, fate, n);
    ReportsInView(files, files, n, v, fate(0));
    ReportsInView(files, s0, n, v0, fate(1));
    ReportsInView(files, s1, n, v1, fate(2));
    ReportsInView(files, s2, n, v2, fate(3));
    if Report(files, fate(0), n.db) == Other {
    } else if Report(s0, fate(1), n.new0) != Ok {
      RestoreState(files, s1, n, v1);
    } else if Report(s1, fate(2), n.attr) == Other {
      TakeBackState(files, s2, n, v2);
      RestoreState(files, Renamed(s2, Ok, n.db, n.new0), n, TakeBack(v2));
    } else if Report(s2, fate(3), n.new1) != Ok {
      var u0 := Renamed(s3, Ok, n.old1, n.attr);
      RestoreAttrState(files, s3, n, v3);
      TakeBackState(files, u0, n, RestoreAttr(v3));
      RestoreState(files, Renamed(u0, Ok, n.db, n.new0), n, TakeBack(RestoreAttr(v3)));
    }
  }

  predicate SixAllOrNothing(u: Six, x: SixOutcome) {
    x.states != [] && var v := x.states[|x.states| - 1]; if x.ok then SixDone(u, v) else SixUndone(u, v)
  }

  predicate SixAllKept(u: Six, x: SixOutcome) {
    forall k :: 0 <= k < |x.states| ==> SixKept(u, x.states[k])
  }

  lemma SixIsAllOrNothing(u: Six, f0: Errno, f1: Errno, f2: Errno, f3: Errno)
    requires SixInjective(u)
    ensures SixAllOrNothing(u, SixRotation(u, f0, f1, f2, f3)) <==> SixJudged(u, f0, f1, f2, f3)
  {
    hide SixAllOrNothing, SixRotation, SixJudged, SixInjective;
    if f3 == Ok && u.new1.Some? {
      SixWithNewAttr(u, f0, f1, f2, f3);
    } else {
      SixWithoutNewAttr(u, f0, f1, f2, f3);
    }
  }

  lemma SixWithNewAttr(u: Six, f0: Errno, f1: Errno, f2: Errno, f3: Errno)
    requires SixInjective(u) && f3 == Ok && u.new1.Some?
    ensures SixAllOrNothing(u, SixRotation(u, f0, f1, f2, f3)) <==> SixJudged(u, f0, f1, f2, f3)
  {
  }

  lemma SixWithoutNewAttr(u: Six, f0: Errno, f1: Errno, f2: Errno, f3: Errno)
    requires SixInjective(u) && (f3 != Ok || u.new1.None?)
    ensures SixAllOrNothing(u, SixRotation(u, f0, f1, f2, f3)) <==> SixJudged(u, f0, f1, f2, f3)
  {
    hide SixAllOrNothing, SixRotation, SixJudged, SixInjective;
    if f0 == Ok {
      SixBackedUp(u, f1, f2, f3);
    } else {
      SixNotBackedUp(u, f0, f1, f2, f3);
    }
  }

  lemma SixBackedUp(u: Six, f1: Errno, f2: Errno, f3: Errno)
    requires SixInjective(u) && (f3 != Ok || u.new1.None?)
    ensures SixAllOrNothing(u, SixRotation(u, Ok, f1, f2, f3)) <==> SixJudged(u, Ok, f1, f2, f3)
  {
  }

  lemma SixNotBackedUp(u: Six, f0: Errno, f1: Errno, f2: Errno, f3: Errno)
    requires SixInjective(u) && (f3 != Ok || u.new1.None?) && f0 != Ok
    ensures SixAllOrNothing(u, SixRotation(u, f0, f1, f2, f3)) <==> SixJudged(u, f0, f1, f2, f3)
  {
  }

  lemma SixIsKept(u: Six, f0: Errno, f1: Errno, f2: Errno, f3: Errno)
    requires SixJudged(u, f0, f1, f2, f3)
    ensures SixAllKept(u, SixRotation(u, f0, f1, f2, f3))
  {
  }

  // With undoing that works the rotation is all or nothing exactly if it is well judged, and then none of its files
  // is ever lost on the way.
  lemma RotationIsAllOrNothing(files: Files, fate: int -> Errno, n: Names)
    requires Distinct(n) && Injective(files) && UndoWorks(fate)
    ensures AllOrNothing(files, Rotation(files, fate, n), n) <==> WellJudged(files, fate, n)
    ensures WellJudged(files, fate, n) ==> AllKept(files, Rotation(files, fate, n), n)
  {
    var u, o := View(files, n), Rotation(files, fate, n);
    var x := SixRotation(u, fate(0), fate(1), fate(2), fate(3));
    hide View, Rotation, SixRotation, WellJudged, IsState, Kept, SixKept, AllDone, NothingDone, SixDone, SixUndone;
    hide SixJudged, Distinct, Injective, SixInjective;
    RotationInView(files, fate, n);
    ViewIsInjective(files, n);
    JudgedInView(files, fate, n);
    SixIsAllOrNothing(u, fate(0), fate(1), fate(2), fate(3));
    var last := |x.states| - 1;
    StatesNotEmpty(u, fate(0), fate(1), fate(2), fate(3));
    DoneInView(files, o.states[last], n, x.states[last]);
    NothingInView(files, o.states[last], n, x.states[last]);
    if WellJudged(files, fate, n) {
      SixIsKept(u, fate(0), fate(1), fate(2), fate(3));
      forall k | 0 <= k < |o.states| ensures Kept(files, o.states[k], n) {
        KeptInView(files, o.states[k], n, x.states[k]);
      }
    }
  }

  lemma StatesNotEmpty(u: Six, f0: Errno, f1: Errno, f2: Errno, f3: Errno)
    ensures SixRotation(u, f0, f1, f2, f3).states != []
  {
  }

  // No rename gives a file a second name, so what is kept is kept under exactly one.
  lemma RenamedInjective(files: Files, fate: Errno, from: string, to: string)
    requires Injective(files)
    ensures Injective(Renamed(files, fate, from, to))
  {
  }

  lemma RotationStaysInjective(files: Files, fate: int -> Errno, n: Names)
    requires Injective(files)
    ensures forall k :: 0 <= k < |Rotation(files, fate, n).states| ==> Injective(Rotation(files, fate, n).states[k])
  {
    hide Injective, Renamed;
    forall f: Files, e: Errno, from: string, to: string | Injective(f) ensures Injective(Renamed(f, e, from, to)) {
      RenamedInjective(f, e, from, to);
    }
  }

  // When all live files are there and a missing file is only reported when it is missing, the rotation is all or
  // nothing.
  lemma HonestRotation(files: Files, fate: int -> Errno, n: Names)
    requires Distinct(n) && Injective(files) && UndoWorks(fate)
    requires n.db in files && n.attr in files && !Tolerated(fate(0)) && !Tolerated(fate(2))
    ensures AllOrNothing(files, Rotation(files, fate, n), n) && AllKept(files, Rotation(files, fate, n), n)
  {
    RotationIsAllOrNothing(files, fate, n);
    hide Rotation, AllOrNothing, AllKept;
  }

  // The rotation succeeds exactly if both new files are there and can be renamed, and each live file, if it cannot be,
  // is reported as missing or as having no directory.
  lemma RotationSucceeds(files: Files, fate: int -> Errno, n: Names)
    requires Distinct(n)
    ensures Rotation(files, fate, n).ok
       <==> (&& fate(0) in {Ok, NoEntry, NotDirectory} && fate(1) == Ok && n.new0 in files
             && fate(2) in {Ok, NoEntry, NotDirectory} && fate(3) == Ok && n.new1 in files)
  {
    var s0 := Renamed(files, fate(0), n.db, n.old0);
    var s1 := Renamed(s0, fate(1), n.new0, n.db);
    var s2 := Renamed(s1, fate(2), n.attr, n.old1);
    NewFilesStay(files, fate(0), n.db, n.old0, n);
    NewFilesStay(s0, fate(1), n.new0, n.db, n);
    NewFilesStay(s1, fate(2), n.attr, n.old1, n);
    hide Distinct, Renamed;
    assert Report(s0, fate(1), n.new0) == Ok <==> fate(1) == Ok && n.new0 in s0;
    assert Report(s2, fate(3), n.new1) == Ok <==> fate(3) == Ok && n.new1 in s2;
    assert Report(files, fate(0), n.db) == Other <==> fate(0) == Other;
    assert Report(s1, fate(2), n.attr) == Other <==> fate(2) == Other;
  }

  lemma NewFilesStay(files: Files, fate: Errno, from: string, to: string, n: Names)
    requires Distinct(n)
    requires (from == n.db && to == n.old0) || (from == n.new0 && to == n.db) || (from == n.attr && to == n.old1)
    ensures n.new1 in Renamed(files, fate, from, to) <==> n.new1 in files
    ensures from != n.new0 ==> (n.new0 in Renamed(files, fate, from, to) <==> n.new0 in files)
  {
  }

  // A first rename that fails and reports a missing file for a database that is there: the rotation reports success
  // and the database has been overwritten.
  lemma MisjudgedRenameLosesDatabase()
    ensures var n := NamesOf("db", "new", "old");
            var files := map[n.db := 1, n.new0 := 2, n.attr := 3, n.new1 := 4];
            var o := Rotation(files, site => if site == 0 then NoEntry else Ok, n);
            && o.ok && |o.states| == 5
            && forall name :: name in o.states[4] ==> o.states[4][name] != files[n.db]
  {
    NamesAreDistinct("db", "new", "old");
    var n := NamesOf("db", "new", "old");
    assert "attr."[0] == 'a';
    assert Distinct(n);
    hide NamesOf;
  }

  // No database yet, but a previous one from earlier: when the rotation fails, undoing makes the previous one live.
  lemma StaleDatabaseComesBack()
    ensures var n := NamesOf("db", "new", "old");
            var files := map[n.old0 := 1, n.attr := 3, n.new1 := 4];
            var o := Rotation(files, site => Ok, n);
            !o.ok && |o.states| == 4 && n.db in o.states[3] && o.states[3][n.db] == 1
  {
    NamesAreDistinct("db", "new", "old");
    var n := NamesOf("db", "new", "old");
    assert "attr."[0] == 'a';
    assert Distinct(n);
    hide NamesOf;
  }
}
