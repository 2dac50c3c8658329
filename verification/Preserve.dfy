/** The check that an ELF editing command keeps the metadata of every module. */
module Preserve {
  import opened Wrappers
  import opened Bytes
  import opened ElfImage
  import opened ElfLayout

  type Path = string

  /** What a path is at some moment: a link, a regular file with its bytes, a regular file that the system does not let
      be read, or anything else, such as a directory or nothing. */
  datatype File = Symlink | Regular(data: seq<byte>) | Unreadable | NoFile

  datatype Failure =
    | CommandFailed
    | Replaced(path: Path)
    | NotRead(path: Path)
    | Invalid(path: Path, error: ElfError)
    | Removed(path: Path)
    | Changed(path: Path)

  /** Why a module could not be read before the command. */
  datatype Reason = NotReadable | Malformed(error: ElfError)

  /** Refused: a module could not be read before the command, which was then not run. */
  datatype Outcome = Refused(path: Path, reason: Reason) | Passed | Failed(failures: seq<Failure>)

  datatype Saved = Saved(path: Path, record: seq<byte>)

  /** A module file under the root, before the command is run. */
  datatype Module = Module(path: Path, file: File)

  predicate Recorded(m: Module) {
    m.file.Regular? && ModuleInfo(m.file.data).Ok? && ModuleInfo(m.file.data).value != []
  }

  predicate Rejected(m: Module) {
    m.file.Unreadable? || (m.file.Regular? && ModuleInfo(m.file.data).Err?)
  }

  function ReasonFor(m: Module): Reason
    requires Rejected(m)
  {
    if m.file.Unreadable? then NotReadable else Malformed(ModuleInfo(m.file.data).error)
  }

  /** The first module that cannot be read. */
  predicate FirstRejected(modules: seq<Module>, i: nat) {
    i < |modules| && Rejected(modules[i]) && forall j :: 0 <= j < i ==> !Rejected(modules[j])
  }

  predicate Distinct(modules: seq<Module>) {
    forall i, j :: 0 <= i < j < |modules| ==> modules[i].path != modules[j].path
  }

  function FileAt(files: map<Path, File>, path: Path): File {
    if path in files then files[path] else NoFile
  }

  /** A recorded module that still holds its record. */
  predicate Kept(m: Module, after: map<Path, File>)
    requires Recorded(m)
  {
    FileAt(after, m.path).Regular? && ModuleInfo(FileAt(after, m.path).data) == ModuleInfo(m.file.data)
  }

  predicate Reports(f: Failure, path: Path) {
    !f.CommandFailed? && f.path == path
  }

  /** What is wrong with a saved module after the command. */
  function Verify(s: Saved, after: map<Path, File>): (r: Option<Failure>)
    ensures r.Some? ==> Reports(r.value, s.path)
  {
    match FileAt(after, s.path)
    case Symlink => Some(Replaced(s.path))
    case Unreadable => Some(NotRead(s.path))
    case NoFile => Some(NotRead(s.path))
    case Regular(data) =>
      match ModuleInfo(data)
      case Err(e) => Some(Invalid(s.path, e))
      case Ok(current) =>
        if current == [] then Some(Removed(s.path))
        else if current != s.record then Some(Changed(s.path))
        else None
  }

  /** The modules that hold a record, with their records. */
  function Records(modules: seq<Module>): seq<Saved> {
    if modules == [] then []
    else
      (if Recorded(modules[0]) then [Saved(modules[0].path, ModuleInfo(modules[0].file.data).value)] else [])
      + Records(modules[1..])
  }

  lemma {:induction false} RecordsOfOneMore(modules: seq<Module>, i: nat)
    requires i < |modules|
    ensures Records(modules[..i + 1]) ==
            Records(modules[..i]) +
            if Recorded(modules[i]) then [Saved(modules[i].path, ModuleInfo(modules[i].file.data).value)] else []
    decreases i
  {
    hide Recorded, ModuleInfo;
    if i == 0 {
      assert modules[..1][1..] == [] && modules[..0] == [];
    } else {
      assert modules[..i + 1][1..] == modules[1..][..i] && modules[..i][1..] == modules[1..][..i - 1];
      RecordsOfOneMore(modules[1..], i - 1);
    }
  }

  /** The first loop: the record of each module, or the first module that cannot be read. */
  method SaveRecords(modules: seq<Module>) returns (saved: seq<Saved>, refused: Option<Module>)
    ensures refused.None? <==> forall i :: 0 <= i < |modules| ==> !Rejected(modules[i])
    ensures refused.Some? ==> exists i: nat :: FirstRejected(modules, i) && modules[i] == refused.value
    ensures refused.None? ==> saved == Records(modules)
  {
    hide ModuleInfo;
    saved := [];
    refused := None;
    assert modules[..|modules|] == modules;
    for i := 0 to |modules|
      invariant forall j :: 0 <= j < i ==> !Rejected(modules[j])
      invariant saved == Records(modules[..i])
    {
      RecordsOfOneMore(modules, i);
      if modules[i].file.Symlink? || modules[i].file.NoFile? {
        continue;
      }
      if modules[i].file.Unreadable? {
        refused := Some(modules[i]);
        assert FirstRejected(modules, i);
        return;
      }
      var record := ReadModuleInfo(modules[i].file.data);
      if record.Err? {
        refused := Some(modules[i]);
        assert FirstRejected(modules, i);
        return;
      }
      if record.value != [] {
        saved := saved + [Saved(modules[i].path, record.value)];
      }
    }
  }

  /** The failures of the saved modules, in order. */
  function Failures(saved: seq<Saved>, after: map<Path, File>): seq<Failure> {
    if saved == [] then []
    else
      (match Verify(saved[0], after) case Some(f) => [f] case None => []) + Failures(saved[1..], after)
  }

  lemma {:induction false} FailuresOfOneMore(saved: seq<Saved>, after: map<Path, File>, i: nat)
    requires i < |saved|
    ensures Failures(saved[..i + 1], after) ==
            Failures(saved[..i], after) + match Verify(saved[i], after) case Some(f) => [f] case None => []
    decreases i
  {
    hide Verify;
    if i == 0 {
      assert saved[..1][1..] == [] && saved[..0] == [];
    } else {
      assert saved[..i + 1][1..] == saved[1..][..i] && saved[..i][1..] == saved[1..][..i - 1];
      FailuresOfOneMore(saved[1..], after, i - 1);
    }
  }

  /** The second loop: every saved module is checked, whatever was found in the modules before it. */
  method CheckRecords(saved: seq<Saved>, after: map<Path, File>, found: seq<Failure>) returns (failures: seq<Failure>)
    ensures failures == found + Failures(saved, after)
  {
    hide ModuleInfo;
    failures := found;
    assert saved[..|saved|] == saved;
    for i := 0 to |saved|
      invariant failures == found + Failures(saved[..i], after)
    {
      FailuresOfOneMore(saved, after, i);
      var path := saved[i].path;
      match FileAt(after, path) {
        case Symlink =>
          failures := failures + [Replaced(path)];
        case Unreadable =>
          failures := failures + [NotRead(path)];
        case NoFile =>
          failures := failures + [NotRead(path)];
        case Regular(data) =>
          var current := ReadModuleInfo(data);
          if current.Err? {
            failures := failures + [Invalid(path, current.error)];
          } else if current.value == [] {
            failures := failures + [Removed(path)];
          } else if current.value != saved[i].record {
            failures := failures + [Changed(path)];
          }
      }
    }
  }

  // ---------- What a run without failures means ----------

  lemma VerifyKept(m: Module, after: map<Path, File>)
    requires Recorded(m)
    ensures Verify(Saved(m.path, ModuleInfo(m.file.data).value), after).None? <==> Kept(m, after)
  {
    hide ModuleInfo;
  }

  /** There is no failure exactly when every recorded module still holds its record. */
  lemma {:induction false} NoFailures(modules: seq<Module>, after: map<Path, File>)
    ensures Failures(Records(modules), after) == [] <==>
            forall i :: 0 <= i < |modules| && Recorded(modules[i]) ==> Kept(modules[i], after)
  {
    hide Kept, ModuleInfo, Verify;
    if modules == [] {
    } else {
      var m, rest := modules[0], modules[1..];
      NoFailures(rest, after);
      assert forall i :: 0 <= i < |rest| ==> rest[i] == modules[i + 1];
      assert (forall i :: 0 <= i < |modules| && Recorded(modules[i]) ==> Kept(modules[i], after)) <==>
             (Recorded(m) ==> Kept(m, after)) &&
             forall i :: 0 <= i < |rest| && Recorded(rest[i]) ==> Kept(rest[i], after) by {
        assert forall i :: 1 <= i < |modules| ==> modules[i] == rest[i - 1];
      }
      if Recorded(m) {
        VerifyKept(m, after);
        var s := Saved(m.path, ModuleInfo(m.file.data).value);
        assert ([s] + Records(rest))[1..] == Records(rest);
      } else {
        assert [] + Records(rest) == Records(rest);
      }
    }
  }

  /** Runs the command between the two loops; its effect is that the files are then as after says. */
  method PreserveMetadata(modules: seq<Module>, commandOk: bool, after: map<Path, File>)
    returns (outcome: Outcome, ran: bool)
    requires Distinct(modules)
    ensures ran <==> forall i :: 0 <= i < |modules| ==> !Rejected(modules[i])
    ensures outcome.Refused? <==> !ran
    ensures outcome.Refused? ==>
              exists i: nat :: FirstRejected(modules, i) && outcome.path == modules[i].path &&
                          outcome.reason == ReasonFor(modules[i])
    ensures outcome.Passed? <==>
            ran && commandOk && forall i :: 0 <= i < |modules| && Recorded(modules[i]) ==> Kept(modules[i], after)
    ensures outcome.Failed? ==>
              outcome.failures == (if commandOk then [] else [CommandFailed]) + Failures(Records(modules), after)
  {
    hide ModuleInfo, Failures, Records, Kept;
    var saved, refused := SaveRecords(modules);
    if refused.Some? {
      var i: nat :| FirstRejected(modules, i) && modules[i] == refused.value;
      return Refused(refused.value.path, ReasonFor(refused.value)), false;
    }
    ran := true;
    var errors: seq<Failure> := if commandOk then [] else [CommandFailed];
    errors := CheckRecords(saved, after, errors);
    NoFailures(modules, after);
    outcome := if errors == [] then Passed else Failed(errors);
  }

  lemma {:induction false} LossReported(modules: seq<Module>, after: map<Path, File>, i: nat)
    requires i < |modules| && Recorded(modules[i]) && !Kept(modules[i], after)
    ensures var f := Verify(Saved(modules[i].path, ModuleInfo(modules[i].file.data).value), after);
            f.Some? && f.value in Failures(Records(modules), after)
    decreases i
  {
    hide Kept, ModuleInfo, Verify;
    var m, rest := modules[0], modules[1..];
    var s := if Recorded(m) then [Saved(m.path, ModuleInfo(m.file.data).value)] else [];
    assert Records(modules) == s + Records(rest);
    assert (s + Records(rest))[|s|..] == Records(rest);
    if i == 0 {
      VerifyKept(m, after);
      assert Failures(Records(modules), after)[0] == Verify(s[0], after).value;
    } else {
      LossReported(rest, after, i - 1);
    }
  }

  /** No failure hides another: every recorded module that lost its record is reported, as replaced by a link, not
      readable, malformed, without a record or with another one. */
  lemma EveryLossReported(modules: seq<Module>, after: map<Path, File>, i: nat)
    requires i < |modules| && Recorded(modules[i]) && !Kept(modules[i], after)
    ensures exists f :: f in Failures(Records(modules), after) && Reports(f, modules[i].path)
    ensures var path, failures := modules[i].path, Failures(Records(modules), after);
            match FileAt(after, path)
            case Symlink => Replaced(path) in failures
            case Unreadable => NotRead(path) in failures
            case NoFile => NotRead(path) in failures
            case Regular(data) =>
              match ModuleInfo(data)
              case Err(e) => Invalid(path, e) in failures
              case Ok(current) => if current == [] then Removed(path) in failures else Changed(path) in failures
  {
    hide ModuleInfo, Failures, Records;
    LossReported(modules, after, i);
    var f := Verify(Saved(modules[i].path, ModuleInfo(modules[i].file.data).value), after).value;
    assert f in Failures(Records(modules), after) && Reports(f, modules[i].path);
  }

  /** Nothing else is reported: each failure is that of a recorded module that lost its record. */
  lemma {:induction false} NoFalseReport(modules: seq<Module>, after: map<Path, File>, f: Failure)
    requires f in Failures(Records(modules), after)
    ensures exists i :: 0 <= i < |modules| && Recorded(modules[i]) && !Kept(modules[i], after) &&
                        Reports(f, modules[i].path)
  {
    hide Kept, ModuleInfo, Verify;
    if modules == [] {
    } else {
      var m, rest := modules[0], modules[1..];
      var s := if Recorded(m) then [Saved(m.path, ModuleInfo(m.file.data).value)] else [];
      assert Records(modules) == s + Records(rest) && (s + Records(rest))[|s|..] == Records(rest);
      if f in Failures(Records(rest), after) {
        NoFalseReport(rest, after, f);
        var i :| 0 <= i < |rest| && Recorded(rest[i]) && !Kept(rest[i], after) && Reports(f, rest[i].path);
        assert modules[i + 1] == rest[i];
      } else {
        VerifyKept(m, after);
        assert modules[0] == m;
      }
    }
  }

  /** A command that moves the segments of every module but keeps the contents of its notes passes the check. */
  lemma RelayoutIsKept(m: Module, after: map<Path, File>, p: Places, segments: seq<Segment>,
                       p': Places, segments': seq<Segment>)
    requires Recorded(m) && Laid(m.file.data, p, segments)
    requires m.path in after && after[m.path].Regular? && Laid(after[m.path].data, p', segments')
    requires NoteContents(segments) == NoteContents(segments')
    ensures Kept(m, after)
  {
    hide ModuleInfo, Laid;
    LayoutIndependent(m.file.data, p, segments, after[m.path].data, p', segments');
  }
}
