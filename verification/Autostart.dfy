/** The autostart override: a managed mask is put in the place of the user's own file, which waits in a backup. */
module Autostart {
  import opened Options

  const MARKER: string := "X-PipeTune-Managed-Autostart-Mask=true"
  const HEAD: string := "[Desktop Entry]\nType=Application\nHidden=true\n"
  const MASK: string := HEAD + MARKER + "\n"
  const MAXIMUM_BYTES: nat := 64 * 1024
  const BUFFER_BYTES: nat := 4096

  // ---------------------------------------------------------------- recognising a mask

  function WithoutReturn(line: string): string {
    if line != "" && line[|line| - 1] == '\r' then line[..|line| - 1] else line
  }

  /** `from..to` is one line of the text, without its newline. */
  predicate IsLine(text: string, from: nat, to: nat) {
    && from <= to <= |text|
    && (from == 0 || text[from - 1] == '\n') && (to == |text| || text[to] == '\n')
    && forall k | from <= k < to :: text[k] != '\n'
  }

  ghost predicate HasMarkerLine(text: string) {
    exists from: nat, to: nat :: IsLine(text, from, to) && WithoutReturn(text[from..to]) == MARKER
  }

  ghost predicate Managed(body: string) { |body| <= MAXIMUM_BYTES && HasMarkerLine(body) }

  /** Reads the file a buffer at a time and gives up once it is too long. */
  method ReadBody(body: string) returns (contents: Option<string>)
    ensures contents == if |body| <= MAXIMUM_BYTES then Some(body) else None
  {
    var text := "";
    while |text| < |body|
      invariant |text| <= |body| && text == body[..|text|] && |text| <= MAXIMUM_BYTES
    {
      var count := if |body| - |text| < BUFFER_BYTES then |body| - |text| else BUFFER_BYTES;
      text := text + body[|text|..|text| + count];
      if |text| > MAXIMUM_BYTES {
        return None;
      }
    }
    assert text == body;
    contents := Some(text);
  }

  method NextNewline(text: string, offset: nat) returns (end: nat)
    requires offset <= |text|
    ensures offset <= end <= |text| && forall k | offset <= k < end :: text[k] != '\n'
    ensures end == |text| || text[end] == '\n'
  {
    end := offset;
    while end < |text| && text[end] != '\n'
      invariant offset <= end <= |text| && forall k | offset <= k < end :: text[k] != '\n'
    {
      end := end + 1;
    }
  }

  /** A line that starts within another one, or right at its end, is that line. */
  lemma LinesDoNotOverlap(text: string, a: nat, b: nat, c: nat, d: nat)
    requires IsLine(text, a, b) && IsLine(text, c, d) && a <= c <= b
    ensures a == c && b == d
  {
  }

  method HasMarker(text: string) returns (found: bool)
    ensures found <==> HasMarkerLine(text)
  {
    var offset := 0;
    while true
      invariant offset <= |text| && (offset == 0 || text[offset - 1] == '\n')
      invariant forall from: nat, to: nat | from < offset && IsLine(text, from, to) :: WithoutReturn(text[from..to]) != MARKER
      decreases |text| - offset
    {
      var end := NextNewline(text, offset);
      var line := WithoutReturn(text[offset..end]);
      assert IsLine(text, offset, end);
      if line == MARKER {
        return true;
      }
      forall from: nat, to: nat | from <= end && IsLine(text, from, to) ensures WithoutReturn(text[from..to]) != MARKER {
        if from >= offset {
          LinesDoNotOverlap(text, offset, end, from, to);
        }
      }
      if end == |text| {
        return false;
      }
      offset := end + 1;
    }
  }

  method IsManagedMask(body: string) returns (managed: bool)
    ensures managed <==> Managed(body)
  {
    var contents := ReadBody(body);
    if contents.None? {
      return false;
    }
    managed := HasMarker(contents.value);
  }

  lemma MarkerIsOneLine()
    ensures (forall k | 0 <= k < |MARKER| :: MARKER[k] != '\n') && MARKER[|MARKER| - 1] != '\r'
  {
  }

  /** The scanner recognises what the writer writes. */
  lemma MaskIsManaged()
    ensures Managed(MASK)
  {
    MarkerIsOneLine();
    HeadEndsLine();
    Framed(HEAD, MARKER, "\n");
    assert MASK == HEAD + MARKER + "\n";
    MaskFits();
  }

  lemma HeadEndsLine()
    ensures HEAD[|HEAD| - 1] == '\n'
  {
  }

  lemma MaskFits()
    ensures |MASK| <= MAXIMUM_BYTES
  {
  }

  /** A marker on a line of its own is found. */
  lemma Framed(head: string, line: string, rest: string)
    requires line == MARKER && line != "" && line[|line| - 1] != '\r' && forall k | 0 <= k < |line| :: line[k] != '\n'
    requires head != "" && head[|head| - 1] == '\n' && rest != "" && rest[0] == '\n'
    ensures HasMarkerLine(head + line + rest)
  {
    var text, from, to := head + line + rest, |head|, |head| + |line|;
    assert text[from..to] == line;
    assert forall k | from <= k < to :: text[k] == line[k - from];
    assert IsLine(text, from, to);
  }

  // ---------------------------------------------------------------- the two files

  /** The user's override and its backup: the body of each, if it exists. */
  datatype Files = Files(target: Option<string>, backup: Option<string>)

  /** Which file operations of one call fail. A file that cannot be read does not look managed. */
  datatype MaskFaults = MaskFaults(
    inspectTarget: bool, readTarget: bool, inspectBackup: bool, moveAway: bool, write: bool, rollBack: bool)

  datatype RestoreFaults = RestoreFaults(
    inspectTarget: bool, inspectBackup: bool, readTarget: bool, remove: bool, moveBack: bool)

  datatype Warning = BackupRemains | OrphanedBackup | UnmanagedPreserved | BackupPreserved

  datatype Update = Update(files: Files, success: bool, warnings: seq<Warning>)

  ghost predicate LooksManaged(file: Option<string>, unreadable: bool) { file.Some? && !unreadable && Managed(file.value) }

  ghost function Masked(f: Files, x: MaskFaults): Update {
    if x.inspectTarget then Update(f, false, [])
    else if LooksManaged(f.target, x.readTarget) then Update(f, true, [])
    else if f.target.None? then
      if x.write then Update(f, false, []) else Update(f.(target := Some(MASK)), true, [])
    else if x.inspectBackup || f.backup.Some? || x.moveAway then Update(f, false, [])
    else if !x.write then Update(Files(Some(MASK), f.target), true, [])
    else if x.rollBack then Update(Files(None, f.target), false, [BackupRemains])
    else Update(f, false, [])
  }

  ghost function Restored(f: Files, x: RestoreFaults): Update {
    if x.inspectTarget || x.inspectBackup then Update(f, false, [])
    else if f.target.None? then Update(f, true, if f.backup.Some? then [OrphanedBackup] else [])
    else if !LooksManaged(f.target, x.readTarget) then
      Update(f, true, [UnmanagedPreserved] + if f.backup.Some? then [BackupPreserved] else [])
    else if x.remove then Update(f, false, [])
    else if f.backup.None? then Update(Files(None, None), true, [])
    else if x.moveBack then Update(Files(None, f.backup), false, [BackupRemains])
    else Update(Files(f.backup, None), true, [])
  }

  class AutostartFiles {
    var target: Option<string>
    var backup: Option<string>

    function Contents(): Files reads this { Files(target, backup) }

    constructor (f: Files)
      ensures Contents() == f
    {
      target, backup := f.target, f.backup;
    }

    method TargetLooksManaged(unreadable: bool) returns (r: bool)
      ensures r <==> LooksManaged(target, unreadable)
    {
      if target.None? || unreadable {
        return false;
      }
      r := IsManagedMask(target.value);
    }

    method MoveTargetToBackup(fails: bool) returns (ok: bool)
      requires target.Some?
      modifies this
      ensures ok <==> !fails
      ensures Contents() == if ok then Files(None, old(target)) else old(Contents())
    {
      ok := !fails;
      if ok {
        target, backup := None, target;
      }
    }

    method MoveBackupToTarget(fails: bool) returns (ok: bool)
      requires backup.Some?
      modifies this
      ensures ok <==> !fails
      ensures Contents() == if ok then Files(old(backup), None) else old(Contents())
    {
      ok := !fails;
      if ok {
        target, backup := backup, None;
      }
    }

    method MaskGtkAutostart(x: MaskFaults) returns (success: bool, warnings: seq<Warning>)
      modifies this
      ensures Update(Contents(), success, warnings) == Masked(old(Contents()), x)
    {
      warnings := [];
      if x.inspectTarget {
        return false, [];
      }
      var targetExists := target.Some?;
      var managed := TargetLooksManaged(x.readTarget);
      if targetExists && managed {
        return true, [];
      }
      var movedCustomOverride := false;
      if targetExists {
        if x.inspectBackup || backup.Some? {
          return false, [];
        }
        var moved := MoveTargetToBackup(x.moveAway);
        if !moved {
          return false, [];
        }
        movedCustomOverride := true;
      }
      if x.write {
        if movedCustomOverride {
          var rolledBack := MoveBackupToTarget(x.rollBack);
          if !rolledBack {
            warnings := [BackupRemains];
          }
        }
        return false, warnings;
      }
      target := Some(MASK);
      success := true;
    }

    method RestoreGtkAutostart(x: RestoreFaults) returns (success: bool, warnings: seq<Warning>)
      modifies this
      ensures Update(Contents(), success, warnings) == Restored(old(Contents()), x)
    {
      warnings := [];
      if x.inspectTarget || x.inspectBackup {
        return false, [];
      }
      if target.None? {
        if backup.Some? {
          warnings := [OrphanedBackup];
        }
        return true, warnings;
      }
      var managed := TargetLooksManaged(x.readTarget);
      if !managed {
        warnings := [UnmanagedPreserved];
        if backup.Some? {
          warnings := warnings + [BackupPreserved];
        }
        return true, warnings;
      }
      if x.remove {
        return false, [];
      }
      target := None;
      if backup.Some? {
        var moved := MoveBackupToTarget(x.moveBack);
        if !moved {
          return false, [BackupRemains];
        }
      }
      success := true;
    }
  }

  // ---------------------------------------------------------------- any sequence of calls, with any failures

  datatype Call = Mask(maskFaults: MaskFaults) | Restore(restoreFaults: RestoreFaults)

  ghost function Do(f: Files, call: Call): Update {
    match call
    case Mask(x) => Masked(f, x)
    case Restore(x) => Restored(f, x)
  }

  ghost function Run(f: Files, calls: seq<Call>): Files {
    if calls == [] then f else Do(Run(f, calls[..|calls| - 1]), calls[|calls| - 1]).files
  }

  /** The bodies, counted, that were not written by the program. */
  ghost function Unmanaged(file: Option<string>): multiset<string> {
    if file.Some? && !Managed(file.value) then multiset{file.value} else multiset{}
  }

  ghost function Custom(f: Files): multiset<string> { Unmanaged(f.target) + Unmanaged(f.backup) }

  lemma CallKeepsCustom(f: Files, call: Call)
    ensures Custom(Do(f, call).files) == Custom(f)
  {
    MaskIsManaged();
    hide Managed;
    assert Unmanaged(None) == multiset{} && Unmanaged(Some(MASK)) == multiset{};
    if f.target.Some? && Managed(f.target.value) {
      assert Unmanaged(f.target) == multiset{};
    }
    hide *;
    NothingAdded(Unmanaged(f.target));
    NothingAdded(Unmanaged(f.backup));
    CallKeepsBodies(f, call);
  }

  lemma NothingAdded(m: multiset<string>)
    ensures m + multiset{} == m == multiset{} + m
  {
  }

  lemma CallKeepsBodies(f: Files, call: Call)
    requires Unmanaged(None) == multiset{} && Unmanaged(Some(MASK)) == multiset{}
    requires f.target.Some? && Managed(f.target.value) ==> Unmanaged(f.target) == multiset{}
    requires Unmanaged(f.target) + multiset{} == Unmanaged(f.target) == multiset{} + Unmanaged(f.target)
    requires Unmanaged(f.backup) + multiset{} == Unmanaged(f.backup) == multiset{} + Unmanaged(f.backup)
    ensures Custom(Do(f, call).files) == Custom(f)
  {
    hide Managed, Unmanaged;
  }

  /** Through any calls with any failures, no body of the user's is lost, duplicated or altered. */
  lemma {:induction false} CustomBodiesSurvive(f: Files, calls: seq<Call>)
    ensures Custom(Run(f, calls)) == Custom(f)
  {
    hide Custom, Do;
    if calls != [] {
      CustomBodiesSurvive(f, calls[..|calls| - 1]);
      CallKeepsCustom(Run(f, calls[..|calls| - 1]), calls[|calls| - 1]);
    }
  }

  /** An existing backup stays as it is until it becomes the target again: masking never touches it, and restoring
      moves it only in the place of a mask. */
  lemma BackupIsNeverOverwritten(f: Files, call: Call)
    requires f.backup.Some?
    ensures var after := Do(f, call).files;
      after.backup == f.backup
      || (call.Restore? && f.target.Some? && Managed(f.target.value) && after == Files(f.backup, None))
  {
    hide Managed;
  }

  /** A failed call leaves the files as they were, unless its last move back failed too: then the only body sits in
      the backup and the caller is warned. */
  lemma FailureLeavesFiles(f: Files, call: Call)
    requires !Do(f, call).success
    ensures Do(f, call).files == f || (Do(f, call).warnings == [BackupRemains] && Do(f, call).files.target.None?
              && Do(f, call).files.backup == if call.Mask? then f.target else f.backup)
  {
    hide Managed;
  }

  const NO_MASK_FAULTS: MaskFaults := MaskFaults(false, false, false, false, false, false)
  const NO_RESTORE_FAULTS: RestoreFaults := RestoreFaults(false, false, false, false, false)

  /** Masking succeeds exactly when a mask is there already, when there is no override and the mask can be written, or when
      the user's own override can be set aside, no older backup being in its place, and the mask can be written. On
      success the user's own override is in the backup, unless there was none. */
  lemma MaskSucceedsIff(f: Files, x: MaskFaults)
    ensures var mine := f.target.Some? && (x.readTarget || !Managed(f.target.value));
      var r := Masked(f, x);
      && (r.success <==>
            && !x.inspectTarget
            && ((f.target.Some? && !mine) || (f.target.None? && !x.write)
                || (mine && !x.inspectBackup && f.backup.None? && !x.moveAway && !x.write)))
      && (r.success ==> r.files.backup == if mine then f.target else f.backup)
      && (r.success && f.target.Some? && !mine ==> r.files == f)
  {
    hide Managed;
  }

  /** Restoring succeeds exactly when both files can be inspected and, if a mask is in place, it can be removed and the
      backup, if any, moved back; then no mask that could be read is left, and a file of the user's was not touched. */
  lemma RestoreSucceedsIff(f: Files, x: RestoreFaults)
    ensures var masked := f.target.Some? && !x.readTarget && Managed(f.target.value);
      var r := Restored(f, x);
      && (r.success <==> !x.inspectTarget && !x.inspectBackup && (masked ==> !x.remove && (f.backup.Some? ==> !x.moveBack)))
      && (r.success ==> r.files == if masked then Files(f.backup, None) else f)
      && (r.success && !masked ==> (r.warnings == [] <==> f == Files(None, None)))
  {
    hide Managed;
  }

  /** After any successful mask a managed file is in place, and masking again changes nothing and succeeds. */
  lemma MaskIsIdempotent(f: Files, x: MaskFaults)
    requires Masked(f, x).success
    ensures var once := Masked(f, x).files;
      once.target.Some? && Managed(once.target.value) && Masked(once, NO_MASK_FAULTS) == Update(once, true, [])
  {
    MaskIsManaged();
    hide Managed;
  }

  /** A mask and a restore without failures give back both files exactly when the user had an unmanaged override,
      or no file at all: a mask that was already there, or an orphaned backup, is not what comes back. */
  lemma MaskThenRestore(f: Files)
    ensures Restored(Masked(f, NO_MASK_FAULTS).files, NO_RESTORE_FAULTS).files == f
            <==> if f.target.Some? then !Managed(f.target.value) else f.backup.None?
  {
    MaskIsManaged();
    hide Managed;
  }

  /** An orphaned backup takes the place of the missing override after a mask and a restore. */
  lemma OrphanComesBack(body: string)
    ensures Restored(Masked(Files(None, Some(body)), NO_MASK_FAULTS).files, NO_RESTORE_FAULTS).files == Files(Some(body), None)
  {
    MaskIsManaged();
    hide Managed;
  }
}
